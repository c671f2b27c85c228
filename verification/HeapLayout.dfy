/** Where the heap lies (os/page.c:112-125, 187-205, os/os.ld:51-54, 135-142), in the address
    arithmetic of either build, and where the block table of a malloc page lies
    (os/page.c:310-326). */
module HeapLayout {
  import opened Hart
  import opened BlockTable
  import Flags
  import T = Trap

  /** What masking with ~(PAGE_SIZE - 1) does to a 32-bit and to a 64-bit word: it takes off the
      remainder. */
  lemma MaskTakesOffRemainder(a: bv32, b: bv64)
    ensures a & !4095 == a - a % 4096
    ensures b & !4095 == b - b % 4096
  {
  }

  /** An address, which is as wide as a register. */
  predicate IsAddress(a: Arch, x: int) { 0 <= x < T.Words(a) }

  function Wrap(a: Arch, x: int): (w: nat)
    ensures IsAddress(a, w)
  {
    if a.RV32? then x % 0x1_0000_0000 else x % 0x1_0000_0000_0000_0000
  }

  predicate PageAligned(x: int) { x % 4096 == 0 }

  /** _align_page. */
  function AlignPage(a: Arch, x: nat): nat {
    var y := Wrap(a, x + 4095);
    y - y % 4096
  }

  /** The mask yields the least page multiple at or above its argument, unless the sum wraps;
      then it yields address 0. */
  lemma AlignPageIsLeast(a: Arch, x: nat)
    requires IsAddress(a, x)
    ensures PageAligned(AlignPage(a, x))
    ensures x <= T.Words(a) - 4096 ==> x <= AlignPage(a, x) && forall y :: PageAligned(y) && x <= y ==>
        AlignPage(a, x) <= y
    ensures x > T.Words(a) - 4096 ==> AlignPage(a, x) == 0
  {
    if x <= T.Words(a) - 4096 {
      NoWrap(a, x + 4095);
    }
  }

  // page_init
  function NumPages(a: Arch, heapStart: nat, heapEnd: nat): nat {
    Wrap(a, Wrap(a, heapEnd - heapStart) / 4096 - 8)
  }

  function AllocStart(a: Arch, heapStart: nat): nat { AlignPage(a, Wrap(a, heapStart + 8 * 4096)) }

  function AllocEnd(a: Arch, allocStart: nat, numPages: nat): nat {
    Wrap(a, allocStart + Wrap(a, numPages * 4096))
  }

  /** The heap ends page-aligned, and spans at least 8 pages and at most the 128 MB of ram. */
  predicate SaneHeap(a: Arch, heapStart: nat, heapEnd: nat) {
    IsAddress(a, heapEnd) && PageAligned(heapEnd) && 8 * 4096 <= heapEnd - heapStart <= 0x800_0000
  }

  /** No step of page_init wraps: the pages handed out start page-aligned and fill the rest
      of the heap exactly, and their descriptors, one byte a page, end at or below the first
      of them. */
  lemma PagesFillHeap(a: Arch, heapStart: nat, heapEnd: nat)
    requires SaneHeap(a, heapStart, heapEnd)
    ensures var start, pages := AllocStart(a, heapStart), NumPages(a, heapStart, heapEnd);
      && PageAligned(start) && start <= heapEnd && heapStart + pages <= start
      && AllocEnd(a, start, pages) == heapEnd == start + pages * 4096
  {
    var n, q := heapEnd / 4096, (heapStart + 4095) / 4096;
    assert heapEnd == n * 4096;
    StartIsPageMultiple(a, heapStart, q);
    CountPages(a, heapStart, n, q);
    EndsTogether(a, heapStart, q, n, AllocStart(a, heapStart), NumPages(a, heapStart, heapEnd));
  }

  lemma EndsTogether(a: Arch, heapStart: nat, q: nat, n: nat, start: nat, pages: nat)
    requires q + 8 <= n && n * 4096 < T.Words(a) && start == (q + 8) * 4096 && pages == n - q - 8
    requires heapStart <= q * 4096 && pages <= 0x8000
    ensures PageAligned(start) && start <= n * 4096 && heapStart + pages <= start
    ensures AllocEnd(a, start, pages) == n * 4096 == start + pages * 4096
  {
    NoWrap(a, pages * 4096);
    NoWrap(a, n * 4096);
  }

  lemma StartIsPageMultiple(a: Arch, heapStart: nat, q: nat)
    requires heapStart + 8 * 4096 <= T.Words(a) - 4096 && q == (heapStart + 4095) / 4096
    ensures AllocStart(a, heapStart) == (q + 8) * 4096
  {
    NoWrap(a, heapStart + 8 * 4096);
    NoWrap(a, heapStart + 8 * 4096 + 4095);
    TakeOffRemainder(heapStart + 4095);
    assert AllocStart(a, heapStart) == AlignPage(a, heapStart + 8 * 4096);
  }

  lemma NoWrap(a: Arch, x: int)
    requires IsAddress(a, x)
    ensures Wrap(a, x) == x
  {
  }

  lemma TakeOffRemainder(x: nat)
    ensures var y := x + 8 * 4096; y - y % 4096 == (x / 4096 + 8) * 4096
  {
  }

  lemma CountPages(a: Arch, heapStart: nat, n: nat, q: nat)
    requires q == (heapStart + 4095) / 4096 && n * 4096 < T.Words(a) && 8 * 4096 <= n * 4096 - heapStart <= 0x800_0000
    ensures NumPages(a, heapStart, n * 4096) == n - q - 8 >= 0
    ensures n - q - 8 <= 0x8000
  {
    assert (n * 4096 - heapStart) / 4096 == n - q;
    NoWrap(a, n * 4096 - heapStart);
    NoWrap(a, n - q - 8);
  }

  /** With fewer than 8 pages the page count wraps instead of being refused. */
  lemma SmallHeapWraps(a: Arch, heapStart: nat, heapEnd: nat)
    requires heapStart <= heapEnd && IsAddress(a, heapEnd)
    ensures NumPages(a, heapStart, heapEnd) >= T.Words(a) / 4096 <==> heapEnd - heapStart < 8 * 4096
  {
  }

  // ---------------------------------------------------------------- inside a malloc page

  /** Offset in its page of entry j of the block table, as os/page.c:310-313 computes it. */
  function TableEntryAsWritten(j: nat): nat { 3276 - 1 + j }

  /** The last 820 bytes, where os/page.c:480-481 wants the table. */
  function TableEntry(j: nat): nat { 4096 - 820 + j }

  /** A request of size bytes at block i and the table as written have a byte in common if and
      only if the request ends with the last payload byte of the page. */
  lemma AsWrittenTableOverlapsIff(i: nat, size: nat)
    requires size >= 1 && i + BlocksFor(size) <= BLOCKS
    ensures (exists j: nat :: j < TABLE_SIZE && i * 4 <= TableEntryAsWritten(j) < i * 4 + size) <==>
        i * 4 + size == 3276
  {
    if i * 4 + size == 3276 {
      assert i * 4 <= TableEntryAsWritten(0) < i * 4 + size;
    }
  }

  /** The common byte is the last of the request, and the descriptor of block 0. */
  lemma AsWrittenHitsBlock0(i: nat, size: nat, j: nat)
    requires size >= 1 && i * 4 + size == 3276 && j < TABLE_SIZE
    ensures i * 4 <= TableEntryAsWritten(j) < i * 4 + size <==> j == 0
    ensures TableEntryAsWritten(0) == i * 4 + size - 1
  {
  }

  /** malloc(3276) on a fresh page: the last byte of the memory is the descriptor of its own first
      block.  A user who clears it makes block 0 free for the next request. */
  lemma AsWrittenWholePage(b: Flags.byte)
    ensures BlocksFor(3276) == BLOCKS && TableEntryAsWritten(0) == 3275
    ensures var t := Take(Fresh(), 0, BLOCKS).blocks[0 := b];
      FirstAccepted(t, 0, 1, AsIntended) <==> !Flags.IsTaken(b)
  {
    var t := Take(Fresh(), 0, BLOCKS).blocks[0 := b];
    assert t[0] == b && (Flags.IsTaken(t[0]) ==> !Fits(t, 0, 1, AsIntended));
  }

  /** The payload of n blocks from block i and the table as written have a byte in common if
      and only if the window includes block 818, whose last byte is entry 0. */
  lemma AsWrittenTableMeetsBlocksIff(i: nat, n: nat)
    requires n >= 1 && i + n <= BLOCKS
    ensures (exists j: nat :: j < TABLE_SIZE && i * 4 <= TableEntryAsWritten(j) < (i + n) * 4) <==> i + n == BLOCKS
  {
    AsWrittenTableOverlapsIff(i, n * 4);
  }

  /** The intended table has no byte in common with any payload, and fills the page. */
  lemma TableIsSeparate(i: nat, n: nat, j: nat)
    requires i + n <= BLOCKS && j < TABLE_SIZE
    ensures (i + n) * 4 <= TableEntry(j) < 4096
  {
  }
}
