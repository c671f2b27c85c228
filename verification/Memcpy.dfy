/** memcpy (os/page.c:645-678) over the bytes of the machine. */
module Memcpy {
  import opened Flags

  /** The memory after n bytes from src were moved to dest, every byte read before any is
      written (memmove, ISO/IEC 9899:2011 section 7.24.2.2). */
  function Moved(m: seq<byte>, dest: nat, src: nat, n: nat): (r: seq<byte>)
    requires dest + n <= |m| && src + n <= |m|
    ensures |r| == |m|
  {
    seq(|m|, k requires 0 <= k < |m| => if dest <= k < dest + n then m[src + (k - dest)] else m[k])
  }

  /** The same memory, byte by byte. */
  lemma MovedAt(m: seq<byte>, dest: nat, src: nat, n: nat, k: nat)
    requires dest + n <= |m| && src + n <= |m| && k < |m|
    ensures Moved(m, dest, src, n)[k] == if dest <= k < dest + n then m[src + (k - dest)] else m[k]
  {
  }

  /** None stands for the panic: the destination must lie inside the heap. */
  method Memcpy(mem: array<byte>, allocStart: nat, allocEnd: nat, dest: nat, src: nat, n: nat)
    returns (r: Option<nat>)
    requires allocEnd <= mem.Length && src + n <= mem.Length
    modifies mem
    ensures r.None? <==> dest < allocStart || dest + n > allocEnd
    ensures r.None? ==> mem[..] == old(mem[..])
    ensures r.Some? ==> r.value == dest && mem[..] == Moved(old(mem[..]), dest, src, n)
  {
    if dest < allocStart || dest + n > allocEnd { return None; }
    if dest == src {
      assert mem[..] == Moved(mem[..], dest, src, n);
      return Some(dest);
    }
    if dest < src {
      CopyUp(mem, dest, src, n);
    } else {
      CopyDown(mem, dest, src, n);
    }
    return Some(dest);
  }

  /** One byte more, read from memory that has already changed. */
  lemma MovedUp(m: seq<byte>, dest: nat, src: nat, n: nat)
    requires dest < src && src + n < |m|
    ensures var w := Moved(m, dest, src, n); w[dest + n := w[src + n]] == Moved(m, dest, src, n + 1)
  {
  }

  method CopyByteUp(mem: array<byte>, dp: nat, sp: nat, ghost was: seq<byte>, ghost dest: nat, ghost src: nat,
      ghost j: nat)
    requires dest < src && dp == dest + j && sp == src + j < mem.Length == |was|
    requires mem[..] == Moved(was, dest, src, j)
    modifies mem
    ensures mem[..] == Moved(was, dest, src, j + 1)
  {
    MovedUp(was, dest, src, j);
    mem[dp] := mem[sp];
  }

  /** Forwards, for a destination below the source. */
  method CopyUp(mem: array<byte>, dest: nat, src: nat, n: nat)
    requires dest < src && src + n <= mem.Length
    modifies mem
    ensures mem[..] == Moved(old(mem[..]), dest, src, n)
  {
    ghost var was, j := mem[..], 0;
    NothingMoved(was, dest, src);
    var k, dp, sp := n, dest, src;
    while k > 0
      invariant 0 <= k <= n && j == n - k && dp == dest + j && sp == src + j
      invariant mem[..] == Moved(was, dest, src, j)
    {
      CopyByteUp(mem, dp, sp, was, dest, src, j);
      dp, sp := dp + 1, sp + 1;
      k, j := k - 1, j + 1;
    }
  }

  /** Backwards, for a destination above the source. */
  method CopyDown(mem: array<byte>, dest: nat, src: nat, n: nat)
    requires src < dest && dest + n <= mem.Length
    modifies mem
    ensures mem[..] == Moved(old(mem[..]), dest, src, n)
  {
    ghost var was := mem[..];
    var k, dp, sp := n, dest + n, src + n;
    while k > 0
      invariant 0 <= k <= n && dp == dest + k && sp == src + k
      invariant forall i :: dp <= i < dest + n ==> mem[i] == was[src + (i - dest)]
      invariant forall i :: 0 <= i < mem.Length && !(dp <= i < dest + n) ==> mem[i] == was[i]
    {
      dp, sp := dp - 1, sp - 1;
      mem[dp] := mem[sp];
      k := k - 1;
    }
  }

  lemma NothingMoved(m: seq<byte>, dest: nat, src: nat)
    requires dest <= |m| && src <= |m|
    ensures Moved(m, dest, src, 0) == m
  {
  }
}
