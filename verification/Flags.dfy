/** Descriptor bytes of the two allocators: one byte a page, one byte a block
    (os/page.c:62-104).  Bits 0-3 are flags; in the descriptor of block 818 bits 6-7
    belong to the usage counter. */
module Flags {

  type byte = bv8

  datatype Option<+T> = None | Some(value: T)

  /** Marks a position of a list or of a run at which a proof looks. */
  predicate At(i: nat) { true }

  const TAKEN: byte := 1
  const LAST: byte := 2
  const FIRST: byte := 4
  const MALLOC: byte := 8

  predicate IsTaken(b: byte) { b & TAKEN != 0 }
  predicate IsLast(b: byte) { b & LAST != 0 }
  predicate IsFirst(b: byte) { b & FIRST != 0 }
  predicate IsMalloced(b: byte) { b & MALLOC != 0 }

  /** Setting LAST touches no other flag. */
  function WithLast(b: byte): (c: byte)
    ensures IsLast(c) && (IsTaken(c) <==> IsTaken(b)) && (IsFirst(c) <==> IsFirst(b))
    ensures IsMalloced(c) <==> IsMalloced(b)
    ensures IsLast(b) ==> c == b
  {
    b | LAST
  }

  /** The descriptor of member j of a run that occupies [i, i + n): the flags a fresh
      allocation leaves behind. */
  function RunFlags(i: nat, n: nat, j: nat): (b: byte)
    requires i <= j < i + n
    ensures IsTaken(b) && !IsMalloced(b)
    ensures IsFirst(b) <==> j == i
    ensures IsLast(b) <==> j == i + n - 1
    ensures b < 64
  {
    TAKEN | (if j == i then FIRST else 0) | (if j == i + n - 1 then LAST else 0)
  }
}
