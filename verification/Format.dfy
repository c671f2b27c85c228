/** What the formatter of os/printf.c renders, without a buffer: the format string is taken apart
    into pieces, and each piece has a text. */
module Format {
  import opened Hart
  import opened Numbers

  /** The characters of a C string in front of its NUL. */
  type CString = s: string | NoNul(s)

  predicate NoNul(s: string) { forall i :: 0 <= i < |s| ==> s[i] != '\0' }

  datatype Arg = Number(v: int) | Text(s: CString)

  datatype Piece = Literal(c: char) | Dec(long: bool) | HexNum(long: bool) | Pointer | Str

  datatype Pieces = Done | More(p: Piece, rest: Pieces)

  /** The pieces from position i on.  After a % every character that is not a directive is
      skipped, a second % too; l marks the next number as long; and c stands for itself. */
  function PiecesFrom(s: string, i: nat, format: bool, long: bool): Pieces
    requires i <= |s|
    decreases |s| - i
  {
    if i == |s| then Done
    else if !format then
      if s[i] == '%' then PiecesFrom(s, i + 1, true, long) else More(Literal(s[i]), PiecesFrom(s, i + 1, false, long))
    else match s[i]
      case 'd' => More(Dec(long), PiecesFrom(s, i + 1, false, false))
      case 'l' => PiecesFrom(s, i + 1, true, true)
      case 'p' => More(Pointer, PiecesFrom(s, i + 1, false, false))
      case 'x' => More(HexNum(long), PiecesFrom(s, i + 1, false, false))
      case 's' => More(Str, PiecesFrom(s, i + 1, false, false))
      case 'c' => More(Literal('c'), PiecesFrom(s, i + 1, false, false))
      case _ => PiecesFrom(s, i + 1, true, long)
  }

  function PiecesOf(s: string): Pieces { PiecesFrom(s, 0, false, false) }

  /** Hexadecimal digits: two for each byte of an int or a long. */
  function Width(a: Arch, long: bool): nat { 2 * (if long then Bytes(a) else 4) }

  predicate Suits(a: Arch, p: Piece, g: Arg) {
    match p
    case Literal(_) => true
    case Dec(long) => g.Number? && if long then IsLong(a, g.v) else IsInt(g.v)
    case HexNum(long) => g.Number? && if long then IsLong(a, g.v) else IsInt(g.v)
    case Pointer => g.Number? && IsLong(a, g.v)
    case Str => g.Text?
  }

  /** What va_arg demands of the caller: arguments of the right types, from position k on. */
  predicate Fits(a: Arch, ps: Pieces, args: seq<Arg>, k: nat)
    decreases ps
  {
    match ps
    case Done => true
    case More(Literal(_), rest) => Fits(a, rest, args, k)
    case More(p, rest) => k < |args| && Suits(a, p, args[k]) && Fits(a, rest, args, k + 1)
  }

  function TextOf(a: Arch, p: Piece, g: Arg): string
    requires Suits(a, p, g)
  {
    match p
    case Literal(c) => [c]
    case Dec(_) => Decimal(a, g.v)
    case HexNum(long) => Hex(g.v, Width(a, long))
    case Pointer => "0x" + Hex(g.v, Width(a, true))
    case Str => g.s
  }

  function Render(a: Arch, ps: Pieces, args: seq<Arg>, k: nat): string
    requires Fits(a, ps, args, k)
    decreases ps
  {
    match ps
    case Done => ""
    case More(Literal(c), rest) => [c] + Render(a, rest, args, k)
    case More(p, rest) => TextOf(a, p, args[k]) + Render(a, rest, args, k + 1)
  }

  /** The text of a format and its arguments. */
  function Rendering(a: Arch, s: CString, args: seq<Arg>): string
    requires Fits(a, PiecesOf(s), args, 0)
  {
    Render(a, PiecesOf(s), args, 0)
  }

  /** Text without a % renders as itself and takes no arguments. */
  lemma {:induction false} PlainText(a: Arch, s: string, i: nat, args: seq<Arg>, k: nat)
    requires i <= |s| && forall j :: i <= j < |s| ==> s[j] != '%'
    ensures Fits(a, PiecesFrom(s, i, false, false), args, k)
    ensures Render(a, PiecesFrom(s, i, false, false), args, k) == s[i..]
    decreases |s| - i
  {
    if i < |s| {
      PlainText(a, s, i + 1, args, k);
    }
  }

  // ---------------------------------------------------------------- what formats can say

  function SpellPiece(p: Piece): string {
    match p
    case Literal(c) => [c]
    case Dec(long) => if long then "%ld" else "%d"
    case HexNum(long) => if long then "%lx" else "%x"
    case Pointer => "%p"
    case Str => "%s"
  }

  /** A format for given pieces. */
  function Spell(ps: Pieces): string {
    match ps
    case Done => ""
    case More(p, rest) => SpellPiece(p) + Spell(rest)
  }

  predicate NoPercent(ps: Pieces) {
    match ps
    case Done => true
    case More(p, rest) => p != Literal('%') && NoPercent(rest)
  }

  /** What is in front of a position does not matter. */
  lemma {:induction false} PiecesShift(p: string, s: string, i: nat, format: bool, long: bool)
    requires i <= |s|
    ensures PiecesFrom(p + s, |p| + i, format, long) == PiecesFrom(s, i, format, long)
    decreases |s| - i
  {
    if i < |s| {
      PiecesShift(p, s, i + 1, true, long);
      PiecesShift(p, s, i + 1, true, true);
      PiecesShift(p, s, i + 1, false, long);
      PiecesShift(p, s, i + 1, false, false);
    }
  }

  lemma SpelledPiece(p: Piece, t: string)
    requires p != Literal('%')
    ensures PiecesFrom(SpellPiece(p) + t, 0, false, false) ==
        More(p, PiecesFrom(SpellPiece(p) + t, |SpellPiece(p)|, false, false))
  {
    var s := SpellPiece(p) + t;
    if |SpellPiece(p)| == 3 {
      assert PiecesFrom(s, 0, false, false) == PiecesFrom(s, 1, true, false) == PiecesFrom(s, 2, true, true);
    } else if |SpellPiece(p)| == 2 {
      assert PiecesFrom(s, 0, false, false) == PiecesFrom(s, 1, true, false);
    }
  }

  /** Every list of pieces without a literal % is what some format says. */
  lemma {:induction false} SpellRoundTrip(ps: Pieces)
    requires NoPercent(ps)
    ensures PiecesOf(Spell(ps)) == ps
  {
    match ps
    case Done =>
    case More(p, rest) =>
      SpellRoundTrip(rest);
      SpelledPiece(p, Spell(rest));
      PiecesShift(SpellPiece(p), Spell(rest), 0, false, false);
  }

  lemma {:induction false} NeverPercent(s: string, i: nat, format: bool, long: bool)
    requires i <= |s|
    ensures NoPercent(PiecesFrom(s, i, format, long))
    decreases |s| - i
  {
    if i < |s| {
      NeverPercent(s, i + 1, true, long);
      NeverPercent(s, i + 1, true, true);
      NeverPercent(s, i + 1, false, long);
      NeverPercent(s, i + 1, false, false);
    }
  }

  /** A format can say anything but a % sign: a second % is skipped, not copied. */
  lemma SayableIff(ps: Pieces)
    ensures (exists s :: PiecesOf(s) == ps) <==> NoPercent(ps)
  {
    if NoPercent(ps) {
      SpellRoundTrip(ps);
    } else if s :| PiecesOf(s) == ps {
      NeverPercent(s, 0, false, false);
    }
  }

  // ---------------------------------------------------------------- no NUL in a rendering

  lemma {:induction false} DigitsNoNul(v: int)
    ensures NoNul(DigitsOf(v))
    decreases Magnitude(v)
  {
    if v != 0 {
      DigitsNoNul(Quot(v));
    }
  }

  lemma {:induction false} HexNoNul(v: int, w: nat)
    ensures NoNul(Hex(v, w))
    decreases w
  {
    if w > 0 {
      HexNoNul(v / 16, w - 1);
    }
  }

  lemma TextNoNul(a: Arch, p: Piece, g: Arg)
    requires Suits(a, p, g) && p != Literal('\0')
    ensures NoNul(TextOf(a, p, g))
  {
    match p
    case Literal(c) =>
    case Dec(_) =>
      DigitsNoNul(g.v);
      DigitsNoNul(Negated(a, g.v));
    case HexNum(long) => HexNoNul(g.v, Width(a, long));
    case Pointer => HexNoNul(g.v, Width(a, true));
    case Str =>
  }

  predicate NoNulPiece(ps: Pieces) {
    match ps
    case Done => true
    case More(p, rest) => p != Literal('\0') && NoNulPiece(rest)
  }

  lemma {:induction false} PiecesNoNul(s: string, i: nat, format: bool, long: bool)
    requires i <= |s| && NoNul(s)
    ensures NoNulPiece(PiecesFrom(s, i, format, long))
    decreases |s| - i
  {
    if i < |s| {
      PiecesNoNul(s, i + 1, true, long);
      PiecesNoNul(s, i + 1, true, true);
      PiecesNoNul(s, i + 1, false, long);
      PiecesNoNul(s, i + 1, false, false);
    }
  }

  lemma {:induction false} RenderNoNul(a: Arch, ps: Pieces, args: seq<Arg>, k: nat)
    requires Fits(a, ps, args, k) && NoNulPiece(ps)
    ensures NoNul(Render(a, ps, args, k))
    decreases ps
  {
    match ps
    case Done =>
    case More(Literal(c), rest) => RenderNoNul(a, rest, args, k);
    case More(p, rest) =>
      TextNoNul(a, p, args[k]);
      RenderNoNul(a, rest, args, k + 1);
  }

  /** A rendering never contains a NUL, so in a buffer it ends where the formatter ended it. */
  lemma RenderingNoNul(a: Arch, s: CString, args: seq<Arg>)
    requires Fits(a, PiecesOf(s), args, 0)
    ensures NoNul(Rendering(a, s, args))
  {
    PiecesNoNul(s, 0, false, false);
    RenderNoNul(a, PiecesOf(s), args, 0);
  }
}
