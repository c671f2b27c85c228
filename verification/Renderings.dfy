/** What a rendering says: the text of each directive of os/printf.c, alone and inside a format. */
module Renderings {
  import opened Hart
  import opened Numbers
  import opened Format

  // ---------------------------------------------------------------- formats one after the other

  function Append(ps: Pieces, qs: Pieces): Pieces {
    match ps
    case Done => qs
    case More(p, rest) => More(p, Append(rest, qs))
  }

  /** How many arguments a piece takes. */
  function Takes(p: Piece): nat { if p.Literal? then 0 else 1 }

  function Arguments(ps: Pieces): nat {
    match ps
    case Done => 0
    case More(p, rest) => Takes(p) + Arguments(rest)
  }

  predicate HeadFits(a: Arch, p: Piece, args: seq<Arg>, k: nat) {
    p.Literal? || (k < |args| && Suits(a, p, args[k]))
  }

  /** The text of the first piece. */
  function Head(a: Arch, p: Piece, args: seq<Arg>, k: nat): string
    requires HeadFits(a, p, args, k)
  {
    if p.Literal? then [p.c] else TextOf(a, p, args[k])
  }

  lemma RenderMore(a: Arch, p: Piece, rest: Pieces, args: seq<Arg>, k: nat)
    ensures Fits(a, More(p, rest), args, k) <==> HeadFits(a, p, args, k) && Fits(a, rest, args, k + Takes(p))
    ensures Fits(a, More(p, rest), args, k) ==>
      Render(a, More(p, rest), args, k) == Head(a, p, args, k) + Render(a, rest, args, k + Takes(p))
  {
  }

  /** Whether the text from i on ends inside a directive, and whether behind an l. */
  function After(s: string, i: nat, format: bool, long: bool): (bool, bool)
    requires i <= |s|
    decreases |s| - i
  {
    if i == |s| then (format, long)
    else if !format then After(s, i + 1, s[i] == '%', long)
    else if s[i] == 'l' then After(s, i + 1, true, true)
    else if s[i] in "dpxsc" then After(s, i + 1, false, false)
    else After(s, i + 1, true, long)
  }

  /** A format that does not end inside a directive. */
  predicate Complete(s: string) { After(s, 0, false, false) == (false, false) }

  lemma {:induction false} PiecesAppend(f: string, g: string, i: nat, format: bool, long: bool)
    requires i <= |f|
    ensures var (x, y) := After(f, i, format, long);
      PiecesFrom(f + g, i, format, long) == Append(PiecesFrom(f, i, format, long), PiecesFrom(g, 0, x, y))
    decreases |f| - i
  {
    if i == |f| {
      PiecesShift(f, g, 0, format, long);
    } else {
      assert (f + g)[i] == f[i];
      if !format {
        PiecesAppend(f, g, i + 1, f[i] == '%', long);
      } else if f[i] == 'l' {
        PiecesAppend(f, g, i + 1, true, true);
      } else if f[i] in "dpxsc" {
        PiecesAppend(f, g, i + 1, false, false);
      } else {
        PiecesAppend(f, g, i + 1, true, long);
      }
    }
  }

  lemma {:induction false} AppendRenders(a: Arch, ps: Pieces, qs: Pieces, args: seq<Arg>, k: nat, l: nat)
    requires l == k + Arguments(ps) && Fits(a, ps, args, k) && Fits(a, qs, args, l)
    ensures Fits(a, Append(ps, qs), args, k)
    ensures Render(a, Append(ps, qs), args, k) == Render(a, ps, args, k) + Render(a, qs, args, l)
    decreases ps
  {
    match ps
    case Done =>
    case More(p, rest) =>
      RenderMore(a, p, rest, args, k);
      AppendRenders(a, rest, qs, args, k + Takes(p), l);
      RenderMore(a, p, Append(rest, qs), args, k);
      Associates(Head(a, p, args, k), Render(a, rest, args, k + Takes(p)), Render(a, qs, args, l));
  }

  lemma Associates(x: string, y: string, z: string)
    ensures x + (y + z) == (x + y) + z
  {
  }

  /** From position k of x on stand the same n arguments as from position l of y on. */
  predicate SameFrom(x: seq<Arg>, k: nat, y: seq<Arg>, l: nat, n: nat) {
    k + n <= |x| && l + n <= |y| && forall j :: k <= j < k + n ==> x[j] == y[j - k + l]
  }

  lemma {:induction false} EnoughArguments(a: Arch, ps: Pieces, x: seq<Arg>, k: nat)
    requires Fits(a, ps, x, k) && k <= |x|
    ensures k + Arguments(ps) <= |x|
    decreases ps
  {
    match ps
    case Done =>
    case More(p, rest) =>
      RenderMore(a, p, rest, x, k);
      EnoughArguments(a, rest, x, k + Takes(p));
  }

  lemma SameHead(a: Arch, p: Piece, x: seq<Arg>, k: nat, y: seq<Arg>, l: nat, n: nat)
    requires HeadFits(a, p, x, k) && SameFrom(x, k, y, l, Takes(p) + n)
    ensures HeadFits(a, p, y, l) && Head(a, p, y, l) == Head(a, p, x, k)
    ensures SameFrom(x, k + Takes(p), y, l + Takes(p), n)
  {
  }

  /** Only the arguments that the pieces take matter, and not where they stand. */
  lemma {:induction false} SameArguments(a: Arch, ps: Pieces, x: seq<Arg>, k: nat, y: seq<Arg>, l: nat)
    requires Fits(a, ps, x, k) && SameFrom(x, k, y, l, Arguments(ps))
    ensures Fits(a, ps, y, l) && Render(a, ps, y, l) == Render(a, ps, x, k)
    decreases ps
  {
    match ps
    case Done =>
    case More(p, rest) =>
      RenderMore(a, p, rest, x, k);
      SameHead(a, p, x, k, y, l, Arguments(rest));
      SameArguments(a, rest, x, k + Takes(p), y, l + Takes(p));
      RenderMore(a, p, rest, y, l);
  }

  /** Two formats one after the other, the first of which does not end inside a directive, render to
      their texts one after the other. */
  lemma Concatenates(a: Arch, f: CString, x: seq<Arg>, g: CString, y: seq<Arg>)
    requires Complete(f) && Fits(a, PiecesOf(f), x, 0) && |x| == Arguments(PiecesOf(f)) && Fits(a, PiecesOf(g), y, 0)
    ensures Fits(a, PiecesOf(f + g), x + y, 0)
    ensures Rendering(a, f + g, x + y) == Rendering(a, f, x) + Rendering(a, g, y)
  {
    PiecesAppend(f, g, 0, false, false);
    EnoughArguments(a, PiecesOf(g), y, 0);
    SameArguments(a, PiecesOf(f), x, 0, x + y, 0);
    SameArguments(a, PiecesOf(g), y, 0, x + y, |x|);
    AppendRenders(a, PiecesOf(f), PiecesOf(g), x + y, 0, |x|);
  }

  /** Inside a directive every character that means nothing there is skipped, a second % and a
      second l included. */
  lemma UnknownSkipped(f: string, c: char, g: string)
    requires After(f, 0, false, false).0 && c !in "dpxsc" && (c == 'l' ==> After(f, 0, false, false).1)
    ensures PiecesOf(f + [c] + g) == PiecesOf(f + g)
  {
    var (x, y) := After(f, 0, false, false);
    assert f + [c] + g == f + ([c] + g);
    PiecesAppend(f, [c] + g, 0, false, false);
    PiecesAppend(f, g, 0, false, false);
    PiecesShift([c], g, 0, x, y);
  }

  // ---------------------------------------------------------------- the directives

  lemma OneDirective(p: Piece, s: string)
    requires p != Literal('%') && s == SpellPiece(p)
    ensures PiecesOf(s) == More(p, Done)
    ensures !p.Literal? ==> Complete(s)
  {
    SpelledPiece(p, "");
    assert s + "" == s;
    Spellings();
  }

  lemma Spellings()
    ensures Complete("%d") && Complete("%x") && Complete("%p") && Complete("%s") && Complete("%ld") && Complete("%lx")
  {
    assert After("%d", 0, false, false) == After("%d", 1, true, false) == After("%d", 2, false, false);
    assert After("%x", 0, false, false) == After("%x", 1, true, false) == After("%x", 2, false, false);
    assert After("%p", 0, false, false) == After("%p", 1, true, false) == After("%p", 2, false, false);
    assert After("%s", 0, false, false) == After("%s", 1, true, false) == After("%s", 2, false, false);
    assert After("%ld", 1, true, false) == After("%ld", 2, true, true) == After("%ld", 3, false, false);
    assert After("%lx", 1, true, false) == After("%lx", 2, true, true) == After("%lx", 3, false, false);
  }

  /** %s is the string. */
  lemma StringIs(a: Arch, t: CString)
    ensures Fits(a, PiecesOf("%s"), [Text(t)], 0) && Rendering(a, "%s", [Text(t)]) == t
  {
    OneDirective(Str, "%s");
    assert t + "" == t;
  }

  /** %d of an int and %ld of a long: a minus sign exactly in front of negative numbers, digits behind
      it, and read back the text is the number, for all but the least long. */
  lemma DecimalIs(a: Arch, long: bool, v: int, s: CString)
    requires s == (if long then "%ld" else "%d") && (if long then IsLong(a, v) else IsInt(v))
    ensures Fits(a, PiecesOf(s), [Number(v)], 0)
    ensures var t := Rendering(a, s, [Number(v)]);
      && (Parse(t) == v <==> v != LongMin(a))
      && (v < 0 <==> t != "" && t[0] == '-')
      && (v != LongMin(a) ==> AllDigits(t[if v < 0 then 1 else 0..]))
      && (v == 0 ==> t == "")
      && (v != 0 && v != LongMin(a) ==> |t| > (if v < 0 then 1 else 0) && t[if v < 0 then 1 else 0] != '0')
  {
    OneDirective(Dec(long), s);
    DecimalInvertible(a, v);
    if v != LongMin(a) { DecimalCanonical(a, v); }
    var t := Rendering(a, s, [Number(v)]);
    assert t == Decimal(a, v) + "" == Decimal(a, v);
    if v >= 0 {
      DigitsOfNat(v);
      assert t[0..] == t;
    }
  }

  lemma PowersOf16()
    ensures Pow16(8) == 0x1_0000_0000 && Pow16(16) == 0x1_0000_0000_0000_0000
  {
    assert Pow16(4) == 0x1_0000;
    assert Pow16(8) == 0x1_0000_0000;
    assert Pow16(12) == 0x1_0000_0000_0000;
  }

  predicate LowerHex(t: string) { forall j :: 0 <= j < |t| ==> t[j] in "0123456789abcdef" }

  lemma {:induction false} HexLower(v: int, w: nat)
    ensures LowerHex(Hex(v, w))
    decreases w
  {
    if w > 0 {
      HexLower(v / 16, w - 1);
      DigitLower(v % 16);
    }
  }

  lemma DigitLower(d: int)
    requires 0 <= d < 16
    ensures HexChar(d) == "0123456789abcdef"[d]
  {
  }

  /** The digits of %x and %lx, 0 to 9 and a to f: 8 for an int, 8 or 16 for a long, and read back
      they are the two's complement of the number. */
  lemma HexadecimalIs(a: Arch, long: bool, v: int, s: CString)
    requires s == (if long then "%lx" else "%x") && (if long then IsLong(a, v) else IsInt(v))
    ensures Fits(a, PiecesOf(s), [Number(v)], 0)
    ensures var t := Rendering(a, s, [Number(v)]);
      LowerHex(t) && if long && a.RV64? then |t| == 16 && HexFold(t) == v % 0x1_0000_0000_0000_0000
      else |t| == 8 && HexFold(t) == v % 0x1_0000_0000
  {
    OneDirective(HexNum(long), s);
    var w := Width(a, long);
    var t := Rendering(a, s, [Number(v)]);
    assert t == Hex(v, w) + "" == Hex(v, w);
    HexInvertible(v, w);
    HexLower(v, w);
    PowersOf16();
  }

  /** %p is 0x and the digits of %lx. */
  lemma PointerIs(a: Arch, v: int)
    requires IsLong(a, v)
    ensures Fits(a, PiecesOf("%p"), [Number(v)], 0) && Fits(a, PiecesOf("%lx"), [Number(v)], 0)
    ensures Rendering(a, "%p", [Number(v)]) == "0x" + Rendering(a, "%lx", [Number(v)])
  {
    OneDirective(Pointer, "%p");
    OneDirective(HexNum(true), "%lx");
  }

  /** %c takes no argument and is the letter c. */
  lemma LetterIs(a: Arch)
    ensures PiecesOf("%c") == PiecesOf("c") && Complete("%c")
    ensures Fits(a, PiecesOf("%c"), [], 0) && Rendering(a, "%c", []) == "c"
  {
    assert PiecesFrom("%c", 0, false, false) == PiecesFrom("%c", 1, true, false) == More(Literal('c'), Done);
    assert After("%c", 0, false, false) == After("%c", 1, true, false);
    assert PiecesFrom("c", 0, false, false) == More(Literal('c'), Done);
  }

  // ---------------------------------------------------------------- a directive between plain text

  const DIRECTIVES: seq<string> := ["%d", "%ld", "%x", "%lx", "%p", "%s"]

  predicate Plain(s: string) { forall j :: 0 <= j < |s| ==> s[j] != '%' }

  lemma {:induction false} PlainComplete(s: string, i: nat)
    requires Plain(s) && i <= |s|
    ensures After(s, i, false, false) == (false, false) && Arguments(PiecesFrom(s, i, false, false)) == 0
    decreases |s| - i
  {
    if i < |s| {
      PlainComplete(s, i + 1);
    }
  }

  lemma PlainIs(a: Arch, u: CString)
    requires Plain(u)
    ensures Complete(u) && Arguments(PiecesOf(u)) == 0 && Fits(a, PiecesOf(u), [], 0) && Rendering(a, u, []) == u
  {
    PlainText(a, u, 0, [], 0);
    PlainComplete(u, 0);
  }

  lemma DirectiveIs(s: string)
    requires s in DIRECTIVES
    ensures Complete(s) && Arguments(PiecesOf(s)) == 1
  {
    OneDirective(PieceOf(s), s);
  }

  lemma ArgumentsAdd(f: string, g: string)
    requires Complete(f)
    ensures Arguments(PiecesOf(f + g)) == Arguments(PiecesOf(f)) + Arguments(PiecesOf(g))
  {
    PiecesAppend(f, g, 0, false, false);
    AppendArguments(PiecesOf(f), PiecesOf(g));
  }

  /** Between two texts without a % a directive renders as it does alone. */
  lemma Between(a: Arch, u: CString, s: CString, v: CString, g: Arg)
    requires Plain(u) && Plain(v) && s in DIRECTIVES && Fits(a, PiecesOf(s), [g], 0)
    ensures Fits(a, PiecesOf(u + s + v), [g], 0)
    ensures Rendering(a, u + s + v, [g]) == u + Rendering(a, s, [g]) + v
  {
    PlainIs(a, u);
    PlainIs(a, v);
    DirectiveIs(s);
    Concatenates(a, u, [], s, [g]);
    CompleteAppend(u, s);
    ArgumentsAdd(u, s);
    assert [] + [g] == [g] == [g] + [];
    Concatenates(a, u + s, [g], v, []);
  }

  function PieceOf(s: string): (p: Piece)
    requires s in DIRECTIVES
    ensures SpellPiece(p) == s && !p.Literal?
  {
    if s == "%d" then Dec(false) else if s == "%ld" then Dec(true)
    else if s == "%x" then HexNum(false) else if s == "%lx" then HexNum(true)
    else if s == "%p" then Pointer else Str
  }

  lemma {:induction false} AppendArguments(ps: Pieces, qs: Pieces)
    ensures Arguments(Append(ps, qs)) == Arguments(ps) + Arguments(qs)
    decreases ps
  {
    match ps
    case Done =>
    case More(_, rest) => AppendArguments(rest, qs);
  }

  lemma {:induction false} AfterShift(f: string, g: string, i: nat, format: bool, long: bool)
    requires i <= |g|
    ensures After(f + g, |f| + i, format, long) == After(g, i, format, long)
    decreases |g| - i
  {
    if i < |g| {
      AfterShift(f, g, i + 1, true, long);
      AfterShift(f, g, i + 1, true, true);
      AfterShift(f, g, i + 1, false, long);
      AfterShift(f, g, i + 1, false, false);
    }
  }

  lemma {:induction false} AfterAppend(f: string, g: string, i: nat, format: bool, long: bool)
    requires i <= |f|
    ensures var (x, y) := After(f, i, format, long); After(f + g, i, format, long) == After(g, 0, x, y)
    decreases |f| - i
  {
    if i == |f| {
      AfterShift(f, g, 0, format, long);
    } else {
      AfterAppend(f, g, i + 1, true, long);
      AfterAppend(f, g, i + 1, true, true);
      AfterAppend(f, g, i + 1, false, long);
      AfterAppend(f, g, i + 1, false, false);
    }
  }

  lemma CompleteAppend(f: string, g: string)
    requires Complete(f) && Complete(g)
    ensures Complete(f + g)
  {
    AfterAppend(f, g, 0, false, false);
  }

  /** The text that elapsed_time prints at every tick. */
  lemma TimeLine(a: Arch, t: CString)
    ensures Fits(a, PiecesOf("%s\n"), [Text(t)], 0) && Rendering(a, "%s\n", [Text(t)]) == t + "\n"
  {
    StringIs(a, t);
    Between(a, "", "%s", "\n", Text(t));
    assert "" + "%s" + "\n" == "%s\n";
  }
}
