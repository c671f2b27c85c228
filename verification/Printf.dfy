/** The formatter of os/printf.c as it runs: one pass over the format that counts positions and
    writes those that are inside the buffer. */
module Printf {
  import opened Hart
  import opened Numbers
  import opened Format

  /** The buffer after text t was laid over b, cut off at n. */
  function Overlaid(b: seq<char>, n: nat, t: string): (r: seq<char>)
    ensures |r| == |b|
  {
    seq(|b|, j requires 0 <= j < |b| => if j < n && j < |t| then t[j] else b[j])
  }

  /** The buffer after a whole call: as much of t as leaves room for the NUL, then the NUL, then
      what was there before. */
  function Written(b: seq<char>, n: nat, t: string): (r: seq<char>)
    requires n <= |b|
    ensures |r| == |b|
  {
    if n == 0 then b
    else
      var m := if |t| < n then |t| else n - 1;
      t[..m] + ['\0'] + b[m + 1..]
  }

  /** A buffer of n characters ends up with the first n - 1 of the text, or all of it if it is
      shorter, a NUL behind them, and no other change; one of none is left alone. */
  lemma WrittenAt(b: seq<char>, n: nat, t: string, j: nat)
    requires n <= |b| && j < |b|
    ensures Written(b, n, t)[j] ==
      if j < n - 1 && j < |t| then t[j] else if n > 0 && (j == |t| < n || j == n - 1 <= |t|) then '\0' else b[j]
  {
  }

  function Contents(out: array?<char>): seq<char>
    reads out
  {
    if out == null then [] else out[..]
  }

  /** Text t has been put out so far, into a buffer that held b. */
  ghost predicate Laid(out: array?<char>, n: nat, b: seq<char>, t: string)
    reads out
  {
    Contents(out) == Overlaid(b, n, t) && (out != null ==> n <= out.Length)
  }

  method Put(out: array?<char>, n: nat, pos: nat, c: char, ghost b: seq<char>, ghost t: string) returns (next: nat)
    requires Laid(out, n, b, t) && pos == |t|
    modifies out
    ensures Laid(out, n, b, t + [c]) && next == |t + [c]|
  {
    if out != null && pos < n {
      out[pos] := c;
    }
    next := pos + 1;
  }

  method CountDigits(num: int) returns (digits: nat)
    ensures digits == |DigitsOf(num)|
  {
    var i := num;
    digits := 0;
    while i != 0
      invariant digits + |DigitsOf(i)| == |DigitsOf(num)|
      decreases Magnitude(i)
    {
      i := Quot(i);
      digits := digits + 1;
    }
  }

  /** The digits of num, filled in from the right. */
  method PutDigits(out: array?<char>, n: nat, pos: nat, num0: int, ghost b: seq<char>, ghost t: string)
    returns (next: nat)
    requires Laid(out, n, b, t) && pos == |t|
    modifies out
    ensures Laid(out, n, b, t + DigitsOf(num0)) && next == |t + DigitsOf(num0)|
  {
    var digits := CountDigits(num0);
    var num, i := num0, digits;
    ghost var d, was := DigitsOf(num0), Contents(out);
    while i > 0
      invariant 0 <= i <= digits && DigitsOf(num) == d[..i]
      invariant out != null ==> n <= out.Length
      invariant |Contents(out)| == |b|
      invariant forall j :: 0 <= j < |b| ==>
        Contents(out)[j] == if pos + i <= j < pos + digits && j < n then d[j - pos] else was[j]
    {
      i := i - 1;
      assert d[..i + 1][..i] == d[..i];
      if out != null && pos + i < n {
        out[pos + i] := DigitChar(Rem(num));
      }
      num := Quot(num);
    }
    next := pos + digits;
    assert Contents(out) == Overlaid(b, n, t + d);
  }

  method PutDecimal(a: Arch, out: array?<char>, n: nat, pos: nat, v: int, ghost b: seq<char>,
      ghost t: string) returns (next: nat)
    requires Laid(out, n, b, t) && pos == |t|
    modifies out
    ensures Laid(out, n, b, t + Decimal(a, v)) && next == |t + Decimal(a, v)|
  {
    var num := v;
    next := pos;
    if num < 0 {
      num := Negated(a, num);
      next := Put(out, n, next, '-', b, t);
      next := PutDigits(out, n, next, num, b, t + "-");
      assert t + "-" + DigitsOf(num) == t + Decimal(a, v);
    } else {
      next := PutDigits(out, n, next, num, b, t);
    }
  }

  /** The shifted number whose low four bits are the digit at position i from the right. */
  function Shifted(v: int, i: nat): int { v / Pow16(i) }

  method PutHex(out: array?<char>, n: nat, pos: nat, v: int, w: nat, ghost b: seq<char>, ghost t: string)
    returns (next: nat)
    requires Laid(out, n, b, t) && pos == |t|
    modifies out
    ensures Laid(out, n, b, t + Hex(v, w)) && next == |t + Hex(v, w)|
  {
    next := pos;
    var i := w;
    assert t + Hex(v, w)[..0] == t;
    while i > 0
      invariant 0 <= i <= w && next == pos + w - i
      invariant Laid(out, n, b, t + Hex(v, w)[..w - i])
    {
      i := i - 1;
      HexAt(v, w, i);
      ghost var h := Hex(v, w);
      next := Put(out, n, next, HexChar(Shifted(v, i) % 16), b, t + h[..w - i - 1]);
      assert t + h[..w - i - 1] + [h[w - i - 1]] == t + h[..w - i];
    }
    assert Hex(v, w)[..w] == Hex(v, w);
  }

  method PutString(out: array?<char>, n: nat, pos: nat, s: CString, ghost b: seq<char>, ghost t: string)
    returns (next: nat)
    requires Laid(out, n, b, t) && pos == |t|
    modifies out
    ensures Laid(out, n, b, t + s) && next == |t + s|
  {
    next := pos;
    var i := 0;
    assert t + s[..0] == t;
    while i < |s|
      invariant 0 <= i <= |s| && next == pos + i
      invariant Laid(out, n, b, t + s[..i])
    {
      next := Put(out, n, next, s[i], b, t + s[..i]);
      assert t + s[..i] + [s[i]] == t + s[..i + 1];
      i := i + 1;
    }
    assert s[..i] == s;
  }

  /** Where the loop of _vsnprintf is: t is out, and what is left renders to the rest of r. */
  ghost predicate Midway(a: Arch, s: CString, args: seq<Arg>, r: string, t: string, i: nat, format: bool, long: bool,
      k: nat) {
    && i <= |s| && Fits(a, PiecesFrom(s, i, format, long), args, k)
    && t + Render(a, PiecesFrom(s, i, format, long), args, k) == r
  }

  /** A step that puts out text x and leaves rest for the arguments from k on. */
  lemma Advance(t: string, x: string, rest: string)
    ensures t + (x + rest) == t + x + rest
  {
  }

  /** One character after a %. */
  method Directive(a: Arch, out: array?<char>, n: nat, pos: nat, s: CString, args: seq<Arg>,
                   i: nat, long: bool, k: nat, ghost b: seq<char>, ghost t: string, ghost r: string)
    returns (next: nat, format': bool, long': bool, k': nat, ghost u: string)
    requires Laid(out, n, b, t) && pos == |t| && i < |s| && Midway(a, s, args, r, t, i, true, long, k)
    modifies out
    ensures Laid(out, n, b, u) && next == |u| && Midway(a, s, args, r, u, i + 1, format', long', k')
  {
    next, format', long', k', u := pos, true, long, k, t;
    if s[i] == 'd' {
      u := t + Decimal(a, args[k].v);
      next := PutDecimal(a, out, n, pos, args[k].v, b, t);
      format', long', k' := false, false, k + 1;
      Advance(t, Decimal(a, args[k].v), Render(a, PiecesFrom(s, i + 1, false, false), args, k + 1));
    } else if s[i] == 'l' {
      long' := true;
    } else if s[i] == 'p' || s[i] == 'x' {
      next, u := PutNumber(a, out, n, pos, s[i] == 'p', args[k].v, long, b, t);
      format', long', k' := false, false, k + 1;
      Advance(t, u[|t|..], Render(a, PiecesFrom(s, i + 1, false, false), args, k + 1));
    } else if s[i] == 's' {
      u := t + args[k].s;
      next := PutString(out, n, pos, args[k].s, b, t);
      format', long', k' := false, false, k + 1;
      Advance(t, args[k].s, Render(a, PiecesFrom(s, i + 1, false, false), args, k + 1));
    } else if s[i] == 'c' {
      u := t + "c";
      next := Put(out, n, pos, s[i], b, t);
      format', long' := false, false;
      Advance(t, "c", Render(a, PiecesFrom(s, i + 1, false, false), args, k));
    }
  }

  /** The case for p and the case for x that it falls through to. */
  method PutNumber(a: Arch, out: array?<char>, n: nat, pos: nat, pointer: bool, v: int, long: bool,
      ghost b: seq<char>, ghost t: string)
    returns (next: nat, ghost u: string)
    requires Laid(out, n, b, t) && pos == |t|
    modifies out
    ensures u == t + if pointer then "0x" + Hex(v, Width(a, true)) else Hex(v, Width(a, long))
    ensures Laid(out, n, b, u) && next == |u|
  {
    next, u := pos, t;
    var longarg := long;
    if pointer {
      longarg := true;
      next := Put(out, n, next, '0', b, t);
      next := Put(out, n, next, 'x', b, t + "0");
      u := t + "0" + "x";
    }
    var w := Width(a, longarg);
    next := PutHex(out, n, next, v, w, b, u);
    u := u + Hex(v, w);
    assert pointer ==> u == t + ("0x" + Hex(v, w));
  }

  /** The NUL at the end. */
  method Terminate(out: array?<char>, n: nat, pos: nat, ghost b: seq<char>, ghost t: string)
    requires Laid(out, n, b, t) && pos == |t|
    modifies out
    ensures out != null ==> out.Length == |b| && out[..] == Written(b, n, t)
  {
    if out != null && pos < n {
      out[pos] := '\0';
    } else if out != null && n != 0 {
      out[n - 1] := '\0';
    }
    assert out != null ==> out[..] == Written(b, n, t);
  }

  /** _vsnprintf: whatever the buffer, the result is the length of the rendering; a buffer gets
      as much of the rendering as leaves room for a NUL, and nothing outside it changes. */
  method Vsnprintf(a: Arch, out: array?<char>, n: nat, s: CString, args: seq<Arg>) returns (res: nat)
    requires Fits(a, PiecesOf(s), args, 0)
    requires out != null ==> n <= out.Length
    modifies out
    ensures res == |Rendering(a, s, args)|
    ensures out != null ==> out[..] == Written(old(out[..]), n, Rendering(a, s, args))
  {
    ghost var b, r, t := Contents(out), Rendering(a, s, args), "";
    var format, long, k, i := false, false, 0, 0;
    res := 0;
    while i < |s|
      invariant Laid(out, n, b, t) && res == |t|
      invariant Midway(a, s, args, r, t, i, format, long, k)
    {
      if format {
        res, format, long, k, t := Directive(a, out, n, res, s, args, i, long, k, b, t, r);
      } else if s[i] == '%' {
        format := true;
      } else {
        res := Put(out, n, res, s[i], b, t);
        Advance(t, [s[i]], Render(a, PiecesFrom(s, i + 1, false, long), args, k));
        t := t + [s[i]];
      }
      i := i + 1;
    }
    assert t == r;
    Terminate(out, n, res, b, t);
  }
}
