/** _vprintf: measure, then write, then send; with the static buffer of os/printf.c:3 and the
    serial line as the sequence of the characters sent. */
module Console {
  import opened Flags
  import opened Hart
  import opened Format
  import P = Printf
  import T = Trap

  const OUT_BUF_SIZE := 1024

  const OVERFLOW: string := "error: output string size overflow\n"

  /** A size_t stored in an int, and an int compared with a size_t. */
  function AsInt(u: int): int { (u + 0x8000_0000) % 0x1_0000_0000 - 0x8000_0000 }

  function AsSize(a: Arch, v: int): int { v % T.Words(a) }

  /** The characters of b from position i up to the first NUL. */
  function UpToNul(b: seq<char>, i: nat): (t: string)
    requires i <= |b|
    decreases |b| - i
  {
    if i == |b| || b[i] == '\0' then "" else [b[i]] + UpToNul(b, i + 1)
  }

  lemma {:induction false} UpToNulIs(b: seq<char>, i: nat, t: string)
    requires i + |t| < |b| && b[i..i + |t|] == t && b[i + |t|] == '\0' && NoNul(t)
    ensures UpToNul(b, i) == t
    decreases |t|
  {
    if t != "" {
      assert b[i] == t[0];
      assert b[i + 1..i + 1 + |t[1..]|] == t[1..];
      UpToNulIs(b, i + 1, t[1..]);
    }
  }

  /** The guard of _vprintf: int arithmetic wraps around, so that only lengths near a multiple
      of 2 to the power of 32 pass beside the short ones. */
  lemma GuardIs(a: Arch, len: nat)
    ensures AsSize(a, AsInt(AsInt(len) + 1)) < OUT_BUF_SIZE <==> (len + 1) % 0x1_0000_0000 < OUT_BUF_SIZE
    ensures len + 1 < OUT_BUF_SIZE ==> AsInt(len) == len && AsSize(a, AsInt(AsInt(len) + 1)) == len + 1
    ensures AsSize(a, AsInt(AsInt(len) + 1)) >= 0
  {
  }

  class Console {
    const outBuf: array<char>
    var sent: string

    /** The buffer is static and so starts as zeros; there always is a NUL in it. */
    ghost predicate Valid()
      reads this, outBuf
    {
      outBuf.Length == OUT_BUF_SIZE && exists i :: 0 <= i < outBuf.Length && outBuf[i] == '\0'
    }

    constructor ()
      ensures Valid() && fresh(outBuf) && sent == ""
    {
      outBuf := new char[OUT_BUF_SIZE](i => '\0');
      sent := "";
      new;
      assert outBuf[0] == '\0';
    }

    /** uart_puts of the buffer. */
    method SendBuffer()
      requires Valid()
      modifies this`sent
      ensures sent == old(sent) + UpToNul(outBuf[..], 0)
    {
      var i := 0;
      ghost var text := UpToNul(outBuf[..], 0);
      while i < outBuf.Length && outBuf[i] != '\0'
        invariant 0 <= i <= outBuf.Length
        invariant sent + UpToNul(outBuf[..], i) == old(sent) + text
      {
        assert UpToNul(outBuf[..], i) == [outBuf[i]] + UpToNul(outBuf[..], i + 1);
        sent := sent + [outBuf[i]];
        i := i + 1;
      }
    }

    /** _vprintf.  It sends exactly the rendering if and only if that is shorter than 1023
        characters; r is None when it stays in the loop behind the error message. */
    method Vprintf(a: Arch, s: CString, args: seq<Arg>) returns (r: Option<int>)
      requires Valid() && Fits(a, PiecesOf(s), args, 0)
      modifies this`sent, outBuf
      ensures Valid()
      ensures var text := Rendering(a, s, args);
        && (sent == old(sent) + text <==> |text| + 1 < OUT_BUF_SIZE)
        && (|text| + 1 < OUT_BUF_SIZE ==> r == Some(|text|))
        && (r.None? <==> (|text| + 1) % 0x1_0000_0000 >= OUT_BUF_SIZE)
        && (r.None? ==> sent == old(sent) + OVERFLOW && outBuf[..] == old(outBuf[..]))
    {
      var len := P.Vsnprintf(a, null, AsSize(a, -1), s, args);
      var res := AsInt(len);
      var size := AsSize(a, AsInt(res + 1));
      GuardIs(a, len);
      if size >= OUT_BUF_SIZE {
        sent := sent + OVERFLOW;
        return None;
      }
      WriteAndSend(a, size, s, args);
      return Some(res);
    }

    /** The second pass. */
    method WriteAndSend(a: Arch, n: nat, s: CString, args: seq<Arg>)
      requires Valid() && n < OUT_BUF_SIZE && Fits(a, PiecesOf(s), args, 0)
      modifies this`sent, outBuf
      ensures Valid()
      ensures |Rendering(a, s, args)| < n ==> sent == old(sent) + Rendering(a, s, args)
      ensures |sent| < |old(sent)| + OUT_BUF_SIZE
    {
      ghost var was := outBuf[..];
      assert exists i :: 0 <= i < |was| && was[i] == '\0';
      var len := P.Vsnprintf(a, outBuf, n, s, args);
      WrittenIs(was, n, a, s, args);
      ghost var b := outBuf[..];
      ghost var i :| 0 <= i < |b| && b[i] == '\0';
      assert outBuf[i] == '\0';
      SendBuffer();
    }

    /** What can be read from the buffer after the second pass. */
    lemma WrittenIs(was: seq<char>, n: nat, a: Arch, s: CString, args: seq<Arg>)
      requires |was| == OUT_BUF_SIZE && n < OUT_BUF_SIZE && Fits(a, PiecesOf(s), args, 0)
      requires exists i :: 0 <= i < |was| && was[i] == '\0'
      ensures var b, text := P.Written(was, n, Rendering(a, s, args)), Rendering(a, s, args);
        && (exists i :: 0 <= i < |b| && b[i] == '\0')
        && (|text| < n ==> UpToNul(b, 0) == text)
        && |UpToNul(b, 0)| < OUT_BUF_SIZE
    {
      RenderingNoNul(a, s, args);
      var b, text := P.Written(was, n, Rendering(a, s, args)), Rendering(a, s, args);
      if n == 0 {
        UpToNulShort(b, 0);
      } else {
        var m := if |text| < n then |text| else n - 1;
        assert b[m] == '\0';
        UpToNulShort(b, 0);
        if |text| < n {
          assert b[0..0 + |text|] == text;
          UpToNulIs(b, 0, text);
        }
      }
    }
  }

  lemma {:induction false} UpToNulShort(b: seq<char>, i: nat)
    requires exists j :: i <= j < |b| && b[j] == '\0'
    ensures i + |UpToNul(b, i)| < |b|
    decreases |b| - i
  {
    if b[i] != '\0' {
      UpToNulShort(b, i + 1);
    }
  }
}
