/** NUL-terminated character buffers, as the driver builds and compares its
    commands and replies in the shared `BUFFER`. */
module CStrings {

  const NUL: char := '\0'

  /** The C string held by a buffer: everything before the first NUL, or all
      of it when there is none. */
  function CString(s: seq<char>): (r: seq<char>)
    ensures |r| <= |s| && r == s[..|r|]
    ensures NUL !in r
    ensures |r| < |s| ==> s[|r|] == NUL
  {
    if s == [] then []
    else if s[0] == NUL then []
    else [s[0]] + CString(s[1..])
  }

  /** A NUL ends the C string, whatever follows it. */
  lemma {:induction false} CStringStops(p: seq<char>, q: seq<char>)
    ensures CString(p + [NUL] + q) == CString(p + [NUL])
  {
    if p != [] && p[0] != NUL {
      assert (p + [NUL] + q)[1..] == p[1..] + [NUL] + q;
      assert (p + [NUL])[1..] == p[1..] + [NUL];
      CStringStops(p[1..], q);
    }
  }

  /** Two buffers that agree up to and including a NUL hold the same C string. */
  lemma {:induction false} CStringAgrees(s: seq<char>, t: seq<char>, n: nat)
    requires n < |s| && n < |t| && s[..n + 1] == t[..n + 1] && s[n] == NUL
    ensures CString(s) == CString(t)
    decreases n
  {
    assert s[0] == s[..n + 1][0] == t[..n + 1][0] == t[0];
    if s[0] != NUL {
      assert s[1..][..n] == s[..n + 1][1..] == t[..n + 1][1..] == t[1..][..n];
      CStringAgrees(s[1..], t[1..], n - 1);
    }
  }

  /** A terminated string without inner NUL reads back as itself. */
  lemma CStringOfTerminated(p: seq<char>, q: seq<char>)
    requires NUL !in p
    ensures CString(p + [NUL] + q) == p
  {
    var s := p + [NUL] + q;
    assert s[|p|] == NUL;
    assert forall i :: 0 <= i < |p| ==> s[i] == p[i] != NUL;
  }

  /** `n` characters of a buffer after `strncpy(dst, src, n)`: the source,
      then NUL padding. */
  function NCopied(src: seq<char>, n: nat): (r: seq<char>)
    ensures |r| == n
    ensures forall i :: 0 <= i < n ==> r[i] == if i < |src| then src[i] else NUL
  {
    if n <= |src| then src[..n] else src + seq(n - |src|, _ => NUL)
  }

  /** strncpy: copy `src` (a C string, so without NUL) into the first `n`
      cells of `dst`, padding with NUL; nothing past `n` is touched. */
  method StrNCpy(dst: array<char>, src: seq<char>, n: nat)
    requires NUL !in src && n <= dst.Length
    modifies dst
    ensures dst[..] == NCopied(src, n) + old(dst[n..])
  {
    forall k | 0 <= k < n {
      dst[k] := if k < |src| then src[k] else NUL;
    }
    ghost var t := NCopied(src, n) + old(dst[n..]);
    forall k | 0 <= k < dst.Length
      ensures dst[k] == t[k]
    {
    }
    assert dst[..] == t;
  }

  /** strncat: append at most `n` characters of `src` after the C string in
      `dst`, then a NUL. The source demands room for that NUL. */
  method StrNCat(dst: array<char>, src: seq<char>, n: nat)
    requires NUL in dst[..] && NUL !in src
    requires |CString(dst[..])| + Min(|src|, n) < dst.Length
    modifies dst
    ensures var len, m := |CString(old(dst[..]))|, Min(|src|, n);
      dst[..] == old(dst[..len]) + src[..m] + [NUL] + old(dst[len + m + 1..])
    ensures CString(dst[..]) == CString(old(dst[..])) + src[..Min(|src|, n)]
  {
    ghost var s := dst[..];
    var len := |CString(dst[..])|;
    var m := Min(|src|, n);
    forall k | len <= k < len + m {
      dst[k] := src[k - len];
    }
    dst[len + m] := NUL;
    Concatenated(s, dst[..], src, len, m);
    CStringOfTerminated(s[..len] + src[..m], s[len + m + 1..]);
  }

  /** A buffer that holds `src[..m]` at `len`, a NUL after it, and `s`
      everywhere else, as one concatenation. */
  lemma Concatenated(s: seq<char>, d: seq<char>, src: seq<char>, len: nat, m: nat)
    requires len + m < |s| == |d| && m <= |src|
    requires forall k :: 0 <= k < |d| && k != len + m ==>
      d[k] == if len <= k < len + m then src[k - len] else s[k]
    requires d[len + m] == NUL
    ensures d == s[..len] + src[..m] + [NUL] + s[len + m + 1..]
  {
    var a := s[..len] + src[..m];
    var t := a + [NUL] + s[len + m + 1..];
    forall k | 0 <= k < |d|
      ensures d[k] == t[k]
    {
      if k < len {
        assert t[k] == a[k] == s[k];
      } else if k < len + m {
        assert t[k] == a[k] == src[k - len];
      } else if k > len + m {
        assert t[k] == s[k];
      }
    }
  }

  function Min(a: int, b: int): int {
    if a < b then a else b
  }
}

/** Decimal text as Arduino's `Print::print` writes an integer: a '-' for a
    negative `long`, then the digits, most significant first, no padding. */
module Decimal {

  function DigitChar(d: nat): (c: char)
    requires d < 10
    ensures '0' <= c <= '9'
  {
    ('0' as int + d) as char
  }

  predicate AllDigits(s: string) {
    forall i :: 0 <= i < |s| ==> '0' <= s[i] <= '9'
  }

  /** The digits of n. */
  function Digits(n: nat): (s: string)
    ensures |s| >= 1 && AllDigits(s)
    ensures |s| > 1 ==> s[0] != '0'
  {
    if n < 10 then [DigitChar(n)] else Digits(n / 10) + [DigitChar(n % 10)]
  }

  /** The value of a run of decimal digits. */
  function DigitsValue(s: string): nat
    requires AllDigits(s)
  {
    if s == [] then 0
    else 10 * DigitsValue(s[..|s| - 1]) + (s[|s| - 1] as int - '0' as int)
  }

  lemma {:induction false} DigitsRoundTrip(n: nat)
    ensures DigitsValue(Digits(n)) == n
  {
    if n >= 10 {
      var s := Digits(n);
      assert s[..|s| - 1] == Digits(n / 10);
      DigitsRoundTrip(n / 10);
    }
  }

  /** Print::print(long): a sign for negatives, then the magnitude. */
  function Text(n: int): (s: string)
    ensures |s| >= 1 && (s[0] == '-') == (n < 0)
    ensures if n < 0 then |s| >= 2 && AllDigits(s[1..]) else AllDigits(s)
  {
    if n < 0 then
      assert ("-" + Digits(-n))[1..] == Digits(-n);
      "-" + Digits(-n)
    else Digits(n)
  }

  /** The integer a decimal text denotes. */
  function Value(s: string): int
    requires |s| >= 1 && (s[0] == '-' ==> AllDigits(s[1..])) && (s[0] != '-' ==> AllDigits(s))
  {
    if s[0] == '-' then -(DigitsValue(s[1..]) as int) else DigitsValue(s)
  }

  /** The text printed for a number denotes that number, so a command that
      carries it can be read back unambiguously. */
  lemma {:induction false} TextRoundTrip(n: int)
    ensures var s := Text(n);
      (s[0] == '-' ==> AllDigits(s[1..])) && (s[0] != '-' ==> AllDigits(s)) && Value(s) == n
  {
    if n < 0 {
      assert Text(n)[1..] == Digits(-n);
      DigitsRoundTrip(-n);
    } else {
      DigitsRoundTrip(n);
    }
  }
}
