/**
  The two pieces of PHP's string library the core relies on: `trim` with its
  default character list, and the decimal rendering of an `int` that string
  concatenation (`'-' . $min`) performs.
 */
module PhpString {

  /** The characters PHP's `trim` strips by default: space, tab, line feed,
      carriage return, NUL and vertical tab. */
  predicate IsTrimSpace(c: char) {
    c == ' ' || c == '\t' || c == '\n' || c == '\r' || c == '\0' || c == '\U{000B}'
  }

  predicate AllSpace(s: string) {
    forall k :: 0 <= k < |s| ==> IsTrimSpace(s[k])
  }

  /** Neither end of `s` is a trim character (vacuous for the empty string). */
  predicate NoEdgeSpace(s: string) {
    |s| > 0 ==> !IsTrimSpace(s[0]) && !IsTrimSpace(s[|s| - 1])
  }

  /** Strips trim characters from the front: the result is the suffix of `s`
      left after the longest all-space prefix. */
  function TrimLeft(s: string): (r: string)
    ensures |r| <= |s| && r == s[|s| - |r|..]
    ensures AllSpace(s[..|s| - |r|])
    ensures |r| > 0 ==> !IsTrimSpace(r[0])
  {
    if |s| > 0 && IsTrimSpace(s[0]) then TrimLeft(s[1..]) else s
  }

  /** Strips trim characters from the back: the result is the prefix of `s`
      left after the longest all-space suffix. */
  function TrimRight(s: string): (r: string)
    ensures |r| <= |s| && r == s[..|r|]
    ensures AllSpace(s[|r|..])
    ensures |r| > 0 ==> !IsTrimSpace(r[|r| - 1])
  {
    if |s| > 0 && IsTrimSpace(s[|s| - 1]) then TrimRight(s[..|s| - 1]) else s
  }

  /** PHP `trim($s)` with the default character list. */
  function Trim(s: string): (r: string)
    ensures NoEdgeSpace(r)
    ensures |r| <= |s|
  {
    var l := TrimLeft(s);
    var r := TrimRight(l);
    assert |r| > 0 ==> r[0] == l[0];
    r
  }

  lemma {:induction false} TrimLeftOfSpaces(p: string, m: string)
    requires AllSpace(p)
    requires |m| == 0 || !IsTrimSpace(m[0])
    ensures TrimLeft(p + m) == m
    decreases |p|
  {
    if |p| > 0 {
      assert (p + m)[1..] == p[1..] + m;
      TrimLeftOfSpaces(p[1..], m);
    } else {
      assert p + m == m;
    }
  }

  lemma {:induction false} TrimRightOfSpaces(m: string, q: string)
    requires AllSpace(q)
    requires |m| == 0 || !IsTrimSpace(m[|m| - 1])
    ensures TrimRight(m + q) == m
    decreases |q|
  {
    if |q| > 0 {
      assert (m + q)[..|m + q| - 1] == m + q[..|q| - 1];
      TrimRightOfSpaces(m, q[..|q| - 1]);
    } else {
      assert m + q == m;
    }
  }

  /** `trim` is determined by the decomposition of its input: whatever is
      wrapped in runs of trim characters comes back exactly, provided its own
      ends are not trim characters. */
  lemma TrimUnique(p: string, m: string, q: string)
    requires AllSpace(p) && AllSpace(q) && NoEdgeSpace(m)
    ensures Trim(p + m + q) == m
  {
    if |m| == 0 {
      assert p + m + q == p + q;
      assert AllSpace(p + q);
      TrimLeftOfSpaces(p + q, "");
      assert p + q + "" == p + q;
    } else {
      assert p + m + q == p + (m + q);
      TrimLeftOfSpaces(p, m + q);
      TrimRightOfSpaces(m, q);
    }
  }

  /** Every input decomposes as spaces, its trimmed core, spaces. */
  lemma TrimDecomposes(s: string)
    ensures exists p, q :: AllSpace(p) && AllSpace(q) && s == p + Trim(s) + q
  {
    var l := TrimLeft(s);
    var t := Trim(s);
    assert t == TrimRight(l);
    Reassemble(s, l, t);
  }

  /** A space prefix cut off `s` leaves `l`; a space suffix cut off `l`
      leaves `r`. */
  lemma Reassemble(s: string, l: string, r: string)
    requires |l| <= |s| && l == s[|s| - |l|..] && AllSpace(s[..|s| - |l|])
    requires |r| <= |l| && r == l[..|r|] && AllSpace(l[|r|..])
    ensures exists p, q :: AllSpace(p) && AllSpace(q) && s == p + r + q
  {
    var p, q := s[..|s| - |l|], l[|r|..];
    assert l == r + q;
    assert s == p + l;
    assert s == p + r + q;
  }

  /** A string with no trim character at either end is its own trim. */
  lemma TrimFixed(s: string)
    requires NoEdgeSpace(s)
    ensures Trim(s) == s
  {
    assert "" + s + "" == s;
    TrimUnique("", s, "");
  }

  /** Trimming twice is trimming once. */
  lemma TrimIdempotent(s: string)
    ensures Trim(Trim(s)) == Trim(s)
  {
    TrimFixed(Trim(s));
  }

  // ---------------------------------------------------------------------------
  // Decimal rendering of integers, as PHP's string conversion of an `int`

  function DigitChar(d: nat): (c: char)
    requires d < 10
    ensures '0' <= c <= '9'
  {
    ['0', '1', '2', '3', '4', '5', '6', '7', '8', '9'][d]
  }

  function DigitValue(c: char): (d: nat)
    requires '0' <= c <= '9'
    ensures d < 10 && DigitChar(d) == c
  {
    (c as int - '0' as int)
  }

  predicate IsDigitString(s: string) {
    forall k :: 0 <= k < |s| ==> '0' <= s[k] <= '9'
  }

  /** The decimal digits of `n`, most significant first, without leading zeros. */
  function NatToString(n: nat): (r: string)
    ensures |r| > 0 && IsDigitString(r)
    ensures |r| > 1 ==> r[0] != '0'
    ensures n < 10 <==> |r| == 1
  {
    if n < 10 then [DigitChar(n)] else NatToString(n / 10) + [DigitChar(n % 10)]
  }

  /** Reads a string of decimal digits back as a number. */
  function ParseDigits(s: string): nat
    requires IsDigitString(s)
  {
    if |s| == 0 then 0 else ParseDigits(s[..|s| - 1]) * 10 + DigitValue(s[|s| - 1])
  }

  lemma {:induction false} ParseNatToString(n: nat)
    ensures ParseDigits(NatToString(n)) == n
  {
    if n >= 10 {
      var s := NatToString(n);
      assert s[..|s| - 1] == NatToString(n / 10);
      ParseNatToString(n / 10);
    }
  }

  /** PHP's rendering of an `int` inside a string concatenation. */
  function IntToString(n: int): (r: string)
    ensures |r| > 0
    ensures r[0] == '-' <==> n < 0
    ensures IsDigitString(if n < 0 then r[1..] else r)
  {
    if n < 0 then "-" + NatToString(-n) else NatToString(n)
  }

  /** A rendered integer is made of digits and the sign only, and ends in a digit. */
  lemma IntToStringChars(n: int)
    ensures forall k :: 0 <= k < |IntToString(n)| ==> IntToString(n)[k] == '-' || '0' <= IntToString(n)[k] <= '9'
    ensures '0' <= IntToString(n)[|IntToString(n)| - 1] <= '9'
  {
    var r := IntToString(n);
    if n < 0 {
      assert r == "-" + NatToString(-n);
      forall k | 1 <= k < |r|
        ensures '0' <= r[k] <= '9'
      {
        assert r[k] == r[1..][k - 1];
      }
    }
  }

  /** Reads the output of IntToString back. */
  function ParseInt(s: string): int
    requires |s| > 0
    requires IsDigitString(if s[0] == '-' then s[1..] else s)
  {
    if s[0] == '-' then 0 - ParseDigits(s[1..]) as int else ParseDigits(s)
  }

  lemma IntToStringRoundTrip(n: int)
    ensures ParseInt(IntToString(n)) == n
  {
    var s := IntToString(n);
    if n < 0 {
      var m: nat := -n;
      assert s == "-" + NatToString(m);
      assert s[1..] == NatToString(m);
      ParseNatToString(m);
      assert ParseInt(s) == 0 - ParseDigits(NatToString(m));
    } else {
      assert s == NatToString(n);
      assert s[0] != '-';
      ParseNatToString(n);
    }
  }

  /** Distinct numbers render as distinct strings. */
  lemma IntToStringInjective(a: int, b: int)
    requires IntToString(a) == IntToString(b)
    ensures a == b
  {
    IntToStringRoundTrip(a);
    IntToStringRoundTrip(b);
  }
}
