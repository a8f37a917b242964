/** The string primitives of the Go standard library that the service relies on:
    `strings.TrimSpace`, the first element of `strings.Split(s, ",")`,
    `strconv.Itoa` on non-negative numbers and the byte length `len(s)` of a UTF-8 string.
    Strings are `seq<char>` whose characters are Unicode scalar values. */
module Text {

  /** Go's `unicode.IsSpace`: the ASCII white space characters, NEL, NBSP and
      the characters of Unicode category Zs, Zl and Zp. */
  predicate IsSpace(c: char) {
    || c == ' ' || c == '\t' || c == '\n' || c == '\r'
    || c == '\U{000B}' || c == '\U{000C}' || c == '\U{0085}' || c == '\U{00A0}'
    || c == '\U{1680}' || ('\U{2000}' <= c <= '\U{200A}')
    || c == '\U{2028}' || c == '\U{2029}' || c == '\U{202F}' || c == '\U{205F}'
    || c == '\U{3000}'
  }

  /** Drops the leading white space of `s`. */
  function TrimLeft(s: string): (r: string)
    ensures |r| <= |s| && r == s[|s| - |r|..]
    ensures forall i :: 0 <= i < |s| - |r| ==> IsSpace(s[i])
    ensures |r| > 0 ==> !IsSpace(r[0])
  {
    if |s| > 0 && IsSpace(s[0]) then TrimLeft(s[1..]) else s
  }

  /** Drops the trailing white space of `s`. */
  function TrimRight(s: string): (r: string)
    ensures |r| <= |s| && r == s[..|r|]
    ensures forall i :: |r| <= i < |s| ==> IsSpace(s[i])
    ensures |r| > 0 ==> !IsSpace(r[|r| - 1])
  {
    if |s| > 0 && IsSpace(s[|s| - 1]) then TrimRight(s[..|s| - 1]) else s
  }

  /** `strings.TrimSpace`: the slice of `s` left once the white space at both
      ends is removed. */
  function TrimSpace(s: string): (r: string)
    ensures var a := |s| - |TrimLeft(s)|;
      && a + |r| <= |s|
      && (forall i :: 0 <= i < |r| ==> r[i] == s[a + i])
      && (forall i :: 0 <= i < a ==> IsSpace(s[i]))
      && (forall i :: a + |r| <= i < |s| ==> IsSpace(s[i]))
    ensures |r| > 0 ==> !IsSpace(r[0]) && !IsSpace(r[|r| - 1])
  {
    TrimmedSlice(s);
    TrimmedTail(s);
    TrimmedEnds(s);
    TrimRight(TrimLeft(s))
  }

  lemma TrimmedSlice(s: string)
    ensures var l := TrimLeft(s); var r := TrimRight(l);
      forall i :: 0 <= i < |r| ==> r[i] == s[|s| - |l| + i]
  {
    var l := TrimLeft(s);
    var r := TrimRight(l);
    forall i | 0 <= i < |r|
      ensures r[i] == s[|s| - |l| + i]
    {
      assert r[i] == l[i];
    }
  }

  lemma TrimmedTail(s: string)
    ensures var l := TrimLeft(s); var r := TrimRight(l);
      forall i :: |s| - |l| + |r| <= i < |s| ==> IsSpace(s[i])
  {
    forall i | |s| - |TrimLeft(s)| + |TrimRight(TrimLeft(s))| <= i < |s|
      ensures IsSpace(s[i])
    {
      TrimmedTailAt(s, i);
    }
  }

  lemma TrimmedTailAt(s: string, i: int)
    requires |s| - |TrimLeft(s)| + |TrimRight(TrimLeft(s))| <= i < |s|
    ensures IsSpace(s[i])
  {
    var l := TrimLeft(s);
    var a := |s| - |l|;
    assert l == s[a..];
    var k := i - a;
    assert IsSpace(l[k]);
  }

  lemma TrimmedEnds(s: string)
    ensures var r := TrimRight(TrimLeft(s));
      |r| > 0 ==> !IsSpace(r[0]) && !IsSpace(r[|r| - 1])
  {
    var l := TrimLeft(s);
    var r := TrimRight(l);
    if |r| > 0 {
      assert r[0] == l[0];
    }
  }

  /** Trimming an already trimmed string changes nothing. */
  lemma TrimSpaceIdempotent(s: string)
    ensures TrimSpace(TrimSpace(s)) == TrimSpace(s)
  {
    var t := TrimSpace(s);
    if |t| > 0 {
      assert !IsSpace(t[0]) && !IsSpace(t[|t| - 1]);
      assert TrimLeft(t) == t;
      assert TrimRight(t) == t;
    }
  }

  /** The first element of `strings.Split(s, ",")`: everything before the first
      comma, or all of `s` when it has none. */
  function FirstField(s: string): (r: string)
    ensures |r| <= |s| && r == s[..|r|]
    ensures ',' !in r
    ensures |r| < |s| ==> s[|r|] == ','
  {
    if |s| == 0 || s[0] == ',' then "" else [s[0]] + FirstField(s[1..])
  }

  /** The number of bytes of the UTF-8 encoding of `c`. */
  function Utf8Width(c: char): (w: nat)
    ensures 1 <= w <= 4
    ensures w == 1 <==> c as int < 0x80
  {
    if c as int < 0x80 then 1
    else if c as int < 0x800 then 2
    else if c as int < 0x10000 then 3
    else 4
  }

  /** Go's `len(s)`: the number of bytes of the UTF-8 encoding of `s`, at
      least one and at most four per character and exactly one per ASCII
      character. */
  function Utf8Length(s: string): (n: nat)
    ensures |s| <= n <= 4 * |s|
    ensures n == |s| <==> forall i :: 0 <= i < |s| ==> s[i] as int < 0x80
  {
    if |s| == 0 then 0
    else
      var n := Utf8Width(s[0]) + Utf8Length(s[1..]);
      assert forall i :: 1 <= i < |s| ==> s[i] == s[1..][i - 1];
      n
  }

  function DigitChar(d: nat): (c: char)
    requires d < 10
    ensures '0' <= c <= '9'
  {
    "0123456789"[d]
  }

  function DigitValue(c: char): (d: nat)
    requires '0' <= c <= '9'
    ensures d < 10 && DigitChar(d) == c
  {
    c as int - '0' as int
  }

  predicate IsDigits(s: string) {
    forall i :: 0 <= i < |s| ==> '0' <= s[i] <= '9'
  }

  /** `strconv.Itoa` on a non-negative number: its decimal digits, most
      significant first, without leading zeros. */
  function Itoa(n: nat): (s: string)
    ensures |s| > 0 && IsDigits(s)
    ensures s[0] == '0' ==> n == 0 && s == "0"
  {
    if n < 10 then [DigitChar(n)] else Itoa(n / 10) + [DigitChar(n % 10)]
  }

  /** Reads a string of decimal digits back as a number. */
  function ParseDecimal(s: string): nat
    requires IsDigits(s)
  {
    if |s| == 0 then 0
    else ParseDecimal(s[..|s| - 1]) * 10 + DigitValue(s[|s| - 1])
  }

  /** The decimal rendering loses nothing: reading it back gives `n`. */
  lemma {:induction false} DecimalRoundTrip(n: nat)
    ensures ParseDecimal(Itoa(n)) == n
  {
    var s := Itoa(n);
    if n >= 10 {
      DecimalRoundTrip(n / 10);
      assert s[..|s| - 1] == Itoa(n / 10);
      assert DigitValue(s[|s| - 1]) == n % 10;
    } else {
      assert s[..|s| - 1] == "";
    }
  }
}
