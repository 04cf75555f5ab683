/**
  Character-level helpers shared by the trace generators and the trace
  parser: decimal rendering of numbers (Python's f-string `{n}`), the C
  library's `atoi` and `strtoul` on a token, and `strtok` splitting on ','.
*/
module Text {

  datatype Option<T> = None | Some(value: T)

  predicate IsDigit(c: char) {
    '0' <= c <= '9'
  }

  /** The characters C's isspace accepts. */
  predicate IsSpace(c: char) {
    c == ' ' || c == '\t' || c == '\n' || c == '\U{B}' || c == '\U{C}' || c == '\r'
  }

  predicate AllDigits(s: string) {
    forall k :: 0 <= k < |s| ==> IsDigit(s[k])
  }

  function DigitChar(d: nat): (c: char)
    requires d < 10
    ensures IsDigit(c)
  {
    ['0', '1', '2', '3', '4', '5', '6', '7', '8', '9'][d]
  }

  function DigitValue(c: char): (d: nat)
    requires IsDigit(c)
    ensures d < 10
  {
    (c as int - '0' as int) as nat
  }

  lemma DigitRoundTrip(d: nat)
    requires d < 10
    ensures DigitValue(DigitChar(d)) == d
  {
  }

  /** Decimal rendering without leading zeros, as Python's `str(n)` and C's `%d` print a non-negative number. */
  function NatToString(n: nat): (s: string)
    ensures |s| > 0 && AllDigits(s)
    ensures n < 10 <==> |s| == 1
  {
    if n < 10 then [DigitChar(n)] else NatToString(n / 10) + [DigitChar(n % 10)]
  }

  /** The value of a string of decimal digits, most significant first. */
  function ValueOf(s: string): nat
    requires AllDigits(s)
  {
    if s == [] then 0 else 10 * ValueOf(s[..|s| - 1]) + DigitValue(s[|s| - 1])
  }

  /** Length of the longest prefix of `s` made of digits. */
  function DigitPrefixLength(s: string): (k: nat)
    ensures k <= |s| && AllDigits(s[..k])
    ensures k < |s| ==> !IsDigit(s[k])
  {
    if s == [] || !IsDigit(s[0]) then 0
    else
      var k := 1 + DigitPrefixLength(s[1..]);
      assert s[..k] == [s[0]] + s[1..][..k - 1];
      k
  }

  /** What is left of `s` after the leading white space `atoi` and `strtoul` skip. */
  function SkipSpace(s: string): (t: string)
    ensures |t| <= |s| && t == s[|s| - |t|..]
    ensures t == [] || !IsSpace(t[0])
  {
    if s != [] && IsSpace(s[0]) then SkipSpace(s[1..]) else s
  }

  /** Sign and magnitude of the number at the head of `s`, as `atoi` and `strtoul` read it. */
  function LeadingNumber(s: string): (r: (bool, nat))
  {
    var t := SkipSpace(s);
    if t != [] && (t[0] == '-' || t[0] == '+') then
      var u := t[1..];
      (t[0] == '-', ValueOf(u[..DigitPrefixLength(u)]))
    else
      (false, ValueOf(t[..DigitPrefixLength(t)]))
  }

  /** C's `atoi`; a value outside `int` is undefined behaviour in C and is not modelled. */
  function Atoi(s: string): int {
    var (negative, magnitude) := LeadingNumber(s);
    if negative then -(magnitude as int) else magnitude
  }

  const ULONG_MAX: nat := 0x1_0000_0000_0000_0000 - 1

  /** C's `strtoul` in base 10 on a 64-bit `unsigned long`: a leading '-' negates modulo 2^64, and a magnitude beyond ULONG_MAX saturates. */
  function Strtoul(s: string): (r: nat)
    ensures r <= ULONG_MAX
  {
    var (negative, magnitude) := LeadingNumber(s);
    if magnitude > ULONG_MAX then ULONG_MAX
    else if negative && magnitude > 0 then ULONG_MAX + 1 - magnitude
    else magnitude
  }

  lemma {:induction false} ValueOfNatToString(n: nat)
    ensures ValueOf(NatToString(n)) == n
  {
    var s := NatToString(n);
    if n < 10 {
      assert s[..0] == [];
      DigitRoundTrip(n);
    } else {
      ValueOfNatToString(n / 10);
      assert s[..|s| - 1] == NatToString(n / 10);
      DigitRoundTrip(n % 10);
    }
  }

  lemma {:induction false} DigitPrefixOfDigits(s: string, rest: string)
    requires AllDigits(s)
    requires rest == [] || !IsDigit(rest[0])
    ensures DigitPrefixLength(s + rest) == |s|
    decreases |s|
  {
    if s != [] {
      assert (s + rest)[1..] == s[1..] + rest;
      DigitPrefixOfDigits(s[1..], rest);
    }
  }

  /** A string that starts with a digit is read without sign, up to its first non-digit. */
  lemma LeadingDigits(s: string)
    requires s != [] && IsDigit(s[0])
    ensures LeadingNumber(s) == (false, ValueOf(s[..DigitPrefixLength(s)]))
  {
    assert SkipSpace(s) == s;
  }

  /** Rendering a number and reading it back with `atoi` gives the number, whatever non-digit follows it. */
  lemma AtoiNatToString(n: nat, rest: string)
    requires rest == [] || !IsDigit(rest[0])
    ensures Atoi(NatToString(n) + rest) == n
    ensures Strtoul(NatToString(n) + rest) == if n <= ULONG_MAX then n else ULONG_MAX
  {
    var d := NatToString(n);
    var s := d + rest;
    assert s[0] == d[0];
    LeadingDigits(s);
    DigitPrefixOfDigits(d, rest);
    assert s[..|d|] == d;
    ValueOfNatToString(n);
  }

  /** Length of the longest prefix of `s` holding no ','. */
  function FieldLength(s: string): (k: nat)
    ensures k <= |s| && ',' !in s[..k]
    ensures k < |s| ==> s[k] == ','
  {
    if s == [] || s[0] == ',' then 0
    else
      var k := 1 + FieldLength(s[1..]);
      assert s[..k] == [s[0]] + s[1..][..k - 1];
      k
  }

  /** The tokens successive `strtok(…, ",")` calls return: the maximal non-empty runs without ','. */
  function Tokens(s: string): (r: seq<string>)
    ensures forall k :: 0 <= k < |r| ==> |r[k]| > 0 && ',' !in r[k]
    decreases |s|
  {
    if s == [] then []
    else if s[0] == ',' then Tokens(s[1..])
    else
      var k := FieldLength(s);
      [s[..k]] + Tokens(s[k..])
  }

  lemma {:induction false} FieldLengthOf(a: string, rest: string)
    requires ',' !in a
    requires rest == [] || rest[0] == ','
    ensures FieldLength(a + rest) == |a|
    decreases |a|
  {
    if a == [] {
      assert a + rest == rest;
    } else {
      var s := a + rest;
      assert s[0] == a[0] != ',';
      assert s[1..] == a[1..] + rest;
      assert ',' !in a[1..] by {
        forall k | 0 <= k < |a[1..]| ensures a[1..][k] != ',' {
          assert a[1..][k] == a[k + 1];
        }
      }
      FieldLengthOf(a[1..], rest);
    }
  }

  /** A non-empty comma-free field followed by ',' is the first token. */
  lemma TokensCons(a: string, b: string)
    requires |a| > 0 && ',' !in a
    ensures Tokens(a + "," + b) == [a] + Tokens(b)
  {
    var s := a + "," + b;
    FieldLengthOf(a, "," + b);
    assert s[..|a|] == a;
    assert s[|a|..] == "," + b;
    assert ("," + b)[1..] == b;
  }

  lemma TokensSingle(a: string)
    requires |a| > 0 && ',' !in a
    ensures Tokens(a) == [a]
  {
    FieldLengthOf(a, "");
    assert a + "" == a;
    assert a[..|a|] == a;
    assert a[|a|..] == [];
  }

  lemma NatToStringHasNoComma(n: nat)
    ensures ',' !in NatToString(n)
  {
    assert !IsDigit(',');
  }
}
