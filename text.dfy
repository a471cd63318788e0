/** The string handling the matrix code relies on: case-insensitive label
    comparison (the namespace's label lookup and the character-subset table)
    and the `"%03d"` formatting used to build locus labels. Case folding is
    ASCII-only. */
module Text {
  import opened OrderedMaps

  function LowerChar(c: char): char {
    if 'A' <= c <= 'Z' then (c as int + 32) as char else c
  }

  /** `s.lower()`, restricted to ASCII letters. */
  function Fold(s: string): (r: string)
    ensures |r| == |s|
    ensures forall i | 0 <= i < |s| :: r[i] == LowerChar(s[i])
  {
    seq(|s|, i requires 0 <= i < |s| => LowerChar(s[i]))
  }

  /** Label equality as the namespace compares labels. */
  predicate LabelMatches(a: string, b: string, caseSensitive: bool) {
    if caseSensitive then a == b else Fold(a) == Fold(b)
  }

  lemma FoldConcat(a: string, b: string)
    ensures Fold(a + b) == Fold(a) + Fold(b)
  {
  }

  predicate IsDigit(c: char) {
    '0' <= c <= '9'
  }

  predicate AllDigits(s: string) {
    forall i | 0 <= i < |s| :: IsDigit(s[i])
  }

  lemma FoldDigits(s: string)
    requires AllDigits(s)
    ensures Fold(s) == s
  {
  }

  function DigitChar(d: nat): (c: char)
    requires d < 10
    ensures IsDigit(c)
  {
    ('0' as int + d) as char
  }

  function DigitValue(c: char): (d: nat)
    requires IsDigit(c)
    ensures d < 10
  {
    c as int - '0' as int
  }

  /** The decimal digits of `n`, most significant first, with no leading zero. */
  function Decimal(n: nat): (r: string)
    ensures AllDigits(r) && |r| >= 1
  {
    if n < 10 then [DigitChar(n)] else Decimal(n / 10) + [DigitChar(n % 10)]
  }

  /** The number a string of digits denotes. */
  function ValueOf(s: string): nat
    requires AllDigits(s)
  {
    if s == [] then 0 else 10 * ValueOf(s[..|s| - 1]) + DigitValue(s[|s| - 1])
  }

  /** `"%03d" % n`: the decimal digits of `n`, left-padded with zeros to at least three. */
  function Format03(n: nat): (r: string)
    ensures AllDigits(r)
  {
    var d := Decimal(n);
    if |d| >= 3 then d else Repeat('0', 3 - |d|) + d
  }

  lemma {:induction false} DecimalRoundTrip(n: nat)
    ensures ValueOf(Decimal(n)) == n
  {
    if n >= 10 {
      DecimalRoundTrip(n / 10);
      var d := Decimal(n);
      assert d[..|d| - 1] == Decimal(n / 10);
    }
  }

  lemma {:induction false} LeadingZerosValue(k: nat, s: string)
    requires AllDigits(s)
    ensures AllDigits(Repeat('0', k) + s)
    ensures ValueOf(Repeat('0', k) + s) == ValueOf(s)
    decreases |s|
  {
    var z := Repeat('0', k);
    if s == [] {
      assert z + s == z;
      ZerosValue(k);
    } else {
      var p := s[..|s| - 1];
      LeadingZerosValue(k, p);
      assert (z + s)[..|z + s| - 1] == z + p;
    }
  }

  lemma {:induction false} ZerosValue(k: nat)
    ensures ValueOf(Repeat('0', k)) == 0
  {
    if k > 0 {
      var z := Repeat('0', k);
      assert z[..k - 1] == Repeat('0', k - 1);
      ZerosValue(k - 1);
    }
  }

  /** Reading back the three-digit rendering gives the number again. */
  lemma Format03RoundTrip(n: nat)
    ensures ValueOf(Format03(n)) == n
  {
    DecimalRoundTrip(n);
    var d := Decimal(n);
    if |d| < 3 {
      LeadingZerosValue(3 - |d|, d);
    }
  }

  /** Distinct numbers render to distinct `"%03d"` strings. */
  lemma Format03Injective(a: nat, b: nat)
    requires Format03(a) == Format03(b)
    ensures a == b
  {
    Format03RoundTrip(a);
    Format03RoundTrip(b);
  }
}
