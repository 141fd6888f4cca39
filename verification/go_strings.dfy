/** The pieces of Go's `strconv` and `strings` packages that the ledger's
    hashing and difficulty check rely on, written out over `seq<char>`. */
module GoStrings {

  predicate IsDigit(c: char) {
    '0' <= c <= '9'
  }

  predicate AllDigits(s: string) {
    forall k :: 0 <= k < |s| ==> IsDigit(s[k])
  }

  function DigitChar(d: nat): (c: char)
    requires d < 10
    ensures IsDigit(c) && DigitValue(c) == d
  {
    (('0' as int) + d) as char
  }

  function DigitValue(c: char): (d: nat)
    requires IsDigit(c)
    ensures d < 10
  {
    (c as int) - ('0' as int)
  }

  /** Decimal digits of `n`, most significant first. */
  function NatToDecimal(n: nat): (s: string)
    ensures 1 <= |s|
    ensures AllDigits(s)
    ensures n > 0 ==> s[0] != '0'
    ensures |s| > 1 ==> s[0] != '0'
    decreases n
  {
    if n < 10 then [DigitChar(n)] else NatToDecimal(n / 10) + [DigitChar(n % 10)]
  }

  /** Reads a run of decimal digits back as a number (the inverse of `NatToDecimal`). */
  function DecimalToNat(s: string): nat
    requires AllDigits(s)
    decreases |s|
  {
    if |s| == 0 then 0 else DecimalToNat(s[..|s| - 1]) * 10 + DigitValue(s[|s| - 1])
  }

  /** `strconv.Itoa`: the canonical decimal form of an integer, with a leading
      '-' for negative values. */
  function Itoa(n: int): (s: string)
    ensures 1 <= |s|
    ensures n < 0 <==> s[0] == '-'
    ensures n >= 0 ==> AllDigits(s)
    ensures n < 0 ==> AllDigits(s[1..])
  {
    if n < 0 then "-" + NatToDecimal(-n) else NatToDecimal(n)
  }

  /** A non-empty run of digits without a leading zero, or "0" itself. */
  predicate IsCanonicalDecimal(s: string) {
    1 <= |s| && AllDigits(s) && (|s| > 1 ==> s[0] != '0')
  }

  /** Exactly the text `Itoa` produces: a canonical decimal, or '-' followed
      by a canonical decimal other than "0". */
  predicate IsIntText(s: string) {
    || IsCanonicalDecimal(s)
    || (2 <= |s| && s[0] == '-' && IsCanonicalDecimal(s[1..]) && s[1] != '0')
  }

  /** `strconv.Atoi` on the text `Itoa` produces. */
  function Atoi(s: string): int
    requires IsIntText(s)
  {
    if 1 <= |s| && s[0] == '-' then 0 - (DecimalToNat(s[1..]) as int) else DecimalToNat(s)
  }

  lemma {:induction false} DecimalRoundTrip(n: nat)
    ensures DecimalToNat(NatToDecimal(n)) == n
    decreases n
  {
    var s := NatToDecimal(n);
    if n < 10 {
      assert s[..|s| - 1] == [];
    } else {
      var front := NatToDecimal(n / 10);
      assert s[..|s| - 1] == front;
      DecimalRoundTrip(n / 10);
    }
  }

  /** Reading back what `Itoa` wrote gives the original integer. */
  lemma ItoaRoundTrip(n: int)
    ensures IsIntText(Itoa(n))
    ensures Atoi(Itoa(n)) == n
  {
    if n < 0 {
      assert Itoa(n)[1..] == NatToDecimal(-n);
      DecimalRoundTrip(-n);
    } else {
      DecimalRoundTrip(n);
    }
  }

  /** Distinct integers have distinct decimal forms. */
  lemma ItoaInjective(a: int, b: int)
    requires Itoa(a) == Itoa(b)
    ensures a == b
  {
    ItoaRoundTrip(a);
    ItoaRoundTrip(b);
  }

  /** `strings.Repeat`: `count` copies of `s`, back to back. */
  function Repeat(s: string, count: nat): (r: string)
    ensures |r| == |s| * count
  {
    if count == 0 then "" else s + Repeat(s, count - 1)
  }

  /** Repeating a one-character string gives a run of that character. */
  lemma {:induction false} RepeatChar(c: char, count: nat)
    ensures |Repeat([c], count)| == count
    ensures forall k :: 0 <= k < count ==> Repeat([c], count)[k] == c
  {
    if count > 0 {
      RepeatChar(c, count - 1);
    }
  }

  /** `strings.HasPrefix`: whether `s` begins with `prefix`. */
  function HasPrefix(s: string, prefix: string): bool {
    |s| >= |prefix| && s[..|prefix|] == prefix
  }
}
