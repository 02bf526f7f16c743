/**
 GTINs (platform/core/src/gtin.ts): check digits by section 7.9 of the GS1 General Specifications, and one
 form of 14 digits for each number.
 */
module Gtin {
  import opened Basics

  predicate IsDigit(c: char) {
    '0' <= c <= '9'
  }

  predicate AllDigits(text: string) {
    forall k :: 0 <= k < |text| ==> IsDigit(text[k])
  }

  function Value(c: char): nat
    requires IsDigit(c)
  {
    c as int - '0' as int
  }

  /** A digit's weight by how many digits follow it before the check digit: 3, 1, 3, from the right. */
  function Weight(after: nat): nat {
    if after % 2 == 0 then 3 else 1
  }

  /** The weighted sum of the digits before the check digit. */
  function Sum(body: string): nat
    requires AllDigits(body)
  {
    if body == "" then 0 else Value(body[0]) * Weight(|body| - 1) + Sum(body[1..])
  }

  function CheckDigit(sum: nat): nat {
    (10 - sum % 10) % 10
  }

  predicate ValidCheckDigit(digits: string)
    requires digits != "" && AllDigits(digits)
  {
    CheckDigit(Sum(digits[..|digits| - 1])) == Value(digits[|digits| - 1])
  }

  /** `hasValidCheckDigit` */
  method HasValidCheckDigit(digits: string) returns (valid: bool)
    requires digits != "" && AllDigits(digits)
    ensures valid == ValidCheckDigit(digits)
  {
    var body := digits[..|digits| - 1];
    var sum, index, weight := 0, |digits| - 2, 3;
    while index >= 0
      invariant -1 <= index < |body|
      invariant weight == Weight(|body| - 1 - index)
      invariant sum == Sum(body[index + 1..])
    {
      assert body[index..][1..] == body[index + 1..];
      sum := sum + Value(digits[index]) * weight;
      index := index - 1;
      weight := 4 - weight;
    }
    assert body[0..] == body;
    valid := (10 - sum % 10) % 10 == Value(digits[|digits| - 1]);
  }

  // ---------------------------------------------------------------------- what check digits tell

  function Zeros(n: nat): (zeros: string)
    ensures |zeros| == n && forall k :: 0 <= k < n ==> zeros[k] == '0'
  {
    if n == 0 then "" else "0" + Zeros(n - 1)
  }

  lemma {:induction false} PaddedSum(body: string, n: nat)
    requires AllDigits(body)
    ensures Sum(Zeros(n) + body) == Sum(body)
  {
    if n == 0 {
      assert Zeros(n) + body == body;
    } else {
      PaddedSum(body, n - 1);
      assert (Zeros(n) + body)[1..] == Zeros(n - 1) + body;
    }
  }

  /** Zeros in front keep a number's check digit valid, or invalid. */
  lemma PaddingKeeps(digits: string, n: nat)
    requires digits != "" && AllDigits(digits)
    ensures ValidCheckDigit(Zeros(n) + digits) == ValidCheckDigit(digits)
  {
    var body := digits[..|digits| - 1];
    PaddedSum(body, n);
    assert (Zeros(n) + digits)[..n + |digits| - 1] == Zeros(n) + body;
  }

  /** How changing one digit changes the sum. */
  lemma {:induction false} ChangedSum(body: string, k: nat, c: char)
    requires AllDigits(body) && k < |body| && IsDigit(c)
    ensures
      Sum(body[k := c]) + Value(body[k]) * Weight(|body| - 1 - k) == Sum(body) + Value(c) * Weight(|body| - 1 - k)
  {
    if k == 0 {
      assert body[0 := c][1..] == body[1..];
    } else {
      ChangedSum(body[1..], k - 1, c);
      assert body[k := c][1..] == body[1..][k - 1 := c];
    }
  }

  /** Sums that differ by no multiple of ten have different check digits. */
  lemma SumsTell(x: nat, y: nat, d: nat)
    requires x == y + d && d % 10 != 0
    ensures CheckDigit(x) != CheckDigit(y)
  {
    assert x % 10 != y % 10 by {
      assert d == 10 * (x / 10 - y / 10) + (x % 10 - y % 10);
    }
  }

  /** Neither weight turns a difference between two digits into a multiple of ten. */
  lemma WeightsTell(a: nat, b: nat, x: nat, y: nat, weight: nat)
    requires a < 10 && b < 10 && a != b && (weight == 1 || weight == 3)
    requires x + a * weight == y + b * weight
    ensures CheckDigit(x) != CheckDigit(y)
  {
    if a > b {
      var d := if weight == 3 then 3 * (a - b) else a - b;
      SumsTell(y, x, d);
    } else {
      var d := if weight == 3 then 3 * (b - a) else b - a;
      SumsTell(x, y, d);
    }
  }

  /** Changing any one digit of a valid number makes its check digit wrong. */
  lemma ChangeBreaks(digits: string, k: nat, c: char)
    requires digits != "" && AllDigits(digits) && ValidCheckDigit(digits)
    requires k < |digits| && IsDigit(c) && c != digits[k]
    ensures !ValidCheckDigit(digits[k := c])
  {
    var n := |digits| - 1;
    var body := digits[..n];
    if k == n {
      assert digits[k := c][..n] == body;
    } else {
      assert digits[k := c][..n] == body[k := c];
      ChangedSum(body, k, c);
      WeightsTell(Value(body[k]), Value(c), Sum(body[k := c]), Sum(body), Weight(|body| - 1 - k));
    }
  }

  // ---------------------------------------------------------------------- one form for each number

  /** `\\s` */
  predicate IsSpace(c: char) {
    var n := c as int;
    || 9 <= n <= 13 || n == 32 || n == 0xA0 || n == 0x1680 || 0x2000 <= n <= 0x200A
    || n == 0x2028 || n == 0x2029 || n == 0x202F || n == 0x205F || n == 0x3000 || n == 0xFEFF
  }

  function Strip(input: string): string {
    Filter((c: char) => !IsSpace(c) && c != '-', input)
  }

  predicate IsZeros(text: string) {
    forall k :: 0 <= k < |text| ==> text[k] == '0'
  }

  predicate IsGtin(digits: string) {
    && AllDigits(digits)
    && (|digits| == 8 || |digits| == 12 || |digits| == 13 || |digits| == 14)
    && !IsZeros(digits)
    && ValidCheckDigit(digits)
  }

  function Padded(digits: string): string
    requires |digits| <= 14
  {
    Zeros(14 - |digits|) + digits
  }

  /** `normalizeGtin` */
  function Normalize(input: string): Option<string> {
    var digits := Strip(input);
    if IsGtin(digits) then Some(Padded(digits)) else None
  }

  /** A number's digits without the zeros in front. */
  function Significant(digits: string): string {
    if digits != "" && digits[0] == '0' then Significant(digits[1..]) else digits
  }

  lemma {:induction false} StripDigits(digits: string)
    requires AllDigits(digits)
    ensures Strip(digits) == digits
  {
    if digits != "" {
      StripDigits(digits[..|digits| - 1]);
      assert digits == digits[..|digits| - 1] + [digits[|digits| - 1]];
    }
  }

  /** Normalizing a normal form changes nothing, and a normal form is 14 digits that are a GTIN. */
  lemma NormalizeAgain(input: string)
    requires Normalize(input).Some?
    ensures Normalize(Normalize(input).value) == Normalize(input)
    ensures |Normalize(input).value| == 14 && IsGtin(Normalize(input).value)
  {
    var digits := Strip(input);
    var normal := Padded(digits);
    PaddingKeeps(digits, 14 - |digits|);
    StripDigits(normal);
    assert Padded(normal) == normal;
    var k :| 0 <= k < |digits| && digits[k] != '0';
    assert normal[14 - |digits| + k] == digits[k];
  }

  lemma {:induction false} SignificantPadded(digits: string, n: nat)
    ensures Significant(Zeros(n) + digits) == Significant(digits)
  {
    if n == 0 {
      assert Zeros(n) + digits == digits;
    } else {
      SignificantPadded(digits, n - 1);
      assert (Zeros(n) + digits)[1..] == Zeros(n - 1) + digits;
    }
  }

  lemma {:induction false} PaddedSignificant(digits: string)
    ensures |Significant(digits)| <= |digits|
    ensures digits == Zeros(|digits| - |Significant(digits)|) + Significant(digits)
  {
    if digits != "" && digits[0] == '0' {
      PaddedSignificant(digits[1..]);
      var n := |digits| - |Significant(digits)|;
      assert digits == "0" + digits[1..];
      assert Zeros(n) == "0" + Zeros(n - 1);
    }
  }

  /** Two accepted inputs are one GTIN exactly when their digits differ only in zeros in front. */
  lemma SameGtin(a: string, b: string)
    requires Normalize(a).Some? && Normalize(b).Some?
    ensures Normalize(a) == Normalize(b) <==> Significant(Strip(a)) == Significant(Strip(b))
  {
    var x, y := Padded(Strip(a)), Padded(Strip(b));
    SignificantPadded(Strip(a), 14 - |Strip(a)|);
    SignificantPadded(Strip(b), 14 - |Strip(b)|);
    PaddedSignificant(x);
    PaddedSignificant(y);
  }
}
