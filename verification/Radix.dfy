/** Positional numerals: minimal digit strings, and conversion between bases that keeps leading zeros. */
module Radix {
  /** Most significant digit first. */
  type Digits = seq<nat>

  predicate InBase(base: nat, digits: Digits)
  {
    forall i :: 0 <= i < |digits| ==> digits[i] < base
  }

  function Value(base: nat, digits: Digits): (n: nat)
  {
    if digits == [] then 0 else Value(base, digits[..|digits| - 1]) * base + digits[|digits| - 1]
  }

  /** Repeated division: the digits of n without leading zeros. */
  function DigitsOf(base: nat, n: nat): (digits: Digits)
    requires base >= 2
    ensures InBase(base, digits)
    decreases n
  {
    if n == 0 then [] else QuotientIsSmaller(base, n); DigitsOf(base, n / base) + [n % base]
  }

  lemma QuotientIsSmaller(base: nat, n: nat)
    requires base >= 2 && n > 0
    ensures n / base < n
  {}

  function Zeros(k: nat): (digits: Digits)
    ensures |digits| == k && forall i :: 0 <= i < k ==> digits[i] == 0
  {
    seq(k, _ => 0)
  }

  function LeadingZeros(digits: Digits): (k: nat)
    ensures k <= |digits| && digits[..k] == Zeros(k)
    ensures k < |digits| ==> digits[k] != 0
  {
    if digits == [] || digits[0] != 0 then 0 else 1 + LeadingZeros(digits[1..])
  }

  predicate Minimal(digits: Digits)
  {
    digits == [] || digits[0] != 0
  }

  lemma ValueOfNothing(base: nat)
    ensures Value(base, []) == 0
  {}

  lemma ValueGrows(base: nat, digits: Digits, d: nat)
    ensures Value(base, digits + [d]) == Value(base, digits) * base + d
  {
    assert (digits + [d])[..|digits|] == digits;
  }

  lemma NoDigits(base: nat)
    requires base >= 2
    ensures DigitsOf(base, 0) == []
  {}

  lemma DigitsStep(base: nat, n: nat)
    requires base >= 2 && n > 0
    ensures DigitsOf(base, n) == DigitsOf(base, n / base) + [n % base]
  {}

  lemma {:induction false} ValueOfDigits(base: nat, n: nat)
    requires base >= 2
    ensures Value(base, DigitsOf(base, n)) == n
    ensures Minimal(DigitsOf(base, n))
    decreases n
  {
    hide Value, DigitsOf;
    if n == 0 {
      NoDigits(base);
      ValueOfNothing(base);
    } else {
      QuotientIsSmaller(base, n);
      DigitsStep(base, n);
      ValueOfDigits(base, n / base);
      DivMod(n, base);
      ValueGrows(base, DigitsOf(base, n / base), n % base);
      if n / base == 0 { NoDigits(base); }
      if DigitsOf(base, n / base) == [] { ValueOfNothing(base); }
    }
  }

  lemma {:induction false} PositiveValue(base: nat, digits: Digits)
    requires base >= 2 && Minimal(digits) && digits != []
    ensures Value(base, digits) > 0
  {
    if |digits| > 1 {
      PositiveValue(base, digits[..|digits| - 1]);
      var high := Value(base, digits[..|digits| - 1]);
      assert high * base >= high * 2;
    }
  }

  lemma {:induction false} DigitsOfValue(base: nat, digits: Digits)
    requires base >= 2 && InBase(base, digits) && Minimal(digits)
    ensures DigitsOf(base, Value(base, digits)) == digits
  {
    if digits != [] {
      PositiveValue(base, digits);
      var front, last := digits[..|digits| - 1], digits[|digits| - 1];
      DigitsOfValue(base, front);
      Split(base, Value(base, front), last);
      assert front + [last] == digits;
    }
  }

  lemma DivMod(n: nat, base: nat)
    requires base > 0
    ensures n == n / base * base + n % base && 0 <= n % base < base
  {}

  lemma MoreTimes(less: int, more: int, base: nat)
    requires less < more
    ensures less * base + base <= more * base
  {
    assert (more - less - 1) * base >= 0;
  }

  lemma Split(base: nat, high: nat, low: nat)
    requires base >= 2 && low < base
    ensures (high * base + low) / base == high && (high * base + low) % base == low
  {
    var n := high * base + low;
    var q := n / base;
    DivMod(n, base);
    if high > q { MoreTimes(q, high, base); }
    if high < q { MoreTimes(high, q, base); }
  }

  lemma {:induction false} LeadingZerosDoNotCount(base: nat, k: nat, digits: Digits)
    ensures Value(base, Zeros(k) + digits) == Value(base, digits)
    decreases k + |digits|
  {
    var all := Zeros(k) + digits;
    if digits != [] {
      assert all[..|all| - 1] == Zeros(k) + digits[..|digits| - 1];
      LeadingZerosDoNotCount(base, k, digits[..|digits| - 1]);
    } else if k > 0 {
      assert all[..|all| - 1] == Zeros(k - 1) + [];
      LeadingZerosDoNotCount(base, k - 1, []);
    }
  }

  lemma {:induction false} LeadingZerosOf(k: nat, digits: Digits)
    requires Minimal(digits)
    ensures LeadingZeros(Zeros(k) + digits) == k
    decreases k
  {
    if k == 0 {
      assert Zeros(k) + digits == digits;
    } else {
      assert (Zeros(k) + digits)[1..] == Zeros(k - 1) + digits;
      LeadingZerosOf(k - 1, digits);
    }
  }

  // -------------------------------------------------------------- conversion

  /** The same number in another base, one leading zero digit for each leading zero digit. */
  function Convert(from: nat, to: nat, digits: Digits): (r: Digits)
    requires from >= 2 && to >= 2
    ensures InBase(to, r)
  {
    Zeros(LeadingZeros(digits)) + DigitsOf(to, Value(from, digits))
  }

  /** Conversion forth and back is the identity, so it is a bijection between digit strings. */
  lemma ConversionInverts(from: nat, to: nat, digits: Digits)
    requires from >= 2 && to >= 2 && InBase(from, digits)
    ensures Convert(to, from, Convert(from, to, digits)) == digits
  {
    hide Value, DigitsOf;
    var k := LeadingZeros(digits);
    var rest := digits[k..];
    assert digits == Zeros(k) + rest;
    LeadingZerosDoNotCount(from, k, rest);
    var n := Value(from, digits);
    var converted := DigitsOf(to, n);
    ValueOfDigits(to, n);
    LeadingZerosOf(k, converted);
    LeadingZerosDoNotCount(to, k, converted);
    DigitsOfValue(from, rest);
  }
}
