/** security/input/pii.scrubber.ts, passesLuhn: the check digit rule of Annex B of ISO/IEC 7812-1. */
module Luhn {
  import opened JsStrings

  type Digit = d: nat | d < 10

  /** What one digit adds to the sum; every second digit counts double, less 9 when that exceeds 9. */
  function Weight(d: Digit, doubled: bool): (w: Digit) {
    if !doubled then d else if 2 * d > 9 then 2 * d - 9 else 2 * d
  }

  /** The digit at index k is doubled when its distance from the last digit is odd. */
  ghost predicate Doubled(length: nat, k: nat)
    requires k < length
  {
    (length - 1 - k) % 2 == 1
  }

  /** The sum of the first n weights. */
  ghost function WeightSum(ds: seq<Digit>, n: nat): nat
    requires n <= |ds|
  {
    if n == 0 then 0 else WeightSum(ds, n - 1) + Weight(ds[n - 1], Doubled(|ds|, n - 1))
  }

  ghost predicate Passes(ds: seq<Digit>) {
    WeightSum(ds, |ds|) % 10 == 0
  }

  function DigitOf(c: char): Digit
    requires IsDigit(c)
  {
    c as int - '0' as int
  }

  function DigitsOf(s: string): (ds: seq<Digit>)
    requires forall i :: 0 <= i < |s| ==> IsDigit(s[i])
    ensures |ds| == |s|
  {
    seq(|s|, i requires 0 <= i < |s| => DigitOf(s[i]))
  }

  lemma DigitOfIs(d: Digit)
    ensures IsDigit("0123456789"[d]) && DigitOf("0123456789"[d]) == d
  {
  }

  method PassesLuhn(digits: string) returns (r: bool)
    requires forall i :: 0 <= i < |digits| ==> IsDigit(digits[i])
    ensures r <==> Passes(DigitsOf(digits))
  {
    var nums := DigitsOf(digits);
    var sum := 0;
    var alternate := false;
    var i := |nums| - 1;
    while i >= 0
      invariant -1 <= i < |nums|
      invariant i >= 0 ==> alternate == Doubled(|nums|, i)
      invariant sum + WeightSum(nums, i + 1) == WeightSum(nums, |nums|)
    {
      var n: int := nums[i];
      if alternate {
        n := n * 2;
        if n > 9 {
          n := n - 9;
        }
      }
      sum := sum + n;
      alternate := !alternate;
      i := i - 1;
    }
    r := sum % 10 == 0;
  }

  // ----- the rule from the right

  /** The digits of twice the digit, added up. */
  function DoubledDigits(d: Digit): nat {
    2 * d / 10 + 2 * d % 10
  }

  /** From the right: the last digit as it is, the one before it doubled, and so on. */
  ghost function FromTheRight(ds: seq<Digit>): nat {
    if |ds| == 0 then 0
    else if |ds| == 1 then ds[0]
    else FromTheRight(ds[..|ds| - 2]) + DoubledDigits(ds[|ds| - 2]) + ds[|ds| - 1]
  }

  lemma WeightIs(d: Digit)
    ensures Weight(d, true) == DoubledDigits(d) && Weight(d, false) == d
  {
  }

  lemma {:induction false} SameWeights(ds: seq<Digit>, n: nat)
    requires n + 2 <= |ds|
    ensures WeightSum(ds, n) == WeightSum(ds[..|ds| - 2], n)
  {
    hide Weight;
    if n > 0 {
      SameWeights(ds, n - 1);
      assert Doubled(|ds|, n - 1) == Doubled(|ds| - 2, n - 1);
    }
  }

  lemma {:induction false} WeightsFromTheRight(ds: seq<Digit>)
    ensures WeightSum(ds, |ds|) == FromTheRight(ds)
  {
    hide Weight, DoubledDigits;
    var n := |ds|;
    if n == 1 {
      WeightIs(ds[0]);
      assert WeightSum(ds, 1) == WeightSum(ds, 0) + Weight(ds[0], Doubled(1, 0));
    } else if n > 1 {
      SameWeights(ds, n - 2);
      WeightsFromTheRight(ds[..n - 2]);
      WeightIs(ds[n - 2]);
      WeightIs(ds[n - 1]);
      assert WeightSum(ds, n) == WeightSum(ds, n - 2) + Weight(ds[n - 2], true) + Weight(ds[n - 1], false);
    }
  }

  /** A string passes exactly if its sum from the right, where the last digit is not doubled, is a multiple of 10. */
  lemma PassesFromTheRightIff(ds: seq<Digit>)
    ensures Passes(ds) <==> FromTheRight(ds) % 10 == 0
  {
    WeightsFromTheRight(ds);
  }

  // ----- which slips the check catches

  lemma WeightIsInjective(a: Digit, b: Digit, doubled: bool)
    ensures Weight(a, doubled) == Weight(b, doubled) <==> a == b
  {
  }

  lemma {:induction false} OneDigitChanged(ds: seq<Digit>, k: nat, d: Digit, n: nat)
    requires k < |ds| && n <= |ds|
    ensures WeightSum(ds[k := d], n) as int ==
            WeightSum(ds, n) + (if k < n then Weight(d, Doubled(|ds|, k)) - Weight(ds[k], Doubled(|ds|, k)) else 0)
    decreases n
  {
    if n > 0 {
      OneDigitChanged(ds, k, d, n - 1);
    }
  }

  /** Two sums less than 10 apart are both multiples of 10 only if equal. */
  lemma NearMultiples(a: nat, b: nat)
    requires a % 10 == 0 && -10 < b - a < 10
    ensures b % 10 == 0 <==> a == b
  {
  }

  /** Replacing one digit of a passing string keeps it passing only by the digit it replaces. */
  lemma SubstitutionIsCaught(ds: seq<Digit>, k: nat, d: Digit)
    requires k < |ds| && Passes(ds)
    ensures Passes(ds[k := d]) <==> d == ds[k]
  {
    hide WeightSum, Weight, Doubled;
    OneDigitChanged(ds, k, d, |ds|);
    WeightIsInjective(d, ds[k], Doubled(|ds|, k));
    NearMultiples(WeightSum(ds, |ds|), WeightSum(ds[k := d], |ds|));
  }

  ghost function Swapped(ds: seq<Digit>, k: nat): seq<Digit>
    requires k + 1 < |ds|
  {
    ds[k := ds[k + 1]][k + 1 := ds[k]]
  }

  /** How much a swap of neighbours, exactly one of them doubled, changes the sum; only 0 and 9 tie. */
  lemma SwapGain(a: Digit, b: Digit, doubled: bool)
    ensures var gain := Weight(b, doubled) + Weight(a, !doubled) - Weight(a, doubled) - Weight(b, !doubled);
            && -10 < gain < 10
            && (gain == 0 <==> a == b || {a, b} == {0, 9})
  {
  }

  /** Swapping neighbours in a passing string goes unnoticed exactly for equal digits and for 0 with 9. */
  lemma TranspositionIsCaughtExceptZeroNine(ds: seq<Digit>, k: nat)
    requires k + 1 < |ds| && Passes(ds)
    ensures Passes(Swapped(ds, k)) <==> ds[k] == ds[k + 1] || {ds[k], ds[k + 1]} == {0, 9}
  {
    var half := ds[k := ds[k + 1]];
    assert Doubled(|ds|, k + 1) == !Doubled(|ds|, k);
    hide WeightSum, Weight, Doubled;
    OneDigitChanged(ds, k, ds[k + 1], |ds|);
    OneDigitChanged(half, k + 1, ds[k], |ds|);
    SwapGain(ds[k], ds[k + 1], Doubled(|ds|, k));
    NearMultiples(WeightSum(ds, |ds|), WeightSum(Swapped(ds, k), |ds|));
  }
}
