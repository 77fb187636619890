/** Percentages and pie fractions: `1.0 * count / total` at lines 66, 94 and 113
    of `Program.cs`.

    The source computes them in `double`; the model uses exact `real` arithmetic. */
module Proportion {
  import opened Tally

  /** `v[i] + v[i + 1] + ... + v[j - 1]`. */
  function RangeSum(v: seq<real>, i: nat, j: nat): real
    requires i <= j <= |v|
    decreases j - i
  {
    if i == j then 0.0 else v[i] + RangeSum(v, i + 1, j)
  }

  /** The sum of all the fractions. */
  function Total(v: seq<real>): real
  {
    RangeSum(v, 0, |v|)
  }

  /** A range sum splits at any point in between. */
  lemma {:induction false} RangeSumSplit(v: seq<real>, i: nat, j: nat, m: nat)
    requires i <= j <= m <= |v|
    ensures RangeSum(v, i, m) == RangeSum(v, i, j) + RangeSum(v, j, m)
    decreases j - i
  {
    if i < j {
      RangeSumSplit(v, i + 1, j, m);
    }
  }

  /** With no negative fraction, a longer range never sums to less. */
  lemma {:induction false} RangeSumMonotone(v: seq<real>, i: nat, j: nat, m: nat)
    requires forall k :: 0 <= k < |v| ==> v[k] >= 0.0
    requires i <= j <= m <= |v|
    ensures RangeSum(v, i, j) <= RangeSum(v, i, m)
  {
    RangeSumSplit(v, i, j, m);
    RangeSumNonNegative(v, j, m);
  }

  /** With no negative fraction, every range sum is non-negative. */
  lemma {:induction false} RangeSumNonNegative(v: seq<real>, i: nat, j: nat)
    requires forall k :: 0 <= k < |v| ==> v[k] >= 0.0
    requires i <= j <= |v|
    ensures RangeSum(v, i, j) >= 0.0
    decreases j - i
  {
    if i < j {
      RangeSumNonNegative(v, i + 1, j);
    }
  }

  /** Each entry's count as a fraction of `total`, in the tally's order. The
      source divides only inside a loop over the entries, so a zero `total` is
      harmless exactly when there are no entries. */
  function Shares(t: Tally, total: nat): (r: seq<real>)
    requires |t| > 0 ==> total > 0
    ensures |r| == |t|
    ensures forall i :: 0 <= i < |r| ==> r[i] * total as real == t[i].count as real
    ensures forall i :: 0 <= i < |r| ==> r[i] >= 0.0
  {
    seq(|t|, i requires 0 <= i < |t| => t[i].count as real / total as real)
  }

  /** The fractions of the entries from `i` on add up to their counts' sum over
      `total`. */
  lemma {:induction false} SharesSuffix(t: Tally, total: nat, i: nat)
    requires total > 0
    requires i <= |t|
    ensures RangeSum(Shares(t, total), i, |t|) == Sum(t[i..]) as real / total as real
    decreases |t| - i
  {
    if i < |t| {
      SharesSuffix(t, total, i + 1);
      assert t[i..][1..] == t[i + 1..];
    } else {
      assert t[i..] == [];
    }
  }

  /** Lines 66, 94 and 113: the fractions of a tally whose counts sum to a
      positive `total` add up to one (100%). */
  lemma SharesSumToOne(t: Tally, total: nat)
    requires Sum(t) == total > 0
    ensures Total(Shares(t, total)) == 1.0
  {
    SharesSuffix(t, total, 0);
    assert t[0..] == t;
    var d := total as real;
    assert Sum(t) as real == d && d > 0.0;
    assert (d / d) * d == d;
    assert RangeSum(Shares(t, total), 0, |t|) == 1.0;
  }
}
