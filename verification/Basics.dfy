/** Small types and sequence facts that several components share. */
module Basics {

  datatype Option<+T> = None | Some(value: T)

  /** The outcome of a call that may throw. */
  datatype Result<+T, +E> = Ok(value: T) | Err(error: E)

  /** Math.ceil(ms / 1000) for a non-negative number of milliseconds. */
  function CeilSeconds(ms: nat): (s: nat)
    ensures ms <= 1000 * s < ms + 1000
  {
    (ms + 999) / 1000
  }

  ghost predicate Sorted(ts: seq<int>) {
    forall i, j :: 0 <= i <= j < |ts| ==> ts[i] <= ts[j]
  }

  /** How many entries of ts lie in the half-open interval [lo, hi). */
  ghost function Within(ts: seq<int>, lo: int, hi: int): (n: nat)
    ensures n <= |ts|
  {
    if ts == [] then 0
    else
      var last := ts[|ts| - 1];
      Within(ts[..|ts| - 1], lo, hi) + (if lo <= last < hi then 1 else 0)
  }

  lemma WithinOutside(ts: seq<int>, lo: int, hi: int)
    requires forall i :: 0 <= i < |ts| ==> !(lo <= ts[i] < hi)
    ensures Within(ts, lo, hi) == 0
  {
    if ts != [] {
      WithinOutside(ts[..|ts| - 1], lo, hi);
    }
  }

  lemma WithinAppend(ts: seq<int>, t: int, lo: int, hi: int)
    ensures Within(ts + [t], lo, hi) == Within(ts, lo, hi) + (if lo <= t < hi then 1 else 0)
  {
    assert (ts + [t])[..|ts|] == ts;
  }

  lemma SubsetSize<T>(a: set<T>, b: set<T>)
    requires a <= b
    ensures |a| <= |b|
  {
    assert b == a + (b - a);
  }
}
