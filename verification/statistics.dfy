/** The running statistics over per-frame localisation times (a boost
    accumulator set with mean, min, max and sum, fed one sample per attempted
    frame). Durations are whole milliseconds. */
module Statistics {

  /** The accumulator: nothing before the first sample, afterwards the count,
      the running sum and the extremes seen so far. */
  datatype Accumulator =
    | NoSamples
    | Summary(count: nat, sum: nat, min: nat, max: nat)

  function SampleCount(acc: Accumulator): (n: nat) {
    if acc.NoSamples? then 0 else acc.count
  }

  /** Feeds one sample into the accumulator (`stats(elapsed)`). */
  function Add(acc: Accumulator, d: nat): (r: Accumulator)
    ensures r.Summary? && SampleCount(r) == SampleCount(acc) + 1
  {
    match acc
    case NoSamples => Summary(1, d, d, d)
    case Summary(c, s, lo, hi) =>
      Summary(c + 1, s + d, if d < lo then d else lo, if d > hi then d else hi)
  }

  /** Feeds a whole sequence of samples, first to last. */
  function AddAll(acc: Accumulator, ds: seq<nat>): (r: Accumulator)
    ensures SampleCount(r) == SampleCount(acc) + |ds|
    decreases |ds|
  {
    if ds == [] then acc else AddAll(Add(acc, ds[0]), ds[1..])
  }

  /** The accumulator after a run whose frames took `ds`. */
  function Summarize(ds: seq<nat>): (acc: Accumulator) {
    AddAll(NoSamples, ds)
  }

  /** Reference definition of the total, independent of the accumulator. */
  function Sum(ds: seq<nat>): (total: nat) {
    if ds == [] then 0 else Sum(ds[..|ds| - 1]) + ds[|ds| - 1]
  }

  /** The mean the report prints; defined once a sample is in. */
  function Mean(acc: Accumulator): (m: real)
    requires acc.Summary?
  {
    if acc.count == 0 then 0.0 else acc.sum as real / acc.count as real
  }

  /** `acc` is the summary of exactly the samples `ds`. */
  ghost predicate Describes(acc: Accumulator, ds: seq<nat>) {
    && (acc.NoSamples? <==> ds == [])
    && (acc.Summary? ==>
          && acc.count == |ds|
          && acc.sum == Sum(ds)
          && acc.min in ds && acc.max in ds
          && (forall i :: 0 <= i < |ds| ==> acc.min <= ds[i] <= acc.max))
  }

  lemma AddDescribes(acc: Accumulator, ds: seq<nat>, d: nat)
    requires Describes(acc, ds)
    ensures Describes(Add(acc, d), ds + [d])
  {
    var e := ds + [d];
    assert e[..|e| - 1] == ds;
    assert forall i :: 0 <= i < |ds| ==> e[i] == ds[i];
    if acc.Summary? {
      assert acc.min in e && acc.max in e;
    }
  }

  lemma {:induction false} AddAllDescribes(acc: Accumulator, ds: seq<nat>, more: seq<nat>)
    requires Describes(acc, ds)
    ensures Describes(AddAll(acc, more), ds + more)
    decreases |more|
  {
    if more != [] {
      AddDescribes(acc, ds, more[0]);
      assert ds + [more[0]] + more[1..] == ds + more;
      AddAllDescribes(Add(acc, more[0]), ds + [more[0]], more[1..]);
    } else {
      assert ds + more == ds;
    }
  }

  /** The accumulator agrees with the reference definitions: it counts every
      sample, its sum is the total, and its min and max are the extremes. */
  lemma SummarizeDescribes(ds: seq<nat>)
    ensures Describes(Summarize(ds), ds)
  {
    assert [] + ds == ds;
    AddAllDescribes(NoSamples, [], ds);
  }

  /** Feeding two stretches of samples one after the other is the same as
      feeding them together. */
  lemma {:induction false} AddAllAppend(acc: Accumulator, xs: seq<nat>, ys: seq<nat>)
    ensures AddAll(acc, xs + ys) == AddAll(AddAll(acc, xs), ys)
    decreases |xs|
  {
    if xs != [] {
      assert (xs + ys)[0] == xs[0];
      assert (xs + ys)[1..] == xs[1..] + ys;
      AddAllAppend(Add(acc, xs[0]), xs[1..], ys);
    } else {
      assert xs + ys == ys;
    }
  }
}
