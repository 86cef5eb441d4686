/** The in-process counters and latency histograms, and what their numbers say about the observations made. */
module Metrics {
  import opened Labels

  const LATENCY_BUCKETS: seq<real> := [0.05, 0.1, 0.25, 0.5, 1.0, 2.5, 5.0, 10.0]

  const ZEROS: seq<nat> := [0, 0, 0, 0, 0, 0, 0, 0, 0]

  // -- What the numbers mean ----------------------------------------------------------------------

  function AtMost(observations: seq<real>, bound: real): nat {
    if observations == [] then 0
    else
      var last := observations[|observations| - 1];
      AtMost(observations[..|observations| - 1], bound) + (if last <= bound then 1 else 0)
  }

  function Sum(amounts: seq<real>): real {
    if amounts == [] then 0.0 else Sum(amounts[..|amounts| - 1]) + amounts[|amounts| - 1]
  }

  /** `counts` are the bucket counts of `observations`, with the `+Inf` count at the end. */
  ghost predicate Tallies(counts: seq<nat>, observations: seq<real>) {
    && |counts| == |LATENCY_BUCKETS| + 1
    && (forall i :: 0 <= i < |LATENCY_BUCKETS| ==> counts[i] == AtMost(observations, LATENCY_BUCKETS[i]))
    && counts[|LATENCY_BUCKETS|] == |observations|
  }

  lemma {:induction false} AtMostIsMonotone(observations: seq<real>, low: real, high: real)
    requires low <= high
    ensures AtMost(observations, low) <= AtMost(observations, high) <= |observations|
  {
    if observations != [] {
      AtMostIsMonotone(observations[..|observations| - 1], low, high);
    }
  }

  /** The counts are those of the observations up to 50 ms, 100 ms, 250 ms, 500 ms, 1 s, 2.5 s, 5 s and 10 s,
      and of all of them. */
  lemma BucketsCount(counts: seq<nat>, observations: seq<real>)
    requires Tallies(counts, observations)
    ensures counts == [AtMost(observations, 0.05), AtMost(observations, 0.1), AtMost(observations, 0.25),
                       AtMost(observations, 0.5), AtMost(observations, 1.0), AtMost(observations, 2.5),
                       AtMost(observations, 5.0), AtMost(observations, 10.0), |observations|]
  {
  }

  /** Bucket counts are cumulative and end in the number of observations. */
  lemma BucketsAreCumulative(counts: seq<nat>, observations: seq<real>, i: nat, j: nat)
    requires Tallies(counts, observations) && i <= j < |counts|
    ensures counts[i] <= counts[j] <= counts[|LATENCY_BUCKETS|] == |observations|
  {
    if i < |LATENCY_BUCKETS| {
      AtMostIsMonotone(observations, LATENCY_BUCKETS[i], if j < |LATENCY_BUCKETS| then LATENCY_BUCKETS[j] else LATENCY_BUCKETS[i]);
      if j < |LATENCY_BUCKETS| {
        AtMostIsMonotone(observations, LATENCY_BUCKETS[j], LATENCY_BUCKETS[j]);
      }
    }
  }

  /** How many observations fell between two neighbouring bounds is the difference of their counts. */
  function Between(observations: seq<real>, low: real, high: real): nat {
    if observations == [] then 0
    else
      var last := observations[|observations| - 1];
      Between(observations[..|observations| - 1], low, high) + (if low < last <= high then 1 else 0)
  }

  lemma {:induction false} DifferenceIsTheBand(observations: seq<real>, low: real, high: real)
    requires low <= high
    ensures AtMost(observations, high) - AtMost(observations, low) == Between(observations, low, high)
  {
    if observations != [] {
      DifferenceIsTheBand(observations[..|observations| - 1], low, high);
    }
  }

  // -- The registry -------------------------------------------------------------------------------

  type Family<T> = map<string, map<Labels, T>>

  ghost function Lookup<T>(family: Family<T>, name: string, key: Labels, absent: T): T {
    if name in family && key in family[name] then family[name][key] else absent
  }

  function Store<T>(family: Family<T>, name: string, key: Labels, value: T): Family<T> {
    family[name := (if name in family then family[name] else map[])[key := value]]
  }

  /** A history with one more entry. */
  ghost function Append(history: Family<seq<real>>, name: string, key: Labels, amount: real): Family<seq<real>> {
    Store(history, name, key, Lookup(history, name, key, []) + [amount])
  }

  ghost predicate AreSums(family: Family<real>, history: Family<seq<real>>) {
    forall name, key :: Lookup(family, name, key, 0.0) == Sum(Lookup(history, name, key, []))
  }

  ghost predicate AreTallies(family: Family<seq<nat>>, history: Family<seq<real>>) {
    forall name, key :: Tallies(Lookup(family, name, key, ZEROS), Lookup(history, name, key, []))
  }

  lemma StoreThenLookup<T>(family: Family<T>, name: string, key: Labels, value: T, n: string, k: Labels, absent: T)
    ensures Lookup(Store(family, name, key, value), n, k, absent)
         == if n == name && k == key then value else Lookup(family, n, k, absent)
  {}

  lemma SumsAppend(family: Family<real>, history: Family<seq<real>>, name: string, key: Labels, amount: real)
    requires AreSums(family, history)
    ensures AreSums(Store(family, name, key, Lookup(family, name, key, 0.0) + amount),
                    Append(history, name, key, amount))
  {
    var before := Lookup(history, name, key, []);
    assert (before + [amount])[..|before|] == before;
    forall n, k
      ensures Lookup(Store(family, name, key, Lookup(family, name, key, 0.0) + amount), n, k, 0.0)
           == Sum(Lookup(Append(history, name, key, amount), n, k, []))
    {
      StoreThenLookup(family, name, key, Lookup(family, name, key, 0.0) + amount, n, k, 0.0);
      StoreThenLookup(history, name, key, before + [amount], n, k, []);
    }
  }

  lemma TalliesAppend(family: Family<seq<nat>>, history: Family<seq<real>>,
                      name: string, key: Labels, counts: seq<nat>, seconds: real)
    requires AreTallies(family, history)
    requires Counted(Lookup(family, name, key, ZEROS), counts, seconds)
    ensures AreTallies(Store(family, name, key, counts), Append(history, name, key, seconds))
  {
    var before := Lookup(history, name, key, []);
    assert (before + [seconds])[..|before|] == before;
    assert Tallies(counts, before + [seconds]);
    forall n, k
      ensures Tallies(Lookup(Store(family, name, key, counts), n, k, ZEROS),
                      Lookup(Append(history, name, key, seconds), n, k, []))
    {
      StoreThenLookup(family, name, key, counts, n, k, ZEROS);
      StoreThenLookup(history, name, key, before + [seconds], n, k, []);
    }
  }

  /** One observation more: every bucket it fits in, and the `+Inf` bucket, count one more. */
  ghost predicate Counted(before: seq<nat>, after: seq<nat>, seconds: real) {
    && |before| == |after| == |LATENCY_BUCKETS| + 1
    && after[|LATENCY_BUCKETS|] == before[|LATENCY_BUCKETS|] + 1
    && forall i :: 0 <= i < |LATENCY_BUCKETS| ==>
         after[i] == before[i] + (if seconds <= LATENCY_BUCKETS[i] then 1 else 0)
  }

  lemma TallyLength(family: Family<seq<nat>>, history: Family<seq<real>>, name: string, key: Labels)
    requires AreTallies(family, history)
    ensures |Lookup(family, name, key, ZEROS)| == |LATENCY_BUCKETS| + 1
  {
    assert Tallies(Lookup(family, name, key, ZEROS), Lookup(history, name, key, []));
  }

  method CountOne(before: seq<nat>, seconds: real) returns (counts: seq<nat>)
    requires |before| == |LATENCY_BUCKETS| + 1
    ensures Counted(before, counts, seconds)
  {
    counts := before;
    for index := 0 to |LATENCY_BUCKETS|
      invariant |counts| == |before| && counts[|LATENCY_BUCKETS|] == before[|LATENCY_BUCKETS|]
      invariant forall i :: 0 <= i < index ==>
        counts[i] == before[i] + (if seconds <= LATENCY_BUCKETS[i] then 1 else 0)
      invariant forall i :: index <= i < |LATENCY_BUCKETS| ==> counts[i] == before[i]
    {
      if seconds <= LATENCY_BUCKETS[index] {
        counts := counts[index := counts[index] + 1];
      }
    }
    counts := counts[|LATENCY_BUCKETS| := counts[|LATENCY_BUCKETS|] + 1];
  }

  method AddOne(family: Family<real>, ghost history: Family<seq<real>>, name: string, key: Labels, amount: real)
    returns (r: Family<real>)
    requires AreSums(family, history)
    ensures AreSums(r, Append(history, name, key, amount))
  {
    SumsAppend(family, history, name, key, amount);
    var series := if name in family then family[name] else map[];
    var before := if key in series then series[key] else 0.0;
    r := family[name := series[key := before + amount]];
  }

  method TallyOne(family: Family<seq<nat>>, ghost history: Family<seq<real>>, name: string, key: Labels, seconds: real)
    returns (r: Family<seq<nat>>)
    requires AreTallies(family, history)
    ensures AreTallies(r, Append(history, name, key, seconds))
  {
    TallyLength(family, history, name, key);
    var before := if name in family && key in family[name] then family[name][key] else ZEROS;
    var counts := CountOne(before, seconds);
    TalliesAppend(family, history, name, key, counts, seconds);
    r := Store(family, name, key, counts);
  }

  class Registry {
    var counters: Family<real>
    var histograms: Family<seq<nat>>
    var sums: Family<real>

    // Everything recorded so far, oldest first.
    ghost var amounts: Family<seq<real>>
    ghost var observed: Family<seq<real>>

    // Every number is the one its history calls for.
    ghost predicate Valid()
      reads this
    {
      AreSums(counters, amounts) && AreSums(sums, observed) && AreTallies(histograms, observed)
    }

    constructor ()
      ensures Valid() && amounts == map[] && observed == map[]
    {
      counters, histograms, sums, amounts, observed := map[], map[], map[], map[], map[];
    }

    method Increment(name: string, amount: real, labels: Labels)
      requires Valid()
      modifies this`counters, this`amounts
      ensures Valid()
      ensures amounts == Append(old(amounts), name, Key(labels), amount)
    {
      var key := Key(labels);
      counters := AddOne(counters, amounts, name, key, amount);
      amounts := Append(amounts, name, key, amount);
    }

    method Observe(name: string, seconds: real, labels: Labels)
      requires Valid()
      modifies this`histograms, this`sums, this`observed
      ensures Valid()
      ensures observed == Append(old(observed), name, Key(labels), seconds)
    {
      var key := Key(labels);
      sums := AddOne(sums, observed, name, key, seconds);
      histograms := TallyOne(histograms, observed, name, key, seconds);
      observed := Append(observed, name, key, seconds);
    }
  }
}
