/**
 * The latency histogram over a run: which steps of the machine record an observation, and that the `+Inf`
 * count of the registry is one of the three totals that agree.
 */
module Observing {
  import opened Tables
  import opened Retry
  import opened Protocol
  import opened Invariant
  import opened Safety
  import opened Accounting
  import opened Labels
  import opened Metrics

  const LATENCY := "webhook_doorman_delivery_latency_seconds"

  function SinkKey(sink: string): Labels {
    Key([("sink", sink)])
  }

  /** The steps at which the engine records a latency: a failed answer of the sink, and the end of
      mark_delivered. */
  predicate Observes(p: Policy, s: State, a: Action) {
    && a.RunHandler? && a.d in s.handlers
    && var h := s.handlers[a.d];
       if h.pc == Send then a.answer.Refuses? || a.answer.Busy?
       else !UpdatesRow(s.db, a.d, h) && SettlingDelivered(h)
            && HandlerStep(p, s.config, s.db, a.d, h, a.now, a.answer, a.draw).1.pc == Done
  }

  /** The histories the registry is given between a start and state j, with the latencies measured. */
  ghost function Recorded(p: Policy, r: Run, start: nat, j: nat, latency: nat -> real): Family<seq<real>>
    requires start < j <= |r.actions| && |r.states| == |r.actions| + 1
  {
    if j == start + 1 then map[]
    else
      var before := Recorded(p, r, start, j - 1, latency);
      var s, a := r.states[j - 1], r.actions[j - 1];
      if Observes(p, s, a) then Append(before, LATENCY, SinkKey(s.handlers[a.d].sink), latency(j - 1)) else before
  }

  lemma BumpCounts(m: multiset<Counter>, who: string, series: Series, sink: string)
    ensures Bump(m, who, series)[Counter(sink, Observations)] ==
      m[Counter(sink, Observations)] + if who == sink && series == Observations then 1 else 0
  {
  }

  lemma CounterMoves(p: Policy, s: State, a: Action, sink: string)
    requires Enabled(p, s, a) && !a.Start?
    ensures Apply(p, s, a).counters[Counter(sink, Observations)] == s.counters[Counter(sink, Observations)]
      + if Observes(p, s, a) && s.handlers[a.d].sink == sink then 1 else 0
  {
    if a.RunHandler? {
      var h := s.handlers[a.d];
      forall m, series ensures Bump(m, h.sink, series)[Counter(sink, Observations)] ==
        m[Counter(sink, Observations)] + if h.sink == sink && series == Observations then 1 else 0
      {
        BumpCounts(m, h.sink, series, sink);
      }
    }
  }

  lemma KeyOfOne(item: (string, string))
    ensures Key([item]) == [item]
  {
    assert [item][1..] == [];
  }

  lemma KeysDiffer(a: string, b: string)
    ensures SinkKey(a) == SinkKey(b) <==> a == b
  {
    KeyOfOne(("sink", a));
    KeyOfOne(("sink", b));
    assert SinkKey(a)[0].1 == a && SinkKey(b)[0].1 == b;
  }

  ghost predicate NoStartBetween(r: Run, start: nat, j: nat) {
    && |r.states| == |r.actions| + 1 && start < j <= |r.actions|
    && forall k :: start < k < j ==> !r.actions[k].Start?
  }

  /** The registry is given as many latencies of a sink as the counter says. */
  lemma {:induction false} HistoryIsCounted(p: Policy, r: Run, start: nat, j: nat, latency: nat -> real, sink: string)
    requires IsRun(p, r) && NoStartBetween(r, start, j) && r.actions[start].Start?
    ensures |Lookup(Recorded(p, r, start, j, latency), LATENCY, SinkKey(sink), [])|
         == r.states[j].counters[Counter(sink, Observations)]
  {
    ActionAt(p, r, j - 1);
    if j > start + 1 {
      HistoryIsCounted(p, r, start, j - 1, latency, sink);
      var s, a := r.states[j - 1], r.actions[j - 1];
      CounterMoves(p, s, a, sink);
      if Observes(p, s, a) {
        var before, key := Recorded(p, r, start, j - 1, latency), SinkKey(s.handlers[a.d].sink);
        KeysDiffer(s.handlers[a.d].sink, sink);
        StoreThenLookup(before, LATENCY, key, Lookup(before, LATENCY, key, []) + [latency(j - 1)], LATENCY, SinkKey(sink), []);
      }
    }
  }

  /** Between batches of a smooth lifetime the `+Inf` count of a sink's latency histogram is the sum of its
      delivery_attempts_total over outcomes and the number of increments of its attempt column. */
  lemma HistogramAgrees(p: Policy, r: Run, start: nat, j: nat, latency: nat -> real, sink: string,
                        histograms: Family<seq<nat>>)
    requires PolicyOk(p) && IsRunFromStart(p, r) && start < j <= |r.actions| && r.actions[start].Start?
    requires SmoothBetween(r, start, j) && r.states[j].handlers == map[]
    requires AreTallies(histograms, Recorded(p, r, start, j, latency))
    ensures var m, counts := r.states[j].counters, Lookup(histograms, LATENCY, SinkKey(sink), ZEROS);
      |counts| == |LATENCY_BUCKETS| + 1
      && counts[|LATENCY_BUCKETS|] == Outcomes(m, sink) == m[Counter(sink, Increments)]
  {
    AttemptAccountingAgrees(p, r, start, j, sink);
    HistoryIsCounted(p, r, start, j, latency, sink);
    assert Tallies(Lookup(histograms, LATENCY, SinkKey(sink), ZEROS),
                   Lookup(Recorded(p, r, start, j, latency), LATENCY, SinkKey(sink), []));
  }
}
