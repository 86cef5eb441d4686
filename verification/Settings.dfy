/** The parts of the configuration the engine consults: routes, available sinks, the detector. */
module Settings {
  import opened Tables

  /** One sink route of a source. `admits` is its filter, over event type and stored body. */
  datatype Route = Route(name: string, admits: (string, string) -> bool)

  datatype OnDetect = Annotate | Quarantine | Drop

  /** There is no Drop here: an outage of the detector must not discard events. */
  datatype OnError = AnnotateOnError | QuarantineOnError

  datatype Config = Config(routes: map<string, seq<Route>>, available: set<string>,
                           threshold: real, onDetect: OnDetect, onError: OnError)

  /** filtering.route, the admitted names: in route order. */
  function Routed(routes: seq<Route>, eventType: string, body: string): (sinks: seq<string>)
    ensures forall n :: n in sinks <==>
              exists i :: 0 <= i < |routes| && routes[i].name == n && routes[i].admits(eventType, body)
  {
    if routes == [] then []
    else
      var last := routes[|routes| - 1];
      var before := Routed(routes[..|routes| - 1], eventType, body);
      if last.admits(eventType, body) then before + [last.name] else before
  }

  /** Engine._sinks_for: where the stored event would go under the current configuration. */
  function SinksFor(c: Config, row: EventRow): seq<string> {
    if row.source in c.routes then Routed(c.routes[row.source], row.eventType, row.body) else []
  }

  /** The stored sinks that current routes still accept, in stored order. */
  function StillRouted(stored: seq<string>, current: seq<string>): (kept: seq<string>)
    ensures forall n :: n in kept <==> n in stored && n in current
  {
    if stored == [] then []
    else
      var last := stored[|stored| - 1];
      var before := StillRouted(stored[..|stored| - 1], current);
      if last in current then before + [last] else before
  }

  /** The admitted names are those of the admitting routes, each once per route and in route order: `at` says
      which route each name stands for. */
  lemma {:induction false} RoutedInOrder(routes: seq<Route>, eventType: string, body: string) returns (at: seq<nat>)
    ensures |at| == |Routed(routes, eventType, body)|
    ensures forall k :: 0 <= k < |at| ==> at[k] < |routes| && routes[at[k]].name == Routed(routes, eventType, body)[k]
    ensures forall k, l :: 0 <= k < l < |at| ==> at[k] < at[l]
    ensures forall i: nat {:trigger i in at} :: i in at <==> i < |routes| && routes[i].admits(eventType, body)
  {
    at := [];
    if routes != [] {
      var last := |routes| - 1;
      var init := routes[..last];
      at := RoutedInOrder(init, eventType, body);
      assert forall i :: 0 <= i < last ==> init[i] == routes[i];
      if routes[last].admits(eventType, body) { at := at + [last]; }
    }
  }

  /** The kept names are the stored ones that are still accepted, each as often as stored and in stored order. */
  lemma {:induction false} StillRoutedInOrder(stored: seq<string>, current: seq<string>) returns (at: seq<nat>)
    ensures |at| == |StillRouted(stored, current)|
    ensures forall k :: 0 <= k < |at| ==> at[k] < |stored| && stored[at[k]] == StillRouted(stored, current)[k]
    ensures forall k, l :: 0 <= k < l < |at| ==> at[k] < at[l]
    ensures forall i: nat {:trigger i in at} :: i in at <==> i < |stored| && stored[i] in current
  {
    at := [];
    if stored != [] {
      var last := |stored| - 1;
      var init := stored[..last];
      at := StillRoutedInOrder(init, current);
      assert forall i :: 0 <= i < last ==> init[i] == stored[i];
      if stored[last] in current { at := at + [last]; }
    }
  }

  // -- where an event goes, said of the routes themselves ---------------------------------------------

  ghost predicate Increasing(at: seq<nat>) {
    forall k, l :: 0 <= k < l < |at| ==> at[k] < at[l]
  }

  /** `at` are the positions of the routes that admit the event. */
  ghost predicate AdmittedAt(routes: seq<Route>, eventType: string, body: string, at: seq<nat>) {
    Increasing(at) && forall i: nat {:trigger i in at} :: i in at <==> i < |routes| && routes[i].admits(eventType, body)
  }

  ghost predicate NamesOf(routes: seq<Route>, at: seq<nat>, sinks: seq<string>) {
    |sinks| == |at| && forall k :: 0 <= k < |at| ==> at[k] < |routes| && routes[at[k]].name == sinks[k]
  }

  /** `sinks` are the names of exactly the routes of the event's source that admit its stored type and body,
      in route order; a source that is not configured has none. */
  ghost predicate IsRouting(c: Config, row: EventRow, sinks: seq<string>) {
    if row.source in c.routes then
      exists at :: AdmittedAt(c.routes[row.source], row.eventType, row.body, at) && NamesOf(c.routes[row.source], at, sinks)
    else sinks == []
  }

  /** A route of the event's source still takes it to this sink. */
  ghost predicate StillAdmitted(c: Config, row: EventRow, sink: string) {
    && row.source in c.routes
    && exists i :: 0 <= i < |c.routes[row.source]| && c.routes[row.source][i].name == sink
                   && c.routes[row.source][i].admits(row.eventType, row.body)
  }

  ghost predicate KeptAt(c: Config, row: EventRow, stored: seq<string>, at: seq<nat>) {
    Increasing(at) && forall i: nat {:trigger i in at} :: i in at <==> i < |stored| && StillAdmitted(c, row, stored[i])
  }

  /** `kept` are exactly the stored sinks to which a route still takes the event, in stored order. */
  ghost predicate IsKept(c: Config, row: EventRow, stored: seq<string>, kept: seq<string>) {
    exists at :: KeptAt(c, row, stored, at) && |kept| == |at|
                 && forall k :: 0 <= k < |at| ==> at[k] < |stored| && kept[k] == stored[at[k]]
  }

  lemma SinksForIsRouting(c: Config, row: EventRow)
    ensures IsRouting(c, row, SinksFor(c, row))
  {
    if row.source in c.routes {
      var at := RoutedInOrder(c.routes[row.source], row.eventType, row.body);
      assert AdmittedAt(c.routes[row.source], row.eventType, row.body, at);
    }
  }

  lemma StillRoutedIsKept(c: Config, row: EventRow, stored: seq<string>)
    ensures IsKept(c, row, stored, StillRouted(stored, SinksFor(c, row)))
  {
    var at := StillRoutedInOrder(stored, SinksFor(c, row));
    forall i: nat ensures i in at <==> i < |stored| && StillAdmitted(c, row, stored[i]) {}
    assert KeptAt(c, row, stored, at);
  }

  lemma FirstIsIn(a: seq<nat>)
    ensures a != [] ==> a[0] in a
  {
  }

  lemma {:induction false} IncreasingIsUnique(a: seq<nat>, b: seq<nat>)
    requires Increasing(a) && Increasing(b) && forall i: nat :: i in a <==> i in b
    ensures a == b
    decreases |a|
  {
    FirstIsIn(a);
    FirstIsIn(b);
    if a != [] {
      var m, n := |a| - 1, |b| - 1;
      assert a[m] in b && b[n] in a;
      assert a[m] == b[n];
      assert a == a[..m] + [a[m]] && b == b[..n] + [b[n]];
      forall i: nat ensures i in a[..m] <==> i in b[..n] {
        assert i in a[..m] <==> i in a && i != a[m];
        assert i in b[..n] <==> i in b && i != b[n];
      }
      IncreasingIsUnique(a[..m], b[..n]);
    }
  }

  /** The routes leave no choice. */
  lemma RoutingIsUnique(c: Config, row: EventRow, one: seq<string>, other: seq<string>)
    requires IsRouting(c, row, one) && IsRouting(c, row, other)
    ensures one == other
  {
    if row.source in c.routes {
      var routes := c.routes[row.source];
      var a :| AdmittedAt(routes, row.eventType, row.body, a) && NamesOf(routes, a, one);
      var b :| AdmittedAt(routes, row.eventType, row.body, b) && NamesOf(routes, b, other);
      IncreasingIsUnique(a, b);
    }
  }

  lemma KeptIsUnique(c: Config, row: EventRow, stored: seq<string>, one: seq<string>, other: seq<string>)
    requires IsKept(c, row, stored, one) && IsKept(c, row, stored, other)
    ensures one == other
  {
    var a :| KeptAt(c, row, stored, a) && |one| == |a| && forall k :: 0 <= k < |a| ==> a[k] < |stored| && one[k] == stored[a[k]];
    var b :| KeptAt(c, row, stored, b) && |other| == |b| && forall k :: 0 <= k < |b| ==> b[k] < |stored| && other[k] == stored[b[k]];
    IncreasingIsUnique(a, b);
  }

  /** What happened when an event's untrusted text met the detector. */
  datatype Screening = Skipped | Scored(score: real) | Unavailable

  /** The status a verdict leads to. */
  function StatusAfter(c: Config, screening: Screening): (status: EventStatus)
    ensures status == Received || status == Quarantined || status == Dropped
    ensures status == Dropped <==> screening.Scored? && screening.score >= c.threshold && c.onDetect == Drop
    ensures status == Quarantined <==>
      || (screening.Scored? && screening.score >= c.threshold && c.onDetect == Quarantine)
      || (screening.Unavailable? && c.onError == QuarantineOnError)
  {
    match screening
    case Skipped => Received
    case Scored(score) =>
      if score >= c.threshold then
        match c.onDetect
        case Annotate => Received
        case Quarantine => Quarantined
        case Drop => Dropped
      else Received
    case Unavailable => if c.onError == QuarantineOnError then Quarantined else Received
  }
}
