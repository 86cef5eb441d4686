/** Redaction of a decoded JSON value: every string in it, object keys included. */
module JsonRedaction {
  import opened Redaction
  import J = Json

  function Walk(value: J.Json, values: seq<string>): J.Json
    requires [] !in values
    decreases value, 0
  {
    match value
    case Text(s) => J.Text(Redacted(s, values))
    case Array(items) => J.Array(seq(|items|, i requires 0 <= i < |items| => Walk(items[i], values)))
    case Object(members) => J.Object(WalkMembers(value, |members|, values))
    case _ => value
  }

  /** The first `n` members, rebuilt in order. Two keys that redact to one text share one place,
      and the later value wins. */
  function WalkMembers(value: J.Json, n: nat, values: seq<string>): seq<(string, J.Json)>
    requires [] !in values && value.Object? && n <= |value.members|
    decreases value, 0, n
  {
    if n == 0 then []
    else
      var m := value.members[n - 1];
      J.Put(WalkMembers(value, n - 1, values), Redacted(m.0, values), Walk(m.1, values))
  }

  /** No string of the value, key or leaf, contains any of the values. */
  ghost predicate Clean(value: J.Json, values: seq<string>) {
    match value
    case Text(s) => Free(s, values)
    case Array(items) => forall x :: x in items ==> Clean(x, values)
    case Object(members) => forall m :: m in members ==> Free(m.0, values) && Clean(m.1, values)
    case _ => true
  }

  /** The listed values that no marker can overlap. */
  ghost predicate AreClear(clears: seq<string>, values: seq<string>) {
    forall v :: v in clears ==> v in values && Clear(v)
  }

  lemma TextIsFreed(text: string, values: seq<string>, clears: seq<string>)
    requires [] !in values && AreClear(clears, values)
    ensures Free(Redacted(text, values), clears)
  {
    NoSecretSurvives(text, values);
  }

  /** No key and no string leaf holds any secret that cannot overlap the marker, whatever the others are. */
  lemma {:induction false} NoSecretInAnyString(value: J.Json, values: seq<string>, clears: seq<string>)
    requires [] !in values && AreClear(clears, values)
    ensures Clean(Walk(value, values), clears) && J.WellFormed(Walk(value, values))
    decreases value, 0
  {
    match value
    case Text(s) => TextIsFreed(s, values, clears);
    case Array(items) =>
      forall i | 0 <= i < |items|
        ensures Clean(Walk(items[i], values), clears) && J.WellFormed(Walk(items[i], values))
      {
        NoSecretInAnyString(items[i], values, clears);
      }
    case Object(members) => NoSecretInMembers(value, |members|, values, clears);
    case _ =>
  }

  lemma {:induction false} NoSecretInMembers(value: J.Json, n: nat, values: seq<string>, clears: seq<string>)
    requires [] !in values && AreClear(clears, values)
    requires value.Object? && n <= |value.members|
    ensures J.DistinctKeys(WalkMembers(value, n, values))
    ensures forall m :: m in WalkMembers(value, n, values) ==>
      Free(m.0, clears) && Clean(m.1, clears) && J.WellFormed(m.1)
    decreases value, 0, n
  {
    if n > 0 {
      NoSecretInMembers(value, n - 1, values, clears);
      var m := value.members[n - 1];
      TextIsFreed(m.0, values, clears);
      NoSecretInAnyString(m.1, values, clears);
      J.PutKeeps(WalkMembers(value, n - 1, values), Redacted(m.0, values), Walk(m.1, values));
    }
  }

  /** No value is lost or moved to another key: under each redacted key stands the redacted value
      of the last member whose key became it. */
  lemma {:induction false} LastMemberWins(value: J.Json, n: nat, i: nat, values: seq<string>)
    requires [] !in values && value.Object? && i < n <= |value.members|
    requires forall j :: i < j < n ==> Redacted(value.members[j].0, values) != Redacted(value.members[i].0, values)
    ensures (Redacted(value.members[i].0, values), Walk(value.members[i].1, values)) in WalkMembers(value, n, values)
    decreases n
  {
    var kept := (Redacted(value.members[i].0, values), Walk(value.members[i].1, values));
    if i < n - 1 {
      LastMemberWins(value, n - 1, i, values);
    }
    var m := value.members[n - 1];
    J.PutKeepsOthers(WalkMembers(value, n - 1, values), Redacted(m.0, values), Walk(m.1, values), kept);
  }

  /** `r` is `value` with each string redacted: arrays keep their length and order, an object has exactly the
      redacted keys, and under each the value of the last member whose key became it; the rest is as it was. */
  ghost predicate IsRedaction(value: J.Json, r: J.Json, values: seq<string>)
    requires [] !in values
    decreases value
  {
    match value
    case Text(s) => r == J.Text(Redacted(s, values))
    case Array(items) =>
      r.Array? && |r.items| == |items| && forall i :: 0 <= i < |items| ==> IsRedaction(items[i], r.items[i], values)
    case Object(members) =>
      && r.Object? && J.DistinctKeys(r.members)
      && (forall i :: 0 <= i < |members| ==> exists k :: 0 <= k < |r.members| && r.members[k].0 == Redacted(members[i].0, values))
      && forall k :: 0 <= k < |r.members| ==>
           exists i :: LastFor(members, |members|, i, r.members[k].0, values) && IsRedaction(members[i].1, r.members[k].1, values)
    case _ => r == value
  }

  /** Of the first `n` members, `i` is the last whose key becomes `key`. */
  ghost predicate LastFor(members: seq<(string, J.Json)>, n: nat, i: int, key: string, values: seq<string>)
    requires [] !in values && n <= |members|
  {
    && 0 <= i < n && Redacted(members[i].0, values) == key
    && forall j :: i < j < n ==> Redacted(members[j].0, values) != key
  }

  lemma {:induction false} WalkIsRedaction(value: J.Json, values: seq<string>)
    requires [] !in values
    ensures IsRedaction(value, Walk(value, values), values)
    decreases value, 2
  {
    match value
    case Array(items) =>
      forall i | 0 <= i < |items| ensures IsRedaction(items[i], Walk(items[i], values), values) {
        WalkIsRedaction(items[i], values);
      }
    case Object(members) =>
      MembersFrom(value, |members|, values);
      ObjectIsRedaction(value, WalkMembers(value, |members|, values), values);
    case _ =>
  }

  lemma ObjectIsRedaction(value: J.Json, r: seq<(string, J.Json)>, values: seq<string>)
    requires [] !in values && value.Object? && r == WalkMembers(value, |value.members|, values)
    requires J.DistinctKeys(r)
    requires forall i :: 0 <= i < |value.members| ==> exists k :: 0 <= k < |r| && r[k].0 == Redacted(value.members[i].0, values)
    ensures IsRedaction(value, J.Object(r), values)
    decreases value, 1
  {
    var members := value.members;
    forall k | 0 <= k < |r|
      ensures exists i :: LastFor(members, |members|, i, r[k].0, values) && IsRedaction(members[i].1, r[k].1, values)
    {
      var i := MemberIsRedaction(value, r, r[k], values);
    }
  }

  lemma MemberIsRedaction(value: J.Json, r: seq<(string, J.Json)>, m: (string, J.Json), values: seq<string>) returns (i: int)
    requires [] !in values && value.Object? && r == WalkMembers(value, |value.members|, values) && m in r
    ensures LastFor(value.members, |value.members|, i, m.0, values) && IsRedaction(value.members[i].1, m.1, values)
    decreases value, 0
  {
    i := SourceOf(value, |value.members|, values, m);
    WalkIsRedaction(value.members[i].1, values);
  }

  ghost predicate FromLast(value: J.Json, n: nat, values: seq<string>, m: (string, J.Json), i: int)
    requires [] !in values && value.Object? && n <= |value.members|
  {
    LastFor(value.members, n, i, m.0, values) && m.1 == Walk(value.members[i].1, values)
  }

  /** Every member of the result comes from the last that has its key. */
  lemma {:induction false} SourceOf(value: J.Json, n: nat, values: seq<string>, m: (string, J.Json)) returns (i: int)
    requires [] !in values && value.Object? && n <= |value.members| && m in WalkMembers(value, n, values)
    ensures FromLast(value, n, values, m, i)
    decreases n
  {
    var before, last := WalkMembers(value, n - 1, values), value.members[n - 1];
    var key, put := Redacted(last.0, values), Walk(last.1, values);
    NoSecretInMembers(value, n - 1, values, []);
    J.PutKeeps(before, key, put);
    if m == (key, put) {
      i := n - 1;
    } else {
      i := SourceOf(value, n - 1, values, m);
    }
  }

  /** No key is lost. */
  lemma {:induction false} MembersFrom(value: J.Json, n: nat, values: seq<string>)
    requires [] !in values && value.Object? && n <= |value.members|
    ensures J.DistinctKeys(WalkMembers(value, n, values))
    ensures forall i :: 0 <= i < n ==>
      exists k :: 0 <= k < |WalkMembers(value, n, values)| && WalkMembers(value, n, values)[k].0 == Redacted(value.members[i].0, values)
    decreases n
  {
    NoSecretInMembers(value, n, values, []);
    forall i | 0 <= i < n
      ensures exists k :: 0 <= k < |WalkMembers(value, n, values)| && WalkMembers(value, n, values)[k].0 == Redacted(value.members[i].0, values)
    {
      var j := LastWithKey(value, n, i, values);
      LastMemberWins(value, n, j, values);
    }
  }

  lemma {:induction false} LastWithKey(value: J.Json, n: nat, i: nat, values: seq<string>) returns (j: nat)
    requires [] !in values && value.Object? && i < n <= |value.members|
    ensures LastFor(value.members, n, j, Redacted(value.members[i].0, values), values)
    decreases n
  {
    if Redacted(value.members[n - 1].0, values) == Redacted(value.members[i].0, values) {
      j := n - 1;
    } else {
      j := LastWithKey(value, n - 1, i, values);
    }
  }

  /** Among the first `n` members, one whose key becomes `key` stands before all whose key becomes `other`. */
  ghost predicate Precedes(members: seq<(string, J.Json)>, n: nat, i: int, key: string, other: string, values: seq<string>)
    requires [] !in values && n <= |members|
  {
    && 0 <= i < n && Redacted(members[i].0, values) == key
    && forall j :: 0 <= j <= i ==> Redacted(members[j].0, values) != other
  }

  /** The redacted keys stand in the order in which they first came up. */
  lemma {:induction false} KeysStayInOrder(value: J.Json, n: nat, values: seq<string>, k: nat, l: nat) returns (i: int)
    requires [] !in values && value.Object? && n <= |value.members| && k < l < |WalkMembers(value, n, values)|
    ensures var r := WalkMembers(value, n, values); Precedes(value.members, n, i, r[k].0, r[l].0, values)
    decreases n
  {
    var before, last := WalkMembers(value, n - 1, values), value.members[n - 1];
    var key, put := Redacted(last.0, values), Walk(last.1, values);
    NoSecretInMembers(value, n - 1, values, []);
    J.PutKeepsPlaces(before, key, put);
    if l < |before| {
      i := KeysStayInOrder(value, n - 1, values, k, l);
    } else {
      assert before[k] in before;
      i := SourceOf(value, n - 1, values, before[k]);
      MembersFrom(value, n - 1, values);
    }
  }

  /** A value in which no secret occurs comes back exactly as it was. */
  lemma {:induction false} CleanValueIsUnchanged(value: J.Json, values: seq<string>)
    requires [] !in values && Clean(value, values) && J.WellFormed(value)
    ensures Walk(value, values) == value
    decreases value, 0
  {
    match value
    case Text(s) => FreeTextIsUnchanged(s, values);
    case Array(items) =>
      forall i | 0 <= i < |items| ensures Walk(items[i], values) == items[i] {
        CleanValueIsUnchanged(items[i], values);
      }
    case Object(members) => CleanMembersAreUnchanged(value, |members|, values);
    case _ =>
  }

  lemma {:induction false} CleanMembersAreUnchanged(value: J.Json, n: nat, values: seq<string>)
    requires [] !in values && Clean(value, values) && J.WellFormed(value)
    requires value.Object? && n <= |value.members|
    ensures WalkMembers(value, n, values) == value.members[..n]
    decreases value, 0, n
  {
    if n > 0 {
      CleanMembersAreUnchanged(value, n - 1, values);
      var m := value.members[n - 1];
      FreeTextIsUnchanged(m.0, values);
      CleanValueIsUnchanged(m.1, values);
      J.PutKeeps(value.members[..n - 1], m.0, m.1);
      assert value.members[..n] == value.members[..n - 1] + [(m.0, m.1)];
    }
  }

  lemma JsonRedactionIsIdempotent(value: J.Json, values: seq<string>)
    requires [] !in values && forall v :: v in values ==> Clear(v)
    ensures Walk(Walk(value, values), values) == Walk(value, values)
  {
    NoSecretInAnyString(value, values, values);
    CleanValueIsUnchanged(Walk(value, values), values);
  }

  /** `redact_json`: with nothing to redact the value is handed back as it is. */
  function RedactJson(value: J.Json, secrets: seq<string>): (r: J.Json)
  {
    var values := Redactable(secrets);
    if values == [] then value else Walk(value, values)
  }

  lemma FirstIsMember(values: seq<string>)
    ensures values != [] ==> values[0] in values
  {
  }

  lemma RedactJsonLeavesNoSecret(value: J.Json, secrets: seq<string>, clears: seq<string>)
    requires J.WellFormed(value) && AreClear(clears, Redactable(secrets))
    ensures Clean(RedactJson(value, secrets), clears) && J.WellFormed(RedactJson(value, secrets))
    ensures Clean(value, Redactable(secrets)) ==> RedactJson(value, secrets) == value
  {
    var values := Redactable(secrets);
    if values != [] {
      NoSecretInAnyString(value, values, clears);
      if Clean(value, values) {
        CleanValueIsUnchanged(value, values);
      }
    } else {
      FirstIsMember(clears);
      NothingToRedact(value);
    }
  }

  lemma {:induction false} NothingToRedact(value: J.Json)
    ensures Clean(value, [])
  {
    match value
    case Array(items) => forall x | x in items ensures Clean(x, []) { NothingToRedact(x); }
    case Object(members) => forall m | m in members ensures Clean(m.1, []) { NothingToRedact(m.1); }
    case _ =>
  }
}
