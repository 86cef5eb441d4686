/** A decoded JSON value. An object is its members in insertion order, as a Python `dict` keeps them. */
module Json {

  datatype Json =
    | Null
    | Bool(b: bool)
    | Number(n: real)
    | Text(text: string)
    | Array(items: seq<Json>)
    | Object(members: seq<(string, Json)>)

  ghost predicate DistinctKeys(members: seq<(string, Json)>) {
    forall i, j :: 0 <= i < j < |members| ==> members[i].0 != members[j].0
  }

  /** Every object in the value has distinct keys, which a `dict` cannot fail to have. */
  ghost predicate WellFormed(value: Json) {
    match value
    case Array(items) => forall x :: x in items ==> WellFormed(x)
    case Object(members) => DistinctKeys(members) && forall m :: m in members ==> WellFormed(m.1)
    case _ => true
  }

  /** `d[key] = value`: an existing key keeps its place and takes the new value. */
  function Put(members: seq<(string, Json)>, key: string, value: Json): seq<(string, Json)> {
    if members == [] then [(key, value)]
    else if members[0].0 == key then [(key, value)] + members[1..]
    else [members[0]] + Put(members[1..], key, value)
  }

  /** A key that is there keeps its place and takes the value, and nothing else moves; a new one goes to the end. */
  lemma {:induction false} PutKeepsPlaces(members: seq<(string, Json)>, key: string, value: Json)
    requires DistinctKeys(members)
    ensures var r := Put(members, key, value);
      if exists i :: 0 <= i < |members| && members[i].0 == key then
        |r| == |members| && forall i :: 0 <= i < |members| ==> r[i] == if members[i].0 == key then (key, value) else members[i]
      else r == members + [(key, value)]
  {
    if members != [] && members[0].0 != key {
      var rest := members[1..];
      assert forall i :: 0 <= i < |rest| ==> rest[i] == members[i + 1];
      PutKeepsPlaces(rest, key, value);
      if i :| 0 <= i < |members| && members[i].0 == key { assert rest[i - 1].0 == key; }
    }
  }

  lemma PutKeeps(members: seq<(string, Json)>, key: string, value: Json)
    requires DistinctKeys(members)
    ensures DistinctKeys(Put(members, key, value))
    ensures forall m :: m in Put(members, key, value) ==> m == (key, value) || (m in members && m.0 != key)
    ensures (key, value) in Put(members, key, value)
    ensures (forall m :: m in members ==> m.0 != key) ==> Put(members, key, value) == members + [(key, value)]
  {
    PutKeepsPlaces(members, key, value);
    PlacesKept(members, Put(members, key, value), key, value);
  }

  lemma PlacesKept(members: seq<(string, Json)>, r: seq<(string, Json)>, key: string, value: Json)
    requires DistinctKeys(members)
    requires if exists i :: 0 <= i < |members| && members[i].0 == key then
        |r| == |members| && forall i :: 0 <= i < |members| ==> r[i] == if members[i].0 == key then (key, value) else members[i]
      else r == members + [(key, value)]
    ensures DistinctKeys(r) && (key, value) in r
    ensures forall m :: m in r ==> m == (key, value) || (m in members && m.0 != key)
    ensures (forall m :: m in members ==> m.0 != key) ==> r == members + [(key, value)]
  {
    if i :| 0 <= i < |members| && members[i].0 == key {
      assert r[i] == (key, value) && members[i] in members;
    } else {
      assert r[|members|] == (key, value);
    }
  }

  lemma {:induction false} PutKeepsOthers(members: seq<(string, Json)>, key: string, value: Json, m: (string, Json))
    requires m == (key, value) || (m in members && m.0 != key)
    ensures m in Put(members, key, value)
  {
    if members != [] && members[0].0 != key {
      assert members == [members[0]] + members[1..];
      if m != members[0] { PutKeepsOthers(members[1..], key, value, m); }
    } else if members != [] {
      assert members == [members[0]] + members[1..];
    }
  }
}
