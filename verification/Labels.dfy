/** Label sets of the Prometheus text exposition format, version 0.0.4: canonical keys, rendering, and reading back. */
module Labels {
  import opened Basics
  import opened Text
  import opened Escaping

  type Labels = seq<(string, string)>

  // -- Canonical order ----------------------------------------------------------------------------

  /** Lexicographic order by code point. */
  predicate Less(a: string, b: string) {
    b != [] && (a == [] || a[0] < b[0] || (a[0] == b[0] && Less(a[1..], b[1..])))
  }

  /** The texts agree up to `n`, where `a` ends or has the lesser character. */
  ghost predicate LesserAt(a: string, b: string, n: nat) {
    n <= |a| && n < |b| && a[..n] == b[..n] && (n < |a| ==> a[n] < b[n])
  }

  lemma FirstAgrees(a: string, b: string, n: nat)
    ensures n > 0 && LesserAt(a, b, n) ==> a != [] && b != [] && a[0] == b[0]
  {
    if 0 < n <= |a| && n <= |b| { assert a[..n][0] == a[0] && b[..n][0] == b[0]; }
  }

  lemma LesserLater(a: string, b: string, n: nat)
    requires a != [] && b != [] && a[0] == b[0]
    ensures LesserAt(a, b, n + 1) <==> LesserAt(a[1..], b[1..], n)
  {
    if n + 1 <= |a| && n + 1 <= |b| {
      assert a[..n + 1] == [a[0]] + a[1..][..n] && b[..n + 1] == [b[0]] + b[1..][..n];
    }
  }

  /** The first difference decides, and a proper prefix comes first. */
  lemma {:induction false} LessExactlyWhen(a: string, b: string)
    ensures Less(a, b) <==> exists n: nat :: LesserAt(a, b, n)
  {
    if a == [] || b == [] || a[0] != b[0] {
      assert Less(a, b) ==> LesserAt(a, b, 0);
      forall n: nat ensures LesserAt(a, b, n) ==> n == 0 { FirstAgrees(a, b, n); }
    } else {
      LessExactlyWhen(a[1..], b[1..]);
      if n: nat :| LesserAt(a[1..], b[1..], n) { LesserLater(a, b, n); }
      if n: nat :| LesserAt(a, b, n) {
        assert n > 0;
        LesserLater(a, b, n - 1);
      }
    }
  }

  lemma {:induction false} LessIsTotal(a: string, b: string)
    ensures Less(a, b) || a == b || Less(b, a)
    ensures !(Less(a, b) && Less(b, a)) && !Less(a, a)
  {
    if a != [] {
      LessIsTotal(a[1..], a[1..]);
      if b != [] {
        LessIsTotal(a[1..], b[1..]);
        assert a == [a[0]] + a[1..] && b == [b[0]] + b[1..];
      }
    }
  }

  lemma {:induction false} LessIsTransitive(a: string, b: string, c: string)
    requires Less(a, b) && Less(b, c)
    ensures Less(a, c)
  {
    if a != [] && a[0] == b[0] == c[0] {
      LessIsTransitive(a[1..], b[1..], c[1..]);
    }
  }

  ghost predicate Sorted(labels: Labels) {
    forall i, j :: 0 <= i < j < |labels| ==> Less(labels[i].0, labels[j].0)
  }

  ghost predicate DistinctNames(labels: Labels) {
    forall i, j :: 0 <= i < j < |labels| ==> labels[i].0 != labels[j].0
  }

  function Insert(item: (string, string), key: Labels): Labels {
    if key == [] || Less(item.0, key[0].0) then [item] + key
    else [key[0]] + Insert(item, key[1..])
  }

  /** The items of a label mapping, sorted by name. */
  function Key(labels: Labels): Labels {
    if labels == [] then [] else Insert(labels[0], Key(labels[1..]))
  }

  lemma {:induction false} InsertKeeps(item: (string, string), key: Labels)
    requires Sorted(key) && forall l :: l in key ==> l.0 != item.0
    ensures Sorted(Insert(item, key))
    ensures forall l :: l in Insert(item, key) <==> l == item || l in key
  {
    if key != [] {
      LessIsTotal(item.0, key[0].0);
      if Less(item.0, key[0].0) {
        forall l | l in key[1..] ensures Less(item.0, l.0) {
          LessIsTransitive(item.0, key[0].0, l.0);
        }
      } else {
        var rest := key[1..];
        assert key == [key[0]] + rest;
        InsertKeeps(item, rest);
        forall l | l in Insert(item, rest) ensures Less(key[0].0, l.0) {
          if l != item {
            var j :| 0 <= j < |rest| && rest[j] == l;
            assert Less(key[0].0, key[j + 1].0);
          }
        }
      }
    }
  }

  lemma {:induction false} KeyIsSorted(labels: Labels)
    requires DistinctNames(labels)
    ensures Sorted(Key(labels))
    ensures forall l :: l in Key(labels) <==> l in labels
  {
    if labels != [] {
      assert labels == [labels[0]] + labels[1..];
      KeyIsSorted(labels[1..]);
      InsertKeeps(labels[0], Key(labels[1..]));
    }
  }

  lemma HasMember(a: Labels)
    ensures a != [] ==> a[0] in a
    ensures a != [] ==> exists l :: l in a
  {
  }

  lemma HeadIsLeast(a: Labels, l: (string, string))
    requires Sorted(a) && l in a
    ensures l == a[0] || Less(a[0].0, l.0)
  {
    var i :| 0 <= i < |a| && a[i] == l;
    if i > 0 { assert Less(a[0].0, a[i].0); }
  }

  lemma TailOfSorted(a: Labels)
    requires Sorted(a) && a != []
    ensures Sorted(a[1..]) && forall l :: l in a[1..] <==> l in a && l != a[0]
  {
    assert a == [a[0]] + a[1..];
    forall i | 0 < i < |a| ensures a[i] != a[0] {
      LessIsTotal(a[0].0, a[i].0);
      assert Less(a[0].0, a[i].0);
    }
  }

  lemma {:induction false} SortedIsUnique(a: Labels, b: Labels)
    requires Sorted(a) && Sorted(b) && forall l :: l in a <==> l in b
    ensures a == b
  {
    HasMember(a);
    HasMember(b);
    if a != [] {
      HeadIsLeast(a, b[0]);
      HeadIsLeast(b, a[0]);
      LessIsTotal(a[0].0, b[0].0);
      TailOfSorted(a);
      TailOfSorted(b);
      SortedIsUnique(a[1..], b[1..]);
      assert a == [a[0]] + a[1..] && b == [b[0]] + b[1..];
    }
  }

  /** One label set has one key, in whatever order its labels were given, and only it has that key. */
  lemma KeyIsCanonical(a: Labels, b: Labels)
    requires DistinctNames(a) && DistinctNames(b)
    ensures Key(a) == Key(b) <==> forall l :: l in a <==> l in b
  {
    KeyIsSorted(a);
    KeyIsSorted(b);
    if forall l :: l in a <==> l in b {
      SortedIsUnique(Key(a), Key(b));
    } else {
      assert Key(a) != Key(b);
    }
  }

  // -- Rendering ----------------------------------------------------------------------------------

  const LABEL_ESCAPES: Table := [('\\', "\\\\"), ('"', "\\\""), ('\n', "\\n")]

  function LabelChar(c: char): string {
    match c
    case '\\' => "\\\\"
    case '"' => "\\\""
    case '\n' => "\\n"
    case _ => [c]
  }

  /** The chain of `_escape` is this single pass, so the rendering below may use the pass. */
  lemma LabelChainIsOnePass(value: string)
    ensures Chain(value, LABEL_ESCAPES) == MapChars(value, LabelChar)
  {
    forall c ensures Chain([c], LABEL_ESCAPES) == LabelChar(c) {
      match c
      case '\\' => ChainOfOne(c, LABEL_ESCAPES, 0);
      case '"' => ChainOfOne(c, LABEL_ESCAPES, 1);
      case '\n' => ChainOfOne(c, LABEL_ESCAPES, 2);
      case _ => ChainAbsent([c], LABEL_ESCAPES);
    }
    ChainIsOnePass(value, LABEL_ESCAPES, LabelChar);
  }

  function RenderLabel(item: (string, string)): string {
    item.0 + "=\"" + MapChars(item.1, LabelChar) + "\""
  }

  function Joined(labels: Labels): string
    requires labels != []
  {
    if |labels| == 1 then RenderLabel(labels[0])
    else RenderLabel(labels[0]) + "," + Joined(labels[1..])
  }

  function RenderLabels(labels: Labels): string {
    if labels == [] then "" else "{" + Joined(labels) + "}"
  }

  /** One sample line of a family. */
  function RenderLine(name: string, labels: Labels, value: string): string {
    name + RenderLabels(labels) + " " + value
  }

  // -- Reading the format back --------------------------------------------------------------------

  predicate IsNameChar(c: char) {
    'a' <= c <= 'z' || 'A' <= c <= 'Z' || '0' <= c <= '9' || c == '_' || c == ':'
  }

  predicate StartsName(c: char) {
    IsNameChar(c) && !('0' <= c <= '9')
  }

  predicate ValidName(name: string) {
    name != [] && StartsName(name[0]) && forall c :: c in name ==> IsNameChar(c)
  }

  function NameLength(s: string): (n: nat)
    ensures n <= |s|
  {
    if s == [] || !IsNameChar(s[0]) then 0 else 1 + NameLength(s[1..])
  }

  /** The rest of a quoted value, up to and including its closing quote. */
  function ParseValue(s: string): (r: Option<(string, string)>)
    ensures r.Some? ==> |r.value.1| < |s|
  {
    if s == [] || s[0] == '\n' then None
    else if s[0] == '"' then Some(("", s[1..]))
    else if s[0] != '\\' then Prepend(s[0], ParseValue(s[1..]))
    else if |s| < 2 then None
    else if s[1] == 'n' then Prepend('\n', ParseValue(s[2..]))
    else if s[1] == '\\' || s[1] == '"' then Prepend(s[1], ParseValue(s[2..]))
    else None
  }

  function Prepend(c: char, r: Option<(string, string)>): Option<(string, string)> {
    match r
    case None => None
    case Some(p) => Some(([c] + p.0, p.1))
  }

  /** The rest of a label list, up to and including the closing brace. */
  function ParsePairs(s: string): (r: Option<(Labels, string)>)
    decreases |s|
  {
    if s == [] then None
    else if s[0] == '}' then Some(([], s[1..]))
    else
      var n := NameLength(s);
      if !StartsName(s[0]) || n + 2 > |s| || s[n] != '=' || s[n + 1] != '"' then None
      else match ParseValue(s[n + 2..])
        case None => None
        case Some(p) =>
          if p.1 == [] then None
          else if p.1[0] == '}' then Some(([(s[..n], p.0)], p.1[1..]))
          else if p.1[0] != ',' then None
          else match ParsePairs(p.1[1..])
            case None => None
            case Some(q) => Some(([(s[..n], p.0)] + q.0, q.1))
  }

  function ParseLabels(s: string): Option<(Labels, string)> {
    if s != [] && s[0] == '{' then ParsePairs(s[1..]) else Some(([], s))
  }

  function ParseLine(s: string): Option<(string, Labels, string)> {
    var n := NameLength(s);
    if s == [] || !StartsName(s[0]) then None
    else match ParseLabels(s[n..])
      case None => None
      case Some(p) => if p.1 == [] || p.1[0] != ' ' then None else Some((s[..n], p.0, p.1[1..]))
  }

  lemma {:induction false} NameEndsWhere(name: string, rest: string)
    requires forall c :: c in name ==> IsNameChar(c)
    requires rest == [] || !IsNameChar(rest[0])
    ensures NameLength(name + rest) == |name|
  {
    if name == [] {
      assert name + rest == rest;
    } else {
      assert (name + rest)[1..] == name[1..] + rest;
      NameEndsWhere(name[1..], rest);
    }
  }

  lemma ValueStep(c: char, rest: string)
    ensures ParseValue(LabelChar(c) + rest) == Prepend(c, ParseValue(rest))
  {
    var head := LabelChar(c);
    assert (head + rest)[|head|..] == rest;
    assert (head + rest)[0] == head[0];
    if |head| == 2 {
      assert (head + rest)[1] == head[1];
    }
  }

  lemma {:induction false} ValueRoundTrip(value: string, rest: string)
    ensures ParseValue(MapChars(value, LabelChar) + ("\"" + rest)) == Some((value, rest))
  {
    var tail := "\"" + rest;
    if value == [] {
      assert [] + tail == tail && tail[1..] == rest;
    } else {
      var head, more := LabelChar(value[0]), MapChars(value[1..], LabelChar);
      ValueRoundTrip(value[1..], rest);
      ValueStep(value[0], more + tail);
      assert head + more + tail == head + (more + tail);
      assert value == [value[0]] + value[1..];
    }
  }

  ghost predicate ValidNames(labels: Labels) {
    forall l :: l in labels ==> ValidName(l.0)
  }

  /** Where a name ends and what follows it, in a text that begins with a valid name. */
  lemma NameSplits(name: string, rest: string)
    requires ValidName(name) && (rest == [] || !IsNameChar(rest[0]))
    ensures var s := name + rest; var n := NameLength(s); n == |name| && s[..n] == name && s[n..] == rest && s[0] == name[0]
  {
    NameEndsWhere(name, rest);
  }

  /** How one pair, followed by `after`, is read. */
  lemma PairStep(item: (string, string), after: string)
    requires ValidName(item.0) && after != []
    ensures after[0] == '}' ==> ParsePairs(RenderLabel(item) + after) == Some(([item], after[1..]))
    ensures after[0] == ',' && ParsePairs(after[1..]).Some? ==>
      var q := ParsePairs(after[1..]).value; ParsePairs(RenderLabel(item) + after) == Some(([item] + q.0, q.1))
  {
    var (name, value) := item;
    var quoted := MapChars(value, LabelChar) + ("\"" + after);
    var s := RenderLabel(item) + after;
    assert s == name + ("=\"" + quoted);
    NameSplits(name, "=\"" + quoted);
    assert s[|name|] == '=' && s[|name| + 1] == '"' && s[|name| + 2..] == quoted;
    ValueRoundTrip(value, after);
  }

  lemma Regroup(a: string, b: string, c: string, d: string)
    ensures a + b + c + d == a + (b + (c + d)) && (|b| == 1 ==> (b + (c + d))[1..] == c + d)
  {
    assert a + b + c + d == a + (b + (c + d));
    assert |b| == 1 ==> (b + (c + d))[1..] == c + d;
  }

  lemma LastPair(item: (string, string), rest: string)
    requires ValidName(item.0)
    ensures ParsePairs(Joined([item]) + ("}" + rest)) == Some(([item], rest))
  {
    PairStep(item, "}" + rest);
    assert ("}" + rest)[1..] == rest;
  }

  lemma JoinedOneMore(item: (string, string), labels: Labels)
    requires labels != []
    ensures Joined([item] + labels) == RenderLabel(item) + "," + Joined(labels)
  {
    assert ([item] + labels)[1..] == labels;
  }

  lemma OneMorePair(item: (string, string), labels: Labels, tail: string, rest: string)
    requires ValidName(item.0) && labels != []
    requires ParsePairs(Joined(labels) + tail) == Some((labels, rest))
    ensures ParsePairs(Joined([item] + labels) + tail) == Some(([item] + labels, rest))
  {
    JoinedOneMore(item, labels);
    Regroup(RenderLabel(item), ",", Joined(labels), tail);
    PairStep(item, "," + (Joined(labels) + tail));
  }

  lemma {:induction false} PairsRoundTrip(labels: Labels, rest: string)
    requires labels != [] && ValidNames(labels)
    ensures ParsePairs(Joined(labels) + ("}" + rest)) == Some((labels, rest))
    decreases |labels|
  {
    assert labels[0] in labels;
    if |labels| == 1 {
      assert labels == [labels[0]];
      LastPair(labels[0], rest);
    } else {
      assert labels == [labels[0]] + labels[1..];
      PairsRoundTrip(labels[1..], rest);
      OneMorePair(labels[0], labels[1..], "}" + rest, rest);
    }
  }

  lemma LabelsRoundTrip(labels: Labels, rest: string)
    requires ValidNames(labels) && (rest == [] || rest[0] != '{')
    ensures ParseLabels(RenderLabels(labels) + rest) == Some((labels, rest))
  {
    if labels == [] {
      assert RenderLabels(labels) + rest == rest;
    } else {
      PairsRoundTrip(labels, rest);
      Regroup("", "{", Joined(labels), "}" + rest);
      Regroup("{", Joined(labels), "}", rest);
    }
  }

  lemma LineReads(name: string, tail: string, labels: Labels, value: string)
    requires ValidName(name) && tail != [] && !IsNameChar(tail[0])
    requires ParseLabels(tail) == Some((labels, " " + value))
    ensures ParseLine(name + tail) == Some((name, labels, value))
  {
    NameSplits(name, tail);
    assert (" " + value)[1..] == value;
  }

  /** Reading a rendered line gives back the name, the labels and the value, whatever quotes,
      backslashes, newlines, commas or braces the label values hold. */
  lemma LineRoundTrip(name: string, labels: Labels, value: string)
    requires ValidName(name) && ValidNames(labels)
    ensures ParseLine(RenderLine(name, labels, value)) == Some((name, labels, value))
  {
    var rendered := RenderLabels(labels);
    LabelsRoundTrip(labels, " " + value);
    LineReads(name, rendered + (" " + value), labels, value);
    Regroup(name, rendered, " ", value);
  }

  /** Two label sets render to the same text exactly when they are the same set. */
  lemma DistinctSeriesRenderApart(a: Labels, b: Labels)
    requires DistinctNames(a) && DistinctNames(b) && ValidNames(a) && ValidNames(b)
    ensures RenderLabels(Key(a)) == RenderLabels(Key(b)) <==> forall l :: l in a <==> l in b
  {
    KeyIsSorted(a);
    KeyIsSorted(b);
    KeyIsCanonical(a, b);
    LineRoundTrip("m", Key(a), "");
    LineRoundTrip("m", Key(b), "");
  }

  lemma {:induction false} EscapedValueIsOneLine(value: string)
    ensures '\n' !in MapChars(value, LabelChar)
  {
    if value != [] {
      EscapedValueIsOneLine(value[1..]);
    }
  }

  /** A rendered label list never breaks the line it stands on. */
  lemma {:induction false} RenderedLabelsAreOneLine(labels: Labels)
    requires ValidNames(labels)
    ensures '\n' !in RenderLabels(labels)
  {
    if labels != [] {
      assert labels[0] in labels;
      EscapedValueIsOneLine(labels[0].1);
      assert '\n' !in RenderLabel(labels[0]);
      RenderedLabelsAreOneLine(labels[1..]);
    }
  }
}
