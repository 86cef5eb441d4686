/** Shortening a text to a byte budget, on a character boundary, and every string of a decoded value with it. */
module Truncation {
  import opened Basics
  import opened Utf8
  import J = Json

  const TRUNCATION_MARKER := "\U{2026}[truncated]"

  function TruncateText(text: string, limit: nat): string {
    var encoded := Encode(text);
    if |encoded| <= limit then text
    else DecodeIgnoring(encoded[..limit]) + TRUNCATION_MARKER
  }

  /** The first `n` characters fit the budget, and one more would not. */
  ghost predicate LongestFit(text: string, limit: nat, n: nat) {
    && n <= |text|
    && |Encode(text[..n])| <= limit
    && (n < |text| ==> |Encode(text[..n + 1])| > limit)
  }

  lemma EncodeStep(text: string, n: nat)
    requires n < |text|
    ensures Encode(text[..n + 1]) == Encode(text[..n]) + EncodeChar(text[n])
  {
    assert text[..n + 1] == text[..n] + [text[n]];
    EncodeJoins(text[..n], [text[n]]);
    assert Encode([text[n]]) == EncodeChar(text[n]) + [];
  }

  lemma {:induction false} LongerPrefixIsLonger(text: string, k: nat, n: nat)
    requires k <= n <= |text|
    ensures |Encode(text[..k])| + (n - k) <= |Encode(text[..n])|
  {
    if k < n {
      LongerPrefixIsLonger(text, k, n - 1);
      EncodeStep(text, n - 1);
    }
  }

  /** A prefix fits exactly when it is no longer than the longest one, so there is only one longest. */
  lemma FitsExactlyWhen(text: string, limit: nat, n: nat, k: nat)
    requires LongestFit(text, limit, n) && k <= |text|
    ensures |Encode(text[..k])| <= limit <==> k <= n
  {
    if k <= n {
      LongerPrefixIsLonger(text, k, n);
    } else {
      LongerPrefixIsLonger(text, n + 1, k);
    }
  }

  /** Cutting the bytes and decoding what is left gives the longest prefix that fits. */
  lemma {:induction false} CutDecodesToLongestFit(text: string, limit: nat) returns (n: nat)
    requires limit <= |Encode(text)|
    ensures LongestFit(text, limit, n) && DecodeIgnoring(Encode(text)[..limit]) == text[..n]
  {
    if text == [] {
      n := 0;
    } else {
      var size := |EncodeChar(text[0])|;
      DecodeCut(text[0], Encode(text[1..]), limit);
      if limit < size {
        n := 0;
        PrefixAfterFirst(text, 0);
      } else {
        var m := CutDecodesToLongestFit(text[1..], limit - size);
        n := m + 1;
        FitAfterFirst(text, limit, m);
        PrefixAfterFirst(text, m);
      }
    }
  }

  lemma FitAfterFirst(text: string, limit: nat, m: nat)
    requires text != [] && limit >= |EncodeChar(text[0])|
    requires LongestFit(text[1..], limit - |EncodeChar(text[0])|, m)
    ensures LongestFit(text, limit, m + 1)
  {
    PrefixAfterFirst(text, m);
    if m + 1 < |text| {
      PrefixAfterFirst(text, m + 1);
    }
  }

  lemma PrefixAfterFirst(text: string, m: nat)
    requires m < |text|
    ensures text[..m + 1] == [text[0]] + text[1..][..m]
    ensures Encode(text[..m + 1]) == EncodeChar(text[0]) + Encode(text[1..][..m])
  {
    assert text[..m + 1][1..] == text[1..][..m];
  }

  /** Over the budget, the result is the longest prefix that fits, with the marker after it. */
  lemma TruncateTextIsExact(text: string, limit: nat, n: nat)
    requires LongestFit(text, limit, n)
    ensures TruncateText(text, limit) == if |Encode(text)| <= limit then text else text[..n] + "\U{2026}[truncated]"
  {
    if |Encode(text)| > limit {
      var m := CutDecodesToLongestFit(text, limit);
      FitsExactlyWhen(text, limit, n, m);
      FitsExactlyWhen(text, limit, m, n);
    }
  }

  lemma {:induction false} LongestFitExists(text: string, limit: nat) returns (n: nat)
    ensures LongestFit(text, limit, n)
  {
    if |Encode(text)| <= limit {
      n := |text|;
      assert text[..n] == text;
    } else {
      n := CutDecodesToLongestFit(text, limit);
    }
  }

  lemma {:induction false} AsciiEncodes(s: string)
    requires forall i :: 0 <= i < |s| ==> s[i] as int < 0x80
    ensures |Encode(s)| == |s|
  {
    if s != [] {
      AsciiEncodes(s[1..]);
    }
  }

  lemma MarkedSize(mark: string, first: char, ascii: string)
    requires 0x800 <= first as int < 0x1_0000 && mark == [first] + ascii
    requires forall i :: 0 <= i < |ascii| ==> ascii[i] as int < 0x80
    ensures |Encode(mark)| == 3 + |ascii| && |Encode(mark[..1])| == 3
  {
    EncodeJoins([first], ascii);
    AsciiEncodes(ascii);
    assert [first][1..] == [] && mark[..1] == [first];
  }

  lemma MarkerEncodes()
    ensures |Encode(TRUNCATION_MARKER)| == 14 && |Encode(TRUNCATION_MARKER[..1])| == 3
  {
    MarkedSize(TRUNCATION_MARKER, '\U{2026}', "[truncated]");
  }

  /** The marker comes on top of the budget, and nothing else does. */
  lemma TruncatedSizeIsBounded(text: string, limit: nat)
    ensures |Encode(TruncateText(text, limit))| <= limit + 14
  {
    var n := LongestFitExists(text, limit);
    TruncateTextIsExact(text, limit, n);
    EncodeJoins(text[..n], TRUNCATION_MARKER);
    MarkerEncodes();
  }

  /** Where the budget cuts a text that was already cut and marked: before the mark, or inside it. */
  lemma SecondCut(kept: string, mark: string, limit: nat, m: nat)
    requires mark != [] && |Encode(kept)| <= limit < |Encode(kept)| + |Encode(mark)|
    requires LongestFit(kept + mark, limit, m)
    ensures |Encode(kept + mark)| > limit
    ensures m >= |kept| && (m == |kept| <==> limit - |Encode(kept)| < |Encode(mark[..1])|)
  {
    var once := kept + mark;
    EncodeJoins(kept, mark);
    EncodeJoins(kept, mark[..1]);
    assert once[..|kept|] == kept;
    assert once[..|kept| + 1] == kept + mark[..1];
    FitsExactlyWhen(once, limit, m, |kept|);
    FitsExactlyWhen(once, limit, m, |kept| + 1);
  }

  /** Truncating again changes nothing exactly when the text fitted, or the cut left less room
      than the three bytes of the marker's first character. */
  lemma IdempotentExactlyWhen(text: string, limit: nat, n: nat)
    requires LongestFit(text, limit, n)
    ensures var once := TruncateText(text, limit);
      TruncateText(once, limit) == once <==> |Encode(text)| <= limit || limit - |Encode(text[..n])| < 3
  {
    TruncateTextIsExact(text, limit, n);
    if |Encode(text)| > limit {
      var kept := text[..n];
      var once := kept + TRUNCATION_MARKER;
      assert n < |text| by { assert text[..|text|] == text; }
      EncodeStep(text, n);
      var m := LongestFitExists(once, limit);
      TruncateTextIsExact(once, limit, m);
      MarkerEncodes();
      SecondCut(kept, TRUNCATION_MARKER, limit, m);
      assert once[..|kept|] == kept;
      assert |once[..m] + TRUNCATION_MARKER| == m + |TRUNCATION_MARKER|;
    }
  }

  // -- Decoded values -----------------------------------------------------------------------------

  /** `truncate`: every string value of the structure, and nothing else. */
  function Truncate(value: J.Json, limit: Option<nat>): J.Json
    decreases value
  {
    if limit.None? then value
    else match value
      case Text(s) => J.Text(TruncateText(s, limit.value))
      case Array(items) => J.Array(seq(|items|, i requires 0 <= i < |items| => Truncate(items[i], limit)))
      case Object(members) =>
        J.Object(seq(|members|, i requires 0 <= i < |members| => (members[i].0, Truncate(members[i].1, limit))))
      case _ => value
  }

  /** `r` has the structure and the keys of `value`, and each string is the original one if it
      fits and otherwise its longest fitting prefix with the marker. */
  ghost predicate IsTruncation(value: J.Json, r: J.Json, limit: nat)
    decreases value
  {
    match value
    case Text(s) =>
      && r.Text?
      && (|Encode(s)| <= limit ==> r.text == s)
      && (|Encode(s)| > limit ==> exists n: nat :: LongestFit(s, limit, n) && r.text == s[..n] + "\U{2026}[truncated]")
    case Array(items) =>
      && r.Array? && |r.items| == |items|
      && forall i :: 0 <= i < |items| ==> IsTruncation(items[i], r.items[i], limit)
    case Object(members) =>
      && r.Object? && |r.members| == |members|
      && forall i :: 0 <= i < |members| ==>
           r.members[i].0 == members[i].0 && IsTruncation(members[i].1, r.members[i].1, limit)
    case _ => r == value
  }

  lemma {:induction false} TruncateIsExact(value: J.Json, limit: nat)
    ensures IsTruncation(value, Truncate(value, Some(limit)), limit)
    ensures Truncate(value, None) == value
  {
    match value
    case Text(s) =>
      var n := LongestFitExists(s, limit);
      TruncateTextIsExact(s, limit, n);
    case Array(items) =>
      forall i | 0 <= i < |items| ensures IsTruncation(items[i], Truncate(items[i], Some(limit)), limit) {
        TruncateIsExact(items[i], limit);
      }
    case Object(members) =>
      forall i | 0 <= i < |members| ensures IsTruncation(members[i].1, Truncate(members[i].1, Some(limit)), limit) {
        TruncateIsExact(members[i].1, limit);
      }
    case _ =>
  }
}
