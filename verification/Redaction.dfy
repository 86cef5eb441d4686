/** Credential redaction: every resolved secret is replaced, longest first, in a text or in a decoded JSON value. */
module Redaction {
  import opened Text

  const REDACTED := "<redacted>"
  const MIN_REDACTABLE_LENGTH := 8

  // -- Which values are redacted, and in which order ----------------------------------------------

  /** Longer ones first, and none twice. */
  ghost predicate Descending(values: seq<string>) {
    forall i, j :: 0 <= i < j < |values| ==> values[i] != values[j] && |values[i]| >= |values[j]|
  }

  /** `values` lists each secret that is long enough exactly once, longer ones first. */
  ghost predicate Ranked(values: seq<string>, secrets: seq<string>) {
    && (forall v :: v in values <==> v in secrets && |v| >= 8)
    && Descending(values)
  }

  function InsertByLength(values: seq<string>, v: string): seq<string> {
    if values == [] then [v]
    else if |v| > |values[0]| then [v] + values
    else [values[0]] + InsertByLength(values[1..], v)
  }

  function Redactable(secrets: seq<string>): (values: seq<string>)
    ensures Ranked(values, secrets)
  {
    if secrets == [] then []
    else
      var rest := Redactable(secrets[1..]);
      assert secrets == [secrets[0]] + secrets[1..];
      if |secrets[0]| < MIN_REDACTABLE_LENGTH || secrets[0] in rest then rest
      else
        InsertedIsRanked(rest, secrets[0]);
        InsertByLength(rest, secrets[0])
  }

  lemma {:induction false} InsertedIsRanked(values: seq<string>, v: string)
    requires v !in values && Descending(values)
    ensures Descending(InsertByLength(values, v))
    ensures forall w :: w in InsertByLength(values, v) <==> w in values || w == v
  {
    if values != [] {
      var head, rest := values[0], values[1..];
      assert values == [head] + rest;
      if |v| > |head| {
        DescendingFrom(v, values);
      } else {
        assert forall i :: 0 <= i < |rest| ==> rest[i] == values[i + 1];
        InsertedIsRanked(rest, v);
        DescendingFrom(head, InsertByLength(rest, v));
      }
    }
  }

  lemma DescendingFrom(head: string, rest: seq<string>)
    requires Descending(rest) && forall w :: w in rest ==> w != head && |w| <= |head|
    ensures Descending([head] + rest)
  {
    var all := [head] + rest;
    forall i, j | 0 <= i < j < |all| ensures all[i] != all[j] && |all[i]| >= |all[j]| {
      assert all[j] == rest[j - 1] && rest[j - 1] in rest;
    }
  }

  // -- The replacement chain ----------------------------------------------------------------------

  function Redacted(text: string, values: seq<string>): string
    requires [] !in values
    decreases |values|
  {
    if values == [] then text
    else Redacted(Replace(text, values[0], REDACTED), values[1..])
  }

  ghost predicate Free(text: string, values: seq<string>) {
    forall v :: v in values ==> !Occurs(v, text)
  }

  /** Laid over the marker at offset `d`, `v` agrees with it wherever the two meet. */
  predicate Overlays(v: string, d: int) {
    forall k :: 0 <= k < |v| && 0 <= d + k < |REDACTED| ==> v[k] == REDACTED[d + k]
  }

  /** No placement of `v` that meets the marker agrees with it, so putting the marker into a
      text can never complete an occurrence of `v`. */
  ghost predicate Clear(v: string) {
    forall d :: -|v| < d < |REDACTED| ==> !Overlays(v, d)
  }

  predicate AngleFree(v: string) {
    '<' !in v && '>' !in v
  }

  /** For secrets without angle brackets the only dangerous one is the marker's own word. */
  lemma ClearExactlyWhen(v: string)
    requires AngleFree(v) && |v| >= 8
    ensures Clear(v) <==> v != "redacted"
  {
    if v == "redacted" {
      assert Overlays(v, 1);
    } else {
      forall d | -|v| < d < |REDACTED| ensures !Overlays(v, d) {
        if d <= 0 {
          assert v[-d] != REDACTED[d + -d];
        } else if d + |v| >= |REDACTED| {
          var k := |REDACTED| - 1 - d;
          assert v[k] != REDACTED[d + k];
        } else {
          assert d == 1 && REDACTED[1..9] == "redacted";
          var k :| 0 <= k < 8 && v[k] != REDACTED[1..9][k];
          assert v[k] != REDACTED[d + k];
        }
      }
    }
  }

  /** The first `k` characters after a replacement are either untouched or meet an inserted marker. */
  lemma {:induction false} PrefixAfterReplace(s: string, pat: string, k: nat) returns (j: int)
    requires pat != [] && k <= |Replace(s, pat, REDACTED)|
    ensures -1 <= j && (j == -1 || j < k)
    ensures j == -1 ==> k <= |s| && Replace(s, pat, REDACTED)[..k] == s[..k]
    ensures j >= 0 ==> StartsAt(Replace(s, pat, REDACTED), j, REDACTED)
  {
    if k == 0 || |s| < |pat| {
      j := -1;
    } else if s[..|pat|] == pat {
      j := 0;
    } else {
      var out := Replace(s[1..], pat, REDACTED);
      assert Replace(s, pat, REDACTED) == [s[0]] + out;
      j := PrefixAfterReplace(s[1..], pat, k - 1);
      if j >= 0 {
        assert ([s[0]] + out)[j + 1..j + 1 + |REDACTED|] == out[j..j + |REDACTED|];
        j := j + 1;
      } else {
        assert ([s[0]] + out)[..k] == [s[0]] + out[..k - 1];
        assert s[..k] == [s[0]] + s[1..][..k - 1];
      }
    }
  }

  /** What is left after a replacement was there before it, and is not the replaced value. */
  lemma {:induction false} ReplaceCreatesNothing(s: string, pat: string, w: string, i: nat)
    requires pat != [] && w != [] && Clear(w)
    requires StartsAt(Replace(s, pat, REDACTED), i, w)
    ensures w != pat && Occurs(w, s)
  {
    if |s| < |pat| {
      assert StartsAt(s, i, w);
    } else if s[..|pat|] == pat {
      var rest := Replace(s[|pat|..], pat, REDACTED);
      if i < |REDACTED| {
        assert StartsAt(REDACTED + rest, 0, REDACTED);
        OverlapIsAnOverlay(REDACTED + rest, 0, i, w);
      } else {
        StartsAfter(REDACTED, rest, i, w);
        ReplaceCreatesNothing(s[|pat|..], pat, w, i - |REDACTED|);
        OccursLater(w, s, |pat|);
      }
    } else if i > 0 {
      StartsAfter([s[0]], Replace(s[1..], pat, REDACTED), i, w);
      ReplaceCreatesNothing(s[1..], pat, w, i - 1);
      OccursLater(w, s, 1);
    } else {
      PrefixCreatesNothing(s, pat, w);
    }
  }

  lemma StartsAfter(head: string, rest: string, i: nat, w: string)
    requires StartsAt(head + rest, i, w) && i >= |head|
    ensures StartsAt(rest, i - |head|, w)
  {
    assert rest[i - |head|..i - |head| + |w|] == (head + rest)[i..i + |w|];
  }

  lemma PrefixCreatesNothing(s: string, pat: string, w: string)
    requires pat != [] && w != [] && Clear(w) && !StartsAt(s, 0, pat)
    requires StartsAt(Replace(s, pat, REDACTED), 0, w)
    ensures w != pat && Occurs(w, s)
  {
    var j := PrefixAfterReplace(s, pat, |w|);
    if j >= 0 {
      OverlapIsAnOverlay(Replace(s, pat, REDACTED), j, 0, w);
    } else {
      assert StartsAt(s, 0, w);
    }
  }

  lemma OverlapIsAnOverlay(s: string, r: nat, i: nat, w: string)
    requires StartsAt(s, r, REDACTED) && StartsAt(s, i, w)
    requires -|w| < i - r < |REDACTED|
    ensures Overlays(w, i - r) && !Clear(w)
  {
    forall k | 0 <= k < |w| && 0 <= i - r + k < |REDACTED| ensures w[k] == REDACTED[i - r + k] {
      assert s[i..i + |w|][k] == s[i + k];
      assert s[r..r + |REDACTED|][i - r + k] == s[i + k];
    }
    assert Overlays(w, i - r);
  }

  lemma OccursLater(w: string, s: string, n: nat)
    requires n <= |s| && Occurs(w, s[n..])
    ensures Occurs(w, s)
  {
    var i: nat :| StartsAt(s[n..], i, w);
    assert s[n..][i..i + |w|] == s[n + i..n + i + |w|];
    assert StartsAt(s, n + i, w);
  }

  // -- No secret survives -------------------------------------------------------------------------

  lemma {:induction false} ChainCreatesNothing(text: string, values: seq<string>, w: string)
    requires [] !in values && w != [] && Clear(w)
    requires Occurs(w, Redacted(text, values))
    ensures w !in values && Occurs(w, text)
    decreases |values|
  {
    if values != [] {
      assert values == [values[0]] + values[1..];
      var next := Replace(text, values[0], REDACTED);
      ChainCreatesNothing(next, values[1..], w);
      var i: nat :| StartsAt(next, i, w);
      ReplaceCreatesNothing(text, values[0], w, i);
    }
  }

  /** Whatever the text, and in whatever order the values stand, no clear value is left in it. */
  lemma NoSecretSurvives(text: string, values: seq<string>)
    requires [] !in values
    ensures forall v :: v in values && Clear(v) ==> !Occurs(v, Redacted(text, values))
  {
    forall v | v in values && Clear(v) ensures !Occurs(v, Redacted(text, values)) {
      if Occurs(v, Redacted(text, values)) {
        ChainCreatesNothing(text, values, v);
      }
    }
  }

  lemma {:induction false} FreeTextIsUnchanged(text: string, values: seq<string>)
    requires [] !in values && Free(text, values)
    ensures Redacted(text, values) == text
  {
    if values != [] {
      assert values[0] in values;
      ReplaceAbsent(text, values[0], REDACTED);
      assert Free(text, values[1..]);
      FreeTextIsUnchanged(text, values[1..]);
    }
  }

  lemma RedactionIsIdempotent(text: string, values: seq<string>)
    requires [] !in values && forall v :: v in values ==> Clear(v)
    ensures Redacted(Redacted(text, values), values) == Redacted(text, values)
  {
    NoSecretSurvives(text, values);
    FreeTextIsUnchanged(Redacted(text, values), values);
  }

  /** Once any value has been replaced, the marker stays in the text or a later one is put in. */
  lemma {:induction false} ChainIsIdentityOrMarks(text: string, values: seq<string>)
    requires [] !in values
    ensures Redacted(text, values) == text || Occurs(REDACTED, Redacted(text, values))
    decreases |values|
  {
    if values != [] {
      var next := Replace(text, values[0], REDACTED);
      ChainIsIdentityOrMarks(next, values[1..]);
      if Occurs(values[0], text) {
        var i: nat :| StartsAt(text, i, values[0]);
        ReplaceMarks(text, values[0], i);
      } else {
        ReplaceAbsent(text, values[0], REDACTED);
      }
    }
  }

  lemma {:induction false} ReplaceMarks(s: string, pat: string, i: nat)
    requires pat != [] && StartsAt(s, i, pat)
    ensures Occurs(REDACTED, Replace(s, pat, REDACTED))
  {
    var out := Replace(s, pat, REDACTED);
    if s[..|pat|] == pat {
      assert StartsAt(out, 0, REDACTED);
    } else {
      assert s[1..][i - 1..i - 1 + |pat|] == s[i..i + |pat|];
      ReplaceMarks(s[1..], pat, i - 1);
      assert out[1..] == Replace(s[1..], pat, REDACTED);
      OccursLater(REDACTED, out, 1);
    }
  }

  /** Values that cannot overlap the marker, or stand inside it: every text is freed of all of them exactly
      when none of them stands inside it. */
  lemma NoSecretSurvivesExactlyWhen(values: seq<string>)
    requires [] !in values && forall v :: v in values ==> Clear(v) || Occurs(v, REDACTED)
    ensures (forall text :: Free(Redacted(text, values), values)) <==> (forall v :: v in values ==> !Occurs(v, REDACTED))
  {
    if v :| v in values && Occurs(v, REDACTED) {
      SurvivesItsOwnMarker(values, v);
    } else {
      forall text ensures Free(Redacted(text, values), values) {
        NoSecretSurvives(text, values);
      }
    }
  }

  /** A value inside the marker is still there when the text was the value itself. */
  lemma SurvivesItsOwnMarker(values: seq<string>, v: string)
    requires [] !in values && v in values && Occurs(v, REDACTED)
    ensures !Free(Redacted(v, values), values)
  {
    ChainIsIdentityOrMarks(v, values);
    var out := Redacted(v, values);
    if out == v {
      assert StartsAt(v, 0, v);
    } else {
      var i: nat :| StartsAt(out, i, REDACTED);
      var k: nat :| StartsAt(REDACTED, k, v);
      StartsInside(out, i, REDACTED, k, v);
    }
  }

  /** For secrets without angle brackets that leaves the marker's own word. */
  lemma NoAngleFreeSecretSurvivesExactlyWhen(values: seq<string>)
    requires forall v :: v in values ==> AngleFree(v) && |v| >= 8
    ensures (forall text :: Free(Redacted(text, values), values)) <==> "redacted" !in values
  {
    forall v | v in values
      ensures Clear(v) || Occurs(v, REDACTED)
      ensures Occurs(v, REDACTED) <==> v == "redacted"
    {
      ClearExactlyWhen(v);
      WordIsInMarker();
      if v != "redacted" { ClearIsNotInMarker(v); }
    }
    NoSecretSurvivesExactlyWhen(values);
  }

  lemma WordIsInMarker()
    ensures Occurs("redacted", REDACTED)
  {
    assert REDACTED[1..9] == "redacted";
    assert StartsAt(REDACTED, 1, "redacted");
  }

  lemma ClearIsNotInMarker(v: string)
    requires Clear(v) && v != []
    ensures !Occurs(v, REDACTED)
  {
    if i: nat :| StartsAt(REDACTED, i, v) {
      assert StartsAt(REDACTED, 0, REDACTED);
      OverlapIsAnOverlay(REDACTED, 0, i, v);
    }
  }

  /** A secret holding an angle bracket can be completed by the marker itself. */
  lemma AngleSecretCanSurvive()
    ensures Redacted("<redacte", ["<redacte"]) == REDACTED
    ensures !Free(REDACTED, ["<redacte"])
  {
    assert "<redacte"[..8] == "<redacte";
    assert Replace("<redacte"[8..], "<redacte", REDACTED) == [];
    assert Redacted("<redacte", ["<redacte"]) == Redacted(REDACTED, []);
    assert REDACTED[0..8] == "<redacte";
    assert StartsAt(REDACTED, 0, "<redacte");
    assert Occurs("<redacte", REDACTED);
    assert "<redacte" in ["<redacte"];
  }

  // -- Longest first: a secret is replaced as a whole ---------------------------------------------

  lemma {:induction false} ChainSplits(left: string, c: char, right: string, values: seq<string>)
    requires [] !in values && forall v :: v in values ==> c !in v
    ensures Redacted(left + ([c] + right), values)
         == Redacted(left, values) + ([c] + Redacted(right, values))
    decreases |values|
  {
    if values != [] {
      assert values[0] in values;
      ReplaceSplits(left, c, right, values[0], REDACTED);
      ChainSplits(Replace(left, values[0], REDACTED), c, Replace(right, values[0], REDACTED), values[1..]);
    }
  }

  lemma {:induction false} SecretBecomesTheMarker(values: seq<string>, n: nat)
    requires [] !in values && n < |values| && forall v :: v in values ==> Clear(v)
    requires Descending(values)
    ensures Redacted(values[n], values) == REDACTED
  {
    var v := values[n];
    if n == 0 {
      assert v[..|v|] == v;
      assert Replace(v[|v|..], v, REDACTED) == [];
      assert Replace(v, v, REDACTED) == REDACTED;
      assert Free(REDACTED, values[1..]) by {
        forall w | w in values[1..] ensures !Occurs(w, REDACTED) {
          if i: nat :| StartsAt(REDACTED, i, w) {
            assert StartsAt(REDACTED, 0, REDACTED);
            OverlapIsAnOverlay(REDACTED, 0, i, w);
          }
        }
      }
      FreeTextIsUnchanged(REDACTED, values[1..]);
    } else {
      assert !Occurs(values[0], v) by {
        if i: nat :| StartsAt(v, i, values[0]) {
          assert i == 0 && v[..|v|] == v;
        }
      }
      ReplaceAbsent(v, values[0], REDACTED);
      SecretBecomesTheMarker(values[1..], n - 1);
    }
  }

  lemma ChainSplitsTwice(left: string, c: char, middle: string, d: char, right: string, values: seq<string>)
    requires [] !in values && forall v :: v in values ==> c !in v && d !in v
    ensures Redacted(left + ([c] + (middle + ([d] + right))), values)
         == Redacted(left, values) + ([c] + (Redacted(middle, values) + ([d] + Redacted(right, values))))
  {
    ChainSplits(middle, d, right, values);
    ChainSplits(left, c, middle + ([d] + right), values);
  }

  /** A secret standing between two characters no secret contains is replaced as a whole, even
      when other secrets are parts of it, and the text around it is redacted on its own. */
  lemma DelimitedSecretIsReplacedWhole(values: seq<string>, secrets: seq<string>,
                                       left: string, c: char, secret: string, d: char, right: string)
    requires Ranked(values, secrets) && [] !in values && secret in values
    requires forall v :: v in values ==> Clear(v) && c !in v && d !in v
    ensures Redacted(left + ([c] + (secret + ([d] + right))), values)
         == Redacted(left, values) + ([c] + ("<redacted>" + ([d] + Redacted(right, values))))
  {
    ChainSplitsTwice(left, c, secret, d, right, values);
    var n: nat :| n < |values| && values[n] == secret;
    SecretBecomesTheMarker(values, n);
  }

  method RedactText(text: string, secrets: seq<string>) returns (r: string)
    ensures r == Redacted(text, Redactable(secrets))
    ensures forall v :: v in secrets && |v| >= 8 && Clear(v) ==> !Occurs(v, r)
    ensures (forall v :: v in secrets && |v| >= 8 ==> !Occurs(v, text)) ==> r == text
  {
    var values := Redactable(secrets);
    r := text;
    var i := 0;
    while i < |values|
      invariant 0 <= i <= |values|
      invariant Redacted(r, values[i..]) == Redacted(text, values)
    {
      assert values[i..][1..] == values[i + 1..];
      r := Replace(r, values[i], REDACTED);
      i := i + 1;
    }
    NoSecretSurvives(text, values);
    if Free(text, values) {
      FreeTextIsUnchanged(text, values);
    }
  }
}
