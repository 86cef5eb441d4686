/**
 * Redaction of secrets that hold any characters at all. The marker can leave a secret behind only by lying
 * over part of it; what stands before the marker must then be able to come just before the value that the
 * marker replaces, without that value starting earlier.
 */
module Completion {
  import opened Text
  import opened Redaction

  /** In `lead` followed by `w`, the leftmost occurrence of `w` is the one behind the lead. */
  ghost predicate LeadsUp(lead: string, w: string) {
    forall i: nat :: i < |lead| ==> !StartsAt(lead + w, i, w)
  }

  /** The marker agrees with `v` at offset `d`, and replacing `w` can put it there. */
  ghost predicate CompletedAt(v: string, w: string, d: int) {
    -|v| < d < |REDACTED| && Overlays(v, d) && (d < 0 ==> LeadsUp(v[..-d], w))
  }

  /** Replacing `w` can complete an occurrence of `v`. */
  ghost predicate Completes(w: string, v: string) {
    exists d :: CompletedAt(v, w, d)
  }

  // -- a secret left behind is completed by a marker ---------------------------------------------------

  /** The first `k` characters after a replacement are untouched, or the first marker begins among them: up
      to it the text is as it was, and it stands for the leftmost occurrence. */
  lemma {:induction false} FirstMarker(s: string, w: string, k: nat) returns (j: int)
    requires w != [] && k <= |Replace(s, w, REDACTED)|
    ensures -1 <= j && (j == -1 || j < k)
    ensures j == -1 ==> k <= |s| && Replace(s, w, REDACTED)[..k] == s[..k]
    ensures j >= 0 ==> StartsAt(Replace(s, w, REDACTED), j, REDACTED) && StartsAt(s, j, w)
    ensures j >= 0 ==> Replace(s, w, REDACTED)[..j] == s[..j] && forall i: nat :: i < j ==> !StartsAt(s, i, w)
  {
    var out := Replace(s, w, REDACTED);
    if k == 0 || |s| < |w| {
      j := -1;
    } else if s[..|w|] == w {
      j := 0;
    } else {
      var more := Replace(s[1..], w, REDACTED);
      assert out == [s[0]] + more && s == [s[0]] + s[1..];
      j := FirstMarker(s[1..], w, k - 1);
      if j >= 0 {
        MarkerOneLater(s[0], s[1..], more, w, j);
        j := j + 1;
      } else {
        assert ([s[0]] + more)[..k] == [s[0]] + more[..k - 1];
        assert ([s[0]] + s[1..])[..k] == [s[0]] + s[1..][..k - 1];
      }
    }
  }

  lemma MarkerOneLater(c: char, s: string, out: string, w: string, j: nat)
    requires w != [] && StartsAt(out, j, REDACTED) && StartsAt(s, j, w) && out[..j] == s[..j]
    requires forall i: nat :: i < j ==> !StartsAt(s, i, w)
    requires !StartsAt([c] + s, 0, w)
    ensures StartsAt([c] + out, j + 1, REDACTED) && StartsAt([c] + s, j + 1, w)
    ensures ([c] + out)[..j + 1] == ([c] + s)[..j + 1]
    ensures forall i: nat :: i < j + 1 ==> !StartsAt([c] + s, i, w)
  {
    assert ([c] + out)[j + 1..j + 1 + |REDACTED|] == out[j..j + |REDACTED|];
    assert ([c] + s)[j + 1..j + 1 + |w|] == s[j..j + |w|];
    assert ([c] + out)[..j + 1] == [c] + out[..j] && ([c] + s)[..j + 1] == [c] + s[..j];
    forall i: nat | 0 < i < j + 1 ensures !StartsAt([c] + s, i, w) {
      assert !StartsAt(s, i - 1, w);
      if i + |w| <= |[c] + s| { assert ([c] + s)[i..i + |w|] == s[i - 1..i - 1 + |w|]; }
    }
  }

  lemma LeadOf(s: string, w: string, j: nat)
    requires w != [] && StartsAt(s, j, w) && forall i: nat :: i < j ==> !StartsAt(s, i, w)
    ensures LeadsUp(s[..j], w)
  {
    assert s[..j] + w == s[..j + |w|] by { assert s[..j + |w|] == s[..j] + s[j..j + |w|]; }
    forall i: nat | i < j ensures !StartsAt(s[..j] + w, i, w) {
      assert !StartsAt(s, i, w);
      assert s[..j + |w|][i..i + |w|] == s[i..i + |w|];
    }
  }

  /** What is left of `v` after `w` was replaced stood there before, or a marker completed it. */
  lemma {:induction false} LeftBehindIsCompleted(s: string, w: string, v: string, i: nat)
    requires w != [] && v != [] && StartsAt(Replace(s, w, REDACTED), i, v)
    ensures Completes(w, v) || (v != w && Occurs(v, s))
  {
    if |s| < |w| {
      assert StartsAt(s, i, v);
    } else if s[..|w|] == w {
      var rest := Replace(s[|w|..], w, REDACTED);
      if i < |REDACTED| {
        assert StartsAt(REDACTED + rest, 0, REDACTED);
        OverlapIsAnOverlay(REDACTED + rest, 0, i, v);
        assert CompletedAt(v, w, i);
      } else {
        StartsAfter(REDACTED, rest, i, v);
        LeftBehindIsCompleted(s[|w|..], w, v, i - |REDACTED|);
        if !Completes(w, v) { OccursLater(v, s, |w|); }
      }
    } else if i > 0 {
      StartsAfter([s[0]], Replace(s[1..], w, REDACTED), i, v);
      LeftBehindIsCompleted(s[1..], w, v, i - 1);
      if !Completes(w, v) { OccursLater(v, s, 1); }
    } else {
      PrefixIsCompleted(s, w, v);
    }
  }

  lemma PrefixIsCompleted(s: string, w: string, v: string)
    requires w != [] && v != [] && !StartsAt(s, 0, w) && StartsAt(Replace(s, w, REDACTED), 0, v)
    ensures Completes(w, v) || (v != w && Occurs(v, s))
  {
    var out := Replace(s, w, REDACTED);
    var j := FirstMarker(s, w, |v|);
    assert out[0..|v|] == out[..|v|] && (|v| <= |s| ==> s[0..|v|] == s[..|v|]);
    if j >= 0 {
      OverlapIsAnOverlay(out, j, 0, v);
      LeadOf(s, w, j);
      PrefixOfPrefix(out, v, j);
      assert CompletedAt(v, w, -j);
    } else {
      assert StartsAt(s, 0, v);
    }
  }

  lemma PrefixOfPrefix(s: string, v: string, j: nat)
    requires StartsAt(s, 0, v) && j <= |v|
    ensures v[..j] == s[..j]
  {
    assert s[0..|v|][..j] == s[..j];
  }

  // -- a secret that can be completed is left behind by some text --------------------------------------

  lemma {:induction false} ReplaceBehindLead(lead: string, v: string, rest: string)
    requires v != [] && LeadsUp(lead, v)
    ensures Replace(lead + (v + rest), v, REDACTED) == lead + (REDACTED + Replace(rest, v, REDACTED))
  {
    if lead == [] {
      assert lead + (v + rest) == v + rest;
      ReplaceHit(v, rest, REDACTED);
    } else {
      var c, more := lead[0], lead[1..];
      assert lead == [c] + more && lead + (v + rest) == [c] + (more + (v + rest));
      LeadStepsOn(c, more, v, rest);
      ReplaceBehindLead(more, v, rest);
      ReplaceMiss(c, more + (v + rest), v, REDACTED);
    }
  }

  lemma LeadStepsOn(c: char, more: string, v: string, rest: string)
    requires v != [] && LeadsUp([c] + more, v)
    ensures LeadsUp(more, v) && !StartsAt([c] + (more + (v + rest)), 0, v)
  {
    var long := [c] + more + v;
    assert long == [c] + (more + v);
    forall i: nat | i < |more| ensures !StartsAt(more + v, i, v) {
      assert !StartsAt(long, i + 1, v);
      assert long[i + 1..i + 1 + |v|] == (more + v)[i..i + |v|];
    }
    assert !StartsAt(long, 0, v);
    assert [c] + (more + (v + rest)) == long + rest;
    assert (long + rest)[0..|v|] == long[0..|v|];
  }

  /** What of `v` stands before and behind a marker laid over it at offset `d`. */
  function Lead(v: string, d: int): string
    requires -|v| < d
  {
    if d < 0 then v[..-d] else []
  }

  function Tail(v: string, marker: string, d: int): string
    requires -|v| < d < |marker|
  {
    if d + |v| > |marker| then v[|marker| - d..] else []
  }

  lemma LaidOver(v: string, marker: string, d: int)
    requires -|v| < d < |marker|
    requires forall k :: 0 <= k < |v| && 0 <= d + k < |marker| ==> v[k] == marker[d + k]
    ensures StartsAt(Lead(v, d) + (marker + Tail(v, marker, d)), if d < 0 then 0 else d, v)
  {
    var lead, tail := Lead(v, d), Tail(v, marker, d);
    var out := lead + (marker + tail);
    var at: nat := if d < 0 then 0 else d;
    forall k | 0 <= k < |v| ensures at + k < |out| && out[at + k] == v[k] {
      if d + k < 0 {
        assert out[at + k] == lead[k];
      } else if d + k < |marker| {
        assert out[at + k] == marker[d + k];
      } else {
        assert out[at + k] == tail[d + k - |marker|];
      }
    }
    assert out[at..at + |v|] == v;
  }

  lemma CompletedIsLeftBehind(v: string, d: int)
    requires v != [] && CompletedAt(v, v, d)
    ensures exists text :: Occurs(v, Replace(text, v, REDACTED))
  {
    var lead, tail := Lead(v, d), Tail(v, REDACTED, d);
    ReplaceBehindLead(lead, v, tail);
    assert Replace(tail, v, REDACTED) == tail;
    LaidOver(v, REDACTED, d);
    assert Occurs(v, Replace(lead + (v + tail), v, REDACTED));
  }

  /** Every text is freed of its only secret, whatever characters that holds, exactly when the marker cannot
      complete it. It can when the secret, laid over it, agrees: starting inside the marker, or starting before
      it behind a lead in which the secret does not already begin. */
  lemma SoleSecretSurvivesExactlyWhen(v: string)
    requires v != []
    ensures (forall text :: Free(Redacted(text, [v]), [v])) <==> !Completes(v, v)
  {
    forall text ensures Redacted(text, [v]) == Replace(text, v, REDACTED) {
      assert Redacted(Replace(text, v, REDACTED), [v][1..]) == Replace(text, v, REDACTED);
    }
    assert v in [v];
    if Completes(v, v) {
      var d :| CompletedAt(v, v, d);
      CompletedIsLeftBehind(v, d);
      var text :| Occurs(v, Replace(text, v, REDACTED));
      assert !Free(Redacted(text, [v]), [v]);
    } else {
      forall text ensures Free(Redacted(text, [v]), [v]) {
        if Occurs(v, Replace(text, v, REDACTED)) {
          var i: nat :| StartsAt(Replace(text, v, REDACTED), i, v);
          LeftBehindIsCompleted(text, v, v, i);
        }
      }
    }
  }

  // -- several secrets ---------------------------------------------------------------------------------

  /** No value's marker can complete the value itself or one that was replaced before it. */
  ghost predicate NoneCompleted(values: seq<string>) {
    forall i, j :: 0 <= i <= j < |values| ==> !Completes(values[j], values[i])
  }

  /** What no later marker completes is not there at the end if it was not there before. */
  lemma {:induction false} StaysAway(text: string, values: seq<string>, v: string)
    requires [] !in values && v != [] && !Occurs(v, text)
    requires forall j :: 0 <= j < |values| ==> !Completes(values[j], v)
    ensures !Occurs(v, Redacted(text, values))
    decreases |values|
  {
    if values != [] {
      var next := Replace(text, values[0], REDACTED);
      if i: nat :| StartsAt(next, i, v) {
        LeftBehindIsCompleted(text, values[0], v, i);
      }
      StaysAway(next, values[1..], v);
    }
  }

  /** Secrets of any characters, in any order: every text is freed of all of them if no marker put in for one
      of them can complete that one or an earlier one. */
  lemma {:induction false} NoSecretIsCompleted(text: string, values: seq<string>)
    requires [] !in values && NoneCompleted(values)
    ensures Free(Redacted(text, values), values)
    decreases |values|
  {
    if values != [] {
      var v, rest := values[0], values[1..];
      var next := Replace(text, v, REDACTED);
      assert values == [v] + rest;
      assert forall j :: 0 <= j < |rest| ==> rest[j] == values[j + 1];
      assert !Occurs(v, next) by {
        if i: nat :| StartsAt(next, i, v) { LeftBehindIsCompleted(text, v, v, i); }
      }
      StaysAway(next, rest, v);
      NoSecretIsCompleted(next, rest);
    }
  }

  lemma UncompletedIsIdempotent(text: string, values: seq<string>)
    requires [] !in values && NoneCompleted(values)
    ensures Redacted(Redacted(text, values), values) == Redacted(text, values)
  {
    NoSecretIsCompleted(text, values);
    FreeTextIsUnchanged(Redacted(text, values), values);
  }

  /** A value that cannot overlap the marker is completed by nothing, so this covers every list of such. */
  lemma ClearIsNeverCompleted(w: string, v: string)
    requires Clear(v)
    ensures !Completes(w, v)
  {
    assert forall d :: CompletedAt(v, w, d) ==> Overlays(v, d);
  }

  // -- an example --------------------------------------------------------------------------------------

  /** Overlapping an edge of the marker is not enough: in front of this secret it always begins earlier. */
  lemma RepetitiveSecretIsFreed()
    ensures !Clear("<z<z<z<z<") && !Completes("<z<z<z<z<", "<z<z<z<z<")
  {
    var v := "<z<z<z<z<";
    assert Overlays(v, -8);
    forall d | -|v| < d < |REDACTED| ensures !CompletedAt(v, v, d) {
      if d == -8 {
        var long := v[..8] + v;
        assert long[0..9] == v;
        assert StartsAt(long, 0, v);
      } else if d < 0 {
        if d % 2 == 0 { assert v[-d + 1] != REDACTED[1]; } else { assert v[-d] != REDACTED[0]; }
      } else if d < 9 {
        if v[0] == REDACTED[d] { assert v[1] != REDACTED[d + 1]; }
      } else {
        assert v[0] != REDACTED[9];
      }
    }
  }
}
