/** Strings as Python's `str` handles them: occurrences, and `str.replace` of a non-empty pattern. */
module Text {

  predicate StartsAt(s: string, i: nat, w: string) {
    i + |w| <= |s| && s[i..i + |w|] == w
  }

  lemma StartsInside(s: string, i: nat, outer: string, k: nat, inner: string)
    requires StartsAt(s, i, outer) && StartsAt(outer, k, inner)
    ensures StartsAt(s, i + k, inner)
  {
    forall n | 0 <= n < |inner| ensures s[i + k + n] == inner[n] {
      assert s[i..i + |outer|][k + n] == outer[k + n];
      assert outer[k..k + |inner|][n] == inner[n];
    }
  }

  ghost predicate Occurs(w: string, s: string) {
    exists i: nat :: StartsAt(s, i, w)
  }

  /** `s.replace(pat, new)`: non-overlapping occurrences, leftmost first. */
  function Replace(s: string, pat: string, sub: string): string
    requires pat != []
  {
    if |s| < |pat| then s
    else if s[..|pat|] == pat then sub + Replace(s[|pat|..], pat, sub)
    else [s[0]] + Replace(s[1..], pat, sub)
  }

  lemma {:induction false} ReplaceAbsent(s: string, pat: string, sub: string)
    requires pat != [] && !Occurs(pat, s)
    ensures Replace(s, pat, sub) == s
  {
    if |s| < |pat| {
    } else {
      assert !StartsAt(s, 0, pat);
      assert !Occurs(pat, s[1..]) by {
        if i: nat :| StartsAt(s[1..], i, pat) {
          assert StartsAt(s, i + 1, pat);
        }
      }
      ReplaceAbsent(s[1..], pat, sub);
    }
  }

  lemma ReplaceHit(pat: string, rest: string, sub: string)
    requires pat != []
    ensures Replace(pat + rest, pat, sub) == sub + Replace(rest, pat, sub)
  {
    assert (pat + rest)[|pat|..] == rest;
  }

  lemma ReplaceMiss(c: char, rest: string, pat: string, sub: string)
    requires pat != [] && !StartsAt([c] + rest, 0, pat)
    ensures Replace([c] + rest, pat, sub) == [c] + Replace(rest, pat, sub)
  {
    assert ([c] + rest)[1..] == rest;
  }

  /** A character the pattern does not contain is a wall: no match reaches across it. */
  lemma {:induction false} ReplaceSplits(left: string, c: char, right: string, pat: string, sub: string)
    requires pat != [] && c !in pat
    ensures Replace(left + ([c] + right), pat, sub)
         == Replace(left, pat, sub) + ([c] + Replace(right, pat, sub))
  {
    var wall := [c] + right;
    if left == [] {
      assert left + wall == wall;
      NoMatchAcross(left, c, right, pat);
      ReplaceMiss(c, right, pat, sub);
    } else if StartsAt(left, 0, pat) {
      var more := left[|pat|..];
      assert left == pat + more && left + wall == pat + (more + wall);
      ReplaceSplits(more, c, right, pat, sub);
      ReplaceHit(pat, more + wall, sub);
      ReplaceHit(pat, more, sub);
    } else {
      var more := left[1..];
      assert left == [left[0]] + more && left + wall == [left[0]] + (more + wall);
      ReplaceSplits(more, c, right, pat, sub);
      NoMatchAcross(left, c, right, pat);
      ReplaceMiss(left[0], more + wall, pat, sub);
      ReplaceMiss(left[0], more, pat, sub);
    }
  }

  lemma NoMatchAcross(left: string, c: char, right: string, pat: string)
    requires c !in pat && pat != [] && !StartsAt(left, 0, pat)
    ensures !StartsAt(left + ([c] + right), 0, pat)
  {
    var s := left + ([c] + right);
    if |left| >= |pat| {
      assert left[0..|pat|] == s[0..|pat|];
    } else if |s| >= |pat| {
      assert s[0..|pat|][|left|] == c;
    }
  }

  /** One left-to-right pass: every character becomes its image. */
  function MapChars(s: string, f: char -> string): string {
    if s == [] then [] else f(s[0]) + MapChars(s[1..], f)
  }

  lemma {:induction false} MapCharsJoins(s: string, t: string, f: char -> string)
    ensures MapChars(s + t, f) == MapChars(s, f) + MapChars(t, f)
  {
    if s == [] {
      assert s + t == t;
    } else {
      assert (s + t)[1..] == s[1..] + t;
      MapCharsJoins(s[1..], t, f);
    }
  }
}
