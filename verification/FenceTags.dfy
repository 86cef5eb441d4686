/** The two patterns for fence tags: as a parser that the stripping can follow, and as the grammar they stand for. */
module FenceTags {
  // -- The two patterns ---------------------------------------------------------------------------

  /** What `\s` matches in a Python string. */
  predicate IsSpace(c: char) {
    var n := c as int;
    || 0x09 <= n <= 0x0D || 0x1C <= n <= 0x20 || n == 0x85 || n == 0xA0 || n == 0x1680
    || 0x2000 <= n <= 0x200A || n == 0x2028 || n == 0x2029 || n == 0x202F || n == 0x205F || n == 0x3000
  }

  const WORD := "untrusted"
  const WORD_UPPER := "UNTRUSTED"

  /** One letter of the tag name, ignoring case. U+017F is a case variant of `s`. */
  predicate IsLetter(c: char, k: nat)
    requires k < |WORD|
  {
    c == WORD[k] || c == WORD_UPPER[k] || (WORD[k] == 's' && c == '\U{017F}')
  }

  predicate WordAt(s: string) {
    |s| >= |WORD| && forall k :: 0 <= k < |WORD| ==> IsLetter(s[k], k)
  }

  function SkipSpaces(s: string): (r: string)
    ensures |r| <= |s|
  {
    if s != [] && IsSpace(s[0]) then SkipSpaces(s[1..]) else s
  }

  function SkipSlash(s: string): (r: string)
    ensures |r| <= |s|
  {
    if s != [] && s[0] == '/' then s[1..] else s
  }

  /** What stands where the tag name is expected, in the text behind a `<`: after spaces, an
      optional slash, and spaces again. */
  function NamePart(x: string): (r: string)
    ensures |r| <= |x|
  {
    SkipSpaces(SkipSlash(SkipSpaces(x)))
  }

  predicate Follows(c: char) {
    IsSpace(c) || c == '>' || c == '/'
  }

  /** The text behind a `<` goes on as a fence tag does, up to the character after its name. */
  predicate NameFollows(x: string) {
    var name := NamePart(x);
    WordAt(name) && |name| > |WORD| && Follows(name[|WORD|])
  }

  /** The text begins with the opening of a fence tag, closed or not. */
  predicate Opens(s: string) {
    s != [] && s[0] == '<' && NameFollows(s[1..])
  }

  const MAX_ATTRIBUTES := 512

  /** The position of the first `>` among the first `most + 1` characters, or the text's length. */
  function CloseWithin(s: string, most: nat): (n: nat)
    ensures n <= |s|
    ensures n < |s| ==> s[n] == '>' && n <= most
  {
    if s == [] then 0
    else if s[0] == '>' then 0
    else if most == 0 then |s|
    else 1 + CloseWithin(s[1..], most - 1)
  }

  /** The length of the tag the text begins with; 0 if it begins with none. */
  function TagLength(s: string): (n: nat)
    ensures n <= |s|
    ensures n > 0 ==> Opens(s)
  {
    if !Opens(s) then 0
    else
      var attributes := NamePart(s[1..])[|WORD|..];
      var close := CloseWithin(attributes, MAX_ATTRIBUTES);
      if close == |attributes| then 0 else |s| - |attributes| + close + 1
  }

  // -- What text added at the end can change ------------------------------------------------------

  lemma {:induction false} SkipSpacesThenMore(s: string, t: string)
    ensures SkipSpaces(s + t) == if SkipSpaces(s) == [] then SkipSpaces(t) else SkipSpaces(s) + t
  {
    if s == [] {
      assert s + t == t;
    } else if IsSpace(s[0]) {
      assert (s + t)[1..] == s[1..] + t;
      SkipSpacesThenMore(s[1..], t);
    }
  }

  lemma {:induction false} SkipSpacesTwice(s: string)
    ensures SkipSpaces(SkipSpaces(s)) == SkipSpaces(s)
  {
    if s != [] && IsSpace(s[0]) {
      SkipSpacesTwice(s[1..]);
    }
  }

  lemma SlashThenMore(x: string, t: string)
    requires x != []
    ensures SkipSlash(x + t) == SkipSlash(x) + t
  {
    assert (x + t)[1..] == x[1..] + t;
  }

  lemma NamePartThenMore(x: string, t: string)
    requires NamePart(x) != []
    ensures NamePart(x + t) == NamePart(x) + t
  {
    SkipSpacesThenMore(x, t);
    SlashThenMore(SkipSpaces(x), t);
    SkipSpacesThenMore(SkipSlash(SkipSpaces(x)), t);
  }

  /** Where nothing stands at the place of the name, whatever follows decides. */
  lemma NamePartOfMore(x: string, t: string)
    requires NamePart(x) == [] && NamePart(t) == SkipSpaces(t)
    ensures NamePart(x + t) == SkipSpaces(t)
  {
    SkipSpacesThenMore(x, t);
    if SkipSpaces(x) != [] {
      SlashThenMore(SkipSpaces(x), t);
      SkipSpacesThenMore(SkipSlash(SkipSpaces(x)), t);
    }
  }

  lemma {:induction false} CloseThenMore(s: string, t: string, most: nat)
    requires CloseWithin(s, most) < |s|
    ensures CloseWithin(s + t, most) == CloseWithin(s, most)
  {
    if s[0] != '>' {
      assert (s + t)[1..] == s[1..] + t;
      CloseThenMore(s[1..], t, most - 1);
    }
  }

  lemma DropThenMore(s: string, t: string, k: nat)
    requires k <= |s|
    ensures (s + t)[k..] == s[k..] + t
  {}

  lemma NameStillFollows(x: string, t: string)
    requires NameFollows(x)
    ensures NameFollows(x + t) && NamePart(x + t)[|WORD|..] == NamePart(x)[|WORD|..] + t
  {
    NamePartThenMore(x, t);
    DropThenMore(NamePart(x), t, |WORD|);
  }

  /** A whole tag is a tag of the same length whatever follows it. */
  lemma TagThenMore(tag: string, t: string)
    requires TagLength(tag) == |tag| > 0
    ensures TagLength(tag + t) == |tag|
  {
    DropThenMore(tag, t, 1);
    NameStillFollows(tag[1..], t);
    CloseThenMore(NamePart(tag[1..])[|WORD|..], t, MAX_ATTRIBUTES);
  }

  // -- The grammar ----------------------------------------------------------------------------------

  /** A letter in either case; U+017F is a case variant of `s`. */
  predicate Spells(c: char, letter: char) {
    c == letter || c as int + 32 == letter as int || (letter == 's' && c == '\U{017F}')
  }

  ghost predicate Spaces(s: string) {
    forall i :: 0 <= i < |s| ==> IsSpace(s[i])
  }

  /** What may stand between `<` and the name: spaces, with at most one slash among them. */
  ghost predicate IsLead(lead: string) {
    Spaces(lead) || exists k :: 0 <= k < |lead| && lead[k] == '/' && Spaces(lead[..k]) && Spaces(lead[k + 1..])
  }

  ghost predicate IsName(word: string) {
    |word| == 9 && forall k :: 0 <= k < 9 ==> Spells(word[k], "untrusted"[k])
  }

  /** `<`, a lead, the name, and something that begins with a space, a slash or `>`. */
  ghost predicate IsOpening(s: string, lead: string, word: string, rest: string) {
    && s == ['<'] + (lead + (word + rest)) && IsLead(lead) && IsName(word)
    && rest != [] && (IsSpace(rest[0]) || rest[0] == '/' || rest[0] == '>')
  }

  ghost predicate BeginsOpening(s: string) {
    exists lead, word, rest :: IsOpening(s, lead, word, rest)
  }

  ghost predicate OpensSomewhere(s: string) {
    exists i: nat :: i < |s| && BeginsOpening(s[i..])
  }

  /** An opening that ends with the first `>`, after at most 512 other characters. */
  ghost predicate IsTag(tag: string) {
    exists lead, word, attributes ::
      IsOpening(tag, lead, word, attributes + ['>']) && '>' !in attributes && |attributes| <= 512
  }

  lemma {:induction false} SkipsAll(spaces: string, x: string)
    requires Spaces(spaces) && (x == [] || !IsSpace(x[0]))
    ensures SkipSpaces(spaces + x) == x
  {
    if spaces == [] {
      assert spaces + x == x;
    } else {
      assert (spaces + x)[1..] == spaces[1..] + x;
      SkipsAll(spaces[1..], x);
    }
  }

  lemma {:induction false} SkipsSpaces(x: string) returns (n: nat)
    ensures n <= |x| && SkipSpaces(x) == x[n..] && Spaces(x[..n])
    ensures n < |x| ==> !IsSpace(x[n])
  {
    if x != [] && IsSpace(x[0]) {
      var m := SkipsSpaces(x[1..]);
      n := m + 1;
      assert x[n..] == x[1..][m..] && x[..n] == [x[0]] + x[1..][..m];
    } else {
      n := 0;
    }
  }

  lemma LetterSpells(c: char, k: nat)
    requires k < |WORD|
    ensures IsLetter(c, k) <==> Spells(c, WORD[k])
  {
    assert WORD[k] as int == WORD_UPPER[k] as int + 32;
  }

  lemma NameIsWord(word: string)
    ensures IsName(word) <==> |word| == |WORD| && WordAt(word)
  {
    if |word| == |WORD| {
      forall k | 0 <= k < |WORD| ensures IsLetter(word[k], k) <==> Spells(word[k], WORD[k]) { LetterSpells(word[k], k); }
    }
  }

  lemma NameBeginsWithLetter(word: string)
    requires IsName(word)
    ensures !IsSpace(word[0]) && word[0] != '/'
  {
    assert Spells(word[0], 'u');
  }

  lemma SlashLeadIsSkipped(before: string, behind: string, x: string)
    requires Spaces(before) && Spaces(behind) && x != [] && !IsSpace(x[0])
    ensures NamePart(before + (['/'] + (behind + x))) == x
  {
    var slashed := ['/'] + (behind + x);
    SkipsAll(before, slashed);
    assert slashed[1..] == behind + x;
    SkipsAll(behind, x);
  }

  lemma Regrouped(a: string, b: string, c: string, d: string)
    ensures a + (b + c) + d == a + (b + (c + d))
  {
  }

  lemma LeadIsSkipped(lead: string, x: string)
    requires IsLead(lead) && x != [] && !IsSpace(x[0]) && x[0] != '/'
    ensures NamePart(lead + x) == x
  {
    if Spaces(lead) {
      SkipsAll(lead, x);
      assert SkipSpaces(x) == x;
    } else {
      var k :| 0 <= k < |lead| && lead[k] == '/' && Spaces(lead[..k]) && Spaces(lead[k + 1..]);
      var before, behind := lead[..k], lead[k + 1..];
      assert lead == before + (['/'] + behind);
      Regrouped(before, ['/'], behind, x);
      SlashLeadIsSkipped(before, behind, x);
    }
  }

  lemma SkippedIsLead(x: string) returns (lead: string)
    ensures x == lead + NamePart(x) && IsLead(lead)
  {
    var n := SkipsSpaces(x);
    var y := x[n..];
    var m := SkipsSpaces(SkipSlash(y));
    if y != [] && y[0] == '/' {
      lead := x[..n + 1 + m];
      assert y[1..][m..] == x[n + 1 + m..];
      assert lead[n] == '/' && lead[..n] == x[..n] && lead[n + 1..] == y[1..][..m];
    } else {
      lead := x[..n + m];
      assert y[m..] == x[n + m..];
      assert m == 0;
      assert lead == x[..n];
    }
  }

  lemma OpeningParses(s: string, lead: string, word: string, rest: string)
    requires IsOpening(s, lead, word, rest)
    ensures Opens(s) && NamePart(s[1..]) == word + rest
  {
    NameBeginsWithLetter(word);
    assert s[1..] == lead + (word + rest) && (word + rest)[0] == word[0];
    LeadIsSkipped(lead, word + rest);
    NameIsWord(word);
    assert forall k :: 0 <= k < |WORD| ==> (word + rest)[k] == word[k];
    assert (word + rest)[|WORD|] == rest[0];
  }

  lemma ParsedIsOpening(s: string) returns (lead: string, word: string, rest: string)
    requires Opens(s)
    ensures IsOpening(s, lead, word, rest) && rest == NamePart(s[1..])[|WORD|..]
  {
    lead := SkippedIsLead(s[1..]);
    var name := NamePart(s[1..]);
    word, rest := name[..|WORD|], name[|WORD|..];
    NameIsWord(word);
    assert name == word + rest && s == ['<'] + s[1..];
  }

  /** The parser accepts exactly what the grammar describes. */
  lemma OpensExactlyWhen(s: string)
    ensures Opens(s) <==> BeginsOpening(s)
  {
    if Opens(s) {
      var lead, word, rest := ParsedIsOpening(s);
    } else if lead, word, rest :| IsOpening(s, lead, word, rest) {
      OpeningParses(s, lead, word, rest);
    }
  }

  lemma {:induction false} ClosesAt(attributes: string, t: string, most: nat)
    requires '>' !in attributes && |attributes| <= most
    ensures CloseWithin(attributes + (['>'] + t), most) == |attributes|
  {
    var s := attributes + (['>'] + t);
    if attributes != [] {
      assert s[0] == attributes[0] && s[1..] == attributes[1..] + (['>'] + t);
      ClosesAt(attributes[1..], t, most - 1);
    }
  }

  lemma {:induction false} NoCloseBefore(s: string, most: nat)
    requires CloseWithin(s, most) < |s|
    ensures '>' !in s[..CloseWithin(s, most)]
  {
    if s[0] != '>' {
      NoCloseBefore(s[1..], most - 1);
      var n := CloseWithin(s[1..], most - 1);
      assert s[..n + 1] == [s[0]] + s[1..][..n];
    }
  }

  lemma TagIsMeasured(tag: string)
    requires IsTag(tag)
    ensures TagLength(tag) == |tag|
  {
    var lead, word, attributes :|
      IsOpening(tag, lead, word, attributes + ['>']) && '>' !in attributes && |attributes| <= 512;
    OpeningParses(tag, lead, word, attributes + ['>']);
    ClosesAt(attributes, [], 512);
    assert attributes + (['>'] + []) == attributes + ['>'];
    assert (word + (attributes + ['>']))[|WORD|..] == attributes + ['>'];
  }

  lemma MeasuredIsTag(s: string)
    requires TagLength(s) > 0
    ensures IsTag(s[..TagLength(s)])
  {
    var n := TagLength(s);
    var lead, word, rest := ParsedIsOpening(s);
    var close := CloseWithin(rest, MAX_ATTRIBUTES);
    NoCloseBefore(rest, MAX_ATTRIBUTES);
    assert rest[..close + 1] == rest[..close] + ['>'];
    assert s[..n] == ['<'] + (lead + (word + rest[..close + 1]));
    assert IsOpening(s[..n], lead, word, rest[..close] + ['>']);
  }

  /** The measured length is that of the only tag of the grammar with which the text begins. */
  lemma TagLengthExactlyWhen(s: string, n: nat)
    requires n <= |s|
    ensures TagLength(s) == n > 0 <==> IsTag(s[..n])
  {
    if IsTag(s[..n]) {
      TagIsMeasured(s[..n]);
      TagThenMore(s[..n], s[n..]);
      assert s == s[..n] + s[n..];
    } else if TagLength(s) == n > 0 {
      MeasuredIsTag(s);
    }
  }
}
