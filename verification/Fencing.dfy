/** The fence around attacker-authored text: stripping forged tags, wrapping, and what can still look like a tag. */
module Fencing {
  import opened FenceTags
  import J = Json

  // -- Stripping ----------------------------------------------------------------------------------

  /** `re.sub(pattern, "", s)`, where `matchLength` is the length of the match a text begins with:
      matches are removed left to right, and the search goes on behind each one. */
  function Sub(s: string, matchLength: string -> nat): (r: string)
    ensures |r| <= |s|
  {
    if s == [] then []
    else if 0 < matchLength(s) <= |s| then Sub(s[matchLength(s)..], matchLength)
    else [s[0]] + Sub(s[1..], matchLength)
  }

  lemma SubSkipsOne(c: char, rest: string, matchLength: string -> nat)
    requires matchLength([c] + rest) == 0
    ensures Sub([c] + rest, matchLength) == [c] + Sub(rest, matchLength)
  {
    assert ([c] + rest)[1..] == rest;
  }

  lemma {:induction false} SubSkips(before: string, rest: string, matchLength: string -> nat)
    requires forall i :: 0 <= i < |before| ==> matchLength(before[i..] + rest) == 0
    ensures Sub(before + rest, matchLength) == before + Sub(rest, matchLength)
  {
    if before == [] {
      assert before + rest == rest;
    } else {
      var more := before[1..];
      forall i | 0 <= i < |more| ensures matchLength(more[i..] + rest) == 0 {
        assert more[i..] == before[i + 1..];
      }
      SubSkips(more, rest, matchLength);
      assert before[0..] + rest == [before[0]] + (more + rest);
      SubSkipsOne(before[0], more + rest, matchLength);
      assert before == [before[0]] + more && before + rest == [before[0]] + (more + rest);
    }
  }

  /** One pass of stripping. */
  function StripOnce(s: string): (r: string)
    ensures |r| <= |s|
  {
    Sub(s, TagLength)
  }

  predicate HasOpening(s: string) {
    s != [] && (Opens(s) || HasOpening(s[1..]))
  }

  /** The same text with each angle bracket turned into its lookalike. */
  predicate Lookalike(s: string, r: string) {
    |r| == |s| && forall i :: 0 <= i < |s| ==>
      r[i] == if s[i] == '<' then '\U{2039}' else if s[i] == '>' then '\U{203A}' else s[i]
  }

  function Neutralised(s: string): (r: string)
    ensures '<' !in r && '>' !in r && Lookalike(s, r)
  {
    if s == [] then []
    else
      [if s[0] == '<' then '\U{2039}' else if s[0] == '>' then '\U{203A}' else s[0]] + Neutralised(s[1..])
  }

  const MAX_STRIP_PASSES := 4

  /** At most `passes` passes; a text still changing then, or left with an opening, is neutralised. */
  function Stripped(s: string, passes: nat): string
    decreases passes, s
  {
    if passes == 0 then Neutralised(s)
    else if StripOnce(s) != s then Stripped(StripOnce(s), passes - 1)
    else if HasOpening(s) then Neutralised(s)
    else s
  }

  // -- What stripping does, said of the grammar ----------------------------------------------------

  /** One round: left to right, every tag is removed, and everything else stays. */
  ghost predicate Round(s: string, r: string)
    decreases |s|
  {
    if s == [] then r == []
    else if exists n: nat :: 0 < n <= |s| && IsTag(s[..n]) then
      exists n: nat :: 0 < n <= |s| && IsTag(s[..n]) && Round(s[n..], r)
    else r != [] && r[0] == s[0] && Round(s[1..], r[1..])
  }

  ghost predicate RoundAt(rounds: seq<string>, i: nat)
    requires i < |rounds| - 1
  {
    Round(rounds[i], rounds[i + 1]) && rounds[i + 1] != rounds[i]
  }

  /** Round after round from the content on, each of which changes something. */
  ghost predicate Peels(content: string, rounds: seq<string>) {
    && rounds != [] && rounds[0] == content
    && forall i: nat :: i < |rounds| - 1 ==> RoundAt(rounds, i)
  }

  ghost predicate IsPeeled(s: string) {
    Round(s, s)
  }

  /** No further round changes the text, or `most` rounds have. */
  ghost predicate PeelingEnds(rounds: seq<string>, most: nat) {
    rounds != [] && (|rounds| == most + 1 || (|rounds| <= most && IsPeeled(rounds[|rounds| - 1])))
  }

  /** A text that fewer than `most` rounds make free of tags keeps its brackets, unless an opening is left;
      that one, and a text that still changes in round `most`, has them neutralised. */
  ghost predicate StripsTo(content: string, text: string, most: nat) {
    forall rounds :: Peels(content, rounds) && PeelingEnds(rounds, most) ==>
      var last := rounds[|rounds| - 1];
      if |rounds| <= most && !OpensSomewhere(last) then text == last else Lookalike(last, text)
  }

  /** A tag in a text without openings, which its removal does not create, is all that goes. */
  ghost predicate RemovesOnlyTheTag(content: string, text: string) {
    forall before, tag, after :: content == before + (tag + after) && IsTag(tag) && !OpensSomewhere(before + after) ==>
      text == before + after
  }

  method StripFenceTags(content: string) returns (text: string)
    ensures text == Stripped(content, MAX_STRIP_PASSES)
    ensures StripsTo(content, text, 4) && RemovesOnlyTheTag(content, text)
    ensures !OpensSomewhere(text)
    ensures !OpensSomewhere(content) ==> text == content
  {
    StrippedStripsTo(content, MAX_STRIP_PASSES);
    StrippedRemovesOnlyTheTag(content);
    HasOpeningExactlyWhen(content);
    HasOpeningExactlyWhen(Stripped(content, MAX_STRIP_PASSES));
    NothingOpensAfterStripping(content, MAX_STRIP_PASSES);
    PlainTextIsKept(content, MAX_STRIP_PASSES);
    text := content;
    var pass := 0;
    while pass < MAX_STRIP_PASSES
      invariant 0 <= pass <= MAX_STRIP_PASSES
      invariant Stripped(text, MAX_STRIP_PASSES - pass) == Stripped(content, MAX_STRIP_PASSES)
    {
      var stripped := StripOnce(text);
      if stripped == text {
        if HasOpening(text) {
          text := Neutralised(text);
        }
        return;
      }
      text := stripped;
      pass := pass + 1;
    }
    text := Neutralised(text);
  }

  lemma {:induction false} NoBracketNoOpening(s: string)
    requires '<' !in s
    ensures !HasOpening(s)
  {
    if s != [] {
      NoBracketNoOpening(s[1..]);
    }
  }

  lemma {:induction false} NothingOpensAfterStripping(s: string, passes: nat)
    ensures !HasOpening(Stripped(s, passes))
    decreases passes, s
  {
    if passes > 0 && StripOnce(s) != s {
      NothingOpensAfterStripping(StripOnce(s), passes - 1);
    } else {
      NoBracketNoOpening(Neutralised(s));
    }
  }

  lemma {:induction false} NoOpeningNothingStripped(s: string)
    requires !HasOpening(s)
    ensures StripOnce(s) == s
  {
    if s != [] {
      NoOpeningNothingStripped(s[1..]);
    }
  }

  lemma PlainTextIsKept(s: string, passes: nat)
    requires passes > 0
    ensures !HasOpening(s) ==> Stripped(s, passes) == s
  {
    if !HasOpening(s) {
      NoOpeningNothingStripped(s);
    }
  }

  /** A tag standing after text without brackets is removed, and nothing else before it. */
  lemma TagIsRemoved(before: string, tag: string, after: string)
    requires '<' !in before && TagLength(tag) == |tag| > 0
    ensures StripOnce(before + (tag + after)) == before + StripOnce(after)
  {
    forall i | 0 <= i < |before| ensures TagLength(before[i..] + (tag + after)) == 0 {
      assert (before[i..] + (tag + after))[0] == before[i];
    }
    SubSkips(before, tag + after, TagLength);
    TagThenMore(tag, after);
    assert (tag + after)[|tag|..] == after;
  }

  // -- The passes are the rounds of the grammar -----------------------------------------------------

  lemma {:induction false} HasOpeningExactlyWhen(s: string)
    ensures HasOpening(s) <==> OpensSomewhere(s)
  {
    if s != [] {
      HasOpeningExactlyWhen(s[1..]);
      OpensExactlyWhen(s);
      assert s[0..] == s;
      if OpensSomewhere(s[1..]) {
        var i: nat :| i < |s[1..]| && BeginsOpening(s[1..][i..]);
        assert s[1..][i..] == s[i + 1..];
      }
      if i: nat :| 0 < i < |s| && BeginsOpening(s[i..]) {
        assert s[1..][i - 1..] == s[i..];
      }
    }
  }

  lemma {:induction false} RoundIsOnePass(s: string, r: string)
    ensures Round(s, r) <==> r == StripOnce(s)
    decreases |s|
  {
    if s != [] {
      var n := TagLength(s);
      forall k: nat | k <= |s| ensures TagLength(s) == k > 0 <==> IsTag(s[..k]) { TagLengthExactlyWhen(s, k); }
      if n > 0 {
        RoundIsOnePass(s[n..], r);
      } else if r != [] {
        RoundIsOnePass(s[1..], r[1..]);
      }
    }
  }

  lemma LastRound(s: string, passes: nat)
    requires passes == 0 || IsPeeled(s)
    ensures Stripped(s, passes) == if passes > 0 && !OpensSomewhere(s) then s else Neutralised(s)
  {
    if passes > 0 {
      RoundIsOnePass(s, s);
      HasOpeningExactlyWhen(s);
    }
  }

  lemma OneRound(s: string, r: string, passes: nat)
    requires Round(s, r) && r != s && passes > 0
    ensures Stripped(s, passes) == Stripped(r, passes - 1)
  {
    RoundIsOnePass(s, r);
  }

  lemma {:induction false} PeelingStrips(rounds: seq<string>, passes: nat, i: nat)
    requires rounds != [] && Peels(rounds[0], rounds) && i < |rounds| && i <= passes
    ensures Stripped(rounds[0], passes) == Stripped(rounds[i], passes - i)
  {
    if i > 0 {
      PeelingStrips(rounds, passes, i - 1);
      assert RoundAt(rounds, i - 1);
      OneRound(rounds[i - 1], rounds[i], passes - (i - 1));
    }
  }

  lemma PeelingDecides(rounds: seq<string>, passes: nat)
    requires rounds != [] && Peels(rounds[0], rounds) && PeelingEnds(rounds, passes)
    ensures var last := rounds[|rounds| - 1];
      Stripped(rounds[0], passes) == if |rounds| <= passes && !OpensSomewhere(last) then last else Neutralised(last)
  {
    var n := |rounds| - 1;
    PeelingStrips(rounds, passes, n);
    LastRound(rounds[n], passes - n);
  }

  lemma StrippedStripsTo(content: string, passes: nat)
    ensures StripsTo(content, Stripped(content, passes), passes)
  {
    var text := Stripped(content, passes);
    forall rounds | Peels(content, rounds) && PeelingEnds(rounds, passes)
      ensures var last := rounds[|rounds| - 1];
        if |rounds| <= passes && !OpensSomewhere(last) then text == last else Lookalike(last, text)
    {
      PeelingDecides(rounds, passes);
    }
  }

  /** Every text has such rounds, so the above always says what becomes of it. */
  lemma {:induction false} EveryTextPeels(content: string, most: nat) returns (rounds: seq<string>)
    ensures Peels(content, rounds) && PeelingEnds(rounds, most)
    decreases most
  {
    rounds := [content];
    RoundIsOnePass(content, StripOnce(content));
    if most > 0 && StripOnce(content) != content {
      var more := EveryTextPeels(StripOnce(content), most - 1);
      RoundIsOnePass(content, more[0]);
      rounds := rounds + more;
      assert RoundAt(rounds, 0);
      forall i: nat | i < |rounds| - 1 ensures RoundAt(rounds, i) {
        if i > 0 { assert RoundAt(more, i - 1); }
      }
    }
  }

  lemma NoNameAtBracket(x: string, t: string)
    requires t != [] && t[0] == '<' && NameFollows(x + t)
    ensures NameFollows(x)
  {
    var name := NamePart(x);
    assert SkipSpaces(t) == t && NamePart(t) == t;
    assert !IsLetter('<', 0);
    if name == [] {
      NamePartOfMore(x, t);
    } else {
      NamePartThenMore(x, t);
      BracketEndsName(name, t);
    }
  }

  lemma BracketEndsName(name: string, t: string)
    requires t != [] && t[0] == '<' && WordAt(name + t) && |name + t| > |WORD| && Follows((name + t)[|WORD|])
    ensures WordAt(name) && |name| > |WORD| && Follows(name[|WORD|])
  {
    var longer := name + t;
    assert forall k :: 0 <= k < |WORD| ==> IsLetter(longer[k], k) && longer[k] != '<';
    assert longer[|name|] == '<' && !Follows('<');
    assert forall k :: 0 <= k < |name| ==> longer[k] == name[k];
  }

  lemma OpensBeforeBracket(s: string, t: string, after: string)
    requires s != [] && t != [] && t[0] == '<' && Opens(s + t)
    ensures Opens(s + after)
  {
    assert (s + t)[1..] == s[1..] + t && (s + after)[1..] == s[1..] + after;
    NoNameAtBracket(s[1..], t);
    NameStillFollows(s[1..], after);
  }

  lemma TagAmongPlain(before: string, tag: string, after: string)
    requires IsTag(tag) && !OpensSomewhere(before + after)
    ensures StripOnce(before + (tag + after)) == before + after
  {
    var both := before + after;
    forall i | 0 <= i < |both| ensures !Opens(both[i..]) {
      OpensExactlyWhen(both[i..]);
    }
    TagIsMeasured(tag);
    forall i | 0 <= i < |before| ensures TagLength(before[i..] + (tag + after)) == 0 {
      assert both[i..] == before[i..] + after;
      if Opens(before[i..] + (tag + after)) { OpensBeforeBracket(before[i..], tag + after, after); }
    }
    SubSkips(before, tag + after, TagLength);
    TagThenMore(tag, after);
    assert (tag + after)[|tag|..] == after;
    PlainRestIsKept(before, after);
  }

  lemma SuffixOpens(before: string, after: string)
    ensures OpensSomewhere(after) ==> OpensSomewhere(before + after)
  {
    if OpensSomewhere(after) {
      var i: nat :| i < |after| && BeginsOpening(after[i..]);
      assert (before + after)[|before| + i..] == after[i..];
    }
  }

  lemma PlainRestIsKept(before: string, after: string)
    requires !OpensSomewhere(before + after)
    ensures StripOnce(after) == after
  {
    HasOpeningExactlyWhen(after);
    SuffixOpens(before, after);
    NoOpeningNothingStripped(after);
  }

  lemma StrippedRemovesOnlyTheTag(content: string)
    ensures RemovesOnlyTheTag(content, Stripped(content, MAX_STRIP_PASSES))
  {
    forall before, tag, after | content == before + (tag + after) && IsTag(tag) && !OpensSomewhere(before + after)
      ensures Stripped(content, MAX_STRIP_PASSES) == before + after
    {
      TagAmongPlain(before, tag, after);
      HasOpeningExactlyWhen(before + after);
      PlainTextIsKept(before + after, MAX_STRIP_PASSES - 1);
      assert |content| > |before + after|;
    }
  }

  // -- The fence ----------------------------------------------------------------------------------

  function Attribute(value: string): (r: string)
    ensures '<' !in value ==> '<' !in r
  {
    "\"" + CleanAttribute(value) + "\""
  }

  function CleanAttribute(value: string): (r: string)
    ensures '<' !in value ==> '<' !in r
    ensures '"' !in r && '\\' !in r && '\n' !in r
  {
    if value == [] then []
    else if value[0] == '\\' || value[0] == '"' then CleanAttribute(value[1..])
    else [if value[0] == '\n' then ' ' else value[0]] + CleanAttribute(value[1..])
  }

  function Attributes(source: string, field: string): string {
    " source=" + Attribute(source) + " field=" + Attribute(field) + ">\n"
  }

  /** The opening tag and the line break behind it. */
  function Head(source: string, field: string): string {
    "<untrusted" + Attributes(source, field)
  }

  /** A name without quotes, backslashes and newlines stands between quotes as it is. */
  predicate PlainName(value: string) {
    '"' !in value && '\\' !in value && '\n' !in value
  }

  /** A quote or a backslash vanishes, wherever it stands. */
  lemma {:induction false} CleaningDrops(left: string, c: char, right: string)
    requires c == '"' || c == '\\'
    ensures CleanAttribute(left + ([c] + right)) == CleanAttribute(left + right)
  {
    var wall := [c] + right;
    if left == [] {
      assert left + wall == wall && wall[1..] == right && left + right == right;
    } else {
      assert (left + wall)[1..] == left[1..] + wall && (left + right)[1..] == left[1..] + right;
      CleaningDrops(left[1..], c, right);
    }
  }

  /** Where there is none, each newline becomes a space and every other character stays. */
  lemma {:induction false} CleaningKeeps(value: string)
    requires '"' !in value && '\\' !in value
    ensures |CleanAttribute(value)| == |value|
    ensures forall i :: 0 <= i < |value| ==> CleanAttribute(value)[i] == if value[i] == '\n' then ' ' else value[i]
  {
    if value != [] { CleaningKeeps(value[1..]); }
  }

  lemma PlainNameIsClean(value: string)
    requires PlainName(value)
    ensures CleanAttribute(value) == value
  {
    CleaningKeeps(value);
  }

  const TAIL := "\n</untrusted>"

  function FenceText(content: string, source: string, field: string, sanitize: string -> string): string {
    Head(source, field) + (Stripped(sanitize(content), MAX_STRIP_PASSES) + TAIL)
  }

  lemma Reassociated(open: string, before: string, quote: string, source: string, middle: string, field: string, end: string)
    ensures open + (before + (quote + source + quote) + middle + (quote + field + quote) + end)
         == open + before + quote + source + (quote + middle + quote) + field + (quote + end)
  {
  }

  lemma PlainHead(source: string, field: string)
    requires PlainName(source) && PlainName(field)
    ensures Head(source, field) == "<untrusted source=\"" + source + "\" field=\"" + field + "\">\n"
  {
    PlainNameIsClean(source);
    PlainNameIsClean(field);
    Reassociated("<untrusted", " source=", "\"", source, " field=", field, ">\n");
    assert "<untrusted" + " source=" + "\"" == "<untrusted source=\"";
    assert "\"" + " field=" + "\"" == "\" field=\"";
    assert "\"" + ">\n" == "\">\n";
  }

  /** The fenced text of plain names and a content that opens no tag: three lines, and nothing else. */
  lemma PlainTextIsFenced(content: string, source: string, field: string, sanitize: string -> string)
    requires PlainName(source) && PlainName(field) && !OpensSomewhere(sanitize(content))
    ensures FenceText(content, source, field, sanitize) ==
      "<untrusted source=\"" + source + "\" field=\"" + field + "\">\n" + sanitize(content) + "\n</untrusted>"
  {
    var inner := sanitize(content);
    HasOpeningExactlyWhen(inner);
    PlainTextIsKept(inner, MAX_STRIP_PASSES);
    PlainHead(source, field);
    var head := Head(source, field);
    assert head + (inner + TAIL) == head + inner + TAIL;
  }

  /** The text is a tag opening that lacks only the character after its name. */
  predicate Unfinished(s: string) {
    s != [] && s[0] == '<' && |NamePart(s[1..])| == |WORD| && WordAt(NamePart(s[1..]))
  }

  lemma NoNameInTail()
    ensures NamePart(TAIL) == SkipSpaces(TAIL) == "</untrusted>"
  {
    assert TAIL[1..] == "</untrusted>";
  }

  lemma NameFollowsBeforeTail(x: string)
    ensures NameFollows(x + TAIL) <==> NameFollows(x) || (|NamePart(x)| == |WORD| && WordAt(NamePart(x)))
  {
    var name := NamePart(x);
    if name == [] {
      NoNameInTail();
      NamePartOfMore(x, TAIL);
      assert !IsLetter('<', 0);
    } else {
      NamePartThenMore(x, TAIL);
      WordBeforeNewline(name, "</untrusted>");
      assert TAIL == ['\n'] + "</untrusted>";
    }
  }

  lemma WordBeforeNewline(name: string, t: string)
    ensures var longer := name + (['\n'] + t);
      WordAt(longer) && |longer| > |WORD| && Follows(longer[|WORD|]) <==>
        WordAt(name) && (|name| == |WORD| || Follows(name[|WORD|]))
  {
    var longer := name + (['\n'] + t);
    assert forall k :: 0 <= k < |name| ==> longer[k] == name[k];
    assert longer[|name|] == '\n';
    if |name| < |WORD| {
      assert !IsLetter('\n', |name|);
    }
  }

  /** Followed by the wrapper's own closing line, a suffix of the content opens a tag exactly if
      it did so before or is an unfinished tag name, completed by the wrapper's newline. */
  lemma OpensBeforeTail(s: string)
    requires s != []
    ensures Opens(s + TAIL) <==> Opens(s) || Unfinished(s)
  {
    assert (s + TAIL)[1..] == s[1..] + TAIL;
    NameFollowsBeforeTail(s[1..]);
  }

  lemma {:induction false} NoOpeningNoSuffixOpens(s: string, i: nat)
    requires !HasOpening(s) && i <= |s|
    ensures !Opens(s[i..])
  {
    if i == 0 {
      assert s[0..] == s;
    } else {
      NoOpeningNoSuffixOpens(s[1..], i - 1);
      assert s[1..][i - 1..] == s[i..];
    }
  }

  lemma HeadHasOneBracket(source: string, field: string)
    requires '<' !in source && '<' !in field
    ensures Head(source, field)[0] == '<' && '<' !in Head(source, field)[1..]
  {
    assert "<untrusted"[1..] == WORD;
    assert Head(source, field)[1..] == WORD + Attributes(source, field);
  }

  /** A fence tag opens at position `i`; an unfinished one starts there. */
  predicate OpensAt(s: string, i: nat) {
    i <= |s| && Opens(s[i..])
  }

  predicate UnfinishedAt(s: string, i: nat) {
    i <= |s| && Unfinished(s[i..])
  }

  lemma OpensAround(head: string, inner: string, i: nat)
    requires head != [] && '<' !in head[1..] && Opens(head + (inner + TAIL)) && !HasOpening(inner)
    requires i < |head + (inner + TAIL)|
    ensures OpensAt(head + (inner + TAIL), i) <==>
      || i == 0
      || i == |head| + |inner| + 1
      || (|head| <= i < |head| + |inner| && UnfinishedAt(inner, i - |head|))
  {
    var out := head + (inner + TAIL);
    assert out[i..][0] == out[i];
    if i == 0 {
      assert out[0..] == out;
    } else if i < |head| {
      assert out[i] == head[1..][i - 1];
    } else if i < |head| + |inner| {
      assert out[i..] == inner[i - |head|..] + TAIL;
      NoOpeningNoSuffixOpens(inner, i - |head|);
      OpensBeforeTail(inner[i - |head|..]);
    } else {
      assert out[i..] == TAIL[i - |head| - |inner|..];
      TailOpensOnce(i - |head| - |inner|);
    }
  }

  /** Every position of the fenced text at which a fence tag opens: the wrapper's own opening, its
      own closing, or an unfinished tag name that is the very end of the content. So no character
      of the content ever follows a forged opening. */
  lemma FenceHolds(content: string, source: string, field: string, sanitize: string -> string, i: nat)
    requires '<' !in source && '<' !in field
    requires i < |FenceText(content, source, field, sanitize)|
    ensures var inner := Stripped(sanitize(content), MAX_STRIP_PASSES);
      var start := |Head(source, field)|;
      OpensAt(FenceText(content, source, field, sanitize), i) <==>
        || i == 0
        || i == start + |inner| + 1
        || (start <= i < start + |inner| && UnfinishedAt(inner, i - start))
  {
    var head, inner := Head(source, field), Stripped(sanitize(content), MAX_STRIP_PASSES);
    assert FenceText(content, source, field, sanitize) == head + (inner + TAIL);
    HeadHasOneBracket(source, field);
    HeadOpens(source, field, inner + TAIL);
    NothingOpensAfterStripping(sanitize(content), MAX_STRIP_PASSES);
    OpensAround(head, inner, i);
  }

  lemma HeadOpens(source: string, field: string, rest: string)
    ensures Opens(Head(source, field) + rest)
  {
    assert Attributes(source, field)[0] == ' ';
    OpenTagOpens(Attributes(source, field) + rest);
    assert Head(source, field) + rest == "<untrusted" + (Attributes(source, field) + rest);
  }

  lemma OpenTagOpens(rest: string)
    requires rest != [] && Follows(rest[0])
    ensures Opens("<untrusted" + rest)
  {
    var s := "<untrusted" + rest;
    assert s[1..] == WORD + rest;
    assert NamePart(WORD + rest) == WORD + rest;
  }

  lemma TailOpensOnce(k: nat)
    requires k < |TAIL|
    ensures Opens(TAIL[k..]) <==> k == 1
  {
    assert TAIL[k..][0] == TAIL[k];
    if k == 1 {
      var s := TAIL[1..];
      assert s == "</untrusted>" && s[1..] == "/untrusted>" && s[1..][1..] == "untrusted>";
      assert SkipSpaces(s[1..]) == s[1..];
      assert NamePart("/untrusted>") == "untrusted>";
    }
  }

  /** A fence tag opens at the start and at the closing line, and nowhere else. */
  ghost predicate OnlyOwnTags(fenced: string) {
    forall i: nat :: i < |fenced| && OpensAt(fenced, i) ==> i == 0 || i == |fenced| - |TAIL| + 1
  }

  /** Where fence tags open in a text that holds `inner` at `start`, before the closing line. */
  ghost predicate Located(fenced: string, inner: string, start: nat) {
    forall i: nat {:trigger OpensAt(fenced, i)} :: i < |fenced| ==>
      (OpensAt(fenced, i) <==>
         || i == 0
         || i == start + |inner| + 1
         || (start <= i < start + |inner| && UnfinishedAt(inner, i - start)))
  }

  lemma OnlyOwnTagsExactlyWhen(fenced: string, inner: string, start: nat)
    requires 0 < start && |fenced| == start + |inner| + |TAIL| && Located(fenced, inner, start)
    ensures OnlyOwnTags(fenced) <==> (forall j: nat :: j < |inner| ==> !UnfinishedAt(inner, j))
  {
    if j: nat :| j < |inner| && UnfinishedAt(inner, j) {
      assert OpensAt(fenced, start + j);
    }
  }

  lemma LocatedAround(head: string, inner: string)
    requires head != [] && '<' !in head[1..] && Opens(head + (inner + TAIL)) && !HasOpening(inner)
    ensures Located(head + (inner + TAIL), inner, |head|)
  {
    forall i: nat | i < |head + (inner + TAIL)|
      ensures OpensAt(head + (inner + TAIL), i) <==>
        || i == 0
        || i == |head| + |inner| + 1
        || (|head| <= i < |head| + |inner| && UnfinishedAt(inner, i - |head|))
    {
      OpensAround(head, inner, i);
    }
  }

  /** The fence's own tags are the only ones exactly when the content does not end in an
      unfinished tag name. */
  lemma FenceIsUnambiguousExactlyWhen(content: string, source: string, field: string, sanitize: string -> string)
    requires '<' !in source && '<' !in field
    ensures var inner := Stripped(sanitize(content), MAX_STRIP_PASSES);
      OnlyOwnTags(FenceText(content, source, field, sanitize))
      <==> (forall j: nat :: j < |inner| ==> !UnfinishedAt(inner, j))
  {
    var head, inner := Head(source, field), Stripped(sanitize(content), MAX_STRIP_PASSES);
    HeadHasOneBracket(source, field);
    HeadOpens(source, field, inner + TAIL);
    NothingOpensAfterStripping(sanitize(content), MAX_STRIP_PASSES);
    LocatedAround(head, inner);
    OnlyOwnTagsExactlyWhen(head + (inner + TAIL), inner, |head|);
  }

  /** An unfinished name passes the stripping untouched, and so reaches the fenced text. */
  lemma UnfinishedNameSurvives(source: string, field: string)
    requires '<' !in source && '<' !in field
    ensures OpensAt(FenceText("<untrusted", source, field, s => s), |Head(source, field)|)
  {
    var s := "<untrusted";
    assert s[1..] == WORD && NamePart(WORD) == WORD;
    assert !Opens(s);
    NoBracketNoOpening(s[1..]);
    PlainTextIsKept(s, MAX_STRIP_PASSES);
    assert Unfinished(s) && s[0..] == s;
    FenceHolds(s, source, field, x => x, |Head(source, field)|);
  }

  // -- A whole context ----------------------------------------------------------------------------

  type Context = map<string, J.Json>

  /** A value that is not a string is fenced as its JSON text, which `dump` gives. */
  function AsText(value: J.Json, dump: J.Json -> string): string {
    if value.Text? then value.text else dump(value)
  }

  /** One field fenced; one the context does not have is skipped. */
  function FenceField(context: Context, source: string, field: string,
                      sanitize: string -> string, dump: J.Json -> string): Context {
    if field !in context then context
    else context[field := J.Text(FenceText(AsText(context[field], dump), source, field, sanitize))]
  }

  function Fenced(context: Context, source: string, fields: seq<string>,
                  sanitize: string -> string, dump: J.Json -> string): Context
    decreases |fields|
  {
    if fields == [] then context
    else Fenced(FenceField(context, source, fields[0], sanitize, dump), source, fields[1..], sanitize, dump)
  }

  method FenceContext(context: Context, source: string, fields: seq<string>,
                      sanitize: string -> string, dump: J.Json -> string) returns (fenced: Context)
    ensures fenced == Fenced(context, source, fields, sanitize, dump)
  {
    fenced := context;
    for i := 0 to |fields|
      invariant Fenced(fenced, source, fields[i..], sanitize, dump) == Fenced(context, source, fields, sanitize, dump)
    {
      var field := fields[i];
      assert fields[i..][1..] == fields[i + 1..];
      if field !in fenced {
        continue;
      }
      fenced := fenced[field := J.Text(FenceText(AsText(fenced[field], dump), source, field, sanitize))];
    }
  }

  /** No key is added or lost, and a key that is not listed keeps its value. */
  lemma {:induction false} FencingTouchesOnlyFields(context: Context, source: string, fields: seq<string>,
                                                    sanitize: string -> string, dump: J.Json -> string)
    ensures var r := Fenced(context, source, fields, sanitize, dump);
      r.Keys == context.Keys && forall key :: key in context && key !in fields ==> r[key] == context[key]
    decreases |fields|
  {
    if fields != [] {
      FencingTouchesOnlyFields(FenceField(context, source, fields[0], sanitize, dump), source, fields[1..],
                               sanitize, dump);
    }
  }

  /** A listed key ends up as the fence of some text, and of its own value if it is listed once. */
  lemma {:induction false} ListedFieldIsFenced(context: Context, source: string, fields: seq<string>,
                                               sanitize: string -> string, dump: J.Json -> string, n: nat)
    requires n < |fields| && fields[n] in context
    requires forall i :: n < i < |fields| ==> fields[i] != fields[n]
    ensures fields[n] in Fenced(context, source, fields, sanitize, dump)
    ensures exists content :: Fenced(context, source, fields, sanitize, dump)[fields[n]]
                           == J.Text(FenceText(content, source, fields[n], sanitize))
    ensures fields[n] !in fields[..n] ==>
      Fenced(context, source, fields, sanitize, dump)[fields[n]]
      == match context[fields[n]]
         case Text(text) => J.Text(FenceText(text, source, fields[n], sanitize))
         case value => J.Text(FenceText(dump(value), source, fields[n], sanitize))
    decreases |fields|
  {
    var next := FenceField(context, source, fields[0], sanitize, dump);
    if n == 0 {
      FencingTouchesOnlyFields(next, source, fields[1..], sanitize, dump);
    } else {
      ListedFieldIsFenced(next, source, fields[1..], sanitize, dump, n - 1);
      assert fields[..n] == [fields[0]] + fields[1..][..n - 1];
    }
  }
}
