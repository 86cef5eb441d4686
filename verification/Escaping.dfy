/** Escaping of interpolated values for Slack and Markdown: an ordered table of one-character replacements. */
module Escaping {
  import opened Text

  type Table = seq<(char, string)>

  const SLACK_ESCAPES: Table := [('&', "&amp;"), ('<', "&lt;"), ('>', "&gt;")]

  const MARKDOWN_ESCAPES: Table :=
    [('\\', "\\\\"), ('[', "\\["), (']', "\\]"), ('<', "&lt;"), ('>', "&gt;")]

  /** The replacements one after the other, each over the whole text. */
  function Chain(text: string, table: Table): string
    decreases |table|
  {
    if table == [] then text
    else Chain(Replace(text, [table[0].0], table[0].1), table[1..])
  }

  method Escape(text: string, table: Table) returns (r: string)
    ensures r == Chain(text, table)
  {
    r := text;
    var i := 0;
    while i < |table|
      invariant 0 <= i <= |table|
      invariant Chain(r, table[i..]) == Chain(text, table)
    {
      assert table[i..][1..] == table[i + 1..];
      r := Replace(r, [table[i].0], table[i].1);
      i := i + 1;
    }
  }

  lemma {:induction false} ReplaceCharJoins(s: string, t: string, c: char, sub: string)
    ensures Replace(s + t, [c], sub) == Replace(s, [c], sub) + Replace(t, [c], sub)
  {
    if s == [] {
      assert s + t == t;
    } else {
      assert (s + t)[..1] == [s[0]] && s[..1] == [s[0]];
      assert (s + t)[1..] == s[1..] + t;
      ReplaceCharJoins(s[1..], t, c, sub);
    }
  }

  lemma {:induction false} ChainJoins(s: string, t: string, table: Table)
    ensures Chain(s + t, table) == Chain(s, table) + Chain(t, table)
    decreases |table|
  {
    if table != [] {
      var (c, sub) := table[0];
      ReplaceCharJoins(s, t, c, sub);
      ChainJoins(Replace(s, [c], sub), Replace(t, [c], sub), table[1..]);
    }
  }

  /** What one left-to-right pass does to one character. */
  function SlackChar(c: char): string {
    match c
    case '&' => "&amp;"
    case '<' => "&lt;"
    case '>' => "&gt;"
    case _ => [c]
  }

  function MarkdownChar(c: char): string {
    match c
    case '\\' => "\\\\"
    case '[' => "\\["
    case ']' => "\\]"
    case '<' => "&lt;"
    case '>' => "&gt;"
    case _ => [c]
  }

  /** Since every pattern is one character, a chain acts on each character by itself. */
  lemma {:induction false} ChainIsOnePass(text: string, table: Table, f: char -> string)
    requires forall c :: Chain([c], table) == f(c)
    ensures Chain(text, table) == MapChars(text, f)
  {
    if text == [] {
      ChainOfNothing(table);
    } else {
      assert text == [text[0]] + text[1..];
      ChainJoins([text[0]], text[1..], table);
      ChainIsOnePass(text[1..], table, f);
    }
  }

  /** Each chain is a single pass: no replacement touches what an earlier one put in. */
  lemma SlackChainIsOnePass(text: string)
    ensures Chain(text, SLACK_ESCAPES) == MapChars(text, SlackChar)
  {
    forall c ensures Chain([c], SLACK_ESCAPES) == SlackChar(c) {
      SlackChainOfOne(c);
    }
    ChainIsOnePass(text, SLACK_ESCAPES, SlackChar);
  }

  lemma MarkdownChainIsOnePass(text: string)
    ensures Chain(text, MARKDOWN_ESCAPES) == MapChars(text, MarkdownChar)
  {
    forall c ensures Chain([c], MARKDOWN_ESCAPES) == MarkdownChar(c) {
      MarkdownChainOfOne(c);
    }
    ChainIsOnePass(text, MARKDOWN_ESCAPES, MarkdownChar);
  }

  lemma {:induction false} ChainOfNothing(table: Table)
    ensures Chain([], table) == []
  {
    if table != [] {
      ChainOfNothing(table[1..]);
    }
  }

  lemma {:induction false} ReplaceCharAbsent(s: string, c: char, sub: string)
    requires c !in s
    ensures Replace(s, [c], sub) == s
  {
    if s != [] {
      assert s[..1] == [s[0]];
      ReplaceCharAbsent(s[1..], c, sub);
    }
  }

  /** A text holding none of the characters still to be replaced passes unchanged. */
  lemma {:induction false} ChainAbsent(s: string, table: Table)
    requires forall p :: p in table ==> p.0 !in s
    ensures Chain(s, table) == s
    decreases |table|
  {
    if table != [] {
      assert table[0] in table;
      ReplaceCharAbsent(s, table[0].0, table[0].1);
      ChainAbsent(s, table[1..]);
    }
  }

  /** The row for `c` decides, if its replacement holds no character of a later row and no
      earlier row is for `c`. */
  lemma {:induction false} ChainOfOne(c: char, table: Table, n: nat)
    requires n < |table| && table[n].0 == c
    requires forall i :: 0 <= i < n ==> table[i].0 != c
    requires forall i :: n < i < |table| ==> table[i].0 !in table[n].1
    ensures Chain([c], table) == table[n].1
    decreases n
  {
    if n == 0 {
      assert [c][..1] == [c];
      assert [c][1..] == [] && Replace([], [c], table[0].1) == [];
      assert Replace([c], [c], table[0].1) == table[0].1;
      assert forall p :: p in table[1..] ==> p.0 !in table[0].1;
      ChainAbsent(table[0].1, table[1..]);
    } else {
      ReplaceCharAbsent([c], table[0].0, table[0].1);
      ChainOfOne(c, table[1..], n - 1);
    }
  }

  lemma SlackChainOfOne(c: char)
    ensures Chain([c], SLACK_ESCAPES) == SlackChar(c)
  {
    match c
    case '&' => ChainOfOne(c, SLACK_ESCAPES, 0);
    case '<' => ChainOfOne(c, SLACK_ESCAPES, 1);
    case '>' => ChainOfOne(c, SLACK_ESCAPES, 2);
    case _ => ChainAbsent([c], SLACK_ESCAPES);
  }

  lemma MarkdownChainOfOne(c: char)
    ensures Chain([c], MARKDOWN_ESCAPES) == MarkdownChar(c)
  {
    match c
    case '\\' => ChainOfOne(c, MARKDOWN_ESCAPES, 0);
    case '[' => ChainOfOne(c, MARKDOWN_ESCAPES, 1);
    case ']' => ChainOfOne(c, MARKDOWN_ESCAPES, 2);
    case '<' => ChainOfOne(c, MARKDOWN_ESCAPES, 3);
    case '>' => ChainOfOne(c, MARKDOWN_ESCAPES, 4);
    case _ => ChainAbsent([c], MARKDOWN_ESCAPES);
  }

  // -- Slack --------------------------------------------------------------------------------------

  /** What a reader of Slack's `mrkdwn` shows: one pass over the three entities. */
  function SlackUnescape(s: string): string {
    if s == [] then []
    else if "&amp;" <= s then "&" + SlackUnescape(s[5..])
    else if "&lt;" <= s then "<" + SlackUnescape(s[4..])
    else if "&gt;" <= s then ">" + SlackUnescape(s[4..])
    else [s[0]] + SlackUnescape(s[1..])
  }

  lemma {:induction false} UnescapeUndoesOnePass(text: string)
    ensures SlackUnescape(MapChars(text, SlackChar)) == text
  {
    if text != [] {
      var head, rest := SlackChar(text[0]), MapChars(text[1..], SlackChar);
      assert (head + rest)[|head|..] == rest;
      UnescapeUndoesOnePass(text[1..]);
      assert text == [text[0]] + text[1..];
      match text[0]
      case '&' => assert "&amp;" <= head + rest;
      case '<' => assert "&lt;" <= head + rest && (head + rest)[1] == 'l';
      case '>' => assert "&gt;" <= head + rest && (head + rest)[1] == 'g';
      case _ => assert (head + rest)[0] == text[0];
    }
  }

  lemma SlackRoundTrip(text: string)
    ensures SlackUnescape(Chain(text, SLACK_ESCAPES)) == text
  {
    SlackChainIsOnePass(text);
    UnescapeUndoesOnePass(text);
  }

  lemma SlackEscapeIsInjective(a: string, b: string)
    ensures Chain(a, SLACK_ESCAPES) == Chain(b, SLACK_ESCAPES) <==> a == b
  {
    SlackRoundTrip(a);
    SlackRoundTrip(b);
  }

  ghost predicate StartsEntity(s: string, i: nat) {
    StartsAt(s, i, "&amp;") || StartsAt(s, i, "&lt;") || StartsAt(s, i, "&gt;")
  }

  /** No angle bracket is left, and every ampersand is the start of an entity. */
  ghost predicate SlackInert(s: string) {
    forall i: nat :: i < |s| ==> s[i] != '<' && s[i] != '>' && (s[i] == '&' ==> StartsEntity(s, i))
  }

  lemma StartsAtInPrefix(s: string, t: string, i: nat, w: string)
    requires StartsAt(s, i, w)
    ensures StartsAt(s + t, i, w)
  {
    assert (s + t)[i..i + |w|] == s[i..i + |w|];
  }

  lemma StartsAtInSuffix(s: string, t: string, i: nat, w: string)
    requires StartsAt(t, i, w)
    ensures StartsAt(s + t, |s| + i, w)
  {
    assert (s + t)[|s| + i..|s| + i + |w|] == t[i..i + |w|];
  }

  lemma SlackInertJoins(s: string, t: string)
    requires SlackInert(s) && SlackInert(t)
    ensures SlackInert(s + t)
  {
    forall i: nat | i < |s + t| && (s + t)[i] == '&' ensures StartsEntity(s + t, i) {
      if i < |s| {
        var w :| w in ["&amp;", "&lt;", "&gt;"] && StartsAt(s, i, w);
        StartsAtInPrefix(s, t, i, w);
      } else {
        var w :| w in ["&amp;", "&lt;", "&gt;"] && StartsAt(t, i - |s|, w);
        StartsAtInSuffix(s, t, i - |s|, w);
      }
    }
  }

  lemma SlackCharIsInert(c: char)
    ensures SlackInert(SlackChar(c))
  {
    var s := SlackChar(c);
    assert s[0..|s|] == s;
    if s[0] == '&' {
      assert StartsEntity(s, 0);
    }
  }

  lemma {:induction false} SlackOnePassIsInert(text: string)
    ensures SlackInert(MapChars(text, SlackChar))
  {
    if text != [] {
      SlackOnePassIsInert(text[1..]);
      SlackCharIsInert(text[0]);
      SlackInertJoins(SlackChar(text[0]), MapChars(text[1..], SlackChar));
    }
  }

  /** No value can open a link or a broadcast, or forge an entity. */
  lemma SlackOutputIsInert(text: string)
    ensures SlackInert(Chain(text, SLACK_ESCAPES))
  {
    SlackChainIsOnePass(text);
    SlackOnePassIsInert(text);
  }

  // -- Markdown -----------------------------------------------------------------------------------

  /** How many backslashes stand directly before position `i`. */
  function BackslashesBefore(s: string, i: nat): nat
    requires i <= |s|
  {
    if i == 0 || s[i - 1] != '\\' then 0 else 1 + BackslashesBefore(s, i - 1)
  }

  /** No raw HTML, and every bracket is escaped: the run of backslashes before it is odd. */
  ghost predicate MarkdownInert(s: string) {
    forall i: nat :: i < |s| ==> s[i] != '<' && s[i] != '>' && (IsBracket(s[i]) ==> BackslashesBefore(s, i) % 2 == 1)
  }

  predicate IsBracket(c: char) {
    c == '[' || c == ']'
  }

  /** The text does not end inside an escape. */
  ghost predicate Settled(s: string) {
    BackslashesBefore(s, |s|) % 2 == 0
  }

  lemma {:induction false} BackslashesBeforeInPrefix(s: string, t: string, i: nat)
    requires i <= |s|
    ensures BackslashesBefore(s + t, i) == BackslashesBefore(s, i)
  {
    if i > 0 && s[i - 1] == '\\' {
      BackslashesBeforeInPrefix(s, t, i - 1);
    }
  }

  lemma {:induction false} BackslashesBeforeInSuffix(s: string, t: string, i: nat)
    requires i <= |t| && Settled(s)
    ensures BackslashesBefore(s + t, |s| + i) % 2 == BackslashesBefore(t, i) % 2
  {
    if i == 0 {
      BackslashesBeforeInPrefix(s, t, |s|);
    } else if t[i - 1] == '\\' {
      BackslashesBeforeInSuffix(s, t, i - 1);
    }
  }

  lemma MarkdownInertJoins(s: string, t: string)
    requires MarkdownInert(s) && Settled(s) && MarkdownInert(t) && Settled(t)
    ensures MarkdownInert(s + t) && Settled(s + t)
  {
    forall i: nat | i < |s + t| && IsBracket((s + t)[i]) ensures BackslashesBefore(s + t, i) % 2 == 1 {
      if i < |s| {
        BackslashesBeforeInPrefix(s, t, i);
      } else {
        BackslashesBeforeInSuffix(s, t, i - |s|);
      }
    }
    BackslashesBeforeInSuffix(s, t, |t|);
  }

  lemma {:induction false} MarkdownOnePassIsInert(text: string)
    ensures MarkdownInert(MapChars(text, MarkdownChar)) && Settled(MapChars(text, MarkdownChar))
  {
    if text != [] {
      MarkdownOnePassIsInert(text[1..]);
      MarkdownInertJoins(MarkdownChar(text[0]), MapChars(text[1..], MarkdownChar));
    }
  }

  /** Whatever backslashes a value holds, its brackets are all escaped and no raw HTML is left. */
  lemma MarkdownOutputIsInert(text: string)
    ensures MarkdownInert(Chain(text, MARKDOWN_ESCAPES))
  {
    MarkdownChainIsOnePass(text);
    MarkdownOnePassIsInert(text);
  }

  /** The value with only its angle brackets turned into entities. */
  function EntityChar(c: char): string {
    match c
    case '<' => "&lt;"
    case '>' => "&gt;"
    case _ => [c]
  }

  /** A backslash stands for the character after it. */
  function Unbackslash(s: string): string {
    if |s| < 2 then s
    else if s[0] == '\\' then [s[1]] + Unbackslash(s[2..])
    else [s[0]] + Unbackslash(s[1..])
  }

  lemma {:induction false} UnbackslashSkips(plain: string, rest: string)
    requires '\\' !in plain
    ensures Unbackslash(plain + rest) == plain + Unbackslash(rest)
  {
    if plain == [] {
      assert plain + rest == rest;
    } else if |plain + rest| < 2 {
      assert rest == [];
    } else {
      assert (plain + rest)[1..] == plain[1..] + rest;
      UnbackslashSkips(plain[1..], rest);
    }
  }

  lemma UnbackslashStep(c: char, rest: string)
    ensures Unbackslash(MarkdownChar(c) + rest) == EntityChar(c) + Unbackslash(rest)
  {
    var head := MarkdownChar(c);
    if head[0] == '\\' {
      assert (head + rest)[2..] == rest;
    } else {
      UnbackslashSkips(head, rest);
    }
  }

  lemma {:induction false} UnbackslashUndoesOnePass(text: string)
    ensures Unbackslash(MapChars(text, MarkdownChar)) == MapChars(text, EntityChar)
  {
    if text != [] {
      UnbackslashUndoesOnePass(text[1..]);
      UnbackslashStep(text[0], MapChars(text[1..], MarkdownChar));
    }
  }

  lemma {:induction false} OnePassDependsOnEntitiesOnly(text: string)
    ensures MapChars(MapChars(text, EntityChar), MarkdownChar) == MapChars(text, MarkdownChar)
  {
    if text != [] {
      var head, rest := EntityChar(text[0]), MapChars(text[1..], EntityChar);
      OnePassDependsOnEntitiesOnly(text[1..]);
      MapCharsJoins(head, rest, MarkdownChar);
      EntityIsPlain(text[0]);
    }
  }

  lemma EntityIsPlain(c: char)
    ensures MapChars(EntityChar(c), MarkdownChar) == MarkdownChar(c)
  {
    var e := EntityChar(c);
    if c == '<' || c == '>' {
      assert e == [e[0]] + ([e[1]] + ([e[2]] + [e[3]]));
      MapCharsJoins([e[0]], [e[1]] + ([e[2]] + [e[3]]), MarkdownChar);
      MapCharsJoins([e[1]], [e[2]] + [e[3]], MarkdownChar);
      MapCharsJoins([e[2]], [e[3]], MarkdownChar);
    }
  }

  /** Markdown escaping is not injective, since `&` is left alone, but that is all it merges:
      two values escape alike exactly when they differ only in spelling `<` and `>` as entities. */
  lemma MarkdownMergesOnlyEntities(a: string, b: string)
    ensures Chain(a, MARKDOWN_ESCAPES) == Chain(b, MARKDOWN_ESCAPES)
       <==> MapChars(a, EntityChar) == MapChars(b, EntityChar)
  {
    MarkdownChainIsOnePass(a);
    MarkdownChainIsOnePass(b);
    UnbackslashUndoesOnePass(a);
    UnbackslashUndoesOnePass(b);
    OnePassDependsOnEntitiesOnly(a);
    OnePassDependsOnEntitiesOnly(b);
  }

  method SlackEscape(value: string) returns (r: string)
    ensures r == MapChars(value, SlackChar)
    ensures SlackUnescape(r) == value && SlackInert(r)
  {
    r := Escape(value, SLACK_ESCAPES);
    SlackChainIsOnePass(value);
    SlackRoundTrip(value);
    SlackOutputIsInert(value);
  }

  method MarkdownEscape(value: string) returns (r: string)
    ensures r == MapChars(value, MarkdownChar)
    ensures Unbackslash(r) == MapChars(value, EntityChar) && MarkdownInert(r)
  {
    r := Escape(value, MARKDOWN_ESCAPES);
    MarkdownChainIsOnePass(value);
    UnbackslashUndoesOnePass(value);
    MarkdownOutputIsInert(value);
  }
}
