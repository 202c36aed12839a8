/**
 * The text of the `gh pr` commands (engine/action-registry.ts) and how a POSIX shell cuts it
 * into words: sections 2.2.1 (Escape Character), 2.2.2 (Single-Quotes) and 2.3 (Token
 * Recognition) of the Shell Command Language.
 */
module Shell {
  import opened Common
  import opened Strings

  // ---- The command text ----

  /** UNSAFE_CHARS. */
  predicate IsUnsafe(c: char) {
    || c == ';' || c == '&' || c == '|' || c == '`' || c == '$' || c == '(' || c == ')'
    || c == '{' || c == '}' || c == '[' || c == ']' || c == '!' || c == '#' || c == '~'
    || c == '<' || c == '>' || c == '\\' || c == '\'' || c == '"'
  }

  function RemoveUnsafe(s: string): string {
    if s == "" then "" else (if IsUnsafe(s[0]) then "" else [s[0]]) + RemoveUnsafe(s[1..])
  }

  function Trim(s: string): string {
    if s == "" then ""
    else if IsSpace(s[0]) then Trim(s[1..])
    else if IsSpace(s[|s| - 1]) then Trim(s[..|s| - 1])
    else s
  }

  function Sanitize(input: string): string {
    Trim(RemoveUnsafe(input))
  }

  /** `replace(/'/g, "'\\''")`. */
  function EscapeQuotes(s: string): string {
    if s == "" then "" else (if s[0] == '\'' then "'\\''" else [s[0]]) + EscapeQuotes(s[1..])
  }

  function ShellEscape(input: string): string {
    "'" + EscapeQuotes(input) + "'"
  }

  // ---- Token recognition ----

  datatype Token = Word(text: string) | NewLine

  /** An unquoted character that can mean more to a shell than itself, a blank or a line end. */
  predicate IsSpecial(c: char) {
    c in "|&;<>()$`\\\"'[]{}!#~"
  }

  predicate IsBlank(c: char) {
    c == ' ' || c == '\t'
  }

  /** A word that is open when the text before it ends. */
  function Close(open: Option<string>): seq<Token> {
    if open.None? then [] else [Word(open.value)]
  }

  function Extend(open: Option<string>, text: string): Option<string> {
    Some((if open.None? then "" else open.value) + text)
  }

  function Then(tokens: seq<Token>, rest: Option<seq<Token>>): Option<seq<Token>> {
    if rest.None? then None else Some(tokens + rest.value)
  }

  /**
   * The tokens of `s`, given the word being read and whether a single quote is open. `None` for
   * an unclosed quote or for an unquoted special character.
   */
  function Tokens(s: string, open: Option<string>, quoted: bool): Option<seq<Token>> {
    if s == "" then
      if quoted then None else Some(Close(open))
    else if quoted then
      if s[0] == '\'' then Tokens(s[1..], open, false)
      else Tokens(s[1..], Extend(open, [s[0]]), true)
    else if IsBlank(s[0]) then Then(Close(open), Tokens(s[1..], None, false))
    else if s[0] == '\n' then Then(Close(open) + [NewLine], Tokens(s[1..], None, false))
    else if s[0] == '\'' then Tokens(s[1..], Extend(open, ""), true)
    else if s[0] == '\\' then
      if |s| == 1 then None
      else if s[1] == '\n' then Tokens(s[2..], open, false)
      else Tokens(s[2..], Extend(open, [s[1]]), false)
    else if IsSpecial(s[0]) then None
    else Tokens(s[1..], Extend(open, [s[0]]), false)
  }

  // ---- Quoted text ----

  /** Inside the quotes, escaped text contributes exactly the original text to the open word. */
  lemma {:induction false} EscapedTextReads(s: string, rest: string, open: string)
    ensures Tokens(EscapeQuotes(s) + "'" + rest, Some(open), true) == Tokens(rest, Some(open + s), false)
  {
    var text := EscapeQuotes(s) + "'" + rest;
    if s == "" {
      assert text == "'" + rest;
      assert text[1..] == rest;
      assert open + "" == open;
    } else {
      var tail := EscapeQuotes(s[1..]) + "'" + rest;
      EscapedTextReads(s[1..], rest, open + [s[0]]);
      assert open + [s[0]] + s[1..] == open + s;
      if s[0] == '\'' {
        assert EscapeQuotes(s) == "'\\''" + EscapeQuotes(s[1..]);
        ReopenedQuoteReads(tail, open);
        assert text == "'\\''" + tail;
      } else {
        assert EscapeQuotes(s) == [s[0]] + EscapeQuotes(s[1..]);
        assert text == [s[0]] + tail;
        assert text[1..] == tail;
      }
    }
  }

  /** Close the quote, take one literal quote, open it again. */
  lemma ReopenedQuoteReads(tail: string, open: string)
    ensures Tokens("'\\''" + tail, Some(open), true) == Tokens(tail, Some(open + "'"), true)
  {
    var s1, s2 := "\\''" + tail, "'" + tail;
    assert ("'\\''" + tail)[1..] == s1;
    assert s1[2..] == s2 && s2[1..] == tail;
    assert (open + "'") + "" == open + "'";
    assert Tokens(s2, Some(open + "'"), false) == Tokens(tail, Some(open + "'"), true);
    assert Tokens(s1, Some(open), false) == Tokens(s2, Some(open + "'"), false);
  }

  /** The round trip: quoting any string gives one word equal to it, and leaves the rest alone. */
  lemma QuotedWordReads(s: string, rest: string, open: Option<string>)
    ensures Tokens(ShellEscape(s) + rest, open, false) == Tokens(rest, Extend(open, s), false)
  {
    var text := ShellEscape(s) + rest;
    assert text == "'" + (EscapeQuotes(s) + "'" + rest);
    assert text[1..] == EscapeQuotes(s) + "'" + rest;
    EscapedTextReads(s, rest, Extend(open, "").value);
    assert Extend(open, "").value + s == Extend(open, s).value;
  }

  // ---- Unquoted text ----

  predicate Harmless(s: string) {
    forall i :: 0 <= i < |s| ==> !IsUnsafe(s[i])
  }

  /** Harmless text is only cut at blanks and line ends. */
  function Pieces(s: string, open: Option<string>): seq<Token> {
    if s == "" then Close(open)
    else if IsBlank(s[0]) then Close(open) + Pieces(s[1..], None)
    else if s[0] == '\n' then Close(open) + [NewLine] + Pieces(s[1..], None)
    else Pieces(s[1..], Extend(open, [s[0]]))
  }

  predicate Ends(rest: string) {
    rest == "" || rest[0] == ' '
  }

  function AfterBlank(rest: string): string
    requires Ends(rest)
  {
    if rest == "" then "" else rest[1..]
  }

  lemma {:induction false} HarmlessTextReads(s: string, rest: string, open: Option<string>)
    requires Harmless(s) && Ends(rest)
    ensures Tokens(s + rest, open, false) == Then(Pieces(s, open), Tokens(AfterBlank(rest), None, false))
  {
    if s == "" {
      assert s + rest == rest;
      assert Close(open) + Close(None) == Close(open);
    } else {
      var open' := if IsBlank(s[0]) || s[0] == '\n' then None else Extend(open, [s[0]]);
      assert (s + rest)[1..] == s[1..] + rest;
      HarmlessTextReads(s[1..], rest, open');
      var tail := Tokens(AfterBlank(rest), None, false);
      if tail.Some? {
        var p := Pieces(s[1..], open');
        assert Close(open) + (p + tail.value) == (Close(open) + p) + tail.value;
        assert (Close(open) + [NewLine]) + (p + tail.value) == (Close(open) + [NewLine] + p) + tail.value;
      }
    }
  }

  lemma {:induction false} TrimOnlyRemoves(s: string)
    requires Harmless(s)
    ensures Harmless(Trim(s))
    decreases |s|
  {
    if s != "" && IsSpace(s[0]) {
      TrimOnlyRemoves(s[1..]);
    } else if s != "" && IsSpace(s[|s| - 1]) {
      TrimOnlyRemoves(s[..|s| - 1]);
    }
  }

  lemma {:induction false} SanitizedIsHarmless(s: string)
    ensures Harmless(RemoveUnsafe(s)) && Harmless(Sanitize(s))
    ensures forall c :: c in Sanitize(s) ==> c !in ";&|`$(){}[]!#~<>\\'\""
  {
    if s != "" {
      SanitizedIsHarmless(s[1..]);
    }
    TrimOnlyRemoves(RemoveUnsafe(s));
    UnsafeCharacters();
  }

  /** The characters that the sanitizer drops are those that a shell could take for more than text. */
  lemma UnsafeCharacters()
    ensures forall c :: IsUnsafe(c) <==> c in ";&|`$(){}[]!#~<>\\'\""
    ensures forall c :: IsUnsafe(c) <==> IsSpecial(c)
  {
    forall c ensures IsUnsafe(c) <==> c in ";&|`$(){}[]!#~<>\\'\"" {
    }
  }

  /** Every character is dropped or kept for itself. */
  lemma {:induction false} RemovesOneByOne(a: string, b: string)
    ensures RemoveUnsafe(a + b) == RemoveUnsafe(a) + RemoveUnsafe(b)
  {
    if a == "" {
      assert a + b == b;
    } else {
      var kept := if IsUnsafe(a[0]) then "" else [a[0]];
      RemovesOneByOne(a[1..], b);
      assert (a + b)[0] == a[0] && (a + b)[1..] == a[1..] + b;
      Regroup(kept, RemoveUnsafe(a[1..]), RemoveUnsafe(b));
    }
  }

  predicate Trimmed(s: string) {
    s == "" || (!IsSpace(s[0]) && !IsSpace(s[|s| - 1]))
  }

  predicate AllSpace(s: string) {
    forall i :: 0 <= i < |s| ==> IsSpace(s[i])
  }

  lemma SpaceInFront(c: char, before: string, text: string, after: string)
    requires IsSpace(c) && AllSpace(before)
    ensures [c] + (before + text + after) == ([c] + before) + text + after && AllSpace([c] + before)
  {
  }

  lemma SpaceBehind(c: char, before: string, text: string, after: string)
    requires IsSpace(c) && AllSpace(after)
    ensures (before + text + after) + [c] == before + text + (after + [c]) && AllSpace(after + [c])
  {
  }

  /** Trimming takes blanks off both ends and stops at the first other characters. */
  lemma {:induction false} TrimTakesBlanks(s: string) returns (before: string, after: string)
    ensures s == before + Trim(s) + after && Trimmed(Trim(s)) && AllSpace(before) && AllSpace(after)
    decreases |s|
  {
    before, after := "", "";
    if s == "" {
    } else if IsSpace(s[0]) {
      before, after := TrimTakesBlanks(s[1..]);
      SpaceInFront(s[0], before, Trim(s), after);
      before := [s[0]] + before;
      assert s == [s[0]] + s[1..];
    } else if IsSpace(s[|s| - 1]) {
      before, after := TrimTakesBlanks(s[..|s| - 1]);
      SpaceBehind(s[|s| - 1], before, Trim(s), after);
      after := after + [s[|s| - 1]];
      assert s == s[..|s| - 1] + [s[|s| - 1]];
    }
  }

  /** Text without unsafe characters and outer blanks is not changed. */
  lemma {:induction false} HarmlessTextIsKept(s: string)
    requires Harmless(s)
    ensures RemoveUnsafe(s) == s
    ensures Trimmed(s) ==> Sanitize(s) == s
  {
    if s != "" {
      HarmlessTextIsKept(s[1..]);
      assert [s[0]] + s[1..] == s;
    }
  }

  // ---- Commands as segments ----

  datatype Segment =
    | Literal(word: string)
    | Quoted(text: string)
    | Unquoted(input: string)

  function SegmentText(s: Segment): string {
    match s
    case Literal(w) => w
    case Quoted(t) => ShellEscape(t)
    case Unquoted(i) => Sanitize(i)
  }

  /** A literal and a quoted text are one word each; an unquoted text is cut at its blanks. */
  function SegmentTokens(s: Segment): seq<Token> {
    match s
    case Literal(w) => [Word(w)]
    case Quoted(t) => [Word(t)]
    case Unquoted(i) => Pieces(Sanitize(i), None)
  }

  predicate IsWord(w: string) {
    w != "" && forall i :: 0 <= i < |w| ==> !IsUnsafe(w[i]) && !IsBlank(w[i]) && w[i] != '\n'
  }

  predicate WellFormed(segments: seq<Segment>) {
    forall s :: s in segments && s.Literal? ==> IsWord(s.word)
  }

  function Texts(segments: seq<Segment>): (texts: seq<string>)
    ensures |texts| == |segments|
    ensures forall i :: 0 <= i < |segments| ==> texts[i] == SegmentText(segments[i])
  {
    seq(|segments|, i requires 0 <= i < |segments| => SegmentText(segments[i]))
  }

  /** A command: its segments with a blank between them. */
  function CommandText(segments: seq<Segment>): string {
    Join(Texts(segments), " ")
  }

  function CommandTokens(segments: seq<Segment>): seq<Token> {
    if segments == [] then [] else SegmentTokens(segments[0]) + CommandTokens(segments[1..])
  }

  lemma {:induction false} WordIsOnePiece(w: string, open: string)
    requires w == "" || IsWord(w)
    ensures Pieces(w, Some(open)) == [Word(open + w)]
  {
    if w == "" {
      assert open + "" == open;
    } else {
      WordIsOnePiece(w[1..], open + [w[0]]);
      assert open + [w[0]] + w[1..] == open + w;
    }
  }

  lemma SegmentReads(s: Segment, rest: string)
    requires Ends(rest) && (s.Literal? ==> IsWord(s.word))
    ensures Tokens(SegmentText(s) + rest, None, false) ==
            Then(SegmentTokens(s), Tokens(AfterBlank(rest), None, false))
  {
    match s
    case Literal(w) =>
      HarmlessTextReads(w, rest, None);
      WordIsOnePiece(w[1..], [w[0]]);
      assert [w[0]] + w[1..] == w;
      assert "" + [w[0]] == [w[0]];
    case Quoted(t) =>
      QuotedWordReads(t, rest, None);
      HarmlessTextReads("", rest, Some(t));
      assert "" + rest == rest && "" + t == t;
    case Unquoted(i) =>
      SanitizedIsHarmless(i);
      HarmlessTextReads(Sanitize(i), rest, None);
  }

  lemma LastSegmentReads(s: Segment)
    requires s.Literal? ==> IsWord(s.word)
    ensures Tokens(CommandText([s]), None, false) == Some(CommandTokens([s]))
  {
    SegmentReads(s, "");
    assert SegmentText(s) + "" == SegmentText(s);
    assert SegmentTokens(s) + [] == SegmentTokens(s);
  }

  lemma MoreSegmentsRead(s: Segment, text: string, tokens: seq<Token>)
    requires (s.Literal? ==> IsWord(s.word)) && Tokens(text, None, false) == Some(tokens)
    ensures Tokens(SegmentText(s) + " " + text, None, false) == Some(SegmentTokens(s) + tokens)
  {
    var rest := " " + text;
    SegmentReads(s, rest);
    assert AfterBlank(rest) == text;
    assert SegmentText(s) + rest == SegmentText(s) + " " + text;
  }

  /** A command made of segments is cut into the tokens of its segments, in order. */
  lemma {:induction false} CommandReads(segments: seq<Segment>)
    requires WellFormed(segments)
    ensures Tokens(CommandText(segments), None, false) == Some(CommandTokens(segments))
  {
    if |segments| == 1 {
      LastSegmentReads(segments[0]);
      assert segments == [segments[0]];
    } else if |segments| > 1 {
      CommandReads(segments[1..]);
      MoreSegmentsRead(segments[0], CommandText(segments[1..]), CommandTokens(segments[1..]));
      assert Texts(segments)[1..] == Texts(segments[1..]);
    }
  }

  // ---- The templates of github:pr:create and github:pr:comment ----

  /** The command template of `github:pr:create`. */
  function PrCreateCommand(repo: string, title: string, body: string, base: string, head: string): string {
    Join(["gh", "pr", "create", "--repo", Sanitize(repo), "--title", ShellEscape(title), "--body", ShellEscape(body),
          "--base", Sanitize(base), "--head", Sanitize(head)], " ")
  }

  function PrCreate(repo: string, title: string, body: string, base: string, head: string): seq<Segment> {
    [Literal("gh"), Literal("pr"), Literal("create"), Literal("--repo"), Unquoted(repo), Literal("--title"), Quoted(title),
     Literal("--body"), Quoted(body), Literal("--base"), Unquoted(base), Literal("--head"), Unquoted(head)]
  }

  /** The command template of `github:pr:comment`; `number` is the text of a JavaScript number. */
  function PrCommentCommand(number: string, repo: string, body: string): string {
    Join(["gh", "pr", "comment", number, "--repo", Sanitize(repo), "--body", ShellEscape(body)], " ")
  }

  function PrComment(number: string, repo: string, body: string): seq<Segment> {
    [Literal("gh"), Literal("pr"), Literal("comment"), Literal(number), Literal("--repo"), Unquoted(repo),
     Literal("--body"), Quoted(body)]
  }

  lemma PrCreateSegments(repo: string, title: string, body: string, base: string, head: string)
    ensures PrCreateCommand(repo, title, body, base, head) == CommandText(PrCreate(repo, title, body, base, head))
  {
    assert Texts(PrCreate(repo, title, body, base, head)) ==
           ["gh", "pr", "create", "--repo", Sanitize(repo), "--title", ShellEscape(title), "--body", ShellEscape(body),
            "--base", Sanitize(base), "--head", Sanitize(head)];
  }

  lemma PrCommentSegments(number: string, repo: string, body: string)
    ensures PrCommentCommand(number, repo, body) == CommandText(PrComment(number, repo, body))
  {
    assert Texts(PrComment(number, repo, body)) ==
           ["gh", "pr", "comment", number, "--repo", Sanitize(repo), "--body", ShellEscape(body)];
  }

  lemma TemplateWords()
    ensures IsWord("gh") && IsWord("pr") && IsWord("create") && IsWord("comment")
    ensures IsWord("--repo") && IsWord("--title") && IsWord("--body") && IsWord("--base") && IsWord("--head")
  {
  }

  lemma TokensOfCons(first: Segment, rest: seq<Segment>)
    ensures CommandTokens([first] + rest) == SegmentTokens(first) + CommandTokens(rest)
  {
    assert ([first] + rest)[1..] == rest;
  }

  lemma {:induction false} TokensOfConcat(a: seq<Segment>, b: seq<Segment>)
    ensures CommandTokens(a + b) == CommandTokens(a) + CommandTokens(b)
  {
    if a == [] {
      assert a + b == b;
    } else {
      TokensOfConcat(a[1..], b);
      assert a + b == [a[0]] + (a[1..] + b);
      TokensOfCons(a[0], a[1..] + b);
      Regroup(SegmentTokens(a[0]), CommandTokens(a[1..]), CommandTokens(b));
    }
  }

  lemma Regroup<T>(a: seq<T>, b: seq<T>, c: seq<T>)
    ensures a + (b + c) == (a + b) + c
  {
  }

  /** Literals and quoted texts are one word each. */
  function WordOf(s: Segment): Token
    requires !s.Unquoted?
  {
    if s.Literal? then Word(s.word) else Word(s.text)
  }

  lemma {:induction false} WordsRead(segments: seq<Segment>, words: seq<Token>)
    requires |words| == |segments|
    requires forall i :: 0 <= i < |segments| ==> !segments[i].Unquoted? && words[i] == WordOf(segments[i])
    ensures CommandTokens(segments) == words
  {
    if segments != [] {
      WordsRead(segments[1..], words[1..]);
    }
  }

  /** Words, one unquoted input, and what follows. */
  lemma TokensAround(segments: seq<Segment>, words: seq<Token>, input: string, rest: seq<Segment>)
    requires |words| == |segments|
    requires forall i :: 0 <= i < |segments| ==> !segments[i].Unquoted? && words[i] == WordOf(segments[i])
    ensures CommandTokens(segments + ([Unquoted(input)] + rest)) ==
            words + (SegmentTokens(Unquoted(input)) + CommandTokens(rest))
  {
    TokensOfConcat(segments, [Unquoted(input)] + rest);
    TokensOfCons(Unquoted(input), rest);
    WordsRead(segments, words);
  }

  lemma PrCreateTokens(repo: string, title: string, body: string, base: string, head: string)
    ensures CommandTokens(PrCreate(repo, title, body, base, head)) ==
            [Word("gh"), Word("pr"), Word("create"), Word("--repo")] + (SegmentTokens(Unquoted(repo))
              + ([Word("--title"), Word(title), Word("--body"), Word(body), Word("--base")]
                 + (SegmentTokens(Unquoted(base)) + ([Word("--head")] + (SegmentTokens(Unquoted(head)) + [])))))
  {
    var verb := [Literal("gh"), Literal("pr"), Literal("create"), Literal("--repo")];
    var text := [Literal("--title"), Quoted(title), Literal("--body"), Quoted(body), Literal("--base")];
    var last := [Literal("--head")] + ([Unquoted(head)] + []);
    TokensAround([Literal("--head")], [Word("--head")], head, []);
    TokensAround(text, [Word("--title"), Word(title), Word("--body"), Word(body), Word("--base")], base, last);
    TokensAround(verb, [Word("gh"), Word("pr"), Word("create"), Word("--repo")], repo, text + ([Unquoted(base)] + last));
    PrCreateParts(repo, title, body, base, head);
  }

  lemma PrCreateParts(repo: string, title: string, body: string, base: string, head: string)
    ensures PrCreate(repo, title, body, base, head) ==
            [Literal("gh"), Literal("pr"), Literal("create"), Literal("--repo")] + ([Unquoted(repo)]
              + ([Literal("--title"), Quoted(title), Literal("--body"), Quoted(body), Literal("--base")]
                 + ([Unquoted(base)] + ([Literal("--head")] + ([Unquoted(head)] + [])))))
  {
  }

  lemma PrCreateIsWellFormed(repo: string, title: string, body: string, base: string, head: string)
    ensures WellFormed(PrCreate(repo, title, body, base, head))
  {
    TemplateWords();
  }

  /**
   * The tokens of the command text: the title and the body are one word each, after their flags;
   * the sanitized inputs are cut at their blanks and at their line ends.
   */
  lemma PrCreateReads(repo: string, title: string, body: string, base: string, head: string)
    ensures Tokens(PrCreateCommand(repo, title, body, base, head), None, false) ==
            Some([Word("gh"), Word("pr"), Word("create"), Word("--repo")] + (SegmentTokens(Unquoted(repo))
              + ([Word("--title"), Word(title), Word("--body"), Word(body), Word("--base")]
                 + (SegmentTokens(Unquoted(base)) + ([Word("--head")] + (SegmentTokens(Unquoted(head)) + []))))))
  {
    PrCreateSegments(repo, title, body, base, head);
    PrCreateIsWellFormed(repo, title, body, base, head);
    CommandReads(PrCreate(repo, title, body, base, head));
    PrCreateTokens(repo, title, body, base, head);
  }

  lemma PlainInputIsOneWord(input: string)
    requires IsWord(input) && Trimmed(input)
    ensures SegmentTokens(Unquoted(input)) == [Word(input)]
  {
    HarmlessTextIsKept(input);
    WordIsOnePiece(input[1..], [input[0]]);
    assert [input[0]] + input[1..] == input && "" + [input[0]] == [input[0]];
  }

  /** With ordinary repository and branch names the shell sees exactly the words of the template. */
  lemma PrCreateReadsAsWritten(repo: string, title: string, body: string, base: string, head: string)
    requires IsWord(repo) && Trimmed(repo) && IsWord(base) && Trimmed(base) && IsWord(head) && Trimmed(head)
    ensures Tokens(PrCreateCommand(repo, title, body, base, head), None, false) ==
            Some([Word("gh"), Word("pr"), Word("create"), Word("--repo"), Word(repo), Word("--title"), Word(title),
                  Word("--body"), Word(body), Word("--base"), Word(base), Word("--head"), Word(head)])
  {
    PrCreateReads(repo, title, body, base, head);
    PlainInputIsOneWord(repo);
    PlainInputIsOneWord(base);
    PlainInputIsOneWord(head);
    Flatten([Word("gh"), Word("pr"), Word("create"), Word("--repo")], Word(repo),
            [Word("--title"), Word(title), Word("--body"), Word(body), Word("--base")],
            Word(base), Word("--head"), Word(head));
  }

  lemma Flatten(verb: seq<Token>, repo: Token, text: seq<Token>, base: Token, flag: Token, head: Token)
    requires |verb| == 4 && |text| == 5
    ensures verb + ([repo] + (text + ([base] + ([flag] + ([head] + []))))) ==
            [verb[0], verb[1], verb[2], verb[3], repo, text[0], text[1], text[2], text[3], text[4], base, flag, head]
  {
  }

  lemma PrCommentTokens(number: string, repo: string, body: string)
    ensures CommandTokens(PrComment(number, repo, body)) ==
            [Word("gh"), Word("pr"), Word("comment"), Word(number), Word("--repo")]
            + (SegmentTokens(Unquoted(repo)) + [Word("--body"), Word(body)])
  {
    var verb := [Literal("gh"), Literal("pr"), Literal("comment"), Literal(number), Literal("--repo")];
    var text := [Literal("--body"), Quoted(body)];
    WordsRead(text, [Word("--body"), Word(body)]);
    TokensAround(verb, [Word("gh"), Word("pr"), Word("comment"), Word(number), Word("--repo")], repo, text);
    assert PrComment(number, repo, body) == verb + ([Unquoted(repo)] + text);
  }

  lemma PrCommentReads(number: string, repo: string, body: string)
    requires IsWord(number)
    ensures Tokens(PrCommentCommand(number, repo, body), None, false) ==
            Some([Word("gh"), Word("pr"), Word("comment"), Word(number), Word("--repo")]
                 + (SegmentTokens(Unquoted(repo)) + [Word("--body"), Word(body)]))
  {
    PrCommentSegments(number, repo, body);
    TemplateWords();
    CommandReads(PrComment(number, repo, body));
    PrCommentTokens(number, repo, body);
  }

  // ---- Which command gets the words ----

  /** The commands of a text: its words, cut at the line ends. */
  function Commands(tokens: seq<Token>): (commands: seq<seq<string>>)
    ensures |commands| > 0
  {
    if tokens == [] then [[]]
    else
      var rest := Commands(tokens[1..]);
      if tokens[0].NewLine? then [[]] + rest else [[tokens[0].text] + rest[0]] + rest[1..]
  }

  lemma {:induction false} OneCommand(tokens: seq<Token>)
    ensures |Commands(tokens)| == 1 <==> NewLine !in tokens
  {
    if tokens != [] {
      OneCommand(tokens[1..]);
    }
  }

  /** The words as far as the first line end. */
  function FirstLine(tokens: seq<Token>): seq<string> {
    if tokens == [] || tokens[0].NewLine? then [] else [tokens[0].text] + FirstLine(tokens[1..])
  }

  lemma {:induction false} FirstLineIsFirstCommand(tokens: seq<Token>)
    ensures Commands(tokens)[0] == FirstLine(tokens)
  {
    if tokens != [] {
      FirstLineIsFirstCommand(tokens[1..]);
    }
  }

  lemma {:induction false} FirstLineOn(a: seq<Token>, b: seq<Token>)
    ensures FirstLine(a + b) == FirstLine(a) + if NewLine in a then [] else FirstLine(b)
  {
    if a == [] {
      assert a + b == b;
    } else {
      assert (a + b)[0] == a[0] && (a + b)[1..] == a[1..] + b;
      if !a[0].NewLine? {
        FirstLineOn(a[1..], b);
        Regroup([a[0].text], FirstLine(a[1..]), if NewLine in a[1..] then [] else FirstLine(b));
      }
    }
  }

  /** The first command goes on into the following tokens exactly when there is no line end before them. */
  lemma FirstCommand(a: seq<Token>, b: seq<Token>)
    ensures Commands(a + b)[0] == Commands(a)[0] + if NewLine in a then [] else Commands(b)[0]
  {
    FirstLineIsFirstCommand(a);
    FirstLineIsFirstCommand(b);
    FirstLineIsFirstCommand(a + b);
    FirstLineOn(a, b);
  }

  lemma {:induction false} WordsAreOneCommand(tokens: seq<Token>, words: seq<string>)
    requires |tokens| == |words| && forall i :: 0 <= i < |tokens| ==> tokens[i] == Word(words[i])
    ensures NewLine !in tokens && Commands(tokens) == [words]
  {
    if tokens != [] {
      WordsAreOneCommand(tokens[1..], words[1..]);
      assert words == [words[0]] + words[1..];
    }
  }

  lemma {:induction false} PiecesKeepLineEnds(s: string, open: Option<string>)
    ensures NewLine in Pieces(s, open) <==> '\n' in s
  {
    if s != "" {
      var open' := if IsBlank(s[0]) || s[0] == '\n' then None else Extend(open, [s[0]]);
      PiecesKeepLineEnds(s[1..], open');
    }
  }

  /** The words that an unquoted input adds to the command it stands in. */
  function FirstLineWords(input: string): seq<string> {
    Commands(SegmentTokens(Unquoted(input)))[0]
  }

  /** The tokens around an unquoted input: its first line still belongs to the command before it. */
  lemma CommandAround(before: seq<Token>, words: seq<string>, input: string, after: seq<Token>)
    requires |before| == |words| && forall i :: 0 <= i < |before| ==> before[i] == Word(words[i])
    ensures Commands(before + (SegmentTokens(Unquoted(input)) + after))[0] ==
            words + (FirstLineWords(input) + if '\n' in Sanitize(input) then [] else Commands(after)[0])
    ensures NewLine in before + (SegmentTokens(Unquoted(input)) + after) <==>
            '\n' in Sanitize(input) || NewLine in after
  {
    WordsAreOneCommand(before, words);
    FirstCommand(before, SegmentTokens(Unquoted(input)) + after);
    FirstCommand(SegmentTokens(Unquoted(input)), after);
    PiecesKeepLineEnds(Sanitize(input), None);
  }

  const CREATE_WORDS := ["gh", "pr", "create", "--repo"]

  function TextWords(title: string, body: string): seq<string> {
    ["--title", title, "--body", body, "--base"]
  }

  function BranchTokens(base: string, head: string): seq<Token> {
    SegmentTokens(Unquoted(base)) + ([Word("--head")] + (SegmentTokens(Unquoted(head)) + []))
  }

  lemma BranchCommands(base: string, head: string)
    ensures NewLine in BranchTokens(base, head) <==> '\n' in Sanitize(base) || '\n' in Sanitize(head)
  {
    CommandAround([Word("--head")], ["--head"], head, []);
    CommandAround([], [], base, [Word("--head")] + (SegmentTokens(Unquoted(head)) + []));
    assert [] + BranchTokens(base, head) == BranchTokens(base, head);
  }

  /** The commands that the shell finds in the text of `gh pr create`. */
  function CreateCommands(repo: string, title: string, body: string, base: string, head: string): seq<seq<string>> {
    PrCreateReads(repo, title, body, base, head);
    Commands(Tokens(PrCreateCommand(repo, title, body, base, head), None, false).value)
  }

  /** The tokens from the title on. */
  function TailTokens(title: string, body: string, base: string, head: string): seq<Token> {
    [Word("--title"), Word(title), Word("--body"), Word(body), Word("--base")] + BranchTokens(base, head)
  }

  lemma TailCommands(title: string, body: string, base: string, head: string)
    ensures Commands(TailTokens(title, body, base, head))[0] ==
            TextWords(title, body) + Commands(BranchTokens(base, head))[0]
    ensures NewLine in TailTokens(title, body, base, head) <==> NewLine in BranchTokens(base, head)
  {
    var text := [Word("--title"), Word(title), Word("--body"), Word(body), Word("--base")];
    WordsAreOneCommand(text, TextWords(title, body));
    FirstCommand(text, BranchTokens(base, head));
  }

  lemma CommandsOfTemplate(repo: string, title: string, body: string, base: string, head: string)
    ensures CreateCommands(repo, title, body, base, head) ==
            Commands([Word("gh"), Word("pr"), Word("create"), Word("--repo")]
                     + (SegmentTokens(Unquoted(repo)) + TailTokens(title, body, base, head)))
  {
    PrCreateReads(repo, title, body, base, head);
  }

  /** The words of the first command, up to the base branch, and whether there is a second one. */
  lemma CreateCommandsAre(repo: string, title: string, body: string, base: string, head: string)
    ensures var commands, branches := CreateCommands(repo, title, body, base, head), Commands(BranchTokens(base, head));
      && commands[0] == CREATE_WORDS + (FirstLineWords(repo)
           + if '\n' in Sanitize(repo) then [] else TextWords(title, body) + branches[0])
      && (|commands| == 1 <==> '\n' !in Sanitize(repo) && |branches| == 1)
  {
    CommandsOfTemplate(repo, title, body, base, head);
    TemplateCommandsAre(repo, title, body, base, head);
  }

  lemma TemplateCommandsAre(repo: string, title: string, body: string, base: string, head: string)
    ensures var tokens := [Word("gh"), Word("pr"), Word("create"), Word("--repo")]
                          + (SegmentTokens(Unquoted(repo)) + TailTokens(title, body, base, head));
      && Commands(tokens)[0] == CREATE_WORDS + (FirstLineWords(repo)
           + if '\n' in Sanitize(repo) then [] else TextWords(title, body) + Commands(BranchTokens(base, head))[0])
      && (|Commands(tokens)| == 1 <==> '\n' !in Sanitize(repo) && |Commands(BranchTokens(base, head))| == 1)
  {
    var verb, rest := [Word("gh"), Word("pr"), Word("create"), Word("--repo")], TailTokens(title, body, base, head);
    TailCommands(title, body, base, head);
    CommandAround(verb, CREATE_WORDS, repo, rest);
    OneCommand(verb + (SegmentTokens(Unquoted(repo)) + rest));
    OneCommand(BranchTokens(base, head));
  }

  /**
   * The text is one command exactly when no line end is left inside the sanitized inputs: they
   * lose their outer blanks and unsafe characters, but not an inner line end.
   */
  lemma PrCreateIsOneCommandIff(repo: string, title: string, body: string, base: string, head: string)
    ensures |CreateCommands(repo, title, body, base, head)| == 1 <==>
            '\n' !in Sanitize(repo) && '\n' !in Sanitize(base) && '\n' !in Sanitize(head)
  {
    CreateCommandsAre(repo, title, body, base, head);
    BranchCommands(base, head);
    OneCommand(BranchTokens(base, head));
  }

  /** The words of the template as far as the base branch. */
  function UpToBase(repo: string, title: string, body: string): seq<string> {
    (CREATE_WORDS + FirstLineWords(repo)) + TextWords(title, body)
  }

  /**
   * The title and the body reach `gh` intact, as one word each after their flags, exactly when the
   * sanitized repository name holds no line end. Otherwise the command `gh` ends before them.
   */
  lemma PrCreateReachesGhIntact(repo: string, title: string, body: string, base: string, head: string)
    ensures UpToBase(repo, title, body) <= CreateCommands(repo, title, body, base, head)[0] <==> '\n' !in Sanitize(repo)
    ensures '\n' in Sanitize(repo) ==>
              CreateCommands(repo, title, body, base, head)[0] == CREATE_WORDS + FirstLineWords(repo)
  {
    CreateCommandsAre(repo, title, body, base, head);
    RegroupWords(CREATE_WORDS, FirstLineWords(repo), TextWords(title, body), Commands(BranchTokens(base, head))[0]);
  }

  lemma RegroupWords(a: seq<string>, b: seq<string>, c: seq<string>, d: seq<string>)
    ensures a + (b + (c + d)) == ((a + b) + c) + d
    ensures a + (b + []) == a + b
  {
  }

  function CommentWords(number: string): seq<string> {
    ["gh", "pr", "comment", number, "--repo"]
  }

  /** The words of the template. */
  function CommentCommand(number: string, repo: string, body: string): seq<string> {
    CommentWords(number) + (FirstLineWords(repo) + ["--body", body])
  }

  /** The commands that the shell finds in the text of `gh pr comment`. */
  function CommentCommands(number: string, repo: string, body: string): seq<seq<string>>
    requires IsWord(number)
  {
    PrCommentReads(number, repo, body);
    Commands(Tokens(PrCommentCommand(number, repo, body), None, false).value)
  }

  /** The comment body reaches `gh` intact exactly when the sanitized repository name holds no line end. */
  lemma PrCommentReachesGhIntact(number: string, repo: string, body: string)
    requires IsWord(number)
    ensures CommentCommands(number, repo, body)[0] ==
            CommentWords(number) + (FirstLineWords(repo) + if '\n' in Sanitize(repo) then [] else ["--body", body])
    ensures CommentCommands(number, repo, body) == [CommentCommand(number, repo, body)] <==> '\n' !in Sanitize(repo)
  {
    PrCommentReads(number, repo, body);
    var text := [Word("--body"), Word(body)];
    WordsAreOneCommand(text, ["--body", body]);
    var before := [Word("gh"), Word("pr"), Word("comment"), Word(number), Word("--repo")];
    CommandAround(before, CommentWords(number), repo, text);
    OneCommand(Tokens(PrCommentCommand(number, repo, body), None, false).value);
  }

  // ---- A repository name of two lines ----

  /** Two ordinary words on two lines: sanitizing leaves them, and they are cut at the line end. */
  lemma TwoLinesStay(a: string, b: string)
    requires IsWord(a) && Trimmed(a) && IsWord(b) && Trimmed(b)
    ensures Sanitize(a + "\n" + b) == a + "\n" + b
    ensures FirstLineWords(a + "\n" + b) == [a]
  {
    var input := a + "\n" + b;
    assert Harmless(input) && Trimmed(input);
    HarmlessTextIsKept(input);
    FirstLineOf(a, b);
    FirstCommand([Word(a), NewLine], Pieces(b, None));
    FirstLineIsFirstCommand([Word(a), NewLine]);
  }

  lemma FirstLineOf(a: string, b: string)
    requires IsWord(a)
    ensures Pieces(a + "\n" + b, None) == [Word(a), NewLine] + Pieces(b, None)
  {
    LineEndsWord(a[1..], b, [a[0]]);
    assert (a + "\n" + b)[1..] == a[1..] + ("\n" + b);
    assert [a[0]] + a[1..] == a && "" + [a[0]] == [a[0]];
  }

  lemma {:induction false} LineEndsWord(w: string, b: string, open: string)
    requires w == "" || IsWord(w)
    ensures Pieces(w + ("\n" + b), Some(open)) == [Word(open + w), NewLine] + Pieces(b, None)
  {
    var text := w + ("\n" + b);
    if w == "" {
      assert text[1..] == b && open + w == open;
    } else {
      assert text[1..] == w[1..] + ("\n" + b);
      LineEndsWord(w[1..], b, open + [w[0]]);
      assert open + [w[0]] + w[1..] == open + w;
    }
  }

  /** Such a name ends the command: `gh` gets neither the title nor the body. */
  lemma LineEndCutsTheCommand(a: string, b: string, title: string, body: string, base: string, head: string)
    requires IsWord(a) && Trimmed(a) && IsWord(b) && Trimmed(b)
    ensures CreateCommands(a + "\n" + b, title, body, base, head)[0] == ["gh", "pr", "create", "--repo", a]
    ensures |CreateCommands(a + "\n" + b, title, body, base, head)| > 1
  {
    var repo := a + "\n" + b;
    TwoLinesStay(a, b);
    assert repo[|a|] == '\n';
    PrCreateReachesGhIntact(repo, title, body, base, head);
    PrCreateIsOneCommandIff(repo, title, body, base, head);
    assert CREATE_WORDS + [a] == ["gh", "pr", "create", "--repo", a];
  }
}
