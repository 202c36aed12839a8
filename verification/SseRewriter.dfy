/**
 * The SSE reverse proxy (routes/mcp-proxy.ts): the read loop that buffers upstream text by
 * blank lines and rewrites the endpoint event.
 */
module SseRewriter {
  import opened Common
  import opened Strings

  const BLANK_LINE := "\n\n"

  // ---- The endpoint pattern /^data:\s*\/messages(\?sessionId=[^\s]+)?$/m ----

  /** The line terminators that `^` and `$` see in multiline mode. */
  predicate IsLineEnd(c: char) {
    c == '\n' || c == '\r' || c == '\U{2028}' || c == '\U{2029}'
  }

  lemma LineEnds(c: char)
    ensures IsLineEnd(c) <==> c in "\n\r\U{2028}\U{2029}"
  {
  }

  predicate LineStart(e: string, p: nat) {
    p == 0 || (p <= |e| && IsLineEnd(e[p - 1]))
  }

  predicate LineStop(e: string, p: nat) {
    p == |e| || (p < |e| && IsLineEnd(e[p]))
  }

  const DATA := "data:"
  const MESSAGES := "/messages"
  const SESSION := "?sessionId="

  /**
   * The pattern covers `e[p..end]`: the data field name, blanks up to `q`, the path, and
   * either nothing more or a session query. This is the meaning of the regular expression.
   */
  ghost predicate Matches(e: string, p: nat, q: nat, end: nat) {
    && LineStart(e, p)
    && OccursAt(e, DATA, p)
    && p + |DATA| <= q <= |e| && (forall i :: p + |DATA| <= i < q ==> IsSpace(e[i]))
    && OccursAt(e, MESSAGES, q)
    && IsQuery(e, q + |MESSAGES|, end)
    && LineStop(e, end)
  }

  ghost predicate IsQuery(e: string, m: nat, end: nat) {
    || end == m
    || (&& OccursAt(e, SESSION, m)
        && m + |SESSION| < end <= |e|
        && forall i :: m + |SESSION| <= i < end ==> !IsSpace(e[i]))
  }

  function SkipSpace(e: string, p: nat): (q: nat)
    requires p <= |e|
    ensures p <= q <= |e| && (forall i :: p <= i < q ==> IsSpace(e[i])) && (q < |e| ==> !IsSpace(e[q]))
    decreases |e| - p
  {
    if p < |e| && IsSpace(e[p]) then SkipSpace(e, p + 1) else p
  }

  function SkipWord(e: string, p: nat): (q: nat)
    requires p <= |e|
    ensures p <= q <= |e| && (forall i :: p <= i < q ==> !IsSpace(e[i])) && (q < |e| ==> IsSpace(e[q]))
    decreases |e| - p
  {
    if p < |e| && !IsSpace(e[p]) then SkipWord(e, p + 1) else p
  }

  /** Where the path starts and where the matched text ends. */
  datatype Match = Match(path: nat, end: nat)

  /** Matching at one position; every part of the pattern has only one way to match there. */
  function MatchAt(e: string, p: nat): (r: Option<Match>)
    ensures r.Some? ==> p < r.value.path < r.value.path + |MESSAGES| <= r.value.end <= |e|
  {
    if !LineStart(e, p) || !OccursAt(e, DATA, p) then None
    else
      var q := SkipSpace(e, p + |DATA|);
      if !OccursAt(e, MESSAGES, q) then None
      else
        var m := q + |MESSAGES|;
        if LineStop(e, m) then Some(Match(q, m))
        else if !OccursAt(e, SESSION, m) then None
        else
          var w := SkipWord(e, m + |SESSION|);
          if w > m + |SESSION| && LineStop(e, w) then Some(Match(q, w)) else None
  }

  lemma MatchAtSound(e: string, p: nat)
    requires MatchAt(e, p).Some?
    ensures Matches(e, p, MatchAt(e, p).value.path, MatchAt(e, p).value.end)
  {
  }

  lemma MatchAtComplete(e: string, p: nat, q: nat, end: nat)
    requires Matches(e, p, q, end)
    ensures MatchAt(e, p) == Some(Match(q, end))
  {
    PathIsFound(e, p, q, end);
    QueryIsUnique(e, q + |MESSAGES|, end);
  }

  lemma PathIsFound(e: string, p: nat, q: nat, end: nat)
    requires Matches(e, p, q, end)
    ensures SkipSpace(e, p + |DATA|) == q
  {
    OccursHead(e, MESSAGES, q);
    SkipSpaceReaches(e, p + |DATA|, q);
  }

  /** A query starts with a question mark, so the path does not end a line there, and takes all it can. */
  lemma QueryIsUnique(e: string, m: nat, end: nat)
    requires IsQuery(e, m, end) && LineStop(e, end)
    ensures LineStop(e, m) <==> end == m
    ensures end != m ==>
              && OccursAt(e, SESSION, m) && m + |SESSION| < end
              && SkipWord(e, m + |SESSION|) == end
  {
    if end != m {
      OccursHead(e, SESSION, m);
      SkipWordReaches(e, m + |SESSION|, end);
    }
  }

  lemma OccursHead(e: string, d: string, p: nat)
    requires d != "" && OccursAt(e, d, p)
    ensures p < |e| && e[p] == d[0]
  {
    assert e[p] == e[p..p + |d|][0];
  }

  lemma {:induction false} SkipSpaceReaches(e: string, p: nat, q: nat)
    requires p <= q < |e| && (forall i :: p <= i < q ==> IsSpace(e[i])) && !IsSpace(e[q])
    ensures SkipSpace(e, p) == q
    decreases q - p
  {
    if p < q {
      SkipSpaceReaches(e, p + 1, q);
    }
  }

  lemma {:induction false} SkipWordReaches(e: string, p: nat, q: nat)
    requires p <= q && (forall i :: p <= i < q && i < |e| ==> !IsSpace(e[i])) && LineStop(e, q)
    ensures SkipWord(e, p) == q
    decreases q - p
  {
    if p < q {
      SkipWordReaches(e, p + 1, q);
    }
  }

  /** First position from `p` on where the pattern matches. */
  function FirstMatch(e: string, p: nat): (r: Option<nat>)
    requires p <= |e|
    ensures r.Some? ==> p <= r.value <= |e| && MatchAt(e, r.value).Some?
    ensures forall k :: p <= k < (if r.Some? then r.value else |e| + 1) ==> MatchAt(e, k).None?
    decreases |e| - p
  {
    if MatchAt(e, p).Some? then Some(p)
    else if p == |e| then None
    else FirstMatch(e, p + 1)
  }

  /** The rewritten event: the first match, if there is one, points at the gate's own path. */
  function Rewrite(prefix: string, e: string): string {
    match FirstMatch(e, 0)
    case None => e
    case Some(p) =>
      var m := MatchAt(e, p).value;
      var qs := e[m.path + |MESSAGES|..m.end];
      e[..p] + "data: " + prefix + qs + e[m.end..]
  }

  function MessagesPath(instanceId: string): string {
    "/mcp/" + instanceId + "/messages"
  }

  /** Every event in which the pattern matches nowhere passes through unchanged. */
  lemma OtherEventsUnchanged(prefix: string, e: string)
    requires forall p, q, end :: !Matches(e, p, q, end)
    ensures Rewrite(prefix, e) == e
  {
    if FirstMatch(e, 0).Some? {
      MatchAtSound(e, FirstMatch(e, 0).value);
    }
  }

  /**
   * Otherwise only the text from the first matching line start up to the query is replaced:
   * everything before it, the query, and everything after it are kept.
   */
  lemma FirstMatchReplaced(prefix: string, e: string, p: nat, q: nat, end: nat)
    requires Matches(e, p, q, end)
    requires forall p': nat, q': nat, end': nat :: p' < p ==> !Matches(e, p', q', end')
    ensures Rewrite(prefix, e) == e[..p] + ("data: " + prefix) + e[q + |MESSAGES|..]
  {
    FirstMatchIs(e, p, q, end);
    RewriteIsSplice(prefix, e, p);
  }

  lemma RewriteIsSplice(prefix: string, e: string, p: nat)
    requires FirstMatch(e, 0) == Some(p)
    ensures Rewrite(prefix, e) == e[..p] + ("data: " + prefix) + e[MatchAt(e, p).value.path + |MESSAGES|..]
  {
    var m := MatchAt(e, p).value;
    KeepTail(e[..p] + "data: " + prefix, e, m.path + |MESSAGES|, m.end);
    PrefixTogether(e[..p], "data: ", prefix, e[m.path + |MESSAGES|..]);
  }

  lemma PrefixTogether(a: string, b: string, c: string, d: string)
    ensures a + b + c + d == a + (b + c) + d
  {
  }

  lemma KeepTail(kept: string, e: string, m: nat, end: nat)
    requires m <= end <= |e|
    ensures kept + e[m..end] + e[end..] == kept + e[m..]
  {
    assert e[m..] == e[m..end] + e[end..];
  }

  lemma FirstMatchIs(e: string, p: nat, q: nat, end: nat)
    requires Matches(e, p, q, end)
    requires forall p': nat, q': nat, end': nat :: p' < p ==> !Matches(e, p', q', end')
    ensures FirstMatch(e, 0) == Some(p) && MatchAt(e, p) == Some(Match(q, end))
  {
    MatchAtComplete(e, p, q, end);
    forall k | 0 <= k < p ensures MatchAt(e, k).None? {
      NoneFound(e, k);
    }
    FirstHit(seq(|e| + 1, k requires 0 <= k <= |e| => MatchAt(e, k).Some?), FirstMatch(e, 0), p);
  }

  lemma NoneFound(e: string, p: nat)
    requires forall q, end :: !Matches(e, p, q, end)
    ensures MatchAt(e, p).None?
  {
    if MatchAt(e, p).Some? {
      MatchAtSound(e, p);
    }
  }

  /** A search result that skips no hit is the first hit. */
  lemma FirstHit(hits: seq<bool>, r: Option<nat>, p: nat)
    requires r.Some? ==> r.value < |hits| && hits[r.value]
    requires forall k :: 0 <= k < |hits| && (r.Some? ==> k < r.value) ==> !hits[k]
    requires p < |hits| && hits[p] && forall k :: 0 <= k < p ==> !hits[k]
    ensures r == Some(p)
  {
  }

  /** The endpoint event of an MCP server: a line that names it, and a line with the path and the session. */
  function EndpointEvent(path: string, session: string): string {
    "event: endpoint\ndata: " + path + "?sessionId=" + session
  }

  lemma EndpointMatches(session: string)
    requires session != "" && forall c :: c in session ==> !IsSpace(c)
    ensures Matches(EndpointEvent("/messages", session), 16, 22, |EndpointEvent("/messages", session)|)
  {
    var head, e := "event: endpoint\ndata: /messages?sessionId=", EndpointEvent("/messages", session);
    assert e == head + session && |head| == 42;
    assert e[15] == '\n' && e[21] == ' ';
    assert e[16..21] == head[16..21] == DATA;
    assert e[22..31] == head[22..31] == MESSAGES;
    assert e[31..42] == head[31..42] == SESSION;
    forall i | 42 <= i < |e| ensures !IsSpace(e[i]) {
      assert e[i] == session[i - 42];
    }
  }

  lemma NoLineEndInside(k: nat)
    requires k < 15
    ensures !IsLineEnd("event: endpoint\n"[k])
  {
    assert "event: endpoint\n" == ['e', 'v', 'e', 'n', 't', ':', ' ', 'e', 'n', 'd', 'p', 'o', 'i', 'n', 't', '\n'];
  }

  lemma NoMatchBeforeTheEndpoint(session: string, p: nat, q: nat, end: nat)
    requires p < 16
    ensures !Matches(EndpointEvent("/messages", session), p, q, end)
  {
    var head, e := "event: endpoint\n", EndpointEvent("/messages", session);
    assert |head| == 16 && e[..16] == head;
    if p == 0 {
      assert e[0..|DATA|][0] == e[0] == head[0] == 'e';
    } else {
      assert e[p - 1] == head[p - 1];
      NoLineEndInside(p - 1);
    }
  }

  /** For every session the client is sent the gate's own path, with the session kept. */
  lemma EndpointPointsAtTheGate(instanceId: string, session: string)
    requires session != "" && forall c :: c in session ==> !IsSpace(c)
    ensures Rewrite(MessagesPath(instanceId), EndpointEvent("/messages", session)) ==
            EndpointEvent("/mcp/" + instanceId + "/messages", session)
  {
    EndpointIsReplaced(MessagesPath(instanceId), session);
    EndpointSplits(session);
    EndpointJoins(MessagesPath(instanceId), session);
  }

  lemma EndpointIsReplaced(prefix: string, session: string)
    requires session != "" && forall c :: c in session ==> !IsSpace(c)
    ensures var e := EndpointEvent("/messages", session);
            |e| > 31 && Rewrite(prefix, e) == e[..16] + ("data: " + prefix) + e[31..]
  {
    var e := EndpointEvent("/messages", session);
    EndpointMatches(session);
    forall p': nat, q': nat, end': nat | p' < 16 ensures !Matches(e, p', q', end') {
      NoMatchBeforeTheEndpoint(session, p', q', end');
    }
    FirstMatchReplaced(prefix, e, 16, 22, |e|);
  }

  lemma EndpointSplits(session: string)
    ensures var e := EndpointEvent("/messages", session);
            e[..16] == "event: endpoint\n" && e[31..] == "?sessionId=" + session
  {
    var head, rest := "event: endpoint\ndata: /messages", "?sessionId=" + session;
    assert EndpointEvent("/messages", session) == head + rest && |head| == 31;
    assert (head + rest)[..16] == head[..16];
  }

  lemma EndpointJoins(path: string, session: string)
    ensures "event: endpoint\n" + ("data: " + path) + ("?sessionId=" + session) == EndpointEvent(path, session)
  {
    assert "event: endpoint\n" + "data: " == "event: endpoint\ndata: ";
    Regroup("event: endpoint\n", "data: ", path, "?sessionId=", session);
  }

  lemma Regroup(a: string, b: string, c: string, d: string, e: string)
    ensures a + (b + c) + (d + e) == (a + b) + c + d + e
  {
  }

  // ---- The stream ----

  function NonEmpty(parts: seq<string>): seq<string> {
    if parts == [] then []
    else
      var earlier, last := NonEmpty(parts[..|parts| - 1]), parts[|parts| - 1];
      if last == "" then earlier else earlier + [last]
  }

  predicate EndsWithLineFeed(s: string) {
    |s| > 0 && s[|s| - 1] == '\n'
  }

  /** What `flushEvent` and the separator write for one event. */
  function Frame(prefix: string, e: string): string {
    var rewritten := Rewrite(prefix, e);
    rewritten + (if EndsWithLineFeed(rewritten) then "" else "\n") + "\n"
  }

  /** The flush closure of one connection. */
  function FlushEvent(instanceId: string): string -> string {
    e => Frame(MessagesPath(instanceId), e)
  }

  function Render(flush: string -> string, events: seq<string>): string {
    if events == [] then ""
    else Render(flush, events[..|events| - 1]) + flush(events[|events| - 1])
  }

  /** The events of a complete upstream text. */
  function Events(text: string): seq<string> {
    NonEmpty(Split(text, BLANK_LINE))
  }

  lemma NonEmptySnoc(parts: seq<string>, last: string)
    ensures NonEmpty(parts + [last]) == if last == "" then NonEmpty(parts) else NonEmpty(parts) + [last]
  {
    assert (parts + [last])[..|parts|] == parts;
  }

  lemma RenderSnoc(flush: string -> string, events: seq<string>, last: string)
    ensures Render(flush, events + [last]) == Render(flush, events) + flush(last)
  {
    assert (events + [last])[..|events|] == events;
  }

  /**
   * The read loop. Whatever the chunks, what is written depends only on their concatenation:
   * it is the frames of the events of one split of the whole text.
   */
  method Pump(instanceId: string, chunks: seq<string>) returns (written: string)
    ensures written == Render(FlushEvent(instanceId), Events(Concat(chunks)))
  {
    written := PumpWith(FlushEvent(instanceId), chunks);
  }

  method PumpWith(flush: string -> string, chunks: seq<string>) returns (written: string)
    ensures written == Render(flush, Events(Concat(chunks)))
  {
    var buf := "";
    written := "";
    ghost var done: seq<string> := [];
    assert Split("", BLANK_LINE) == [""];
    for n := 0 to |chunks|
      invariant Split(Concat(chunks[..n]), BLANK_LINE) == done + [buf]
      invariant written == Render(flush, NonEmpty(done))
    {
      ChunkStep(chunks, n, done, buf);
      buf := buf + chunks[n];
      var events := Split(buf, BLANK_LINE);
      buf := events[|events| - 1];
      events := events[..|events| - 1];
      written := WriteEvents(flush, events, written, done);
      done := done + events;
    }
    assert chunks[..|chunks|] == chunks;
    NonEmptySnoc(done, buf);
    if buf != "" {
      RenderSnoc(flush, NonEmpty(done), buf);
      written := written + flush(buf);
    }
  }

  /** One chunk: the finished parts stay, the buffer is split again together with the chunk. */
  lemma ChunkStep(chunks: seq<string>, n: nat, done: seq<string>, buf: string)
    requires n < |chunks|
    requires Split(Concat(chunks[..n]), BLANK_LINE) == done + [buf]
    ensures var parts := Split(buf + chunks[n], BLANK_LINE);
            Split(Concat(chunks[..n + 1]), BLANK_LINE) == (done + Init(parts)) + [Last(parts)]
  {
    var seen := Concat(chunks[..n]);
    assert chunks[..n + 1][..n] == chunks[..n];
    SplitResumes(seen, chunks[n], BLANK_LINE);
    InitAndLast(done, buf);
    RegroupLast(done, Split(buf + chunks[n], BLANK_LINE));
  }

  lemma WriteStep(flush: string -> string, done: seq<string>, events: seq<string>, i: nat)
    requires i < |events|
    ensures Render(flush, NonEmpty(done + events[..i + 1])) ==
            Render(flush, NonEmpty(done + events[..i])) + if events[i] == "" then "" else flush(events[i])
  {
    var before := done + events[..i];
    assert done + events[..i + 1] == before + [events[i]];
    NonEmptySnoc(before, events[i]);
    RenderSnoc(flush, NonEmpty(before), events[i]);
  }

  /** The inner loop over finished events; empty ones are skipped. */
  method WriteEvents(flush: string -> string, events: seq<string>, before: string, ghost done: seq<string>)
    returns (written: string)
    requires before == Render(flush, NonEmpty(done))
    ensures written == Render(flush, NonEmpty(done + events))
  {
    written := before;
    assert done + events[..0] == done;
    for i := 0 to |events|
      invariant written == Render(flush, NonEmpty(done + events[..i]))
    {
      WriteStep(flush, done, events, i);
      if events[i] == "" {
        continue;
      }
      written := written + flush(events[i]);
    }
    assert events[..|events|] == events;
  }

  // ---- What a downstream reader sees ----

  predicate NoBlankLine(s: string) {
    forall i :: 0 <= i < |s| - 1 ==> !(s[i] == '\n' && s[i + 1] == '\n')
  }

  /** Parts of a split hold no blank line, and only the last one can end in a line feed. */
  predicate CleanParts(parts: seq<string>) {
    && (forall i :: 0 <= i < |parts| ==> NoBlankLine(parts[i]))
    && (forall i :: 0 <= i < |parts| - 1 ==> !EndsWithLineFeed(parts[i]))
  }

  lemma BlankLineOccurs(s: string, i: nat)
    requires i + 1 < |s|
    ensures OccursAt(s, BLANK_LINE, i) <==> s[i] == '\n' && s[i + 1] == '\n'
  {
    assert s[i..i + 2] == [s[i], s[i + 1]];
  }

  lemma {:induction false} SplitIsClean(s: string)
    ensures CleanParts(Split(s, BLANK_LINE))
    decreases |s|
  {
    IndexOfIsFirst(s, BLANK_LINE);
    forall i: nat | i + 1 < |s|
      ensures OccursAt(s, BLANK_LINE, i) <==> s[i] == '\n' && s[i + 1] == '\n'
    {
      BlankLineOccurs(s, i);
    }
    var i := IndexOf(s, BLANK_LINE);
    if i.Some? {
      assert i.value + 1 < |s| && s[i.value] == '\n';
      SplitIsClean(s[i.value + 2..]);
      FirstPartIsClean(s, i.value);
    }
  }

  lemma FirstPartIsClean(s: string, i: nat)
    requires i + 1 < |s| && s[i] == '\n'
    requires forall k: nat :: k < i ==> !(s[k] == '\n' && s[k + 1] == '\n')
    ensures NoBlankLine(s[..i]) && !EndsWithLineFeed(s[..i])
  {
  }

  /** An event without a trailing line feed, as its frame carries it. */
  function Trim(s: string): string {
    if EndsWithLineFeed(s) then s[..|s| - 1] else s
  }

  lemma FrameIsTrimmed(prefix: string, e: string)
    ensures Frame(prefix, e) == Trim(Rewrite(prefix, e)) + BLANK_LINE
  {
    var r := Rewrite(prefix, e);
    if EndsWithLineFeed(r) {
      assert r == r[..|r| - 1] + "\n";
    }
  }

  /** Splitting after a frame gives the frame's event and an empty rest. */
  lemma SplitOneFrame(t: string)
    requires NoBlankLine(t) && !EndsWithLineFeed(t)
    ensures Split(t + BLANK_LINE, BLANK_LINE) == [t, ""]
  {
    var s := t + BLANK_LINE;
    IndexOfIsFirst(s, BLANK_LINE);
    assert s[|t|..|t| + 2] == BLANK_LINE;
    assert OccursAt(s, BLANK_LINE, |t|);
    var i := IndexOf(s, BLANK_LINE).value;
    BlankLineOccurs(s, i);
    assert i == |t|;
    assert s[..i] == t && s[i + |BLANK_LINE|..] == "";
    assert Split("", BLANK_LINE) == [""];
  }

  /** Rewriting inserts no line feed, so it keeps events clean. */
  lemma RewriteKeepsClean(instanceId: string, e: string)
    requires '\n' !in instanceId && NoBlankLine(e)
    ensures var r := Rewrite(MessagesPath(instanceId), e);
            NoBlankLine(r) && (EndsWithLineFeed(r) <==> EndsWithLineFeed(e)) && (r == "" <==> e == "")
  {
    var p := FirstMatch(e, 0);
    if p.Some? {
      RewriteIsSplice(MessagesPath(instanceId), e, p.value);
      SplicedIsClean(instanceId, e, p.value, Rewrite(MessagesPath(instanceId), e));
    }
  }

  lemma SplicedIsClean(instanceId: string, e: string, p: nat, r: string)
    requires '\n' !in instanceId && NoBlankLine(e) && MatchAt(e, p).Some?
    requires r == e[..p] + ("data: " + MessagesPath(instanceId)) + e[MatchAt(e, p).value.path + |MESSAGES|..]
    ensures NoBlankLine(r) && r != "" && (EndsWithLineFeed(r) <==> EndsWithLineFeed(e))
  {
    var path := MatchAt(e, p).value.path;
    MatchAtSound(e, p);
    OccursTail(e, MESSAGES, path);
    EndpointLineIsClean(instanceId);
    SpliceIsClean(e, p, "data: " + MessagesPath(instanceId), path + |MESSAGES|, r);
  }

  lemma OccursTail(e: string, d: string, p: nat)
    requires d != "" && OccursAt(e, d, p)
    ensures e[p + |d| - 1] == d[|d| - 1]
  {
    assert e[p..p + |d|][|d| - 1] == e[p + |d| - 1];
  }

  lemma EndpointLineIsClean(instanceId: string)
    requires '\n' !in instanceId
    ensures var line := "data: " + MessagesPath(instanceId); '\n' !in line && line != ""
  {
    assert '\n' !in MessagesPath(instanceId);
  }

  lemma SpliceIsClean(e: string, p: nat, middle: string, m: nat, r: string)
    requires p < m <= |e| && NoBlankLine(e) && e[m - 1] != '\n'
    requires '\n' !in middle && middle != "" && r == e[..p] + middle + e[m..]
    ensures NoBlankLine(r) && r != "" && (EndsWithLineFeed(r) <==> EndsWithLineFeed(e))
  {
    forall i | 0 <= i < |r| - 1
      ensures !(r[i] == '\n' && r[i + 1] == '\n')
    {
      if i + 1 < p {
        assert r[i] == e[i] && r[i + 1] == e[i + 1];
      } else if i >= p + |middle| {
        var k := i - p - |middle| + m;
        assert r[i] == e[k] && r[i + 1] == e[k + 1];
      } else if i + 1 < p + |middle| {
        assert r[i + 1] == middle[i + 1 - p];
      } else {
        assert r[i] == middle[i - p];
      }
    }
  }

  /** The events as a downstream reader of blank-line separated text gets them. */
  function Delivered(instanceId: string, events: seq<string>): (received: seq<string>)
    ensures |received| == |events|
  {
    if events == [] then []
    else Delivered(instanceId, events[..|events| - 1])
         + [Trim(Rewrite(MessagesPath(instanceId), events[|events| - 1]))]
  }

  lemma {:induction false} RenderedTextSplitsBack(instanceId: string, events: seq<string>)
    requires '\n' !in instanceId
    requires forall e :: e in events ==> NoBlankLine(e)
    ensures Split(Render(FlushEvent(instanceId), events), BLANK_LINE) == Delivered(instanceId, events) + [""]
  {
    if events == [] {
      assert Split("", BLANK_LINE) == [""];
    } else {
      var init, e := events[..|events| - 1], events[|events| - 1];
      RenderedTextSplitsBack(instanceId, init);
      var before := Render(FlushEvent(instanceId), init);
      var t := Trim(Rewrite(MessagesPath(instanceId), e));
      RewriteKeepsClean(instanceId, e);
      TrimIsClean(Rewrite(MessagesPath(instanceId), e));
      FrameIsTrimmed(MessagesPath(instanceId), e);
      SplitOneFrame(t);
      SplitResumes(before, t + BLANK_LINE, BLANK_LINE);
      InitAndLast(Delivered(instanceId, init), "");
      assert "" + (t + BLANK_LINE) == t + BLANK_LINE;
      assert Delivered(instanceId, init) + [t, ""] == (Delivered(instanceId, init) + [t]) + [""];
    }
  }

  lemma TrimIsClean(s: string)
    requires NoBlankLine(s)
    ensures NoBlankLine(Trim(s)) && !EndsWithLineFeed(Trim(s))
  {
  }

  lemma NonEmptyElements(parts: seq<string>)
    requires CleanParts(parts)
    ensures CleanParts(NonEmpty(parts))
  {
    NonEmptyOf(parts);
    if parts != [] {
      var init := parts[..|parts| - 1];
      NonEmptyOf(init);
      assert forall e :: e in init ==> !EndsWithLineFeed(e);
    }
  }

  lemma {:induction false} NonEmptyOf(parts: seq<string>)
    ensures forall e :: e in NonEmpty(parts) ==> e in parts && e != ""
  {
    if parts != [] {
      NonEmptyOf(parts[..|parts| - 1]);
    }
  }

  lemma {:induction false} DeliveredAt(instanceId: string, events: seq<string>, i: nat)
    requires i < |events|
    ensures Delivered(instanceId, events)[i] == Trim(Rewrite(MessagesPath(instanceId), events[i]))
  {
    if i < |events| - 1 {
      DeliveredAt(instanceId, events[..|events| - 1], i);
    }
  }

  /**
   * End to end: a reader that splits the written text at blank lines gets one event for every
   * event of the upstream text, in order, each one rewritten and nothing else, except that the
   * final event loses one trailing line feed if the upstream text stopped after it.
   */
  lemma DownstreamSeesEveryEvent(instanceId: string, text: string)
    requires '\n' !in instanceId
    ensures var events := Events(text);
            var received := Init(Split(Render(FlushEvent(instanceId), events), BLANK_LINE));
            && |received| == |events|
            && (forall i :: 0 <= i < |events| - 1 ==> received[i] == Rewrite(MessagesPath(instanceId), events[i]))
            && (events != [] ==> Last(received) == Trim(Rewrite(MessagesPath(instanceId), Last(events))))
  {
    var events := Events(text);
    SplitIsClean(text);
    NonEmptyElements(Split(text, BLANK_LINE));
    RenderedTextSplitsBack(instanceId, events);
    InitAndLast(Delivered(instanceId, events), "");
    forall i | 0 <= i < |events|
      ensures Delivered(instanceId, events)[i] == Trim(Rewrite(MessagesPath(instanceId), events[i]))
      ensures i < |events| - 1 ==> Delivered(instanceId, events)[i] == Rewrite(MessagesPath(instanceId), events[i])
    {
      DeliveredAt(instanceId, events, i);
      RewriteKeepsClean(instanceId, events[i]);
    }
  }
}
