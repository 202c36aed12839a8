/** The JavaScript string operations the text code uses. */
module Strings {
  import opened Common

  /** The characters of the JavaScript class `\s`. */
  predicate IsSpace(c: char) {
    || '\t' <= c <= '\r' || c == ' '
    || c == '\U{00A0}' || c == '\U{1680}' || '\U{2000}' <= c <= '\U{200A}'
    || c == '\U{2028}' || c == '\U{2029}' || c == '\U{202F}' || c == '\U{205F}'
    || c == '\U{3000}' || c == '\U{FEFF}'
  }

  /** The white space of ECMAScript, which `\s` and `trim` go by. */
  lemma Spaces(c: char)
    ensures IsSpace(c) <==>
              || c in " \t\n\r\U{000B}\U{000C}\U{00A0}\U{1680}\U{2028}\U{2029}\U{202F}\U{205F}\U{3000}\U{FEFF}"
              || 0x2000 <= c as int <= 0x200A
  {
  }

  predicate OccursAt(s: string, d: string, p: nat) {
    p + |d| <= |s| && s[p..p + |d|] == d
  }

  lemma OccursInTail(s: string, d: string, p: nat)
    requires s != "" && p > 0
    ensures OccursAt(s, d, p) <==> OccursAt(s[1..], d, p - 1)
  {
    if p + |d| <= |s| {
      assert s[p..p + |d|] == s[1..][p - 1..p - 1 + |d|];
    }
  }

  lemma OccursInPrefix(a: string, b: string, d: string, p: nat)
    requires p + |d| <= |a|
    ensures OccursAt(a + b, d, p) <==> OccursAt(a, d, p)
  {
    assert (a + b)[p..p + |d|] == a[p..p + |d|];
  }

  /** Position of the first occurrence of `d`. */
  function IndexOf(s: string, d: string): (r: Option<nat>) {
    if |s| < |d| then None
    else if d <= s then Some(0)
    else if s == "" then None
    else
      var rest := IndexOf(s[1..], d);
      if rest.Some? then Some(1 + rest.value) else None
  }

  lemma {:induction false} IndexOfIsFirst(s: string, d: string)
    ensures var r := IndexOf(s, d);
            && (r.Some? ==> OccursAt(s, d, r.value))
            && forall p: nat :: OccursAt(s, d, p) ==> r.Some? && r.value <= p
  {
    if |d| <= |s| && !(d <= s) && s != "" {
      IndexOfIsFirst(s[1..], d);
      forall p: nat | p > 0
        ensures OccursAt(s, d, p) <==> OccursAt(s[1..], d, p - 1)
      {
        OccursInTail(s, d, p);
      }
      assert !OccursAt(s, d, 0);
    } else if d <= s {
      assert s[0..|d|] == s[..|d|];
    }
  }

  /** `s.split(d)` for a non-empty delimiter. */
  function Split(s: string, d: string): (parts: seq<string>)
    requires d != ""
    ensures |parts| > 0
    decreases |s|
  {
    IndexOfIsFirst(s, d);
    var i := IndexOf(s, d);
    if i.None? then [s] else [s[..i.value]] + Split(s[i.value + |d|..], d)
  }

  function Init(parts: seq<string>): seq<string>
    requires parts != []
  {
    parts[..|parts| - 1]
  }

  function Last(parts: seq<string>): string
    requires parts != []
  {
    parts[|parts| - 1]
  }

  /** `parts.join(d)`. */
  function Join(parts: seq<string>, d: string): string {
    if parts == [] then ""
    else if |parts| == 1 then parts[0]
    else parts[0] + d + Join(parts[1..], d)
  }

  function Concat(parts: seq<string>): string {
    if parts == [] then "" else Concat(parts[..|parts| - 1]) + parts[|parts| - 1]
  }

  lemma IndexOfInPrefix(a: string, b: string, d: string)
    requires d != "" && IndexOf(a, d).Some?
    ensures IndexOf(a + b, d) == IndexOf(a, d)
  {
    IndexOfIsFirst(a, d);
    IndexOfIsFirst(a + b, d);
    OccursInPrefix(a, b, d, IndexOf(a, d).value);
    OccursInPrefix(a, b, d, IndexOf(a + b, d).value);
  }

  lemma FirstPartStays(a: string, b: string, d: string)
    requires d != "" && IndexOf(a, d).Some? && IndexOf(a, d).value + |d| <= |a|
    ensures var i := IndexOf(a, d).value;
            Split(a + b, d) == [a[..i]] + Split(a[i + |d|..] + b, d)
  {
    IndexOfInPrefix(a, b, d);
    var i := IndexOf(a, d).value;
    assert (a + b)[i + |d|..] == a[i + |d|..] + b && (a + b)[..i] == a[..i];
  }

  /**
   * Splitting can be resumed: the finished parts of a prefix stay, and only its last part is
   * split again together with what follows, even when a delimiter straddles the cut.
   */
  lemma {:induction false} SplitResumes(a: string, b: string, d: string)
    requires d != ""
    ensures Split(a + b, d) == Init(Split(a, d)) + Split(Last(Split(a, d)) + b, d)
    decreases |a|
  {
    IndexOfIsFirst(a, d);
    if IndexOf(a, d).None? {
      assert Split(a, d) == [a];
      assert Init([a]) == [];
    } else {
      var i := IndexOf(a, d).value;
      var first, rest := a[..i], a[i + |d|..];
      FirstPartStays(a, b, d);
      SplitResumes(rest, b, d);
      var parts := Split(rest, d);
      PrependToInit(first, parts, Split(Last(parts) + b, d));
    }
  }

  lemma PrependToInit(first: string, parts: seq<string>, tail: seq<string>)
    requires parts != []
    ensures [first] + (Init(parts) + tail) == Init([first] + parts) + tail
    ensures Last([first] + parts) == Last(parts)
  {
    assert Init([first] + parts) == [first] + Init(parts);
  }

  lemma InitAndLast(done: seq<string>, buf: string)
    ensures Init(done + [buf]) == done && Last(done + [buf]) == buf
  {
  }

  lemma RegroupLast(done: seq<string>, parts: seq<string>)
    requires parts != []
    ensures done + parts == (done + Init(parts)) + [Last(parts)]
  {
  }

  /** Joining what was split gives the text back. */
  lemma {:induction false} JoinOfSplit(s: string, d: string)
    requires d != ""
    ensures Join(Split(s, d), d) == s
    decreases |s|
  {
    IndexOfIsFirst(s, d);
    var i := IndexOf(s, d);
    if i.Some? {
      var rest := s[i.value + |d|..];
      JoinOfSplit(rest, d);
      assert Split(s, d)[1..] == Split(rest, d);
      assert s == s[..i.value] + d + rest;
    }
  }

  lemma {:induction false} JoinOfConcat(a: seq<string>, b: seq<string>, d: string)
    requires a != [] && b != []
    ensures Join(a + b, d) == Join(a, d) + d + Join(b, d)
  {
    assert (a + b)[1..] == a[1..] + b;
    if |a| > 1 {
      JoinOfConcat(a[1..], b, d);
      var tail := Join(a[1..], d);
      assert a[0] + d + (tail + d + Join(b, d)) == (a[0] + d + tail) + d + Join(b, d);
    }
  }

  lemma SplitAtFirst(x: string, t: string, c: char)
    requires IndexOf(x, [c]).None?
    ensures Split(x + ([c] + t), [c]) == [x] + Split(t, [c])
  {
    var s := x + ([c] + t);
    IndexOfIsFirst(s, [c]);
    IndexOfIsFirst(x, [c]);
    assert s[|x|..|x| + 1] == [c];
    assert OccursAt(s, [c], |x|);
    forall i: nat | i < |x| ensures !OccursAt(s, [c], i) {
      OccursInPrefix(x, [c] + t, [c], i);
    }
    assert IndexOf(s, [c]) == Some(|x|);
    assert s[..|x|] == x && s[|x| + 1..] == t;
  }

  /** A one-character delimiter between two texts separates their parts. */
  lemma SplitAcross(x: string, t: string, c: char)
    ensures Split(x + [c] + t, [c]) == Split(x, [c]) + Split(t, [c])
  {
    var d := [c];
    var parts, more := Split(x, d), Split(t, d);
    LastPartHasNone(x, c);
    calc {
      Split(x + d + t, d);
      { assert x + d + t == x + (d + t); SplitResumes(x, d + t, d); }
      Init(parts) + Split(Last(parts) + (d + t), d);
      { SplitAtFirst(Last(parts), t, c); }
      Init(parts) + ([Last(parts)] + more);
      { AppendToParts(parts, more); }
      parts + more;
    }
  }

  lemma AppendToParts(parts: seq<string>, more: seq<string>)
    requires parts != []
    ensures Init(parts) + ([Last(parts)] + more) == parts + more
  {
  }

  lemma {:induction false} LastPartHasNone(x: string, c: char)
    ensures IndexOf(Last(Split(x, [c])), [c]).None?
    decreases |x|
  {
    IndexOfIsFirst(x, [c]);
    var i := IndexOf(x, [c]);
    if i.Some? {
      var rest := x[i.value + 1..];
      LastPartHasNone(rest, c);
      assert Last(Split(x, [c])) == Last(Split(rest, [c]));
    }
  }
}
