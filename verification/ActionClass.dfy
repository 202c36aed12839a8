/** Action-class patterns of capability tokens (engine/capability.ts `actionClassMatches`). */
module ActionClass {
  import opened Strings

  function ActionClassMatches(pattern: string, requested: string): bool {
    if pattern == requested then true
    else if pattern == "*" then true
    else if |pattern| >= 2 && pattern[|pattern| - 2..] == ":*" then
      var prefix := pattern[..|pattern| - 1];
      prefix <= requested
    else false
  }

  /** A pattern covers itself; a star covers everything; `x:*` covers what starts with `x:`. */
  lemma CoveringMeaning(pattern: string, requested: string)
    ensures ActionClassMatches(pattern, requested) <==>
              || pattern == requested || pattern == "*"
              || exists stem :: pattern == stem + ":*" && stem + ":" <= requested
  {
    if |pattern| >= 2 && pattern[|pattern| - 2..] == ":*" {
      var stem := pattern[..|pattern| - 2];
      assert pattern == stem + ":*" && pattern[..|pattern| - 1] == stem + ":";
    }
  }

  /** The colon-separated segments of an action class. */
  function Segments(action: string): seq<string> {
    Split(action, ":")
  }

  /** Covering is a preorder, so a token can be narrowed in stages. */
  lemma CoveringIsAPreorder(p: string, q: string, r: string)
    ensures ActionClassMatches(p, p)
    ensures ActionClassMatches(p, q) && ActionClassMatches(q, r) ==> ActionClassMatches(p, r)
  {
    if ActionClassMatches(p, q) && ActionClassMatches(q, r) && p != q && q != r && p != "*" {
      var prefix := p[..|p| - 1];
      assert prefix <= q && prefix[|prefix| - 1] == ':';
      assert q != "*";
      var prefix' := q[..|q| - 1];
      assert q[|q| - 1] == '*' by {
        assert q[|q| - 2..][1] == q[|q| - 1];
      }
      assert q[|prefix| - 1] == ':';
      assert prefix <= prefix' <= r;
    }
  }

  lemma ExtensionStartsWith(x: string, requested: string)
    requires Segments(x) < Segments(requested)
    ensures x + ":" <= requested
  {
    var rest := Segments(requested)[|Segments(x)|..];
    assert Segments(requested) == Segments(x) + rest;
    JoinOfConcat(Segments(x), rest, ":");
    JoinOfSplit(x, ":");
    JoinOfSplit(requested, ":");
  }

  /** A wildcard matches exactly the actions whose segments strictly extend those before it. */
  lemma WildcardIsSegmentExtension(x: string, requested: string)
    ensures ActionClassMatches(x + ":*", requested) <==> Segments(x) < Segments(requested)
  {
    var pattern := x + ":*";
    assert pattern[|pattern| - 2..] == ":*";
    assert pattern[..|pattern| - 1] == x + ":";
    if Segments(x) < Segments(requested) {
      ExtensionStartsWith(x, requested);
    }
    if ActionClassMatches(pattern, requested) {
      var t := requested[|x| + 1..];
      assert requested == x + ":" + t;
      SplitAcross(x, t, ':');
    }
  }

  /** A pattern covers more than itself only as "*" or by such a wildcard. */
  lemma OnlyWildcardsCoverMore(pattern: string, requested: string)
    requires ActionClassMatches(pattern, requested) && pattern != requested
    ensures pattern == "*" || exists x :: pattern == x + ":*"
  {
    if pattern != "*" {
      assert pattern == pattern[..|pattern| - 2] + ":*";
    }
  }
}
