/**
 * Overlapping rule creations (routes/policies.ts): a request reads the largest priority of its
 * scope and inserts its rule later.
 */
module PolicyRace {
  import opened Common
  import opened Policy

  /** A request that has its priority, and how many rules its scope had when it read it. */
  datatype Creation = Creation(rule: Rule, seen: nat)

  /** `disturbed` is history: a rule was inserted after another one of its scope had come in since its read. */
  datatype State = State(table: seq<Rule>, creations: map<nat, Creation>, disturbed: bool)

  datatype Step =
    | Read(c: nat, rule: Rule)
    | Insert(c: nat)
    | Fail(c: nat)

  function Count(table: seq<Rule>, scope: Option<string>): nat {
    if table == [] then 0
    else Count(table[..|table| - 1], scope) + if table[|table| - 1].instanceId == scope then 1 else 0
  }

  /** The largest priority number of the scope, or 0 when it has no rule. */
  function Top(table: seq<Rule>, scope: Option<string>): int {
    if table == [] then 0
    else
      var init, last := table[..|table| - 1], table[|table| - 1];
      if last.instanceId != scope then Top(init, scope)
      else if Count(init, scope) == 0 then last.priority
      else Max(Top(init, scope), last.priority)
  }

  predicate Enabled(s: State, step: Step) {
    match step
    case Read(c, _) => c !in s.creations
    case Insert(c) => c in s.creations
    case Fail(c) => c in s.creations
  }

  function Apply(s: State, step: Step): State
    requires Enabled(s, step)
  {
    match step
    case Read(c, rule) =>
      var scope := rule.instanceId;
      s.(creations := s.creations[c := Creation(rule.(priority := Top(s.table, scope) + 10), Count(s.table, scope))])
    case Insert(c) =>
      var n := s.creations[c];
      State(s.table + [n.rule], s.creations - {c}, s.disturbed || n.seen != Count(s.table, n.rule.instanceId))
    case Fail(c) => s.(creations := s.creations - {c})
  }

  ghost predicate Next(s: State, s': State) {
    exists step :: Enabled(s, step) && Apply(s, step) == s'
  }

  ghost predicate Stepped(ss: seq<State>, i: int)
    requires 0 <= i < |ss| - 1
  {
    Next(ss[i], ss[i + 1])
  }

  /** Any table with distinct priorities to begin with, and no request under way. */
  predicate Start(s: State) {
    PrioritiesDistinct(s.table) && s.creations == map[] && !s.disturbed
  }

  ghost predicate History(ss: seq<State>) {
    && |ss| > 0 && Start(ss[0])
    && forall i {:trigger Stepped(ss, i)} :: 0 <= i < |ss| - 1 ==> Stepped(ss, i)
  }

  lemma StepInto(ss: seq<State>, i: nat) returns (step: Step)
    requires History(ss) && 0 < i < |ss|
    ensures Enabled(ss[i - 1], step) && Apply(ss[i - 1], step) == ss[i]
  {
    assert Stepped(ss, i - 1) && Next(ss[i - 1], ss[i]);
    step :| Enabled(ss[i - 1], step) && Apply(ss[i - 1], step) == ss[i];
  }

  lemma Extend(ss: seq<State>, step: Step) returns (ss': seq<State>)
    requires History(ss) && Enabled(ss[|ss| - 1], step)
    ensures History(ss') && |ss'| == |ss| + 1 && ss'[|ss|] == Apply(ss[|ss| - 1], step)
  {
    ss' := ss + [Apply(ss[|ss| - 1], step)];
    forall i | 0 <= i < |ss'| - 1 ensures Stepped(ss', i) {
      assert i < |ss| - 1 ==> Stepped(ss, i);
    }
  }

  // ---- The table a scope is numbered in ----

  lemma TopAfter(table: seq<Rule>, n: Rule, scope: Option<string>)
    ensures Count(table + [n], scope) == Count(table, scope) + if n.instanceId == scope then 1 else 0
    ensures n.instanceId != scope ==> Top(table + [n], scope) == Top(table, scope)
    ensures n.instanceId == scope ==>
              Top(table + [n], scope) ==
              if Count(table, scope) == 0 then n.priority else Max(Top(table, scope), n.priority)
  {
    assert (table + [n])[..|table|] == table;
  }

  lemma {:induction false} TopIsAbove(table: seq<Rule>, r: Rule)
    requires r in table
    ensures Count(table, r.instanceId) > 0 && r.priority <= Top(table, r.instanceId)
  {
    var init := table[..|table| - 1];
    if r in init {
      TopIsAbove(init, r);
    }
  }

  lemma {:induction false} TopIsReached(table: seq<Rule>, scope: Option<string>) returns (r: Rule)
    requires Count(table, scope) > 0
    ensures r in table && r.instanceId == scope && r.priority == Top(table, scope)
  {
    var init, last := table[..|table| - 1], table[|table| - 1];
    r := last;
    if Count(init, scope) > 0 {
      var other := TopIsReached(init, scope);
      if last.instanceId != scope || last.priority < other.priority {
        r := other;
      }
    }
  }

  lemma {:induction false} NoRuleNoTop(table: seq<Rule>, scope: Option<string>)
    requires Count(table, scope) == 0
    ensures Top(table, scope) == 0
  {
    if table != [] {
      NoRuleNoTop(table[..|table| - 1], scope);
    }
  }

  /** An empty scope counts from 0, any other from its last rule. */
  lemma TopIsOfLast(table: seq<Rule>, scope: Option<string>)
    ensures if exists r :: r in table && r.instanceId == scope
            then exists r :: IsLast(table, scope, r) && Top(table, scope) == r.priority
            else Top(table, scope) == 0
  {
    forall r | r in table ensures Count(table, r.instanceId) > 0 && r.priority <= Top(table, r.instanceId) {
      TopIsAbove(table, r);
    }
    if Count(table, scope) > 0 {
      var last := TopIsReached(table, scope);
      assert IsLast(table, scope, last);
    } else {
      NoRuleNoTop(table, scope);
    }
  }

  /** A creation without interruption is a read and an insert, and assigns what `PolicyTable.Create` does. */
  lemma UninterruptedCreation(s: State, c: nat, rule: Rule)
    requires c !in s.creations
    ensures var s' := Apply(s, Read(c, rule));
            && Enabled(s', Insert(c)) && Apply(s', Insert(c)).disturbed == s.disturbed
            && var table' := Apply(s', Insert(c)).table;
            && |table'| == |s.table| + 1
            && table' == s.table + [rule.(priority := table'[|s.table|].priority)]
            && (if exists r :: r in s.table && r.instanceId == rule.instanceId
                then exists r :: IsLast(s.table, rule.instanceId, r) && table'[|s.table|].priority == r.priority + 10
                else table'[|s.table|].priority == 10)
  {
    TopIsOfLast(s.table, rule.instanceId);
  }

  // ---- Distinct priorities ----

  predicate HasPriority(table: seq<Rule>, scope: Option<string>, p: int) {
    exists i :: 0 <= i < |table| && table[i].instanceId == scope && table[i].priority == p
  }

  /** Counted from the first table, the creations number a scope in tens without a gap. */
  predicate Tens(first: seq<Rule>, table: seq<Rule>, scope: Option<string>) {
    && Count(first, scope) <= Count(table, scope)
    && Top(first, scope) <= Top(table, scope) && (Top(table, scope) - Top(first, scope)) % 10 == 0
  }

  predicate Filled(first: seq<Rule>, table: seq<Rule>, scope: Option<string>, p: int) {
    Top(first, scope) < p && (p - Top(first, scope)) % 10 == 0 ==>
      (HasPriority(table, scope, p) <==> p <= Top(table, scope))
  }

  ghost predicate Dense(first: seq<Rule>, table: seq<Rule>) {
    && (forall scope :: Tens(first, table, scope))
    && forall scope, p :: Filled(first, table, scope, p)
  }

  /** A creation under way: undisturbed its priority is the next one, and it is never past that. */
  predicate InStep(first: seq<Rule>, table: seq<Rule>, n: Creation, disturbed: bool) {
    var scope := n.rule.instanceId;
    var bottom, top, count := Top(first, scope), Top(table, scope), Count(table, scope);
    && (n.rule.priority - bottom) % 10 == 0 && bottom < n.rule.priority <= top + 10 && n.seen <= count
    && (n.seen == count ==> n.rule.priority == top + 10)
    && (n.seen < count && !disturbed ==> n.rule.priority <= top)
  }

  ghost predicate Inv(first: seq<Rule>, s: State) {
    && Dense(first, s.table)
    && (forall c :: c in s.creations ==> InStep(first, s.table, s.creations[c], s.disturbed))
    && (s.disturbed <==> !PrioritiesDistinct(s.table))
  }

  lemma HasAfter(table: seq<Rule>, n: Rule, scope: Option<string>, p: int)
    ensures HasPriority(table + [n], scope, p) <==>
              HasPriority(table, scope, p) || (n.instanceId == scope && n.priority == p)
  {
    var table' := table + [n];
    if HasPriority(table, scope, p) {
      var i :| 0 <= i < |table| && table[i].instanceId == scope && table[i].priority == p;
      assert table'[i] == table[i];
    }
    assert table'[|table|] == n;
  }

  lemma NothingAboveTop(table: seq<Rule>, scope: Option<string>, p: int)
    requires Top(table, scope) < p
    ensures !HasPriority(table, scope, p)
  {
    forall r | r in table && r.instanceId == scope ensures r.priority != p {
      TopIsAbove(table, r);
    }
  }

  lemma FirstIsDense(first: seq<Rule>)
    ensures Dense(first, first)
  {
    forall scope, p | Top(first, scope) < p ensures !HasPriority(first, scope, p) {
      NothingAboveTop(first, scope, p);
    }
  }

  lemma DenseAfter(first: seq<Rule>, table: seq<Rule>, n: Creation, disturbed: bool)
    requires Dense(first, table) && InStep(first, table, n, disturbed)
    ensures Dense(first, table + [n.rule])
  {
    var table' := table + [n.rule];
    forall scope ensures Tens(first, table', scope) {
      assert Tens(first, table, scope);
      TopAfter(table, n.rule, scope);
      EmptyScope(first, table, scope);
    }
    forall scope, p ensures Filled(first, table', scope, p) {
      assert Filled(first, table, scope, p) && Tens(first, table, scope);
      TopAfter(table, n.rule, scope);
      HasAfter(table, n.rule, scope, p);
      EmptyScope(first, table, scope);
    }
  }

  /** A scope without a rule had none to begin with. */
  lemma EmptyScope(first: seq<Rule>, table: seq<Rule>, scope: Option<string>)
    requires Tens(first, table, scope)
    ensures Count(table, scope) == 0 ==> Top(first, scope) == 0 && Top(table, scope) == 0
  {
    if Count(table, scope) == 0 {
      NoRuleNoTop(first, scope);
      NoRuleNoTop(table, scope);
    }
  }

  lemma DistinctAfter(table: seq<Rule>, n: Rule)
    ensures PrioritiesDistinct(table + [n]) <==>
              PrioritiesDistinct(table) && !HasPriority(table, n.instanceId, n.priority)
  {
    var table' := table + [n];
    assert table'[|table|] == n && forall i :: 0 <= i < |table| ==> table'[i] == table[i];
  }

  lemma InStepAfter(first: seq<Rule>, table: seq<Rule>, n: Creation, other: Creation, before: bool, after: bool)
    requires Dense(first, table) && InStep(first, table, n, before) && InStep(first, table, other, before)
    requires after == (before || n.seen != Count(table, n.rule.instanceId))
    ensures InStep(first, table + [n.rule], other, after)
  {
    var scope := other.rule.instanceId;
    assert Tens(first, table, scope);
    TopAfter(table, n.rule, scope);
    EmptyScope(first, table, scope);
  }

  lemma InsertKeepsInv(first: seq<Rule>, s: State, c: nat)
    requires Inv(first, s) && c in s.creations
    ensures Inv(first, Apply(s, Insert(c)))
  {
    var n, s' := s.creations[c], Apply(s, Insert(c));
    assert InStep(first, s.table, n, s.disturbed);
    DenseAfter(first, s.table, n, s.disturbed);
    DistinctAfter(s.table, n.rule);
    assert Filled(first, s.table, n.rule.instanceId, n.rule.priority);
    forall d | d in s'.creations ensures InStep(first, s'.table, s'.creations[d], s'.disturbed) {
      InStepAfter(first, s.table, n, s.creations[d], s.disturbed, s'.disturbed);
    }
  }

  lemma ReadKeepsInv(first: seq<Rule>, s: State, step: Step)
    requires Inv(first, s) && step.Read? && Enabled(s, step)
    ensures Inv(first, Apply(s, step))
  {
    var s' := Apply(s, step);
    assert Tens(first, s.table, step.rule.instanceId);
    forall d | d in s'.creations ensures InStep(first, s'.table, s'.creations[d], s'.disturbed) {
      assert d in s.creations ==> InStep(first, s.table, s.creations[d], s.disturbed);
    }
  }

  lemma {:induction false} InvAlways(ss: seq<State>, i: nat)
    requires History(ss) && i < |ss|
    ensures Inv(ss[0].table, ss[i])
  {
    if i == 0 {
      FirstIsDense(ss[0].table);
    } else {
      InvAlways(ss, i - 1);
      var step := StepInto(ss, i);
      match step
      case Read(_, _) => ReadKeepsInv(ss[0].table, ss[i - 1], step);
      case Insert(c) => InsertKeepsInv(ss[0].table, ss[i - 1], c);
      case Fail(_) =>
    }
  }

  /**
   * The priorities stay distinct exactly until a rule is inserted after another one of its scope has come
   * in since it read its priority.
   */
  lemma DistinctIffUndisturbed(ss: seq<State>, i: nat)
    requires History(ss) && i < |ss|
    ensures PrioritiesDistinct(ss[i].table) <==> !ss[i].disturbed
  {
    InvAlways(ss, i);
  }

  function CreationsIn(s: State, scope: Option<string>): set<nat> {
    set c | c in s.creations && s.creations[c].rule.instanceId == scope
  }

  predicate NothingCameIn(s: State) {
    && !s.disturbed
    && forall c :: c in s.creations ==> s.creations[c].seen == Count(s.table, s.creations[c].rule.instanceId)
  }

  lemma StepKeepsNothingCameIn(s: State, step: Step)
    requires Enabled(s, step) && NothingCameIn(s)
    requires forall scope {:trigger CreationsIn(s, scope)} :: |CreationsIn(s, scope)| <= 1
    ensures NothingCameIn(Apply(s, step))
  {
    if step.Insert? {
      var n := s.creations[step.c];
      var scope := n.rule.instanceId;
      forall d | d in s.creations && d != step.c
        ensures var other := s.creations[d].rule.instanceId;
                Count(s.table + [n.rule], other) == Count(s.table, other)
      {
        TopAfter(s.table, n.rule, s.creations[d].rule.instanceId);
        if s.creations[d].rule.instanceId == scope {
          assert d in CreationsIn(s, scope) && step.c in CreationsIn(s, scope);
          OnlyOne(CreationsIn(s, scope), d, step.c);
        }
      }
    }
  }

  /** When creations of one scope do not overlap, priorities stay distinct. */
  lemma {:induction false} SerialCreationsStayDistinct(ss: seq<State>, i: nat)
    requires History(ss) && i < |ss|
    requires forall j, scope :: 0 <= j < |ss| ==> |CreationsIn(ss[j], scope)| <= 1
    ensures NothingCameIn(ss[i]) && PrioritiesDistinct(ss[i].table)
  {
    if i > 0 {
      SerialCreationsStayDistinct(ss, i - 1);
      var step := StepInto(ss, i);
      StepKeepsNothingCameIn(ss[i - 1], step);
    }
    DistinctIffUndisturbed(ss, i);
  }

  // ---- Equal priorities ----

  lemma EitherDecides(json: Json, call: ToolCall, a: Rule, b: Rule)
    requires a.enabled && b.enabled && a.instanceId == b.instanceId == None && a.priority == b.priority
    requires Matches(json, a, call) && Matches(json, b, call)
    ensures Decider(json, [a, b], None, call, Some(a)) && Decider(json, [a, b], None, call, Some(b))
  {
    assert Policy.Enabled([a, b], None, a) && Policy.Enabled([a, b], None, b);
    assert forall r :: r in [a, b] ==> r == a || r == b;
  }

  lemma TwoReadTheSameMaximum(a: Rule, b: Rule) returns (ss: seq<State>)
    requires a.instanceId == b.instanceId == None && a.priority == b.priority == 10
    ensures History(ss) && ss[|ss| - 1].table == [a, b]
  {
    ss := [State([], map[], false)];
    ss := Extend(ss, Read(0, a));
    ss := Extend(ss, Read(1, b));
    ss := Extend(ss, Insert(0));
    assert ss[|ss| - 1].table == [a];
    ss := Extend(ss, Insert(1));
  }

  /** Two creations overlap: whether any call is allowed or denied is left to the order of equal rows. */
  lemma OverlapLeavesTheOrderToDecide(json: Json) returns (ss: seq<State>, allow: Rule, deny: Rule)
    ensures History(ss) && ss[|ss| - 1].table == [allow, deny]
    ensures allow.decision == "ALLOW" && deny.decision == "DENY"
    ensures forall call :: Decider(json, [allow, deny], None, call, Some(allow))
    ensures forall call :: Decider(json, [allow, deny], None, call, Some(deny))
  {
    allow := Rule("a", None, 10, "*", "*", None, None, "ALLOW", None, None, true);
    deny := Rule("d", None, 10, "*", "*", None, None, "DENY", None, None, true);
    ss := TwoReadTheSameMaximum(allow, deny);
    forall call ensures Decider(json, [allow, deny], None, call, Some(allow)) &&
                        Decider(json, [allow, deny], None, call, Some(deny)) {
      EitherDecides(json, call, allow, deny);
    }
  }
}
