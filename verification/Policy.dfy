/** First-match policy evaluation (engine/policy.ts) and rule creation (routes/policies.ts). */
module Policy {
  import opened Common

  /** A row of the rule table. `instanceId` is None for a global rule. */
  datatype Rule = Rule(
    id: string, instanceId: Option<string>, priority: int, matchTool: string, riskTier: string,
    matchCategory: Option<string>, matchArgs: Option<string>, decision: string,
    description: Option<string>, constraints: Option<string>, enabled: bool)

  datatype Agent = Agent(status: string, allowlisted: bool)

  datatype ToolCall = ToolCall(
    agentPubkey: string, toolName: string, riskTier: string, category: Option<string>, args: string)

  /** The JSON library: whether arguments satisfy a parseable pattern, and whether a text parses. */
  datatype Json = Json(satisfies: (string, string) -> bool, parses: string -> bool)

  datatype Outcome =
    | AgentNotFound
    | AgentNotActive(status: string)
    | AgentNotAllowlisted
    | Matched(ruleId: string, decision: string, priority: int, ruleLabel: string, constraints: Option<string>)
    | Default(decision: string)
    | BadConstraints

  // ---- Matching ----

  predicate EndsWith(s: string, suffix: string) {
    |suffix| <= |s| && s[|s| - |suffix|..] == suffix
  }

  predicate GlobMatch(pattern: string, value: string) {
    if pattern == value || pattern == "*" then true
    else if EndsWith(pattern, "*") && !("*" <= pattern) then pattern[..|pattern| - 1] <= value
    else if "*" <= pattern && !EndsWith(pattern, "*") then EndsWith(value, pattern[1..])
    else false
  }

  /** A pattern matches itself; a star alone, at the end only, or at the start only stands for any text there. */
  lemma GlobMeaning(pattern: string, value: string)
    ensures GlobMatch(pattern, value) <==>
              || pattern == value
              || pattern == "*"
              || (exists stem :: pattern == stem + "*" && !("*" <= stem) && stem <= value)
              || (exists stem :: pattern == "*" + stem && !EndsWith(stem, "*") && EndsWith(value, stem))
  {
    if EndsWith(pattern, "*") {
      assert pattern == pattern[..|pattern| - 1] + "*";
    }
    if "*" <= pattern {
      assert pattern == "*" + pattern[1..];
    }
  }

  predicate Matches(json: Json, rule: Rule, call: ToolCall) {
    && GlobMatch(rule.matchTool, call.toolName)
    && (rule.riskTier == "*" || rule.riskTier == call.riskTier)
    && (Given(rule.matchCategory) && rule.matchCategory.value != "*" ==>
          Given(call.category) && rule.matchCategory == call.category)
    && (Given(rule.matchArgs) ==> json.satisfies(rule.matchArgs.value, call.args))
  }

  /** Some call matches the rule: only an argument pattern can rule them all out. */
  ghost predicate Live(json: Json, rule: Rule) {
    Given(rule.matchArgs) ==> exists args :: json.satisfies(rule.matchArgs.value, args)
  }

  // ---- Which rule decides ----

  predicate Enabled(table: seq<Rule>, scope: Option<string>, rule: Rule) {
    rule in table && rule.enabled && rule.instanceId == scope
  }

  /** The scope whose rules are consulted: an instance without enabled rules falls back to the globals. */
  ghost function InForce(table: seq<Rule>, instanceId: Option<string>): Option<string> {
    if Given(instanceId) && !(exists r :: Enabled(table, instanceId, r)) then None else instanceId
  }

  ghost predicate Applies(json: Json, table: seq<Rule>, instanceId: Option<string>, call: ToolCall, rule: Rule) {
    Enabled(table, InForce(table, instanceId), rule) && Matches(json, rule, call)
  }

  /** `d` may decide the call: an applying rule of least priority number, or none when no rule applies. */
  ghost predicate Decider(json: Json, table: seq<Rule>, instanceId: Option<string>, call: ToolCall, d: Option<Rule>) {
    match d
    case Some(rule) =>
      && Applies(json, table, instanceId, call, rule)
      && forall r :: Applies(json, table, instanceId, call, r) ==> rule.priority <= r.priority
    case None => forall r :: !Applies(json, table, instanceId, call, r)
  }

  function OutcomeOf(json: Json, call: ToolCall, d: Option<Rule>): Outcome {
    match d
    case Some(rule) =>
      if Given(rule.constraints) && !json.parses(rule.constraints.value) then BadConstraints
      else
        Matched(rule.id, rule.decision, rule.priority,
                if rule.description.Some? then rule.description.value else rule.matchTool,
                if Given(rule.constraints) then rule.constraints else None)
    case None => Default(if call.riskTier == "WRITE" || call.riskTier == "DESTRUCTIVE" then "APPROVE" else "ALLOW")
  }

  /** What the database may answer: the enabled rules of a scope by priority, ties in any order. */
  ghost predicate Listing(table: seq<Rule>, scope: Option<string>, rows: seq<Rule>) {
    && (forall r :: r in rows <==> Enabled(table, scope, r))
    && forall i, j :: 0 <= i < j < |rows| ==> rows[i].priority <= rows[j].priority
  }

  /** What makes a rule fit a call, column by column; an empty column fits every call. */
  lemma MatchesMeaning(json: Json, rule: Rule, call: ToolCall)
    ensures Matches(json, rule, call) <==>
              && GlobMatch(rule.matchTool, call.toolName)
              && (rule.riskTier == "*" || rule.riskTier == call.riskTier)
              && (rule.matchCategory in {None, Some(""), Some("*")} || rule.matchCategory == call.category)
              && (rule.matchArgs in {None, Some("")} || json.satisfies(rule.matchArgs.value, call.args))
  {
  }

  /** The globals are in force without an instance, or when all rules of the instance are disabled. */
  lemma InForceMeaning(table: seq<Rule>, instanceId: Option<string>)
    ensures InForce(table, instanceId) == None <==>
              || instanceId == None
              || (instanceId != Some("") && forall r :: r in table && r.enabled ==> r.instanceId != instanceId)
    ensures InForce(table, instanceId) in {None, instanceId}
  {
    assert forall r :: Enabled(table, instanceId, r) <==> r in table && r.enabled && r.instanceId == instanceId;
  }

  /** The rows that a listing answers with are the enabled rules of the scope, by priority. */
  lemma ListingMeaning(table: seq<Rule>, scope: Option<string>, rows: seq<Rule>)
    requires Listing(table, scope, rows)
    ensures forall r :: r in rows <==> r in table && r.enabled && r.instanceId == scope
  {
    assert forall r :: r in rows <==> Enabled(table, scope, r);
  }

  /** The rows in force for a call. */
  function Consulted(instanceId: Option<string>, own: seq<Rule>, globals: seq<Rule>): seq<Rule> {
    if instanceId in {None, Some("")} || own != [] then own else globals
  }

  /** The deciding rule is consulted, fits in every column, and no other such rule comes before it. */
  lemma DeciderMeaning(json: Json, table: seq<Rule>, instanceId: Option<string>, call: ToolCall,
                       own: seq<Rule>, globals: seq<Rule>, d: Option<Rule>)
    requires Listing(table, instanceId, own) && Listing(table, None, globals)
    requires Decider(json, table, instanceId, call, d)
    ensures d.Some? ==>
              && d.value in Consulted(instanceId, own, globals)
              && GlobMatch(d.value.matchTool, call.toolName)
              && (d.value.riskTier == "*" || d.value.riskTier == call.riskTier)
              && (d.value.matchCategory in {None, Some(""), Some("*")} || d.value.matchCategory == call.category)
              && (d.value.matchArgs in {None, Some("")} || json.satisfies(d.value.matchArgs.value, call.args))
    ensures forall rule :: rule in Consulted(instanceId, own, globals)
                           && GlobMatch(rule.matchTool, call.toolName)
                           && (rule.riskTier == "*" || rule.riskTier == call.riskTier)
                           && (rule.matchCategory in {None, Some(""), Some("*")} || rule.matchCategory == call.category)
                           && (rule.matchArgs in {None, Some("")} || json.satisfies(rule.matchArgs.value, call.args)) ==>
              d.Some? && d.value.priority <= rule.priority
  {
    ListingInForce(table, instanceId, own, globals);
    forall rule | rule in Consulted(instanceId, own, globals) && Matches(json, rule, call)
      ensures Applies(json, table, instanceId, call, rule)
    {
    }
    forall rule ensures Matches(json, rule, call) <==>
                          && GlobMatch(rule.matchTool, call.toolName)
                          && (rule.riskTier == "*" || rule.riskTier == call.riskTier)
                          && (rule.matchCategory in {None, Some(""), Some("*")} || rule.matchCategory == call.category)
                          && (rule.matchArgs in {None, Some("")} || json.satisfies(rule.matchArgs.value, call.args))
    {
      MatchesMeaning(json, rule, call);
    }
  }

  /**
   * The decision, column by column: a deciding rule is consulted and its tool, tier, category and
   * arguments all fit the call, and its decision is the answer; without one WRITE and DESTRUCTIVE
   * calls need an approval and others are allowed.
   */
  ghost predicate Explains(json: Json, rows: seq<Rule>, call: ToolCall, decider: Option<Rule>, outcome: Outcome) {
    match decider
    case Some(rule) =>
      && rule in rows && GlobMatch(rule.matchTool, call.toolName)
      && (rule.riskTier == "*" || rule.riskTier == call.riskTier)
      && (rule.matchCategory in {None, Some(""), Some("*")} || rule.matchCategory == call.category)
      && (rule.matchArgs in {None, Some("")} || json.satisfies(rule.matchArgs.value, call.args))
      && var ruleLabel := match rule.description case Some(text) => text case None => rule.matchTool;
         if rule.constraints in {None, Some("")}
         then outcome == Matched(rule.id, rule.decision, rule.priority, ruleLabel, None)
         else if json.parses(rule.constraints.value)
         then outcome == Matched(rule.id, rule.decision, rule.priority, ruleLabel, rule.constraints)
         else outcome == BadConstraints
    case None => outcome == Default(if call.riskTier in {"WRITE", "DESTRUCTIVE"} then "APPROVE" else "ALLOW")
  }

  lemma OutcomeExplained(json: Json, table: seq<Rule>, instanceId: Option<string>, call: ToolCall,
                         own: seq<Rule>, globals: seq<Rule>, d: Option<Rule>)
    requires Listing(table, instanceId, own) && Listing(table, None, globals)
    requires Decider(json, table, instanceId, call, d)
    ensures Explains(json, Consulted(instanceId, own, globals), call, d, OutcomeOf(json, call, d))
  {
    DeciderMeaning(json, table, instanceId, call, own, globals, d);
    assert d.Some? ==> (Given(d.value.constraints) <==> d.value.constraints !in {None, Some("")});
  }

  /**
   * `own` and `globals` are the answers to the two queries; the second is used only on fallback.
   */
  method EvaluatePolicy(json: Json, agents: map<string, Agent>, ghost table: seq<Rule>, call: ToolCall,
                        instanceId: Option<string>, own: seq<Rule>, globals: seq<Rule>)
    returns (outcome: Outcome, ghost decider: Option<Rule>)
    requires Listing(table, instanceId, own) && Listing(table, None, globals)
    ensures call.agentPubkey !in agents ==> outcome == AgentNotFound
    ensures call.agentPubkey in agents && agents[call.agentPubkey].status != "active" ==>
              outcome == AgentNotActive(agents[call.agentPubkey].status)
    ensures call.agentPubkey in agents && agents[call.agentPubkey] == Agent("active", false) ==>
              outcome == AgentNotAllowlisted
    ensures call.agentPubkey in agents && agents[call.agentPubkey] == Agent("active", true) ==>
              Decider(json, table, instanceId, call, decider) && outcome == OutcomeOf(json, call, decider)
    ensures call.agentPubkey in agents && agents[call.agentPubkey] == Agent("active", true) ==>
              Explains(json, Consulted(instanceId, own, globals), call, decider, outcome)
  {
    decider := None;
    if call.agentPubkey !in agents {
      return AgentNotFound, None;
    }
    var agent := agents[call.agentPubkey];
    if agent.status != "active" {
      return AgentNotActive(agent.status), None;
    }
    if !agent.allowlisted {
      return AgentNotAllowlisted, None;
    }
    var rules := own;
    if Given(instanceId) && |rules| == 0 {
      rules := globals;
    }
    ListingInForce(table, instanceId, own, globals);
    for i := 0 to |rules|
      invariant forall k :: 0 <= k < i ==> !Matches(json, rules[k], call)
    {
      var rule := rules[i];
      if !GlobMatch(rule.matchTool, call.toolName) { continue; }
      if rule.riskTier != "*" && rule.riskTier != call.riskTier { continue; }
      if Given(rule.matchCategory) && rule.matchCategory.value != "*" {
        if !Given(call.category) { continue; }
        if rule.matchCategory != call.category { continue; }
      }
      if Given(rule.matchArgs) {
        if !json.satisfies(rule.matchArgs.value, call.args) { continue; }
      }
      FirstMatchDecides(json, table, instanceId, call, rules, i);
      decider := Some(rule);
      OutcomeExplained(json, table, instanceId, call, own, globals, decider);
      if Given(rule.constraints) && !json.parses(rule.constraints.value) {
        return BadConstraints, decider;
      }
      var ruleLabel := if rule.description.Some? then rule.description.value else rule.matchTool;
      return Matched(rule.id, rule.decision, rule.priority, ruleLabel,
                     if Given(rule.constraints) then rule.constraints else None), decider;
    }
    OutcomeExplained(json, table, instanceId, call, own, globals, None);
    if call.riskTier == "WRITE" || call.riskTier == "DESTRUCTIVE" {
      return Default("APPROVE"), None;
    }
    return Default("ALLOW"), None;
  }

  lemma ListingInForce(table: seq<Rule>, instanceId: Option<string>, own: seq<Rule>, globals: seq<Rule>)
    requires Listing(table, instanceId, own) && Listing(table, None, globals)
    ensures Listing(table, InForce(table, instanceId), if Given(instanceId) && |own| == 0 then globals else own)
  {
    if |own| > 0 {
      assert Enabled(table, instanceId, own[0]);
    }
  }

  lemma FirstMatchDecides(json: Json, table: seq<Rule>, instanceId: Option<string>, call: ToolCall,
                          rules: seq<Rule>, i: nat)
    requires Listing(table, InForce(table, instanceId), rules) && i < |rules|
    requires Matches(json, rules[i], call)
    requires forall k :: 0 <= k < i ==> !Matches(json, rules[k], call)
    ensures Decider(json, table, instanceId, call, Some(rules[i]))
  {
    forall r | Applies(json, table, instanceId, call, r) ensures rules[i].priority <= r.priority {
      assert r in rules;
    }
  }

  // ---- Creating a rule ----

  datatype NewRule = NewRule(
    matchTool: string, riskTier: string, decision: string, matchArgs: Option<string>,
    matchCategory: Option<string>, constraints: Option<string>, description: Option<string>,
    enabled: Option<bool>, instanceId: Option<string>)

  datatype Refusal = BadRequest | Duplicate(existingRuleId: string)

  predicate WellFormed(body: NewRule) {
    body.matchTool != "" && body.riskTier != "" && body.decision in {"ALLOW", "DENY", "APPROVE"}
  }

  predicate IsDuplicate(table: seq<Rule>, body: NewRule, r: Rule) {
    && Enabled(table, body.instanceId, r)
    && r.matchTool == body.matchTool && r.matchCategory == body.matchCategory
    && r.decision == body.decision && r.riskTier == body.riskTier
  }

  /** Among all rules of the scope, enabled or not, `r` has the largest priority number. */
  predicate IsLast(table: seq<Rule>, scope: Option<string>, r: Rule) {
    && r in table && r.instanceId == scope
    && forall other :: other in table && other.instanceId == scope ==> other.priority <= r.priority
  }

  predicate NewLast(table: seq<Rule>, n: Rule) {
    && (forall r :: r in table ==> r.id != n.id)
    && forall r :: r in table && r.instanceId == n.instanceId ==> r.priority < n.priority
  }

  predicate PrioritiesDistinct(table: seq<Rule>) {
    forall i, j :: 0 <= i < j < |table| && table[i].instanceId == table[j].instanceId ==>
      table[i].priority != table[j].priority
  }

  lemma {:induction false} SomeRuleIsLast(table: seq<Rule>, scope: Option<string>)
    requires exists r :: r in table && r.instanceId == scope
    ensures exists r :: IsLast(table, scope, r)
  {
    var init, n := table[..|table| - 1], table[|table| - 1];
    assert table == init + [n];
    if exists r :: r in init && r.instanceId == scope {
      SomeRuleIsLast(init, scope);
      var r :| IsLast(init, scope, r);
      assert IsLast(table, scope, if n.instanceId == scope && r.priority <= n.priority then n else r);
    } else {
      assert IsLast(table, scope, n);
    }
  }

  class PolicyTable {
    var rules: seq<Rule>

    constructor ()
      ensures rules == []
    {
      rules := [];
    }

    /** POST /api/policies; `id` is the key the database assigns. */
    method Create(body: NewRule, id: string) returns (result: Result<Rule, Refusal>)
      requires forall r :: r in rules ==> r.id != id
      modifies this
      ensures result == Err(BadRequest) <==> !WellFormed(body)
      ensures result.Err? && result.error.Duplicate? <==>
                WellFormed(body) && exists r :: IsDuplicate(old(rules), body, r)
      ensures result.Err? ==> rules == old(rules)
      ensures result.Err? && result.error.Duplicate? ==>
                exists r :: IsDuplicate(old(rules), body, r) && r.id == result.error.existingRuleId
      ensures result.Ok? ==>
                && rules == old(rules) + [result.value] && NewLast(old(rules), result.value)
                && result.value == Rule(
                     id, body.instanceId, result.value.priority, body.matchTool, body.riskTier, body.matchCategory,
                     body.matchArgs, body.decision, body.description, body.constraints,
                     body.enabled != Some(false))
                && (if exists r :: r in old(rules) && r.instanceId == body.instanceId
                    then exists r :: IsLast(old(rules), body.instanceId, r) && result.value.priority == r.priority + 10
                    else result.value.priority == 10)
      ensures old(PrioritiesDistinct(rules)) ==> PrioritiesDistinct(rules)
      ensures result.Err? && result.error.Duplicate? ==>
                exists r :: r in old(rules) && r.id == result.error.existingRuleId && r.enabled
                            && r.instanceId == body.instanceId && r.matchTool == body.matchTool
                            && r.matchCategory == body.matchCategory && r.decision == body.decision
                            && r.riskTier == body.riskTier
      ensures result.Ok? ==>
                forall r :: r in old(rules) && r.instanceId == body.instanceId ==>
                  && r.priority + 10 <= result.value.priority
                  && !(r.enabled && r.matchTool == body.matchTool && r.matchCategory == body.matchCategory
                       && r.decision == body.decision && r.riskTier == body.riskTier)
      ensures result.Ok? ==>
                || (result.value.priority == 10 && forall r :: r in old(rules) ==> r.instanceId != body.instanceId)
                || exists r :: r in old(rules) && r.instanceId == body.instanceId
                               && result.value.priority == r.priority + 10
      ensures result == Err(BadRequest) <==>
                body.matchTool == "" || body.riskTier == "" || body.decision !in {"ALLOW", "DENY", "APPROVE"}
    {
      if body.matchTool == "" || body.riskTier == "" || body.decision == "" {
        return Err(BadRequest);
      }
      if body.decision !in ["ALLOW", "DENY", "APPROVE"] {
        return Err(BadRequest);
      }
      if exists r :: r in rules && IsDuplicate(rules, body, r) {
        var existing :| existing in rules && IsDuplicate(rules, body, existing);
        return Err(Duplicate(existing.id));
      }
      var priority := 10;
      if exists r :: r in rules && r.instanceId == body.instanceId {
        SomeRuleIsLast(rules, body.instanceId);
        var maxRule :| maxRule in rules && IsLast(rules, body.instanceId, maxRule);
        priority := maxRule.priority + 10;
      }
      var rule := Rule(id, body.instanceId, priority, body.matchTool, body.riskTier, body.matchCategory,
                       body.matchArgs, body.decision, body.description, body.constraints,
                       if body.enabled.Some? then body.enabled.value else true);
      rules := rules + [rule];
      return Ok(rule);
    }
  }

  // ---- One decision a call ----

  lemma SomeDecider(json: Json, table: seq<Rule>, instanceId: Option<string>, call: ToolCall)
    ensures exists d :: Decider(json, table, instanceId, call, d)
  {
    var applying := set r | r in table && Applies(json, table, instanceId, call, r);
    assert forall r :: Applies(json, table, instanceId, call, r) ==> r in applying;
    if applying == {} {
      assert Decider(json, table, instanceId, call, None);
    } else {
      var rule := Least(applying);
      assert Decider(json, table, instanceId, call, Some(rule));
    }
  }

  lemma {:induction false} Least(rules: set<Rule>) returns (rule: Rule)
    requires rules != {}
    ensures rule in rules && forall r :: r in rules ==> rule.priority <= r.priority
    decreases rules
  {
    rule :| rule in rules;
    if rules - {rule} != {} {
      var other := Least(rules - {rule});
      rule := if other.priority < rule.priority then other else rule;
    }
  }

  /** With the priorities that creation assigns, the decision does not depend on the database's order. */
  lemma OneDecider(json: Json, table: seq<Rule>, instanceId: Option<string>, call: ToolCall,
                   d: Option<Rule>, d': Option<Rule>)
    requires PrioritiesDistinct(table)
    requires Decider(json, table, instanceId, call, d) && Decider(json, table, instanceId, call, d')
    ensures d == d'
  {
    if d.Some? && d'.Some? {
      var i :| 0 <= i < |table| && table[i] == d.value;
      var j :| 0 <= j < |table| && table[j] == d'.value;
    }
  }

  // ---- What a new rule changes ----

  /** Calls that some rule applied to keep their decision. */
  ghost predicate Conservative(json: Json, table: seq<Rule>, n: Rule, instanceId: Option<string>) {
    forall call, r, d :: Applies(json, table, instanceId, call, r) ==>
      (Decider(json, table + [n], instanceId, call, d) <==> Decider(json, table, instanceId, call, d))
  }

  /** The scope in force changes exactly for the instance that gets its first enabled rule. */
  lemma ScopeChangesOnFirstRule(table: seq<Rule>, n: Rule, instanceId: Option<string>)
    ensures InForce(table + [n], instanceId) != InForce(table, instanceId) <==>
              && Given(instanceId) && n.instanceId == instanceId && n.enabled
              && forall r :: !Enabled(table, instanceId, r)
  {
    assert forall r :: Enabled(table, instanceId, r) ==> Enabled(table + [n], instanceId, r);
    assert forall r :: Enabled(table + [n], instanceId, r) ==> r == n || Enabled(table, instanceId, r);
    if n.enabled && n.instanceId == instanceId {
      assert Enabled(table + [n], instanceId, n);
    }
  }

  lemma AppliesAfter(json: Json, table: seq<Rule>, n: Rule, instanceId: Option<string>, call: ToolCall, r: Rule)
    requires InForce(table + [n], instanceId) == InForce(table, instanceId)
    ensures Applies(json, table + [n], instanceId, call, r) <==>
              || Applies(json, table, instanceId, call, r)
              || (r == n && n.enabled && n.instanceId == InForce(table, instanceId) && Matches(json, n, call))
  {
  }

  lemma SameScopeIsConservative(json: Json, table: seq<Rule>, n: Rule, instanceId: Option<string>,
                                call: ToolCall, r: Rule, d: Option<Rule>)
    requires NewLast(table, n) && InForce(table + [n], instanceId) == InForce(table, instanceId)
    requires Applies(json, table, instanceId, call, r)
    ensures Decider(json, table + [n], instanceId, call, d) <==> Decider(json, table, instanceId, call, d)
  {
    forall r' ensures
      Applies(json, table + [n], instanceId, call, r') <==>
        || Applies(json, table, instanceId, call, r')
        || (r' == n && n.enabled && n.instanceId == InForce(table, instanceId) && Matches(json, n, call))
    {
      AppliesAfter(json, table, n, instanceId, call, r');
    }
    assert Applies(json, table + [n], instanceId, call, r);
  }

  /** A call made for the rule alone. */
  lemma LiveRuleHasACall(json: Json, rule: Rule) returns (call: ToolCall)
    requires Live(json, rule)
    ensures Matches(json, rule, call)
  {
    var args := "";
    if Given(rule.matchArgs) {
      args :| json.satisfies(rule.matchArgs.value, args);
    }
    call := ToolCall("", rule.matchTool, rule.riskTier, rule.matchCategory, args);
  }

  /**
   * Creating a rule leaves alone every call that a rule applied to, if and only if the scope in
   * force stays the same or no enabled global rule could match anything: the first enabled rule
   * of an instance switches the global rules off for it.
   */
  lemma CreationIsConservativeIff(json: Json, table: seq<Rule>, n: Rule, instanceId: Option<string>)
    requires NewLast(table, n)
    ensures Conservative(json, table, n, instanceId) <==>
              || InForce(table + [n], instanceId) == InForce(table, instanceId)
              || forall g :: Enabled(table, None, g) ==> !Live(json, g)
  {
    if InForce(table + [n], instanceId) == InForce(table, instanceId) {
      forall call, r, d | Applies(json, table, instanceId, call, r)
        ensures Decider(json, table + [n], instanceId, call, d) <==> Decider(json, table, instanceId, call, d)
      {
        SameScopeIsConservative(json, table, n, instanceId, call, r, d);
      }
    } else {
      ScopeChangesOnFirstRule(table, n, instanceId);
      if g :| Enabled(table, None, g) && Live(json, g) {
        GlobalSwitchedOff(json, table, n, instanceId, g);
      } else {
        forall call, r | Applies(json, table, instanceId, call, r) ensures false {
          assert Live(json, r);
          assert false;
        }
      }
    }
  }

  lemma GlobalSwitchedOff(json: Json, table: seq<Rule>, n: Rule, instanceId: Option<string>, g: Rule)
    requires NewLast(table, n) && Enabled(table, None, g) && Live(json, g)
    requires InForce(table + [n], instanceId) != InForce(table, instanceId)
    ensures !Conservative(json, table, n, instanceId)
  {
    ScopeChangesOnFirstRule(table, n, instanceId);
    var call := LiveRuleHasACall(json, g);
    assert Applies(json, table, instanceId, call, g);
    SomeDecider(json, table, instanceId, call);
    var d :| Decider(json, table, instanceId, call, d);
    assert d.Some? && d.value in table;
    assert !Applies(json, table + [n], instanceId, call, d.value);
    assert !Decider(json, table + [n], instanceId, call, d);
  }

  /** Calls that no rule applied to are decided by the new rule where it applies, and by default elsewhere. */
  lemma NewRuleDecidesTheRest(json: Json, table: seq<Rule>, n: Rule, instanceId: Option<string>,
                              call: ToolCall, d: Option<Rule>)
    requires InForce(table + [n], instanceId) == InForce(table, instanceId)
    requires forall r :: !Applies(json, table, instanceId, call, r)
    ensures Decider(json, table + [n], instanceId, call, d) <==>
              d == if Applies(json, table + [n], instanceId, call, n) then Some(n) else None
  {
    forall r ensures Applies(json, table + [n], instanceId, call, r) ==> r == n {
      AppliesAfter(json, table, n, instanceId, call, r);
    }
  }

  /** A call that a global rule denied is allowed once its instance gets a rule about something else. */
  lemma FirstInstanceRuleCanAllowWhatWasDenied(json: Json)
    ensures var deny := Rule("g", None, 10, "shell:*", "*", None, None, "DENY", None, None, true);
            var n := Rule("n", Some("i"), 10, "github:*", "*", None, None, "DENY", None, None, true);
            var call := ToolCall("agent", "shell:run", "READ", None, "{}");
            && NewLast([deny], n)
            && Decider(json, [deny], Some("i"), call, Some(deny))
            && Decider(json, [deny, n], Some("i"), call, None)
            && OutcomeOf(json, call, None) == Default("ALLOW")
  {
    var deny := Rule("g", None, 10, "shell:*", "*", None, None, "DENY", None, None, true);
    var n := Rule("n", Some("i"), 10, "github:*", "*", None, None, "DENY", None, None, true);
    var call := ToolCall("agent", "shell:run", "READ", None, "{}");
    assert Enabled([deny, n], Some("i"), n) && Enabled([deny], None, deny);
    assert forall r :: Enabled([deny, n], Some("i"), r) ==> r == n;
    assert forall r :: Enabled([deny], None, r) ==> r == deny;
    assert forall r :: !Enabled([deny], Some("i"), r);
    assert "shell:*"[..6] == "shell:" && "github:*"[..7] == "github:";
    assert "shell:" <= "shell:run";
    assert "github:"[0] != "shell:run"[0];
    assert Matches(json, deny, call) && !Matches(json, n, call);
    assert |"READ"| != |"WRITE"| && |"READ"| != |"DESTRUCTIVE"|;
  }
}
