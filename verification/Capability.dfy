/**
 * Capability validation, run status writes and quarantine as interleaved steps: each database
 * call is one atomic step, and any number of requests overlap (engine/capability.ts,
 * engine/orchestrator.ts `transitionRun`, `quarantineRun`).
 */
module Capability {
  import opened Common
  import opened RunModel
  import opened ActionClass

  const TOKEN_AUD := "wooblay:gateway"
  const CLOCK_SKEW_SECONDS := 60

  type CapId = string

  /** A registry row. */
  datatype Cap = Cap(
    runId: RunId, scopeHash: string, expiresAt: int, revoked: bool, usedCount: nat, maxUses: nat)

  /** Claims of a token whose signature verified. */
  datatype Claims = Claims(
    aud: string, iat: int, exp: int, jti: CapId, actionClass: string, scopeHash: string)

  datatype Reason =
    | BadSignature | BadAudience | TokenExpired | IssuedInFuture | ActionMismatch
    | NotFound | Revoked | Expired | MaxUsesExceeded | ScopeMismatch | RunInactive

  /** Progress of one validation. */
  datatype Phase =
    | Checked(jti: CapId, scopeHash: string)
    | CapabilityRead(jti: CapId, runId: RunId)
    | RunRead(jti: CapId)
    | Accepted(jti: CapId)
    | Denied(reason: Reason)

  /** A status write between its read and its update. */
  datatype Writer = Writer(runId: RunId, to: Status)

  datatype State = State(
    caps: map<CapId, Cap>,
    runs: map<RunId, Status>,
    validations: map<nat, Phase>,
    writers: map<nat, Writer>)

  // ---- The decisions of the single steps ----

  /** The checks on the token alone. */
  function CheckClaims(claims: Option<Claims>, nowSecs: int, requested: string): Phase {
    match claims
    case None => Denied(BadSignature)
    case Some(c) =>
      if c.aud != TOKEN_AUD then Denied(BadAudience)
      else if nowSecs > c.exp + CLOCK_SKEW_SECONDS then Denied(TokenExpired)
      else if c.iat > nowSecs + CLOCK_SKEW_SECONDS then Denied(IssuedInFuture)
      else if !ActionClassMatches(c.actionClass, requested) then Denied(ActionMismatch)
      else Checked(c.jti, c.scopeHash)
  }

  /** The checks on the registry row. */
  function CheckCapability(caps: map<CapId, Cap>, jti: CapId, scopeHash: string, now: int): Phase {
    if jti !in caps then Denied(NotFound)
    else if caps[jti].revoked then Denied(Revoked)
    else if now > caps[jti].expiresAt then Denied(Expired)
    else if caps[jti].usedCount >= caps[jti].maxUses then Denied(MaxUsesExceeded)
    else if caps[jti].scopeHash != scopeHash then Denied(ScopeMismatch)
    else CapabilityRead(jti, caps[jti].runId)
  }

  function CheckRun(runs: map<RunId, Status>, jti: CapId, runId: RunId): Phase {
    if runId in runs && IsActive(runs[runId]) then RunRead(jti) else Denied(RunInactive)
  }

  /** The token is let through exactly when it is for the gateway, within its times, and covers the action. */
  lemma TokenPassesIff(claims: Option<Claims>, nowSecs: int, requested: string)
    ensures var p := CheckClaims(claims, nowSecs, requested);
      && (p.Checked? <==>
            && claims.Some? && claims.value.aud == "wooblay:gateway"
            && claims.value.iat - 60 <= nowSecs <= claims.value.exp + 60
            && ActionClassMatches(claims.value.actionClass, requested))
      && (p.Checked? ==> p == Checked(claims.value.jti, claims.value.scopeHash))
      && (!p.Checked? ==> p.Denied?)
      && (p == Denied(BadSignature) <==> claims == None)
      && (p == Denied(TokenExpired) <==>
            claims.Some? && claims.value.aud == "wooblay:gateway" && claims.value.exp + 60 < nowSecs)
      && (p == Denied(IssuedInFuture) <==>
            && claims.Some? && claims.value.aud == "wooblay:gateway"
            && nowSecs <= claims.value.exp + 60 && nowSecs < claims.value.iat - 60)
  {
  }

  /** The registry row is let through exactly when it is unrevoked, unexpired, unspent and of the token's scope. */
  lemma RowPassesIff(caps: map<CapId, Cap>, jti: CapId, scopeHash: string, now: int)
    ensures var p := CheckCapability(caps, jti, scopeHash, now);
      && (p.CapabilityRead? <==>
            && jti in caps && !caps[jti].revoked && now <= caps[jti].expiresAt
            && caps[jti].usedCount < caps[jti].maxUses && caps[jti].scopeHash == scopeHash)
      && (p.CapabilityRead? ==> p == CapabilityRead(jti, caps[jti].runId))
      && (!p.CapabilityRead? ==> p.Denied?)
      && (p == Denied(NotFound) <==> jti !in caps)
      && (p == Denied(Revoked) <==> jti in caps && caps[jti].revoked)
      && (p == Denied(Expired) <==> jti in caps && !caps[jti].revoked && caps[jti].expiresAt < now)
      && (p == Denied(ScopeMismatch) <==>
            && jti in caps && !caps[jti].revoked && now <= caps[jti].expiresAt
            && caps[jti].usedCount < caps[jti].maxUses && caps[jti].scopeHash != scopeHash)
  {
  }

  lemma RunPassesIff(runs: map<RunId, Status>, jti: CapId, runId: RunId)
    ensures CheckRun(runs, jti, runId) ==
            if runId in runs && runs[runId] in {Running, Scheduled} then RunRead(jti) else Denied(RunInactive)
  {
  }

  // ---- Steps ----

  ghost predicate Arrive(s: State, s': State, v: nat, claims: Option<Claims>, nowSecs: int, requested: string) {
    v !in s.validations && s' == s.(validations := s.validations[v := CheckClaims(claims, nowSecs, requested)])
  }

  ghost predicate ReadCapability(s: State, s': State, v: nat, now: int) {
    && v in s.validations && s.validations[v].Checked?
    && var p := s.validations[v];
       s' == s.(validations := s.validations[v := CheckCapability(s.caps, p.jti, p.scopeHash, now)])
  }

  ghost predicate ReadRun(s: State, s': State, v: nat) {
    && v in s.validations && s.validations[v].CapabilityRead?
    && var p := s.validations[v];
       s' == s.(validations := s.validations[v := CheckRun(s.runs, p.jti, p.runId)])
  }

  ghost predicate Increment(s: State, s': State, v: nat) {
    && v in s.validations && s.validations[v].RunRead?
    && var jti := s.validations[v].jti;
       && jti in s.caps
       && s' == s.(caps := s.caps[jti := s.caps[jti].(usedCount := s.caps[jti].usedCount + 1)],
                   validations := s.validations[v := Accepted(jti)])
  }

  ghost predicate Mint(s: State, s': State, jti: CapId, cap: Cap) {
    jti !in s.caps && cap.usedCount == 0 && !cap.revoked && s' == s.(caps := s.caps[jti := cap])
  }

  ghost predicate CreateRun(s: State, s': State, runId: RunId) {
    runId !in s.runs && s' == s.(runs := s.runs[runId := Pending])
  }

  /** `transitionRun` up to the check against the transition table. */
  ghost predicate BeginTransition(s: State, s': State, w: nat, runId: RunId, to: Status) {
    && w !in s.writers && runId in s.runs && CanTransition(s.runs[runId], to)
    && s' == s.(writers := s.writers[w := Writer(runId, to)])
  }

  /** `transitionRun`'s update, which does not look at the status again. */
  ghost predicate WriteStatus(s: State, s': State, w: nat) {
    && w in s.writers
    && s' == s.(runs := s.runs[s.writers[w].runId := s.writers[w].to], writers := s.writers - {w})
  }

  /** The second write of `quarantineRun`. */
  ghost predicate RevokeAll(s: State, s': State, runId: RunId) {
    s' == s.(caps := map c | c in s.caps ::
                       if s.caps[c].runId == runId then s.caps[c].(revoked := true) else s.caps[c])
  }

  /** A validation whose request fails: it leaves without an answer, at any point. */
  ghost predicate Abandon(s: State, s': State, v: nat) {
    v in s.validations && s' == s.(validations := s.validations - {v})
  }

  /** A status write that fails between its check and its update. */
  ghost predicate AbandonWrite(s: State, s': State, w: nat) {
    w in s.writers && s' == s.(writers := s.writers - {w})
  }

  datatype Step =
    | ArriveStep(v: nat, claims: Option<Claims>, nowSecs: int, requested: string)
    | ReadCapabilityStep(v: nat, now: int)
    | ReadRunStep(v: nat)
    | IncrementStep(v: nat)
    | AbandonStep(v: nat)
    | MintStep(jti: CapId, cap: Cap)
    | CreateRunStep(runId: RunId)
    | BeginTransitionStep(w: nat, runId: RunId, to: Status)
    | WriteStatusStep(w: nat)
    | AbandonWriteStep(w: nat)
    | RevokeStep(runId: RunId)

  ghost predicate Does(s: State, s': State, step: Step) {
    match step
    case ArriveStep(v, claims, nowSecs, requested) => Arrive(s, s', v, claims, nowSecs, requested)
    case ReadCapabilityStep(v, now) => ReadCapability(s, s', v, now)
    case ReadRunStep(v) => ReadRun(s, s', v)
    case IncrementStep(v) => Increment(s, s', v)
    case AbandonStep(v) => Abandon(s, s', v)
    case MintStep(jti, cap) => Mint(s, s', jti, cap)
    case CreateRunStep(runId) => CreateRun(s, s', runId)
    case BeginTransitionStep(w, runId, to) => BeginTransition(s, s', w, runId, to)
    case WriteStatusStep(w) => WriteStatus(s, s', w)
    case AbandonWriteStep(w) => AbandonWrite(s, s', w)
    case RevokeStep(runId) => RevokeAll(s, s', runId)
  }

  ghost predicate Next(s: State, s': State) {
    exists step :: Does(s, s', step)
  }

  ghost predicate Stepped(ss: seq<State>, i: int)
    requires 0 <= i < |ss| - 1
  {
    Next(ss[i], ss[i + 1])
  }

  /** A history of the gateway from a start with nothing in flight and no row over its limit. */
  ghost predicate History(ss: seq<State>) {
    && |ss| > 0
    && ss[0].validations == map[] && ss[0].writers == map[]
    && (forall c :: c in ss[0].caps ==> ss[0].caps[c].usedCount <= ss[0].caps[c].maxUses)
    && forall i {:trigger Stepped(ss, i)} :: 0 <= i < |ss| - 1 ==> Stepped(ss, i)
  }

  lemma StepInto(ss: seq<State>, i: nat) returns (step: Step)
    requires History(ss) && 0 < i < |ss|
    ensures Does(ss[i - 1], ss[i], step)
  {
    assert Stepped(ss, i - 1);
    step :| Does(ss[i - 1], ss[i], step);
  }

  // ---- What never changes ----

  /** A validation past its registry read remembers the right run of an existing row. */
  ghost predicate WellRead(s: State) {
    forall v :: v in s.validations ==>
      match s.validations[v]
      case CapabilityRead(jti, runId) => jti in s.caps && s.caps[jti].runId == runId
      case RunRead(jti) => jti in s.caps
      case Accepted(jti) => jti in s.caps
      case _ => true
  }

  /** Rows stay, keep their run and limit, and never lose a revocation. */
  ghost predicate RowsPersist(s: State, s': State) {
    forall c :: c in s.caps ==>
      && c in s'.caps && s'.caps[c].runId == s.caps[c].runId && s'.caps[c].maxUses == s.caps[c].maxUses
      && (s.caps[c].revoked ==> s'.caps[c].revoked)
  }

  lemma RowsAlwaysPersist(s: State, s': State, step: Step)
    requires Does(s, s', step)
    ensures RowsPersist(s, s')
  {
  }

  lemma StepKeepsWellRead(s: State, s': State, step: Step)
    requires Does(s, s', step) && WellRead(s)
    ensures WellRead(s')
  {
    RowsAlwaysPersist(s, s', step);
  }

  lemma {:induction false} AlwaysWellRead(ss: seq<State>, i: nat)
    requires History(ss) && i < |ss|
    ensures WellRead(ss[i])
  {
    if i > 0 {
      AlwaysWellRead(ss, i - 1);
      var step := StepInto(ss, i);
      StepKeepsWellRead(ss[i - 1], ss[i], step);
    }
  }

  // ---- What an acceptance takes ----

  /** The step that brought a validation into its present phase. */
  lemma {:induction false} PhaseEntered(ss: seq<State>, i: nat, v: nat) returns (j: nat, step: Step)
    requires History(ss) && i < |ss| && v in ss[i].validations
    ensures j < i && Does(ss[j], ss[j + 1], step)
    ensures v in ss[j + 1].validations && ss[j + 1].validations[v] == ss[i].validations[v]
    ensures v !in ss[j].validations || ss[j].validations[v] != ss[i].validations[v]
  {
    step := StepInto(ss, i);
    j := i - 1;
    if v in ss[j].validations && ss[j].validations[v] == ss[i].validations[v] {
      j, step := PhaseEntered(ss, j, v);
    }
  }

  /**
   * Every accepted validation passed, in this order: a token with the right audience, in its
   * time span, for a class covering the action; then a live, unexpired, unspent row with the
   * token's scope; then an active run of that row.
   */
  lemma AcceptedPassedEveryCheck(ss: seq<State>, i: nat, v: nat, c: CapId)
    returns (a: nat, b: nat, r: nat, token: Claims, nowSecs: int, requested: string, now: int)
    requires History(ss) && i < |ss| && v in ss[i].validations && ss[i].validations[v] == Accepted(c)
    ensures a < b < r < i
    ensures Does(ss[a], ss[a + 1], ArriveStep(v, Some(token), nowSecs, requested))
    ensures token.jti == c && token.aud == "wooblay:gateway" && ActionClassMatches(token.actionClass, requested)
    ensures token.iat - 60 <= nowSecs <= token.exp + 60
    ensures Does(ss[b], ss[b + 1], ReadCapabilityStep(v, now)) && c in ss[b].caps
    ensures var row := ss[b].caps[c];
            !row.revoked && now <= row.expiresAt && row.usedCount < row.maxUses && row.scopeHash == token.scopeHash
    ensures Does(ss[r], ss[r + 1], ReadRunStep(v)) && ss[b].caps[c].runId in ss[r].runs
    ensures ss[r].runs[ss[b].caps[c].runId] in {Running, Scheduled}
  {
    var d, counted := PhaseEntered(ss, i, v);
    assert counted == IncrementStep(v) && ss[d].validations[v] == RunRead(c);
    var runRead, rowRead, arrived;
    r, runRead := PhaseEntered(ss, d, v);
    assert runRead == ReadRunStep(v) && ss[r].validations[v].CapabilityRead?;
    b, rowRead := PhaseEntered(ss, r, v);
    assert rowRead.ReadCapabilityStep? && rowRead.v == v && ss[b].validations[v].Checked?;
    now := rowRead.now;
    a, arrived := PhaseEntered(ss, b, v);
    assert arrived.ArriveStep? && arrived.v == v && arrived.claims.Some?;
    token, nowSecs, requested := arrived.claims.value, arrived.nowSecs, arrived.requested;
  }

  // ---- Uses ----

  /** Past the registry check, not yet counted. */
  predicate IsPending(p: Phase, c: CapId) {
    (p.CapabilityRead? || p.RunRead?) && p.jti == c
  }

  predicate IsInFlight(p: Phase, c: CapId) {
    (p.Checked? && p.jti == c) || IsPending(p, c)
  }

  function PendingOn(s: State, c: CapId): set<nat> {
    set v | v in s.validations && IsPending(s.validations[v], c)
  }

  /** Validations of one capability that were admitted by their claims and have not answered yet. */
  function InFlight(s: State, c: CapId): set<nat> {
    set v | v in s.validations && IsInFlight(s.validations[v], c)
  }

  ghost predicate UsesBounded(s: State, c: CapId, k: nat) {
    c in s.caps ==> s.caps[c].usedCount + |PendingOn(s, c)| <= s.caps[c].maxUses + k - 1
  }

  lemma ReadKeepsBound(s: State, s': State, c: CapId, k: nat, v: nat, now: int)
    requires k > 0 && UsesBounded(s, c, k) && ReadCapability(s, s', v, now)
    requires |InFlight(s', c)| <= k
    ensures UsesBounded(s', c, k)
  {
    if IsPending(s'.validations[v], c) {
      SubsetSize(PendingOn(s', c), InFlight(s', c));
    } else {
      SubsetSize(PendingOn(s', c), PendingOn(s, c));
    }
  }

  lemma IncrementKeepsBound(s: State, s': State, c: CapId, k: nat, v: nat)
    requires UsesBounded(s, c, k) && Increment(s, s', v)
    ensures UsesBounded(s', c, k)
  {
    if IsPending(s.validations[v], c) {
      assert v in PendingOn(s, c);
      SubsetSize(PendingOn(s', c), PendingOn(s, c) - {v});
    } else {
      SubsetSize(PendingOn(s', c), PendingOn(s, c));
    }
  }

  lemma StepKeepsBound(s: State, s': State, c: CapId, k: nat, step: Step)
    requires k > 0 && WellRead(s) && UsesBounded(s, c, k) && Does(s, s', step)
    requires |InFlight(s', c)| <= k
    ensures UsesBounded(s', c, k)
  {
    match step
    case ReadCapabilityStep(v, now) =>
      ReadKeepsBound(s, s', c, k, v, now);
    case IncrementStep(v) =>
      IncrementKeepsBound(s, s', c, k, v);
    case _ =>
      SubsetSize(PendingOn(s', c), PendingOn(s, c));
      assert c !in s.caps ==> PendingOn(s, c) == {};
  }

  lemma {:induction false} BoundAlways(ss: seq<State>, c: CapId, k: nat, i: nat)
    requires k > 0 && History(ss) && i < |ss|
    requires forall j :: 0 <= j < |ss| ==> |InFlight(ss[j], c)| <= k
    ensures UsesBounded(ss[i], c, k)
  {
    if i == 0 {
      assert PendingOn(ss[0], c) == {};
    } else {
      BoundAlways(ss, c, k, i - 1);
      AlwaysWellRead(ss, i - 1);
      var step := StepInto(ss, i);
      StepKeepsBound(ss[i - 1], ss[i], c, k, step);
    }
  }

  /**
   * With at most `k` validations of a capability in flight, its use count never exceeds
   * maxUses + k - 1: never maxUses itself when they do not overlap.
   */
  lemma MaxUsesUnderInterleaving(ss: seq<State>, c: CapId, k: nat, i: nat)
    requires k > 0 && History(ss) && i < |ss|
    requires forall j :: 0 <= j < |ss| ==> |InFlight(ss[j], c)| <= k
    ensures c in ss[i].caps ==> ss[i].caps[c].usedCount <= ss[i].caps[c].maxUses + k - 1
  {
    BoundAlways(ss, c, k, i);
  }

  // The bound is tight: `k` validations of a one-use capability that all read before any counts.

  function RacePhase(k: nat, n: nat, v: nat): Phase {
    if n <= k + v then Checked("c", "")
    else if n <= 2 * k + v then CapabilityRead("c", "r")
    else if n <= 3 * k + v then RunRead("c")
    else Accepted("c")
  }

  /** The race after `n` steps: all arrive, all read the row, all read the run, all count. */
  function RaceState(k: nat, n: nat): State {
    State(map["c" := Cap("r", "", 0, false, if n <= 3 * k then 0 else n - 3 * k, 1)],
          map["r" := Running],
          map v | v in Below(k) && v < n :: RacePhase(k, n, v),
          map[])
  }

  /** Where the v-th validation is before and after each of its four steps, and what has been counted. */
  lemma RacePhases(k: nat, v: nat)
    requires v < k
    ensures RacePhase(k, v + 1, v) == RacePhase(k, k + v, v) == Checked("c", "")
    ensures RacePhase(k, k + v + 1, v) == RacePhase(k, 2 * k + v, v) == CapabilityRead("c", "r")
    ensures RacePhase(k, 2 * k + v + 1, v) == RacePhase(k, 3 * k + v, v) == RunRead("c")
    ensures RacePhase(k, 3 * k + v + 1, v) == Accepted("c")
  {
  }

  lemma OthersWait(k: nat, n: nat, v: nat, u: nat)
    requires v < k && u < k && u != v && (n == v || n == k + v || n == 2 * k + v || n == 3 * k + v)
    ensures u < n <==> u < n + 1
    ensures RacePhase(k, n, u) == RacePhase(k, n + 1, u)
  {
  }

  lemma RaceMoves(k: nat, n: nat, v: nat)
    requires v < k && (n == v || n == k + v || n == 2 * k + v || n == 3 * k + v)
    ensures RaceState(k, n + 1).validations == RaceState(k, n).validations[v := RacePhase(k, n + 1, v)]
    ensures if n == v then v !in RaceState(k, n).validations
            else v in RaceState(k, n).validations && RaceState(k, n).validations[v] == RacePhase(k, n, v)
  {
    BelowCount(k);
    forall u: nat | u < k && u != v
      ensures u < n <==> u < n + 1
      ensures RacePhase(k, n, u) == RacePhase(k, n + 1, u)
    {
      OthersWait(k, n, v, u);
    }
  }

  const RACE_TOKEN := Claims(TOKEN_AUD, 0, 0, "c", "*", "")

  lemma ArrivesNext(s: State, s': State, v: nat)
    requires v !in s.validations && s' == s.(validations := s.validations[v := Checked("c", "")])
    ensures Next(s, s')
  {
    assert Does(s, s', ArriveStep(v, Some(RACE_TOKEN), 0, "*"));
  }

  lemma ReadsRowNext(s: State, s': State, v: nat)
    requires v in s.validations && s.validations[v] == Checked("c", "")
    requires s.caps == map["c" := Cap("r", "", 0, false, 0, 1)]
    requires s' == s.(validations := s.validations[v := CapabilityRead("c", "r")])
    ensures Next(s, s')
  {
    assert Does(s, s', ReadCapabilityStep(v, 0));
  }

  lemma ReadsRunNext(s: State, s': State, v: nat)
    requires v in s.validations && s.validations[v] == CapabilityRead("c", "r") && s.runs == map["r" := Running]
    requires s' == s.(validations := s.validations[v := RunRead("c")])
    ensures Next(s, s')
  {
    assert Does(s, s', ReadRunStep(v));
  }

  lemma CountsNext(s: State, s': State, v: nat, used: nat)
    requires v in s.validations && s.validations[v] == RunRead("c")
    requires s.caps == map["c" := Cap("r", "", 0, false, used, 1)]
    requires s' == s.(caps := map["c" := Cap("r", "", 0, false, used + 1, 1)],
                      validations := s.validations[v := Accepted("c")])
    ensures Next(s, s')
  {
    assert s'.caps == s.caps["c" := s.caps["c"].(usedCount := used + 1)];
    assert Does(s, s', IncrementStep(v));
  }

  lemma RaceStep(k: nat, n: nat)
    requires n < 4 * k
    ensures Next(RaceState(k, n), RaceState(k, n + 1))
  {
    var s, s' := RaceState(k, n), RaceState(k, n + 1);
    var v := if n < k then n else if n < 2 * k then n - k else if n < 3 * k then n - 2 * k else n - 3 * k;
    RaceMoves(k, n, v);
    RacePhases(k, v);
    if n < k {
      ArrivesNext(s, s', v);
    } else if n < 2 * k {
      ReadsRowNext(s, s', v);
    } else if n < 3 * k {
      ReadsRunNext(s, s', v);
    } else {
      CountsNext(s, s', v, v);
    }
  }

  lemma BoundIsReached(k: nat) returns (ss: seq<State>)
    requires k > 0
    ensures History(ss) && forall j :: 0 <= j < |ss| ==> |InFlight(ss[j], "c")| <= k
    ensures var last := ss[|ss| - 1].caps;
            "c" in last && last["c"].usedCount == last["c"].maxUses + k - 1
  {
    ss := seq(4 * k + 1, n requires 0 <= n < 4 * k + 1 => RaceState(k, n));
    forall i | 0 <= i < |ss| - 1 ensures Stepped(ss, i) {
      RaceStep(k, i);
    }
    BelowCount(k);
    forall j | 0 <= j < |ss| ensures |InFlight(ss[j], "c")| <= k {
      SubsetSize(InFlight(ss[j], "c"), Below(k));
    }
  }

  // ---- Revocation and quarantine ----

  /** `v` can no longer be accepted for `c` without passing a check again. */
  predicate NotPast(s: State, v: nat, c: CapId) {
    v in s.validations ==> !IsPending(s.validations[v], c) && s.validations[v] != Accepted(c)
  }

  lemma StepKeepsRevoked(s: State, s': State, c: CapId, v: nat, step: Step)
    requires Does(s, s', step) && c in s.caps && s.caps[c].revoked && NotPast(s, v, c)
    ensures c in s'.caps && s'.caps[c].revoked && NotPast(s', v, c)
  {
    RowsAlwaysPersist(s, s', step);
  }

  /** A validation that has not read a revoked capability by now is never accepted for it. */
  lemma {:induction false} RevocationIsForever(ss: seq<State>, c: CapId, v: nat, i: nat, j: nat)
    requires History(ss) && i <= j < |ss|
    requires c in ss[i].caps && ss[i].caps[c].revoked && NotPast(ss[i], v, c)
    ensures c in ss[j].caps && ss[j].caps[c].revoked && NotPast(ss[j], v, c)
    ensures v in ss[j].validations ==> ss[j].validations[v] != Accepted(c)
    decreases j
  {
    if i < j {
      RevocationIsForever(ss, c, v, i, j - 1);
      var step := StepInto(ss, j);
      StepKeepsRevoked(ss[j - 1], ss[j], c, v, step);
    }
  }

  /**
   * The revocation write of quarantine covers exactly the run's capabilities, and for good: no
   * validation that has not read such a capability by then is ever accepted for it.
   */
  lemma QuarantineRevokes(ss: seq<State>, runId: RunId, c: CapId, v: nat, i: nat, j: nat)
    requires History(ss) && i < j < |ss| && Does(ss[i], ss[i + 1], RevokeStep(runId)) && c in ss[i].caps
    ensures ss[i + 1].caps[c].revoked <==> ss[i].caps[c].revoked || ss[i].caps[c].runId == runId
    ensures ss[i].caps[c].runId == runId && NotPast(ss[i + 1], v, c) ==>
              && c in ss[j].caps && ss[j].caps[c].revoked && NotPast(ss[j], v, c)
              && (v in ss[j].validations ==> ss[j].validations[v] != Accepted(c))
  {
    if ss[i].caps[c].runId == runId && NotPast(ss[i + 1], v, c) {
      RevocationIsForever(ss, c, v, i + 1, j);
    }
  }

  /** `v` has not yet seen an active run for a capability of `runId`. */
  ghost predicate RunNotSeen(s: State, v: nat, runId: RunId) {
    v in s.validations ==>
      match s.validations[v]
      case RunRead(jti) => jti in s.caps && s.caps[jti].runId != runId
      case Accepted(jti) => jti in s.caps && s.caps[jti].runId != runId
      case _ => true
  }

  lemma StepKeepsRunNotSeen(s: State, s': State, v: nat, runId: RunId, step: Step)
    requires Does(s, s', step) && WellRead(s) && RunNotSeen(s, v, runId)
    requires runId in s.runs && !IsActive(s.runs[runId])
    ensures RunNotSeen(s', v, runId)
  {
    RowsAlwaysPersist(s, s', step);
  }

  /** While a run stays inactive, no validation that had not seen it active gets through. */
  lemma {:induction false} InactiveRunBlocks(ss: seq<State>, runId: RunId, v: nat, i: nat, j: nat)
    requires History(ss) && i <= j < |ss|
    requires forall m :: i <= m < j ==> runId in ss[m].runs && !IsActive(ss[m].runs[runId])
    requires RunNotSeen(ss[i], v, runId)
    ensures RunNotSeen(ss[j], v, runId)
    ensures forall c :: v in ss[j].validations && ss[j].validations[v] == Accepted(c) ==>
              c in ss[j].caps && ss[j].caps[c].runId != runId
    decreases j
  {
    if i < j {
      InactiveRunBlocks(ss, runId, v, i, j - 1);
      AlwaysWellRead(ss, j - 1);
      var step := StepInto(ss, j);
      StepKeepsRunNotSeen(ss[j - 1], ss[j], v, runId, step);
    }
  }

  function WritersOf(s: State, runId: RunId): set<nat> {
    set w | w in s.writers && s.writers[w].runId == runId
  }

  /** Status writes of one run do not overlap. */
  ghost predicate SerialWrites(ss: seq<State>, runId: RunId) {
    forall i :: 0 <= i < |ss| ==> |WritersOf(ss[i], runId)| <= 1
  }

  /** What the table check established is still true when the write happens. */
  ghost predicate WritesAllowed(s: State, runId: RunId) {
    forall w :: w in WritersOf(s, runId) ==> runId in s.runs && CanTransition(s.runs[runId], s.writers[w].to)
  }

  lemma StepKeepsWritesAllowed(s: State, s': State, runId: RunId, step: Step)
    requires Does(s, s', step) && WritesAllowed(s, runId)
    requires |WritersOf(s, runId)| <= 1 && |WritersOf(s', runId)| <= 1
    ensures WritesAllowed(s', runId)
    ensures runId in s.runs ==>
              && runId in s'.runs
              && (s'.runs[runId] == s.runs[runId] || CanTransition(s.runs[runId], s'.runs[runId]))
  {
    if step.WriteStatusStep? && s.writers[step.w].runId == runId {
      assert step.w in WritersOf(s, runId);
      forall u | u in WritersOf(s', runId) ensures false {
        assert u in WritersOf(s, runId);
        OnlyOne(WritersOf(s, runId), u, step.w);
      }
    }
  }

  lemma {:induction false} WritesStayAllowed(ss: seq<State>, runId: RunId, i: nat)
    requires History(ss) && SerialWrites(ss, runId) && i < |ss|
    ensures WritesAllowed(ss[i], runId)
  {
    if i > 0 {
      WritesStayAllowed(ss, runId, i - 1);
      var step := StepInto(ss, i);
      StepKeepsWritesAllowed(ss[i - 1], ss[i], runId, step);
    }
  }

  // A status is final when no write in flight leads out of a set that the table does not leave.

  const SEALED := {Quarantined, Cancelled}
  const ENDED := {Quarantined, Cancelled, Completed, Failed}

  predicate Closed(ok: set<Status>) {
    forall from, to :: from in ok && CanTransition(from, to) ==> to in ok
  }

  /** The run's status is in the set and every write of it in flight will leave it there. */
  predicate Within(s: State, runId: RunId, ok: set<Status>) {
    && runId in s.runs && s.runs[runId] in ok
    && forall w :: w in s.writers && s.writers[w].runId == runId ==> s.writers[w].to in ok
  }

  lemma StepKeepsWithin(s: State, s': State, runId: RunId, ok: set<Status>, step: Step)
    requires Does(s, s', step) && Closed(ok) && Within(s, runId, ok)
    ensures Within(s', runId, ok)
  {
  }

  lemma {:induction false} StaysWithin(ss: seq<State>, runId: RunId, ok: set<Status>, i: nat, j: nat)
    requires History(ss) && i <= j < |ss| && Closed(ok) && Within(ss[i], runId, ok)
    ensures Within(ss[j], runId, ok)
    decreases j
  {
    if i < j {
      StaysWithin(ss, runId, ok, i, j - 1);
      var step := StepInto(ss, j);
      StepKeepsWithin(ss[j - 1], ss[j], runId, ok, step);
    }
  }

  lemma OneMoreState(ss: seq<State>, s: State)
    requires History(ss) && Next(ss[|ss| - 1], s)
    ensures History(ss + [s])
  {
    forall i | 0 <= i < |ss| ensures Stepped(ss + [s], i) {
      assert i < |ss| - 1 ==> Stepped(ss, i);
    }
  }

  /** In every continuation of the history the run's status is in the set. */
  ghost predicate ForGood(ss: seq<State>, runId: RunId, ok: set<Status>)
    requires ss != []
  {
    forall more: seq<State> :: History(ss + more) ==> HasStatus(Latest(ss + more), runId, ok)
  }

  function Latest(ss: seq<State>): State
    requires ss != []
  {
    ss[|ss| - 1]
  }

  predicate HasStatus(s: State, runId: RunId, ok: set<Status>) {
    runId in s.runs && s.runs[runId] in ok
  }

  lemma WithinIsForGood(ss: seq<State>, runId: RunId, ok: set<Status>)
    requires History(ss) && Closed(ok) && Within(Latest(ss), runId, ok)
    ensures ForGood(ss, runId, ok)
  {
    forall more: seq<State> | History(ss + more) ensures HasStatus(Latest(ss + more), runId, ok) {
      StaysWithin(ss + more, runId, ok, |ss| - 1, |ss| + |more| - 1);
    }
  }

  /**
   * Quarantine is final exactly when no write that leads elsewhere is in flight: then, and only
   * then, the run is quarantined or cancelled in every continuation.
   */
  lemma QuarantineStatusIsFinal(ss: seq<State>, runId: RunId)
    requires History(ss)
    ensures ForGood(ss, runId, SEALED) <==> Within(Latest(ss), runId, SEALED)
  {
    var s := Latest(ss);
    if Within(s, runId, SEALED) {
      WithinIsForGood(ss, runId, SEALED);
    } else if !HasStatus(s, runId, SEALED) {
      assert ss + [] == ss;
    } else {
      var w :| w in s.writers && s.writers[w].runId == runId && s.writers[w].to !in SEALED;
      WriteEscapes(ss, runId, SEALED, w);
    }
  }

  lemma WriteEscapes(ss: seq<State>, runId: RunId, ok: set<Status>, w: nat)
    requires History(ss) && w in Latest(ss).writers
    requires Latest(ss).writers[w].runId == runId && Latest(ss).writers[w].to !in ok
    ensures !ForGood(ss, runId, ok)
  {
    var s := Latest(ss);
    var s' := s.(runs := s.runs[runId := s.writers[w].to], writers := s.writers - {w});
    assert Does(s, s', WriteStatusStep(w));
    OneMoreState(ss, s');
    assert Latest(ss + [s']) == s';
  }

  /** When status writes of a run do not overlap, its quarantine is final. */
  lemma SerialWritesSeal(ss: seq<State>, runId: RunId)
    requires History(ss) && SerialWrites(ss, runId)
    requires runId in Latest(ss).runs && Latest(ss).runs[runId] == Quarantined
    ensures Within(Latest(ss), runId, SEALED)
  {
    WritesStayAllowed(ss, runId, |ss| - 1);
    forall w | w in Latest(ss).writers && Latest(ss).writers[w].runId == runId
      ensures Latest(ss).writers[w].to in SEALED
    {
      assert w in WritersOf(Latest(ss), runId);
    }
  }

  /**
   * Quarantine is final for credentials from its first write on: once no write in flight leads
   * out of the ended statuses, no validation that has not yet seen the run active is ever
   * accepted for one of its capabilities, not even for a capability minted later and not even
   * before the revocation write.
   */
  lemma QuarantineIsFinal(ss: seq<State>, runId: RunId, v: nat, i: nat, j: nat)
    requires History(ss) && i <= j < |ss|
    requires Within(ss[i], runId, ENDED) && RunNotSeen(ss[i], v, runId)
    ensures RunNotSeen(ss[j], v, runId)
    ensures forall c :: v in ss[j].validations && ss[j].validations[v] == Accepted(c) ==>
              c in ss[j].caps && ss[j].caps[c].runId != runId
  {
    forall m | i <= m < j
      ensures runId in ss[m].runs && !IsActive(ss[m].runs[runId])
    {
      StaysWithin(ss, runId, ENDED, i, m);
    }
    InactiveRunBlocks(ss, runId, v, i, j);
  }

  // The condition is exact: otherwise the run can become active again.

  const INACTIVE := {Pending, Paused, Quarantined, Cancelled, Completed, Failed}

  /** A status from which the table leads to an active one. */
  lemma PendingCanBecomeActive(ss: seq<State>, runId: RunId)
    requires History(ss) && HasStatus(Latest(ss), runId, {Pending, Paused})
    ensures !ForGood(ss, runId, INACTIVE)
  {
    var s := Latest(ss);
    var to := if s.runs[runId] == Pending then Scheduled else Running;
    var w := FreshNumber(s.writers.Keys);
    var s' := s.(writers := s.writers[w := Writer(runId, to)]);
    assert Does(s, s', BeginTransitionStep(w, runId, to));
    OneMoreState(ss, s');
    WriteEscapes(ss + [s'], runId, INACTIVE, w);
    LongerEscape(ss, s', runId, INACTIVE);
  }

  lemma LongerEscape(ss: seq<State>, s: State, runId: RunId, ok: set<Status>)
    requires ss != [] && !ForGood(ss + [s], runId, ok)
    ensures !ForGood(ss, runId, ok)
  {
    var more: seq<State> :| History((ss + [s]) + more) && !HasStatus(Latest((ss + [s]) + more), runId, ok);
    assert (ss + [s]) + more == ss + ([s] + more);
    assert History(ss + ([s] + more));
  }

  /** A run is inactive for good exactly when it has ended and every write in flight leaves it so. */
  lemma InactiveForGoodIff(ss: seq<State>, runId: RunId)
    requires History(ss)
    ensures ForGood(ss, runId, INACTIVE) <==> Within(Latest(ss), runId, ENDED)
  {
    var s := Latest(ss);
    if Within(s, runId, ENDED) {
      WithinIsForGood(ss, runId, ENDED);
    } else if !HasStatus(s, runId, INACTIVE) {
      assert ss + [] == ss;
    } else if HasStatus(s, runId, {Pending, Paused}) {
      PendingCanBecomeActive(ss, runId);
    } else {
      var w :| w in s.writers && s.writers[w].runId == runId && s.writers[w].to !in ENDED;
      if s.writers[w].to in INACTIVE {
        WriteReopens(ss, runId, w);
      } else {
        WriteEscapes(ss, runId, INACTIVE, w);
      }
    }
  }

  lemma WriteReopens(ss: seq<State>, runId: RunId, w: nat)
    requires History(ss) && w in Latest(ss).writers
    requires Latest(ss).writers[w].runId == runId && Latest(ss).writers[w].to in {Pending, Paused}
    ensures !ForGood(ss, runId, INACTIVE)
  {
    var s := Latest(ss);
    var s' := s.(runs := s.runs[runId := s.writers[w].to], writers := s.writers - {w});
    assert Does(s, s', WriteStatusStep(w));
    OneMoreState(ss, s');
    PendingCanBecomeActive(ss + [s'], runId);
    LongerEscape(ss, s', runId, INACTIVE);
  }

  lemma BothBegin(s0: State, s1: State, s2: State)
    requires s0 == State(map[], map["r" := Paused], map[], map[])
    requires s1 == s0.(writers := map[0 := Writer("r", Running)])
    requires s2 == s1.(writers := map[0 := Writer("r", Running), 1 := Writer("r", Quarantined)])
    ensures Next(s0, s1) && Next(s1, s2)
  {
    assert Does(s0, s1, BeginTransitionStep(0, "r", Running));
    assert Does(s1, s2, BeginTransitionStep(1, "r", Quarantined));
  }

  lemma BothWrite(s2: State, s3: State, s4: State)
    requires s2 == State(map[], map["r" := Paused], map[],
                         map[0 := Writer("r", Running), 1 := Writer("r", Quarantined)])
    requires s3 == s2.(runs := map["r" := Quarantined], writers := map[0 := Writer("r", Running)])
    requires s4 == s3.(runs := map["r" := Running], writers := map[])
    ensures Next(s2, s3) && Next(s3, s4)
  {
    assert Does(s2, s3, WriteStatusStep(1));
    assert Does(s3, s4, WriteStatusStep(0));
  }

  /**
   * A history with such a write in flight: a resume that read "paused" before the quarantine
   * overwrites it. The revocation still holds, by `QuarantineRevokes`.
   */
  lemma ResumeCanOverwriteQuarantine() returns (ss: seq<State>)
    ensures History(ss) && |ss| == 5
    ensures "r" in ss[3].runs && "r" in ss[4].runs && ss[3].runs["r"] == Quarantined && ss[4].runs["r"] == Running
    ensures forall i :: 0 <= i < |ss| ==> |WritersOf(ss[i], "r")| <= 2
  {
    var resume, quarantine := Writer("r", Running), Writer("r", Quarantined);
    var s0 := State(map[], map["r" := Paused], map[], map[]);
    var s1 := s0.(writers := map[0 := resume]);
    var s2 := s1.(writers := map[0 := resume, 1 := quarantine]);
    var s3 := s2.(runs := map["r" := Quarantined], writers := map[0 := resume]);
    var s4 := s3.(runs := map["r" := Running], writers := map[]);
    BothBegin(s0, s1, s2);
    BothWrite(s2, s3, s4);
    ss := [s0, s1, s2, s3, s4];
    assert Stepped(ss, 0) && Stepped(ss, 1) && Stepped(ss, 2) && Stepped(ss, 3);
    forall i | 0 <= i < |ss|
      ensures |WritersOf(ss[i], "r")| <= 2
    {
      SubsetSize(WritersOf(ss[i], "r"), {0, 1});
    }
  }
}
