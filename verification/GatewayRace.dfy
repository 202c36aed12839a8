/**
 * Overlapping gateway requests (routes/gateway.ts): the replay check reads the cache, the layers
 * run, and the result is cached, with other requests in between.
 */
module GatewayRace {
  import opened Common
  import opened Gateway

  /** A request that missed the cache: before and after it executed. */
  datatype Request = Request(key: string, executed: bool)

  /** When a request executed. */
  datatype Execution = Execution(key: string, at: int)

  /**
   * `missed`, `executions`, `lost` and `cachedAt` are history: when each request missed the cache,
   * when it executed, which ones ended with nothing cached, and when each key was cached last.
   */
  datatype State = State(
    store: map<string, Entry>,
    requests: map<nat, Request>,
    clock: int,
    missed: map<nat, Execution>,
    executions: map<nat, Execution>,
    lost: set<nat>,
    cachedAt: map<string, int>)

  const EMPTY := State(map[], map[], 0, map[], map[], {}, map[])

  datatype Step =
    | Look(r: nat, key: string, now: int)
    | Run(r: nat, now: int)
    | Cache(r: nat, statusCode: int, body: string, now: int)
    | Lose(r: nat)

  predicate Hit(s: State, key: string, now: int) {
    key in s.store && now < s.store[key].expiresAt
  }

  /** Only an executed request can have succeeded. */
  predicate Enabled(s: State, step: Step) {
    match step
    case Look(r, key, now) => r !in s.missed && s.clock <= now
    case Run(r, now) => r in s.requests && !s.requests[r].executed && s.clock <= now
    case Cache(r, code, _, now) => r in s.requests && s.clock <= now && (200 <= code < 300 ==> s.requests[r].executed)
    case Lose(r) => r in s.requests
  }

  function Apply(s: State, step: Step): State
    requires Enabled(s, step)
  {
    match step
    case Look(r, key, now) =>
      if Hit(s, key, now) then s.(clock := now)
      else s.(clock := now, requests := s.requests[r := Request(key, false)], missed := s.missed[r := Execution(key, now)])
    case Run(r, now) =>
      var q := s.requests[r];
      s.(clock := now, requests := s.requests[r := q.(executed := true)],
         executions := s.executions[r := Execution(q.key, now)])
    case Cache(r, code, body, now) =>
      var q := s.requests[r];
      s.(clock := now, requests := s.requests - {r}, store := s.store[q.key := Entry(code, body, now + Ttl(code))],
         cachedAt := s.cachedAt[q.key := now])
    case Lose(r) => s.(requests := s.requests - {r}, lost := s.lost + {r})
  }

  ghost predicate Next(s: State, s': State) {
    exists step :: Enabled(s, step) && Apply(s, step) == s'
  }

  ghost predicate Stepped(ss: seq<State>, i: int)
    requires 0 <= i < |ss| - 1
  {
    Next(ss[i], ss[i + 1])
  }

  ghost predicate History(ss: seq<State>) {
    && |ss| > 0 && ss[0] == EMPTY
    && forall i {:trigger Stepped(ss, i)} :: 0 <= i < |ss| - 1 ==> Stepped(ss, i)
  }

  function Latest(ss: seq<State>): State
    requires ss != []
  {
    ss[|ss| - 1]
  }

  lemma StepInto(ss: seq<State>, i: nat) returns (step: Step)
    requires History(ss) && 0 < i < |ss|
    ensures Enabled(ss[i - 1], step) && Apply(ss[i - 1], step) == ss[i]
  {
    assert Stepped(ss, i - 1) && Next(ss[i - 1], ss[i]);
    step :| Enabled(ss[i - 1], step) && Apply(ss[i - 1], step) == ss[i];
  }

  lemma Proceed(ss: seq<State>, step: Step) returns (longer: seq<State>)
    requires History(ss) && Enabled(Latest(ss), step)
    ensures longer == ss + [Apply(Latest(ss), step)] && History(longer)
  {
    var s := Apply(Latest(ss), step);
    longer := ss + [s];
    forall i | 0 <= i < |ss| ensures Stepped(longer, i) {
      if i < |ss| - 1 {
        assert Stepped(ss, i);
      } else {
        assert Next(Latest(ss), s);
      }
    }
  }

  // ---- Executions in one minute ----

  function InFlight(s: State, key: string): set<nat> {
    set r | r in s.requests && s.requests[r].key == key
  }

  /** Executions of a key in the minute from `start` on whose requests did not end with nothing cached. */
  function RanIn(s: State, key: string, start: int): set<nat> {
    set r | r in s.executions && s.executions[r].key == key && r !in s.lost
            && start <= s.executions[r].at < start + IDEMPOTENCY_ERROR_TTL_MS
  }

  predicate CachedSince(s: State, key: string, start: int) {
    key in s.cachedAt && s.cachedAt[key] >= start
  }

  /** What every history keeps: the last cached answer is held for a minute, and the rest is in step. */
  predicate Sound(s: State) {
    && (forall key :: key in s.cachedAt ==>
          && key in s.store && s.cachedAt[key] <= s.clock
          && s.store[key].expiresAt >= s.cachedAt[key] + IDEMPOTENCY_ERROR_TTL_MS)
    && (forall key :: key in s.store ==> key in s.cachedAt)
    && (forall r :: r in s.requests ==> r in s.missed && r !in s.lost)
    && (forall r :: r in s.lost ==> r in s.missed)
    && (forall r :: r in s.executions ==> r in s.missed && s.executions[r].at <= s.clock)
    && (forall r :: r in s.requests ==> (s.requests[r].executed <==> r in s.executions))
  }

  lemma StepKeepsSound(s: State, step: Step)
    requires Enabled(s, step) && Sound(s)
    ensures Sound(Apply(s, step))
  {
  }

  lemma {:induction false} AlwaysSound(ss: seq<State>, i: nat)
    requires History(ss) && i < |ss|
    ensures Sound(ss[i])
  {
    if i > 0 {
      AlwaysSound(ss, i - 1);
      var step := StepInto(ss, i);
      StepKeepsSound(ss[i - 1], step);
    }
  }

  /**
   * Until an answer is cached all that ran in the minute are still in flight; after that nothing
   * new misses, so those that ran and those in flight together never grow.
   */
  predicate Bounded(s: State, key: string, start: int, k: nat) {
    && |RanIn(s, key, start)| <= k
    && (s.clock < start + IDEMPOTENCY_ERROR_TTL_MS ==>
          if CachedSince(s, key, start) then |RanIn(s, key, start) + InFlight(s, key)| <= k
          else RanIn(s, key, start) <= InFlight(s, key))
  }

  // What each step does to the two sets.

  lemma LookSets(s: State, key: string, start: int, step: Step)
    requires step.Look? && Enabled(s, step) && s.requests.Keys <= s.missed.Keys
    ensures RanIn(Apply(s, step), key, start) == RanIn(s, key, start)
    ensures step.key != key || Hit(s, key, step.now) ==> InFlight(Apply(s, step), key) == InFlight(s, key)
    ensures InFlight(s, key) <= InFlight(Apply(s, step), key)
  {
  }

  lemma RunSets(s: State, key: string, start: int, step: Step)
    requires step.Run? && Enabled(s, step)
    ensures InFlight(Apply(s, step), key) == InFlight(s, key)
    ensures RanIn(Apply(s, step), key, start) <= RanIn(s, key, start) + InFlight(s, key)
    ensures step.now >= start + IDEMPOTENCY_ERROR_TTL_MS ==> RanIn(Apply(s, step), key, start) <= RanIn(s, key, start)
  {
  }

  lemma CacheSets(s: State, key: string, start: int, step: Step)
    requires step.Cache? && Enabled(s, step)
    ensures RanIn(Apply(s, step), key, start) == RanIn(s, key, start)
    ensures InFlight(Apply(s, step), key) <= InFlight(s, key)
    ensures s.requests[step.r].key != key ==> InFlight(Apply(s, step), key) == InFlight(s, key)
  {
  }

  lemma LoseSets(s: State, key: string, start: int, step: Step)
    requires step.Lose? && Enabled(s, step)
    ensures RanIn(Apply(s, step), key, start) == RanIn(s, key, start) - {step.r}
    ensures InFlight(Apply(s, step), key) == InFlight(s, key) - {step.r}
  {
  }

  /** A key cached since `start` is still held within the minute. */
  lemma CachedMeansHit(s: State, key: string, start: int, now: int)
    requires Sound(s) && CachedSince(s, key, start) && now < start + IDEMPOTENCY_ERROR_TTL_MS
    ensures Hit(s, key, now)
  {
  }

  lemma NoneRanYet(s: State, key: string, start: int)
    requires Sound(s) && s.clock < start
    ensures RanIn(s, key, start) == {}
  {
  }

  lemma LookKeepsBounded(s: State, key: string, start: int, k: nat, step: Step)
    requires step.Look? && Enabled(s, step) && Sound(s) && Bounded(s, key, start, k)
    ensures Bounded(Apply(s, step), key, start, k)
  {
    LookSets(s, key, start, step);
    if CachedSince(s, key, start) && step.now < start + IDEMPOTENCY_ERROR_TTL_MS {
      CachedMeansHit(s, key, start, step.now);
    }
  }

  lemma RunKeepsBounded(s: State, key: string, start: int, k: nat, step: Step)
    requires step.Run? && Enabled(s, step) && Bounded(s, key, start, k) && |InFlight(s, key)| <= k
    ensures Bounded(Apply(s, step), key, start, k)
  {
    RunSets(s, key, start, step);
    var ran, flying, ran' := RanIn(s, key, start), InFlight(s, key), RanIn(Apply(s, step), key, start);
    if step.now >= start + IDEMPOTENCY_ERROR_TTL_MS {
      SubsetSize(ran', ran);
    } else {
      SubsetSize(ran', ran + flying);
      SubsetSize(ran' + flying, ran + flying);
      assert ran <= flying ==> ran + flying == flying;
    }
  }

  lemma CacheKeepsBounded(s: State, key: string, start: int, k: nat, step: Step)
    requires step.Cache? && Enabled(s, step) && Sound(s) && Bounded(s, key, start, k)
    requires |InFlight(s, key)| <= k
    ensures Bounded(Apply(s, step), key, start, k)
  {
    CacheSets(s, key, start, step);
    var ran, flying, flying' := RanIn(s, key, start), InFlight(s, key), InFlight(Apply(s, step), key);
    SubsetSize(ran + flying', ran + flying);
    assert ran <= flying ==> ran + flying == flying;
    if step.now < start {
      NoneRanYet(s, key, start);
    }
  }

  lemma LoseKeepsBounded(s: State, key: string, start: int, k: nat, step: Step)
    requires step.Lose? && Enabled(s, step) && Bounded(s, key, start, k)
    ensures Bounded(Apply(s, step), key, start, k)
  {
    LoseSets(s, key, start, step);
    var ran, flying := RanIn(s, key, start), InFlight(s, key);
    SubsetSize(ran - {step.r}, ran);
    SubsetSize((ran - {step.r}) + (flying - {step.r}), ran + flying);
  }

  lemma StepKeepsBounded(s: State, key: string, start: int, k: nat, step: Step)
    requires Enabled(s, step) && Sound(s) && Bounded(s, key, start, k)
    requires |InFlight(s, key)| <= k
    ensures Bounded(Apply(s, step), key, start, k)
  {
    match step
    case Look(_, _, _) => LookKeepsBounded(s, key, start, k, step);
    case Run(_, _) => RunKeepsBounded(s, key, start, k, step);
    case Cache(_, _, _, _) => CacheKeepsBounded(s, key, start, k, step);
    case Lose(_) => LoseKeepsBounded(s, key, start, k, step);
  }

  lemma {:induction false} BoundedAlways(ss: seq<State>, key: string, start: int, k: nat, i: nat)
    requires History(ss) && i < |ss|
    requires forall j :: 0 <= j < |ss| ==> |InFlight(ss[j], key)| <= k
    ensures Bounded(ss[i], key, start, k)
  {
    if i == 0 {
      assert RanIn(EMPTY, key, start) == {};
    } else {
      BoundedAlways(ss, key, start, k, i - 1);
      AlwaysSound(ss, i - 1);
      var step := StepInto(ss, i);
      StepKeepsBounded(ss[i - 1], key, start, k, step);
    }
  }

  /**
   * With at most `k` requests of a key in flight, any minute holds at most `k` executions of it
   * by requests that did not end with nothing cached.
   */
  lemma ExecutionsPerMinute(ss: seq<State>, key: string, start: int, k: nat, i: nat)
    requires History(ss) && i < |ss|
    requires forall j :: 0 <= j < |ss| ==> |InFlight(ss[j], key)| <= k
    ensures |RanIn(ss[i], key, start)| <= k
  {
    BoundedAlways(ss, key, start, k, i);
  }

  // The bound is reached.

  /** `k` requests of one key missed together, and the first `n` of them have executed. */
  predicate Together(s: State, key: string, k: nat, n: nat) {
    && s.clock == 0 && s.store == map[] && s.lost == {}
    && s.requests.Keys == s.missed.Keys == Below(k) && s.executions.Keys == Below(n)
    && (forall r :: r in s.requests ==> s.requests[r] == Request(key, r < n))
    && forall r :: r in s.executions ==> s.executions[r] == Execution(key, 0)
  }

  lemma OneMoreMisses(s: State, key: string, k: nat)
    requires Together(s, key, k, 0)
    ensures Enabled(s, Look(k, key, 0)) && Together(Apply(s, Look(k, key, 0)), key, k + 1, 0)
  {
    BelowCount(k);
  }

  lemma OneMoreRuns(s: State, key: string, k: nat, n: nat)
    requires Together(s, key, k, n) && n < k
    ensures Enabled(s, Run(n, 0)) && Together(Apply(s, Run(n, 0)), key, k, n + 1)
  {
    assert n in Below(k) && n !in Below(n) by {
      BelowCount(k);
      BelowCount(n);
    }
    var s' := Apply(s, Run(n, 0));
    assert s'.requests.Keys == s.requests.Keys;
    assert s'.executions.Keys == s.executions.Keys + {n} == Below(n + 1);
    forall r | r in s'.requests ensures s'.requests[r] == Request(key, r < n + 1) {
      assert r in s.requests;
    }
  }

  lemma {:induction false} MissTogether(key: string, k: nat) returns (ss: seq<State>)
    ensures History(ss) && Together(Latest(ss), key, k, 0)
    ensures forall i :: 0 <= i < |ss| ==> ss[i].requests.Keys <= Below(k)
  {
    if k == 0 {
      ss := [EMPTY];
    } else {
      ss := MissTogether(key, k - 1);
      OneMoreMisses(Latest(ss), key, k - 1);
      ss := Proceed(ss, Look(k - 1, key, 0));
    }
  }

  lemma {:induction false} RunTogether(key: string, k: nat, n: nat) returns (ss: seq<State>)
    requires n <= k
    ensures History(ss) && Together(Latest(ss), key, k, n)
    ensures forall i :: 0 <= i < |ss| ==> ss[i].requests.Keys <= Below(k)
  {
    if n == 0 {
      ss := MissTogether(key, k);
    } else {
      ss := RunTogether(key, k, n - 1);
      OneMoreRuns(Latest(ss), key, k, n - 1);
      ss := Proceed(ss, Run(n - 1, 0));
    }
  }

  /** For every k a history with at most k overlapping requests of a key executes it k times in a minute. */
  lemma MinuteBoundIsReached(key: string, k: nat) returns (ss: seq<State>)
    ensures History(ss) && forall i :: 0 <= i < |ss| ==> |InFlight(ss[i], key)| <= k
    ensures |RanIn(Latest(ss), key, 0)| == k
  {
    ss := RunTogether(key, k, k);
    BelowCount(k);
    forall i | 0 <= i < |ss| ensures |InFlight(ss[i], key)| <= k {
      SubsetSize(InFlight(ss[i], key), Below(k));
    }
    assert RanIn(Latest(ss), key, 0) == Below(k);
  }

  // ---- Protection by a cached answer ----

  /** Since `s`, the key has not executed before `until`. */
  predicate NoRunBefore(s: State, s': State, key: string, until: int) {
    forall r :: r in s'.executions && r !in s.executions && s'.executions[r].key == key ==> s'.executions[r].at >= until
  }

  /** In every continuation the key does not execute before then. */
  ghost predicate Protected(ss: seq<State>, key: string, until: int)
    requires ss != []
  {
    forall more: seq<State> :: History(ss + more) ==> NoRunBefore(Latest(ss), Latest(ss + more), key, until)
  }

  /** All requests of the key in flight have executed; with any, no entry they cache expires before `until`. */
  predicate Harmless(s: State, key: string, until: int) {
    && (forall r :: r in InFlight(s, key) ==> s.requests[r].executed)
    && (InFlight(s, key) == {} || until <= s.clock + IDEMPOTENCY_ERROR_TTL_MS)
  }

  predicate Holds(s: State, s': State, key: string, until: int) {
    && NoRunBefore(s, s', key, until)
    && (s'.clock < until ==> Harmless(s', key, until) && key in s'.store && s'.store[key].expiresAt >= until)
  }

  lemma StepKeepsHolding(s: State, s1: State, key: string, until: int, step: Step)
    requires Enabled(s1, step) && Sound(s1) && Holds(s, s1, key, until)
    ensures Holds(s, Apply(s1, step), key, until)
  {
    var s2 := Apply(s1, step);
    assert s1.clock <= s2.clock;
    if s2.clock < until {
      match step
      case Look(_, lookedUp, now) =>
        assert lookedUp == key ==> Hit(s1, key, now);
        HeldRequests(s1, s2, key);
      case Run(r, _) =>
        assert r !in InFlight(s1, key);
        HeldRequests(s1, s2, key);
      case Cache(r, _, _, _) =>
        assert s1.requests[r].key == key ==> r in InFlight(s1, key);
        HeldRequests(s1, s2, key);
      case Lose(_) =>
        HeldRequests(s1, s2, key);
    }
  }

  lemma HeldRequests(s: State, s': State, key: string)
    requires forall r :: r in s'.requests && s'.requests[r].key == key ==> r in s.requests && s.requests[r] == s'.requests[r]
    ensures InFlight(s', key) <= InFlight(s, key)
  {
  }

  lemma {:induction false} KeepsHolding(ss: seq<State>, key: string, until: int, i: nat, j: nat)
    requires History(ss) && i <= j < |ss|
    requires Harmless(ss[i], key, until) && key in ss[i].store && ss[i].store[key].expiresAt >= until
    ensures Holds(ss[i], ss[j], key, until)
    decreases j
  {
    if i < j {
      KeepsHolding(ss, key, until, i, j - 1);
      AlwaysSound(ss, j - 1);
      var step := StepInto(ss, j);
      StepKeepsHolding(ss[i], ss[j - 1], key, until, step);
    }
  }

  /** A request in flight that has not executed still can. */
  lemma WaitingRequestRuns(ss: seq<State>, key: string, until: int, r: nat)
    requires History(ss) && r in InFlight(Latest(ss), key) && !Latest(ss).requests[r].executed
    requires Latest(ss).clock < until
    ensures !Protected(ss, key, until)
  {
    AlwaysSound(ss, |ss| - 1);
    var longer := Proceed(ss, Run(r, Latest(ss).clock));
    assert longer == ss + [Latest(longer)];
    assert !NoRunBefore(Latest(ss), Latest(longer), key, until);
  }

  /** A request in flight can replace the entry by an error, and a minute later a new one executes. */
  lemma ErrorReplacesEntry(ss: seq<State>, key: string, until: int, r: nat)
    requires History(ss) && r in InFlight(Latest(ss), key)
    requires Latest(ss).clock + IDEMPOTENCY_ERROR_TTL_MS < until
    ensures !Protected(ss, key, until)
  {
    AlwaysSound(ss, |ss| - 1);
    var s := Latest(ss);
    var later := s.clock + IDEMPOTENCY_ERROR_TTL_MS;
    var newcomer := FreshNumber(s.missed.Keys);
    var one := Proceed(ss, Cache(r, 403, "", s.clock));
    var two := Proceed(one, Look(newcomer, key, later));
    var three := Proceed(two, Run(newcomer, later));
    assert three == ss + [Latest(one), Latest(two), Latest(three)];
    assert !NoRunBefore(s, Latest(three), key, until);
  }

  /**
   * An entry that has not expired keeps its key from executing until it does, in every
   * continuation, exactly when every request of the key in flight has executed already, and there
   * is none or the entry has at most a minute left: a success is kept for 24 hours only when no
   * other request of its key is in flight.
   */
  lemma ProtectedIff(ss: seq<State>, key: string)
    requires History(ss) && Hit(Latest(ss), key, Latest(ss).clock)
    ensures Protected(ss, key, Latest(ss).store[key].expiresAt) <==>
              Harmless(Latest(ss), key, Latest(ss).store[key].expiresAt)
  {
    var s, until := Latest(ss), Latest(ss).store[key].expiresAt;
    if Harmless(s, key, until) {
      forall more: seq<State> | History(ss + more)
        ensures NoRunBefore(s, Latest(ss + more), key, until)
      {
        KeepsHolding(ss + more, key, until, |ss| - 1, |ss| + |more| - 1);
      }
    } else if r :| r in InFlight(s, key) && !s.requests[r].executed {
      WaitingRequestRuns(ss, key, until, r);
    } else {
      var r :| r in InFlight(s, key);
      ErrorReplacesEntry(ss, key, until, r);
    }
  }

  /** Two requests overlap, the first succeeds and the second fails: the call runs again a minute later. */
  lemma SuccessRunsAgainAfterAMinute(key: string) returns (ss: seq<State>)
    ensures History(ss) && 0 in Latest(ss).executions && 2 in Latest(ss).executions
    ensures Latest(ss).executions[0] == Execution(key, 0)
    ensures Latest(ss).executions[2] == Execution(key, IDEMPOTENCY_ERROR_TTL_MS)
    ensures exists i :: 0 <= i < |ss| && key in ss[i].store && ss[i].clock == 0
                        && ss[i].store[key] == Entry(200, "ok", IDEMPOTENCY_SUCCESS_TTL_MS)
  {
    ss := Proceed([EMPTY], Look(0, key, 0));
    ss := Proceed(ss, Look(1, key, 0));
    ss := Proceed(ss, Run(0, 0));
    ss := Proceed(ss, Run(1, 0));
    ss := Proceed(ss, Cache(0, 200, "ok", 0));
    var succeeded := |ss| - 1;
    assert ss[succeeded].store[key] == Entry(200, "ok", IDEMPOTENCY_SUCCESS_TTL_MS);
    ss := Proceed(ss, Cache(1, 502, "failed", 0));
    ss := Proceed(ss, Look(2, key, IDEMPOTENCY_ERROR_TTL_MS));
    ss := Proceed(ss, Run(2, IDEMPOTENCY_ERROR_TTL_MS));
    assert ss[succeeded].clock == 0;
  }
}
