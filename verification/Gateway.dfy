/** Idempotent gateway calls (routes/gateway.ts): the key, the replay check and the result cache. */
module Gateway {
  import opened Common

  const IDEMPOTENCY_SUCCESS_TTL_MS := 24 * 60 * 60 * 1000
  const IDEMPOTENCY_ERROR_TTL_MS := 60 * 1000

  // ---- The key ----

  /** `params` is their canonical JSON text; `hash` is SHA-256 in hexadecimal. */
  function ComputeIdempotencyKey(hash: string -> string, callerId: string, action: string, params: string): string {
    hash(CallText(hash, callerId, action, params))
  }

  /** Two different texts with one hash. */
  predicate Collide(hash: string -> string, a: string, b: string) {
    a != b && hash(a) == hash(b)
  }

  function ActionText(action: string, params: string): string {
    action + "|" + params
  }

  function CallText(hash: string -> string, callerId: string, action: string, params: string): string {
    callerId + "|" + hash(ActionText(action, params))
  }

  lemma SameAfterLastBar(x: string, h: string, x': string, h': string)
    requires x + "|" + h == x' + "|" + h' && '|' !in h && '|' !in h'
    ensures x == x' && h == h'
  {
    var s := x + "|" + h;
    assert s[|x|] == '|' && s[|x'|] == '|';
    assert forall i :: |x| < i < |s| ==> s[i] == h[i - |x| - 1];
    assert forall i :: |x'| < i < |s| ==> s[i] == h'[i - |x'| - 1];
    assert s[..|x|] == x && s[|x| + 1..] == h;
    assert s[..|x'|] == x' && s[|x'| + 1..] == h';
  }

  /**
   * Reads JSON text from inside or outside a string literal and says where it ends. Outside a
   * literal a JSON text has neither a bar nor a backslash.
   */
  function Scan(s: string, inside: bool): Option<bool> {
    if s == "" then Some(inside)
    else if inside && s[0] == '\\' then if |s| == 1 then None else Scan(s[2..], true)
    else if !inside && (s[0] == '\\' || s[0] == '|') then None
    else Scan(s[1..], if s[0] == '"' then !inside else inside)
  }

  /**
   * A quote opens or closes a literal; in a literal a backslash takes the next character with it;
   * every other character is read alone, but for a bar or a backslash outside.
   */
  lemma ScanReadsOn(c: char, t: string, inside: bool)
    ensures Scan(['"'] + t, inside) == Scan(t, !inside)
    ensures Scan(['\\', c] + t, true) == Scan(t, true)
    ensures c != '"' && c != '\\' && (inside || c != '|') ==> Scan([c] + t, inside) == Scan(t, inside)
    ensures c == '|' || c == '\\' ==> Scan([c] + t, false) == None
    ensures Scan("", inside) == Some(inside)
  {
    assert (['"'] + t)[1..] == t && ([c] + t)[1..] == t && (['\\', c] + t)[2..] == t;
  }

  predicate JsonText(s: string) {
    Scan(s, false) == Some(false)
  }

  /** A text readable from both sides of a quote ends on opposite sides. */
  lemma {:induction false} OppositeEnds(t: string)
    requires Scan(t, false).Some? && Scan(t, true).Some?
    ensures Scan(t, false) != Scan(t, true)
  {
    if t != "" {
      OppositeEnds(t[1..]);
    }
  }

  /** A bar in readable text leaves the rest of it inside a literal. */
  lemma {:induction false} BarsAreQuoted(x: string, t: string, inside: bool)
    requires Scan(x + "|" + t, inside).Some?
    ensures Scan(x + "|" + t, inside) == Scan(t, true)
    decreases |x|
  {
    var s := x + "|" + t;
    if x == "" {
      assert s[1..] == t;
    } else if inside && x[0] == '\\' && |x| == 1 {
      assert s[2..] == t;
    } else if inside && x[0] == '\\' {
      assert s[2..] == x[2..] + "|" + t;
      BarsAreQuoted(x[2..], t, true);
    } else {
      assert s[1..] == x[1..] + "|" + t;
      BarsAreQuoted(x[1..], t, if x[0] == '"' then !inside else inside);
    }
  }

  lemma NoLongerAction(a: string, p: string, a': string, p': string)
    requires a + "|" + p == a' + "|" + p' && JsonText(p) && JsonText(p')
    ensures |a| >= |a'|
  {
    if |a| < |a'| {
      var s, x := a + "|" + p, a'[|a| + 1..];
      assert s[|a'|] == '|' && s[|a'| + 1..] == p';
      assert p == s[|a| + 1..] == x + "|" + p';
      BarsAreQuoted(x, p', false);
      OppositeEnds(p');
    }
  }

  lemma SameAction(a: string, p: string, a': string, p': string)
    requires a + "|" + p == a' + "|" + p' && JsonText(p) && JsonText(p')
    ensures a == a' && p == p'
  {
    NoLongerAction(a, p, a', p');
    NoLongerAction(a', p', a, p);
    var s := a + "|" + p;
    assert s[..|a|] == a && s[..|a|] == a';
    assert s[|a| + 1..] == p && s[|a| + 1..] == p';
  }

  /**
   * One key means one caller, action and parameters, unless the two calls' own texts collide:
   * for every action name, because a bar in the parameters' JSON text can only stand inside a
   * string literal.
   */
  lemma KeySeparatesCalls(hash: string -> string, caller: string, action: string, params: string,
                          caller': string, action': string, params': string)
    requires forall s :: '|' !in hash(s)
    requires JsonText(params) && JsonText(params')
    requires ComputeIdempotencyKey(hash, caller, action, params) == ComputeIdempotencyKey(hash, caller', action', params')
    ensures || (caller == caller' && action == action' && params == params')
            || Collide(hash, ActionText(action, params), ActionText(action', params'))
            || Collide(hash, CallText(hash, caller, action, params), CallText(hash, caller', action', params'))
  {
    var inner, inner' := ActionText(action, params), ActionText(action', params');
    if CallText(hash, caller, action, params) == CallText(hash, caller', action', params') {
      SameAfterLastBar(caller, hash(inner), caller', hash(inner'));
      if inner == inner' {
        SameAction(action, params, action', params');
      }
    }
  }

  // ---- The handler ----

  datatype Entry = Entry(statusCode: int, responseBody: string, expiresAt: int)

  /** What the layers behind the replay check decide. */
  datatype Outcome =
    | Refused(statusCode: int, body: string)   // answered before anything is cached
    | Blocked(statusCode: int, body: string)   // scope or simulation: cached, not executed
    | Ran(success: bool, body: string)         // executed and cached
    | Threw(ran: bool, body: string)           // an exception, before or after the execution: not cached

  /** One answered request. `outcome` is None for a replay; `cacheWorked` says whether a cache write goes through. */
  datatype Answer = Answer(
    key: string, start: int, finish: int, outcome: Option<Outcome>, cacheWorked: bool, statusCode: int, body: string)

  function StatusOf(o: Outcome): int {
    match o
    case Refused(code, _) => code
    case Blocked(code, _) => code
    case Ran(success, _) => if success then 200 else 502
    case Threw(_, _) => 500
  }

  predicate Cached(a: Answer) {
    a.cacheWorked && a.outcome.Some? && (a.outcome.value.Blocked? || a.outcome.value.Ran?)
  }

  function Ttl(statusCode: int): int {
    if 200 <= statusCode < 300 then IDEMPOTENCY_SUCCESS_TTL_MS else IDEMPOTENCY_ERROR_TTL_MS
  }

  /** What was answered is the outcome. */
  predicate Recorded(a: Answer) {
    && a.start <= a.finish
    && (a.outcome.Some? ==> a.statusCode == StatusOf(a.outcome.value) && a.body == a.outcome.value.body)
  }

  /** `b` is a request of the same key made before the cached answer `a` expires. */
  predicate Covers(a: Answer, b: Answer) {
    Cached(a) && a.key == b.key && b.start < a.finish + Ttl(a.statusCode)
  }

  /** A cached answer is what its key returns until it expires, and nothing runs before that. */
  ghost predicate Spaced(log: seq<Answer>) {
    && (forall a :: a in log ==> Recorded(a))
    && forall i, j :: 0 <= i < j < |log| && Covers(log[i], log[j]) ==>
         log[j].outcome == None && log[j].statusCode == log[i].statusCode && log[j].body == log[i].body
  }

  /** The store still holds every cached answer that has not expired at `clock`. */
  ghost predicate Stored(store: map<string, Entry>, log: seq<Answer>, clock: int) {
    forall a :: a in log && Cached(a) && clock < a.finish + Ttl(a.statusCode) ==>
      a.key in store && store[a.key] == Entry(a.statusCode, a.body, a.finish + Ttl(a.statusCode))
  }

  class Gateway {
    var store: map<string, Entry>
    ghost var log: seq<Answer>
    ghost var clock: int

    constructor ()
      ensures Valid() && log == [] && store == map[]
    {
      store := map[];
      log := [];
      clock := 0;
    }

    ghost predicate Valid()
      reads this
    {
      Spaced(log) && Stored(store, log, clock)
    }

    /**
     * POST /api/gateway/execute for an authenticated caller, requests one after another. A cached
     * entry is replayed before it expires. Otherwise the outcome is answered, with 200 or 502 for
     * an execution, and kept for 24 hours after a success and for 60 seconds after an error;
     * nothing is kept of a refusal or an exception. `cacheWorks` is false when the cache write
     * fails, which the handler ignores.
     */
    method Execute(key: string, now: int, outcome: Outcome, finish: int, cacheWorks: bool)
      returns (statusCode: int, body: string, ghost answer: Answer)
      requires Valid() && clock <= now <= finish
      modifies this
      ensures Valid() && clock == answer.finish
      ensures log == old(log) + [answer]
      ensures var replay := key in old(store) && now < old(store)[key].expiresAt;
              answer == Answer(key, now, if replay then now else finish, if replay then None else Some(outcome),
                               cacheWorks, statusCode, body)
      ensures answer.outcome == None ==>
                store == old(store) && statusCode == store[key].statusCode && body == store[key].responseBody
      ensures answer.outcome != None ==> body == outcome.body
      ensures answer.outcome != None && outcome.Ran? ==>
                && statusCode == (if outcome.success then 200 else 502)
                && (cacheWorks ==> store == old(store)[
                      key := Entry(statusCode, body, finish + if outcome.success then 86400000 else 60000)])
      ensures answer.outcome != None && outcome.Blocked? ==>
                && statusCode == outcome.statusCode
                && (cacheWorks ==> store == old(store)[
                      key := Entry(statusCode, body, finish + if 200 <= statusCode < 300 then 86400000 else 60000)])
      ensures answer.outcome != None && (outcome.Refused? || outcome.Threw? || !cacheWorks) ==> store == old(store)
      ensures answer.outcome != None && outcome.Refused? ==> statusCode == outcome.statusCode
      ensures answer.outcome != None && outcome.Threw? ==> statusCode == 500
    {
      if key in store && now < store[key].expiresAt {
        statusCode, body := store[key].statusCode, store[key].responseBody;
        answer := Answer(key, now, now, None, cacheWorks, statusCode, body);
        ReplayStaysSpaced(store, log, clock, answer);
      } else {
        statusCode, body := StatusOf(outcome), outcome.body;
        answer := Answer(key, now, finish, Some(outcome), cacheWorks, statusCode, body);
        FreshAnswerStaysSpaced(store, log, clock, answer);
        if (outcome.Blocked? || outcome.Ran?) && cacheWorks {
          var isSuccess := statusCode >= 200 && statusCode < 300;
          var ttl := if isSuccess then IDEMPOTENCY_SUCCESS_TTL_MS else IDEMPOTENCY_ERROR_TTL_MS;
          store := store[key := Entry(statusCode, body, finish + ttl)];
        }
      }
      log := log + [answer];
      clock := answer.finish;
    }
  }

  lemma ReplayStaysSpaced(store: map<string, Entry>, log: seq<Answer>, clock: int, answer: Answer)
    requires Spaced(log) && Stored(store, log, clock)
    requires clock <= answer.start == answer.finish && answer.key in store && answer.start < store[answer.key].expiresAt
    requires answer.outcome == None
    requires answer.statusCode == store[answer.key].statusCode && answer.body == store[answer.key].responseBody
    ensures Spaced(log + [answer]) && Stored(store, log + [answer], answer.finish)
  {
    assert forall i :: 0 <= i < |log| ==> log[i] in log;
  }

  lemma FreshAnswerStaysSpaced(store: map<string, Entry>, log: seq<Answer>, clock: int, answer: Answer)
    requires Spaced(log) && Stored(store, log, clock)
    requires clock <= answer.start && Recorded(answer)
    requires answer.key in store ==> store[answer.key].expiresAt <= answer.start
    ensures Spaced(log + [answer])
    ensures var e := Entry(answer.statusCode, answer.body, answer.finish + Ttl(answer.statusCode));
            Stored(if Cached(answer) then store[answer.key := e] else store, log + [answer], answer.finish)
  {
    assert forall i :: 0 <= i < |log| ==> log[i] in log;
  }

  /**
   * A cached answer is given to every request of its key for the time of its status, and none of
   * them gets further: 24 hours after a successful execution, 60 seconds after a failed one, and
   * after a block by its code.
   */
  lemma AnswersAreKept(log: seq<Answer>, i: nat, j: nat)
    requires Spaced(log) && i < j < |log| && log[i].key == log[j].key && log[i].cacheWorked
    ensures forall b :: log[i].outcome == Some(Ran(true, b)) && log[j].start < log[i].finish + 86400000 ==>
              log[j].outcome == None && log[j].statusCode == 200 && log[j].body == b
    ensures forall b :: log[i].outcome == Some(Ran(false, b)) && log[j].start < log[i].finish + 60000 ==>
              log[j].outcome == None && log[j].statusCode == 502 && log[j].body == b
    ensures forall code, b ::
              log[i].outcome == Some(Blocked(code, b))
              && log[j].start < log[i].finish + (if 200 <= code < 300 then 86400000 else 60000) ==>
                log[j].outcome == None && log[j].statusCode == code && log[j].body == b
  {
    assert log[i] in log && Recorded(log[i]);
  }

  /**
   * Spacing: after an execution whose result was cached none with its key starts for 60 seconds,
   * after a successful one none for 24 hours.
   */
  lemma ExecutionsAreSpaced(log: seq<Answer>, i: nat, j: nat)
    requires Spaced(log) && i < j < |log| && log[i].key == log[j].key && log[i].cacheWorked
    requires log[i].outcome.Some? && log[i].outcome.value.Ran?
    requires log[j].outcome.Some?
    requires log[j].outcome.value.Ran? || (log[j].outcome.value.Threw? && log[j].outcome.value.ran)
    ensures log[j].start >= log[i].finish + if log[i].outcome.value.success then 86400000 else 60000
  {
    AnswersAreKept(log, i, j);
    assert log[i].outcome == Some(Ran(log[i].outcome.value.success, log[i].outcome.value.body));
  }

  /** Positions of successful executions of one key whose results were cached. */
  ghost predicate Successes(log: seq<Answer>, key: string, at: seq<nat>) {
    && (forall n :: 0 <= n < |at| ==>
          && at[n] < |log| && log[at[n]].key == key && log[at[n]].cacheWorked
          && log[at[n]].outcome.Some? && log[at[n]].outcome.value.Ran? && log[at[n]].outcome.value.success)
    && forall m, n :: 0 <= m < n < |at| ==> at[m] < at[n]
  }

  /** Any n + 1 cached successes of one key, adjacent or not, take at least n days. */
  lemma {:induction false} SuccessesSpanDays(log: seq<Answer>, key: string, at: seq<nat>)
    requires Spaced(log) && Successes(log, key, at) && at != []
    ensures log[at[|at| - 1]].finish - log[at[0]].finish >= (|at| - 1) * 86400000
  {
    if |at| > 1 {
      var init := at[..|at| - 1];
      SuccessesSpanDays(log, key, init);
      ExecutionsAreSpaced(log, at[|at| - 2], at[|at| - 1]);
      assert log[at[|at| - 1]] in log;
    }
  }
}
