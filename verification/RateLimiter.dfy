/** The per-address rate limiter (middleware/rate-limit.ts) and its periodic sweep. */
module RateLimiter {
  import opened Common

  datatype Limit = Limit(max: nat, windowMs: nat)

  /** LIMITS: the row of a route, or the default row. */
  function LimitOf(routeKey: string): Limit {
    if routeKey == "POST:/api/coupons/redeem" then Limit(5, 60000)
    else if routeKey == "POST:/api/webhooks/github" then Limit(100, 60000)
    else if routeKey == "POST:/api/gateway/execute" then Limit(60, 60000)
    else Limit(200, 60000)
  }

  const WINDOW_MS := 60000

  datatype Request = Request(ip: string, verb: string, path: string, time: int)

  function RouteKey(r: Request): string {
    r.verb + ":" + r.path
  }

  function StoreKey(r: Request): string {
    r.ip + ":" + RouteKey(r)
  }

  /** Requests the hook looks at. */
  predicate Limited(r: Request) {
    r.verb != "OPTIONS" && "/api/" <= r.path
  }

  /** The key says method and path, also when they hold colons themselves. */
  lemma RouteIs(r: Request, route: string, path: string)
    requires route == "POST:" + path && ':' !in path
    ensures RouteKey(r) == route <==> r.verb == "POST" && r.path == path
  {
    var key := r.verb + ":" + r.path;
    assert key[|r.verb|] == ':' && key[..|r.verb|] == r.verb && key[|r.verb| + 1..] == r.path;
    if key == route {
      assert forall i :: 4 < i < |key| ==> key[i] == path[i - 5];
      assert key[..4] == "POST" && key[5..] == path;
    }
  }

  lemma CouponsRoute(r: Request)
    ensures RouteKey(r) == "POST:/api/coupons/redeem" <==> r.verb == "POST" && r.path == "/api/coupons/redeem"
  {
    RouteIs(r, "POST:/api/coupons/redeem", "/api/coupons/redeem");
  }

  lemma WebhooksRoute(r: Request)
    ensures RouteKey(r) == "POST:/api/webhooks/github" <==> r.verb == "POST" && r.path == "/api/webhooks/github"
  {
    RouteIs(r, "POST:/api/webhooks/github", "/api/webhooks/github");
  }

  lemma GatewayRoute(r: Request)
    ensures RouteKey(r) == "POST:/api/gateway/execute" <==> r.verb == "POST" && r.path == "/api/gateway/execute"
  {
    RouteIs(r, "POST:/api/gateway/execute", "/api/gateway/execute");
  }

  /** The configured limits, by method and path. */
  lemma RouteLimit(r: Request)
    ensures LimitOf(RouteKey(r)).windowMs == 60000
    ensures LimitOf(RouteKey(r)).max ==
            if r.verb == "POST" && r.path == "/api/coupons/redeem" then 5
            else if r.verb == "POST" && r.path == "/api/webhooks/github" then 100
            else if r.verb == "POST" && r.path == "/api/gateway/execute" then 60
            else 200
  {
    CouponsRoute(r);
    WebhooksRoute(r);
    GatewayRoute(r);
  }

  datatype Entry = Entry(count: nat, resetAt: int)

  type Store = map<string, Entry>

  /** What the caller sees: the three headers, and the wait time of a rejection. */
  datatype Response =
    | NotLimited
    | Admitted(limit: nat, remaining: nat, resetAt: int)
    | Rejected(limit: nat, remaining: nat, resetAt: int, retryAfterMs: int)

  /** The entry after the request has been counted. */
  function Counted(store: Store, r: Request): Entry {
    var k := StoreKey(r);
    if k !in store || store[k].resetAt <= r.time then Entry(1, r.time + LimitOf(RouteKey(r)).windowMs)
    else Entry(store[k].count + 1, store[k].resetAt)
  }

  function Handle(store: Store, r: Request): (Store, Response) {
    if !Limited(r) then (store, NotLimited)
    else
      var e, limit := Counted(store, r), LimitOf(RouteKey(r));
      var remaining := if e.count < limit.max then limit.max - e.count else 0;
      (store[StoreKey(r) := e],
       if e.count > limit.max then Rejected(limit.max, remaining, e.resetAt, e.resetAt - r.time)
       else Admitted(limit.max, remaining, e.resetAt))
  }

  function Swept(store: Store, now: int): Store {
    map k | k in store && store[k].resetAt > now :: store[k]
  }

  // ---- The middleware ----

  class RateLimiter {
    var store: Store

    constructor ()
      ensures store == map[]
    {
      store := map[];
    }

    /**
     * Everything but OPTIONS requests and paths outside the API is counted, under its address,
     * method and path, in a window of a minute that the first request after the last one opens.
     * A request is rejected exactly when it is one more than its route allows.
     */
    method Hook(r: Request) returns (response: Response)
      modifies this
      ensures (store, response) == Handle(old(store), r)
      ensures response == NotLimited <==> r.verb == "OPTIONS" || !("/api/" <= r.path)
      ensures response == NotLimited ==> store == old(store)
      ensures response != NotLimited ==>
                var key, max := r.ip + ":" + r.verb + ":" + r.path, LimitOf(RouteKey(r)).max;
                && key in store && store == old(store)[key := store[key]]
                && (key in old(store) && r.time < old(store)[key].resetAt ==>
                      store[key] == Entry(old(store)[key].count + 1, old(store)[key].resetAt))
                && (key in old(store) ==> r.time < old(store)[key].resetAt || store[key] == Entry(1, r.time + 60000))
                && (key !in old(store) ==> store[key] == Entry(1, r.time + 60000))
                && (response.Rejected? <==> store[key].count > max)
                && response.limit == max && response.resetAt == store[key].resetAt
                && response.remaining == Max(0, max - store[key].count)
                && (response.Rejected? ==> response.retryAfterMs == store[key].resetAt - r.time)
    {
      RouteLimit(r);
      assert StoreKey(r) == r.ip + ":" + r.verb + ":" + r.path;
      if r.verb == "OPTIONS" {
        return NotLimited;
      }
      if !("/api/" <= r.path) {
        return NotLimited;
      }
      var config := LimitOf(RouteKey(r));
      var storeKey := StoreKey(r);
      var entry;
      if storeKey !in store || store[storeKey].resetAt <= r.time {
        entry := Entry(0, r.time + config.windowMs);
      } else {
        entry := store[storeKey];
      }
      entry := entry.(count := entry.count + 1);
      store := store[storeKey := entry];
      var remaining := Max(0, config.max - entry.count);
      if entry.count > config.max {
        return Rejected(config.max, remaining, entry.resetAt, entry.resetAt - r.time);
      }
      return Admitted(config.max, remaining, entry.resetAt);
    }

    /** The timer callback visits every entry and deletes the expired ones. */
    method Sweep(now: int)
      modifies this
      ensures store == Swept(old(store), now)
      ensures forall k :: k in store <==> k in old(store) && old(store)[k].resetAt > now
      ensures forall k :: k in store ==> store[k] == old(store)[k]
    {
      var todo := store.Keys;
      while todo != {}
        invariant todo <= old(store).Keys
        invariant forall k :: k in store <==> k in old(store) && (k in todo || old(store)[k].resetAt > now)
        invariant forall k :: k in store ==> store[k] == old(store)[k]
        decreases todo
      {
        var key :| key in todo;
        if store[key].resetAt <= now {
          store := store - {key};
        }
        todo := todo - {key};
      }
    }
  }

  // ---- Histories ----

  datatype Event = Arrives(r: Request) | SweepAt(now: int)

  function TimeOf(e: Event): int {
    match e case Arrives(r) => r.time case SweepAt(now) => now
  }

  predicate InTime(events: seq<Event>) {
    forall i, j :: 0 <= i < j < |events| ==> TimeOf(events[i]) <= TimeOf(events[j])
  }

  /** The store after a history. */
  function After(events: seq<Event>): Store {
    if events == [] then map[]
    else
      var before := After(events[..|events| - 1]);
      match events[|events| - 1]
      case Arrives(r) => Handle(before, r).0
      case SweepAt(now) => Swept(before, now)
  }

  /** The responses of a history, one a request. */
  function Responses(events: seq<Event>): seq<Response> {
    if events == [] then []
    else
      var init := events[..|events| - 1];
      match events[|events| - 1]
      case Arrives(r) => Responses(init) + [Handle(After(init), r).1]
      case SweepAt(_) => Responses(init)
  }

  function WithoutSweeps(events: seq<Event>): seq<Event> {
    if events == [] then []
    else
      var last := events[|events| - 1];
      WithoutSweeps(events[..|events| - 1]) + if last.Arrives? then [last] else []
  }

  // ---- Sweeping is invisible ----

  /** `b` is `a` with some entries dropped that had expired by `now`. */
  ghost predicate OnlyExpiredMissing(a: Store, b: Store, now: int) {
    && (forall k :: k in b ==> k in a && a[k] == b[k])
    && (forall k :: k in a && k !in b ==> a[k].resetAt <= now)
  }

  lemma {:induction false} SweptStoreAgrees(events: seq<Event>, now: int)
    requires InTime(events)
    requires forall i :: 0 <= i < |events| ==> TimeOf(events[i]) <= now
    ensures OnlyExpiredMissing(After(WithoutSweeps(events)), After(events), now)
    ensures Responses(WithoutSweeps(events)) == Responses(events)
  {
    if events != [] {
      var init, last := events[..|events| - 1], events[|events| - 1];
      SweptStoreAgrees(init, TimeOf(last));
      if last.Arrives? {
        var plain := WithoutSweeps(init);
        assert (plain + [last])[..|plain|] == plain;
        HandleAgrees(After(plain), After(init), last.r, now);
      } else {
        assert WithoutSweeps(events) == WithoutSweeps(init);
        assert forall k :: k in After(init) && k !in After(events) ==> After(init)[k].resetAt <= last.now;
      }
    }
  }

  lemma HandleAgrees(a: Store, b: Store, r: Request, now: int)
    requires OnlyExpiredMissing(a, b, r.time) && r.time <= now
    ensures Handle(a, r).1 == Handle(b, r).1
    ensures OnlyExpiredMissing(Handle(a, r).0, Handle(b, r).0, now)
  {
    var k := StoreKey(r);
    assert k in a && k !in b ==> a[k].resetAt <= r.time;
  }

  /** The sweep never changes an answer: the limiter behaves as if it never swept. */
  lemma SweepIsInvisible(events: seq<Event>)
    requires InTime(events)
    ensures Responses(events) == Responses(WithoutSweeps(events))
  {
    if events != [] {
      SweptStoreAgrees(events, TimeOf(events[|events| - 1]));
    }
  }

  // ---- How much a window admits ----

  /** Requests of one address to one route. */
  predicate Same(r: Request, q: Request) {
    r.ip == q.ip && r.verb == q.verb && r.path == q.path
  }

  /** When requests like `q` got through, counted or not. */
  function PassedAt(events: seq<Event>, q: Request): seq<int> {
    if events == [] then []
    else
      var init := events[..|events| - 1];
      match events[|events| - 1]
      case Arrives(r) =>
        PassedAt(init, q) + if Same(r, q) && !Handle(After(init), r).1.Rejected? then [r.time] else []
      case SweepAt(_) => PassedAt(init, q)
  }

  /** How many of the times lie in [lo, hi). */
  function CountIn(times: seq<int>, lo: int, hi: int): nat {
    if times == [] then 0
    else CountIn(times[..|times| - 1], lo, hi) + if lo <= times[|times| - 1] < hi then 1 else 0
  }

  lemma CountAfter(times: seq<int>, t: int, lo: int, hi: int)
    ensures CountIn(times + [t], lo, hi) == CountIn(times, lo, hi) + if lo <= t < hi then 1 else 0
  {
    assert (times + [t])[..|times|] == times;
  }

  lemma {:induction false} CountSplits(times: seq<int>, lo: int, mid: int, hi: int)
    requires lo <= mid <= hi
    ensures CountIn(times, lo, hi) == CountIn(times, lo, mid) + CountIn(times, mid, hi)
  {
    if times != [] {
      CountSplits(times[..|times| - 1], lo, mid, hi);
    }
  }

  lemma CountGrows(times: seq<int>, lo: int, lo': int, hi': int, hi: int)
    requires lo <= lo' <= hi' <= hi
    ensures CountIn(times, lo', hi') <= CountIn(times, lo, hi)
  {
    CountSplits(times, lo, lo', hi);
    CountSplits(times, lo', hi', hi);
  }

  lemma {:induction false} NoneBeyond(times: seq<int>, lo: int, hi: int)
    requires forall i :: 0 <= i < |times| ==> times[i] < lo
    ensures CountIn(times, lo, hi) == 0
  {
    if times != [] {
      NoneBeyond(times[..|times| - 1], lo, hi);
    }
  }

  /** The last window starts at `start` and has counted `count` requests, its first one at `start`. */
  ghost predicate Window(times: seq<int>, start: int, max: nat, count: int) {
    && 0 < count
    && (forall i :: 0 <= i < |times| ==> times[i] < start + WINDOW_MS)
    && CountIn(times, start, start + WINDOW_MS) <= Min(count, max)
    && CountIn(times, start + 1, start + WINDOW_MS) <= Min(count, max) - 1
    && CountIn(times, start - WINDOW_MS + 1, start) <= max - 1
  }

  ghost predicate Bounded(times: seq<int>, max: nat) {
    forall lo, hi :: lo <= hi <= lo + WINDOW_MS ==> CountIn(times, lo, hi) <= 2 * max - 1
  }

  /** An interval of one window's length that ends in the last window misses the start of one of the two. */
  lemma AddKeepsBounded(times: seq<int>, start: int, max: nat, count: int, t: int)
    requires Bounded(times, max) && Window(times + [t], start, max, count) && start <= t
    ensures Bounded(times + [t], max)
  {
    var all := times + [t];
    assert all[|times|] == t;
    forall lo, hi | lo <= hi <= lo + WINDOW_MS ensures CountIn(all, lo, hi) <= 2 * max - 1 {
      CountAfter(times, t, lo, hi);
      if lo <= t < hi {
        CountGrows(all, lo, lo, hi, lo + WINDOW_MS);
        if lo <= start {
          CountSplits(all, lo, start, lo + WINDOW_MS);
          CountGrows(all, start - WINDOW_MS + 1, lo, start, start);
          CountGrows(all, start, start, lo + WINDOW_MS, start + WINDOW_MS);
        } else {
          CountSplits(all, lo, start + WINDOW_MS, lo + WINDOW_MS);
          CountGrows(all, start + 1, lo, start + WINDOW_MS, start + WINDOW_MS);
          NoneBeyond(all, start + WINDOW_MS, lo + WINDOW_MS);
        }
      }
    }
  }

  lemma AdmissionStaysInWindow(times: seq<int>, start: int, max: nat, count: int, t: int)
    requires Window(times, start, max, count) && Bounded(times, max)
    requires start <= t < start + WINDOW_MS && count < max
    ensures Window(times + [t], start, max, count + 1) && Bounded(times + [t], max)
  {
    CountAfter(times, t, start, start + WINDOW_MS);
    CountAfter(times, t, start + 1, start + WINDOW_MS);
    CountAfter(times, t, start - WINDOW_MS + 1, start);
    AddKeepsBounded(times, start, max, count + 1, t);
  }

  /** A request at or after the end of the last window opens the next one. */
  lemma WindowReopens(times: seq<int>, start: int, max: nat, count: int, t: int)
    requires Window(times, start, max, count) && Bounded(times, max)
    requires start + WINDOW_MS <= t
    ensures Window(times, t, max, 1)
    ensures Window(times + [t], t, max, 1) && Bounded(times + [t], max)
  {
    var lo := t - WINDOW_MS + 1;
    if lo <= start + WINDOW_MS {
      CountSplits(times, lo, start + WINDOW_MS, t);
      CountGrows(times, start + 1, lo, start + WINDOW_MS, start + WINDOW_MS);
      NoneBeyond(times, start + WINDOW_MS, t);
    } else {
      NoneBeyond(times, lo, t);
    }
    NoneBeyond(times, t, t + WINDOW_MS);
    NoneBeyond(times, t + 1, t + WINDOW_MS);
    CountAfter(times, t, t, t + WINDOW_MS);
    CountAfter(times, t, t + 1, t + WINDOW_MS);
    CountAfter(times, t, lo, t);
    AddKeepsBounded(times, t, max, 1, t);
  }

  /** The stored entry, or its absence, describes the last window of requests like `q`. */
  ghost predicate Describes(store: Store, q: Request, start: int, count: nat, now: int) {
    if StoreKey(q) in store then store[StoreKey(q)] == Entry(count, start + WINDOW_MS) && start <= now
    else start + WINDOW_MS <= now
  }

  lemma EntryAfterArrival(store: Store, q: Request, r: Request, start: int, count: nat)
    returns (start': int, count': nat)
    requires Describes(store, q, start, count, r.time) && Limited(r) && StoreKey(r) == StoreKey(q)
    ensures if r.time < start + WINDOW_MS then start' == start <= r.time && count' == count + 1
            else start' == r.time && count' == 1
    ensures Describes(Handle(store, r).0, q, start', count', r.time)
    ensures Same(r, q) && !Handle(store, r).1.Rejected? ==> count' <= LimitOf(RouteKey(q)).max
  {
    assert LimitOf(RouteKey(r)).windowMs == WINDOW_MS;
    if r.time < start + WINDOW_MS {
      start', count' := start, count + 1;
    } else {
      start', count' := r.time, 1;
    }
    assert Handle(store, r).0[StoreKey(q)] == Entry(count', start' + WINDOW_MS);
  }

  /** One more request on the key of `q`, like `q` or not. */
  lemma ArrivalKeepsWindow(store: Store, q: Request, r: Request, times: seq<int>, start: int, count: nat)
    returns (start': int, count': nat)
    requires Describes(store, q, start, count, r.time) && Limited(r) && StoreKey(r) == StoreKey(q)
    requires Window(times, start, LimitOf(RouteKey(q)).max, count) && Bounded(times, LimitOf(RouteKey(q)).max)
    ensures Describes(Handle(store, r).0, q, start', count', r.time)
    ensures var times' := times + if Same(r, q) && !Handle(store, r).1.Rejected? then [r.time] else [];
            Window(times', start', LimitOf(RouteKey(q)).max, count') && Bounded(times', LimitOf(RouteKey(q)).max)
  {
    var max := LimitOf(RouteKey(q)).max;
    assert times + [] == times;
    start', count' := EntryAfterArrival(store, q, r, start, count);
    if r.time < start + WINDOW_MS {
      if count < max {
        AdmissionStaysInWindow(times, start, max, count, r.time);
      }
    } else {
      WindowReopens(times, start, max, count, r.time);
    }
  }

  lemma OtherEventsKeepWindow(store: Store, q: Request, e: Event, start: int, count: nat, now: int)
    requires Describes(store, q, start, count, TimeOf(e)) && TimeOf(e) <= now
    requires Limited(q) && (e.Arrives? ==> !(Limited(e.r) && StoreKey(e.r) == StoreKey(q)))
    ensures Describes(if e.Arrives? then Handle(store, e.r).0 else Swept(store, e.now), q, start, count, now)
    ensures e.Arrives? ==> !Same(e.r, q)
  {
  }

  lemma {:induction false} LastWindow(events: seq<Event>, q: Request, now: int) returns (start: int, count: nat)
    requires InTime(events) && Limited(q)
    requires forall i :: 0 <= i < |events| ==> TimeOf(events[i]) <= now
    ensures Describes(After(events), q, start, count, now)
    ensures Window(PassedAt(events, q), start, LimitOf(RouteKey(q)).max, count)
    ensures Bounded(PassedAt(events, q), LimitOf(RouteKey(q)).max)
  {
    if events == [] {
      start, count := now - WINDOW_MS, 1;
    } else {
      var init, last := events[..|events| - 1], events[|events| - 1];
      start, count := LastWindow(init, q, TimeOf(last));
      if last.Arrives? && Limited(last.r) && StoreKey(last.r) == StoreKey(q) {
        start, count := ArrivalKeepsWindow(After(init), q, last.r, PassedAt(init, q), start, count);
      } else {
        OtherEventsKeepWindow(After(init), q, last, start, count, now);
        assert PassedAt(init, q) + [] == PassedAt(init, q);
      }
    }
  }

  /**
   * The limit in any half-open interval of one minute, wherever it starts: of the requests of one
   * address to one route at most twice the route's maximum, less one, get through, for every
   * method but OPTIONS and every path of the API.
   */
  lemma AdmissionsAreBounded(events: seq<Event>, q: Request, lo: int)
    requires InTime(events)
    requires q.verb != "OPTIONS" && "/api/" <= q.path
    ensures CountIn(PassedAt(events, q), lo, lo + 60000) <= 2 * LimitOf(RouteKey(q)).max - 1
  {
    if events != [] {
      var start, count := LastWindow(events, q, TimeOf(events[|events| - 1]));
    }
  }

  // ---- The bound is reached ----

  /** `n` copies of the request `q` made at time `t`. */
  function Burst(q: Request, t: int, n: nat): seq<Event> {
    seq(n, _ => Arrives(q.(time := t)))
  }

  lemma AfterArrival(events: seq<Event>, q: Request, r: Request)
    ensures After(events + [Arrives(r)]) == Handle(After(events), r).0
    ensures PassedAt(events + [Arrives(r)], q)
         == PassedAt(events, q) + if Same(r, q) && !Handle(After(events), r).1.Rejected? then [r.time] else []
  {
    assert (events + [Arrives(r)])[..|events|] == events;
  }

  lemma OneMoreAdmitted(events: seq<Event>, q: Request, t: int, e: Entry)
    requires Limited(q) && StoreKey(q) in After(events) && After(events)[StoreKey(q)] == e
    requires t < e.resetAt && e.count < LimitOf(RouteKey(q)).max
    ensures StoreKey(q) in After(events + [Arrives(q.(time := t))])
    ensures After(events + [Arrives(q.(time := t))])[StoreKey(q)] == Entry(e.count + 1, e.resetAt)
    ensures PassedAt(events + [Arrives(q.(time := t))], q) == PassedAt(events, q) + [t]
  {
    var q' := q.(time := t);
    assert RouteKey(q') == RouteKey(q) && StoreKey(q') == StoreKey(q);
    AfterArrival(events, q, q');
  }

  lemma LongerBurst(events: seq<Event>, q: Request, t: int, n: nat)
    requires n > 0
    ensures events + Burst(q, t, n) == (events + Burst(q, t, n - 1)) + [Arrives(q.(time := t))]
  {
  }

  lemma MoreCopies(times: seq<int>, t: int, n: nat)
    requires n > 0
    ensures times + seq(n, _ => t) == (times + seq(n - 1, _ => t)) + [t]
  {
  }

  /** A burst that fits in what is left of an open window is admitted whole. */
  lemma {:induction false} BurstAdmitted(events: seq<Event>, q: Request, t: int, n: nat, e: Entry)
    requires Limited(q) && StoreKey(q) in After(events) && After(events)[StoreKey(q)] == e
    requires t < e.resetAt && e.count + n <= LimitOf(RouteKey(q)).max
    ensures StoreKey(q) in After(events + Burst(q, t, n))
    ensures After(events + Burst(q, t, n))[StoreKey(q)] == Entry(e.count + n, e.resetAt)
    ensures PassedAt(events + Burst(q, t, n), q) == PassedAt(events, q) + seq(n, _ => t)
  {
    if n == 0 {
      assert events + Burst(q, t, 0) == events;
    } else {
      BurstAdmitted(events, q, t, n - 1, e);
      LongerBurst(events, q, t, n);
      OneMoreAdmitted(events + Burst(q, t, n - 1), q, t, Entry(e.count + n - 1, e.resetAt));
      MoreCopies(PassedAt(events, q), t, n);
    }
  }

  lemma {:induction false} CountCopies(times: seq<int>, t: int, n: nat, lo: int, hi: int)
    requires lo <= t < hi
    ensures CountIn(times + seq(n, _ => t), lo, hi) == CountIn(times, lo, hi) + n
  {
    if n == 0 {
      assert times + seq(0, _ => t) == times;
    } else {
      CountCopies(times, t, n - 1, lo, hi);
      MoreCopies(times, t, n);
      CountAfter(times + seq(n - 1, _ => t), t, lo, hi);
    }
  }

  lemma ReopensAdmitted(store: Store, q: Request, t: int)
    requires Limited(q) && (StoreKey(q) in store ==> store[StoreKey(q)].resetAt <= t)
    ensures var (store', response) := Handle(store, q.(time := t));
      StoreKey(q) in store' && store'[StoreKey(q)] == Entry(1, t + WINDOW_MS) && response.Admitted?
  {
    var q' := q.(time := t);
    assert RouteKey(q') == RouteKey(q) && StoreKey(q') == StoreKey(q);
  }

  /** A request after the end of its window opens a new one and is admitted. */
  lemma FirstAdmitted(events: seq<Event>, q: Request, t: int)
    requires Limited(q) && (StoreKey(q) in After(events) ==> After(events)[StoreKey(q)].resetAt <= t)
    ensures StoreKey(q) in After(events + Burst(q, t, 1))
    ensures After(events + Burst(q, t, 1))[StoreKey(q)] == Entry(1, t + WINDOW_MS)
    ensures PassedAt(events + Burst(q, t, 1), q) == PassedAt(events, q) + [t]
  {
    var q' := q.(time := t);
    assert Burst(q, t, 1) == [Arrives(q')];
    AfterArrival(events, q, q');
    ReopensAdmitted(After(events), q, t);
  }

  /** A window used up: one request opens it and all the others it allows come at `late`. */
  function UseUp(q: Request, t: int, late: int): seq<Event> {
    Burst(q, t, 1) + Burst(q, late, LimitOf(RouteKey(q)).max - 1)
  }

  lemma UsedUp(events: seq<Event>, q: Request, t: int, late: int)
    requires Limited(q) && (StoreKey(q) in After(events) ==> After(events)[StoreKey(q)].resetAt <= t)
    requires late < t + WINDOW_MS
    ensures var after := After(events + UseUp(q, t, late));
      StoreKey(q) in after && after[StoreKey(q)].resetAt == t + WINDOW_MS
    ensures PassedAt(events + UseUp(q, t, late), q)
         == PassedAt(events, q) + [t] + seq(LimitOf(RouteKey(q)).max - 1, _ => late)
  {
    var first := events + Burst(q, t, 1);
    FirstAdmitted(events, q, t);
    BurstAdmitted(first, q, late, LimitOf(RouteKey(q)).max - 1, Entry(1, t + WINDOW_MS));
    assert events + UseUp(q, t, late) == first + Burst(q, late, LimitOf(RouteKey(q)).max - 1);
  }

  /** Two windows used up, the first one in its last millisecond and the next one at once. */
  function Straddle(q: Request): seq<Event> {
    UseUp(q, 0, WINDOW_MS - 1) + UseUp(q, WINDOW_MS, WINDOW_MS)
  }

  lemma StraddleInTime(q: Request)
    ensures InTime(Straddle(q))
  {
    var rest, events := LimitOf(RouteKey(q)).max - 1, Straddle(q);
    forall i | 0 <= i < |events|
      ensures TimeOf(events[i]) == if i == 0 then 0 else if i <= rest then WINDOW_MS - 1 else WINDOW_MS
    {
    }
  }

  /** The bound is met on every limited route. */
  lemma BoundIsReached(q: Request)
    requires q.verb != "OPTIONS" && "/api/" <= q.path
    ensures InTime(Straddle(q))
    ensures CountIn(PassedAt(Straddle(q), q), 59999, 59999 + 60000)
         == 2 * LimitOf(RouteKey(q)).max - 1
  {
    var rest, lo, hi := LimitOf(RouteKey(q)).max - 1, WINDOW_MS - 1, WINDOW_MS - 1 + WINDOW_MS;
    StraddleInTime(q);
    var early := UseUp(q, 0, lo);
    assert [] + early == early;
    UsedUp([], q, 0, lo);
    UsedUp(early, q, WINDOW_MS, WINDOW_MS);
    CountAfter([], 0, lo, hi);
    CountCopies([0], lo, rest, lo, hi);
    CountAfter([0] + seq(rest, _ => lo), WINDOW_MS, lo, hi);
    CountCopies([0] + seq(rest, _ => lo) + [WINDOW_MS], WINDOW_MS, rest, lo, hi);
  }

  // ---- Callers do not disturb each other ----

  /** A limited request whose address has no slash and whose method has neither slash nor colon. */
  predicate WellFormed(r: Request) {
    Limited(r) && '/' !in r.ip && '/' !in r.verb && ':' !in r.verb
  }

  lemma SameAfterLastColon(a: string, b: string, a': string, b': string)
    requires a + ":" + b == a' + ":" + b' && ':' !in b && ':' !in b'
    ensures a == a' && b == b'
  {
    var s := a + ":" + b;
    assert s[|a|] == ':' && s[|a'|] == ':';
    assert forall i :: |a| < i < |s| ==> s[i] == b[i - |a| - 1];
    assert forall i :: |a'| < i < |s| ==> s[i] == b'[i - |a'| - 1];
    assert s[..|a|] == a && s[|a| + 1..] == b;
    assert s[..|a'|] == a' && s[|a'| + 1..] == b';
  }

  lemma SameBeforeFirstSlash(a: string, b: string, a': string, b': string)
    requires a + b == a' + b' && "/" <= b && "/" <= b' && '/' !in a && '/' !in a'
    ensures a == a' && b == b'
  {
    var s := a + b;
    assert s[|a|] == '/' && s[|a'|] == '/';
    assert s[..|a|] == a && s[|a|..] == b;
    assert s[..|a'|] == a' && s[|a'|..] == b';
  }

  /** Addresses may hold colons (IPv6) and so may paths: the key still tells requests apart. */
  lemma KeysSeparate(r: Request, q: Request)
    requires WellFormed(r) && WellFormed(q) && StoreKey(r) == StoreKey(q)
    ensures Same(r, q)
  {
    var head, head' := r.ip + ":" + r.verb, q.ip + ":" + q.verb;
    assert StoreKey(r) == (head + ":") + r.path;
    assert StoreKey(q) == (head' + ":") + q.path;
    SameBeforeFirstSlash(head + ":", r.path, head' + ":", q.path);
    assert (head + ":")[..|head|] == head && (head' + ":")[..|head'|] == head';
    SameAfterLastColon(r.ip, r.verb, q.ip, q.verb);
  }

  /** The history with only the requests like `q`, and the sweeps. */
  function OnlyLike(events: seq<Event>, q: Request): seq<Event> {
    if events == [] then []
    else
      var last := events[|events| - 1];
      OnlyLike(events[..|events| - 1], q) + if last.Arrives? && !Same(last.r, q) then [] else [last]
  }

  /** The responses to the requests like `q`. */
  function ResponsesTo(events: seq<Event>, q: Request): seq<Response> {
    if events == [] then []
    else
      var init, last := events[..|events| - 1], events[|events| - 1];
      ResponsesTo(init, q) + if last.Arrives? && Same(last.r, q) then [Handle(After(init), last.r).1] else []
  }

  predicate AgreeOn(a: Store, b: Store, key: string) {
    (key in a <==> key in b) && (key in a ==> a[key] == b[key])
  }

  /** What one address gets on one route is what it would get if nobody else ever called. */
  lemma {:induction false} CallersDoNotInterfere(events: seq<Event>, q: Request)
    requires WellFormed(q)
    requires forall i :: 0 <= i < |events| && events[i].Arrives? && Limited(events[i].r) ==> WellFormed(events[i].r)
    ensures AgreeOn(After(OnlyLike(events, q)), After(events), StoreKey(q))
    ensures Responses(OnlyLike(events, q)) == ResponsesTo(events, q)
  {
    if events != [] {
      var init, last := events[..|events| - 1], events[|events| - 1];
      CallersDoNotInterfere(init, q);
      var like := OnlyLike(init, q);
      assert (like + [last])[..|like|] == like;
      if last.Arrives? && !Same(last.r, q) {
        assert OnlyLike(events, q) == like;
        if Limited(last.r) && StoreKey(last.r) == StoreKey(q) {
          KeysSeparate(last.r, q);
        }
      }
    }
  }
}
