/**
 * Run creation through POST /api/runs as overlapping requests: each one counts the recent
 * runs first and creates its own run later (routes/runs.ts, `detectLoop`).
 */
module LoopDetection {
  import opened Common
  import opened RunModel
  import opened Scheduler
  import opened Orchestrator

  /** A request that passed detection at time `at` and has not created its run yet. */
  datatype Passed = Passed(operationId: string, at: int)

  /** `posted` remembers which runs came through this endpoint. */
  datatype State = State(runs: Table, posted: set<RunId>, passed: map<nat, Passed>)

  ghost predicate Detect(s: State, s': State, request: nat, operationId: string, now: int) {
    && request !in s.passed
    && |RecentRuns(s.runs, operationId, now - LOOP_DETECTION_WINDOW_MS)| < LOOP_DETECTION_THRESHOLD
    && s' == s.(passed := s.passed[request := Passed(operationId, now)])
  }

  ghost predicate Create(s: State, s': State, request: nat, run: Run) {
    && request in s.passed
    && run.id !in s.runs && run.operationId == s.passed[request].operationId
    && s.passed[request].at <= run.createdAt
    && s' == State(s.runs[run.id := run], s.posted + {run.id}, s.passed - {request})
  }

  /** A request whose creation fails, on a duplicate run id for instance. */
  ghost predicate Abandon(s: State, s': State, request: nat) {
    request in s.passed && s' == s.(passed := s.passed - {request})
  }

  /** Another path (a sensor, a retry) creates a run without asking. */
  ghost predicate CreateElsewhere(s: State, s': State, run: Run) {
    run.id !in s.runs && s' == s.(runs := s.runs[run.id := run])
  }

  /** Any write to an existing run that leaves its id, operation and creation time. */
  ghost predicate Update(s: State, s': State, id: RunId, run: Run) {
    && id in s.runs && run.id == s.runs[id].id
    && run.operationId == s.runs[id].operationId && run.createdAt == s.runs[id].createdAt
    && s' == s.(runs := s.runs[id := run])
  }

  ghost predicate Next(s: State, s': State) {
    || s' == s
    || (exists request, operationId, now :: Detect(s, s', request, operationId, now))
    || (exists request, run :: Create(s, s', request, run))
    || (exists request :: Abandon(s, s', request))
    || (exists run :: CreateElsewhere(s, s', run))
    || (exists id, run :: Update(s, s', id, run))
  }

  function InFlight(s: State, operationId: string): set<nat> {
    set r | r in s.passed && s.passed[r].operationId == operationId
  }

  /** Runs of an operation posted in the closed window of five minutes that starts at `start`. */
  function PostedIn(s: State, operationId: string, start: int): set<RunId> {
    set id | id in s.posted && id in s.runs && s.runs[id].operationId == operationId
             && start <= s.runs[id].createdAt <= start + LOOP_DETECTION_WINDOW_MS
  }

  ghost predicate Stepped(ss: seq<State>, i: int)
    requires 0 <= i < |ss| - 1
  {
    Next(ss[i], ss[i + 1])
  }

  /** A history from an empty endpoint, over any runs that were there before. */
  ghost predicate History(ss: seq<State>) {
    && |ss| > 0 && ss[0].posted == {} && ss[0].passed == map[]
    && forall i {:trigger Stepped(ss, i)} :: 0 <= i < |ss| - 1 ==> Stepped(ss, i)
  }

  /** Requests that may still land in the window. */
  function Threats(s: State, operationId: string, start: int): set<nat> {
    set r | r in s.passed && s.passed[r].operationId == operationId
            && s.passed[r].at <= start + LOOP_DETECTION_WINDOW_MS
  }

  ghost predicate Inv(s: State, operationId: string, start: int, k: nat) {
    && s.posted <= s.runs.Keys
    && |PostedIn(s, operationId, start)| + |Threats(s, operationId, start)| <= LOOP_DETECTION_THRESHOLD - 1 + k
  }

  lemma DetectKeepsInv(s: State, s': State, operationId: string, start: int, k: nat,
                       request: nat, op: string, now: int)
    requires Inv(s, operationId, start, k) && Detect(s, s', request, op, now)
    requires |InFlight(s', operationId)| <= k
    ensures Inv(s', operationId, start, k)
  {
    assert PostedIn(s', operationId, start) == PostedIn(s, operationId, start);
    if op == operationId && now <= start + LOOP_DETECTION_WINDOW_MS {
      SubsetSize(PostedIn(s, op, start), RecentRuns(s.runs, op, now - LOOP_DETECTION_WINDOW_MS));
      SubsetSize(Threats(s', op, start), InFlight(s', op));
    } else {
      assert Threats(s', operationId, start) == Threats(s, operationId, start);
    }
  }

  lemma CreateInWindow(s: State, s': State, operationId: string, start: int, request: nat, run: Run)
    requires s.posted <= s.runs.Keys && Create(s, s', request, run)
    requires run.operationId == operationId && start <= run.createdAt <= start + LOOP_DETECTION_WINDOW_MS
    ensures |PostedIn(s', operationId, start)| <= |PostedIn(s, operationId, start)| + 1
    ensures |Threats(s', operationId, start)| < |Threats(s, operationId, start)|
  {
    var threats, posted := Threats(s, operationId, start), PostedIn(s, operationId, start);
    assert PostedIn(s', operationId, start) <= posted + {run.id};
    SubsetSize(PostedIn(s', operationId, start), posted + {run.id});
    assert request in threats;
    SubsetSize(Threats(s', operationId, start), threats - {request});
  }

  lemma CreateOutsideWindow(s: State, s': State, operationId: string, start: int, request: nat, run: Run)
    requires s.posted <= s.runs.Keys && Create(s, s', request, run)
    requires !(run.operationId == operationId && start <= run.createdAt <= start + LOOP_DETECTION_WINDOW_MS)
    ensures |PostedIn(s', operationId, start)| <= |PostedIn(s, operationId, start)|
    ensures |Threats(s', operationId, start)| <= |Threats(s, operationId, start)|
  {
    SubsetSize(PostedIn(s', operationId, start), PostedIn(s, operationId, start));
    SubsetSize(Threats(s', operationId, start), Threats(s, operationId, start));
  }

  lemma StepKeepsInv(s: State, s': State, operationId: string, start: int, k: nat)
    requires Inv(s, operationId, start, k) && Next(s, s') && |InFlight(s', operationId)| <= k
    ensures Inv(s', operationId, start, k)
  {
    if request, op, now :| Detect(s, s', request, op, now) {
      DetectKeepsInv(s, s', operationId, start, k, request, op, now);
    } else if request, run :| Create(s, s', request, run) {
      if run.operationId == operationId && start <= run.createdAt <= start + LOOP_DETECTION_WINDOW_MS {
        CreateInWindow(s, s', operationId, start, request, run);
      } else {
        CreateOutsideWindow(s, s', operationId, start, request, run);
      }
    } else {
      assert PostedIn(s', operationId, start) == PostedIn(s, operationId, start);
      SubsetSize(Threats(s', operationId, start), Threats(s, operationId, start));
    }
  }

  lemma {:induction false} InvAlways(ss: seq<State>, operationId: string, start: int, k: nat)
    requires History(ss)
    requires forall i :: 0 <= i < |ss| ==> |InFlight(ss[i], operationId)| <= k
    ensures Inv(ss[|ss| - 1], operationId, start, k)
  {
    if |ss| == 1 {
      assert PostedIn(ss[0], operationId, start) == {};
      assert Threats(ss[0], operationId, start) == {};
    } else {
      var init := ss[..|ss| - 1];
      assert forall i :: 0 <= i < |init| - 1 ==> Stepped(ss, i) ==> Stepped(init, i);
      InvAlways(init, operationId, start, k);
      assert Stepped(ss, |ss| - 2);
      StepKeepsInv(ss[|ss| - 2], ss[|ss| - 1], operationId, start, k);
    }
  }

  /**
   * Loop detection is a sliding window. With at most `k` requests of an operation between
   * detection and creation, every five-minute window holds at most 4 + k posted runs, whatever
   * other paths create: five when requests do not overlap.
   */
  lemma SlidingWindow(ss: seq<State>, operationId: string, start: int, k: nat)
    requires History(ss)
    requires forall i :: 0 <= i < |ss| ==> |InFlight(ss[i], operationId)| <= k
    ensures |PostedIn(ss[|ss| - 1], operationId, start)| <= LOOP_DETECTION_THRESHOLD - 1 + k
  {
    InvAlways(ss, operationId, start, k);
  }

  // ---- The bound is reached ----

  function Name(n: nat): (id: RunId)
    ensures |id| == n
  {
    seq(n, _ => 'r')
  }

  function NewRun(n: nat): Run {
    Run(Name(n), "op", None, Pending, P2, n + 1, 0, None, None, None, None)
  }

  /** All at time 0: `created` runs have been posted, and the next `waiting` requests have passed detection. */
  function At(created: nat, waiting: nat): State {
    State(Posted(created), Posted(created).Keys, Waiting(created, waiting))
  }

  function Posted(n: nat): (runs: Table)
    ensures forall id :: id in runs ==> |id| < n && runs[id] == NewRun(|id|)
    ensures |runs| == n
  {
    if n == 0 then map[] else Posted(n - 1)[Name(n - 1) := NewRun(n - 1)]
  }

  function Waiting(from: nat, n: nat): (passed: map<nat, Passed>)
    ensures forall r :: r in passed <==> from <= r < from + n
    ensures forall r :: r in passed ==> passed[r] == Passed("op", 0)
    ensures |passed| == n
  {
    if n == 0 then map[] else Waiting(from, n - 1)[from + n - 1 := Passed("op", 0)]
  }

  lemma DetectNext(created: nat, waiting: nat)
    requires created < LOOP_DETECTION_THRESHOLD
    ensures Next(At(created, waiting), At(created, waiting + 1))
  {
    var s := At(created, waiting);
    SubsetSize(RecentRuns(s.runs, "op", 0 - LOOP_DETECTION_WINDOW_MS), s.runs.Keys);
    assert Detect(s, At(created, waiting + 1), created + waiting, "op", 0);
  }

  lemma {:induction false} FirstLeaves(from: nat, n: nat)
    requires n > 0
    ensures Waiting(from + 1, n - 1) == Waiting(from, n) - {from}
  {
    if n > 1 {
      FirstLeaves(from, n - 1);
      assert Waiting(from + 1, n - 1) == Waiting(from + 1, n - 2)[from + n - 1 := Passed("op", 0)];
    }
  }

  lemma CreateNext(created: nat, waiting: nat)
    requires waiting > 0
    ensures Next(At(created, waiting), At(created + 1, waiting - 1))
  {
    var s, s' := At(created, waiting), At(created + 1, waiting - 1);
    FirstLeaves(created, waiting);
    assert Name(created) !in s.runs && s'.posted == s.posted + {Name(created)};
    assert Create(s, s', created, NewRun(created));
  }

  lemma OneMoreState(ss: seq<State>, s: State)
    requires History(ss) && Next(ss[|ss| - 1], s)
    ensures History(ss + [s])
  {
    forall i | 0 <= i < |ss| ensures Stepped(ss + [s], i) {
      assert i < |ss| - 1 ==> Stepped(ss, i);
    }
  }

  /** Of a history of such states: where it ends, and how many requests were in flight at once. */
  ghost predicate Reaches(ss: seq<State>, created: nat, waiting: nat, k: nat) {
    && History(ss) && ss[|ss| - 1] == At(created, waiting)
    && forall i :: 0 <= i < |ss| ==> |InFlight(ss[i], "op")| <= k
  }

  lemma WaitingInFlight(created: nat, waiting: nat)
    ensures |InFlight(At(created, waiting), "op")| == waiting
  {
    assert InFlight(At(created, waiting), "op") == Waiting(created, waiting).Keys;
  }

  lemma {:induction false} DetectMany(ss: seq<State>, created: nat, waiting: nat, k: nat) returns (longer: seq<State>)
    requires Reaches(ss, created, 0, k) && waiting <= k && created < LOOP_DETECTION_THRESHOLD
    ensures Reaches(longer, created, waiting, k)
  {
    if waiting == 0 {
      longer := ss;
    } else {
      longer := DetectMany(ss, created, waiting - 1, k);
      DetectNext(created, waiting - 1);
      WaitingInFlight(created, waiting);
      OneMoreState(longer, At(created, waiting));
      longer := longer + [At(created, waiting)];
    }
  }

  lemma {:induction false} CreateMany(ss: seq<State>, created: nat, waiting: nat, k: nat) returns (longer: seq<State>)
    requires Reaches(ss, created, waiting, k) && waiting <= k
    ensures Reaches(longer, created + waiting, 0, k)
    decreases waiting
  {
    if waiting == 0 {
      longer := ss;
    } else {
      CreateNext(created, waiting);
      WaitingInFlight(created + 1, waiting - 1);
      OneMoreState(ss, At(created + 1, waiting - 1));
      longer := CreateMany(ss + [At(created + 1, waiting - 1)], created + 1, waiting - 1, k);
    }
  }

  /** Runs posted one request at a time. */
  lemma {:induction false} PostOneByOne(n: nat, k: nat) returns (ss: seq<State>)
    requires 0 < k && n < LOOP_DETECTION_THRESHOLD
    ensures Reaches(ss, n, 0, k)
  {
    if n == 0 {
      ss := [At(0, 0)];
      WaitingInFlight(0, 0);
      assert At(0, 0).passed == map[];
    } else {
      ss := PostOneByOne(n - 1, k);
      ss := DetectMany(ss, n - 1, 1, k);
      ss := CreateMany(ss, n - 1, 1, k);
    }
  }

  /** For every k a history with at most k requests in flight posts 4 + k runs in one window. */
  lemma WindowBoundIsReached(k: nat) returns (ss: seq<State>)
    requires k > 0
    ensures History(ss) && forall i :: 0 <= i < |ss| ==> |InFlight(ss[i], "op")| <= k
    ensures |PostedIn(ss[|ss| - 1], "op", 0)| == LOOP_DETECTION_THRESHOLD - 1 + k
  {
    ss := PostOneByOne(LOOP_DETECTION_THRESHOLD - 1, k);
    ss := DetectMany(ss, LOOP_DETECTION_THRESHOLD - 1, k, k);
    ss := CreateMany(ss, LOOP_DETECTION_THRESHOLD - 1, k, k);
    var s := ss[|ss| - 1];
    assert PostedIn(s, "op", 0) == s.runs.Keys;
  }
}
