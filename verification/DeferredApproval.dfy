/**
 * Deferred tool calls of one agent session (apps/mcp-proxy/src/server.ts) against the approval
 * rows and their reviewers (routes/approvals.ts, services/approval.ts). Every await is a gap
 * where other requests run.
 */
module DeferredApproval {
  import opened Common

  type ApprovalId = string

  datatype Verdict = Pending | Approved | Denied | Expired

  /** What is frozen when a call is deferred. */
  datatype Call = Call(tool: string, serverName: string, config: string, args: string, toolCallId: Option<string>)

  /** A `check_approval` request: it took the call from the map, and may have read the status. */
  datatype Check =
    | Asking(id: ApprovalId, call: Call)
    | Answered(id: ApprovalId, call: Call, verdict: Verdict)

  /** A reviewer request that saw PENDING: before it wrote its verdict, and before it filed the receipt. */
  datatype Review =
    | Reading(id: ApprovalId, verdict: Verdict)
    | Wrote(id: ApprovalId, verdict: Verdict)

  /**
   * `receipts` are those of human decisions, at most one for an approval.
   * `deferred`, `executed`, `dropped`, `approved` and `decisions` are history.
   */
  datatype State = State(
    approvals: map<ApprovalId, Verdict>,
    held: map<ApprovalId, Call>,
    checks: map<nat, Check>,
    reviews: map<nat, Review>,
    deferred: map<ApprovalId, Call>,
    executed: seq<(ApprovalId, Call)>,
    dropped: set<ApprovalId>,
    approved: set<ApprovalId>,
    decisions: seq<ApprovalId>,
    receipts: map<ApprovalId, Verdict>)

  const EMPTY := State(map[], map[], map[], map[], map[], [], {}, {}, [], map[])

  datatype Step =
    | CreateApproval(id: ApprovalId)
    | Defer(id: ApprovalId, call: Call)
    | StartCheck(c: nat, id: ApprovalId)
    | ReadVerdict(c: nat)
    | CheckFails(c: nat)
    | FinishCheck(c: nat)
    | BeginReview(r: nat, id: ApprovalId, verdict: Verdict)
    | WriteReview(r: nat)
    | FileReceipt(r: nat)
    | ReviewFails(r: nat)
    | Expire(id: ApprovalId)

  predicate Enabled(s: State, step: Step) {
    match step
    case CreateApproval(id) => id !in s.approvals
    case Defer(id, call) => id in s.approvals && id !in s.deferred
    case StartCheck(c, id) => c !in s.checks && id in s.held
    case ReadVerdict(c) => c in s.checks && s.checks[c].Asking? && s.checks[c].id in s.approvals
    case CheckFails(c) => c in s.checks && s.checks[c].Asking?
    case FinishCheck(c) => c in s.checks && s.checks[c].Answered?
    case BeginReview(r, id, verdict) =>
      r !in s.reviews && id in s.approvals && s.approvals[id] == Pending && (verdict == Approved || verdict == Denied)
    case WriteReview(r) => r in s.reviews && s.reviews[r].Reading?
    case FileReceipt(r) => r in s.reviews && s.reviews[r].Wrote?
    case ReviewFails(r) => r in s.reviews
    case Expire(id) => id in s.approvals && s.approvals[id] == Pending
  }

  /** The end of `check_approval`: anything but pending, denied or expired runs the frozen call. */
  function Finish(s: State, c: nat): State
    requires c in s.checks && s.checks[c].Answered?
  {
    var k := s.checks[c];
    s.(checks := s.checks - {c},
       held := if k.verdict == Pending then s.held else s.held - {k.id},
       dropped := if k.verdict == Denied || k.verdict == Expired then s.dropped + {k.id} else s.dropped,
       executed := if k.verdict == Approved then s.executed + [(k.id, k.call)] else s.executed)
  }

  function Apply(s: State, step: Step): State
    requires Enabled(s, step)
  {
    match step
    case CreateApproval(id) => s.(approvals := s.approvals[id := Pending])
    case Defer(id, call) => s.(held := s.held[id := call], deferred := s.deferred[id := call])
    case StartCheck(c, id) => s.(checks := s.checks[c := Asking(id, s.held[id])])
    case ReadVerdict(c) =>
      var k := s.checks[c];
      s.(checks := s.checks[c := Answered(k.id, k.call, s.approvals[k.id])])
    case CheckFails(c) => s.(checks := s.checks - {c})
    case FinishCheck(c) => Finish(s, c)
    case BeginReview(r, id, verdict) => s.(reviews := s.reviews[r := Reading(id, verdict)])
    case WriteReview(r) =>
      var v := s.reviews[r];
      s.(approvals := s.approvals[v.id := v.verdict], reviews := s.reviews[r := Wrote(v.id, v.verdict)],
         approved := if v.verdict == Approved then s.approved + {v.id} else s.approved,
         decisions := s.decisions + [v.id])
    case FileReceipt(r) =>
      var v := s.reviews[r];
      // A second receipt for one tool call violates the unique column, and the request fails.
      s.(reviews := s.reviews - {r},
         receipts := if v.id in s.receipts then s.receipts else s.receipts[v.id := v.verdict])
    case ReviewFails(r) => s.(reviews := s.reviews - {r})
    case Expire(id) => s.(approvals := s.approvals[id := Expired])
  }

  // ---- Histories ----

  ghost predicate Next(s: State, s': State) {
    exists step :: Enabled(s, step) && Apply(s, step) == s'
  }

  ghost predicate Stepped(ss: seq<State>, i: int)
    requires 0 <= i < |ss| - 1
  {
    Next(ss[i], ss[i + 1])
  }

  ghost predicate History(ss: seq<State>) {
    && |ss| > 0 && ss[0] == EMPTY
    && forall i {:trigger Stepped(ss, i)} :: 0 <= i < |ss| - 1 ==> Stepped(ss, i)
  }

  lemma StepInto(ss: seq<State>, i: nat) returns (step: Step)
    requires History(ss) && 0 < i < |ss|
    ensures Enabled(ss[i - 1], step) && Apply(ss[i - 1], step) == ss[i]
  {
    assert Stepped(ss, i - 1) && Next(ss[i - 1], ss[i]);
    step :| Enabled(ss[i - 1], step) && Apply(ss[i - 1], step) == ss[i];
  }

  /** How often the call held under `id` was run. */
  function Runs(executed: seq<(ApprovalId, Call)>, id: ApprovalId): nat {
    if executed == [] then 0
    else Runs(executed[..|executed| - 1], id) + if executed[|executed| - 1].0 == id then 1 else 0
  }

  function Times(decisions: seq<ApprovalId>, id: ApprovalId): nat {
    if decisions == [] then 0
    else Times(decisions[..|decisions| - 1], id) + if decisions[|decisions| - 1] == id then 1 else 0
  }

  function ChecksOn(s: State, id: ApprovalId): set<nat> {
    set c | c in s.checks && s.checks[c].id == id
  }

  /** Reviews of an approval that have not written their verdict. */
  function ReviewsOn(s: State, id: ApprovalId): set<nat> {
    set r | r in s.reviews && s.reviews[r].Reading? && s.reviews[r].id == id
  }

  // ---- Only approved calls run, exactly as they were deferred ----

  /** Everything the session holds, checks or ran is a deferred call, unchanged; runs were approved. */
  predicate Frozen(s: State) {
    && (forall id :: id in s.held ==> id in s.deferred && s.held[id] == s.deferred[id])
    && (forall c :: c in s.checks ==>
          && s.checks[c].id in s.deferred && s.checks[c].call == s.deferred[s.checks[c].id]
          && (s.checks[c].Answered? && s.checks[c].verdict == Approved ==> s.checks[c].id in s.approved))
    && (forall id :: id in s.approvals && s.approvals[id] == Approved ==> id in s.approved)
    && (forall e :: e in s.executed ==> e.0 in s.deferred && e.1 == s.deferred[e.0] && e.0 in s.approved)
  }

  lemma FinishKeepsFrozen(s: State, c: nat)
    requires c in s.checks && s.checks[c].Answered? && Frozen(s)
    ensures Frozen(Finish(s, c))
  {
    var k := s.checks[c];
    assert forall e :: e in s.executed + [(k.id, k.call)] ==> e in s.executed || e == (k.id, k.call);
  }

  lemma StepKeepsFrozen(s: State, step: Step)
    requires Enabled(s, step) && Frozen(s)
    ensures Frozen(Apply(s, step))
  {
    match step
    case FinishCheck(c) => FinishKeepsFrozen(s, c);
    case Defer(id, call) =>
      assert forall c :: c in s.checks ==> s.checks[c].id != id;
    case _ =>
  }

  lemma {:induction false} RunsOnlyApprovedFrozenCalls(ss: seq<State>, i: nat)
    requires History(ss) && i < |ss|
    ensures Frozen(ss[i])
  {
    if i > 0 {
      RunsOnlyApprovedFrozenCalls(ss, i - 1);
      var step := StepInto(ss, i);
      StepKeepsFrozen(ss[i - 1], step);
    }
  }

  // ---- How often a call runs ----

  /** While a call is held it has not run; afterwards only checks already under way can run it. */
  ghost predicate RunsBounded(s: State, id: ApprovalId, k: nat) {
    && (id in s.held ==> Runs(s.executed, id) == 0)
    && (id !in s.held ==> Runs(s.executed, id) + |ChecksOn(s, id)| <= k)
    && (id !in s.deferred ==> id !in s.held && Runs(s.executed, id) == 0 && ChecksOn(s, id) == {})
  }

  lemma FinishEndsOneCheck(s: State, id: ApprovalId, c: nat)
    requires c in s.checks && s.checks[c].Answered?
    ensures ChecksOn(Finish(s, c), id) == ChecksOn(s, id) - {c}
    ensures c in ChecksOn(s, id) <==> s.checks[c].id == id
    ensures |ChecksOn(Finish(s, c), id)| == |ChecksOn(s, id)| - if s.checks[c].id == id then 1 else 0
  {
    assert ChecksOn(Finish(s, c), id) == ChecksOn(s, id) - {c};
  }

  lemma RunsAfter(executed: seq<(ApprovalId, Call)>, ran: ApprovalId, call: Call, id: ApprovalId)
    ensures Runs(executed + [(ran, call)], id) == Runs(executed, id) + if ran == id then 1 else 0
  {
    assert (executed + [(ran, call)])[..|executed|] == executed;
  }

  lemma FinishKeepsRunsBounded(s: State, id: ApprovalId, k: nat, c: nat)
    requires c in s.checks && s.checks[c].Answered? && s.checks[c].id in s.deferred
    requires RunsBounded(s, id, k) && |ChecksOn(s, id)| <= k
    ensures RunsBounded(Finish(s, c), id, k)
  {
    FinishEndsOneCheck(s, id, c);
    RunsAfter(s.executed, s.checks[c].id, s.checks[c].call, id);
  }

  lemma StepKeepsRunsBounded(s: State, s': State, id: ApprovalId, k: nat, step: Step)
    requires Enabled(s, step) && s' == Apply(s, step) && RunsBounded(s, id, k) && Frozen(s)
    requires |ChecksOn(s, id)| <= k
    ensures RunsBounded(s', id, k)
  {
    if step.FinishCheck? {
      FinishKeepsRunsBounded(s, id, k, step.c);
    } else if step.StartCheck? {
      assert step.id != id ==> ChecksOn(s', id) == ChecksOn(s, id);
    } else {
      SubsetSize(ChecksOn(s', id), ChecksOn(s, id));
    }
  }

  lemma {:induction false} RunsBoundedAlways(ss: seq<State>, id: ApprovalId, k: nat, i: nat)
    requires History(ss) && i < |ss|
    requires forall j :: 0 <= j < |ss| ==> |ChecksOn(ss[j], id)| <= k
    ensures RunsBounded(ss[i], id, k)
  {
    if i == 0 {
      assert ChecksOn(EMPTY, id) == {};
    } else {
      RunsBoundedAlways(ss, id, k, i - 1);
      RunsOnlyApprovedFrozenCalls(ss, i - 1);
      var step := StepInto(ss, i);
      StepKeepsRunsBounded(ss[i - 1], ss[i], id, k, step);
    }
  }

  /** With at most `k` overlapping checks of one approval, its call runs at most `k` times. */
  lemma RunsAtMostK(ss: seq<State>, id: ApprovalId, k: nat, i: nat)
    requires History(ss) && i < |ss|
    requires forall j :: 0 <= j < |ss| ==> |ChecksOn(ss[j], id)| <= k
    ensures Runs(ss[i].executed, id) <= k
  {
    RunsBoundedAlways(ss, id, k, i);
  }

  // The bound is tight: `k` checks that all take the call before any of them finishes.

  const HELD := Call("tool", "server", "config", "args", None)

  function RaceCheck(k: nat, n: nat, c: nat): Check {
    if n <= k + c then Asking("a", HELD) else Answered("a", HELD, Approved)
  }

  /** The race after `n` steps: all take the call, all read the verdict, all run it. */
  function RaceState(k: nat, n: nat): State {
    State(map["a" := Approved],
          if n <= 2 * k then map["a" := HELD] else map[],
          map c | c in Below(k) && InRace(k, n, c) :: RaceCheck(k, n, c),
          map[], map["a" := HELD],
          seq(if n <= 2 * k then 0 else n - 2 * k, _ => ("a", HELD)), {}, {"a"}, ["a"], map["a" := Approved])
  }

  predicate InRace(k: nat, n: nat, c: nat) {
    c < n <= 2 * k + c
  }

  lemma OthersWait(k: nat, n: nat, c: nat, u: nat)
    requires c < k && u < k && u != c && (n == c || n == k + c || n == 2 * k + c)
    ensures InRace(k, n, u) == InRace(k, n + 1, u)
    ensures InRace(k, n, u) ==> RaceCheck(k, n, u) == RaceCheck(k, n + 1, u)
  {
  }

  lemma RaceMoves(k: nat, n: nat, c: nat)
    requires c < k && (n == c || n == k + c || n == 2 * k + c)
    ensures var checks, checks' := RaceState(k, n).checks, RaceState(k, n + 1).checks;
      checks' == if n == 2 * k + c then checks - {c} else checks[c := RaceCheck(k, n + 1, c)]
  {
    BelowCount(k);
    forall u: nat | u < k && u != c
      ensures InRace(k, n, u) == InRace(k, n + 1, u)
      ensures InRace(k, n, u) ==> RaceCheck(k, n, u) == RaceCheck(k, n + 1, u)
    {
      OthersWait(k, n, c, u);
    }
  }

  lemma RaceStep(k: nat, n: nat, c: nat)
    requires c < k && (n == c || n == k + c || n == 2 * k + c)
    ensures Next(RaceState(k, n), RaceState(k, n + 1))
  {
    BelowCount(k);
    RaceMoves(k, n, c);
    var step := if n == c then StartCheck(c, "a") else if n == k + c then ReadVerdict(c) else FinishCheck(c);
    assert Enabled(RaceState(k, n), step) && Apply(RaceState(k, n), step) == RaceState(k, n + 1);
  }

  /** A state in which the call has been approved and nobody has checked yet. */
  lemma ReadyToCheck(k: nat) returns (ss: seq<State>)
    ensures History(ss) && ss[|ss| - 1] == RaceState(k, 0)
    ensures forall j :: 0 <= j < |ss| ==> ss[j].checks == map[]
  {
    ss := HeldCall();
    ss := Proceed(ss, BeginReview(0, "a", Approved));
    ss := Proceed(ss, WriteReview(0));
    ss := Proceed(ss, FileReceipt(0));
    assert ss[|ss| - 1] == RaceState(k, 0);
  }

  lemma HeldCall() returns (ss: seq<State>)
    ensures History(ss)
    ensures ss[|ss| - 1] == EMPTY.(approvals := map["a" := Pending], held := map["a" := HELD], deferred := map["a" := HELD])
    ensures forall j :: 0 <= j < |ss| ==> ss[j].checks == map[]
  {
    ss := [EMPTY];
    ss := Proceed(ss, CreateApproval("a"));
    ss := Proceed(ss, Defer("a", HELD));
  }

  lemma Proceed(ss: seq<State>, step: Step) returns (longer: seq<State>)
    requires History(ss) && Enabled(ss[|ss| - 1], step)
    ensures longer == ss + [Apply(ss[|ss| - 1], step)] && History(longer)
  {
    longer := ss + [Apply(ss[|ss| - 1], step)];
    OneMoreState(ss, Apply(ss[|ss| - 1], step));
  }

  lemma RaceOverlap(k: nat, n: nat)
    ensures |ChecksOn(RaceState(k, n), "a")| <= k
  {
    BelowCount(k);
    SubsetSize(ChecksOn(RaceState(k, n), "a"), Below(k));
  }

  /** The states after the first `n` steps of the race, from the second one on. */
  function Race(k: nat, n: nat): seq<State> {
    seq(n, i requires 0 <= i < n => RaceState(k, i + 1))
  }

  lemma {:induction false} RaceIsAHistory(front: seq<State>, k: nat, n: nat)
    requires History(front) && front[|front| - 1] == RaceState(k, 0) && n <= 3 * k
    ensures History(front + Race(k, n)) && (front + Race(k, n))[|front| + n - 1] == RaceState(k, n)
  {
    if n == 0 {
      assert front + Race(k, n) == front;
    } else {
      RaceIsAHistory(front, k, n - 1);
      RaceNext(k, n - 1);
      OneMoreState(front + Race(k, n - 1), RaceState(k, n));
      RaceGrows(front, k, n);
    }
  }

  lemma RaceNext(k: nat, n: nat)
    requires n < 3 * k
    ensures Next(RaceState(k, n), RaceState(k, n + 1))
  {
    RaceStep(k, n, if n < k then n else if n < 2 * k then n - k else n - 2 * k);
  }

  lemma RaceGrows(front: seq<State>, k: nat, n: nat)
    requires n > 0
    ensures front + Race(k, n) == (front + Race(k, n - 1)) + [RaceState(k, n)]
  {
  }

  lemma OneMoreState(ss: seq<State>, s: State)
    requires History(ss) && Next(ss[|ss| - 1], s)
    ensures History(ss + [s])
  {
    forall i | 0 <= i < |ss| ensures Stepped(ss + [s], i) {
      assert i < |ss| - 1 ==> Stepped(ss, i);
    }
  }

  lemma {:induction false} RunsOfCopies(n: nat)
    ensures Runs(seq(n, _ => ("a", HELD)), "a") == n
  {
    if n > 0 {
      RunsOfCopies(n - 1);
      assert seq(n, _ => ("a", HELD)) == seq(n - 1, _ => ("a", HELD)) + [("a", HELD)];
      RunsAfter(seq(n - 1, _ => ("a", HELD)), "a", HELD, "a");
    }
  }

  /** For every k there is a history with at most k overlapping checks in which the call runs k times. */
  lemma RunsKTimes(k: nat) returns (ss: seq<State>)
    ensures History(ss) && Runs(ss[|ss| - 1].executed, "a") == k
    ensures forall j :: 0 <= j < |ss| ==> |ChecksOn(ss[j], "a")| <= k
  {
    var front := ReadyToCheck(k);
    RaceIsAHistory(front, k, 3 * k);
    ss := front + Race(k, 3 * k);
    forall j | 0 <= j < |ss| ensures |ChecksOn(ss[j], "a")| <= k {
      if j < |front| {
        assert ChecksOn(ss[j], "a") == {};
      } else {
        RaceOverlap(k, j - |front| + 1);
      }
    }
    RunsOfCopies(k);
  }

  // ---- Non-overlapping checks ----

  /** Waiting, executed once, or dropped: exactly one of the three. */
  ghost predicate ExactlyOneFate(s: State, id: ApprovalId) {
    if id in s.held then Runs(s.executed, id) == 0 && id !in s.dropped
    else && ChecksOn(s, id) == {}
         && (id in s.deferred ==> if id in s.dropped then Runs(s.executed, id) == 0 else Runs(s.executed, id) == 1)
         && (id !in s.deferred ==> id !in s.dropped && Runs(s.executed, id) == 0)
  }

  lemma FinishKeepsOneFate(s: State, id: ApprovalId, c: nat)
    requires c in s.checks && s.checks[c].Answered? && s.checks[c].id in s.deferred
    requires ExactlyOneFate(s, id) && |ChecksOn(s, id)| <= 1
    ensures ExactlyOneFate(Finish(s, c), id)
  {
    FinishEndsOneCheck(s, id, c);
    RunsAfter(s.executed, s.checks[c].id, s.checks[c].call, id);
  }

  lemma StepKeepsOneFate(s: State, id: ApprovalId, step: Step)
    requires Enabled(s, step) && ExactlyOneFate(s, id) && Frozen(s)
    requires |ChecksOn(s, id)| <= 1
    ensures ExactlyOneFate(Apply(s, step), id)
  {
    if step.FinishCheck? {
      FinishKeepsOneFate(s, id, step.c);
    }
  }

  /** When checks of an approval do not overlap, its call is waiting, was run once, or was dropped. */
  lemma {:induction false} OneFate(ss: seq<State>, id: ApprovalId, i: nat)
    requires History(ss) && i < |ss|
    requires forall j :: 0 <= j < |ss| ==> |ChecksOn(ss[j], id)| <= 1
    ensures ExactlyOneFate(ss[i], id)
  {
    if i == 0 {
      assert ChecksOn(EMPTY, id) == {};
    } else {
      OneFate(ss, id, i - 1);
      RunsOnlyApprovedFrozenCalls(ss, i - 1);
      var step := StepInto(ss, i);
      StepKeepsOneFate(ss[i - 1], id, step);
    }
  }

  // ---- Reviewers ----

  ghost predicate DecisionsBounded(s: State, id: ApprovalId, k: nat) {
    && (id !in s.approvals ==> Times(s.decisions, id) == 0 && ReviewsOn(s, id) == {})
    && (id in s.approvals && s.approvals[id] == Pending ==> Times(s.decisions, id) == 0)
    && (id in s.approvals && s.approvals[id] != Pending ==> Times(s.decisions, id) + |ReviewsOn(s, id)| <= k)
    && (forall r :: r in s.reviews ==> s.reviews[r].verdict != Pending)
  }

  lemma WriteEndsOneReview(s: State, id: ApprovalId, r: nat)
    requires r in s.reviews && s.reviews[r].Reading?
    ensures |ReviewsOn(Apply(s, WriteReview(r)), id)| == |ReviewsOn(s, id)| - if s.reviews[r].id == id then 1 else 0
  {
    assert ReviewsOn(Apply(s, WriteReview(r)), id) == ReviewsOn(s, id) - {r};
    assert r in ReviewsOn(s, id) <==> s.reviews[r].id == id;
  }

  lemma TimesAfter(decisions: seq<ApprovalId>, last: ApprovalId, id: ApprovalId)
    ensures Times(decisions + [last], id) == Times(decisions, id) + if last == id then 1 else 0
  {
    assert (decisions + [last])[..|decisions|] == decisions;
  }

  lemma WriteKeepsDecisionsBounded(s: State, id: ApprovalId, k: nat, r: nat)
    requires r in s.reviews && s.reviews[r].Reading? && DecisionsBounded(s, id, k) && |ReviewsOn(s, id)| <= k
    ensures DecisionsBounded(Apply(s, WriteReview(r)), id, k)
  {
    WriteEndsOneReview(s, id, r);
    TimesAfter(s.decisions, s.reviews[r].id, id);
    assert r in ReviewsOn(s, id) <==> s.reviews[r].id == id;
  }

  lemma StepKeepsDecisionsBounded(s: State, id: ApprovalId, k: nat, step: Step)
    requires Enabled(s, step) && DecisionsBounded(s, id, k) && |ReviewsOn(s, id)| <= k
    ensures DecisionsBounded(Apply(s, step), id, k)
  {
    var s' := Apply(s, step);
    if step.WriteReview? {
      WriteKeepsDecisionsBounded(s, id, k, step.r);
    } else if !(step.BeginReview? && step.id == id) {
      SubsetSize(ReviewsOn(s', id), ReviewsOn(s, id));
    }
  }

  /**
   * With at most `k` overlapping reviews of an approval it is decided at most `k` times: once,
   * and for good, when reviews do not overlap.
   */
  lemma {:induction false} DecidedAtMostK(ss: seq<State>, id: ApprovalId, k: nat, i: nat)
    requires History(ss) && i < |ss|
    requires forall j :: 0 <= j < |ss| ==> |ReviewsOn(ss[j], id)| <= k
    ensures DecisionsBounded(ss[i], id, k)
    ensures Times(ss[i].decisions, id) <= k
  {
    if i == 0 {
      assert ReviewsOn(EMPTY, id) == {};
    } else {
      DecidedAtMostK(ss, id, k, i - 1);
      var step := StepInto(ss, i);
      StepKeepsDecisionsBounded(ss[i - 1], id, k, step);
    }
  }

  /** An approved call stays approved: no later review can change the row. */
  ghost predicate StillApproved(s: State, id: ApprovalId) {
    id in s.approved ==> id in s.approvals && s.approvals[id] == Approved && Times(s.decisions, id) >= 1
  }

  lemma StepKeepsApproved(s: State, id: ApprovalId, step: Step)
    requires Enabled(s, step) && DecisionsBounded(s, id, 1) && StillApproved(s, id)
    ensures StillApproved(Apply(s, step), id)
  {
    if step.WriteReview? {
      assert Apply(s, step).decisions[..|s.decisions|] == s.decisions;
      if s.reviews[step.r].id == id {
        assert step.r in ReviewsOn(s, id);
        assert |ReviewsOn(s, id)| > 0;
      }
    }
  }

  lemma {:induction false} ApprovedStaysApproved(ss: seq<State>, id: ApprovalId, i: nat)
    requires History(ss) && i < |ss|
    requires forall j :: 0 <= j < |ss| ==> |ReviewsOn(ss[j], id)| <= 1
    ensures StillApproved(ss[i], id)
  {
    if i > 0 {
      ApprovedStaysApproved(ss, id, i - 1);
      DecidedAtMostK(ss, id, 1, i - 1);
      var step := StepInto(ss, i);
      StepKeepsApproved(ss[i - 1], id, step);
    }
  }

  /** Every call that ran belongs to an approval that is approved now and in every later state. */
  lemma ExecutedCallsAreApprovedForGood(ss: seq<State>, i: nat, j: nat, e: (ApprovalId, Call))
    requires History(ss) && i <= j < |ss| && e in ss[i].executed
    requires forall m :: 0 <= m < |ss| ==> |ReviewsOn(ss[m], e.0)| <= 1
    ensures e.0 in ss[j].approvals && ss[j].approvals[e.0] == Approved
    ensures e.0 in ss[j].deferred && ss[j].deferred[e.0] == e.1
  {
    ExecutedOnly(ss, i, j, e);
    RunsOnlyApprovedFrozenCalls(ss, j);
    ApprovedStaysApproved(ss, e.0, j);
  }

  lemma {:induction false} ExecutedOnly(ss: seq<State>, i: nat, j: nat, e: (ApprovalId, Call))
    requires History(ss) && i <= j < |ss| && e in ss[i].executed
    ensures e in ss[j].executed
    decreases j
  {
    if i < j {
      ExecutedOnly(ss, i, j - 1, e);
      var step := StepInto(ss, j);
    }
  }

  // ---- One session, one request at a time ----

  datatype Registered = Registered(tool: string, serverName: string, config: string)

  /** The gate's answer; any decision but DENY and PENDING_APPROVAL means EXECUTE. */
  datatype GateAnswer =
    | GateError
    | Deny
    | PendingApproval(approvalId: Option<ApprovalId>, toolCallId: Option<string>)
    | Execute(toolCallId: Option<string>)

  datatype ToolResult =
    | UnknownTool | GateFailed | DeniedByPolicy | NoApprovalId
    | Deferred(id: ApprovalId)
    | Ran(call: Call)
    | NotFound | CheckFailed | StillPending | DeniedByReviewer | NobodyAnswered

  /** What a check does to the held calls; `answer` is None when the status cannot be read. */
  function CheckOutcome(held: map<ApprovalId, Call>, id: ApprovalId, answer: Option<Verdict>):
    (map<ApprovalId, Call>, ToolResult)
  {
    if id !in held then (held, NotFound)
    else
      match answer
      case None => (held, CheckFailed)
      case Some(Pending) => (held, StillPending)
      case Some(Denied) => (held - {id}, DeniedByReviewer)
      case Some(Expired) => (held - {id}, NobodyAnswered)
      case Some(Approved) => (held - {id}, Ran(held[id]))
  }

  class Session {
    const toolRegistry: map<string, Registered>
    var deferredCalls: map<ApprovalId, Call>

    constructor (registry: map<string, Registered>)
      ensures toolRegistry == registry && deferredCalls == map[]
    {
      toolRegistry := registry;
      deferredCalls := map[];
    }

    /** A call runs at once only when the gate says so; a held call is stored exactly as it was made. */
    method ExecuteToolCall(qualifiedName: string, args: string, gate: GateAnswer) returns (result: ToolResult)
      modifies this
      ensures result.UnknownTool? <==> qualifiedName !in toolRegistry
      ensures result.Ran? <==> qualifiedName in toolRegistry && gate.Execute?
      ensures result.Deferred? <==> qualifiedName in toolRegistry && gate.PendingApproval?
                                    && gate.approvalId.Some? && gate.approvalId.value != ""
      ensures result.Ran? ==>
                var entry := toolRegistry[qualifiedName];
                result.call == Call(entry.tool, entry.serverName, entry.config, args, gate.toolCallId)
      ensures result.Deferred? ==>
                && Some(result.id) == gate.approvalId
                && var entry := toolRegistry[qualifiedName];
                   deferredCalls == old(deferredCalls)[
                     result.id := Call(entry.tool, entry.serverName, entry.config, args, gate.toolCallId)]
      ensures !result.Deferred? ==> deferredCalls == old(deferredCalls)
      ensures result.UnknownTool? || result.Ran? || result.Deferred?
              || result == if gate.GateError? then GateFailed else if gate.Deny? then DeniedByPolicy else NoApprovalId
    {
      if qualifiedName !in toolRegistry {
        return UnknownTool;
      }
      var entry := toolRegistry[qualifiedName];
      if gate.GateError? {
        return GateFailed;
      }
      if gate.Deny? {
        return DeniedByPolicy;
      }
      if gate.PendingApproval? {
        if gate.approvalId == None || gate.approvalId.value == "" {
          return NoApprovalId;
        }
        var call := Call(entry.tool, entry.serverName, entry.config, args, gate.toolCallId);
        deferredCalls := deferredCalls[gate.approvalId.value := call];
        return Deferred(gate.approvalId.value);
      }
      return Ran(Call(entry.tool, entry.serverName, entry.config, args, gate.toolCallId));
    }

    method CheckApproval(id: ApprovalId, answer: Option<Verdict>) returns (result: ToolResult)
      modifies this
      ensures (deferredCalls, result) == CheckOutcome(old(deferredCalls), id, answer)
      ensures result == NotFound <==> id !in old(deferredCalls)
      ensures id in old(deferredCalls) ==>
                && (answer == None <==> result == CheckFailed) && (answer == Some(Pending) <==> result == StillPending)
                && (answer == Some(Denied) <==> result == DeniedByReviewer)
                && (answer == Some(Expired) <==> result == NobodyAnswered)
                && (answer == Some(Approved) <==> result == Ran(old(deferredCalls)[id]))
      ensures deferredCalls == if id in old(deferredCalls) && answer in {Some(Denied), Some(Expired), Some(Approved)}
                               then old(deferredCalls) - {id} else old(deferredCalls)
    {
      if id !in deferredCalls {
        return NotFound;
      }
      var deferred := deferredCalls[id];
      if answer == None {
        return CheckFailed;
      }
      var status := answer.value;
      if status == Pending {
        return StillPending;
      }
      if status == Denied {
        deferredCalls := deferredCalls - {id};
        return DeniedByReviewer;
      }
      if status == Expired {
        deferredCalls := deferredCalls - {id};
        return NobodyAnswered;
      }
      deferredCalls := deferredCalls - {id};
      return Ran(deferred);
    }
  }

  /** An uninterrupted check is a run of the state machine, and runs the call exactly when the machine does. */
  lemma UninterruptedCheck(s: State, c: nat, id: ApprovalId)
    requires id in s.held && id in s.approvals && c !in s.checks
    ensures Enabled(s, StartCheck(c, id))
    ensures var s1 := Apply(s, StartCheck(c, id));
      && Enabled(s1, CheckFails(c)) && Apply(s1, CheckFails(c)) == s
      && Enabled(s1, ReadVerdict(c)) && Enabled(Apply(s1, ReadVerdict(c)), FinishCheck(c))
      && var s3 := Apply(Apply(s1, ReadVerdict(c)), FinishCheck(c));
         var (held, result) := CheckOutcome(s.held, id, Some(s.approvals[id]));
         && s3.held == held && s3.checks == s.checks
         && s3.executed == s.executed + (if result.Ran? then [(id, result.call)] else [])
         && s3.dropped == s.dropped + (if result.DeniedByReviewer? || result.NobodyAnswered? then {id} else {})
  {
    var s1 := Apply(s, StartCheck(c, id));
    assert s1.checks - {c} == s.checks;
    var s2 := Apply(s1, ReadVerdict(c));
    assert s2.checks - {c} == s.checks;
  }

  // ---- The reviewers' side, one request at a time ----

  datatype ReviewResult = ApprovalNotFound | AlreadyDecided(verdict: Verdict) | Recorded | ReceiptFailed

  /** The approval rows and the receipts of human decisions. */
  class ApprovalDesk {
    var approvals: map<ApprovalId, Verdict>
    var receipts: seq<(ApprovalId, Verdict)>
    ghost var unrecorded: set<ApprovalId>

    constructor ()
      ensures Valid() && approvals == map[] && receipts == [] && unrecorded == {}
    {
      approvals, receipts, unrecorded := map[], [], {};
    }

    /** Every decided approval has exactly one receipt, with its verdict, unless filing it failed. */
    ghost predicate Valid()
      reads this
    {
      && (forall e :: e in receipts ==> e.0 in approvals && approvals[e.0] == e.1 && e.1 != Pending)
      && (forall i, j :: 0 <= i < j < |receipts| ==> receipts[i].0 != receipts[j].0)
      && forall id :: id in approvals && approvals[id] in {Approved, Denied} ==>
           (id in unrecorded <==> (id, approvals[id]) !in receipts)
    }

    method CreateApproval(id: ApprovalId)
      requires Valid() && id !in approvals
      modifies this
      ensures Valid() && approvals == old(approvals)[id := Pending]
      ensures receipts == old(receipts) && unrecorded == old(unrecorded)
    {
      assert forall e :: e in receipts ==> e.0 != id;
      approvals := approvals[id := Pending];
    }

    /**
     * The approve and deny handlers, which differ only in the verdict they write. When the
     * receipt cannot be filed the verdict stays written.
     */
    method Decide(id: ApprovalId, verdict: Verdict, receiptWorks: bool) returns (result: ReviewResult)
      requires Valid() && (verdict == Approved || verdict == Denied)
      modifies this
      ensures Valid()
      ensures result == if id !in old(approvals) then ApprovalNotFound
                        else if old(approvals)[id] != Pending then AlreadyDecided(old(approvals)[id])
                        else if receiptWorks then Recorded else ReceiptFailed
      ensures approvals == if result.Recorded? || result.ReceiptFailed? then old(approvals)[id := verdict]
                           else old(approvals)
      ensures receipts == if result.Recorded? then old(receipts) + [(id, verdict)] else old(receipts)
      ensures result.ReceiptFailed? ==> unrecorded == old(unrecorded) + {id}
      ensures result.Recorded? ==> unrecorded == old(unrecorded) - {id}
      ensures result.ApprovalNotFound? || result.AlreadyDecided? ==> unrecorded == old(unrecorded)
    {
      if id !in approvals {
        return ApprovalNotFound;
      }
      if approvals[id] != Pending {
        return AlreadyDecided(approvals[id]);
      }
      assert forall e :: e in receipts ==> e.0 != id;
      assert forall i :: 0 <= i < |receipts| ==> receipts[i] in receipts;
      approvals := approvals[id := verdict];
      if !receiptWorks {
        unrecorded := unrecorded + {id};
        return ReceiptFailed;
      }
      unrecorded := unrecorded - {id};
      receipts := receipts + [(id, verdict)];
      return Recorded;
    }
  }

  /** An uninterrupted decision is a run of the state machine. */
  lemma UninterruptedReview(s: State, r: nat, id: ApprovalId, verdict: Verdict)
    requires r !in s.reviews && (verdict == Approved || verdict == Denied)
    ensures Enabled(s, BeginReview(r, id, verdict)) <==> id in s.approvals && s.approvals[id] == Pending
    ensures Enabled(s, BeginReview(r, id, verdict)) ==>
              var s1 := Apply(s, BeginReview(r, id, verdict));
              && Enabled(s1, WriteReview(r))
              && var s2 := Apply(s1, WriteReview(r));
                 && s2.approvals == s.approvals[id := verdict] && s2.decisions == s.decisions + [id]
                 && Enabled(s2, FileReceipt(r)) && Enabled(s2, ReviewFails(r))
                 && Apply(s2, ReviewFails(r)) == s2.(reviews := s.reviews)
                 && Apply(s2, FileReceipt(r)) ==
                      s2.(reviews := s.reviews,
                          receipts := if id in s.receipts then s.receipts else s.receipts[id := verdict])
  {
    if Enabled(s, BeginReview(r, id, verdict)) {
      assert Apply(Apply(s, BeginReview(r, id, verdict)), WriteReview(r)).reviews - {r} == s.reviews;
    }
  }
}
