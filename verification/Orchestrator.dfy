/**
 * The run orchestrator (engine/orchestrator.ts, engine/run-events.ts) and the
 * schedule pass and creation handlers that drive it (routes/runs.ts), over the
 * run, run-event and capability tables.
 */
module Orchestrator {
  import opened Common
  import opened RunModel
  import opened Scheduler

  const LOOP_DETECTION_WINDOW_MS := 5 * 60 * 1000
  const LOOP_DETECTION_THRESHOLD := 5
  const DEFAULT_TIMEOUT_MS := 30 * 60 * 1000

  datatype RunError =
    | NotFound
    | InvalidTransition(from: Status, to: Status)
    | DuplicateId
    | LoopDetected

  datatype Grant = Grant(runId: RunId, revokedAt: Option<int>)

  // ---- Queries as functions of the run table ----

  function RunsOf(runs: Table, operationId: string): set<RunId> {
    set id | id in runs && runs[id].operationId == operationId
  }

  /** Runs of an operation created at or after `since`, by whichever path. */
  function RecentRuns(runs: Table, operationId: string, since: int): set<RunId> {
    set id | id in runs && runs[id].operationId == operationId && runs[id].createdAt >= since
  }

  predicate TimedOut(run: Run, now: int) {
    && (run.status == Running || run.status == Paused)
    && run.timeoutAt.Some? && run.timeoutAt.value <= now
  }

  function TimedOutIds(runs: Table, now: int): set<RunId> {
    set id | id in runs && TimedOut(runs[id], now)
  }

  /** A paused run past its deadline, which the transition table does not let fail. */
  ghost predicate Stuck(runs: Table, now: int) {
    exists id :: id in runs && runs[id].status == Paused && runs[id].timeoutAt.Some? && runs[id].timeoutAt.value <= now
  }

  predicate Pausable(run: Run, workspace: Option<string>) {
    && run.status == Running
    && (run.priority == P1 || run.priority == P2)
    && (workspace.Some? && workspace.value != "" ==> run.workspaceId == workspace)
  }

  function PausableIds(runs: Table, workspace: Option<string>): set<RunId> {
    set id | id in runs && Pausable(runs[id], workspace)
  }

  /** A P1 or P2 run that is running, in the workspace if one is given. */
  lemma PausableMeaning(runs: Table, workspace: Option<string>)
    ensures forall id :: id in PausableIds(runs, workspace) <==>
              && id in runs && runs[id].status == Running && runs[id].priority != P0
              && (workspace in {None, Some("")} || runs[id].workspaceId == workspace)
  {
  }

  /** Running or paused at or past its deadline. */
  lemma TimedOutMeaning(runs: Table, now: int)
    ensures forall id :: id in TimedOutIds(runs, now) <==>
              && id in runs && runs[id].status in {Running, Paused}
              && runs[id].timeoutAt != None && runs[id].timeoutAt.value <= now
  {
    assert forall id :: id in runs ==>
             (TimedOut(runs[id], now) <==> runs[id].status in {Running, Paused}
                                           && runs[id].timeoutAt != None && runs[id].timeoutAt.value <= now);
  }

  // ---- How a table may move ----

  /** The columns no orchestrator operation changes. */
  predicate SameIdentity(a: Run, b: Run) {
    && a.id == b.id && a.operationId == b.operationId && a.workspaceId == b.workspaceId
    && a.priority == b.priority && a.attempt == b.attempt
    && a.createdAt == b.createdAt && a.timeoutAt == b.timeoutAt
  }

  ghost predicate TimeoutsApplied(before: Table, after: Table, now: int) {
    && before.Keys == after.Keys
    && forall id :: id in before ==>
         || after[id] == before[id]
         || (before[id].status == Running && TimedOut(before[id], now)
             && after[id] == AfterTransition(before[id], Failed, now))
  }

  /** `done` runs went from pending to scheduled; the others are as before or were preempted. */
  ghost predicate PassMoved(before: Table, after: Table, done: set<RunId>) {
    && before.Keys == after.Keys
    && forall id :: id in before ==>
         && SameIdentity(before[id], after[id])
         && if id in done then before[id].status == Pending && after[id].status == Scheduled
            else after[id].status == before[id].status
                 || (before[id].status == Running && before[id].priority != P0 && after[id].status == Paused)
  }

  /** The table after the timed-out runs outside `todo` have failed. */
  function FailedExcept(runs: Table, todo: set<RunId>, now: int): Table {
    map id | id in runs ::
      if TimedOut(runs[id], now) && id !in todo then AfterTransition(runs[id], Failed, now) else runs[id]
  }

  function TimeoutsFailed(runs: Table, now: int): Table {
    FailedExcept(runs, {}, now)
  }

  lemma FailOneMore(runs: Table, todo: set<RunId>, id: RunId, now: int)
    requires id in todo && id in runs && TimedOut(runs[id], now)
    ensures FailedExcept(runs, todo - {id}, now)
         == FailedExcept(runs, todo, now)[id := AfterTransition(runs[id], Failed, now)]
  {
  }

  lemma FailingIsApplied(runs: Table, todo: set<RunId>, now: int)
    requires TimedOutIds(runs, now) - todo <= RunningIds(runs)
    ensures TimeoutsApplied(runs, FailedExcept(runs, todo, now), now)
  {
    forall id | id in runs && FailedExcept(runs, todo, now)[id] != runs[id]
      ensures runs[id].status == Running
    {
      assert id in TimedOutIds(runs, now) - todo;
    }
  }

  /** The sweep with `todo` still to visit: exactly the other timed-out runs have failed, and were returned. */
  ghost predicate Sweeping(before: Table, runs: Table, todo: set<RunId>, failed: seq<Run>, now: int) {
    && todo <= TimedOutIds(before, now)
    && runs == FailedExcept(before, todo, now)
    && TimedOutIds(before, now) - todo <= RunningIds(before)
    && Ids(failed) == TimedOutIds(before, now) - todo
    && FailedFrom(before, failed, now)
  }

  function RunningIds(runs: Table): set<RunId> {
    set id | id in runs && runs[id].status == Running
  }

  predicate FailedFrom(before: Table, failed: seq<Run>, now: int) {
    forall run :: run in failed ==> run.id in before && run == AfterTransition(before[run.id], Failed, now)
  }

  lemma SweepStarts(runs: Table, now: int)
    ensures Sweeping(runs, runs, TimedOutIds(runs, now), [], now)
  {
    assert FailedExcept(runs, TimedOutIds(runs, now), now) == runs;
    assert Ids([]) == {};
  }

  lemma SweepMeets(before: Table, runs: Table, todo: set<RunId>, failed: seq<Run>, id: RunId, now: int)
    requires WellKeyed(before) && Sweeping(before, runs, todo, failed, now) && id in todo
    ensures id in runs && runs[id] == before[id] && runs[id].id == id
    ensures CanTransition(runs[id].status, Failed) <==> runs[id].status == Running
    ensures runs[id].status == Running || Stuck(before, now)
    ensures TimeoutsApplied(before, runs, now)
  {
    assert id in TimedOutIds(before, now);
    FailingIsApplied(before, todo, now);
  }

  lemma SweepGoesOn(before: Table, runs: Table, todo: set<RunId>, failed: seq<Run>, id: RunId, row: Run,
                    after: Table, now: int)
    requires Sweeping(before, runs, todo, failed, now) && id in todo
    requires id in runs && runs[id] == before[id] && runs[id].id == id && runs[id].status == Running
    requires row == AfterTransition(runs[id], Failed, now) && after == runs[id := row]
    ensures Sweeping(before, after, todo - {id}, failed + [row], now)
  {
    FailOneMore(before, todo, id, now);
    assert row.id == id && row in failed + [row];
    assert Ids(failed + [row]) == Ids(failed) + {id};
    assert TimedOutIds(before, now) - (todo - {id}) == (TimedOutIds(before, now) - todo) + {id};
  }

  lemma SweepStops(before: Table, runs: Table, todo: set<RunId>, failed: seq<Run>, now: int)
    requires Sweeping(before, runs, todo, failed, now)
    ensures TimeoutsApplied(before, runs, now)
    ensures todo == {} ==> !Stuck(before, now)
  {
    FailingIsApplied(before, todo, now);
    if todo == {} {
      forall id | id in before && TimedOut(before[id], now) ensures before[id].status == Running {
        assert id in TimedOutIds(before, now) - todo;
      }
    }
  }

  // ---- The turns of a pass ----

  /** The run that preemption pauses: none of the pausable runs has a lower priority. */
  ghost predicate Victim(runs: Table, workspace: Option<string>, id: RunId) {
    && id in PausableIds(runs, workspace)
    && forall other :: other in PausableIds(runs, workspace) ==>
         PriorityRank(runs[other].priority) <= PriorityRank(runs[id].priority)
  }

  lemma LowestIsVictim(runs: Table, workspace: Option<string>, lowest: set<RunId>, id: RunId)
    requires lowest == set other | other in PausableIds(runs, workspace) && runs[other].priority == P2
    requires id in PausableIds(runs, workspace) && (id in lowest || lowest == {})
    ensures Victim(runs, workspace, id)
  {
    forall other | other in PausableIds(runs, workspace)
      ensures PriorityRank(runs[other].priority) <= PriorityRank(runs[id].priority)
    {
      assert runs[other].priority == P2 ==> other in lowest;
    }
  }

  function Move(runs: Table, id: RunId, to: Status, now: int): Table
    requires id in runs
  {
    runs[id := AfterTransition(runs[id], to, now)]
  }

  /** One pick: a P0 run first pauses one victim if there is any, then the run is scheduled. */
  ghost predicate Turn(before: Table, after: Table, run: Run, victim: Option<RunId>, now: int) {
    && run.id in before
    && match victim
       case None =>
         && (run.priority != P0 || PausableIds(before, run.workspaceId) == {})
         && after == Move(before, run.id, Scheduled, now)
       case Some(v) =>
         && run.priority == P0 && Victim(before, run.workspaceId, v)
         && after == Move(Move(before, v, Paused, now), run.id, Scheduled, now)
  }

  /** The tables between the turns, and whom each turn paused. */
  ghost predicate Turns(trace: seq<Table>, victims: seq<Option<RunId>>, picks: seq<Run>, now: int) {
    && |trace| == |picks| + 1 && |victims| == |picks|
    && forall n :: 0 <= n < |picks| ==> Turn(trace[n], trace[n + 1], picks[n], victims[n], now)
  }

  lemma TurnMoves(before: Table, current: Table, after: Table, done: set<RunId>,
                  run: Run, victim: Option<RunId>, now: int)
    requires PassMoved(before, current, done) && Turn(current, after, run, victim, now)
    requires run.id in before && run.id !in done && before[run.id].status == Pending
    ensures PassMoved(before, after, done + {run.id})
    ensures run.id in current && current[run.id].status == Pending
  {
    if victim.Some? {
      assert PassMoved(before, Move(current, victim.value, Paused, now), done);
    }
  }

  lemma {:induction false} TurnsMove(trace: seq<Table>, victims: seq<Option<RunId>>, picks: seq<Run>, now: int, n: nat)
    requires Turns(trace, victims, picks, now) && n <= |picks|
    requires RowsOf(trace[0], picks)
    ensures PassMoved(trace[0], trace[n], Ids(picks[..n]))
  {
    if n > 0 {
      TurnsMove(trace, victims, picks, now, n - 1);
      IdsOfPrefix(picks, n - 1);
      TurnMoves(trace[0], trace[n - 1], trace[n], Ids(picks[..n - 1]), picks[n - 1], victims[n - 1], now);
    }
  }

  /** A run whose turn has not come is still pending. */
  lemma StillPending(trace: seq<Table>, victims: seq<Option<RunId>>, picks: seq<Run>, n: nat, now: int)
    requires n < |picks| && Turns(trace, victims, picks[..n], now) && RowsOf(trace[0], picks)
    ensures picks[n].id in trace[n] && trace[n][picks[n].id].status == Pending
  {
    assert forall r :: r in picks[..n] ==> r in picks;
    assert picks[..n][..n] == picks[..n];
    TurnsMove(trace, victims, picks[..n], now, n);
    IdsOfPrefix(picks, n);
    assert picks[n] in picks;
  }

  lemma OneMoreTurn(trace: seq<Table>, victims: seq<Option<RunId>>, picks: seq<Run>, run: Run, after: Table,
                    victim: Option<RunId>, scheduled: seq<Run>, now: int)
    requires Turns(trace, victims, picks, now) && Turn(trace[|picks|], after, run, victim, now)
    requires Returned(trace, picks, scheduled)
    ensures Turns(trace + [after], victims + [victim], picks + [run], now)
    ensures run.id in after && Returned(trace + [after], picks + [run], scheduled + [after[run.id]])
  {
  }

  // ---- Preemption ----

  function Preempted(before: Table, after: Table): set<RunId> {
    set id | id in before && id in after && before[id].status == Running && after[id].status == Paused
  }

  function CountP0(picks: seq<Run>): nat {
    if picks == [] then 0
    else CountP0(picks[..|picks| - 1]) + if picks[|picks| - 1].priority == P0 then 1 else 0
  }

  function P0Positions(picks: seq<Run>): set<nat> {
    set i: nat | i < |picks| && picks[i].priority == P0
  }

  lemma {:induction false} P0Count(picks: seq<Run>)
    ensures CountP0(picks) == |P0Positions(picks)|
  {
    if picks == [] {
      assert P0Positions(picks) == {};
    } else {
      var init, n := picks[..|picks| - 1], |picks| - 1;
      P0Count(init);
      forall i: nat ensures i in P0Positions(picks) <==> i in P0Positions(init) || (i == n && picks[n].priority == P0) {
      }
      assert P0Positions(picks) == P0Positions(init) + if picks[n].priority == P0 then {n} else {};
    }
  }

  /** A pass pauses at most one run for each P0 run it schedules. */
  lemma {:induction false} PreemptionsServeP0(trace: seq<Table>, victims: seq<Option<RunId>>, picks: seq<Run>,
                                              now: int, n: nat)
    requires Turns(trace, victims, picks, now) && n <= |picks|
    ensures |Preempted(trace[0], trace[n])| <= CountP0(picks[..n])
  {
    if n == 0 {
      assert Preempted(trace[0], trace[0]) == {};
    } else {
      PreemptionsServeP0(trace, victims, picks, now, n - 1);
      assert picks[..n][..n - 1] == picks[..n - 1];
      assert Turn(trace[n - 1], trace[n], picks[n - 1], victims[n - 1], now);
      var victim := if victims[n - 1].Some? then {victims[n - 1].value} else {};
      UnionSize(Preempted(trace[0], trace[n - 1]), victim);
      SubsetSize(Preempted(trace[0], trace[n]), Preempted(trace[0], trace[n - 1]) + victim);
    }
  }

  /** The window the pass works from: empty when the global cap is reached. */
  predicate WindowFor(runs: Table, window: seq<Run>) {
    if |Active(runs)| >= MAX_GLOBAL_CONCURRENT_RUNS then window == []
    else IsWindow(runs, window, MAX_GLOBAL_CONCURRENT_RUNS - |Active(runs)|)
  }

  // ---- What a whole pass promises ----

  /** Neither cap is exceeded by more than it already was. */
  ghost predicate CapsKept(before: Table, after: Table) {
    && |Active(after)| <= Max(|Active(before)|, MAX_GLOBAL_CONCURRENT_RUNS)
    && (NoReservedName(before) ==>
          forall w: Option<string> ::
            |ActiveIn(after, w)| <= Max(|ActiveIn(before, w)|, MAX_CONCURRENT_RUNS_PER_WORKSPACE))
  }

  /** Exactly the picks of a window took their turns, in order. */
  ghost predicate PicksTookTurns(mid: Table, after: Table, scheduled: seq<Run>, now: int) {
    exists window: seq<Run>, trace: seq<Table>, victims: seq<Option<RunId>> ::
      TurnsOf(mid, after, scheduled, window, trace, victims, now)
  }

  ghost predicate TurnsOf(mid: Table, after: Table, scheduled: seq<Run>, window: seq<Run>,
                          trace: seq<Table>, victims: seq<Option<RunId>>, now: int) {
    && WindowFor(mid, window)
    && Turns(trace, victims, Picks(mid, window), now) && trace[0] == mid && trace[|trace| - 1] == after
    && Returned(trace, Picks(mid, window), scheduled)
  }

  /** Every timed-out run failed first. */
  ghost predicate PassExplained(before: Table, after: Table, scheduled: seq<Run>, now: int) {
    PicksTookTurns(TimeoutsFailed(before, now), after, scheduled, now)
  }

  /** The rows a pass returns are those its turns wrote. */
  predicate Returned(trace: seq<Table>, picks: seq<Run>, scheduled: seq<Run>) {
    && |trace| == |picks| + 1 && |scheduled| == |picks|
    && forall n :: 0 <= n < |picks| ==> picks[n].id in trace[n + 1] && scheduled[n] == trace[n + 1][picks[n].id]
  }

  /** No run was scheduled while an earlier pending run of its workspace was left pending. */
  ghost predicate NoInversionBetween(before: Table, after: Table) {
    NoReservedName(before) ==>
      forall a, b :: a in PendingIds(before) && b in PendingIds(before) && WasScheduled(after, a)
                     && before[a].workspaceId == before[b].workspaceId && Before(before[b], before[a]) ==>
        WasScheduled(after, b)
  }

  predicate WasScheduled(after: Table, id: RunId) {
    id in after && after[id].status == Scheduled
  }

  /** A run is scheduled if it was pending, failed if it was past its deadline, or paused for a P0 run. */
  predicate MovedInPass(before: Run, after: Run, now: int) {
    if before.status == Running && before.timeoutAt != None && before.timeoutAt.value <= now then after.status == Failed
    else
      || after.status == before.status
      || (before.status == Pending && after.status == Scheduled)
      || (before.status == Running && before.priority != P0 && after.status == Paused)
  }

  ghost predicate MovedByPass(before: Table, after: Table, now: int) {
    forall id :: id in before ==> id in after && MovedInPass(before[id], after[id], now)
  }

  lemma MovesOfAPass(before: Table, mid: Table, after: Table, done: set<RunId>, now: int)
    requires !Stuck(before, now) && mid == TimeoutsFailed(before, now) && PassMoved(mid, after, done)
    ensures MovedByPass(before, after, now)
  {
    forall id | id in before ensures id in after && MovedInPass(before[id], after[id], now) {
      assert id in mid;
    }
  }

  /**
   * At most ten active runs, and at most three of a workspace, or as many as there were; the
   * second as long as no workspace has the reserved name.
   */
  ghost predicate WithinCaps(before: Table, after: Table) {
    && |Active(after)| <= Max(|Active(before)|, 10)
    && ((forall id :: id in before ==> before[id].workspaceId != Some("__global__")) ==>
          forall w: Option<string> :: |ActiveIn(after, w)| <= Max(|ActiveIn(before, w)|, 3))
  }

  /** Within a workspace P0 runs are scheduled before P1 and P2 runs, P1 before P2, and older ones among equals. */
  ghost predicate UrgentFirst(before: Table, after: Table) {
    (forall id :: id in before ==> before[id].workspaceId != Some("__global__")) ==>
      forall a, b :: a in before && before[a].status == Pending && a in after && after[a].status == Scheduled
                     && b in before && before[b].status == Pending
                     && before[a].workspaceId == before[b].workspaceId
                     && ((before[b].priority == P0 && before[a].priority != P0)
                         || (before[b].priority == P1 && before[a].priority == P2)
                         || (before[b].priority == before[a].priority && before[b].createdAt < before[a].createdAt)) ==>
        b in after && after[b].status == Scheduled
  }

  /** The promises about caps and order, in the columns of the runs. */
  lemma PromisesSpelledOut(before: Table, after: Table)
    requires CapsKept(before, after) && NoInversionBetween(before, after)
    ensures WithinCaps(before, after) && UrgentFirst(before, after)
  {
    if NoReservedName(before) {
      forall a, b | a in before && before[a].status == Pending && a in after && after[a].status == Scheduled
                    && b in before && before[b].status == Pending && before[a].workspaceId == before[b].workspaceId
        ensures Before(before[b], before[a]) ==> b in after && after[b].status == Scheduled
      {
        assert a in PendingIds(before) && b in PendingIds(before) && WasScheduled(after, a);
      }
    }
    forall a: Run, b: Run ensures Before(b, a) <==>
                                    || (b.priority == P0 && a.priority != P0)
                                    || (b.priority == P1 && a.priority == P2)
                                    || (b.priority == a.priority && b.createdAt < a.createdAt)
    {
      QueueOrder(b, a);
    }
  }

  lemma TimeoutsKeepCaps(before: Table, after: Table, now: int)
    requires TimeoutsApplied(before, after, now)
    ensures |Active(after)| <= |Active(before)|
    ensures forall w: Option<string> :: |ActiveIn(after, w)| <= |ActiveIn(before, w)|
  {
    SubsetSize(Active(after), Active(before));
    forall w: Option<string> ensures |ActiveIn(after, w)| <= |ActiveIn(before, w)| {
      SubsetSize(ActiveIn(after, w), ActiveIn(before, w));
    }
  }

  /** Scheduling the picks of a window keeps both caps, whatever is preempted on the way. */
  lemma PassKeepsCaps(before: Table, after: Table, rows: seq<Run>, workspace: Option<string>)
    requires RowsOf(before, rows) && |rows| + |Active(before)| <= MAX_GLOBAL_CONCURRENT_RUNS
    requires PassMoved(before, after, Ids(Picks(before, rows)))
    ensures |Active(after)| <= MAX_GLOBAL_CONCURRENT_RUNS
    ensures NoReservedName(before) ==>
              |ActiveIn(after, workspace)| <= Max(|ActiveIn(before, workspace)|, MAX_CONCURRENT_RUNS_PER_WORKSPACE)
  {
    var picks := Picks(before, rows);
    PicksComeFromTheWindow(before, rows);
    IdsAtMostLength(picks);
    UnionSize(Active(before), Ids(picks));
    SubsetSize(Active(after), Active(before) + Ids(picks));
    UnionSize(ActiveIn(before, workspace), IdsIn(picks, workspace));
    forall id | id in ActiveIn(after, workspace)
      ensures id in ActiveIn(before, workspace) + IdsIn(picks, workspace)
    {
      if id in Ids(picks) {
        var r :| r in picks && r.id == id;
        assert before[r.id] == r;
      }
    }
    SubsetSize(ActiveIn(after, workspace), ActiveIn(before, workspace) + IdsIn(picks, workspace));
    if NoReservedName(before) {
      PicksKeepWorkspaceCap(before, rows, workspace);
    }
  }

  // ---- The ordered query ----

  function InsertByQueue(run: Run, rows: seq<Run>): seq<Run> {
    if rows == [] || NotAfter(run, rows[0]) then [run] + rows
    else [rows[0]] + InsertByQueue(run, rows[1..])
  }

  lemma {:induction false} InsertKeepsOrder(run: Run, rows: seq<Run>)
    requires Sorted(rows) && Distinct(rows) && forall r :: r in rows ==> r.id != run.id
    ensures Sorted(InsertByQueue(run, rows)) && Distinct(InsertByQueue(run, rows))
    ensures forall r :: r in InsertByQueue(run, rows) <==> r == run || r in rows
  {
    if rows != [] && !NotAfter(run, rows[0]) {
      InsertKeepsOrder(run, rows[1..]);
      var rest := InsertByQueue(run, rows[1..]);
      assert forall r :: r in rest ==> NotAfter(rows[0], r) && rows[0].id != r.id;
      assert rows == [rows[0]] + rows[1..];
    }
  }

  // ---- The memo of per-workspace counts ----

  /** Every memo entry is the database count of its key plus the picks so far, and is never zero. */
  ghost predicate MemoAgrees(runs: Table, rows: seq<Run>, memo: map<string, nat>) {
    forall k {:trigger EntryAgrees(runs, rows, memo, k)} :: EntryAgrees(runs, rows, memo, k)
  }

  predicate EntryAgrees(runs: Table, rows: seq<Run>, memo: map<string, nat>, k: string) {
    && (k in memo <==> FirstWithKey(rows, k).Some?)
    && (k in memo ==> 0 < memo[k] == BaseCount(runs, rows, k) + CountKey(Picks(runs, rows), k))
  }

  /** The memo after the database was asked, if it was. */
  function Asked(runs: Table, run: Run, memo: map<string, nat>): (asked: map<string, nat>)
    ensures Key(run.workspaceId) in asked
  {
    var k := Key(run.workspaceId);
    if k in memo && memo[k] != 0 then memo else memo[k := |ActiveIn(runs, run.workspaceId)|]
  }

  /** The memo after the row has been picked, if there was room. */
  function NextMemo(runs: Table, run: Run, memo: map<string, nat>): map<string, nat> {
    var k, asked := Key(run.workspaceId), Asked(runs, run, memo);
    if asked[k] < MAX_CONCURRENT_RUNS_PER_WORKSPACE then asked[k := asked[k] + 1] else asked
  }

  /** One turn of the loop: the memo agrees again, and the row is picked exactly when there was room. */
  lemma MemoStep(runs: Table, rows: seq<Run>, n: nat, memo: map<string, nat>, asked: map<string, nat>, k: string)
    requires n < |rows| && MemoAgrees(runs, rows[..n], memo)
    requires k == Key(rows[n].workspaceId) && asked == Asked(runs, rows[n], memo)
    ensures asked[k] < MAX_CONCURRENT_RUNS_PER_WORKSPACE ==>
              && MemoAgrees(runs, rows[..n + 1], asked[k := asked[k] + 1])
              && Picks(runs, rows[..n + 1]) == Picks(runs, rows[..n]) + [rows[n]]
    ensures asked[k] >= MAX_CONCURRENT_RUNS_PER_WORKSPACE ==>
              MemoAgrees(runs, rows[..n + 1], asked) && Picks(runs, rows[..n + 1]) == Picks(runs, rows[..n])
  {
    NextMemoAgrees(runs, rows, n, memo, NextMemo(runs, rows[n], memo));
    PickedIffAsked(runs, rows, n, memo);
  }

  lemma NextMemoAgrees(runs: Table, rows: seq<Run>, n: nat, memo: map<string, nat>, next: map<string, nat>)
    requires n < |rows| && MemoAgrees(runs, rows[..n], memo) && next == NextMemo(runs, rows[n], memo)
    ensures MemoAgrees(runs, rows[..n + 1], next)
  {
    var upTo := rows[..n + 1];
    forall k ensures EntryAgrees(runs, upTo, next, k) {
      EntryAfterRow(runs, rows, n, memo, k);
    }
  }

  lemma PickedIffAsked(runs: Table, rows: seq<Run>, n: nat, memo: map<string, nat>)
    requires n < |rows| && MemoAgrees(runs, rows[..n], memo)
    ensures Picks(runs, rows[..n + 1]) ==
            if Asked(runs, rows[n], memo)[Key(rows[n].workspaceId)] < MAX_CONCURRENT_RUNS_PER_WORKSPACE
            then Picks(runs, rows[..n]) + [rows[n]] else Picks(runs, rows[..n])
  {
    AskedAgrees(runs, rows, n, memo);
    PicksAfterRow(runs, rows, n);
  }

  lemma AskedAgrees(runs: Table, rows: seq<Run>, n: nat, memo: map<string, nat>)
    requires n < |rows| && MemoAgrees(runs, rows[..n], memo)
    ensures var k := Key(rows[n].workspaceId);
      Asked(runs, rows[n], memo)[k] == BaseCount(runs, rows[..n + 1], k) + CountKey(Picks(runs, rows[..n]), k)
  {
    var k := Key(rows[n].workspaceId);
    assert EntryAgrees(runs, rows[..n], memo, k);
    PickedKeysOccur(runs, rows[..n], k);
    BaseCountAfterRow(runs, rows, n, k);
  }

  lemma EntryAfterRow(runs: Table, rows: seq<Run>, n: nat, memo: map<string, nat>, k: string)
    requires n < |rows| && MemoAgrees(runs, rows[..n], memo)
    ensures EntryAgrees(runs, rows[..n + 1], NextMemo(runs, rows[n], memo), k)
  {
    assert EntryAgrees(runs, rows[..n], memo, k);
    AskedAgrees(runs, rows, n, memo);
    BaseCountAfterRow(runs, rows, n, k);
    CountAfterPick(runs, rows, n, k);
  }

  lemma BaseCountAfterRow(runs: Table, rows: seq<Run>, n: nat, k: string)
    requires n < |rows|
    ensures var first := FirstWithKey(rows[..n], k);
      FirstWithKey(rows[..n + 1], k) == if first.None? && Key(rows[n].workspaceId) == k then Some(rows[n]) else first
    ensures BaseCount(runs, rows[..n + 1], k) ==
            if FirstWithKey(rows[..n], k).None? && Key(rows[n].workspaceId) == k
            then |ActiveIn(runs, rows[n].workspaceId)| else BaseCount(runs, rows[..n], k)
  {
    assert rows[..n + 1][..n] == rows[..n];
  }

  lemma PicksAfterRow(runs: Table, rows: seq<Run>, n: nat)
    requires n < |rows|
    ensures Picks(runs, rows[..n + 1]) ==
            if HasRoom(runs, rows, n) then Picks(runs, rows[..n]) + [rows[n]] else Picks(runs, rows[..n])
  {
    var earlier, upTo := rows[..n], rows[..n + 1];
    assert upTo[..n] == earlier && upTo[..n + 1] == upTo;
    assert HasRoom(runs, upTo, n) == HasRoom(runs, rows, n);
  }

  lemma CountAfterPick(runs: Table, rows: seq<Run>, n: nat, k: string)
    requires n < |rows|
    ensures CountKey(Picks(runs, rows[..n + 1]), k) == CountKey(Picks(runs, rows[..n]), k)
            + if k == Key(rows[n].workspaceId) && HasRoom(runs, rows, n) then 1 else 0
  {
    var earlier := Picks(runs, rows[..n]);
    PicksAfterRow(runs, rows, n);
    assert (earlier + [rows[n]])[..|earlier|] == earlier;
  }

  // ---- Keeping the tables consistent ----

  predicate RunIdCollision(runIdOf: (string, nat) -> RunId, op: string, attempt: nat, op': string, attempt': nat) {
    (op, attempt) != (op', attempt') && runIdOf(op, attempt) == runIdOf(op', attempt')
  }

  /** Every run's event log tells that run's life. */
  ghost predicate LogsFaithful(runs: Table, events: map<RunId, seq<EventRow>>) {
    && runs.Keys == events.Keys
    && forall id {:trigger Faithful(runs[id], events[id])} :: id in runs ==> Faithful(runs[id], events[id])
  }

  /** A row sits under its deterministic id, and its attempt number is within its operation's count. */
  predicate Identified(runs: Table, runIdOf: (string, nat) -> RunId, id: RunId)
    requires id in runs
  {
    && id == runs[id].id == runIdOf(runs[id].operationId, runs[id].attempt)
    && 1 <= runs[id].attempt <= |RunsOf(runs, runs[id].operationId)|
  }

  predicate AllIdentified(runs: Table, runIdOf: (string, nat) -> RunId) {
    forall id {:trigger Identified(runs, runIdOf, id)} :: id in runs ==> Identified(runs, runIdOf, id)
  }

  lemma IdentifiedIsWellKeyed(runs: Table, runIdOf: (string, nat) -> RunId)
    requires AllIdentified(runs, runIdOf)
    ensures WellKeyed(runs)
  {
    forall id | id in runs ensures runs[id].id == id {
      assert Identified(runs, runIdOf, id);
    }
  }

  lemma EventKeepsLogs(runs: Table, events: map<RunId, seq<EventRow>>, runId: RunId, kind: string)
    requires LogsFaithful(runs, events) && runId in runs
    ensures LogsFaithful(runs, events[runId := Append(events[runId], Other(kind))])
  {
    assert Faithful(runs[runId], events[runId]);
    OtherEventKeepsFaithful(runs[runId], events[runId], kind);
  }

  lemma TransitionKeepsLogs(runs: Table, events: map<RunId, seq<EventRow>>,
                            runId: RunId, to: Status, reason: Option<string>, now: int)
    requires LogsFaithful(runs, events) && runId in runs && CanTransition(runs[runId].status, to)
    ensures LogsFaithful(runs[runId := AfterTransition(runs[runId], to, now)],
                         events[runId := Append(events[runId], StateChange(Some(runs[runId].status), to, reason))])
  {
    assert Faithful(runs[runId], events[runId]);
    TransitionKeepsFaithful(runs[runId], events[runId], to, reason, now);
  }

  lemma UpdateKeepsIds(runs: Table, runIdOf: (string, nat) -> RunId, runId: RunId, row: Run)
    requires AllIdentified(runs, runIdOf) && runId in runs && SameIdentity(runs[runId], row)
    ensures AllIdentified(runs[runId := row], runIdOf)
  {
    var runs' := runs[runId := row];
    forall id | id in runs' ensures Identified(runs', runIdOf, id) {
      assert Identified(runs, runIdOf, id);
      assert RunsOf(runs', runs'[id].operationId) == RunsOf(runs, runs'[id].operationId);
    }
  }

  lemma CreationKeepsIds(runs: Table, runIdOf: (string, nat) -> RunId, run: Run)
    requires AllIdentified(runs, runIdOf) && run.id !in runs
    requires run.attempt == |RunsOf(runs, run.operationId)| + 1
    requires run.id == runIdOf(run.operationId, run.attempt)
    ensures AllIdentified(runs[run.id := run], runIdOf)
  {
    var runs' := runs[run.id := run];
    assert RunsOf(runs', run.operationId) == RunsOf(runs, run.operationId) + {run.id};
    forall id | id in runs' ensures Identified(runs', runIdOf, id) {
      if id != run.id {
        assert Identified(runs, runIdOf, id);
        SubsetSize(RunsOf(runs, runs[id].operationId), RunsOf(runs', runs[id].operationId));
      }
    }
  }

  class Orchestrator {
    var runs: Table
    var events: map<RunId, seq<EventRow>>
    var grants: map<string, Grant>
    const runIdOf: (string, nat) -> RunId

    constructor (runIdOf: (string, nat) -> RunId)
      ensures Valid() && this.runIdOf == runIdOf && runs == map[] && grants == map[]
    {
      this.runIdOf := runIdOf;
      runs, events, grants := map[], map[], map[];
    }

    /** Every row is keyed by its deterministic id, and every run's event log tells its life. */
    ghost predicate Valid()
      reads this
    {
      LogsFaithful(runs, events) && AllIdentified(runs, runIdOf)
    }

    // ---- run-events.ts ----

    /** One atomic allocation of the next sequence number; an unknown run violates the foreign key. */
    method EmitRunEvent(runId: RunId, payload: Payload) returns (r: Result<nat, RunError>)
      modifies this`events
      ensures r.Ok? <==> runId in old(events)
      ensures r.Err? ==> events == old(events) && r.error == NotFound
      ensures r.Ok? ==>
                && events == old(events)[runId := Append(old(events)[runId], payload)]
                && r.value == LastSequenceNum(old(events)[runId]) + 1
      ensures old(Valid()) && payload.Other? ==> Valid()
    {
      if runId !in events {
        return Err(NotFound);
      }
      if LogsFaithful(runs, events) && payload.Other? {
        EventKeepsLogs(runs, events, runId, payload.kind);
      }
      var sequenceNum := LastSequenceNum(events[runId]) + 1;
      events := events[runId := events[runId] + [EventRow(sequenceNum, payload)]];
      return Ok(sequenceNum);
    }

    // ---- orchestrator.ts ----

    method TransitionRun(runId: RunId, to: Status, reason: Option<string>, now: int)
      returns (r: Result<Run, RunError>)
      requires Valid()
      modifies this`runs, this`events
      ensures Valid()
      ensures runId !in old(runs) ==> r == Err(NotFound)
      ensures runId in old(runs) && !CanTransition(old(runs)[runId].status, to) ==>
                r == Err(InvalidTransition(old(runs)[runId].status, to))
      ensures runId in old(runs) && CanTransition(old(runs)[runId].status, to) ==>
                && r == Ok(AfterTransition(old(runs)[runId], to, now))
                && runs == old(runs)[runId := r.value]
                && events == old(events)[runId := Append(old(events)[runId],
                                                         StateChange(Some(old(runs)[runId].status), to, reason))]
      ensures r.Err? ==> runs == old(runs) && events == old(events)
      ensures runId in old(runs) ==>
                (r.Ok? <==> (old(runs)[runId].status, to) in {
                   (Pending, Scheduled), (Pending, Cancelled), (Scheduled, Running), (Scheduled, Cancelled),
                   (Running, Paused), (Running, Completed), (Running, Failed), (Running, Quarantined),
                   (Paused, Running), (Paused, Cancelled), (Paused, Quarantined), (Quarantined, Cancelled)})
    {
      if runId !in runs {
        return Err(NotFound);
      }
      var run := runs[runId];
      var from := run.status;
      TransitionTable(from, to);
      if !CanTransition(from, to) {
        return Err(InvalidTransition(from, to));
      }
      var updated := run.(status := to);
      if to == Running && run.startedAt.None? {
        updated := updated.(startedAt := Some(now));
      }
      if to == Paused {
        updated := updated.(pausedAt := Some(now));
      }
      if to == Completed || to == Failed {
        updated := updated.(completedAt := Some(now));
      }
      if to == Running && run.pausedAt.Some? {
        updated := updated.(pausedAt := None);
      }
      TransitionKeepsLogs(runs, events, runId, to, reason, now);
      UpdateKeepsIds(runs, runIdOf, runId, updated);
      runs := runs[runId := updated];
      var _ := EmitRunEvent(runId, StateChange(Some(from), to, reason));
      return Ok(updated);
    }

    method CreateRun(operationId: string, priority: Option<Priority>, workspaceId: Option<string>,
                     now: int, createdAt: int)
      returns (r: Result<Run, RunError>)
      requires Valid()
      modifies this`runs, this`events
      ensures Valid()
      ensures r.Ok? ==>
                && r.value.id !in old(runs)
                && runs == old(runs)[r.value.id := r.value]
                && events == old(events)[r.value.id := Append([], StateChange(None, Pending, Some("created")))]
                && r.value == Run(runIdOf(operationId, |RunsOf(old(runs), operationId)| + 1), operationId, workspaceId,
                                  Pending, if priority.Some? then priority.value else P2,
                                  |RunsOf(old(runs), operationId)| + 1, createdAt,
                                  None, None, None, Some(now + DEFAULT_TIMEOUT_MS))
      ensures r.Ok? ==>
                && r.value.attempt == |set id | id in old(runs) && old(runs)[id].operationId == operationId| + 1
                && r.value.timeoutAt == Some(now + 1800000)
      // Creation fails exactly when the id is taken, and then by a stored run of a different operation or attempt.
      ensures r.Err? <==> runIdOf(operationId, |RunsOf(old(runs), operationId)| + 1) in old(runs)
      ensures r.Err? ==> && r.error == DuplicateId && runs == old(runs) && events == old(events)
                         && var attempt := |RunsOf(old(runs), operationId)| + 1;
                            var holder := old(runs)[runIdOf(operationId, attempt)];
                            RunIdCollision(runIdOf, operationId, attempt, holder.operationId, holder.attempt)
    {
      var existing := |RunsOf(runs, operationId)|;
      assert RunsOf(runs, operationId) == set id | id in runs && runs[id].operationId == operationId;
      var attempt := existing + 1;
      var id := runIdOf(operationId, attempt);
      if id in runs {
        assert Identified(runs, runIdOf, id);
        assert RunIdCollision(runIdOf, operationId, attempt, runs[id].operationId, runs[id].attempt);
        return Err(DuplicateId);
      }
      var run := Run(id, operationId, workspaceId, Pending, if priority.Some? then priority.value else P2,
                     attempt, createdAt, None, None, None, Some(now + DEFAULT_TIMEOUT_MS));
      CreationIsFaithful(run, Some("created"));
      CreationKeepsIds(runs, runIdOf, run);
      runs := runs[id := run];
      events := events[id := []];
      var _ := EmitRunEvent(id, StateChange(None, Pending, Some("created")));
      assert events == old(events)[id := Append([], StateChange(None, Pending, Some("created")))];
      return Ok(run);
    }

    method DetectLoop(operationId: string, now: int) returns (isLoop: bool)
      ensures isLoop <==>
              |RecentRuns(runs, operationId, now - LOOP_DETECTION_WINDOW_MS)| >= LOOP_DETECTION_THRESHOLD
      ensures isLoop <==>
              |set id | id in runs && runs[id].operationId == operationId && runs[id].createdAt >= now - 300000| >= 5
    {
      assert RecentRuns(runs, operationId, now - 300000) ==
             set id | id in runs && runs[id].operationId == operationId && runs[id].createdAt >= now - 300000;
      var windowStart := now - LOOP_DETECTION_WINDOW_MS;
      var recentRuns := |RecentRuns(runs, operationId, windowStart)|;
      isLoop := recentRuns >= LOOP_DETECTION_THRESHOLD;
    }

    /**
     * The pending queue cut after `take` rows. A pending run is left out only by a full list of
     * runs that go first: no P1 or P2 run is listed before a P0 run that is left out, no P2 run
     * before a P1 run, and no younger run of the same priority; and the list is in that order.
     */
    method PendingQueue(take: nat) returns (rows: seq<Run>)
      requires WellKeyed(runs)
      ensures IsWindow(runs, rows, take)
      ensures |rows| <= take && forall r :: r in rows ==> r.id in runs && runs[r.id] == r && r.status == Pending
      ensures forall i, j :: 0 <= i < j < |rows| ==>
                && rows[i].id != rows[j].id
                && (rows[j].priority == P0 ==> rows[i].priority == P0)
                && (rows[j].priority == P1 ==> rows[i].priority != P2)
                && (rows[i].priority == rows[j].priority ==> rows[i].createdAt <= rows[j].createdAt)
      ensures forall id :: id in runs && runs[id].status == Pending && runs[id] !in rows ==> |rows| == take
      ensures forall id, r :: id in runs && runs[id].status == Pending && runs[id] !in rows && r in rows ==>
                && (runs[id].priority == P0 ==> r.priority == P0)
                && (runs[id].priority == P1 ==> r.priority != P2)
                && (r.priority == runs[id].priority ==> r.createdAt <= runs[id].createdAt)
    {
      rows := [];
      var todo := PendingIds(runs);
      while todo != {}
        invariant todo <= PendingIds(runs)
        invariant RowsOf(runs, rows) && Sorted(rows)
        invariant forall r :: r in rows ==> r.id !in todo
        invariant forall id :: id in PendingIds(runs) ==> id in todo || runs[id] in rows
        decreases todo
      {
        var id :| id in todo;
        InsertKeepsOrder(runs[id], rows);
        rows := InsertByQueue(runs[id], rows);
        todo := todo - {id};
      }
      if |rows| > take {
        ghost var all := rows;
        rows := rows[..take];
        assert forall r :: r in rows ==> r in all;
        assert forall k :: 0 <= k < take ==> rows[k] == all[k];
        forall id | id in PendingIds(runs) && runs[id] !in rows
          ensures forall r :: r in rows ==> NotAfter(r, runs[id])
        {
          var i :| 0 <= i < |all| && all[i] == runs[id];
          assert take <= i;
        }
      }
      WindowIsTheFront(runs, rows, take);
    }

    /** The memoised per-workspace counts always agree with a recount of table plus picks. */
    method GetSchedulableRuns() returns (schedulable: seq<Run>)
      requires WellKeyed(runs)
      ensures exists window: seq<Run> :: WindowFor(runs, window) && schedulable == Picks(runs, window)
    {
      var activeCount := |Active(runs)|;
      if activeCount >= MAX_GLOBAL_CONCURRENT_RUNS {
        assert WindowFor(runs, []);
        return [];
      }
      var pendingRuns := PendingQueue(MAX_GLOBAL_CONCURRENT_RUNS - activeCount);
      schedulable := [];
      var workspaceCounts: map<string, nat> := map[];
      for n := 0 to |pendingRuns|
        invariant schedulable == Picks(runs, pendingRuns[..n])
        invariant MemoAgrees(runs, pendingRuns[..n], workspaceCounts)
      {
        var run := pendingRuns[n];
        var wsId := Key(run.workspaceId);
        ghost var memo := workspaceCounts;
        var current := if wsId in workspaceCounts then workspaceCounts[wsId] else 0;
        if current == 0 {
          workspaceCounts := workspaceCounts[wsId := |ActiveIn(runs, run.workspaceId)|];
        }
        MemoStep(runs, pendingRuns, n, memo, workspaceCounts, wsId);
        var wsActive := workspaceCounts[wsId];
        if wsActive < MAX_CONCURRENT_RUNS_PER_WORKSPACE {
          schedulable := schedulable + [run];
          workspaceCounts := workspaceCounts[wsId := wsActive + 1];
        }
      }
      assert pendingRuns[..|pendingRuns|] == pendingRuns;
      assert WindowFor(runs, pendingRuns);
    }

    /** Pauses at most one running P1 or P2 run, a P2 run when there is one. */
    method PreemptForPriority(incoming: Priority, workspaceId: Option<string>, now: int)
      returns (preempted: seq<Run>)
      requires Valid()
      modifies this`runs, this`events
      ensures Valid()
      ensures preempted == [] <==> incoming != P0 || PausableIds(old(runs), workspaceId) == {}
      ensures preempted == [] ==> runs == old(runs) && events == old(events)
      ensures preempted != [] ==>
                && |preempted| == 1
                && Victim(old(runs), workspaceId, preempted[0].id)
                && old(runs)[preempted[0].id].status == Running
                && old(runs)[preempted[0].id].priority != P0
                && (workspaceId in {None, Some("")} || old(runs)[preempted[0].id].workspaceId == workspaceId)
                && preempted[0] == AfterTransition(old(runs)[preempted[0].id], Paused, now)
                && runs == Move(old(runs), preempted[0].id, Paused, now)
      ensures incoming == P0 ==>
                forall id :: id in old(runs) && old(runs)[id].status == Running && old(runs)[id].priority != P0
                             && (workspaceId in {None, Some("")} || old(runs)[id].workspaceId == workspaceId) ==>
                  && preempted != []
                  && (old(runs)[id].priority == P2 ==> old(runs)[preempted[0].id].priority == P2)
    {
      IdentifiedIsWellKeyed(runs, runIdOf);
      preempted := [];
      if incoming != P0 {
        return;
      }
      PausableMeaning(runs, workspaceId);
      var pausable := PausableIds(runs, workspaceId);
      if pausable == {} {
        return;
      }
      var lowest := set id | id in pausable && runs[id].priority == P2;
      var victim: RunId;
      if lowest != {} {
        victim :| victim in lowest;
      } else {
        victim :| victim in pausable;
      }
      LowestIsVictim(runs, workspaceId, lowest, victim);
      var r := TransitionRun(victim, Paused, Some("Preempted for P0 operation"), now);
      preempted := [r.value];
    }

    method QuarantineRun(runId: RunId, reason: string, now: int) returns (r: Result<Run, RunError>)
      requires Valid()
      modifies this
      ensures Valid()
      ensures r.Ok? <==> runId in old(runs) && CanTransition(old(runs)[runId].status, Quarantined)
      ensures r.Err? ==> runs == old(runs) && events == old(events) && grants == old(grants)
      ensures r.Ok? ==> && runs == old(runs)[runId := AfterTransition(old(runs)[runId], Quarantined, now)]
                        && grants.Keys == old(grants).Keys
                        && forall c :: c in grants ==>
                             grants[c] == if old(grants)[c].runId == runId && old(grants)[c].revokedAt.None?
                                          then old(grants)[c].(revokedAt := Some(now)) else old(grants)[c]
    {
      r := TransitionRun(runId, Quarantined, Some(reason), now);
      if r.Err? {
        return;
      }
      grants := map c | c in grants ::
        if grants[c].runId == runId && grants[c].revokedAt.None?
        then grants[c].(revokedAt := Some(now)) else grants[c];
    }

    /** The kill switch ends every live run and never fails on a known one. */
    method KillRun(runId: RunId, reason: string, now: int) returns (r: Result<Run, RunError>)
      requires Valid()
      modifies this`runs, this`events
      ensures Valid()
      ensures r.Err? <==> runId !in old(runs)
      ensures r.Err? ==> runs == old(runs) && events == old(events)
      ensures r.Ok? ==> && runs == old(runs)[runId := r.value]
                        && r.value.status in {Completed, Failed, Cancelled, Quarantined}
                        && (old(runs)[runId].status == Running ==> r.value.status == Failed)
                        && (old(runs)[runId].status in {Pending, Scheduled, Paused} ==> r.value.status == Cancelled)
                        && (old(runs)[runId].status in {Completed, Failed, Cancelled, Quarantined} ==>
                              runs == old(runs) && events == old(events))
    {
      if runId !in runs {
        return Err(NotFound);
      }
      var run := runs[runId];
      var target;
      if run.status == Pending || run.status == Scheduled {
        target := Cancelled;
      } else if run.status == Running {
        target := Failed;
      } else if run.status == Paused {
        target := Cancelled;
      } else {
        return Ok(run);
      }
      r := TransitionRun(runId, target, Some("Kill switch: " + reason), now);
    }

    /**
     * Fails every timed-out run, unless one of them is paused: that transition is refused
     * and ends the sweep at whatever point it is met.
     */
    method CheckTimeouts(now: int) returns (r: Result<seq<Run>, RunError>)
      requires Valid()
      modifies this`runs, this`events
      ensures Valid()
      ensures r.Err? <==> Stuck(old(runs), now)
      ensures r.Ok? ==> runs == TimeoutsFailed(old(runs), now)
      ensures r.Ok? ==> Ids(r.value) == TimedOutIds(old(runs), now) && FailedFrom(old(runs), r.value, now)
      ensures r.Ok? ==> forall run :: run in r.value ==> run.id in runs && runs[run.id] == run && run.status == Failed
      ensures TimeoutsApplied(old(runs), runs, now)
      ensures r.Ok? ==> forall id :: id in old(runs) && old(runs)[id].status == Running ==>
                id in runs && runs[id].status == if old(runs)[id].timeoutAt != None && old(runs)[id].timeoutAt.value <= now
                                                 then Failed else Running
    {
      TimedOutMeaning(runs, now);
      IdentifiedIsWellKeyed(runs, runIdOf);
      SweepStarts(runs, now);
      ghost var before := runs;
      var timedOut := TimedOutIds(runs, now);
      var failed := [];
      while timedOut != {}
        invariant Valid()
        invariant Sweeping(before, runs, timedOut, failed, now)
        decreases timedOut
      {
        var id :| id in timedOut;
        ghost var current := runs;
        SweepMeets(before, current, timedOut, failed, id, now);
        var t := TransitionRun(id, Failed, Some("Timed out"), now);
        if t.Err? {
          return Err(t.error);
        }
        SweepGoesOn(before, current, timedOut, failed, id, t.value, runs, now);
        failed := failed + [t.value];
        timedOut := timedOut - {id};
      }
      SweepStops(before, runs, timedOut, failed, now);
      forall run | run in failed ensures run.id in runs && runs[run.id] == run && run.status == Failed {
        assert run.id in Ids(failed);
      }
      return Ok(failed);
    }

    // ---- routes/runs.ts ----

    /** POST /api/runs for an operation that exists. */
    method PostRun(operationId: string, priority: Priority, workspaceId: Option<string>, now: int, createdAt: int)
      returns (r: Result<Run, RunError>)
      requires Valid()
      modifies this`runs, this`events
      ensures Valid()
      ensures r == Err(LoopDetected) <==>
              |RecentRuns(old(runs), operationId, now - LOOP_DETECTION_WINDOW_MS)| >= LOOP_DETECTION_THRESHOLD
      ensures r == Err(LoopDetected) <==>
                |set id | id in old(runs) && old(runs)[id].operationId == operationId
                          && old(runs)[id].createdAt >= now - 300000| >= 5
      ensures r == Err(DuplicateId) <==>
                && |RecentRuns(old(runs), operationId, now - LOOP_DETECTION_WINDOW_MS)| < LOOP_DETECTION_THRESHOLD
                && runIdOf(operationId, |RunsOf(old(runs), operationId)| + 1) in old(runs)
      ensures r.Err? ==> (r.error == LoopDetected || r.error == DuplicateId)
                         && runs == old(runs) && events == old(events)
      ensures r.Ok? ==> && r.value.id !in old(runs) && runs == old(runs)[r.value.id := r.value]
                        && r.value.operationId == operationId && r.value.createdAt == createdAt
                        && r.value.workspaceId == workspaceId && r.value.priority == priority
                        && r.value.status == Pending && r.value.attempt == |RunsOf(old(runs), operationId)| + 1
    {
      var isLoop := DetectLoop(operationId, now);
      if isLoop {
        return Err(LoopDetected);
      }
      r := CreateRun(operationId, Some(priority), workspaceId, now, createdAt);
    }

    /** One turn of the scheduling loop: preempt for a P0 run, then schedule it. It never fails. */
    method ScheduleOne(run: Run, now: int) returns (updated: Run, ghost victim: Option<RunId>)
      requires Valid()
      requires run.id in runs && runs[run.id].status == Pending
      modifies this`runs, this`events
      ensures Valid()
      ensures Turn(old(runs), runs, run, victim, now)
      ensures updated == runs[run.id]
    {
      victim := None;
      if run.priority == P0 {
        var preempted := PreemptForPriority(P0, run.workspaceId, now);
        if preempted != [] {
          victim := Some(preempted[0].id);
        }
      }
      var r := TransitionRun(run.id, Scheduled, None, now);
      updated := r.value;
    }

    /** The loop over the picks. */
    method ScheduleAll(schedulable: seq<Run>, now: int)
      returns (scheduled: seq<Run>, ghost trace: seq<Table>, ghost victims: seq<Option<RunId>>)
      requires Valid()
      requires RowsOf(runs, schedulable)
      modifies this`runs, this`events
      ensures Valid()
      ensures Turns(trace, victims, schedulable, now)
      ensures trace[0] == old(runs) && trace[|trace| - 1] == runs
      ensures Returned(trace, schedulable, scheduled)
    {
      scheduled, trace, victims := [], [runs], [];
      for n := 0 to |schedulable|
        invariant Valid()
        invariant Turns(trace, victims, schedulable[..n], now)
        invariant trace[0] == old(runs) && trace[n] == runs
        invariant Returned(trace, schedulable[..n], scheduled)
      {
        var run := schedulable[n];
        StillPending(trace, victims, schedulable, n, now);
        var updated, victim := ScheduleOne(run, now);
        OneMoreTurn(trace, victims, schedulable[..n], run, runs, victim, scheduled, now);
        scheduled, trace, victims := scheduled + [updated], trace + [runs], victims + [victim];
        assert schedulable[..n + 1] == schedulable[..n] + [run];
      }
      assert schedulable[..|schedulable|] == schedulable;
    }

    /**
     * POST /api/runs/schedule. The pass goes through exactly when no paused run is past its
     * deadline; otherwise nothing is scheduled and the runs that block it stay as they are.
     */
    method SchedulePass(now: int) returns (r: Result<seq<Run>, RunError>)
      requires Valid()
      modifies this`runs, this`events
      ensures Valid()
      ensures r.Err? <==> Stuck(old(runs), now)
      ensures r.Err? ==> TimeoutsApplied(old(runs), runs, now) && forall later :: now <= later ==> Stuck(runs, later)
      ensures r.Ok? ==> PassExplained(old(runs), runs, r.value, now) && MovedByPass(old(runs), runs, now)
      ensures WithinCaps(old(runs), runs) && UrgentFirst(old(runs), runs)
    {
      IdentifiedIsWellKeyed(runs, runIdOf);
      var timedOut := CheckTimeouts(now);
      ghost var mid := runs;
      if timedOut.Err? {
        BlockedPass(old(runs), mid, now);
        return Err(timedOut.error);
      }
      var scheduled := SchedulePending(now);
      PassDelivers(old(runs), mid, runs, scheduled, now);
      return Ok(scheduled);
    }

    /** The handler once the timeouts are dealt with. */
    method SchedulePending(now: int) returns (scheduled: seq<Run>)
      requires Valid()
      modifies this`runs, this`events
      ensures Valid() && PicksTookTurns(old(runs), runs, scheduled, now)
    {
      IdentifiedIsWellKeyed(runs, runIdOf);
      var schedulable := GetSchedulableRuns();
      ghost var window: seq<Run> :| WindowFor(runs, window) && schedulable == Picks(runs, window);
      WindowPicksAreRows(runs, window);
      ghost var trace, victims;
      scheduled, trace, victims := ScheduleAll(schedulable, now);
      assert TurnsOf(old(runs), runs, scheduled, window, trace, victims, now);
    }

    /** The timeline check of the exported case file never fails on an orchestrated run. */
    method ExportedTimelineIsOrdered(runId: RunId) returns (ordered: bool)
      requires Valid() && runId in runs
      ensures ordered
    {
      assert Faithful(runs[runId], events[runId]);
      ordered := TimelineOrdered(events[runId]);
    }
  }

  /** A blocked pass stays blocked while time passes and no paused run is moved. */
  lemma StuckStays(before: Table, after: Table, now: int, later: int)
    requires Stuck(before, now) && now <= later
    requires forall id :: id in before && before[id].status == Paused ==>
               id in after && after[id].status == Paused && after[id].timeoutAt == before[id].timeoutAt
    ensures Stuck(after, later)
  {
    var id :| id in before && before[id].status == Paused
              && before[id].timeoutAt.Some? && before[id].timeoutAt.value <= now;
    assert after[id].status == Paused && after[id].timeoutAt.value <= later;
  }

  /**
   * From an empty database: a run is created, scheduled, started and paused. Past its deadline
   * the pass fails, and so does the next one.
   */
  method PausedRunBlocksEveryPass(runIdOf: (string, nat) -> RunId, start: int, past: int, later: int)
    returns (first: Result<seq<Run>, RunError>, second: Result<seq<Run>, RunError>)
    requires start + DEFAULT_TIMEOUT_MS <= past <= later
    ensures first.Err? && second.Err?
  {
    var o := new Orchestrator(runIdOf);
    var created := o.CreateRun("op", None, None, start, start);
    var id := created.value.id;
    var scheduled := o.TransitionRun(id, Scheduled, None, start);
    var started := o.TransitionRun(id, Running, None, start);
    var paused := o.TransitionRun(id, Paused, None, start);
    assert o.runs[id].status == Paused && TimedOut(o.runs[id], past);
    first := o.SchedulePass(past);
    second := o.SchedulePass(later);
  }

  lemma WindowPicksAreRows(runs: Table, window: seq<Run>)
    requires WindowFor(runs, window)
    ensures RowsOf(runs, Picks(runs, window))
  {
    PicksComeFromTheWindow(runs, window);
  }

  /** Everything the pass promises, from the turns it took. */
  lemma PassSummary(before: Table, mid: Table, after: Table, scheduled: seq<Run>, now: int)
    requires WellKeyed(before) && mid == TimeoutsFailed(before, now) && TimeoutsApplied(before, mid, now)
    requires PicksTookTurns(mid, after, scheduled, now)
    ensures CapsKept(before, after) && NoInversionBetween(before, after)
    ensures !Stuck(before, now) ==> MovedByPass(before, after, now)
  {
    var window: seq<Run>, trace: seq<Table>, victims: seq<Option<RunId>> :|
      TurnsOf(mid, after, scheduled, window, trace, victims, now);
    var picks := Picks(mid, window);
    WindowPicksAreRows(mid, window);
    TurnsMove(trace, victims, picks, now, |picks|);
    assert picks[..|picks|] == picks;
    PassKeepsCapsOverall(before, mid, after, window, now);
    PassHasNoInversion(before, mid, after, window, now);
    if !Stuck(before, now) {
      MovesOfAPass(before, mid, after, Ids(picks), now);
    }
  }

  /** The same, spelled out in the columns of the runs. */
  lemma PassDelivers(before: Table, mid: Table, after: Table, scheduled: seq<Run>, now: int)
    requires WellKeyed(before) && mid == TimeoutsFailed(before, now) && TimeoutsApplied(before, mid, now)
    requires PicksTookTurns(mid, after, scheduled, now)
    ensures WithinCaps(before, after) && UrgentFirst(before, after)
    ensures !Stuck(before, now) ==> MovedByPass(before, after, now)
  {
    PassSummary(before, mid, after, scheduled, now);
    PromisesSpelledOut(before, after);
  }

  lemma BlockedPass(before: Table, after: Table, now: int)
    requires TimeoutsApplied(before, after, now) && Stuck(before, now)
    ensures forall later :: now <= later ==> Stuck(after, later)
    ensures WithinCaps(before, after) && UrgentFirst(before, after)
  {
    TimeoutsKeepCaps(before, after, now);
    PromisesSpelledOut(before, after);
    forall later | now <= later ensures Stuck(after, later) {
      StuckStays(before, after, now, later);
    }
  }

  lemma PassKeepsCapsOverall(before: Table, mid: Table, after: Table, window: seq<Run>, now: int)
    requires TimeoutsApplied(before, mid, now) && WindowFor(mid, window)
    requires PassMoved(mid, after, Ids(Picks(mid, window)))
    ensures CapsKept(before, after)
  {
    TimeoutsKeepCaps(before, mid, now);
    SchedulingKeepsCaps(mid, after, window, None);
    forall w: Option<string> | NoReservedName(before)
      ensures |ActiveIn(after, w)| <= Max(|ActiveIn(mid, w)|, MAX_CONCURRENT_RUNS_PER_WORKSPACE)
    {
      SchedulingKeepsCaps(mid, after, window, w);
    }
  }

  lemma SchedulingKeepsCaps(mid: Table, after: Table, window: seq<Run>, w: Option<string>)
    requires WindowFor(mid, window) && PassMoved(mid, after, Ids(Picks(mid, window)))
    ensures |Active(after)| <= Max(|Active(mid)|, MAX_GLOBAL_CONCURRENT_RUNS)
    ensures NoReservedName(mid) ==> |ActiveIn(after, w)| <= Max(|ActiveIn(mid, w)|, MAX_CONCURRENT_RUNS_PER_WORKSPACE)
  {
    if window == [] {
      assert Ids(Picks(mid, window)) == {};
      SubsetSize(Active(after), Active(mid));
      SubsetSize(ActiveIn(after, w), ActiveIn(mid, w));
    } else {
      PassKeepsCaps(mid, after, window, w);
    }
  }

  lemma EarlierWasPicked(mid: Table, window: seq<Run>, a: RunId, b: RunId)
    requires NoReservedName(mid) && WellKeyed(mid) && WindowFor(mid, window)
    requires a in Ids(Picks(mid, window)) && a in mid && b in PendingIds(mid)
    requires mid[a].workspaceId == mid[b].workspaceId && Before(mid[b], mid[a])
    ensures b in Ids(Picks(mid, window))
  {
    var picked :| picked in Picks(mid, window) && picked.id == a;
    PicksComeFromTheWindow(mid, window);
    assert picked == mid[a];
    NoInversion(mid, window, MAX_GLOBAL_CONCURRENT_RUNS - |Active(mid)|, picked, b);
    assert mid[b].id == b;
  }

  lemma PassHasNoInversion(before: Table, mid: Table, after: Table, window: seq<Run>, now: int)
    requires WellKeyed(mid) && TimeoutsApplied(before, mid, now)
    requires WindowFor(mid, window)
    requires PassMoved(mid, after, Ids(Picks(mid, window)))
    ensures NoInversionBetween(before, after)
  {
    if NoReservedName(before) {
      forall a, b | a in PendingIds(before) && b in PendingIds(before) && WasScheduled(after, a)
                    && before[a].workspaceId == before[b].workspaceId && Before(before[b], before[a])
        ensures WasScheduled(after, b)
      {
        assert mid[a] == before[a] && mid[b] == before[b];
        assert a in Ids(Picks(mid, window));
        EarlierWasPicked(mid, window, a, b);
      }
    }
  }
}
