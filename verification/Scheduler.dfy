/**
 * The arithmetic of one scheduling pass: the fetched window, the picks made from it
 * under the per-workspace cap, and what those picks can do to the caps
 * (engine/orchestrator.ts `getSchedulableRuns`).
 */
module Scheduler {
  import opened Common
  import opened RunModel

  const MAX_CONCURRENT_RUNS_PER_WORKSPACE := 3
  const MAX_GLOBAL_CONCURRENT_RUNS := 10

  /** The memo key that stands for "no workspace". */
  const NO_WORKSPACE_KEY := "__global__"

  type Table = map<RunId, Run>

  predicate WellKeyed(runs: Table) {
    forall id :: id in runs ==> runs[id].id == id
  }

  function Active(runs: Table): set<RunId> {
    set id | id in runs && IsActive(runs[id].status)
  }

  /** The active runs of one workspace; `None` groups the runs without a workspace. */
  function ActiveIn(runs: Table, workspace: Option<string>): set<RunId> {
    set id | id in runs && IsActive(runs[id].status) && runs[id].workspaceId == workspace
  }

  /** Running and scheduled runs count against the caps, and nothing else. */
  lemma ActiveMeaning(runs: Table, workspace: Option<string>)
    ensures forall id :: id in Active(runs) <==> id in runs && runs[id].status in {Running, Scheduled}
    ensures forall id :: id in ActiveIn(runs, workspace) <==>
              id in runs && runs[id].status in {Running, Scheduled} && runs[id].workspaceId == workspace
  {
  }

  function PendingIds(runs: Table): set<RunId> {
    set id | id in runs && runs[id].status == Pending
  }

  // ---- The order of the pending queue: priority, then age ----

  function PriorityRank(p: Priority): nat {
    match p case P0 => 0 case P1 => 1 case P2 => 2
  }

  predicate NotAfter(a: Run, b: Run) {
    PriorityRank(a.priority) < PriorityRank(b.priority)
    || (a.priority == b.priority && a.createdAt <= b.createdAt)
  }

  /** Strictly earlier in the queue; two runs equal in both keys may come in either order. */
  predicate Before(a: Run, b: Run) {
    !NotAfter(b, a)
  }

  /** P0 before P1 before P2, and the older run first among equals. */
  lemma QueueOrder(a: Run, b: Run)
    ensures NotAfter(a, b) <==>
              && (b.priority == P0 ==> a.priority == P0)
              && (b.priority == P1 ==> a.priority != P2)
              && (a.priority == b.priority ==> a.createdAt <= b.createdAt)
    ensures Before(a, b) <==>
              || (a.priority == P0 && b.priority != P0)
              || (a.priority == P1 && b.priority == P2)
              || (a.priority == b.priority && a.createdAt < b.createdAt)
  {
  }

  predicate Sorted(rows: seq<Run>) {
    forall i, j :: 0 <= i < j < |rows| ==> NotAfter(rows[i], rows[j])
  }

  predicate Distinct(rows: seq<Run>) {
    forall i, j :: 0 <= i < j < |rows| ==> rows[i].id != rows[j].id
  }

  predicate RowsOf(runs: Table, rows: seq<Run>) {
    && Distinct(rows)
    && forall r :: r in rows ==> r.id in runs && runs[r.id] == r && r.status == Pending
  }

  /** An answer the database may give to "the first `take` pending runs". */
  predicate IsWindow(runs: Table, rows: seq<Run>, take: nat) {
    && RowsOf(runs, rows)
    && Sorted(rows)
    && |rows| <= take
    && forall id :: id in PendingIds(runs) && runs[id] !in rows ==>
         |rows| == take && forall r :: r in rows ==> NotAfter(r, runs[id])
  }

  /**
   * A pending run is left out of a window only by a full list of runs that go first: no P1 or P2
   * run is listed beside a P0 run that is left out, no P2 run beside a P1 run, and no younger run
   * of the same priority. The list itself is in that order.
   */
  lemma WindowIsTheFront(runs: Table, rows: seq<Run>, take: nat)
    requires IsWindow(runs, rows, take)
    ensures |rows| <= take && forall r :: r in rows ==> r.id in runs && runs[r.id] == r && r.status == Pending
    ensures forall i, j :: 0 <= i < j < |rows| ==>
              && rows[i].id != rows[j].id
              && (rows[j].priority == P0 ==> rows[i].priority == P0)
              && (rows[j].priority == P1 ==> rows[i].priority != P2)
              && (rows[i].priority == rows[j].priority ==> rows[i].createdAt <= rows[j].createdAt)
    ensures forall id :: id in runs && runs[id].status == Pending && runs[id] !in rows ==> |rows| == take
    ensures forall id, r :: id in runs && runs[id].status == Pending && runs[id] !in rows && r in rows ==>
              && (runs[id].priority == P0 ==> r.priority == P0)
              && (runs[id].priority == P1 ==> r.priority != P2)
              && (r.priority == runs[id].priority ==> r.createdAt <= runs[id].createdAt)
  {
    forall i, j | 0 <= i < j < |rows| ensures NotAfter(rows[i], rows[j]) && rows[i].id != rows[j].id {
    }
    forall id | id in runs && runs[id].status == Pending && runs[id] !in rows
      ensures |rows| == take && forall r :: r in rows ==> NotAfter(r, runs[id])
    {
      assert id in PendingIds(runs);
    }
  }

  // ---- Picks ----

  function Key(workspace: Option<string>): string {
    if workspace.None? then NO_WORKSPACE_KEY else workspace.value
  }

  /** The first row of a list that uses memo key `k`. */
  function FirstWithKey(rows: seq<Run>, k: string): Option<Run> {
    if rows == [] then None
    else
      var earlier := FirstWithKey(rows[..|rows| - 1], k);
      if earlier.Some? then earlier
      else if Key(rows[|rows| - 1].workspaceId) == k then Some(rows[|rows| - 1])
      else None
  }

  /** The database count that stands behind memo key `k`: it is asked for the first such row only. */
  function BaseCount(runs: Table, rows: seq<Run>, k: string): nat {
    var first := FirstWithKey(rows, k);
    if first.None? then 0 else |ActiveIn(runs, first.value.workspaceId)|
  }

  function CountKey(rows: seq<Run>, k: string): nat {
    if rows == [] then 0
    else CountKey(rows[..|rows| - 1], k) + if Key(rows[|rows| - 1].workspaceId) == k then 1 else 0
  }

  /** The picks from a window, with no memo: recount what was picked before each row. */
  function Picks(runs: Table, rows: seq<Run>): seq<Run>
    decreases |rows|, 0
  {
    if rows == [] then []
    else
      var earlier := Picks(runs, rows[..|rows| - 1]);
      var run := rows[|rows| - 1];
      if HasRoom(runs, rows, |rows| - 1) then earlier + [run] else earlier
  }

  /** Whether row `n` is picked, given the picks among the rows before it. */
  predicate HasRoom(runs: Table, rows: seq<Run>, n: nat)
    requires n < |rows|
    decreases n, 1
  {
    var k := Key(rows[n].workspaceId);
    BaseCount(runs, rows[..n + 1], k) + CountKey(Picks(runs, rows[..n]), k) < MAX_CONCURRENT_RUNS_PER_WORKSPACE
  }

  function Ids(rows: seq<Run>): set<RunId> {
    set r | r in rows :: r.id
  }

  function IdsIn(rows: seq<Run>, workspace: Option<string>): set<RunId> {
    set r | r in rows && r.workspaceId == workspace :: r.id
  }

  lemma IdsOfPrefix(rows: seq<Run>, n: nat)
    requires Distinct(rows) && n < |rows|
    ensures rows[n].id !in Ids(rows[..n])
    ensures Ids(rows[..n + 1]) == Ids(rows[..n]) + {rows[n].id}
  {
    assert rows[..n + 1] == rows[..n] + [rows[n]];
  }

  lemma {:induction false} PicksComeFromTheWindow(runs: Table, rows: seq<Run>)
    requires Distinct(rows)
    ensures Distinct(Picks(runs, rows))
    ensures forall r :: r in Picks(runs, rows) ==> r in rows
    ensures |Picks(runs, rows)| <= |rows|
  {
    if rows != [] {
      var init, last := rows[..|rows| - 1], rows[|rows| - 1];
      PicksComeFromTheWindow(runs, init);
      assert forall r :: r in init ==> r.id != last.id;
    }
  }

  /** A row of the window is picked exactly when there was room for it at its turn. */
  lemma {:induction false} PickedIffRoom(runs: Table, rows: seq<Run>, n: nat)
    requires Distinct(rows) && n < |rows|
    ensures rows[n] in Picks(runs, rows) <==> HasRoom(runs, rows, n)
  {
    var init := rows[..|rows| - 1];
    PicksComeFromTheWindow(runs, init);
    if n < |rows| - 1 {
      PickedIffRoom(runs, init, n);
      assert init[..n] == rows[..n] && init[..n + 1] == rows[..n + 1];
    } else {
      assert rows[..n + 1] == rows;
    }
  }

  /** Picks under one key fill up to the cap above the base count, and no further. */
  lemma {:induction false} PicksFillToTheCap(runs: Table, rows: seq<Run>, k: string)
    ensures CountKey(Picks(runs, rows), k) == 0
            || BaseCount(runs, rows, k) + CountKey(Picks(runs, rows), k) <= MAX_CONCURRENT_RUNS_PER_WORKSPACE
  {
    if rows != [] {
      var init := rows[..|rows| - 1];
      PicksFillToTheCap(runs, init, k);
      assert rows[..|rows|] == rows;
      assert CountKey(Picks(runs, init), k) > 0 ==> FirstWithKey(init, k).Some? by {
        PickedKeysOccur(runs, init, k);
      }
      if HasRoom(runs, rows, |rows| - 1) {
        assert Picks(runs, rows)[..|Picks(runs, rows)| - 1] == Picks(runs, init);
      }
    }
  }

  lemma {:induction false} PickedKeysOccur(runs: Table, rows: seq<Run>, k: string)
    ensures CountKey(Picks(runs, rows), k) > 0 ==> FirstWithKey(rows, k).Some?
  {
    if rows != [] {
      var init := rows[..|rows| - 1];
      PickedKeysOccur(runs, init, k);
      if HasRoom(runs, rows, |rows| - 1) {
        assert Picks(runs, rows)[..|Picks(runs, rows)| - 1] == Picks(runs, init);
      }
    }
  }

  lemma {:induction false} FirstWithKeyIsARow(rows: seq<Run>, k: string)
    ensures var f := FirstWithKey(rows, k);
            if f.Some? then f.value in rows && Key(f.value.workspaceId) == k
            else forall r :: r in rows ==> Key(r.workspaceId) != k
  {
    if rows != [] {
      FirstWithKeyIsARow(rows[..|rows| - 1], k);
    }
  }

  lemma IdsInAfter(rows: seq<Run>, last: Run, workspace: Option<string>)
    ensures IdsIn(rows + [last], workspace) ==
            IdsIn(rows, workspace) + if last.workspaceId == workspace then {last.id} else {}
  {
  }

  lemma {:induction false} IdsInAtMostCount(rows: seq<Run>, workspace: Option<string>)
    ensures |IdsIn(rows, workspace)| <= CountKey(rows, Key(workspace))
  {
    if rows == [] {
      assert IdsIn(rows, workspace) == {};
    } else {
      var init, last := rows[..|rows| - 1], rows[|rows| - 1];
      IdsInAtMostCount(init, workspace);
      assert rows == init + [last];
      IdsInAfter(init, last, workspace);
      assert IdsIn(rows, workspace) <= IdsIn(init, workspace) + {last.id};
    }
  }

  lemma {:induction false} IdsAtMostLength(rows: seq<Run>)
    ensures |Ids(rows)| <= |rows|
  {
    if rows == [] {
      assert Ids(rows) == {};
    } else {
      IdsAtMostLength(rows[..|rows| - 1]);
      assert rows == rows[..|rows| - 1] + [rows[|rows| - 1]];
      assert Ids(rows) == Ids(rows[..|rows| - 1]) + {rows[|rows| - 1].id};
    }
  }

  // ---- The caps ----

  /** No run belongs to a workspace whose name is the memo key of "no workspace". */
  predicate NoReservedName(runs: Table) {
    forall id :: id in runs ==> runs[id].workspaceId != Some(NO_WORKSPACE_KEY)
  }

  /** With distinct keys, the base count of a row's key is the count of its own workspace. */
  lemma BaseCountIsOwnCount(runs: Table, rows: seq<Run>, workspace: Option<string>)
    requires NoReservedName(runs)
    requires forall r :: r in rows ==> r.id in runs && runs[r.id] == r
    requires workspace != Some(NO_WORKSPACE_KEY)
    requires FirstWithKey(rows, Key(workspace)).Some?
    ensures BaseCount(runs, rows, Key(workspace)) == |ActiveIn(runs, workspace)|
  {
    FirstWithKeyIsARow(rows, Key(workspace));
  }

  lemma PicksKeepWorkspaceCap(runs: Table, rows: seq<Run>, workspace: Option<string>)
    requires NoReservedName(runs) && RowsOf(runs, rows)
    ensures |ActiveIn(runs, workspace)| + |IdsIn(Picks(runs, rows), workspace)|
            <= Max(|ActiveIn(runs, workspace)|, MAX_CONCURRENT_RUNS_PER_WORKSPACE)
  {
    var picks := Picks(runs, rows);
    PicksComeFromTheWindow(runs, rows);
    if workspace == Some(NO_WORKSPACE_KEY) {
      assert IdsIn(picks, workspace) == {};
    } else {
      IdsInAtMostCount(picks, workspace);
      PicksFillToTheCap(runs, rows, Key(workspace));
      PickedKeysOccur(runs, rows, Key(workspace));
      if CountKey(picks, Key(workspace)) > 0 {
        BaseCountIsOwnCount(runs, rows, workspace);
      }
    }
  }

  /** The workspace cap for every database over a given set of workspace names. */
  ghost predicate CapSafe(names: set<string>) {
    forall runs: Table, rows: seq<Run>, take: nat, workspace: Option<string> ::
      Uses(runs, names) && IsWindow(runs, rows, take) ==>
        |ActiveIn(runs, workspace)| + |IdsIn(Picks(runs, rows), workspace)|
        <= Max(|ActiveIn(runs, workspace)|, MAX_CONCURRENT_RUNS_PER_WORKSPACE)
  }

  ghost predicate Uses(runs: Table, names: set<string>) {
    WellKeyed(runs) && forall id :: id in runs && runs[id].workspaceId.Some? ==> runs[id].workspaceId.value in names
  }

  function ExampleRun(id: RunId, workspace: Option<string>, status: Status, createdAt: int): Run {
    Run(id, "op", workspace, status, P1, 1, createdAt, None, None, None, None)
  }

  /** Two runs under one key are both picked when the first one's own count is zero. */
  lemma SharedKeyPicks(runs: Table, first: Run, second: Run)
    requires Key(first.workspaceId) == Key(second.workspaceId) && |ActiveIn(runs, first.workspaceId)| == 0
    ensures Picks(runs, [first, second]) == [first, second]
  {
    var rows, k := [first, second], Key(first.workspaceId);
    assert rows[..1] == [first] && rows[..2] == rows && [first][..1] == [first];
    assert FirstWithKey([first], k) == Some(first);
    assert HasRoom(runs, [first], 0);
    assert Picks(runs, [first]) == [first];
    assert CountKey([first], k) == 1;
    assert FirstWithKey(rows, k) == Some(first);
    assert HasRoom(runs, rows, 1);
  }

  const RESERVED: Option<string> := Some(NO_WORKSPACE_KEY)

  /** Three running runs of the workspace "__global__", and two pending runs under its memo key. */
  const SHARED_KEY_RUNS: Table := map[
    "a" := ExampleRun("a", RESERVED, Running, 0),
    "b" := ExampleRun("b", RESERVED, Running, 0),
    "c" := ExampleRun("c", RESERVED, Running, 0),
    "p" := ExampleRun("p", None, Pending, 0),
    "q" := ExampleRun("q", RESERVED, Pending, 1)]

  lemma SharedKeyCounts()
    ensures Active(SHARED_KEY_RUNS) == {"a", "b", "c"}
    ensures ActiveIn(SHARED_KEY_RUNS, RESERVED) == {"a", "b", "c"}
    ensures ActiveIn(SHARED_KEY_RUNS, None) == {}
  {
    assert SHARED_KEY_RUNS.Keys == {"a", "b", "c", "p", "q"};
  }

  lemma SharedKeyWindow()
    ensures Uses(SHARED_KEY_RUNS, {NO_WORKSPACE_KEY})
    ensures IsWindow(SHARED_KEY_RUNS, [SHARED_KEY_RUNS["p"], SHARED_KEY_RUNS["q"]], 7)
  {
    var rows := [SHARED_KEY_RUNS["p"], SHARED_KEY_RUNS["q"]];
    assert SHARED_KEY_RUNS.Keys == {"a", "b", "c", "p", "q"};
    assert rows[0] in rows && rows[1] in rows;
  }

  /**
   * A workspace called "__global__" shares its memo entry with the runs that have no workspace:
   * with three runs active in it, a fourth is still picked after a run without a workspace.
   */
  lemma SharedKeyBreaksTheCap() returns (runs: Table, rows: seq<Run>)
    ensures Uses(runs, {NO_WORKSPACE_KEY}) && IsWindow(runs, rows, 7)
    ensures |Active(runs)| == 3 && |ActiveIn(runs, Some(NO_WORKSPACE_KEY))| == 3
    ensures |IdsIn(Picks(runs, rows), Some(NO_WORKSPACE_KEY))| == 1
  {
    runs := SHARED_KEY_RUNS;
    rows := [runs["p"], runs["q"]];
    SharedKeyCounts();
    SharedKeyWindow();
    SharedKeyPicks(runs, rows[0], rows[1]);
    assert IdsIn(rows, RESERVED) == {"q"} by {
      assert rows[1].id == "q";
    }
  }

  /** The workspace cap holds for every database exactly when no workspace carries that name. */
  lemma CapSafeIff(names: set<string>)
    ensures CapSafe(names) <==> NO_WORKSPACE_KEY !in names
  {
    if NO_WORKSPACE_KEY in names {
      var runs, rows := SharedKeyBreaksTheCap();
      assert Uses(runs, names);
    } else {
      forall runs: Table, rows: seq<Run>, take: nat, workspace: Option<string>
        | Uses(runs, names) && IsWindow(runs, rows, take)
        ensures |ActiveIn(runs, workspace)| + |IdsIn(Picks(runs, rows), workspace)|
                <= Max(|ActiveIn(runs, workspace)|, MAX_CONCURRENT_RUNS_PER_WORKSPACE)
      {
        PicksKeepWorkspaceCap(runs, rows, workspace);
      }
    }
  }

  // ---- Fairness ----

  lemma PicksGrow(runs: Table, rows: seq<Run>, k: string)
    requires rows != []
    ensures CountKey(Picks(runs, rows[..|rows| - 1]), k) <= CountKey(Picks(runs, rows), k)
  {
    var earlier := Picks(runs, rows[..|rows| - 1]);
    if HasRoom(runs, rows, |rows| - 1) {
      assert Picks(runs, rows)[..|earlier|] == earlier;
    }
  }

  lemma {:induction false} CountKeyGrows(runs: Table, rows: seq<Run>, n: nat, k: string)
    requires n <= |rows|
    ensures CountKey(Picks(runs, rows[..n]), k) <= CountKey(Picks(runs, rows), k)
  {
    if n == |rows| {
      assert rows[..n] == rows;
    } else {
      var init := rows[..|rows| - 1];
      assert init[..n] == rows[..n];
      CountKeyGrows(runs, init, n, k);
      PicksGrow(runs, rows, k);
    }
  }

  /** No needless skip: a fetched run is left out only when active plus picked runs fill its workspace. */
  lemma SkippedOnlyWhenFull(runs: Table, rows: seq<Run>, n: nat)
    requires NoReservedName(runs) && RowsOf(runs, rows) && n < |rows|
    ensures rows[n] in Picks(runs, rows) <==>
            |ActiveIn(runs, rows[n].workspaceId)| + CountKey(Picks(runs, rows[..n]), Key(rows[n].workspaceId))
            < MAX_CONCURRENT_RUNS_PER_WORKSPACE
  {
    PickedIffRoom(runs, rows, n);
    FirstWithKeyIsARow(rows[..n + 1], Key(rows[n].workspaceId));
    assert rows[..n + 1][n] == rows[n];
    BaseCountIsOwnCount(runs, rows[..n + 1], rows[n].workspaceId);
  }

  /** A pending run ordered before a fetched one is fetched, and stands before it. */
  lemma EarlierIsFetched(runs: Table, rows: seq<Run>, take: nat, j: nat, other: RunId) returns (i: nat)
    requires IsWindow(runs, rows, take) && j < |rows|
    requires other in PendingIds(runs) && Before(runs[other], rows[j])
    ensures i < j && rows[i] == runs[other]
  {
    assert rows[j] in rows;
    i :| 0 <= i < |rows| && rows[i] == runs[other];
  }

  /** No inversion: a run is never picked ahead of an earlier pending run of its own workspace. */
  lemma NoInversion(runs: Table, rows: seq<Run>, take: nat, picked: Run, other: RunId)
    requires NoReservedName(runs) && WellKeyed(runs) && IsWindow(runs, rows, take)
    requires picked in Picks(runs, rows)
    requires other in PendingIds(runs) && runs[other].workspaceId == picked.workspaceId
    requires Before(runs[other], picked)
    ensures runs[other] in Picks(runs, rows)
  {
    PicksComeFromTheWindow(runs, rows);
    var j :| 0 <= j < |rows| && rows[j] == picked;
    var i := EarlierIsFetched(runs, rows, take, j, other);
    EarlierIsPickedToo(runs, rows, i, j);
  }

  lemma EarlierIsPickedToo(runs: Table, rows: seq<Run>, i: nat, j: nat)
    requires NoReservedName(runs) && RowsOf(runs, rows) && i < j < |rows|
    requires rows[i].workspaceId == rows[j].workspaceId && rows[j] in Picks(runs, rows)
    ensures rows[i] in Picks(runs, rows)
  {
    SkippedOnlyWhenFull(runs, rows, i);
    SkippedOnlyWhenFull(runs, rows, j);
    CountKeyGrows(runs, rows[..j], i, Key(rows[i].workspaceId));
    assert rows[..j][..i] == rows[..i];
  }

  // ---- Work conservation ----

  lemma {:induction false} CountKeyOfPrefix(rows: seq<Run>, n: nat, k: string)
    requires n <= |rows|
    ensures CountKey(rows[..n], k) <= CountKey(rows, k)
  {
    if n < |rows| {
      CountKeyOfPrefix(rows[..|rows| - 1], n, k);
      assert rows[..|rows| - 1][..n] == rows[..n];
    } else {
      assert rows[..n] == rows;
    }
  }

  /** Under one key the window's rows are picked until the cap above the base count is used up. */
  lemma {:induction false} PicksCount(runs: Table, rows: seq<Run>, k: string)
    ensures CountKey(Picks(runs, rows), k) ==
            Min(CountKey(rows, k), Max(0, MAX_CONCURRENT_RUNS_PER_WORKSPACE - BaseCount(runs, rows, k)))
  {
    if rows != [] {
      var init := rows[..|rows| - 1];
      PicksCount(runs, init, k);
      assert rows[..|rows|] == rows;
      KeyOccurs(init, k);
      if HasRoom(runs, rows, |rows| - 1) {
        assert Picks(runs, rows)[..|Picks(runs, rows)| - 1] == Picks(runs, init);
      }
    }
  }

  lemma {:induction false} KeyOccurs(rows: seq<Run>, k: string)
    ensures CountKey(rows, k) > 0 <==> FirstWithKey(rows, k).Some?
  {
    if rows != [] {
      KeyOccurs(rows[..|rows| - 1], k);
    }
  }

  /** The runs the window brings for a workspace, with those active in it. */
  function Demand(runs: Table, rows: seq<Run>, workspace: Option<string>): nat {
    |ActiveIn(runs, workspace)| + CountKey(rows, Key(workspace))
  }

  /** In terms of one workspace: it is filled up to the cap, and no further. */
  lemma PicksOfWorkspace(runs: Table, rows: seq<Run>, workspace: Option<string>)
    requires NoReservedName(runs) && RowsOf(runs, rows) && workspace != Some(NO_WORKSPACE_KEY)
    ensures Demand(runs, Picks(runs, rows), workspace) ==
            Min(Demand(runs, rows, workspace), Max(|ActiveIn(runs, workspace)|, MAX_CONCURRENT_RUNS_PER_WORKSPACE))
  {
    PicksCount(runs, rows, Key(workspace));
    KeyOccurs(rows, Key(workspace));
    if CountKey(rows, Key(workspace)) > 0 {
      BaseCountIsOwnCount(runs, rows, workspace);
    }
  }

  /** A pending run whose workspace still has room after the picks is left out exactly when it was not fetched. */
  lemma LeftOutIffNotFetched(runs: Table, rows: seq<Run>, id: RunId)
    requires NoReservedName(runs) && RowsOf(runs, rows) && id in PendingIds(runs)
    requires Demand(runs, Picks(runs, rows), runs[id].workspaceId) < MAX_CONCURRENT_RUNS_PER_WORKSPACE
    ensures runs[id] in Picks(runs, rows) <==> runs[id] in rows
  {
    PicksComeFromTheWindow(runs, rows);
    if runs[id] in rows {
      var n :| 0 <= n < |rows| && rows[n] == runs[id];
      SkippedOnlyWhenFull(runs, rows, n);
      CountKeyGrows(runs, rows, n, Key(runs[id].workspaceId));
    }
  }

  lemma {:induction false} AllPicked(runs: Table, rows: seq<Run>)
    requires Distinct(rows) && forall r :: r in rows ==> r in Picks(runs, rows)
    ensures Picks(runs, rows) == rows
  {
    if rows != [] {
      var init, last := rows[..|rows| - 1], rows[|rows| - 1];
      PickedIffRoom(runs, rows, |rows| - 1);
      assert rows[|rows| - 1] in rows && rows == init + [last];
      forall r | r in init ensures r in Picks(runs, init) {
        assert r in rows && r.id != last.id;
      }
      AllPicked(runs, init);
    }
  }

  lemma SkippedMeansTooMany(runs: Table, rows: seq<Run>, n: nat)
    requires NoReservedName(runs) && RowsOf(runs, rows) && n < |rows| && rows[n] !in Picks(runs, rows)
    ensures Demand(runs, rows, rows[n].workspaceId) > MAX_CONCURRENT_RUNS_PER_WORKSPACE
  {
    var k := Key(rows[n].workspaceId);
    SkippedOnlyWhenFull(runs, rows, n);
    PicksCount(runs, rows[..n], k);
    CountKeyOfPrefix(rows, n + 1, k);
    assert rows[..n + 1][..n] == rows[..n];
  }

  /** Some row is skipped exactly when the window brings more runs of a workspace than fit. */
  lemma SomeRowSkipped(runs: Table, rows: seq<Run>)
    requires NoReservedName(runs) && RowsOf(runs, rows)
    ensures Picks(runs, rows) != rows <==>
            exists r :: r in rows && Demand(runs, rows, r.workspaceId) > MAX_CONCURRENT_RUNS_PER_WORKSPACE
  {
    if r :| r in rows && Demand(runs, rows, r.workspaceId) > MAX_CONCURRENT_RUNS_PER_WORKSPACE {
      TooManyForWorkspace(runs, rows, r);
    }
    if Picks(runs, rows) != rows {
      if forall r :: r in rows ==> r in Picks(runs, rows) {
        AllPicked(runs, rows);
      }
      var n :| 0 <= n < |rows| && rows[n] !in Picks(runs, rows);
      SkippedMeansTooMany(runs, rows, n);
    }
  }

  lemma {:induction false} FewerPicks(runs: Table, rows: seq<Run>)
    ensures Picks(runs, rows) == rows || |Picks(runs, rows)| < |rows|
  {
    if rows != [] {
      FewerPicks(runs, rows[..|rows| - 1]);
      assert rows == rows[..|rows| - 1] + [rows[|rows| - 1]];
    }
  }

  lemma TooManyForWorkspace(runs: Table, rows: seq<Run>, r: Run)
    requires NoReservedName(runs) && RowsOf(runs, rows)
    requires r in rows && Demand(runs, rows, r.workspaceId) > MAX_CONCURRENT_RUNS_PER_WORKSPACE
    ensures Picks(runs, rows) != rows
  {
    PicksOfWorkspace(runs, rows, r.workspaceId);
    KeyOccurs(rows, Key(r.workspaceId));
    FirstWithKeyIsARow(rows, Key(r.workspaceId));
  }

  /** A slot stays free although a pending run left out would fit into its workspace. */
  ghost predicate LeavesWork(runs: Table, rows: seq<Run>, take: nat) {
    && |Picks(runs, rows)| < take
    && exists id :: id in PendingIds(runs) && runs[id] !in Picks(runs, rows)
                    && Demand(runs, Picks(runs, rows), runs[id].workspaceId) < MAX_CONCURRENT_RUNS_PER_WORKSPACE
  }

  /** The window brings too many runs of one workspace, and a run behind it is of a workspace it does not fill. */
  ghost predicate QueueBlocked(runs: Table, rows: seq<Run>) {
    && (exists r :: r in rows && Demand(runs, rows, r.workspaceId) > MAX_CONCURRENT_RUNS_PER_WORKSPACE)
    && (exists id :: id in PendingIds(runs) && runs[id] !in rows
                     && Demand(runs, rows, runs[id].workspaceId) < MAX_CONCURRENT_RUNS_PER_WORKSPACE)
  }

  /**
   * The window is cut before the workspace cap is applied. Exactly when it brings too many runs
   * of some workspace, and a run behind it would fit, the pass leaves a slot free beside work.
   */
  lemma LeavesWorkIffBlocked(runs: Table, rows: seq<Run>, take: nat)
    requires NoReservedName(runs) && IsWindow(runs, rows, take)
    ensures LeavesWork(runs, rows, take) <==> QueueBlocked(runs, rows)
  {
    SomeRowSkipped(runs, rows);
    FewerPicks(runs, rows);
    PicksComeFromTheWindow(runs, rows);
    forall id | id in PendingIds(runs)
      ensures Demand(runs, Picks(runs, rows), runs[id].workspaceId) < MAX_CONCURRENT_RUNS_PER_WORKSPACE <==>
              Demand(runs, rows, runs[id].workspaceId) < MAX_CONCURRENT_RUNS_PER_WORKSPACE
    {
      PicksOfWorkspace(runs, rows, runs[id].workspaceId);
    }
    if LeavesWork(runs, rows, take) {
      var id :| id in PendingIds(runs) && runs[id] !in Picks(runs, rows)
                && Demand(runs, Picks(runs, rows), runs[id].workspaceId) < MAX_CONCURRENT_RUNS_PER_WORKSPACE;
      LeftOutIffNotFetched(runs, rows, id);
    }
  }

  lemma RowsOfPrefix(runs: Table, rows: seq<Run>)
    requires rows != [] && RowsOf(runs, rows)
    ensures RowsOf(runs, rows[..|rows| - 1])
  {
    assert forall r :: r in rows[..|rows| - 1] ==> r in rows;
  }

  /** The picks stay empty at the last row exactly when its workspace is full. */
  lemma LastRowSkipped(runs: Table, rows: seq<Run>)
    requires NoReservedName(runs) && rows != [] && RowsOf(runs, rows)
    ensures Picks(runs, rows) == [] <==>
              && Picks(runs, rows[..|rows| - 1]) == []
              && |ActiveIn(runs, rows[|rows| - 1].workspaceId)| >= MAX_CONCURRENT_RUNS_PER_WORKSPACE
  {
    PicksComeFromTheWindow(runs, rows);
    SkippedOnlyWhenFull(runs, rows, |rows| - 1);
  }

  /** A window yields nothing exactly when all its runs are of full workspaces. */
  lemma {:induction false} FullWorkspacesBlockTheQueue(runs: Table, rows: seq<Run>)
    requires NoReservedName(runs) && RowsOf(runs, rows)
    ensures Picks(runs, rows) == [] <==>
            forall r :: r in rows ==> |ActiveIn(runs, r.workspaceId)| >= MAX_CONCURRENT_RUNS_PER_WORKSPACE
  {
    if rows != [] {
      var init, last := rows[..|rows| - 1], rows[|rows| - 1];
      assert rows == init + [last];
      RowsOfPrefix(runs, rows);
      FullWorkspacesBlockTheQueue(runs, init);
      LastRowSkipped(runs, rows);
      assert forall r :: r in rows <==> r in init || r == last;
    }
  }

  /** Three workspaces with three running runs each; one more of "x" waits, and behind it one of no workspace. */
  const BLOCKED_RUNS: Table := map[
    "x1" := ExampleRun("x1", Some("x"), Running, 0),
    "x2" := ExampleRun("x2", Some("x"), Running, 0),
    "x3" := ExampleRun("x3", Some("x"), Running, 0),
    "y1" := ExampleRun("y1", Some("y"), Running, 0),
    "y2" := ExampleRun("y2", Some("y"), Running, 0),
    "y3" := ExampleRun("y3", Some("y"), Running, 0),
    "z1" := ExampleRun("z1", Some("z"), Running, 0),
    "z2" := ExampleRun("z2", Some("z"), Running, 0),
    "z3" := ExampleRun("z3", Some("z"), Running, 0),
    "p" := ExampleRun("p", Some("x"), Pending, 0),
    "q" := ExampleRun("q", None, Pending, 1)]

  lemma FirstBusyWorkspace()
    ensures ActiveIn(BLOCKED_RUNS, Some("x")) == {"x1", "x2", "x3"}
  {
  }

  lemma NobodyWithoutWorkspace()
    ensures ActiveIn(BLOCKED_RUNS, None) == {}
  {
  }

  lemma SecondBusyWorkspace()
    ensures ActiveIn(BLOCKED_RUNS, Some("y")) == {"y1", "y2", "y3"}
  {
  }

  lemma ThirdBusyWorkspace()
    ensures ActiveIn(BLOCKED_RUNS, Some("z")) == {"z1", "z2", "z3"}
  {
  }

  lemma ThreeWorkspaces(runs: Table, x: Option<string>, y: Option<string>, z: Option<string>)
    requires x != y && x != z && y != z
    requires forall id :: id in Active(runs) ==>
               runs[id].workspaceId == x || runs[id].workspaceId == y || runs[id].workspaceId == z
    ensures |Active(runs)| == |ActiveIn(runs, x)| + |ActiveIn(runs, y)| + |ActiveIn(runs, z)|
  {
    var a, b, c := ActiveIn(runs, x), ActiveIn(runs, y), ActiveIn(runs, z);
    assert Active(runs) == a + b + c;
    assert a !! b && (a + b) !! c;
  }

  lemma BlockedActive()
    ensures |Active(BLOCKED_RUNS)| == 9
  {
    assert |{"x1", "x2", "x3"}| == 3 && |{"y1", "y2", "y3"}| == 3 && |{"z1", "z2", "z3"}| == 3;
    FirstBusyWorkspace();
    SecondBusyWorkspace();
    ThirdBusyWorkspace();
    ThreeWorkspaces(BLOCKED_RUNS, Some("x"), Some("y"), Some("z"));
  }

  lemma BlockedWindow()
    ensures PendingIds(BLOCKED_RUNS) == {"p", "q"} && NoReservedName(BLOCKED_RUNS)
    ensures IsWindow(BLOCKED_RUNS, [BLOCKED_RUNS["p"]], 1)
  {
    var rows := [BLOCKED_RUNS["p"]];
    assert rows[0] in rows;
    assert PendingIds(BLOCKED_RUNS) == {"p", "q"};
  }

  lemma BlockedByHead(runs: Table, head: Run, id: RunId)
    requires NoReservedName(runs) && IsWindow(runs, [head], 1)
    requires |ActiveIn(runs, head.workspaceId)| >= MAX_CONCURRENT_RUNS_PER_WORKSPACE
    requires id in PendingIds(runs) && ActiveIn(runs, runs[id].workspaceId) == {}
    ensures Picks(runs, [head]) == [] && LeavesWork(runs, [head], 1)
  {
    FullWorkspacesBlockTheQueue(runs, [head]);
    assert Demand(runs, Picks(runs, [head]), runs[id].workspaceId) == 0;
  }

  /** Nine runs are active and one slot is free, but the run that would fit is behind the window. */
  lemma FreeSlotBesideWork() returns (runs: Table, rows: seq<Run>)
    ensures |Active(runs)| == 9 && NoReservedName(runs) && IsWindow(runs, rows, 10 - 9)
    ensures Picks(runs, rows) == [] && LeavesWork(runs, rows, 10 - 9)
  {
    BlockedActive();
    FirstBusyWorkspace();
    NobodyWithoutWorkspace();
    BlockedWindow();
    runs, rows := BLOCKED_RUNS, [BLOCKED_RUNS["p"]];
    BlockedByHead(runs, rows[0], "q");
    assert rows == [rows[0]];
  }
}
