/**
 * Overlapping schedule passes: each one counts, lists, looks at the workspaces and writes its picks in
 * database calls of its own (routes/runs.ts, engine/orchestrator.ts `getSchedulableRuns`).
 */
module ScheduleRace {
  import opened Common
  import opened RunModel
  import opened Scheduler

  /** Progress of one pass; `rows` are still to be looked at, `picks` still to be scheduled. */
  datatype Pass =
    | Idle
    | Counted(slots: nat)
    | Working(rows: seq<Run>, memo: map<string, nat>, picks: seq<Run>)
    | Writing(run: Run, rest: seq<Run>)

  /** As many passes can be under way at a time as there are places. */
  datatype State = State(runs: Table, passes: seq<Pass>)

  datatype Step =
    | Count(p: nat)
    | List(p: nat, rows: seq<Run>)
    | Look(p: nat)
    | Check(p: nat)
    | Write(p: nat)
    | Leave(p: nat)
    | Change(id: RunId, run: Run)
    | Create(run: Run)

  predicate Enabled(s: State, step: Step) {
    match step
    case Count(p) => p < |s.passes| && s.passes[p].Idle?
    case List(p, rows) => p < |s.passes| && s.passes[p].Counted? && IsWindow(s.runs, rows, s.passes[p].slots)
    case Look(p) => p < |s.passes| && s.passes[p].Working? && s.passes[p].rows != []
    case Check(p) => p < |s.passes| && s.passes[p].Working? && s.passes[p].rows == [] && s.passes[p].picks != []
    case Write(p) => p < |s.passes| && s.passes[p].Writing? && s.passes[p].run.id in s.runs
    case Leave(p) => p < |s.passes|
    // Timeouts, preemption, starts and ends of runs; only a resume would make an inactive run active.
    case Change(id, run) => id in s.runs && run.id == id && (IsActive(run.status) ==> IsActive(s.runs[id].status))
    case Create(run) => run.id !in s.runs && run.status == Pending
  }

  /** One turn of the loop over the fetched rows. */
  function Looked(runs: Table, pass: Pass): (r: Pass)
    requires pass.Working? && pass.rows != []
    ensures r.Working?
  {
    var run := pass.rows[0];
    var key := Key(run.workspaceId);
    var current := if key in pass.memo then pass.memo[key] else 0;
    var active := if current == 0 then |ActiveIn(runs, run.workspaceId)| else current;
    if active < MAX_CONCURRENT_RUNS_PER_WORKSPACE
    then Working(pass.rows[1..], pass.memo[key := active + 1], pass.picks + [run])
    else Working(pass.rows[1..], pass.memo[key := active], pass.picks)
  }

  /** `transitionRun` up to its check; an exception ends the pass. */
  function Checked(runs: Table, pass: Pass): Pass
    requires pass.Working? && pass.picks != []
  {
    var id := pass.picks[0].id;
    if id in runs && CanTransition(runs[id].status, Scheduled) then Writing(pass.picks[0], pass.picks[1..]) else Idle
  }

  function Apply(s: State, step: Step): State
    requires Enabled(s, step)
  {
    match step
    case Count(p) =>
      var active := |Active(s.runs)|;
      s.(passes := s.passes[p := if active >= MAX_GLOBAL_CONCURRENT_RUNS then Idle
                                 else Counted(MAX_GLOBAL_CONCURRENT_RUNS - active)])
    case List(p, rows) => s.(passes := s.passes[p := Working(rows, map[], [])])
    case Look(p) => s.(passes := s.passes[p := Looked(s.runs, s.passes[p])])
    case Check(p) => s.(passes := s.passes[p := Checked(s.runs, s.passes[p])])
    case Write(p) =>
      var id := s.passes[p].run.id;
      State(s.runs[id := s.runs[id].(status := Scheduled)], s.passes[p := Working([], map[], s.passes[p].rest)])
    case Leave(p) => s.(passes := s.passes[p := Idle])
    case Change(id, run) => s.(runs := s.runs[id := run])
    case Create(run) => s.(runs := s.runs[run.id := run])
  }

  ghost predicate Next(s: State, s': State) {
    exists step :: Enabled(s, step) && Apply(s, step) == s'
  }

  ghost predicate Stepped(ss: seq<State>, i: int)
    requires 0 <= i < |ss| - 1
  {
    Next(ss[i], ss[i + 1])
  }

  /** Any runs to begin with, and no pass under way. */
  ghost predicate History(ss: seq<State>) {
    && |ss| > 0 && (forall p :: 0 <= p < |ss[0].passes| ==> ss[0].passes[p] == Idle)
    && forall i {:trigger Stepped(ss, i)} :: 0 <= i < |ss| - 1 ==> Stepped(ss, i)
  }

  function Latest(ss: seq<State>): State
    requires ss != []
  {
    ss[|ss| - 1]
  }

  lemma StepInto(ss: seq<State>, i: nat) returns (step: Step)
    requires History(ss) && 0 < i < |ss|
    ensures Enabled(ss[i - 1], step) && Apply(ss[i - 1], step) == ss[i]
  {
    assert Stepped(ss, i - 1) && Next(ss[i - 1], ss[i]);
    step :| Enabled(ss[i - 1], step) && Apply(ss[i - 1], step) == ss[i];
  }

  // ---- What a pass may still add ----

  datatype Scope = Everywhere | Workspace(name: Option<string>)

  function ActiveRuns(runs: Table, scope: Scope): set<RunId> {
    if scope.Everywhere? then Active(runs) else ActiveIn(runs, scope.name)
  }

  function Caps(scope: Scope, k: nat): nat {
    if scope.Everywhere? then MAX_GLOBAL_CONCURRENT_RUNS * k else MAX_CONCURRENT_RUNS_PER_WORKSPACE * k
  }

  function MemoRoom(memo: map<string, nat>, key: string): nat {
    if key in memo && memo[key] < MAX_CONCURRENT_RUNS_PER_WORKSPACE
    then MAX_CONCURRENT_RUNS_PER_WORKSPACE - memo[key] else 0
  }

  /** Slots counted as free, rows and picks; in a workspace, what its memo entry leaves, and picks. */
  function Room(pass: Pass, scope: Scope): nat {
    match scope
    case Everywhere => (
      match pass
      case Idle => 0
      case Counted(slots) => slots
      case Working(rows, _, picks) => |rows| + |picks|
      case Writing(_, rest) => 1 + |rest|
    )
    case Workspace(name) => (
      match pass
      case Idle => 0
      case Counted(_) => 0
      case Working(_, memo, picks) => MemoRoom(memo, Key(name)) + CountKey(picks, Key(name))
      case Writing(run, rest) => CountKey([run] + rest, Key(name))
    )
  }

  function TotalRoom(passes: seq<Pass>, scope: Scope): nat {
    if passes == [] then 0
    else TotalRoom(passes[..|passes| - 1], scope) + Room(passes[|passes| - 1], scope)
  }

  lemma {:induction false} TotalAfter(passes: seq<Pass>, p: nat, pass: Pass, scope: Scope)
    requires p < |passes|
    ensures TotalRoom(passes[p := pass], scope) == TotalRoom(passes, scope) - Room(passes[p], scope) + Room(pass, scope)
  {
    var n := |passes| - 1;
    if p < n {
      TotalAfter(passes[..n], p, pass, scope);
      assert passes[p := pass][..n] == passes[..n][p := pass];
    } else {
      assert passes[p := pass][..n] == passes[..n];
    }
  }

  lemma {:induction false} TotalBound(passes: seq<Pass>, scope: Scope)
    requires forall p :: 0 <= p < |passes| ==> Room(passes[p], scope) <= Caps(scope, 1)
    ensures TotalRoom(passes, scope) <= Caps(scope, |passes|)
  {
    if passes != [] {
      TotalBound(passes[..|passes| - 1], scope);
    }
  }

  /** A pass without room leaves at least one cap unused. */
  lemma OthersBound(passes: seq<Pass>, p: nat, scope: Scope)
    requires forall q :: 0 <= q < |passes| ==> Room(passes[q], scope) <= Caps(scope, 1)
    requires p < |passes| && Room(passes[p], scope) == 0
    ensures TotalRoom(passes, scope) + Caps(scope, 1) <= Caps(scope, |passes|)
  {
    var others := passes[..p] + passes[p + 1..];
    TotalBound(others, scope);
    TotalWithout(passes, p, scope);
  }

  lemma {:induction false} TotalWithout(passes: seq<Pass>, p: nat, scope: Scope)
    requires p < |passes|
    ensures TotalRoom(passes, scope) == TotalRoom(passes[..p] + passes[p + 1..], scope) + Room(passes[p], scope)
  {
    var n, others := |passes| - 1, passes[..p] + passes[p + 1..];
    if p < n {
      TotalWithout(passes[..n], p, scope);
      assert others[..n - 1] == passes[..n][..p] + passes[..n][p + 1..];
      assert others[n - 1] == passes[n];
    } else {
      assert others == passes[..n];
    }
  }

  lemma {:induction false} CountOfFirst(run: Run, rest: seq<Run>, key: string)
    ensures CountKey([run] + rest, key) == CountKey(rest, key) + if Key(run.workspaceId) == key then 1 else 0
  {
    var all := [run] + rest;
    if rest == [] {
      assert all[..0] == [];
    } else {
      CountOfFirst(run, rest[..|rest| - 1], key);
      assert all[..|all| - 1] == [run] + rest[..|rest| - 1];
    }
  }

  // ---- The invariant ----

  /** The memo has an entry, never 0, for every workspace with a pick. */
  predicate MemoFits(pass: Pass, scope: Scope) {
    scope.Workspace? && pass.Working? && pass.rows != [] ==>
      var key := Key(scope.name);
      && (key !in pass.memo ==> CountKey(pass.picks, key) == 0)
      && (key in pass.memo ==> pass.memo[key] > 0)
  }

  /** The rows a pass works on. */
  function RowsAt(pass: Pass): seq<Run> {
    match pass
    case Working(rows, _, picks) => rows + picks
    case Writing(run, rest) => [run] + rest
    case _ => []
  }

  predicate SameWorkspace(runs: Table, row: Run) {
    row.id in runs && runs[row.id].workspaceId == row.workspaceId
  }

  /** Everywhere, nothing; in a workspace, fetched rows are of the workspace their run still is in. */
  predicate Linked(runs: Table, pass: Pass, scope: Scope) {
    scope.Workspace? ==> forall row :: row in RowsAt(pass) ==> SameWorkspace(runs, row)
  }

  predicate Fits(s: State, scope: Scope) {
    forall p :: 0 <= p < |s.passes| ==>
      && Room(s.passes[p], scope) <= Caps(scope, 1)
      && MemoFits(s.passes[p], scope) && Linked(s.runs, s.passes[p], scope)
  }

  predicate Inv(s: State, scope: Scope, limit: nat) {
    && Fits(s, scope) && Caps(scope, |s.passes|) <= limit
    && |ActiveRuns(s.runs, scope)| + TotalRoom(s.passes, scope) <= limit
  }

  /** No other workspace shares its memo key. */
  predicate OwnKey(runs: Table, scope: Scope) {
    scope.Workspace? ==>
      forall id :: id in runs && Key(runs[id].workspaceId) == Key(scope.name) ==> runs[id].workspaceId == scope.name
  }

  /** The runs there are stay in their workspaces. */
  predicate StayInPlace(runs: Table, runs': Table, scope: Scope) {
    scope.Workspace? ==> forall id :: id in runs ==> id in runs' && runs'[id].workspaceId == runs[id].workspaceId
  }

  /** A step of one pass that writes nothing and does not raise its room, or does so within a fresh count. */
  lemma PassKeepsInv(s: State, scope: Scope, limit: nat, p: nat, pass: Pass)
    requires Inv(s, scope, limit) && p < |s.passes|
    requires Room(pass, scope) <= Caps(scope, 1) && MemoFits(pass, scope) && Linked(s.runs, pass, scope)
    requires Room(pass, scope) <= Room(s.passes[p], scope)
             || (Room(s.passes[p], scope) == 0 && Room(pass, scope) + |ActiveRuns(s.runs, scope)| <= Caps(scope, 1))
    ensures Inv(s.(passes := s.passes[p := pass]), scope, limit)
  {
    TotalAfter(s.passes, p, pass, scope);
    if Room(pass, scope) > Room(s.passes[p], scope) {
      OthersBound(s.passes, p, scope);
    }
  }

  lemma RestCounts(pass: Pass, key: string)
    requires pass.Working? && pass.picks != []
    ensures CountKey([pass.picks[0]] + pass.picks[1..], key) == CountKey(pass.picks, key)
  {
    assert [pass.picks[0]] + pass.picks[1..] == pass.picks;
  }

  lemma LookFits(s: State, scope: Scope, p: nat)
    requires Fits(s, scope) && Enabled(s, Look(p)) && OwnKey(s.runs, scope)
    ensures var before, after := s.passes[p], Looked(s.runs, s.passes[p]);
            && MemoFits(after, scope) && Linked(s.runs, after, scope)
            && (Room(after, scope) <= Room(before, scope)
                || (Room(before, scope) == 0
                    && Room(after, scope) + |ActiveRuns(s.runs, scope)| <= Caps(scope, 1)))
  {
    var before, after := s.passes[p], Looked(s.runs, s.passes[p]);
    var run := before.rows[0];
    assert before.rows == [run] + before.rows[1..] && run in RowsAt(before);
    assert forall row :: row in RowsAt(after) ==> row in RowsAt(before);
    assert (before.picks + [run])[..|before.picks|] == before.picks;
    if scope.Workspace? && Key(run.workspaceId) == Key(scope.name) {
      assert SameWorkspace(s.runs, run);
    }
  }

  lemma CheckFits(s: State, scope: Scope, p: nat)
    requires Fits(s, scope) && Enabled(s, Check(p))
    ensures var before, after := s.passes[p], Checked(s.runs, s.passes[p]);
            Linked(s.runs, after, scope) && Room(after, scope) <= Room(before, scope)
  {
    var before := s.passes[p];
    assert before.picks == [before.picks[0]] + before.picks[1..];
    if scope.Workspace? {
      RestCounts(before, Key(scope.name));
    }
  }

  lemma LinkedStays(runs: Table, runs': Table, pass: Pass, scope: Scope)
    requires Linked(runs, pass, scope) && StayInPlace(runs, runs', scope)
    ensures Linked(runs', pass, scope)
  {
    if scope.Workspace? {
      forall row | row in RowsAt(pass) ensures SameWorkspace(runs', row) {
        assert SameWorkspace(runs, row);
      }
    }
  }

  lemma ActiveAfterWrite(runs: Table, run: Run, scope: Scope)
    requires run.id in runs && (scope.Workspace? ==> SameWorkspace(runs, run))
    ensures var runs' := runs[run.id := runs[run.id].(status := Scheduled)];
            |ActiveRuns(runs', scope)| <= |ActiveRuns(runs, scope)|
                                          + if scope.Everywhere? || run.workspaceId == scope.name then 1 else 0
  {
    var runs' := runs[run.id := runs[run.id].(status := Scheduled)];
    var active := ActiveRuns(runs, scope);
    if scope.Everywhere? || run.workspaceId == scope.name {
      SubsetSize(ActiveRuns(runs', scope), active + {run.id});
    } else {
      SubsetSize(ActiveRuns(runs', scope), active);
    }
  }

  lemma WriteKeepsInv(s: State, scope: Scope, limit: nat, p: nat)
    requires Inv(s, scope, limit) && Enabled(s, Write(p))
    ensures Inv(Apply(s, Write(p)), scope, limit)
  {
    var pass := s.passes[p];
    var s', after := Apply(s, Write(p)), Working([], map[], pass.rest);
    assert pass.run in RowsAt(pass);
    ActiveAfterWrite(s.runs, pass.run, scope);
    TotalAfter(s.passes, p, after, scope);
    if scope.Workspace? {
      CountOfFirst(pass.run, pass.rest, Key(scope.name));
    }
    assert Linked(s.runs, after, scope);
    forall q | 0 <= q < |s'.passes| ensures Linked(s'.runs, s'.passes[q], scope) {
      LinkedStays(s.runs, s'.runs, s'.passes[q], scope);
    }
  }

  lemma OutsideKeepsInv(s: State, scope: Scope, limit: nat, step: Step)
    requires Inv(s, scope, limit) && (step.Change? || step.Create?) && Enabled(s, step)
    requires StayInPlace(s.runs, Apply(s, step).runs, scope)
    ensures Inv(Apply(s, step), scope, limit)
  {
    var s' := Apply(s, step);
    SubsetSize(ActiveRuns(s'.runs, scope), ActiveRuns(s.runs, scope));
    forall q | 0 <= q < |s'.passes| ensures Linked(s'.runs, s'.passes[q], scope) {
      LinkedStays(s.runs, s'.runs, s.passes[q], scope);
    }
  }

  lemma StepKeepsInv(s: State, scope: Scope, limit: nat, step: Step)
    requires Inv(s, scope, limit) && Enabled(s, step)
    requires OwnKey(s.runs, scope) && StayInPlace(s.runs, Apply(s, step).runs, scope)
    ensures Inv(Apply(s, step), scope, limit)
  {
    match step
    case Count(p) => PassKeepsInv(s, scope, limit, p, Apply(s, step).passes[p]);
    case List(p, rows) => PassKeepsInv(s, scope, limit, p, Working(rows, map[], []));
    case Look(p) => {
      LookFits(s, scope, p);
      PassKeepsInv(s, scope, limit, p, Looked(s.runs, s.passes[p]));
    }
    case Check(p) => {
      CheckFits(s, scope, p);
      PassKeepsInv(s, scope, limit, p, Checked(s.runs, s.passes[p]));
    }
    case Write(p) => WriteKeepsInv(s, scope, limit, p);
    case Leave(p) => PassKeepsInv(s, scope, limit, p, Idle);
    case _ => OutsideKeepsInv(s, scope, limit, step);
  }

  ghost predicate Placed(ss: seq<State>, scope: Scope, j: int)
    requires 0 <= j < |ss|
  {
    OwnKey(ss[j].runs, scope) && (j > 0 ==> StayInPlace(ss[j - 1].runs, ss[j].runs, scope))
  }

  lemma {:induction false} IdleHasNoRoom(passes: seq<Pass>, scope: Scope)
    requires forall p :: 0 <= p < |passes| ==> passes[p] == Idle
    ensures TotalRoom(passes, scope) == 0
  {
    if passes != [] {
      IdleHasNoRoom(passes[..|passes| - 1], scope);
    }
  }

  lemma {:induction false} InvAlways(ss: seq<State>, scope: Scope, i: nat)
    requires History(ss) && i < |ss|
    requires forall j :: 0 <= j < |ss| ==> Placed(ss, scope, j)
    ensures |ss[i].passes| == |ss[0].passes|
    ensures Inv(ss[i], scope, Max(|ActiveRuns(ss[0].runs, scope)|, Caps(scope, |ss[0].passes|)))
  {
    if i == 0 {
      IdleHasNoRoom(ss[0].passes, scope);
    } else {
      InvAlways(ss, scope, i - 1);
      var step := StepInto(ss, i);
      assert Placed(ss, scope, i - 1) && Placed(ss, scope, i);
      StepKeepsInv(ss[i - 1], scope, Max(|ActiveRuns(ss[0].runs, scope)|, Caps(scope, |ss[0].passes|)), step);
    }
  }

  /** With at most k passes at a time and no resumes, active runs never exceed 10 k, or what there was. */
  lemma GlobalCapUnderOverlap(ss: seq<State>, i: nat)
    requires History(ss) && i < |ss|
    ensures |Active(ss[i].runs)| <= Max(|Active(ss[0].runs)|, MAX_GLOBAL_CONCURRENT_RUNS * |ss[0].passes|)
  {
    forall j | 0 <= j < |ss| ensures Placed(ss, Everywhere, j) {
    }
    InvAlways(ss, Everywhere, i);
  }

  /**
   * In a workspace, 3 k: for one whose memo key is its own, while runs stay in their workspaces.
   * `None` stands for the runs without a workspace.
   */
  lemma WorkspaceCapUnderOverlap(ss: seq<State>, workspace: Option<string>, i: nat)
    requires History(ss) && i < |ss|
    requires forall j :: 0 <= j < |ss| ==> Placed(ss, Workspace(workspace), j)
    ensures |ActiveIn(ss[i].runs, workspace)| <=
            Max(|ActiveIn(ss[0].runs, workspace)|, MAX_CONCURRENT_RUNS_PER_WORKSPACE * |ss[0].passes|)
  {
    InvAlways(ss, Workspace(workspace), i);
  }

  // ---- The bounds are reached ----

  /** Nothing but the passes happens, so that every run stays where it is. */
  ghost predicate Calm(ss: seq<State>) {
    History(ss) && forall j :: 0 <= j < |ss| ==> Placed(ss, Workspace(Some("w")), j)
  }

  lemma Proceed(ss: seq<State>, step: Step) returns (ss': seq<State>)
    requires Calm(ss) && Enabled(Latest(ss), step) && !step.Change? && !step.Create?
    ensures Calm(ss') && ss'[0] == ss[0] && Latest(ss') == Apply(Latest(ss), step)
  {
    ss' := ss + [Apply(Latest(ss), step)];
    forall i | 0 <= i < |ss'| - 1 ensures Stepped(ss', i) {
      assert i < |ss| - 1 ==> Stepped(ss, i);
    }
    forall j | 0 <= j < |ss'| ensures Placed(ss', Workspace(Some("w")), j) {
      assert j < |ss| ==> Placed(ss, Workspace(Some("w")), j);
    }
  }

  function Name(n: nat): (name: string)
    ensures |name| == n
  {
    seq(n, _ => 'r')
  }

  /** Every run in a workspace of its own, or all in one workspace beside seven that take up slots. */
  datatype Layout = Apart | Together

  function Home(n: nat, layout: Layout): string {
    if layout.Apart? then Name(n) else "w"
  }

  function Sample(n: nat, status: Status, layout: Layout): Run {
    Run(Name(n), "op", Some(Home(n, layout)), status, P2, 0, 0, None, None, None, None)
  }

  function Spare(layout: Layout): nat {
    if layout.Apart? then 0 else 7
  }

  /** Of `total` runs the first `m` are scheduled and the others pending; those beyond are running elsewhere. */
  function RunAt(n: nat, m: nat, total: nat, layout: Layout): Run {
    if n < total then Sample(n, if n < m then Scheduled else Pending, layout)
    else Run(Name(n), "op", None, Running, P2, 0, 0, None, None, None, None)
  }

  predicate IsName(id: RunId, n: nat) {
    |id| < n && id == Name(|id|)
  }

  function Stock(n: nat, m: nat, total: nat, layout: Layout): Table {
    if n == 0 then map[]
    else Stock(n - 1, m, total, layout)[Name(n - 1) := RunAt(n - 1, m, total, layout)]
  }

  function Stage(m: nat, total: nat, layout: Layout): Table {
    Stock(total + Spare(layout), m, total, layout)
  }

  lemma {:induction false} StockHas(id: RunId, n: nat, m: nat, total: nat, layout: Layout)
    ensures id in Stock(n, m, total, layout) <==> IsName(id, n)
    ensures id in Stock(n, m, total, layout) ==> Stock(n, m, total, layout)[id] == RunAt(|id|, m, total, layout)
  {
    if n > 0 {
      StockHas(id, n - 1, m, total, layout);
    }
  }

  lemma StageHas(i: nat, m: nat, total: nat, layout: Layout)
    requires i < total + Spare(layout)
    ensures Name(i) in Stage(m, total, layout) && Stage(m, total, layout)[Name(i)] == RunAt(i, m, total, layout)
  {
    StockHas(Name(i), total + Spare(layout), m, total, layout);
  }

  function Names(m: nat): set<string> {
    if m == 0 then {} else Names(m - 1) + {Name(m - 1)}
  }

  lemma {:induction false} NamesAre(m: nat, id: string)
    ensures id in Names(m) <==> IsName(id, m)
  {
    if m > 0 {
      NamesAre(m - 1, id);
    }
  }

  lemma {:induction false} NamesCount(m: nat)
    ensures |Names(m)| == m
  {
    if m > 0 {
      NamesCount(m - 1);
      NamesAre(m - 1, Name(m - 1));
    }
  }

  lemma ActiveOnStage(m: nat, total: nat, layout: Layout)
    requires m <= total
    ensures |Active(Stage(m, total, layout))| == m + Spare(layout)
  {
    var all := total + Spare(layout);
    NamesCount(m);
    NamesCount(total);
    NamesCount(all);
    forall id
      ensures id in Names(m) ==> id in Names(total)
      ensures id in Names(total) ==> id in Names(all)
      ensures id in Active(Stage(m, total, layout)) <==> id in Names(m) || (id in Names(all) && id !in Names(total))
    {
      StockHas(id, all, m, total, layout);
      NamesAre(m, id);
      NamesAre(total, id);
      NamesAre(all, id);
    }
    SplitNames(Active(Stage(m, total, layout)), Names(m), Names(total), Names(all));
  }

  lemma SplitNames(active: set<string>, low: set<string>, middle: set<string>, all: set<string>)
    requires low <= middle <= all
    requires forall id :: id in active <==> id in low || (id in all && id !in middle)
    ensures |active| == |low| + |all| - |middle|
  {
    var spare := all - middle;
    assert active == low + spare && all == middle + spare;
  }

  lemma ActiveTogether(m: nat, total: nat)
    requires m <= total
    ensures |ActiveIn(Stage(m, total, Together), Some("w"))| == m
  {
    NamesCount(m);
    forall id ensures id in ActiveIn(Stage(m, total, Together), Some("w")) <==> id in Names(m) {
      StockHas(id, total + Spare(Together), m, total, Together);
      NamesAre(m, id);
    }
    assert ActiveIn(Stage(m, total, Together), Some("w")) == Names(m);
  }

  lemma NobodyActiveAtFirst(n: nat, total: nat, layout: Layout)
    ensures |ActiveIn(Stage(0, total, layout), Some(Home(n, layout)))| == 0
  {
    forall id ensures id !in ActiveIn(Stage(0, total, layout), Some(Home(n, layout))) {
      StockHas(id, total + Spare(layout), 0, total, layout);
    }
    assert ActiveIn(Stage(0, total, layout), Some(Home(n, layout))) == {};
  }

  /** The pending runs from `m` on, `n` of them. */
  function Samples(m: nat, n: nat, layout: Layout): (rows: seq<Run>)
    ensures |rows| == n
  {
    seq(n, i requires 0 <= i => Sample(m + i, Pending, layout))
  }

  lemma FirstSample(m: nat, n: nat, layout: Layout)
    requires n > 0
    ensures Samples(m, n, layout) == [Sample(m, Pending, layout)] + Samples(m + 1, n - 1, layout)
  {
    var rest := Samples(m + 1, n - 1, layout);
    forall i | 0 < i < n ensures Samples(m, n, layout)[i] == rest[i - 1] {
    }
  }

  lemma LastSample(m: nat, n: nat, layout: Layout)
    ensures Samples(m, n + 1, layout) == Samples(m, n, layout) + [Sample(m + n, Pending, layout)]
  {
  }

  lemma SampleAt(m: nat, n: nat, i: nat, layout: Layout)
    requires i < n
    ensures Samples(m, n, layout)[i] == Sample(m + i, Pending, layout)
  {
  }

  lemma SamplesAreRows(m: nat, n: nat, total: nat, layout: Layout)
    requires m + n <= total
    ensures RowsOf(Stage(0, total, layout), Samples(m, n, layout))
  {
    var runs, rows := Stage(0, total, layout), Samples(m, n, layout);
    forall r | r in rows ensures r.id in runs && runs[r.id] == r && r.status == Pending {
      var i :| 0 <= i < |rows| && rows[i] == r;
      SampleAt(m, n, i, layout);
      StageHas(m + i, 0, total, layout);
    }
    forall i, j | 0 <= i < j < |rows| ensures rows[i].id != rows[j].id {
      SampleAt(m, n, i, layout);
      SampleAt(m, n, j, layout);
    }
  }

  /** All pending runs are equal in the order of the queue, so any of them may be listed. */
  lemma SamplesAreAWindow(m: nat, n: nat, total: nat, layout: Layout)
    requires m + n <= total
    ensures IsWindow(Stage(0, total, layout), Samples(m, n, layout), n)
  {
    var runs, rows := Stage(0, total, layout), Samples(m, n, layout);
    SamplesAreRows(m, n, total, layout);
    forall id | id in runs ensures runs[id].priority == P2 && runs[id].createdAt == 0 {
      StockHas(id, total + Spare(layout), 0, total, layout);
    }
    assert forall r :: r in rows ==> r == runs[r.id];
  }

  /** The slots that each pass counts, and the rows it lists. */
  function Width(layout: Layout): nat {
    if layout.Apart? then MAX_GLOBAL_CONCURRENT_RUNS else MAX_CONCURRENT_RUNS_PER_WORKSPACE
  }

  function Offset(p: nat, layout: Layout): nat {
    if layout.Apart? then MAX_GLOBAL_CONCURRENT_RUNS * p else MAX_CONCURRENT_RUNS_PER_WORKSPACE * p
  }

  predicate MemoAt(memo: map<string, nat>, m: nat, t: nat, layout: Layout) {
    if layout.Apart? then forall key :: key in memo ==> |key| < m + t
    else if t == 0 then memo == map[]
    else memo == map["w" := t]
  }

  /** Nothing is active in the workspace, and not enough is picked to fill it: the row is picked. */
  lemma LookPicks(pass: Pass, m: nat, t: nat, total: nat, layout: Layout)
    requires t < Width(layout) && pass.Working?
    requires pass.rows == Samples(m + t, Width(layout) - t, layout) && pass.picks == Samples(m, t, layout)
    requires MemoAt(pass.memo, m, t, layout)
    ensures var after := Looked(Stage(0, total, layout), pass);
            && after.rows == Samples(m + t + 1, Width(layout) - t - 1, layout)
            && after.picks == Samples(m, t + 1, layout) && MemoAt(after.memo, m, t + 1, layout)
  {
    NobodyActiveAtFirst(m + t, total, layout);
    FirstSample(m + t, Width(layout) - t, layout);
    LastSample(m, t, layout);
    assert layout.Apart? ==> Name(m + t) !in pass.memo;
  }

  lemma {:induction false} LookAll(ss: seq<State>, p: nat, m: nat, t: nat, total: nat, layout: Layout)
    returns (ss': seq<State>)
    requires Calm(ss) && Latest(ss).runs == Stage(0, total, layout) && p < |Latest(ss).passes|
    requires t <= Width(layout) && Latest(ss).passes[p].Working?
    requires Latest(ss).passes[p].rows == Samples(m + t, Width(layout) - t, layout)
    requires Latest(ss).passes[p].picks == Samples(m, t, layout) && MemoAt(Latest(ss).passes[p].memo, m, t, layout)
    ensures Calm(ss') && ss'[0] == ss[0] && Latest(ss').runs == Latest(ss).runs
    ensures |Latest(ss').passes| == |Latest(ss).passes|
    ensures forall q :: 0 <= q < |Latest(ss).passes| && q != p ==> Latest(ss').passes[q] == Latest(ss).passes[q]
    ensures Latest(ss').passes[p].Working? && Latest(ss').passes[p].rows == []
    ensures Latest(ss').passes[p].picks == Samples(m, Width(layout), layout)
    decreases Width(layout) - t
  {
    ss' := ss;
    if t < Width(layout) {
      LookPicks(Latest(ss).passes[p], m, t, total, layout);
      ss' := Proceed(ss, Look(p));
      ss' := LookAll(ss', p, m, t + 1, total, layout);
    }
  }

  predicate Prepared(pass: Pass, p: nat, layout: Layout) {
    && pass.Working? && pass.rows == []
    && pass.picks == Samples(Offset(p, layout), Width(layout), layout)
  }

  /** Before anything is scheduled, each pass picks runs of its own. */
  lemma {:induction false} PrepareAll(ss: seq<State>, p: nat, k: nat, layout: Layout) returns (ss': seq<State>)
    requires Calm(ss) && p <= k == |Latest(ss).passes| && Latest(ss).runs == Stage(0, Offset(k, layout), layout)
    requires forall q :: 0 <= q < p ==> Prepared(Latest(ss).passes[q], q, layout)
    requires forall q :: p <= q < k ==> Latest(ss).passes[q] == Idle
    ensures Calm(ss') && ss'[0] == ss[0] && Latest(ss').runs == Latest(ss).runs && |Latest(ss').passes| == k
    ensures forall q :: 0 <= q < k ==> Prepared(Latest(ss').passes[q], q, layout)
    decreases k - p
  {
    ss' := ss;
    if p < k {
      var m, total := Offset(p, layout), Offset(k, layout);
      ActiveOnStage(0, total, layout);
      SamplesAreAWindow(m, Width(layout), total, layout);
      ss' := Proceed(ss', Count(p));
      ss' := Proceed(ss', List(p, Samples(m, Width(layout), layout)));
      ss' := LookAll(ss', p, m, 0, total, layout);
      ss' := PrepareAll(ss', p + 1, k, layout);
    }
  }

  lemma WriteMovesTheStage(m: nat, total: nat, layout: Layout)
    requires m < total
    ensures var runs := Stage(m, total, layout);
            && Name(m) in runs && runs[Name(m)].status == Pending
            && runs[Name(m) := runs[Name(m)].(status := Scheduled)] == Stage(m + 1, total, layout)
  {
    StageHas(m, m, total, layout);
    var n, moved := total + Spare(layout), Stage(m, total, layout)[Name(m) := Sample(m, Scheduled, layout)];
    forall id
      ensures id in moved <==> id in Stage(m + 1, total, layout)
      ensures id in moved ==> moved[id] == Stage(m + 1, total, layout)[id]
    {
      StockHas(id, n, m, total, layout);
      StockHas(id, n, m + 1, total, layout);
    }
    assert moved == Stage(m + 1, total, layout);
  }

  lemma WriteOne(ss: seq<State>, p: nat, m: nat, n: nat, total: nat, layout: Layout) returns (ss': seq<State>)
    requires Calm(ss) && Latest(ss).runs == Stage(m, total, layout) && m < total && n > 0
    requires p < |Latest(ss).passes| && Latest(ss).passes[p].Working?
    requires Latest(ss).passes[p].rows == [] && Latest(ss).passes[p].picks == Samples(m, n, layout)
    ensures Calm(ss') && ss'[0] == ss[0] && Latest(ss').runs == Stage(m + 1, total, layout)
    ensures Latest(ss').passes == Latest(ss).passes[p := Working([], map[], Samples(m + 1, n - 1, layout))]
  {
    var s, rest := Latest(ss), Samples(m + 1, n - 1, layout);
    FirstSample(m, n, layout);
    WriteMovesTheStage(m, total, layout);
    assert Checked(s.runs, s.passes[p]) == Writing(Sample(m, Pending, layout), rest);
    ss' := Proceed(ss, Check(p));
    ss' := Proceed(ss', Write(p));
  }

  lemma {:induction false} WriteAll(ss: seq<State>, p: nat, m: nat, n: nat, total: nat, layout: Layout)
    returns (ss': seq<State>)
    requires Calm(ss) && Latest(ss).runs == Stage(m, total, layout) && m + n <= total
    requires p < |Latest(ss).passes| && Latest(ss).passes[p].Working?
    requires Latest(ss).passes[p].rows == [] && Latest(ss).passes[p].picks == Samples(m, n, layout)
    ensures Calm(ss') && ss'[0] == ss[0] && Latest(ss').runs == Stage(m + n, total, layout)
    ensures |Latest(ss').passes| == |Latest(ss).passes|
    ensures forall q :: 0 <= q < |Latest(ss).passes| && q != p ==> Latest(ss').passes[q] == Latest(ss).passes[q]
    decreases n
  {
    ss' := ss;
    if n > 0 {
      ss' := WriteOne(ss, p, m, n, total, layout);
      ss' := WriteAll(ss', p, m + 1, n - 1, total, layout);
    }
  }

  /** Then they all write what they have picked. */
  lemma {:induction false} FillAll(ss: seq<State>, p: nat, k: nat, layout: Layout) returns (ss': seq<State>)
    requires Calm(ss) && p <= k == |Latest(ss).passes|
    requires Latest(ss).runs == Stage(Offset(p, layout), Offset(k, layout), layout)
    requires forall q :: p <= q < k ==> Prepared(Latest(ss).passes[q], q, layout)
    ensures Calm(ss') && ss'[0] == ss[0] && Latest(ss').runs == Stage(Offset(k, layout), Offset(k, layout), layout)
    decreases k - p
  {
    ss' := ss;
    if p < k {
      ss' := WriteAll(ss, p, Offset(p, layout), Width(layout), Offset(k, layout), layout);
      ss' := FillAll(ss', p + 1, k, layout);
    }
  }

  lemma Overlap(k: nat, layout: Layout) returns (ss: seq<State>)
    ensures Calm(ss) && |ss[0].passes| == k
    ensures ss[0].runs == Stage(0, Offset(k, layout), layout)
    ensures Latest(ss).runs == Stage(Offset(k, layout), Offset(k, layout), layout)
  {
    ss := [State(Stage(0, Offset(k, layout), layout), seq(k, _ => Idle))];
    ss := PrepareAll(ss, 0, k, layout);
    ss := FillAll(ss, 0, k, layout);
  }

  /** For every k a history of at most k passes at a time, from no active run, has 10 k active runs. */
  lemma GlobalBoundIsReached(k: nat) returns (ss: seq<State>)
    ensures History(ss) && |ss[0].passes| == k && |Active(ss[0].runs)| == 0
    ensures |Active(Latest(ss).runs)| == MAX_GLOBAL_CONCURRENT_RUNS * k
  {
    ss := Overlap(k, Apart);
    ActiveOnStage(0, Offset(k, Apart), Apart);
    ActiveOnStage(Offset(k, Apart), Offset(k, Apart), Apart);
  }

  /** And one has 3 k active runs in a workspace that had none. */
  lemma WorkspaceBoundIsReached(k: nat) returns (ss: seq<State>)
    ensures History(ss) && |ss[0].passes| == k && |ActiveIn(ss[0].runs, Some("w"))| == 0
    ensures forall j :: 0 <= j < |ss| ==> Placed(ss, Workspace(Some("w")), j)
    ensures |ActiveIn(Latest(ss).runs, Some("w"))| == MAX_CONCURRENT_RUNS_PER_WORKSPACE * k
  {
    ss := Overlap(k, Together);
    ActiveTogether(0, Offset(k, Together));
    ActiveTogether(Offset(k, Together), Offset(k, Together));
  }
}
