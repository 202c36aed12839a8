/**
 * Runs, their transition table and their event log
 * (packages/types/src/domain/run.ts, engine/orchestrator.ts, engine/run-events.ts).
 */
module RunModel {
  import opened Common

  type RunId = string

  datatype Status =
    | Pending | Scheduled | Running | Paused
    | Completed | Failed | Quarantined | Cancelled

  datatype Priority = P0 | P1 | P2

  datatype Run = Run(
    id: RunId,
    operationId: string,
    workspaceId: Option<string>,
    status: Status,
    priority: Priority,
    attempt: nat,
    createdAt: int,
    startedAt: Option<int>,
    pausedAt: Option<int>,
    completedAt: Option<int>,
    timeoutAt: Option<int>)

  /** RUN_TRANSITIONS. Note that `Paused` has no edge to `Failed`. */
  function Allowed(from: Status): seq<Status> {
    match from
    case Pending => [Scheduled, Cancelled]
    case Scheduled => [Running, Cancelled]
    case Running => [Paused, Completed, Failed, Quarantined]
    case Paused => [Running, Cancelled, Quarantined]
    case Completed => []
    case Failed => []
    case Quarantined => [Cancelled]
    case Cancelled => []
  }

  predicate CanTransition(from: Status, to: Status) {
    to in Allowed(from)
  }

  predicate IsActive(s: Status) {
    s == Running || s == Scheduled
  }

  /** The row that a permitted transition writes. */
  function AfterTransition(run: Run, to: Status, now: int): Run {
    run.(status := to,
         startedAt := if to == Running && run.startedAt.None? then Some(now) else run.startedAt,
         pausedAt := if to == Paused then Some(now) else if to == Running then None else run.pausedAt,
         completedAt := if to == Completed || to == Failed then Some(now) else run.completedAt)
  }

  /** The permitted pairs, one by one. */
  lemma TransitionTable(from: Status, to: Status)
    ensures CanTransition(from, to) <==>
              (from, to) in {(Pending, Scheduled), (Pending, Cancelled), (Scheduled, Running), (Scheduled, Cancelled),
                             (Running, Paused), (Running, Completed), (Running, Failed), (Running, Quarantined),
                             (Paused, Running), (Paused, Cancelled), (Paused, Quarantined), (Quarantined, Cancelled)}
  {
    match from case _ => match to case _ =>
  }

  /** A transition starts the clock once, keeps the pause time only while paused, and stamps the end. */
  lemma TransitionStamps(run: Run, to: Status, now: int)
    ensures var row := AfterTransition(run, to, now);
      && row == run.(status := to, startedAt := row.startedAt, pausedAt := row.pausedAt, completedAt := row.completedAt)
      && (run.startedAt.Some? || to != Running ==> row.startedAt == run.startedAt)
      && (run.startedAt == None && to == Running ==> row.startedAt == Some(now))
      && (to == Paused ==> row.pausedAt == Some(now)) && (to == Running ==> row.pausedAt == None)
      && (to !in {Paused, Running} ==> row.pausedAt == run.pausedAt)
      && (to in {Completed, Failed} ==> row.completedAt == Some(now))
      && (to !in {Completed, Failed} ==> row.completedAt == run.completedAt)
  {
  }

  // ---- Event log ----

  datatype Payload =
    | StateChange(from: Option<Status>, to: Status, reason: Option<string>)
    | Other(kind: string)

  datatype EventRow = EventRow(sequenceNum: nat, payload: Payload)

  /** `findFirst ... orderBy sequenceNum desc`, with 0 for an empty log. */
  function LastSequenceNum(rows: seq<EventRow>): nat {
    if rows == [] then 0
    else Max(rows[|rows| - 1].sequenceNum, LastSequenceNum(rows[..|rows| - 1]))
  }

  function Append(rows: seq<EventRow>, payload: Payload): seq<EventRow> {
    rows + [EventRow(LastSequenceNum(rows) + 1, payload)]
  }

  /** The status changes recorded in a log, in order. */
  function Changes(rows: seq<EventRow>): seq<Payload> {
    if rows == [] then []
    else
      var earlier := Changes(rows[..|rows| - 1]);
      var last := rows[|rows| - 1].payload;
      if last.StateChange? then earlier + [last] else earlier
  }

  ghost predicate Numbered(rows: seq<EventRow>) {
    forall i :: 0 <= i < |rows| ==> rows[i].sequenceNum == i + 1
  }

  /** A walk through the transition table that starts with null -> pending. */
  ghost predicate IsPath(changes: seq<Payload>) {
    && |changes| > 0
    && (forall c :: c in changes ==> c.StateChange?)
    && changes[0].from == None && changes[0].to == Pending
    && forall i :: 0 < i < |changes| ==>
         && changes[i].from == Some(changes[i - 1].to)
         && CanTransition(changes[i - 1].to, changes[i].to)
  }

  /** The time columns fit the status, for runs that started out pending with none of them set. */
  predicate TimesFit(run: Run) {
    && (run.status in {Pending, Scheduled} ==> run.startedAt == None && run.pausedAt == None)
    && (run.status in {Running, Paused, Completed, Failed, Quarantined} ==> run.startedAt.Some?)
    && (run.status in {Running, Completed, Failed} ==> run.pausedAt == None)
    && (run.status == Paused ==> run.pausedAt.Some?)
    && (run.completedAt.Some? <==> run.status in {Completed, Failed})
  }

  /** The log numbers its events 1..n, walks the table, and ends at the stored status; so do the times. */
  ghost predicate Faithful(run: Run, rows: seq<EventRow>) {
    && TimesFit(run)
    && Numbered(rows)
    && IsPath(Changes(rows))
    && Changes(rows)[|Changes(rows)| - 1].to == run.status
  }

  lemma {:induction false} NumberedLast(rows: seq<EventRow>)
    requires Numbered(rows)
    ensures LastSequenceNum(rows) == |rows|
  {
    if rows != [] {
      NumberedLast(rows[..|rows| - 1]);
    }
  }

  lemma AppendKeepsNumbering(rows: seq<EventRow>, payload: Payload)
    requires Numbered(rows)
    ensures Numbered(Append(rows, payload))
    ensures Changes(Append(rows, payload)) ==
            if payload.StateChange? then Changes(rows) + [payload] else Changes(rows)
  {
    NumberedLast(rows);
    assert Append(rows, payload)[..|rows|] == rows;
  }

  /** Recording a permitted transition beside the status write keeps the log faithful. */
  lemma TransitionKeepsFaithful(run: Run, rows: seq<EventRow>, to: Status, reason: Option<string>, now: int)
    requires Faithful(run, rows)
    requires CanTransition(run.status, to)
    ensures Faithful(AfterTransition(run, to, now), Append(rows, StateChange(Some(run.status), to, reason)))
  {
    var change := StateChange(Some(run.status), to, reason);
    AppendKeepsNumbering(rows, change);
    PathGoesOn(Changes(rows), change);
    TransitionKeepsTimes(run, to, now);
  }

  lemma PathGoesOn(changes: seq<Payload>, change: Payload)
    requires IsPath(changes) && change.StateChange?
    requires change.from == Some(changes[|changes| - 1].to) && CanTransition(changes[|changes| - 1].to, change.to)
    ensures IsPath(changes + [change])
  {
  }

  lemma TransitionKeepsTimes(run: Run, to: Status, now: int)
    requires TimesFit(run) && CanTransition(run.status, to)
    ensures TimesFit(AfterTransition(run, to, now))
  {
  }

  lemma FirstChangeIsAPath(changes: seq<Payload>)
    requires |changes| == 1 && changes[0].StateChange? && changes[0].from == None && changes[0].to == Pending
    ensures IsPath(changes)
  {
  }

  lemma CreationIsFaithful(run: Run, reason: Option<string>)
    requires run.status == Pending && run.startedAt == run.pausedAt == run.completedAt == None
    ensures Faithful(run, Append([], StateChange(None, Pending, reason)))
  {
    var created := StateChange(None, Pending, reason);
    AppendKeepsNumbering([], created);
    assert Changes([]) + [created] == [created];
    FirstChangeIsAPath([created]);
  }

  lemma OtherEventKeepsFaithful(run: Run, rows: seq<EventRow>, kind: string)
    requires Faithful(run, rows)
    ensures Faithful(run, Append(rows, Other(kind)))
  {
    AppendKeepsNumbering(rows, Other(kind));
  }

  // ---- What every recorded life of a run looks like ----

  /** Progress measure: only Running and Paused can alternate. */
  function Rank(s: Status): nat {
    match s
    case Pending => 0
    case Scheduled => 1
    case Running => 2
    case Paused => 2
    case Quarantined => 3
    case Completed => 4
    case Failed => 4
    case Cancelled => 4
  }

  lemma {:induction false} RankNeverFalls(changes: seq<Payload>, i: nat, j: nat)
    requires IsPath(changes) && i < j < |changes|
    ensures Rank(changes[i].to) <= Rank(changes[j].to)
    ensures Rank(changes[i].to) == Rank(changes[j].to) ==> Rank(changes[i].to) == 2
    decreases j - i
  {
    assert CanTransition(changes[j - 1].to, changes[j].to);
    if i < j - 1 {
      RankNeverFalls(changes, i, j - 1);
    }
  }

  /**
   * Over the whole life of a run: it is scheduled at most once, nothing follows a final
   * status, and after quarantine the only possible change is cancellation.
   */
  lemma LifeOfARun(run: Run, rows: seq<EventRow>)
    requires Faithful(run, rows)
    ensures forall i, j :: 0 <= i < j < |Changes(rows)| ==>
              !(Changes(rows)[i].to == Scheduled && Changes(rows)[j].to == Scheduled)
    ensures forall i :: 0 <= i < |Changes(rows)| && Changes(rows)[i].to in {Completed, Failed, Cancelled} ==>
              i == |Changes(rows)| - 1 && run.status == Changes(rows)[i].to
    ensures forall i, j :: 0 <= i < j < |Changes(rows)| && Changes(rows)[i].to == Quarantined ==>
              Changes(rows)[j].to == Cancelled
  {
    var cs := Changes(rows);
    forall i, j | 0 <= i < j < |cs|
      ensures Rank(cs[i].to) <= Rank(cs[j].to)
      ensures Rank(cs[i].to) == Rank(cs[j].to) ==> Rank(cs[i].to) == 2
      ensures cs[i].to == Quarantined ==> cs[j].to == Cancelled
    {
      RankNeverFalls(cs, i, j);
      assert CanTransition(cs[i].to, cs[i + 1].to);
      if i + 1 < j {
        RankNeverFalls(cs, i + 1, j);
      }
    }
  }

  // ---- The exported timeline ----

  /** The ordering check that the stand-alone case-file verifier runs over a timeline. */
  method TimelineOrdered(timeline: seq<EventRow>) returns (ordered: bool)
    ensures ordered <==> forall i, j :: 0 <= i < j < |timeline| ==> timeline[i].sequenceNum < timeline[j].sequenceNum
  {
    ordered := true;
    var i := 1;
    while i < |timeline|
      invariant 1 <= i
      invariant |timeline| > 0 ==> i <= |timeline|
      invariant forall a, b :: 0 <= a < b < i && b < |timeline| ==> timeline[a].sequenceNum < timeline[b].sequenceNum
    {
      if timeline[i].sequenceNum <= timeline[i - 1].sequenceNum {
        return false;
      }
      i := i + 1;
    }
  }
}
