/**
 * Overlapping status changes of one run: `transitionRun` reads and checks the status, writes the row,
 * and appends the event, each in a database call of its own (engine/orchestrator.ts, engine/run-events.ts).
 */
module RunLogRace {
  import opened Common
  import opened RunModel

  /** A request past its check against the table; creating the run is one from no status at all. */
  datatype Change = Change(from: Option<Status>, to: Status, reason: Option<string>, written: bool)

  /** `lost` is history: some request wrote the row and failed before its event was there. */
  datatype State = State(status: Status, rows: seq<EventRow>, changes: map<nat, Change>, lost: bool)

  /** `createRun` has written the row; its first event is still to come. */
  const CREATED := State(Pending, [], map[0 := Change(None, Pending, Some("created"), true)], false)

  datatype Step =
    | Begin(c: nat, to: Status, reason: Option<string>)
    | Write(c: nat)
    | Emit(c: nat)
    | Fail(c: nat)
    | Lose(c: nat)
    | Record(kind: string)

  predicate Enabled(s: State, step: Step) {
    match step
    case Begin(c, to, _) => c !in s.changes && CanTransition(s.status, to)
    case Write(c) => c in s.changes && !s.changes[c].written
    case Emit(c) => c in s.changes && s.changes[c].written
    case Fail(c) => c in s.changes && !s.changes[c].written
    case Lose(c) => c in s.changes && s.changes[c].written
    case Record(_) => true
  }

  function Event(change: Change): Payload {
    StateChange(change.from, change.to, change.reason)
  }

  function Apply(s: State, step: Step): State
    requires Enabled(s, step)
  {
    match step
    case Begin(c, to, reason) => s.(changes := s.changes[c := Change(Some(s.status), to, reason, false)])
    case Write(c) => s.(status := s.changes[c].to, changes := s.changes[c := s.changes[c].(written := true)])
    case Emit(c) => s.(rows := Append(s.rows, Event(s.changes[c])), changes := s.changes - {c})
    case Fail(c) => s.(changes := s.changes - {c})
    case Lose(c) => s.(changes := s.changes - {c}, lost := true)
    case Record(kind) => s.(rows := Append(s.rows, Other(kind)))
  }

  ghost predicate Next(s: State, s': State) {
    exists step :: Enabled(s, step) && Apply(s, step) == s'
  }

  ghost predicate Stepped(ss: seq<State>, i: int)
    requires 0 <= i < |ss| - 1
  {
    Next(ss[i], ss[i + 1])
  }

  ghost predicate History(ss: seq<State>) {
    && |ss| > 0 && ss[0] == CREATED
    && forall i {:trigger Stepped(ss, i)} :: 0 <= i < |ss| - 1 ==> Stepped(ss, i)
  }

  function Latest(ss: seq<State>): State
    requires ss != []
  {
    ss[|ss| - 1]
  }

  lemma StepInto(ss: seq<State>, i: nat) returns (step: Step)
    requires History(ss) && 0 < i < |ss|
    ensures Enabled(ss[i - 1], step) && Apply(ss[i - 1], step) == ss[i]
  {
    assert Stepped(ss, i - 1) && Next(ss[i - 1], ss[i]);
    step :| Enabled(ss[i - 1], step) && Apply(ss[i - 1], step) == ss[i];
  }

  lemma Proceed(ss: seq<State>, step: Step) returns (ss': seq<State>)
    requires History(ss) && Enabled(Latest(ss), step)
    ensures History(ss') && Latest(ss') == Apply(Latest(ss), step)
  {
    ss' := ss + [Apply(Latest(ss), step)];
    forall i | 0 <= i < |ss'| - 1 ensures Stepped(ss', i) {
      assert i < |ss| - 1 ==> Stepped(ss, i);
    }
  }

  // ---- What holds however the requests overlap ----

  predicate Sound(s: State) {
    forall c :: c in s.changes ==>
      if s.changes[c].from.None? then s.changes[c].written && s.changes[c].to == Pending
      else CanTransition(s.changes[c].from.value, s.changes[c].to)
  }

  lemma StepKeepsNumbering(s: State, step: Step)
    requires Enabled(s, step) && Numbered(s.rows)
    ensures Numbered(Apply(s, step).rows)
    ensures Changes(Apply(s, step).rows) ==
            if step.Emit? then Changes(s.rows) + [Event(s.changes[step.c])] else Changes(s.rows)
  {
    match step
    case Emit(c) => AppendKeepsNumbering(s.rows, Event(s.changes[c]));
    case Record(kind) => AppendKeepsNumbering(s.rows, Other(kind));
    case _ =>
  }

  /** The events of a run are numbered 1..n without gaps whatever overlaps and fails. */
  lemma {:induction false} NumberedAlways(ss: seq<State>, i: nat)
    requires History(ss) && i < |ss|
    ensures Numbered(ss[i].rows) && Sound(ss[i])
  {
    if i > 0 {
      NumberedAlways(ss, i - 1);
      var step := StepInto(ss, i);
      StepKeepsNumbering(ss[i - 1], step);
    }
  }

  // ---- When the log will tell the life of the run ----

  /** A walk through the table that ends at the status; the walk of a run not yet created is empty. */
  ghost predicate EndsAt(changes: seq<Payload>, status: Option<Status>) {
    if status.None? then changes == []
    else IsPath(changes) && changes[|changes| - 1].to == status.value
  }

  ghost predicate Tells(s: State) {
    EndsAt(Changes(s.rows), Some(s.status))
  }

  /** Nobody is under way, or one request that started where the log ends and whose write the row holds. */
  ghost predicate Orderly(s: State) {
    && |s.changes| <= 1
    && (s.changes == map[] ==> Tells(s))
    && forall c :: c in s.changes ==>
         && EndsAt(Changes(s.rows), s.changes[c].from)
         && if s.changes[c].written then s.status == s.changes[c].to else Some(s.status) == s.changes[c].from
  }

  /** Steps that finish what is under way: no new request, and no event is lost. */
  ghost predicate Finishes(s: State, s': State) {
    exists step :: Enabled(s, step) && !step.Begin? && !step.Lose? && Apply(s, step) == s'
  }

  ghost predicate Finished(ss: seq<State>, i: int)
    requires 0 <= i < |ss| - 1
  {
    Finishes(ss[i], ss[i + 1])
  }

  ghost predicate Completion(s: State, ss: seq<State>) {
    && |ss| > 0 && ss[0] == s && Latest(ss).changes == map[]
    && forall i {:trigger Finished(ss, i)} :: 0 <= i < |ss| - 1 ==> Finished(ss, i)
  }

  /** However the requests under way finish, the log then is a walk through the table to the row's status. */
  ghost predicate TellsWhenDone(s: State) {
    forall ss :: Completion(s, ss) ==> Tells(Latest(ss))
  }

  lemma OneLess<K, V>(m: map<K, V>, k: K)
    requires k in m
    ensures |m - {k}| == |m| - 1
  {
    assert (m - {k}).Keys == m.Keys - {k};
  }

  lemma OnlyKey<K, V>(m: map<K, V>, k: K)
    requires k in m && |m| <= 1
    ensures m.Keys == {k}
  {
    forall other | other in m ensures other == k {
      OnlyOne(m.Keys, other, k);
    }
  }

  lemma WalkLonger(walk: seq<Payload>, change: Change)
    requires EndsAt(walk, change.from)
    requires if change.from.None? then change.to == Pending else CanTransition(change.from.value, change.to)
    ensures EndsAt(walk + [Event(change)], Some(change.to))
  {
  }

  lemma BeginKeepsOrderly(s: State, step: Step)
    requires Sound(s) && Orderly(s) && step.Begin? && Enabled(s, step) && |Apply(s, step).changes| <= 1
    ensures Sound(Apply(s, step)) && Orderly(Apply(s, step))
  {
    assert s.changes == map[] by {
      assert Apply(s, step).changes - {step.c} == s.changes;
      OneLess(Apply(s, step).changes, step.c);
    }
  }

  lemma StepKeepsOrderly(s: State, step: Step)
    requires Numbered(s.rows) && Sound(s) && Orderly(s)
    requires Enabled(s, step) && !step.Lose? && |Apply(s, step).changes| <= 1
    ensures Sound(Apply(s, step)) && Orderly(Apply(s, step))
  {
    StepKeepsNumbering(s, step);
    match step
    case Begin(_, _, _) => BeginKeepsOrderly(s, step);
    case Emit(c) => {
      OnlyKey(s.changes, c);
      WalkLonger(Changes(s.rows), s.changes[c]);
    }
    case Write(c) => OnlyKey(s.changes, c);
    case Fail(c) => OnlyKey(s.changes, c);
    case Record(_) =>
  }

  lemma FinishInto(s: State, ss: seq<State>, i: nat) returns (step: Step)
    requires Completion(s, ss) && 0 < i < |ss|
    ensures Enabled(ss[i - 1], step) && !step.Begin? && !step.Lose? && Apply(ss[i - 1], step) == ss[i]
  {
    assert Finished(ss, i - 1) && Finishes(ss[i - 1], ss[i]);
    step :| Enabled(ss[i - 1], step) && !step.Begin? && !step.Lose? && Apply(ss[i - 1], step) == ss[i];
  }

  lemma {:induction false} OrderlyTells(s: State, ss: seq<State>, i: nat)
    requires Numbered(s.rows) && Sound(s) && Orderly(s) && Completion(s, ss) && i < |ss|
    ensures Numbered(ss[i].rows) && Sound(ss[i]) && Orderly(ss[i])
  {
    if i > 0 {
      OrderlyTells(s, ss, i - 1);
      var step := FinishInto(s, ss, i);
      StepKeepsNumbering(ss[i - 1], step);
      FinishingAddsNobody(ss[i - 1], step);
      StepKeepsOrderly(ss[i - 1], step);
    }
  }

  lemma FinishingAddsNobody(s: State, step: Step)
    requires Enabled(s, step) && !step.Begin?
    ensures |Apply(s, step).changes| <= |s.changes|
  {
    if step.Write? {
      assert Apply(s, step).changes.Keys == s.changes.Keys;
    } else if !step.Record? {
      OneLess(s.changes, step.c);
    }
  }

  // ---- What goes wrong otherwise ----

  lemma DoneLater(s: State, step: Step)
    requires Enabled(s, step) && !step.Begin? && !step.Lose? && TellsWhenDone(s)
    ensures TellsWhenDone(Apply(s, step))
  {
    var s' := Apply(s, step);
    forall ss | Completion(s', ss) ensures Tells(Latest(ss)) {
      var longer := [s] + ss;
      assert Finishes(s, s');
      forall i | 0 <= i < |longer| - 1 ensures Finished(longer, i) {
        assert i > 0 ==> Finished(ss, i - 1);
      }
      assert Completion(s, longer) && Latest(longer) == Latest(ss);
    }
  }

  lemma DoneNow(s: State)
    requires TellsWhenDone(s) && s.changes == map[]
    ensures Tells(s)
  {
    assert Completion(s, [s]);
  }

  lemma WalkOn(walk: seq<Payload>, a: Payload, b: Payload)
    requires IsPath(walk + [a] + [b])
    ensures a.StateChange? && a.from == if walk == [] then None else Some(walk[|walk| - 1].to)
    ensures b.StateChange? && b.from == Some(a.to) && a.to != b.to
  {
    var n, ab := |walk|, walk + [a] + [b];
    assert ab[n] == a && ab[n + 1] == b && (n > 0 ==> ab[n - 1] == walk[n - 1]);
  }

  /** Two events cannot continue one walk in both orders: no status leads to itself. */
  lemma NotBothOrders(walk: seq<Payload>, a: Payload, b: Payload)
    requires IsPath(walk + [a] + [b])
    ensures !IsPath(walk + [b] + [a])
  {
    WalkOn(walk, a, b);
    if IsPath(walk + [b] + [a]) {
      WalkOn(walk, b, a);
    }
  }

  /** Two requests that have both written append their events in either order. */
  lemma TwoWrittenClash(s: State, a: nat, b: nat)
    requires Numbered(s.rows) && s.changes.Keys == {a, b} && a != b
    requires s.changes[a].written && s.changes[b].written
    ensures !TellsWhenDone(s)
  {
    if TellsWhenDone(s) {
      BothEmit(s, a, b);
      BothEmit(s, b, a);
      NotBothOrders(Changes(s.rows), Event(s.changes[a]), Event(s.changes[b]));
    }
  }

  lemma BothEmit(s: State, a: nat, b: nat)
    requires Numbered(s.rows) && s.changes.Keys == {a, b} && a != b
    requires s.changes[a].written && s.changes[b].written && TellsWhenDone(s)
    ensures IsPath(Changes(s.rows) + [Event(s.changes[a])] + [Event(s.changes[b])])
  {
    var one := Apply(s, Emit(a));
    var two := Apply(one, Emit(b));
    StepKeepsNumbering(s, Emit(a));
    StepKeepsNumbering(one, Emit(b));
    DoneLater(s, Emit(a));
    DoneLater(one, Emit(b));
    assert two.changes == map[];
    DoneNow(two);
  }

  lemma TwoClash(s: State, a: nat, b: nat)
    requires Numbered(s.rows) && s.changes.Keys == {a, b} && a != b
    ensures !TellsWhenDone(s)
  {
    if TellsWhenDone(s) {
      var s1 := AfterWrite(s, a);
      var s2 := AfterWrite(s1, b);
      TwoWrittenClash(s2, a, b);
    }
  }

  lemma AfterWrite(s: State, c: nat) returns (s': State)
    requires Numbered(s.rows) && c in s.changes && TellsWhenDone(s)
    ensures Numbered(s'.rows) && s'.changes.Keys == s.changes.Keys && TellsWhenDone(s')
    ensures s'.changes[c].written && forall d :: d in s.changes && s.changes[d].written ==> s'.changes[d].written
  {
    s' := s;
    if !s.changes[c].written {
      DoneLater(s, Write(c));
      s' := Apply(s, Write(c));
    }
  }

  /** With two or more requests under way, the others finish first and the last two clash. */
  lemma {:induction false} ManyClash(s: State, a: nat, b: nat)
    requires Numbered(s.rows) && a in s.changes && b in s.changes && a != b
    ensures !TellsWhenDone(s)
    decreases |s.changes|
  {
    if s.changes.Keys == {a, b} {
      TwoClash(s, a, b);
    } else {
      var c :| c in s.changes.Keys && c !in {a, b};
      var step := if s.changes[c].written then Emit(c) else Fail(c);
      OneLess(s.changes, c);
      StepKeepsNumbering(s, step);
      ManyClash(Apply(s, step), a, b);
      if TellsWhenDone(s) {
        DoneLater(s, step);
      }
    }
  }

  lemma LastOfWalk(walk: seq<Payload>, change: Change)
    requires IsPath(walk + [Event(change)])
    ensures EndsAt(walk, change.from)
  {
    var longer := walk + [Event(change)];
    assert longer[|walk|] == Event(change);
    if walk != [] {
      assert longer[|walk| - 1] == walk[|walk| - 1] && longer[0] == walk[0];
      assert forall i :: 0 <= i < |walk| ==> longer[i] == walk[i];
      assert forall c :: c in walk ==> c in longer;
    }
  }

  lemma OneUnderWay(s: State, c: nat)
    requires Numbered(s.rows) && Sound(s) && s.changes.Keys == {c} && TellsWhenDone(s)
    ensures Orderly(s)
  {
    var s1 := s;
    if !s.changes[c].written {
      DoneLater(s, Fail(c));
      assert Apply(s, Fail(c)).changes == map[];
      DoneNow(Apply(s, Fail(c)));
      DoneLater(s, Write(c));
      s1 := Apply(s, Write(c));
    }
    assert s1.changes.Keys == {c} && s1.rows == s.rows;
    var s2 := Apply(s1, Emit(c));
    StepKeepsNumbering(s1, Emit(c));
    DoneLater(s1, Emit(c));
    assert s2.changes == map[];
    DoneNow(s2);
    LastOfWalk(Changes(s.rows), s1.changes[c]);
    assert |s.changes| == |s.changes.Keys|;
  }

  /**
   * However the requests under way finish, the log then tells the run's life, exactly when there is none and
   * it tells it now, or just one, which started where the log ends and whose write the row still holds.
   */
  lemma TellsWhenDoneIff(ss: seq<State>)
    requires History(ss)
    ensures TellsWhenDone(Latest(ss)) <==> Orderly(Latest(ss))
  {
    var s := Latest(ss);
    NumberedAlways(ss, |ss| - 1);
    if Orderly(s) {
      forall more | Completion(s, more) ensures Tells(Latest(more)) {
        OrderlyTells(s, more, |more| - 1);
      }
    } else if TellsWhenDone(s) {
      if s.changes == map[] {
        DoneNow(s);
      } else {
        var a :| a in s.changes.Keys;
        if s.changes.Keys == {a} {
          OneUnderWay(s, a);
        } else {
          var b :| b in s.changes.Keys && b != a;
          ManyClash(s, a, b);
        }
      }
    }
  }

  lemma CreatedIsOrderly()
    ensures Orderly(CREATED) && CREATED.changes != map[]
  {
    assert CREATED.changes.Keys == {0} && |CREATED.changes| == |CREATED.changes.Keys|;
  }

  /** When status changes of the run do not overlap and no event is lost, its log tells its life. */
  lemma {:induction false} SerialChangesTell(ss: seq<State>, i: nat)
    requires History(ss) && i < |ss|
    requires forall j :: 0 <= j < |ss| ==> |ss[j].changes| <= 1 && !ss[j].lost
    ensures Sound(ss[i]) && Numbered(ss[i].rows) && Orderly(ss[i]) && (ss[i].changes == map[] ==> Tells(ss[i]))
  {
    if i == 0 {
      CreatedIsOrderly();
    } else {
      SerialChangesTell(ss, i - 1);
      var step := StepInto(ss, i);
      assert |ss[i].changes| <= 1 && !ss[i].lost;
      StepKeepsNumbering(ss[i - 1], step);
      StepKeepsOrderly(ss[i - 1], step);
    }
  }

  lemma EmitBoth(ss: seq<State>, a: nat, b: nat) returns (ss': seq<State>)
    requires History(ss) && Latest(ss).changes.Keys == {a, b} && a != b
    requires Latest(ss).changes[a].written && Latest(ss).changes[b].written
    ensures History(ss') && Latest(ss').changes == map[] && Latest(ss').status == Latest(ss).status
    ensures Changes(Latest(ss').rows) ==
            Changes(Latest(ss).rows) + [Event(Latest(ss).changes[a])] + [Event(Latest(ss).changes[b])]
  {
    var s := Latest(ss);
    NumberedAlways(ss, |ss| - 1);
    StepKeepsNumbering(s, Emit(a));
    StepKeepsNumbering(Apply(s, Emit(a)), Emit(b));
    ss' := Proceed(ss, Emit(a));
    ss' := Proceed(ss', Emit(b));
  }

  /** Both have read "pending"; the cancellation writes first. */
  lemma BothWrite() returns (ss: seq<State>)
    ensures History(ss) && Latest(ss).status == Scheduled
    ensures Latest(ss).rows == Append([], Event(CREATED.changes[0]))
    ensures Latest(ss).changes ==
            map[1 := Change(Some(Pending), Scheduled, None, true), 2 := Change(Some(Pending), Cancelled, None, true)]
  {
    ss := Proceed([CREATED], Emit(0));
    ss := Proceed(ss, Begin(1, Scheduled, None));
    ss := Proceed(ss, Begin(2, Cancelled, None));
    ss := Proceed(ss, Write(2));
    ss := Proceed(ss, Write(1));
  }

  /** Scheduling and cancelling overlap: the row ends scheduled under a log that ends with a cancellation. */
  lemma ScheduledAfterItsLogSaysCancelled() returns (ss: seq<State>)
    ensures History(ss) && Latest(ss).changes == map[] && Latest(ss).status == Scheduled
    ensures |Changes(Latest(ss).rows)| == 3
    ensures Changes(Latest(ss).rows)[2] == StateChange(Some(Pending), Cancelled, None)
  {
    ss := BothWrite();
    var created := Event(CREATED.changes[0]);
    AppendKeepsNumbering([], created);
    ss := EmitBoth(ss, 1, 2);
  }
}
