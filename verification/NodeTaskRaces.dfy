/**
 One task row under handlers that race.

 NodeTaskRuns takes every handler as one step.  In the source only the node's failure report
 is one: a conditional UPDATE (app/api/node_updates.py:198-216).  The others read the row,
 decide, and later write back the columns they changed, by primary key.  This module lets
 any handlers overlap between read and write, and proves exactly when the end of a task is
 then still final.
 */
module NodeTaskRaces {
  import opened Options
  import opened NodeTasks
  import opened NodeTaskRuns
  import opened Runs

  /** A session that has read `seen` and is going to write what differs in `after`. */
  datatype Write = Write(seen: Task, after: Task)

  datatype World = World(row: Task, outstanding: seq<Write>)

  /** `Read` starts any handler but the report; `Land` commits the k-th outstanding write. */
  datatype Move =
    | Report(nodeId: string, error: Option<string>)
    | Read(nodes: map<string, Node>, event: Event)
    | Land(k: nat)

  /** What a handler would make of the row if it ran alone. */
  function Alone(nodes: map<string, Node>, row: Task, e: Event, now: Time): Task {
    Step(Store(nodes, [row]), e, now).tasks[0]
  }

  /** Only a column that the session changed is written. */
  function Column<T(==)>(stored: T, seen: T, after: T): T {
    if seen == after then stored else after
  }

  function Landed(row: Task, w: Write): Task {
    row.(state := Column(row.state, w.seen.state, w.after.state),
         error := Column(row.error, w.seen.error, w.after.error),
         finishedAt := Column(row.finishedAt, w.seen.finishedAt, w.after.finishedAt),
         updatedAt := Column(row.updatedAt, w.seen.updatedAt, w.after.updatedAt))
  }

  function Next(w: World, m: Move, now: Time): World {
    match m
    case Report(nodeId, error) => w.(row := Alone(map[], w.row, FailureReported(nodeId, 0, error), now))
    case Read(nodes, e) =>
      var after := Alone(nodes, w.row, e, now);
      if e.FailureReported? || after == w.row then w
      else w.(outstanding := w.outstanding + [Write(w.row, after)])
    case Land(k) =>
      if k >= |w.outstanding| then w
      else World(Landed(w.row, w.outstanding[k]), w.outstanding[..k] + w.outstanding[k + 1..])
  }

  /** A run: the worlds before, between and after its moves. */
  ghost predicate Run(worlds: seq<World>, run: seq<Timed<Move>>) {
    |worlds| == |run| + 1 && forall n :: 0 <= n < |run| ==> Follows(worlds, run, n)
  }

  ghost predicate Follows(worlds: seq<World>, run: seq<Timed<Move>>, n: nat)
    requires n < |run| && |worlds| == |run| + 1
  {
    worlds[n + 1] == Next(worlds[n], run[n].event, run[n].at)
  }

  /** A task that nobody is working on. */
  function Idle(row: Task): World {
    World(row, [])
  }

  // ---------------------------------------------------------------- one step

  /** Alone, a handler never changes a finished row, and never lowers the rank. */
  lemma {:induction false} AloneEvolves(nodes: map<string, Node>, row: Task, e: Event, now: Time)
    ensures Evolves(row, Alone(nodes, row, e, now), now)
  {
    StepEvolves(Store(nodes, [row]), e, now);
  }

  // ---------------------------------------------------------------- who can touch a finished row

  /** Alone, the move changes no finished row: a report, the start of any handler, or a landing of nothing. */
  lemma {:induction false} OnlyLandingsChangeTheEnd(w: World, m: Move, now: Time)
    requires w.row.state.Terminal() && Next(w, m, now).row != w.row
    ensures m.Land? && m.k < |w.outstanding| && Next(w, m, now).row == Landed(w.row, w.outstanding[m.k])
  {
    if m.Report? {
      AloneEvolves(map[], w.row, FailureReported(m.nodeId, 0, m.error), now);
    }
  }

  /** Move r read the row, still open, and decided on this write. */
  ghost predicate Decides(worlds: seq<World>, run: seq<Timed<Move>>, r: nat, w: Write)
    requires r < |run| && |worlds| == |run| + 1
  {
    && run[r].event.Read? && !worlds[r].row.state.Terminal() && w.seen == worlds[r].row
    && w.after == Alone(run[r].event.nodes, w.seen, run[r].event.event, run[r].at)
  }

  lemma {:induction false} NewWritesAreDecided(w: World, m: Move, now: Time, x: Write)
    requires x in Next(w, m, now).outstanding && x !in w.outstanding
    ensures m.Read? && !w.row.state.Terminal()
    ensures x == Write(w.row, Alone(m.nodes, w.row, m.event, now))
  {
    if m.Read? {
      AloneEvolves(m.nodes, w.row, m.event, now);
    }
  }

  /** Whatever overlaps, every outstanding write was decided by an earlier read of the open row. */
  lemma {:induction false} WritesAreDecided(worlds: seq<World>, run: seq<Timed<Move>>, n: nat, x: Write)
    requires Run(worlds, run) && worlds[0].outstanding == [] && n <= |run| && x in worlds[n].outstanding
    ensures exists r :: 0 <= r < n && Decides(worlds, run, r, x)
  {
    if n == 0 {
    } else {
      var w := worlds[n - 1];
      assert Follows(worlds, run, n - 1);
      if x in w.outstanding {
        WritesAreDecided(worlds, run, n - 1, x);
      } else {
        NewWritesAreDecided(w, run[n - 1].event, run[n - 1].at, x);
        assert Decides(worlds, run, n - 1, x);
      }
    }
  }

  /**
   In any run of overlapping handlers that began with nobody at work: if a task has been
   finished since event e and event n changes its row, then event n lands a write that some
   handler decided on before e, when it read the row still open.  No report, and no handler
   that started after the end, can do it.
   */
  lemma {:induction false} OnlyStaleWritesClobber(worlds: seq<World>, run: seq<Timed<Move>>, e: nat, n: nat)
    requires Run(worlds, run) && worlds[0].outstanding == []
    requires e <= n < |run| && forall i :: e <= i <= n ==> worlds[i].row.state.Terminal()
    requires worlds[n + 1].row != worlds[n].row
    ensures var w, m := worlds[n], run[n].event;
            && m.Land? && m.k < |w.outstanding| && worlds[n + 1].row == Landed(w.row, w.outstanding[m.k])
            && exists r :: 0 <= r < e && Decides(worlds, run, r, w.outstanding[m.k])
  {
    assert Follows(worlds, run, n);
    OnlyLandingsChangeTheEnd(worlds[n], run[n].event, run[n].at);
    var x := worlds[n].outstanding[run[n].event.k];
    WritesAreDecided(worlds, run, n, x);
    var r :| 0 <= r < n && Decides(worlds, run, r, x);
    assert !worlds[r].row.state.Terminal();
  }

  // ---------------------------------------------------------------- when the end is final

  /** No outstanding write would change the row. */
  ghost predicate Harmless(w: World) {
    forall k :: 0 <= k < |w.outstanding| ==> Landed(w.row, w.outstanding[k]) == w.row
  }

  /** Whatever still happens, the row stays as it is. */
  ghost predicate Final(w: World) {
    forall worlds: seq<World>, run: seq<Timed<Move>> :: Run(worlds, run) && worlds[0] == w ==> StaysAs(worlds, w.row)
  }

  ghost predicate StaysAs(worlds: seq<World>, row: Task) {
    forall i :: 0 <= i < |worlds| ==> worlds[i].row == row
  }

  lemma {:induction false} HarmlessNext(w: World, m: Move, now: Time)
    requires w.row.state.Terminal() && Harmless(w)
    ensures Next(w, m, now).row == w.row && Harmless(Next(w, m, now))
  {
    match m
    case Report(nodeId, error) => AloneEvolves(map[], w.row, FailureReported(nodeId, 0, error), now);
    case Read(nodes, e) => AloneEvolves(nodes, w.row, e, now);
    case Land(k) =>
  }

  lemma {:induction false} HarmlessForever(worlds: seq<World>, run: seq<Timed<Move>>, n: nat)
    requires Run(worlds, run) && n < |worlds| && worlds[0].row.state.Terminal() && Harmless(worlds[0])
    ensures worlds[n].row == worlds[0].row && Harmless(worlds[n])
  {
    if n == 0 {
    } else {
      HarmlessForever(worlds, run, n - 1);
      assert Follows(worlds, run, n - 1);
      HarmlessNext(worlds[n - 1], run[n - 1].event, run[n - 1].at);
    }
  }

  /**
   A finished task stays as it is in every continuation, with any reports, cancels,
   heartbeats and sweeps, if and only if no write that is already under way would change it.
   In particular the end is final once no session that read the open row is left.
   */
  lemma {:induction false} TheEndIsFinalExactlyWithoutStaleWrites(w: World)
    requires w.row.state.Terminal()
    ensures Final(w) <==> Harmless(w)
  {
    if Harmless(w) {
      forall worlds: seq<World>, run: seq<Timed<Move>> | Run(worlds, run) && worlds[0] == w
        ensures StaysAs(worlds, w.row)
      {
        forall i | 0 <= i < |worlds| ensures worlds[i].row == w.row {
          HarmlessForever(worlds, run, i);
        }
      }
    } else {
      var k :| 0 <= k < |w.outstanding| && Landed(w.row, w.outstanding[k]) != w.row;
      var run := [Timed(Land(k), 0)];
      var worlds := [w, Next(w, Land(k), 0)];
      assert Follows(worlds, run, 0);
      assert Run(worlds, run) && worlds[1].row != w.row;
    }
  }

  // ---------------------------------------------------------------- when nobody interferes

  /** Every write lands on the very row it was decided on. */
  ghost predicate RaceFree(worlds: seq<World>, run: seq<Timed<Move>>)
    requires |worlds| == |run| + 1
  {
    forall i :: 0 <= i < |run| ==> LandsUncontended(worlds[i], run[i].event)
  }

  predicate LandsUncontended(w: World, m: Move) {
    m.Land? && m.k < |w.outstanding| ==> w.outstanding[m.k].seen == w.row
  }

  /** Every outstanding write is what some handler makes of the row it read. */
  ghost predicate Decided(w: World) {
    forall k :: 0 <= k < |w.outstanding| ==> DecidedWrite(w.outstanding[k])
  }

  ghost predicate DecidedWrite(w: Write) {
    exists at :: Evolves(w.seen, w.after, at)
  }

  lemma {:induction false} DecidedNext(w: World, m: Move, now: Time)
    requires Decided(w)
    ensures Decided(Next(w, m, now))
  {
    if m.Read? {
      var after := Alone(m.nodes, w.row, m.event, now);
      AloneEvolves(m.nodes, w.row, m.event, now);
      assert DecidedWrite(Write(w.row, after));
    }
  }

  lemma {:induction false} LandedOnItsRow(w: Write)
    requires DecidedWrite(w)
    ensures Landed(w.seen, w) == w.after
  {}

  lemma {:induction false} StaysDecided(worlds: seq<World>, run: seq<Timed<Move>>, n: nat)
    requires Run(worlds, run) && worlds[0].outstanding == [] && n < |worlds|
    ensures Decided(worlds[n])
  {
    if n == 0 {
    } else {
      StaysDecided(worlds, run, n - 1);
      assert Follows(worlds, run, n - 1);
      DecidedNext(worlds[n - 1], run[n - 1].event, run[n - 1].at);
    }
  }

  /** From one row to a later one no rank falls, and an end is final. */
  predicate KeepsTheEnd(before: Task, after: Task) {
    before.state.Rank() <= after.state.Rank() && (before.state.Terminal() ==> after == before)
  }

  lemma {:induction false} UncontendedStep(w: World, m: Move, now: Time)
    requires Decided(w) && LandsUncontended(w, m)
    ensures KeepsTheEnd(w.row, Next(w, m, now).row)
  {
    if m.Report? {
      AloneEvolves(map[], w.row, FailureReported(m.nodeId, 0, m.error), now);
    } else if m.Land? && m.k < |w.outstanding| {
      LandedOnItsRow(w.outstanding[m.k]);
    }
  }

  /** Without races, overlapping sessions keep what atomic handlers keep: no rank falls, and every end is final. */
  lemma {:induction false} RaceFreeRunsKeepTheEnd(worlds: seq<World>, run: seq<Timed<Move>>, m: nat, n: nat)
    requires Run(worlds, run) && worlds[0].outstanding == [] && RaceFree(worlds, run) && m <= n < |worlds|
    ensures KeepsTheEnd(worlds[m].row, worlds[n].row)
    decreases n
  {
    if m == n {
    } else {
      RaceFreeRunsKeepTheEnd(worlds, run, m, n - 1);
      StaysDecided(worlds, run, n - 1);
      assert Follows(worlds, run, n - 1);
      UncontendedStep(worlds[n - 1], run[n - 1].event, run[n - 1].at);
    }
  }

  // ---------------------------------------------------------------- runs of two sessions

  /** Two handlers read the row one after the other, and their writes land in this order. */
  ghost predicate TwoSessions(worlds: seq<World>, run: seq<Timed<Move>>, a: Write, b: Write, first: nat) {
    && |worlds| == 5 && |run| == 4 && first < 2
    && worlds[0] == Idle(a.seen) && a.seen == b.seen
    && worlds[1] == World(a.seen, [a]) && worlds[2] == World(a.seen, [a, b])
    && run[2].event == Land(first) && run[3].event == Land(0)
    && worlds[3] == World(Landed(a.seen, if first == 0 then a else b), [if first == 0 then b else a])
    && worlds[4] == World(Landed(worlds[3].row, if first == 0 then b else a), [])
  }

  lemma {:induction false} ReadAdds(w: World, nodes: map<string, Node>, e: Event, now: Time, after: Task)
    requires Alone(nodes, w.row, e, now) == after != w.row && !e.FailureReported?
    ensures Next(w, Read(nodes, e), now) == World(w.row, w.outstanding + [Write(w.row, after)])
  {}

  /** A run goes on with one more move. */
  lemma {:induction false} RunGoesOn(worlds: seq<World>, run: seq<Timed<Move>>, m: Timed<Move>, w: World)
    requires Run(worlds, run) && w == Next(worlds[|run|], m.event, m.at)
    ensures Run(worlds + [w], run + [m])
  {
    var longer, moves := worlds + [w], run + [m];
    forall n | 0 <= n < |moves| ensures Follows(longer, moves, n) {
      if n < |run| {
        assert Follows(worlds, run, n);
      }
    }
  }

  lemma {:induction false} TwoReads(
      row: Task, nodes: map<string, Node>, e: Event, f: Event, s: Time, t: Time, x: Write, y: Write)
    returns (worlds: seq<World>, run: seq<Timed<Move>>)
    requires !e.FailureReported? && !f.FailureReported? && x.seen == y.seen == row
    requires Alone(nodes, row, e, s) == x.after != row && Alone(nodes, row, f, t) == y.after != row
    ensures Run(worlds, run) && |run| == 2 && worlds == [Idle(row), World(row, [x]), World(row, [x, y])]
  {
    var first, second := Timed(Read(nodes, e), s), Timed(Read(nodes, f), t);
    worlds, run := [Idle(row)], [];
    ReadAdds(Idle(row), nodes, e, s, x.after);
    assert [] + [x] == [x] && [x] + [y] == [x, y];
    RunGoesOn(worlds, run, first, World(row, [x]));
    worlds, run := worlds + [World(row, [x])], run + [first];
    ReadAdds(World(row, [x]), nodes, f, t, y.after);
    RunGoesOn(worlds, run, second, World(row, [x, y]));
    worlds, run := worlds + [World(row, [x, y])], run + [second];
  }

  lemma {:induction false} TwoSessionsRun(
      row: Task, nodes: map<string, Node>, e: Event, f: Event, s: Time, t: Time, x: Write, y: Write, first: nat)
    returns (worlds: seq<World>, run: seq<Timed<Move>>)
    requires first < 2 && !e.FailureReported? && !f.FailureReported? && x.seen == y.seen == row
    requires Alone(nodes, row, e, s) == x.after != row && Alone(nodes, row, f, t) == y.after != row
    ensures Run(worlds, run) && TwoSessions(worlds, run, x, y, first)
  {
    worlds, run := TwoReads(row, nodes, e, f, s, t, x, y);
    worlds, run := TwoLandings(worlds, run, x, y, first, t);
  }

  lemma {:induction false} TwoLandings(
      before: seq<World>, moves: seq<Timed<Move>>, x: Write, y: Write, first: nat, t: Time)
    returns (worlds: seq<World>, run: seq<Timed<Move>>)
    requires first < 2 && x.seen == y.seen && Run(before, moves) && |moves| == 2
    requires before == [Idle(x.seen), World(x.seen, [x]), World(x.seen, [x, y])]
    ensures Run(worlds, run) && TwoSessions(worlds, run, x, y, first)
  {
    var now, late := if first == 0 then x else y, if first == 0 then y else x;
    var third := World(Landed(x.seen, now), [late]);
    var last := World(Landed(third.row, late), []);
    RunGoesOn(before, moves, Timed(Land(first), t + 1), third);
    worlds, run := before + [third], moves + [Timed(Land(first), t + 1)];
    RunGoesOn(worlds, run, Timed(Land(0), t + 2), last);
    worlds, run := worlds + [last], run + [Timed(Land(0), t + 2)];
  }

  // ---------------------------------------------------------------- how often a task is handed out

  /** The write of a dispatch; the task is handed to its node when it lands. */
  predicate IsDispatch(w: Write) {
    w.seen.kind == Update && w.seen.state == Pending && w.after.state == Dispatched
  }

  /** Only a dispatch writes this. */
  lemma {:induction false} DispatchesComeFromHeartbeats(nodes: map<string, Node>, row: Task, e: Event, now: Time)
    requires IsDispatch(Write(row, Alone(nodes, row, e, now)))
    ensures e.DispatchEvent? && Dispatch(Store(nodes, [row]), e.nodeId, now).1 == Some(Payload(0, row.target))
  {
    OnlyDispatchActivates(Store(nodes, [row]), e, now, 0);
  }

  predicate Delivers(w: World, m: Move) {
    m.Land? && m.k < |w.outstanding| && IsDispatch(w.outstanding[m.k])
  }

  ghost predicate DeliversAt(worlds: seq<World>, run: seq<Timed<Move>>, n: nat)
    requires n < |run| && |worlds| == |run| + 1
  {
    Delivers(worlds[n], run[n].event)
  }

  ghost predicate DispatchUnderWay(w: World) {
    exists k: nat :: k < |w.outstanding| && IsDispatch(w.outstanding[k])
  }

  /** In some continuation the task is handed out. */
  ghost predicate CanDeliver(w: World) {
    exists worlds: seq<World>, run: seq<Timed<Move>>, n: nat ::
      Run(worlds, run) && worlds[0] == w && n < |run| && DeliversAt(worlds, run, n)
  }

  lemma {:induction false} NoDispatchNext(w: World, m: Move, now: Time)
    requires Decided(w) && w.row.state != Pending
    ensures Next(w, m, now).row.state != Pending
    ensures DispatchUnderWay(Next(w, m, now)) ==> DispatchUnderWay(w)
  {
    if m.Report? {
      AloneEvolves(map[], w.row, FailureReported(m.nodeId, 0, m.error), now);
    } else if m.Land? && m.k < |w.outstanding| {
      assert DecidedWrite(w.outstanding[m.k]);
    }
    if DispatchUnderWay(Next(w, m, now)) {
      var k: nat :| k < |Next(w, m, now).outstanding| && IsDispatch(Next(w, m, now).outstanding[k]);
      var x := Next(w, m, now).outstanding[k];
      assert x in w.outstanding;
    }
  }

  lemma {:induction false} NoDispatchForever(worlds: seq<World>, run: seq<Timed<Move>>, n: nat)
    requires Run(worlds, run) && n < |worlds|
    requires Decided(worlds[0]) && worlds[0].row.state != Pending && !DispatchUnderWay(worlds[0])
    ensures Decided(worlds[n]) && worlds[n].row.state != Pending && !DispatchUnderWay(worlds[n])
  {
    if n == 0 {
    } else {
      NoDispatchForever(worlds, run, n - 1);
      assert Follows(worlds, run, n - 1);
      DecidedNext(worlds[n - 1], run[n - 1].event, run[n - 1].at);
      NoDispatchNext(worlds[n - 1], run[n - 1].event, run[n - 1].at);
    }
  }

  /** Once a task is no longer pending it can be handed out again if and only if another dispatch is under way. */
  lemma {:induction false} DeliverableExactlyWhenUnderWay(w: World)
    requires Decided(w) && w.row.state != Pending
    ensures CanDeliver(w) <==> DispatchUnderWay(w)
  {
    if DispatchUnderWay(w) {
      var k: nat :| k < |w.outstanding| && IsDispatch(w.outstanding[k]);
      var worlds, run := [w, Next(w, Land(k), 0)], [Timed(Land(k), 0)];
      assert Follows(worlds, run, 0) && DeliversAt(worlds, run, 0);
      assert Run(worlds, run);
    } else if CanDeliver(w) {
      var worlds: seq<World>, run: seq<Timed<Move>>, n: nat :|
        Run(worlds, run) && worlds[0] == w && n < |run| && DeliversAt(worlds, run, n);
      NoDispatchForever(worlds, run, n);
      assert DispatchUnderWay(worlds[n]);
    }
  }

  lemma {:induction false} NotPendingAfterDelivery(worlds: seq<World>, run: seq<Timed<Move>>, m: nat)
    requires Run(worlds, run) && m < |run| && DeliversAt(worlds, run, m)
    ensures worlds[m + 1].row.state == Dispatched
  {
    assert Follows(worlds, run, m);
  }

  /** The write of a dispatch that read the row before event m. */
  ghost predicate ReadBefore(worlds: seq<World>, run: seq<Timed<Move>>, m: nat, x: Write)
    requires m < |run| && |worlds| == |run| + 1
  {
    IsDispatch(x) && exists r: nat :: r < m && Decides(worlds, run, r, x)
  }

  /**
   In any run of overlapping handlers a task that event m handed out can be handed out again if
   and only if another dispatch had read it before event m landed and has still to land.
   */
  lemma {:induction false} HandedOutAgainExactlyWhenReadBefore(worlds: seq<World>, run: seq<Timed<Move>>, m: nat)
    requires Run(worlds, run) && worlds[0].outstanding == [] && m < |run| && DeliversAt(worlds, run, m)
    ensures CanDeliver(worlds[m + 1]) <==> exists x :: x in worlds[m + 1].outstanding && ReadBefore(worlds, run, m, x)
  {
    var w := worlds[m + 1];
    StaysDecided(worlds, run, m + 1);
    NotPendingAfterDelivery(worlds, run, m);
    DeliverableExactlyWhenUnderWay(w);
    if k: nat :| k < |w.outstanding| && IsDispatch(w.outstanding[k]) {
      WritesAreDecided(worlds, run, m + 1, w.outstanding[k]);
      var r :| 0 <= r < m + 1 && Decides(worlds, run, r, w.outstanding[k]);
      assert r < m;
      assert ReadBefore(worlds, run, m, w.outstanding[k]);
    }
  }

  /** Two overlapping heartbeats of an idle node are both given the same update. */
  lemma {:induction false} OverlappingHeartbeatsGetTheSameUpdate() returns (worlds: seq<World>, run: seq<Timed<Move>>)
    ensures Run(worlds, run) && worlds[0] == Idle(QUEUED) && |run| == 4
    ensures DeliversAt(worlds, run, 2) && DeliversAt(worlds, run, 3)
  {
    var nodes, beat := map["node" := Node(false, true, None)], DispatchEvent("node");
    QueuedIsGiven(nodes, 1);
    QueuedIsGiven(nodes, 2);
    worlds, run := TwoSessionsRun(
      QUEUED, nodes, beat, beat, 1, 2, Write(QUEUED, Given(1)), Write(QUEUED, Given(2)), 0);
  }

  function Given(now: Time): Task {
    QUEUED.(state := Dispatched, updatedAt := now)
  }

  const QUEUED := Task("node", Update, Some("2"), Pending, None, 0, 0, None)

  lemma {:induction false} QueuedIsGiven(nodes: map<string, Node>, now: Time)
    requires nodes == map["node" := Node(false, true, None)]
    ensures Alone(nodes, QUEUED, DispatchEvent("node"), now) == Given(now)
  {
    assert Matches([QUEUED][0], "node", Update, {Pending});
  }

  // ---------------------------------------------------------------- a race that is lost

  const AT := DISPATCH_GRACE
  const RACED := Task("node", Update, Some("2"), Dispatched, None, 0, 0, None)

  lemma {:induction false} RacingHandlers()
    ensures Alone(map[], RACED, VersionReconciled("node", Some("1")), AT) ==
            RACED.(state := InProgress, updatedAt := AT)
    ensures Alone(map[], RACED, CancelEvent("node", 0), AT + 1) == Failing(RACED, "Cancelled by user", AT + 1)
  {}

  /**
   A heartbeat with the old version reads the dispatched task, the user cancels it, and then
   the heartbeat's write lands: the cancelled task is in progress again, with its end still
   recorded and its message still saying it was cancelled.
   */
  lemma {:induction false} StaleHeartbeatReopensACancelledTask() returns (worlds: seq<World>, run: seq<Timed<Move>>)
    ensures Run(worlds, run) && worlds[0] == Idle(RACED) && |run| == 4
    ensures var cancelled, reopened := worlds[3].row, worlds[4].row;
            && cancelled.state == Failed && cancelled.error == Some("Cancelled by user")
            && cancelled.finishedAt == Some(AT + 1)
            && reopened == cancelled.(state := InProgress, updatedAt := AT)
  {
    RacingHandlers();
    worlds, run := TwoSessionsRun(
      RACED, map[], VersionReconciled("node", Some("1")), CancelEvent("node", 0), AT, AT + 1,
      Write(RACED, RACED.(state := InProgress, updatedAt := AT)),
      Write(RACED, Failing(RACED, "Cancelled by user", AT + 1)), 1);
  }
}
