/**
 What every interleaving of the node-task handlers keeps.

 A run is any sequence of timed handler calls.  A heartbeat is taken apart into its three
 steps (note, reconcile, dispatch), so the results hold even when other handlers run
 between them.
 */
module NodeTaskRuns {
  import opened Options
  import opened NodeTasks
  import opened Runs

  datatype Event =
    | AddNode(nodeId: string)
    | RequestEvent(nodeId: string, resolved: Option<string>)
    | CancelEvent(nodeId: string, id: nat)
    | FailureReported(nodeId: string, id: nat, error: Option<string>)
    | HeartbeatNoted(nodeId: string, versionInfo: Option<Option<string>>, busy: Option<bool>)
    | VersionReconciled(nodeId: string, reported: Option<string>)
    | DispatchEvent(nodeId: string)
    | ResetEvent(nodeId: string, published: bool)
    | ResetReported(id: nat, tokenValid: bool, word: string, error: Option<string>)
    | SweepEvent

  function Step(s: Store, e: Event, now: Time): Store {
    match e
    case AddNode(n) => if n in s.nodes then s else s.(nodes := s.nodes[n := Node(false, true, None)])
    case RequestEvent(n, resolved) => RequestUpdate(s, n, resolved, now).0
    case CancelEvent(n, id) => Cancel(s, n, id, now).0
    case FailureReported(n, id, error) => ReportFailed(s, n, id, error, now).0
    case HeartbeatNoted(n, info, busy) => NoteHeartbeat(s, n, info, busy)
    case VersionReconciled(n, reported) => Reconcile(s, n, reported, now)
    case DispatchEvent(n) => Dispatch(s, n, now).0
    case ResetEvent(n, published) => CreateReset(s, n, published, now).0
    case ResetReported(id, valid, word, error) => ReportReset(s, id, valid, word, error, now).0
    case SweepEvent => Sweep(s, now)
  }

  const EMPTY := Store(map[], [])

  /** The tables after the first n events of a run that began with empty tables. */
  function After(run: seq<Timed<Event>>, n: nat): Store
    requires n <= |run|
  {
    if n == 0 then EMPTY else Step(After(run, n - 1), run[n - 1].event, run[n - 1].at)
  }

  // ------------------------------------------------------- how one row may change

  /**
   What any single step may do to a row: identity never changes, a terminal row never
   changes at all, the rank never falls, a step that touches an update task moves it
   strictly forward, and touching a row stamps it.
   */
  ghost predicate Evolves(before: Task, after: Task, now: Time) {
    && before.nodeId == after.nodeId && before.kind == after.kind
    && before.target == after.target && before.createdAt == after.createdAt
    && (before.state.Terminal() ==> after == before)
    && before.state.Rank() <= after.state.Rank()
    && (before.kind == Update && after != before ==> before.state.Rank() < after.state.Rank())
    && (after != before ==> after.updatedAt == now)
    && (after.state.Terminal() && !before.state.Terminal() ==> after.finishedAt == Some(now))
    && (!after.state.Terminal() ==> after.finishedAt == before.finishedAt)
  }

  /** A row as it enters the table. */
  ghost predicate Fresh(t: Task, now: Time) {
    && t.createdAt == t.updatedAt == now && t.finishedAt == None
    && (t.state == Pending || (t.state == Dispatched && t.kind == FactoryReset))
    && (t.kind == Update <==> t.target.Some?)
  }

  /** The rows of s are still there, each evolved, and at most one row was added. */
  ghost predicate TableEvolves(s: Store, t: Store, now: Time) {
    && |s.tasks| <= |t.tasks| <= |s.tasks| + 1
    && (forall i :: 0 <= i < |s.tasks| ==> Evolves(s.tasks[i], t.tasks[i], now))
    && (forall i :: |s.tasks| <= i < |t.tasks| ==> Fresh(t.tasks[i], now))
  }

  /** A handler that writes at most one row. */
  lemma {:induction false} OneRowEvolves(s: Store, t: Store, id: nat, row: Task, now: Time)
    requires id < |s.tasks| && t.tasks == s.tasks[id := row] && Evolves(s.tasks[id], row, now)
    ensures TableEvolves(s, t, now)
  {}

  lemma {:induction false} RequestsEvolve(
      s: Store, nodeId: string, resolved: Option<string>, published: bool, now: Time)
    ensures TableEvolves(s, RequestUpdate(s, nodeId, resolved, now).0, now)
    ensures TableEvolves(s, CreateReset(s, nodeId, published, now).0, now)
  {}

  lemma {:induction false} FailuresEvolve(s: Store, nodeId: string, id: nat, error: Option<string>, now: Time)
    ensures TableEvolves(s, Cancel(s, nodeId, id, now).0, now)
    ensures TableEvolves(s, ReportFailed(s, nodeId, id, error, now).0, now)
  {}

  lemma {:induction false} ReconcileEvolves(s: Store, nodeId: string, reported: Option<string>, now: Time)
    ensures TableEvolves(s, Reconcile(s, nodeId, reported, now), now)
  {
    var open := Newest(s.tasks, nodeId, Update, {Dispatched, InProgress});
    var t := Reconcile(s, nodeId, reported, now);
    if open.Some? && t != s {
      OneRowEvolves(s, t, open.value, t.tasks[open.value], now);
    }
  }

  lemma {:induction false} DispatchEvolves(s: Store, nodeId: string, now: Time)
    ensures TableEvolves(s, Dispatch(s, nodeId, now).0, now)
  {
    var next := Oldest(s.tasks, nodeId, Update, {Pending});
    var t := Dispatch(s, nodeId, now).0;
    if next.Some? && t != s {
      OneRowEvolves(s, t, next.value, t.tasks[next.value], now);
    }
  }

  lemma {:induction false} ResetReportEvolves(
      s: Store, id: nat, valid: bool, word: string, error: Option<string>, now: Time)
    ensures TableEvolves(s, ReportReset(s, id, valid, word, error, now).0, now)
  {
    var t := ReportReset(s, id, valid, word, error, now).0;
    if t != s {
      OneRowEvolves(s, t, id, t.tasks[id], now);
    }
  }

  lemma {:induction false} SweepEvolves(s: Store, now: Time)
    ensures TableEvolves(s, Sweep(s, now), now)
  {}

  lemma {:induction false} StepEvolves(s: Store, e: Event, now: Time)
    ensures |s.tasks| <= |Step(s, e, now).tasks| <= |s.tasks| + 1
    ensures forall i :: 0 <= i < |s.tasks| ==> Evolves(s.tasks[i], Step(s, e, now).tasks[i], now)
    ensures forall i :: |s.tasks| <= i < |Step(s, e, now).tasks| ==> Fresh(Step(s, e, now).tasks[i], now)
  {
    assert TableEvolves(s, Step(s, e, now), now) by {
      match e
      case AddNode(_) =>
      case RequestEvent(n, resolved) => RequestsEvolve(s, n, resolved, false, now);
      case CancelEvent(n, id) => FailuresEvolve(s, n, id, None, now);
      case FailureReported(n, id, error) => FailuresEvolve(s, n, id, error, now);
      case HeartbeatNoted(_, _, _) =>
      case VersionReconciled(n, reported) => ReconcileEvolves(s, n, reported, now);
      case DispatchEvent(n) => DispatchEvolves(s, n, now);
      case ResetEvent(n, published) => RequestsEvolve(s, n, None, published, now);
      case ResetReported(id, valid, word, error) => ResetReportEvolves(s, id, valid, word, error, now);
      case SweepEvent => SweepEvolves(s, now);
    }
  }

  lemma {:induction false} RowsPersist(run: seq<Timed<Event>>, m: nat, n: nat)
    requires m <= n <= |run|
    ensures |After(run, m).tasks| <= |After(run, n).tasks|
    decreases n
  {
    if m == n {
    } else {
      RowsPersist(run, m, n - 1);
      StepEvolves(After(run, n - 1), run[n - 1].event, run[n - 1].at);
    }
  }

  /**
   In every run: the rank of a task never falls, and once terminal its row never changes
   again, whichever handlers still touch it.
   */
  lemma {:induction false} RankNeverFalls(run: seq<Timed<Event>>, m: nat, n: nat, id: nat)
    requires m <= n <= |run| && id < |After(run, m).tasks|
    ensures id < |After(run, n).tasks|
    ensures After(run, m).tasks[id].state.Rank() <= After(run, n).tasks[id].state.Rank()
    ensures After(run, m).tasks[id].state.Terminal() ==> After(run, n).tasks[id] == After(run, m).tasks[id]
    ensures var before, after := After(run, m).tasks[id], After(run, n).tasks[id];
            before.nodeId == after.nodeId && before.kind == after.kind
            && before.target == after.target && before.createdAt == after.createdAt
    decreases n
  {
    if m == n {
    } else {
      RankNeverFalls(run, m, n - 1, id);
      StepEvolves(After(run, n - 1), run[n - 1].event, run[n - 1].at);
    }
  }

  /** An update task whose state is the same at two points of a run had the very same row throughout. */
  lemma {:induction false} UpdateRowsMoveOnlyForward(run: seq<Timed<Event>>, m: nat, n: nat, id: nat)
    requires m <= n <= |run| && id < |After(run, m).tasks| && After(run, m).tasks[id].kind == Update
    ensures id < |After(run, n).tasks|
    ensures After(run, n).tasks[id] == After(run, m).tasks[id]
         || After(run, m).tasks[id].state.Rank() < After(run, n).tasks[id].state.Rank()
    decreases n
  {
    if m == n {
    } else {
      UpdateRowsMoveOnlyForward(run, m, n - 1, id);
      RankNeverFalls(run, m, n - 1, id);
      StepEvolves(After(run, n - 1), run[n - 1].event, run[n - 1].at);
    }
  }

  // ------------------------------------------------------- invariants of the tables

  ghost predicate OneOpenPerKind(s: Store) {
    forall i, j :: 0 <= i < j < |s.tasks| && SameSlot(s.tasks[i], s.tasks[j]) ==>
      s.tasks[i].state.Terminal() || s.tasks[j].state.Terminal()
  }

  predicate SameSlot(a: Task, b: Task) {
    a.nodeId == b.nodeId && a.kind == b.kind
  }

  ghost predicate WasReset(s: Store, nodeId: string) {
    exists i :: 0 <= i < |s.tasks| && Matches(s.tasks[i], nodeId, FactoryReset, {Success})
  }

  ghost predicate InactiveExactlyByReset(s: Store) {
    forall n :: n in s.nodes ==> (!s.nodes[n].active <==> WasReset(s, n))
  }

  ghost predicate FinishedExactlyWhenTerminal(s: Store) {
    forall i :: 0 <= i < |s.tasks| ==> (s.tasks[i].finishedAt.Some? <==> s.tasks[i].state.Terminal())
  }

  ghost predicate RowsWellFormed(s: Store) {
    forall i :: 0 <= i < |s.tasks| ==>
      && s.tasks[i].nodeId in s.nodes
      && (s.tasks[i].kind == Update <==> s.tasks[i].target.Some?)
      && s.tasks[i].createdAt <= s.tasks[i].updatedAt
  }

  lemma {:induction false} OneOpenStep(s: Store, e: Event, now: Time)
    requires OneOpenPerKind(s)
    ensures OneOpenPerKind(Step(s, e, now))
  {
    StepEvolves(s, e, now);
    var t := Step(s, e, now);
    forall i, j | 0 <= i < j < |t.tasks| && t.tasks[i].nodeId == t.tasks[j].nodeId && t.tasks[i].kind == t.tasks[j].kind
      ensures t.tasks[i].state.Terminal() || t.tasks[j].state.Terminal()
    {
      assert Evolves(s.tasks[i], t.tasks[i], now);
      if j < |s.tasks| {
        assert Evolves(s.tasks[j], t.tasks[j], now);
      } else {
        // a row was added, so the guard of the request found no open one
        assert !Matches(s.tasks[i], t.tasks[j].nodeId, t.tasks[j].kind, OPEN);
      }
    }
  }

  /** A reset row turns successful only by the node's own report, which deactivates the node. */
  lemma {:induction false} ResetSuccessDeactivates(s: Store, e: Event, now: Time, i: nat)
    requires i < |Step(s, e, now).tasks| && (i < |s.tasks| ==> s.tasks[i].state != Success)
    requires Step(s, e, now).tasks[i].kind == FactoryReset && Step(s, e, now).tasks[i].state == Success
    ensures e.ResetReported? && i == e.id < |s.tasks|
    ensures s.tasks[i].nodeId in s.nodes ==>
              s.tasks[i].nodeId in Step(s, e, now).nodes && !Step(s, e, now).nodes[s.tasks[i].nodeId].active
  {}

  /** A node turns inactive only by such a report, and never turns active again. */
  lemma {:induction false} DeactivationIsReported(s: Store, e: Event, now: Time, n: string)
    requires n in Step(s, e, now).nodes
    ensures !Step(s, e, now).nodes[n].active && (n in s.nodes ==> s.nodes[n].active) ==>
              e.ResetReported? && e.id < |s.tasks| && Matches(Step(s, e, now).tasks[e.id], n, FactoryReset, {Success})
    ensures n in s.nodes && !s.nodes[n].active ==> !Step(s, e, now).nodes[n].active
  {}

  lemma {:induction false} InactiveStep(s: Store, e: Event, now: Time, n: string)
    requires RowsWellFormed(s) && n in Step(s, e, now).nodes
    requires n in s.nodes ==> (!s.nodes[n].active <==> WasReset(s, n))
    ensures !Step(s, e, now).nodes[n].active <==> WasReset(Step(s, e, now), n)
  {
    StepEvolves(s, e, now);
    DeactivationIsReported(s, e, now, n);
    var t := Step(s, e, now);
    if WasReset(s, n) {
      var i :| 0 <= i < |s.tasks| && Matches(s.tasks[i], n, FactoryReset, {Success});
      assert Evolves(s.tasks[i], t.tasks[i], now);
      assert Matches(t.tasks[i], n, FactoryReset, {Success});
    } else if WasReset(t, n) {
      var i :| 0 <= i < |t.tasks| && Matches(t.tasks[i], n, FactoryReset, {Success});
      assert i < |s.tasks| ==> Evolves(s.tasks[i], t.tasks[i], now) && !Matches(s.tasks[i], n, FactoryReset, {Success});
      ResetSuccessDeactivates(s, e, now, i);
    }
  }

  lemma {:induction false} RowsStep(s: Store, e: Event, now: Time)
    requires FinishedExactlyWhenTerminal(s) && RowsWellFormed(s)
    requires forall i :: 0 <= i < |s.tasks| ==> s.tasks[i].updatedAt <= now
    ensures FinishedExactlyWhenTerminal(Step(s, e, now)) && RowsWellFormed(Step(s, e, now))
    ensures forall i :: 0 <= i < |Step(s, e, now).tasks| ==> Step(s, e, now).tasks[i].updatedAt <= now
  {
    StepEvolves(s, e, now);
    var t := Step(s, e, now);
    assert s.nodes.Keys <= t.nodes.Keys;
    forall i | 0 <= i < |t.tasks|
      ensures t.tasks[i].finishedAt.Some? <==> t.tasks[i].state.Terminal()
      ensures t.tasks[i].nodeId in t.nodes && (t.tasks[i].kind == Update <==> t.tasks[i].target.Some?)
      ensures t.tasks[i].createdAt <= t.tasks[i].updatedAt <= now
    {
      assert i < |s.tasks| ==> Evolves(s.tasks[i], t.tasks[i], now);
    }
  }

  /**
   In every reachable state each node has at most one open task of each kind, finished_at
   is set exactly on the terminal rows, and a node is inactive if and only if one of its
   factory resets succeeded.
   */
  lemma {:induction false} TablesStayConsistent(run: seq<Timed<Event>>, n: nat)
    requires Chronological(run) && n <= |run|
    ensures OneOpenPerKind(After(run, n))
    ensures FinishedExactlyWhenTerminal(After(run, n))
    ensures InactiveExactlyByReset(After(run, n))
    ensures RowsWellFormed(After(run, n))
    ensures n > 0 ==> forall i :: 0 <= i < |After(run, n).tasks| ==> After(run, n).tasks[i].updatedAt <= run[n - 1].at
  {
    if n == 0 {
    } else {
      TablesStayConsistent(run, n - 1);
      var s, e, now := After(run, n - 1), run[n - 1].event, run[n - 1].at;
      assert n > 1 ==> run[n - 2].at <= now;
      OneOpenStep(s, e, now);
      forall node | node in Step(s, e, now).nodes
        ensures !Step(s, e, now).nodes[node].active <==> WasReset(Step(s, e, now), node)
      {
        InactiveStep(s, e, now, node);
      }
      RowsStep(s, e, now);
    }
  }

  // ------------------------------------------------------- deadlines

  /** The time of the last sweep among the first n events, or `start` before the first one. */
  function LastSweep(run: seq<Timed<Event>>, start: Time, n: nat): Time
    requires n <= |run|
  {
    if n == 0 then start
    else if run[n - 1].event == SweepEvent then run[n - 1].at
    else LastSweep(run, start, n - 1)
  }

  ghost predicate StartsAt(run: seq<Timed<Event>>, start: Time) {
    Chronological(run) && (run != [] ==> start <= run[0].at)
  }

  /** Whatever is still open was not yet overdue at the last sweep. */
  ghost predicate NotOverdueAt(t: Task, sweep: Time) {
    !t.state.Terminal() ==>
      && sweep <= t.createdAt + ANY_STATE_CEILING
      && (t.state == InProgress ==> sweep <= t.updatedAt + IN_PROGRESS_NO_PROGRESS)
  }

  lemma {:induction false} SweepIsRecent(run: seq<Timed<Event>>, start: Time, n: nat)
    requires StartsAt(run, start) && n <= |run|
    ensures start <= LastSweep(run, start, n)
    ensures n > 0 ==> LastSweep(run, start, n) <= run[n - 1].at
  {
    if n == 0 {
    } else {
      SweepIsRecent(run, start, n - 1);
      assert n > 1 ==> run[n - 2].at <= run[n - 1].at;
      assert start <= run[0].at <= run[n - 1].at;
    }
  }

  lemma {:induction false} OpenTasksWereOnTime(run: seq<Timed<Event>>, start: Time, n: nat)
    requires StartsAt(run, start) && n <= |run|
    ensures forall i :: 0 <= i < |After(run, n).tasks| ==>
            NotOverdueAt(After(run, n).tasks[i], LastSweep(run, start, n))
  {
    if n == 0 {
    } else {
      var s, e, now := After(run, n - 1), run[n - 1].event, run[n - 1].at;
      var t := Step(s, e, now);
      OpenTasksWereOnTime(run, start, n - 1);
      SweepIsRecent(run, start, n);
      SweepIsRecent(run, start, n - 1);
      StepEvolves(s, e, now);
      forall i | 0 <= i < |t.tasks| ensures NotOverdueAt(t.tasks[i], LastSweep(run, start, n)) {
        if i < |s.tasks| {
          assert Evolves(s.tasks[i], t.tasks[i], now);
          assert NotOverdueAt(s.tasks[i], LastSweep(run, start, n - 1));
        }
      }
    }
  }

  /**
   The ceiling: if the last sweep is at most `gap` ago at time `now`, every task created
   more than 15 minutes and `gap` ago is terminal, of either kind and in any run.
   */
  lemma {:induction false} NoTaskOutlivesTheCeiling(
      run: seq<Timed<Event>>, start: Time, n: nat, gap: Time, now: Time, id: nat)
    requires StartsAt(run, start) && n <= |run|
    requires now - LastSweep(run, start, n) <= gap
    requires id < |After(run, n).tasks|
    requires After(run, n).tasks[id].createdAt + 15 * 60 * 1_000_000 + gap < now
    ensures After(run, n).tasks[id].state.Terminal()
  {
    OpenTasksWereOnTime(run, start, n);
    assert NotOverdueAt(After(run, n).tasks[id], LastSweep(run, start, n));
  }

  /**
   The progress deadline: an update task that entered in_progress with event m is terminal
   10 minutes and `gap` later, however many heartbeats with the old version arrive meanwhile.
   */
  lemma {:induction false} NoInstallOutlivesItsProgressDeadline(
      run: seq<Timed<Event>>, start: Time, m: nat, n: nat, gap: Time, now: Time, id: nat)
    requires StartsAt(run, start) && m < n <= |run|
    requires id < |After(run, m).tasks| && After(run, m).tasks[id].kind == Update
    requires id < |After(run, m + 1).tasks|
    requires After(run, m).tasks[id].state != InProgress && After(run, m + 1).tasks[id].state == InProgress
    requires now - LastSweep(run, start, n) <= gap
    requires run[m].at + 10 * 60 * 1_000_000 + gap < now
    ensures id < |After(run, n).tasks| && After(run, n).tasks[id].state.Terminal()
  {
    EnteringIsStamped(After(run, m), run[m].event, run[m].at, id);
    NoInstallOutlivesItsStamp(run, start, m + 1, n, gap, now, id);
  }

  lemma {:induction false} EnteringIsStamped(s: Store, e: Event, at: Time, id: nat)
    requires id < |s.tasks| && id < |Step(s, e, at).tasks|
    requires s.tasks[id].state != InProgress && Step(s, e, at).tasks[id].state == InProgress
    ensures Step(s, e, at).tasks[id].kind == s.tasks[id].kind && Step(s, e, at).tasks[id].updatedAt == at
  {
    StepEvolves(s, e, at);
    assert Evolves(s.tasks[id], Step(s, e, at).tasks[id], at);
  }

  lemma {:induction false} NoInstallOutlivesItsStamp(
      run: seq<Timed<Event>>, start: Time, m: nat, n: nat, gap: Time, now: Time, id: nat)
    requires StartsAt(run, start) && m <= n <= |run| && id < |After(run, m).tasks|
    requires After(run, m).tasks[id].kind == Update && After(run, m).tasks[id].state == InProgress
    requires now - LastSweep(run, start, n) <= gap
    requires After(run, m).tasks[id].updatedAt + IN_PROGRESS_NO_PROGRESS + gap < now
    ensures id < |After(run, n).tasks| && After(run, n).tasks[id].state.Terminal()
  {
    UpdateRowsMoveOnlyForward(run, m, n, id);
    OpenTasksWereOnTime(run, start, n);
    assert NotOverdueAt(After(run, n).tasks[id], LastSweep(run, start, n));
  }

  /** What happens to an update whose installer dies, step by step. */
  function Queued(nodeId: string): Task {
    Task(nodeId, Update, Some("2"), Pending, None, 0, 0, None)
  }

  const IDLE_NODE := Node(false, true, None)

  lemma {:induction false} QueuedIsDispatched(nodeId: string)
    ensures Step(Store(map[nodeId := IDLE_NODE], [Queued(nodeId)]), DispatchEvent(nodeId), 0)
         == Store(map[nodeId := IDLE_NODE], [Queued(nodeId).(state := Dispatched)])
  {
    assert Matches([Queued(nodeId)][0], nodeId, Update, {Pending});
  }

  lemma {:induction false} DispatchedIsBegun(nodeId: string)
    ensures Step(Store(map[nodeId := IDLE_NODE], [Queued(nodeId).(state := Dispatched)]),
                 VersionReconciled(nodeId, Some("1")), DISPATCH_GRACE)
         == Store(map[nodeId := IDLE_NODE], [Queued(nodeId).(state := InProgress, updatedAt := DISPATCH_GRACE)])
  {
    assert Matches([Queued(nodeId).(state := Dispatched)][0], nodeId, Update, {Dispatched, InProgress});
  }

  lemma {:induction false} FirstTwoSteps(nodeId: string)
    ensures Step(EMPTY, AddNode(nodeId), 0) == Store(map[nodeId := IDLE_NODE], [])
    ensures Step(Store(map[nodeId := IDLE_NODE], []), RequestEvent(nodeId, Some("2")), 0)
         == Store(map[nodeId := IDLE_NODE], [Queued(nodeId)])
  {}

  lemma {:induction false} AfterOneMore(run: seq<Timed<Event>>, n: nat, s: Store, t: Store)
    requires n < |run| && After(run, n) == s && Step(s, run[n].event, run[n].at) == t
    ensures After(run, n + 1) == t
  {}

  const TOO_LATE := DISPATCH_GRACE + IN_PROGRESS_NO_PROGRESS + 1

  /**
   An install that dies: requested, handed out, seen with the old version after the grace
   period, and swept past its deadline.
   */
  function DeadInstall(nodeId: string): seq<Timed<Event>> {
    [Timed(AddNode(nodeId), 0), Timed(RequestEvent(nodeId, Some("2")), 0), Timed(DispatchEvent(nodeId), 0),
     Timed(VersionReconciled(nodeId, Some("1")), DISPATCH_GRACE), Timed(SweepEvent, TOO_LATE)]
  }

  lemma {:induction false} DeadInstallIsHandedOut(nodeId: string)
    ensures After(DeadInstall(nodeId), 3) == Store(map[nodeId := IDLE_NODE], [Queued(nodeId).(state := Dispatched)])
  {
    var run, nodes := DeadInstall(nodeId), map[nodeId := IDLE_NODE];
    FirstTwoSteps(nodeId);
    AfterOneMore(run, 0, EMPTY, Store(nodes, []));
    AfterOneMore(run, 1, Store(nodes, []), Store(nodes, [Queued(nodeId)]));
    QueuedIsDispatched(nodeId);
    AfterOneMore(run, 2, Store(nodes, [Queued(nodeId)]), Store(nodes, [Queued(nodeId).(state := Dispatched)]));
  }

  lemma {:induction false} SweepFailsIt(nodeId: string)
    ensures var s :=
            Store(map[nodeId := IDLE_NODE], [Queued(nodeId).(state := InProgress, updatedAt := DISPATCH_GRACE)]);
            |Sweep(s, TOO_LATE).tasks| == 1 && Sweep(s, TOO_LATE).tasks[0].state == Failed
  {}

  lemma {:induction false} DeadInstallIsSweptOnce(nodeId: string)
    ensures StartsAt(DeadInstall(nodeId), 0) && LastSweep(DeadInstall(nodeId), 0, 5) == TOO_LATE
  {
    assert LastSweep(DeadInstall(nodeId), 0, 4 + 1) == DeadInstall(nodeId)[4].at;
  }

  /** The states the run goes through. */
  lemma {:induction false} DeadInstallIsBegun(nodeId: string)
    ensures After(DeadInstall(nodeId), 4)
         == Store(map[nodeId := IDLE_NODE], [Queued(nodeId).(state := InProgress, updatedAt := DISPATCH_GRACE)])
  {
    DeadInstallIsHandedOut(nodeId);
    DispatchedIsBegun(nodeId);
  }

  /** The deadline of an install is met by a real run: this one begins an install, and its only sweep fails it. */
  lemma {:induction false} ADeadInstallIsFailedByTheSweep(nodeId: string)
    ensures var run := DeadInstall(nodeId);
            && StartsAt(run, 0) && LastSweep(run, 0, 5) == TOO_LATE
            && After(run, 3).tasks == [Queued(nodeId).(state := Dispatched)]
            && After(run, 4).tasks == [Queued(nodeId).(state := InProgress, updatedAt := DISPATCH_GRACE)]
            && run[3].at + IN_PROGRESS_NO_PROGRESS < TOO_LATE
            && |After(run, 5).tasks| == 1 && After(run, 5).tasks[0].state == Failed
  {
    var begun := Store(map[nodeId := IDLE_NODE], [Queued(nodeId).(state := InProgress, updatedAt := DISPATCH_GRACE)]);
    DeadInstallIsSweptOnce(nodeId);
    DeadInstallIsHandedOut(nodeId);
    DeadInstallIsBegun(nodeId);
    SweepFailsIt(nodeId);
    AfterOneMore(DeadInstall(nodeId), 4, begun, Sweep(begun, TOO_LATE));
  }

  /**
   A new update request is refused as "already queued" if and only if an update of that node
   is open; so once requests have been quiet for the ceiling and one sweep gap, it goes through.
   */
  lemma {:induction false} RequestsAreFreedByTheDeadline(
      run: seq<Timed<Event>>, start: Time, n: nat, gap: Time, nodeId: string, resolved: Option<string>, now: Time)
    requires StartsAt(run, start) && n <= |run|
    requires now - LastSweep(run, start, n) <= gap
    requires nodeId in After(run, n).nodes
    ensures RequestUpdate(After(run, n), nodeId, resolved, now).1.AlreadyQueued? <==>
            exists i :: 0 <= i < |After(run, n).tasks| && Matches(After(run, n).tasks[i], nodeId, Update, OPEN)
    ensures (forall i :: 0 <= i < |After(run, n).tasks| && After(run, n).tasks[i].nodeId == nodeId ==>
               After(run, n).tasks[i].createdAt + 15 * 60 * 1_000_000 + gap < now)
            ==> !RequestUpdate(After(run, n), nodeId, resolved, now).1.AlreadyQueued?
  {
    var s := After(run, n);
    OpenTasksWereOnTime(run, start, n);
    var found := Newest(s.tasks, nodeId, Update, OPEN);
    if found.Some? {
      assert Matches(s.tasks[found.value], nodeId, Update, OPEN);
      assert NotOverdueAt(s.tasks[found.value], LastSweep(run, start, n));
    }
  }

  // ------------------------------------------------------- what a node is told, and what it must say

  /** The states an update has only after it was handed to its node. */
  const ACTIVE: set<TaskState> := {Dispatched, InProgress, Success}

  /** An update becomes active only by a dispatch that hands out this very task. */
  lemma {:induction false} OnlyDispatchActivates(s: Store, e: Event, now: Time, id: nat)
    requires id < |Step(s, e, now).tasks|
    requires Step(s, e, now).tasks[id].kind == Update && Step(s, e, now).tasks[id].state in ACTIVE
    requires id < |s.tasks| ==> s.tasks[id].state !in ACTIVE
    ensures e.DispatchEvent? && id < |s.tasks|
    ensures Dispatch(s, e.nodeId, now).1 == Some(Payload(id, s.tasks[id].target))
  {
    StepEvolves(s, e, now);
  }

  /** An update succeeds only by a heartbeat of its node with the target version, once it was handed out. */
  lemma {:induction false} OnlyConfirmationSucceeds(s: Store, e: Event, now: Time, id: nat)
    requires id < |Step(s, e, now).tasks|
    requires Step(s, e, now).tasks[id].kind == Update && Step(s, e, now).tasks[id].state == Success
    ensures id < |s.tasks| && s.tasks[id].state in ACTIVE && s.tasks[id].kind == Update
    ensures s.tasks[id].state == Success
            || (e.VersionReconciled? && e.nodeId == s.tasks[id].nodeId && e.reported == s.tasks[id].target
                && s.tasks[id].target.Some? && s.tasks[id].target != Some(""))
  {}

  /** What a dispatch hands out is the node's own pending update and its version, and is now dispatched. */
  lemma {:induction false} HandOutStep(s: Store, nodeId: string, now: Time)
    requires Dispatch(s, nodeId, now).1.Some?
    ensures var (t, p) := Dispatch(s, nodeId, now); var id := p.value.id;
            && nodeId in s.nodes && !s.nodes[nodeId].busy
            && id < |s.tasks| == |t.tasks| && Matches(s.tasks[id], nodeId, Update, {Pending})
            && p.value.target == s.tasks[id].target
            && t.tasks[id].state == Dispatched && t.tasks[id].kind == Update
  {}

  /** The update handed to the node by event n of the run, if any. */
  function HandedOut(run: seq<Timed<Event>>, n: nat): Option<Payload>
    requires n < |run|
  {
    if run[n].event.DispatchEvent? then Dispatch(After(run, n), run[n].event.nodeId, run[n].at).1 else None
  }

  /** Event d handed the task to its node. */
  ghost predicate Delivers(run: seq<Timed<Event>>, d: nat, id: nat)
    requires d < |run|
  {
    HandedOut(run, d).Some? && HandedOut(run, d).value.id == id
  }

  /** The last word on being busy that a known node sent in a heartbeat. */
  function LastBusyReport(run: seq<Timed<Event>>, n: nat, nodeId: string): Option<bool>
    requires n <= |run|
  {
    if n == 0 then None
    else
      var e := run[n - 1].event;
      if e.HeartbeatNoted? && e.nodeId == nodeId && e.busy.Some? && nodeId in After(run, n - 1).nodes then e.busy
      else LastBusyReport(run, n - 1, nodeId)
  }

  lemma {:induction false} BusyStep(s: Store, e: Event, now: Time, nodeId: string)
    requires nodeId in Step(s, e, now).nodes
    ensures Step(s, e, now).nodes[nodeId].busy ==
            if e.HeartbeatNoted? && e.nodeId == nodeId && e.busy.Some? then e.busy.value
            else nodeId in s.nodes && s.nodes[nodeId].busy
    ensures nodeId !in s.nodes ==> e == AddNode(nodeId)
  {}

  lemma {:induction false} UnknownNodesSaidNothing(run: seq<Timed<Event>>, n: nat, nodeId: string)
    requires n <= |run| && nodeId !in After(run, n).nodes
    ensures LastBusyReport(run, n, nodeId) == None
  {
    if n == 0 {
    } else {
      NodesStay(After(run, n - 1), run[n - 1].event, run[n - 1].at, nodeId);
      UnknownNodesSaidNothing(run, n - 1, nodeId);
    }
  }

  lemma {:induction false} NodesStay(s: Store, e: Event, now: Time, nodeId: string)
    ensures nodeId in s.nodes ==> nodeId in Step(s, e, now).nodes
  {}

  /** A node counts as busy exactly if the last heartbeat that spoke of it said so. */
  lemma {:induction false} BusyIsTheLastReport(run: seq<Timed<Event>>, n: nat, nodeId: string)
    requires n <= |run| && nodeId in After(run, n).nodes
    ensures After(run, n).nodes[nodeId].busy <==> LastBusyReport(run, n, nodeId) == Some(true)
  {
    if n == 0 {
    } else {
      var s := After(run, n - 1);
      BusyStep(s, run[n - 1].event, run[n - 1].at, nodeId);
      if nodeId in s.nodes {
        BusyIsTheLastReport(run, n - 1, nodeId);
      } else {
        UnknownNodesSaidNothing(run, n - 1, nodeId);
      }
    }
  }

  ghost predicate HasPending(s: Store, nodeId: string) {
    exists i :: 0 <= i < |s.tasks| && Matches(s.tasks[i], nodeId, Update, {Pending})
  }

  lemma {:induction false} DispatchExactly(s: Store, nodeId: string, now: Time)
    ensures Dispatch(s, nodeId, now).1.Some? <==>
            nodeId in s.nodes && !s.nodes[nodeId].busy && HasPending(s, nodeId)
  {
    var next := Oldest(s.tasks, nodeId, Update, {Pending});
    if next.Some? {
      assert Matches(s.tasks[next.value], nodeId, Update, {Pending});
    }
  }

  /**
   A node is handed an update if and only if it is known, has one pending, and did not say in
   its last report on the matter that it was busy; and what it is handed is its own pending
   task with that task's version.
   */
  lemma {:induction false} HandOutIsForAnIdleNode(run: seq<Timed<Event>>, n: nat)
    requires n < |run| && run[n].event.DispatchEvent?
    ensures var s, nodeId := After(run, n), run[n].event.nodeId;
            HandedOut(run, n).Some? <==>
            nodeId in s.nodes && LastBusyReport(run, n, nodeId) != Some(true) && HasPending(s, nodeId)
    ensures HandedOut(run, n).Some? ==>
            var p, s := HandedOut(run, n).value, After(run, n);
            && p.id < |s.tasks| && Matches(s.tasks[p.id], run[n].event.nodeId, Update, {Pending})
            && p.target == s.tasks[p.id].target
  {
    var s, nodeId := After(run, n), run[n].event.nodeId;
    DispatchExactly(s, nodeId, run[n].at);
    if nodeId in s.nodes {
      BusyIsTheLastReport(run, n, nodeId);
    }
    if HandedOut(run, n).Some? {
      HandOutStep(s, nodeId, run[n].at);
    }
  }

  /** A delivered task was pending before, and is dispatched right after. */
  lemma {:induction false} DeliveryDispatches(run: seq<Timed<Event>>, d: nat, id: nat)
    requires d < |run| && Delivers(run, d, id)
    ensures id < |After(run, d).tasks| && After(run, d).tasks[id].state == Pending
    ensures id < |After(run, d + 1).tasks| && After(run, d + 1).tasks[id].state == Dispatched
  {
    HandOutStep(After(run, d), run[d].event.nodeId, run[d].at);
  }

  lemma {:induction false} DispatchedStaysSo(run: seq<Timed<Event>>, m: nat, n: nat, id: nat)
    requires m <= n <= |run| && id < |After(run, m).tasks| && After(run, m).tasks[id].state == Dispatched
    ensures id < |After(run, n).tasks| && After(run, n).tasks[id].state != Pending
  {
    RankNeverFalls(run, m, n, id);
  }

  lemma {:induction false} NeverPendingAgain(run: seq<Timed<Event>>, d: nat, n: nat, id: nat)
    requires d < n <= |run| && Delivers(run, d, id)
    ensures id < |After(run, n).tasks| && After(run, n).tasks[id].state != Pending
  {
    DeliveryDispatches(run, d, id);
    DispatchedStaysSo(run, d + 1, n, id);
  }

  /** Each update task is handed to its node at most once in any run. */
  lemma {:induction false} HandedOutAtMostOnce(run: seq<Timed<Event>>, m: nat, n: nat, id: nat)
    requires m < |run| && n < |run| && Delivers(run, m, id) && Delivers(run, n, id)
    ensures m == n
  {
    DeliveryDispatches(run, m, id);
    DeliveryDispatches(run, n, id);
    if m < n {
      NeverPendingAgain(run, m, n, id);
    } else if n < m {
      NeverPendingAgain(run, n, m, id);
    }
  }

  /** An update that has left `pending` other than by failing was handed out earlier in the run. */
  lemma {:induction false} ActiveUpdatesWereHandedOut(run: seq<Timed<Event>>, n: nat, id: nat)
    requires n <= |run| && id < |After(run, n).tasks|
    requires After(run, n).tasks[id].kind == Update && After(run, n).tasks[id].state in ACTIVE
    ensures exists d :: 0 <= d < n && Delivers(run, d, id)
  {
    if n == 0 {
    } else {
      var s, e, now := After(run, n - 1), run[n - 1].event, run[n - 1].at;
      if id < |s.tasks| && s.tasks[id].state in ACTIVE {
        RankNeverFalls(run, n - 1, n, id);
        ActiveUpdatesWereHandedOut(run, n - 1, id);
      } else {
        OnlyDispatchActivates(s, e, now, id);
        assert Delivers(run, n - 1, id);
      }
    }
  }

  /** Event r is a heartbeat of the task's node reporting exactly the task's target version. */
  ghost predicate Confirms(run: seq<Timed<Event>>, r: nat, task: Task)
    requires r < |run|
  {
    run[r].event.VersionReconciled? && run[r].event.nodeId == task.nodeId
    && run[r].event.reported == task.target && task.target.Some?
  }

  /**
   An update task is a success only if it was first handed to its node and later a heartbeat
   of that node reported exactly the target version; nothing a node reports otherwise fakes it.
   */
  lemma {:induction false} SuccessMeansTheTargetVersionReported(run: seq<Timed<Event>>, n: nat, id: nat)
    requires n <= |run| && id < |After(run, n).tasks|
    requires After(run, n).tasks[id].kind == Update && After(run, n).tasks[id].state == Success
    ensures exists d, r :: 0 <= d < r < n && Delivers(run, d, id) && Confirms(run, r, After(run, n).tasks[id])
    ensures After(run, n).tasks[id].target != Some("")
  {
    if n == 0 {
    } else {
      var s, e, now := After(run, n - 1), run[n - 1].event, run[n - 1].at;
      OnlyConfirmationSucceeds(s, e, now, id);
      RankNeverFalls(run, n - 1, n, id);
      if s.tasks[id].state == Success {
        SuccessMeansTheTargetVersionReported(run, n - 1, id);
      } else {
        ActiveUpdatesWereHandedOut(run, n - 1, id);
        var d :| 0 <= d < n - 1 && Delivers(run, d, id);
        assert Confirms(run, n - 1, After(run, n).tasks[id]);
      }
    }
  }

  /**
   Conversely, a heartbeat that reports the target of the node's handed-out update settles it,
   from `dispatched` and from `in_progress` alike, unless the target is the empty string.
   */
  lemma {:induction false} ConfirmationSettlesTheTask(run: seq<Timed<Event>>, n: nat, id: nat)
    requires Chronological(run) && n < |run| && id < |After(run, n).tasks|
    requires var t := After(run, n).tasks[id];
             t.kind == Update && t.state in {Dispatched, InProgress} && t.target != Some("") && Confirms(run, n, t)
    ensures After(run, n + 1).tasks[id].state == Success
    ensures After(run, n + 1).tasks[id].finishedAt == Some(run[n].at)
  {
    TablesStayConsistent(run, n);
    var s := After(run, n);
    var found := Newest(s.tasks, run[n].event.nodeId, Update, {Dispatched, InProgress});
    assert Matches(s.tasks[id], run[n].event.nodeId, Update, {Dispatched, InProgress});
    assert found.Some? && id <= found.value;
  }
}
