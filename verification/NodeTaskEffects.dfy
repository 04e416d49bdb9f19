/**
 What each handler of the node-task protocol does to which row, in plain terms: whose rows it
 may touch, under which condition, and what the row says afterwards.
 */
module NodeTaskEffects {
  import opened Options
  import opened NodeTasks
  import opened NodeTaskRuns
  import opened Runs

  predicate IsOpen(t: Task) {
    t.state in {Pending, Dispatched, InProgress}
  }

  /** The row ended as a failure with this message. */
  predicate EndedFailed(before: Task, after: Task, message: string, now: Time) {
    after == Task(before.nodeId, before.kind, before.target, Failed, Some(message), before.createdAt, now, Some(now))
  }

  // ---------------------------------------------------------------- who may touch a row

  /**
   An event changes a row only if it is meant for it: its own node, the right kind, and a state in
   which it applies.
   */
  lemma {:induction false} OnlyTheRightRowChanges(s: Store, e: Event, now: Time, id: nat)
    requires id < |s.tasks| && id < |Step(s, e, now).tasks| && Step(s, e, now).tasks[id] != s.tasks[id]
    ensures var t := s.tasks[id];
            match e
            case CancelEvent(node, i) => i == id && t.nodeId == node && IsOpen(t)
            case FailureReported(node, i, _) => i == id && t.nodeId == node && t.kind == Update && IsOpen(t)
            case VersionReconciled(node, reported) =>
              t.nodeId == node && t.kind == Update && t.state in {Dispatched, InProgress} && reported.Some?
            case DispatchEvent(node) =>
              t.nodeId == node && t.kind == Update && t.state == Pending && node in s.nodes && !s.nodes[node].busy
            case ResetReported(i, valid, word, _) =>
              i == id && valid && t.kind == FactoryReset && IsOpen(t) && word in {"in_progress", "success", "failed"}
            case SweepEvent =>
              IsOpen(t) && (t.createdAt + 15 * 60 * 1_000_000 < now
                            || (t.state == InProgress && t.updatedAt + 10 * 60 * 1_000_000 < now))
            case _ => false
  {}

  // ---------------------------------------------------------------- the sweep

  /**
   In any run a sweep fails exactly the open tasks that are older than 15 minutes, or in
   progress without a change for 10 minutes, and leaves every other row as it is.
   */
  lemma {:induction false} SweepsFailExactlyTheOverdue(run: seq<Timed<Event>>, n: nat, id: nat)
    requires n < |run| && run[n].event == SweepEvent && id < |After(run, n).tasks|
    ensures |After(run, n + 1).tasks| == |After(run, n).tasks|
    ensures var t, u, now := After(run, n).tasks[id], After(run, n + 1).tasks[id], run[n].at;
            if IsOpen(t) && (t.createdAt + 15 * 60 * 1_000_000 < now
                             || (t.state == InProgress && t.updatedAt + 10 * 60 * 1_000_000 < now)) then
              EndedFailed(t, u, if t.error.Some? && t.error.value != "" then t.error.value
                                else "Timeout: no heartbeat confirming " + t.target.GetOr("None"), now)
            else u == t
  {}

  /** Event m moved the task into in_progress. */
  ghost predicate Begins(run: seq<Timed<Event>>, m: nat, id: nat)
    requires m < |run|
  {
    && id < |After(run, m).tasks| && After(run, m).tasks[id].state != InProgress
    && id < |After(run, m + 1).tasks| && After(run, m + 1).tasks[id].state == InProgress
  }

  lemma {:induction false} BegunOrAlready(s: Store, e: Event, at: Time, id: nat)
    requires id < |Step(s, e, at).tasks|
    requires Step(s, e, at).tasks[id].kind == Update && Step(s, e, at).tasks[id].state == InProgress
    ensures id < |s.tasks| && s.tasks[id].kind == Update
    ensures if s.tasks[id].state == InProgress then Step(s, e, at).tasks[id] == s.tasks[id]
            else Step(s, e, at).tasks[id].updatedAt == at
  {
    StepEvolves(s, e, at);
  }

  /** The timestamp of an update in progress is the time at which it began. */
  lemma {:induction false} InstallsAreStampedWhenTheyBegin(run: seq<Timed<Event>>, n: nat, id: nat)
    requires n <= |run| && id < |After(run, n).tasks|
    requires After(run, n).tasks[id].kind == Update && After(run, n).tasks[id].state == InProgress
    ensures exists m :: 0 <= m < n && Begins(run, m, id) && run[m].at == After(run, n).tasks[id].updatedAt
  {
    if n == 0 {
    } else {
      BegunOrAlready(After(run, n - 1), run[n - 1].event, run[n - 1].at, id);
      if After(run, n - 1).tasks[id].state == InProgress {
        InstallsAreStampedWhenTheyBegin(run, n - 1, id);
      } else {
        assert Begins(run, n - 1, id);
      }
    }
  }

  /** So an install that a sweep fails before its ceiling began more than 10 minutes before that sweep. */
  lemma {:induction false} SweptInstallsHadTheirTime(run: seq<Timed<Event>>, n: nat, id: nat)
    requires n < |run| && run[n].event == SweepEvent && id < |After(run, n).tasks|
    requires After(run, n).tasks[id].kind == Update && After(run, n).tasks[id].state == InProgress
    requires run[n].at <= After(run, n).tasks[id].createdAt + 15 * 60 * 1_000_000
    ensures After(run, n + 1).tasks[id] != After(run, n).tasks[id] <==>
            exists m :: 0 <= m < n && Begins(run, m, id) && run[m].at == After(run, n).tasks[id].updatedAt
                        && run[m].at + 10 * 60 * 1_000_000 < run[n].at
  {
    SweepsFailExactlyTheOverdue(run, n, id);
    InstallsAreStampedWhenTheyBegin(run, n, id);
    var m :| 0 <= m < n && Begins(run, m, id) && run[m].at == After(run, n).tasks[id].updatedAt;
  }

  // ---------------------------------------------------------------- user, node and reset handlers

  /** Cancelling ends an open task of the named node, of either kind, and nothing else; the reply says which it was. */
  lemma {:induction false} CancelEndsExactlyAnOpenTask(s: Store, nodeId: string, id: nat, now: Time)
    ensures var (t, reply) := Cancel(s, nodeId, id, now);
            && t.nodes == s.nodes && |t.tasks| == |s.tasks|
            && (forall i :: 0 <= i < |s.tasks| && (i != id || reply != Done) ==> t.tasks[i] == s.tasks[i])
            && (reply == TaskNotFound <==> id >= |s.tasks| || s.tasks[id].nodeId != nodeId)
            && (reply != TaskNotFound ==>
                  if IsOpen(s.tasks[id]) then
                    reply == Done && EndedFailed(s.tasks[id], t.tasks[id], "Cancelled by user", now)
                  else reply == Conflict(s.tasks[id].state))
  {}

  /** A node's report ends its own open update, with its message cut at 1000 characters, and nothing else. */
  lemma {:induction false} ReportsEndExactlyAnOwnOpenUpdate(
      s: Store, nodeId: string, id: nat, error: Option<string>, now: Time)
    ensures var (t, reply) := ReportFailed(s, nodeId, id, error, now);
            var text := if error.Some? && error.value != "" then error.value else "Failed (reported by node)";
            var message := if |text| > 1000 then text[..1000] else text;
            && t.nodes == s.nodes && |t.tasks| == |s.tasks|
            && (forall i :: 0 <= i < |s.tasks| && (i != id || reply != Done) ==> t.tasks[i] == s.tasks[i])
            && (reply == TaskNotFound <==>
                  id >= |s.tasks| || s.tasks[id].nodeId != nodeId || s.tasks[id].kind != Update)
            && (reply != TaskNotFound ==>
                  if IsOpen(s.tasks[id]) then
                    reply == Done && EndedFailed(s.tasks[id], t.tasks[id], message, now)
                  else reply == Conflict(s.tasks[id].state))
  {}

  /** What a new task looks like. */
  predicate IsNew(t: Task, nodeId: string, kind: Kind, target: Option<string>, state: TaskState, now: Time) {
    t == Task(nodeId, kind, target, state, None, now, now, None)
  }

  predicate HasOpen(s: Store, nodeId: string, kind: Kind) {
    exists i :: 0 <= i < |s.tasks| && OpenOf(s.tasks[i], nodeId, kind)
  }

  predicate OpenOf(t: Task, nodeId: string, kind: Kind) {
    t.nodeId == nodeId && t.kind == kind && IsOpen(t)
  }

  lemma {:induction false} NewestOpenExactly(s: Store, nodeId: string, kind: Kind)
    ensures var r := Newest(s.tasks, nodeId, kind, OPEN);
            (r.Some? <==> HasOpen(s, nodeId, kind)) && (r.Some? ==> OpenOf(s.tasks[r.value], nodeId, kind))
  {
    var r := Newest(s.tasks, nodeId, kind, OPEN);
    if i :| 0 <= i < |s.tasks| && OpenOf(s.tasks[i], nodeId, kind) {
      assert Matches(s.tasks[i], nodeId, kind, OPEN);
    }
  }

  /**
   A request adds exactly one pending update to the resolved version, and only for a known
   node without an open one; otherwise the tables stay, and the reply gives the reason.
   */
  lemma {:induction false} RequestsAddExactlyOneUpdate(s: Store, nodeId: string, resolved: Option<string>, now: Time)
    ensures var (t, reply) := RequestUpdate(s, nodeId, resolved, now);
            && (reply == NodeNotFound <==> nodeId !in s.nodes)
            && (reply.AlreadyQueued? <==> nodeId in s.nodes && HasOpen(s, nodeId, Update))
            && (reply.AlreadyQueued? ==> reply.existing < |s.tasks| && OpenOf(s.tasks[reply.existing], nodeId, Update)
                                         && reply.state == s.tasks[reply.existing].state)
            && (reply.Created? <==> nodeId in s.nodes && !HasOpen(s, nodeId, Update) && resolved.Some?)
            && (reply.Created? ==>
                  reply.id == |s.tasks| == |t.tasks| - 1 && t.nodes == s.nodes && t.tasks[..|s.tasks|] == s.tasks
                  && IsNew(t.tasks[|s.tasks|], nodeId, Update, resolved, Pending, now))
            && (!reply.Created? ==> t == s)
  {
    NewestOpenExactly(s, nodeId, Update);
  }

  /** The same for factory resets, which start as dispatched if the message went out and as pending if not. */
  lemma {:induction false} ResetsAddExactlyOneTask(s: Store, nodeId: string, published: bool, now: Time)
    ensures var (t, reply) := CreateReset(s, nodeId, published, now);
            && (reply == NodeNotFound <==> nodeId !in s.nodes)
            && (reply.AlreadyQueued? <==> nodeId in s.nodes && HasOpen(s, nodeId, FactoryReset))
            && (reply.AlreadyQueued? ==>
                  reply.existing < |s.tasks| && OpenOf(s.tasks[reply.existing], nodeId, FactoryReset)
                  && reply.state == s.tasks[reply.existing].state)
            && (reply.Created? <==> nodeId in s.nodes && !HasOpen(s, nodeId, FactoryReset))
            && (reply.Created? ==>
                  reply.id == |s.tasks| == |t.tasks| - 1 && t.nodes == s.nodes && t.tasks[..|s.tasks|] == s.tasks
                  && IsNew(t.tasks[|s.tasks|], nodeId, FactoryReset, None,
                           if published then Dispatched else Pending, now))
            && (!reply.Created? ==> t == s)
  {
    NewestOpenExactly(s, nodeId, FactoryReset);
  }

  /** The state a word stands for. */
  predicate Says(word: string, state: TaskState) {
    || (word == "in_progress" && state == InProgress)
    || (word == "success" && state == Success)
    || (word == "failed" && state == Failed)
  }

  /**
   A reset report needs the token and one of the three words; it moves exactly the named open
   reset to that state with the node's message, ends it with the two terminal words, and
   deactivates the node exactly with "success".
   */
  lemma {:induction false} ResetReportsMoveExactlyTheNamedReset(
      s: Store, id: nat, valid: bool, word: string, error: Option<string>, now: Time)
    ensures var (t, reply) := ReportReset(s, id, valid, word, error, now);
            var known := word in {"in_progress", "success", "failed"};
            var named := id < |s.tasks| && s.tasks[id].kind == FactoryReset;
            && (reply == Unauthorized <==> !valid) && (reply == BadRequest <==> valid && !known)
            && (reply == TaskNotFound <==> valid && known && !named) && (reply == Done <==> valid && known && named)
            && (reply != Done || !IsOpen(s.tasks[id]) ==> t == s)
            && |t.tasks| == |s.tasks| && (forall i :: 0 <= i < |s.tasks| && i != id ==> t.tasks[i] == s.tasks[i])
            && (reply == Done && IsOpen(s.tasks[id]) ==>
                  var u := t.tasks[id];
                  && Says(word, u.state) && u.error == error
                  && u.finishedAt == (if word == "in_progress" then s.tasks[id].finishedAt else Some(now))
                  && u.updatedAt == (if u == s.tasks[id] then s.tasks[id].updatedAt else now))
            && t.nodes.Keys == s.nodes.Keys
            && (forall node :: node in s.nodes ==>
                  t.nodes[node] ==
                  if reply == Done && IsOpen(s.tasks[id]) && word == "success" && node == s.tasks[id].nodeId
                  then s.nodes[node].(active := false) else s.nodes[node])
  {}

  /** A heartbeat refreshes its own node with what it brings, keeps what it does not, and touches no other row. */
  lemma {:induction false} HeartbeatsRefreshTheirNode(
      s: Store, nodeId: string, versionInfo: Option<Option<string>>, busy: Option<bool>)
    ensures var t := NoteHeartbeat(s, nodeId, versionInfo, busy);
            && t.tasks == s.tasks && t.nodes.Keys == s.nodes.Keys
            && (forall node :: node in s.nodes && node != nodeId ==> t.nodes[node] == s.nodes[node])
            && (nodeId in s.nodes ==>
                  && t.nodes[nodeId].active == s.nodes[nodeId].active
                  && t.nodes[nodeId].busy == (if busy.Some? then busy.value else s.nodes[nodeId].busy)
                  && t.nodes[nodeId].version ==
                     (if versionInfo.Some? then versionInfo.value else s.nodes[nodeId].version))
  {}

  /**
   In every reachable state, what a reported version does to the handed-out update of its node:
   the target settles it, any other moves it to in_progress once it was dispatched for 30
   seconds, and nothing else happens to it.
   */
  lemma {:induction false} ReportedVersionsDecide(run: seq<Timed<Event>>, n: nat, id: nat)
    requires Chronological(run) && n < |run| && run[n].event.VersionReconciled? && id < |After(run, n).tasks|
    requires OpenOf(After(run, n).tasks[id], run[n].event.nodeId, Update)
    ensures id < |After(run, n + 1).tasks|
    ensures var t, u := After(run, n).tasks[id], After(run, n + 1).tasks[id];
            var now, reported := run[n].at, run[n].event.reported;
            if t.state == Pending || reported.None? then u == t
            else if reported == t.target && reported != Some("") then
              u == t.(state := Success, finishedAt := Some(now), updatedAt := now)
            else if t.state == Dispatched && t.updatedAt + 30 * 1_000_000 <= now then
              u == t.(state := InProgress, updatedAt := now)
            else u == t
  {
    TablesStayConsistent(run, n);
    var s, t := After(run, n), After(run, n).tasks[id];
    var found := Newest(s.tasks, t.nodeId, Update, {Dispatched, InProgress});
    if t.state != Pending {
      assert Matches(t, t.nodeId, Update, {Dispatched, InProgress});
      assert found.Some? && id <= found.value;
      assert Matches(s.tasks[found.value], t.nodeId, Update, {Dispatched, InProgress});
      assert id < found.value ==> SameSlot(s.tasks[id], s.tasks[found.value]);
    } else if found.Some? {
      assert Matches(s.tasks[found.value], t.nodeId, Update, {Dispatched, InProgress});
      assert id != found.value && SameSlot(s.tasks[id], s.tasks[found.value]);
    }
  }
}
