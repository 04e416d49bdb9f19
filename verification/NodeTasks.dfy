/**
 Long-running tasks on nodes: version updates and factory resets.

 Five actors work on one table of task rows: the mobile user (request, cancel), the node's
 heartbeat (reconcile, dispatch), the node's failure report, the node's reset report, and a
 periodic timeout sweep (app/api/node_updates.py, app/admin.py, app/main.py).  This module
 holds the rows and the handlers; NodeTaskRuns proves what every interleaving keeps.
 */
module NodeTasks {
  import opened Options
  import opened Runs

  // times are in microseconds, the resolution of the row timestamps

  const SECOND: Time := 1_000_000
  const ANY_STATE_CEILING: Time := 15 * 60 * SECOND
  const IN_PROGRESS_NO_PROGRESS: Time := 10 * 60 * SECOND
  const DISPATCH_GRACE: Time := 30 * SECOND

  datatype Kind = Update | FactoryReset

  datatype TaskState = Pending | Dispatched | InProgress | Success | Failed
  {
    predicate Terminal() { Success? || Failed? }

    function Rank(): nat {
      match this
      case Pending => 0
      case Dispatched => 1
      case InProgress => 2
      case Success => 3
      case Failed => 3
    }
  }

  const OPEN: set<TaskState> := {Pending, Dispatched, InProgress}

  datatype Task = Task(
    nodeId: string, kind: Kind, target: Option<string>, state: TaskState, error: Option<string>,
    createdAt: Time, updatedAt: Time, finishedAt: Option<Time>)

  datatype Node = Node(busy: bool, active: bool, version: Option<string>)

  /** The two tables; a task's id is its position, so rows stand in order of creation. */
  datatype Store = Store(nodes: map<string, Node>, tasks: seq<Task>)

  // ---------------------------------------------------------------- queries

  predicate Matches(t: Task, nodeId: string, kind: Kind, states: set<TaskState>) {
    t.nodeId == nodeId && t.kind == kind && t.state in states
  }

  /** The most recently created row that matches. */
  function Newest(tasks: seq<Task>, nodeId: string, kind: Kind, states: set<TaskState>): (r: Option<nat>)
    ensures r.Some? ==> r.value < |tasks| && Matches(tasks[r.value], nodeId, kind, states)
    ensures forall i :: 0 <= i < |tasks| && Matches(tasks[i], nodeId, kind, states) ==> r.Some? && i <= r.value
  {
    if tasks == [] then None
    else if Matches(tasks[|tasks| - 1], nodeId, kind, states) then Some(|tasks| - 1)
    else Newest(tasks[..|tasks| - 1], nodeId, kind, states)
  }

  /** The earliest created row that matches. */
  function Oldest(tasks: seq<Task>, nodeId: string, kind: Kind, states: set<TaskState>): (r: Option<nat>)
    ensures r.Some? ==> r.value < |tasks| && Matches(tasks[r.value], nodeId, kind, states)
    ensures forall i :: 0 <= i < |tasks| && Matches(tasks[i], nodeId, kind, states) ==> r.Some? && r.value <= i
  {
    if tasks == [] then None
    else
      var r := Oldest(tasks[..|tasks| - 1], nodeId, kind, states);
      if r.Some? then r
      else if Matches(tasks[|tasks| - 1], nodeId, kind, states) then Some(|tasks| - 1)
      else None
  }

  // ---------------------------------------------------------------- handlers

  datatype RequestReply = NodeNotFound | AlreadyQueued(existing: nat, state: TaskState) | NoTarget | Created(id: nat)

  /** `resolved` is the version the release lookup settled on, if it settled on any. */
  function RequestUpdate(s: Store, nodeId: string, resolved: Option<string>, now: Time): (Store, RequestReply) {
    if nodeId !in s.nodes then (s, NodeNotFound)
    else
      var existing := Newest(s.tasks, nodeId, Update, OPEN);
      if existing.Some? then (s, AlreadyQueued(existing.value, s.tasks[existing.value].state))
      else if resolved.None? then (s, NoTarget)
      else
        var task := Task(nodeId, Update, resolved, Pending, None, now, now, None);
        (s.(tasks := s.tasks + [task]), Created(|s.tasks|))
  }

  datatype TaskReply = TaskNotFound | Conflict(state: TaskState) | Done | Unauthorized | BadRequest

  function Failing(t: Task, message: string, now: Time): Task {
    t.(state := Failed, error := Some(message), finishedAt := Some(now), updatedAt := now)
  }

  function Truncated(message: string): string {
    if |message| <= 1000 then message else message[..1000]
  }

  /** A node may fail its own update task, and only while it is open. */
  function ReportFailed(s: Store, nodeId: string, id: nat, error: Option<string>, now: Time): (Store, TaskReply) {
    if id >= |s.tasks| || s.tasks[id].nodeId != nodeId || s.tasks[id].kind != Update then (s, TaskNotFound)
    else if s.tasks[id].state.Terminal() then (s, Conflict(s.tasks[id].state))
    else
      var message := Truncated(TextOr(error, "Failed (reported by node)"));
      (s.(tasks := s.tasks[id := Failing(s.tasks[id], message, now)]), Done)
  }

  function Cancel(s: Store, nodeId: string, id: nat, now: Time): (Store, TaskReply) {
    if id >= |s.tasks| || s.tasks[id].nodeId != nodeId then (s, TaskNotFound)
    else if s.tasks[id].state.Terminal() then (s, Conflict(s.tasks[id].state))
    else (s.(tasks := s.tasks[id := Failing(s.tasks[id], "Cancelled by user", now)]), Done)
  }

  /** The node row is refreshed from the heartbeat; absent fields keep their values. */
  function NoteHeartbeat(s: Store, nodeId: string, versionInfo: Option<Option<string>>, busy: Option<bool>): Store {
    if nodeId !in s.nodes then s
    else
      var node := s.nodes[nodeId];
      s.(nodes := s.nodes[nodeId := node.(version := versionInfo.GetOr(node.version), busy := busy.GetOr(node.busy))])
  }

  function Reconcile(s: Store, nodeId: string, reported: Option<string>, now: Time): Store {
    var open := Newest(s.tasks, nodeId, Update, {Dispatched, InProgress});
    if reported.None? || open.None? then s
    else
      var task := s.tasks[open.value];
      if task.target.Some? && task.target.value != "" && reported == task.target then
        s.(tasks := s.tasks[open.value := task.(state := Success, finishedAt := Some(now), updatedAt := now)])
      else if task.state == Dispatched && now - task.updatedAt >= DISPATCH_GRACE then
        s.(tasks := s.tasks[open.value := task.(state := InProgress, updatedAt := now)])
      else s
  }

  datatype Payload = Payload(id: nat, target: Option<string>)

  function Dispatch(s: Store, nodeId: string, now: Time): (Store, Option<Payload>) {
    if nodeId !in s.nodes || s.nodes[nodeId].busy then (s, None)
    else
      var next := Oldest(s.tasks, nodeId, Update, {Pending});
      if next.None? then (s, None)
      else
        var task := s.tasks[next.value];
        (s.(tasks := s.tasks[next.value := task.(state := Dispatched, updatedAt := now)]),
         Some(Payload(next.value, task.target)))
  }

  function CreateReset(s: Store, nodeId: string, published: bool, now: Time): (Store, RequestReply) {
    if nodeId !in s.nodes then (s, NodeNotFound)
    else
      var existing := Newest(s.tasks, nodeId, FactoryReset, OPEN);
      if existing.Some? then (s, AlreadyQueued(existing.value, s.tasks[existing.value].state))
      else
        var task := Task(nodeId, FactoryReset, None, if published then Dispatched else Pending, None, now, now, None);
        (s.(tasks := s.tasks + [task]), Created(|s.tasks|))
  }

  /** The three states a node may report for its reset; any other word is rejected. */
  function ParseResetState(word: string): Option<TaskState> {
    if word == "in_progress" then Some(InProgress)
    else if word == "success" then Some(Success)
    else if word == "failed" then Some(Failed)
    else None
  }

  function ReportReset(
      s: Store, id: nat, tokenValid: bool, word: string, error: Option<string>, now: Time): (Store, TaskReply)
  {
    var state := ParseResetState(word);
    if !tokenValid then (s, Unauthorized)
    else if state.None? then (s, BadRequest)
    else if id >= |s.tasks| || s.tasks[id].kind != FactoryReset then (s, TaskNotFound)
    else if s.tasks[id].state.Terminal() then (s, Done)
    else
      var task := s.tasks[id];
      var changed := task.(state := state.value, error := error,
                           finishedAt := if state.value.Terminal() then Some(now) else task.finishedAt);
      // the row timestamp moves only when some column really changes
      var written := if changed == task then task else changed.(updatedAt := now);
      var nodes := if state.value == Success && task.nodeId in s.nodes
                   then s.nodes[task.nodeId := s.nodes[task.nodeId].(active := false)] else s.nodes;
      (Store(nodes, s.tasks[id := written]), Done)
  }

  predicate Stale(t: Task, now: Time) {
    && t.state in OPEN
    && (t.createdAt < now - ANY_STATE_CEILING
        || (t.state == InProgress && t.updatedAt < now - IN_PROGRESS_NO_PROGRESS))
  }

  function TimedOut(t: Task, now: Time): Task {
    Failing(t, TextOr(t.error, "Timeout: no heartbeat confirming " + t.target.GetOr("None")), now)
  }

  function Sweep(s: Store, now: Time): Store {
    s.(tasks := seq(|s.tasks|, i requires 0 <= i < |s.tasks| =>
      if Stale(s.tasks[i], now) then TimedOut(s.tasks[i], now) else s.tasks[i]))
  }

  // ---------------------------------------------------------------- the service

  class TaskService {
    var nodes: map<string, Node>
    var tasks: seq<Task>

    constructor ()
      ensures Snapshot() == Store(map[], [])
    {
      nodes, tasks := map[], [];
    }

    function Snapshot(): Store
      reads this
    {
      Store(nodes, tasks)
    }

    method HandleRequestUpdate(nodeId: string, resolved: Option<string>, now: Time) returns (reply: RequestReply)
      modifies this
      ensures (Snapshot(), reply) == RequestUpdate(old(Snapshot()), nodeId, resolved, now)
    {
      if nodeId !in nodes {
        return NodeNotFound;
      }
      var existing := Newest(tasks, nodeId, Update, OPEN);
      if existing.Some? {
        return AlreadyQueued(existing.value, tasks[existing.value].state);
      }
      if resolved.None? {
        return NoTarget;
      }
      tasks := tasks + [Task(nodeId, Update, resolved, Pending, None, now, now, None)];
      return Created(|tasks| - 1);
    }

    method HandleReportFailed(nodeId: string, id: nat, error: Option<string>, now: Time) returns (reply: TaskReply)
      modifies this
      ensures (Snapshot(), reply) == ReportFailed(old(Snapshot()), nodeId, id, error, now)
    {
      if id >= |tasks| || tasks[id].nodeId != nodeId || tasks[id].kind != Update {
        return TaskNotFound;
      }
      if tasks[id].state.Terminal() {
        return Conflict(tasks[id].state);
      }
      var message := Truncated(TextOr(error, "Failed (reported by node)"));
      tasks := tasks[id :=
          tasks[id].(state := Failed, error := Some(message), finishedAt := Some(now), updatedAt := now)];
      return Done;
    }

    method HandleCancel(nodeId: string, id: nat, now: Time) returns (reply: TaskReply)
      modifies this
      ensures (Snapshot(), reply) == Cancel(old(Snapshot()), nodeId, id, now)
    {
      if id >= |tasks| || tasks[id].nodeId != nodeId {
        return TaskNotFound;
      }
      if tasks[id].state.Terminal() {
        return Conflict(tasks[id].state);
      }
      var row := tasks[id].(state := Failed, error := Some("Cancelled by user"));
      row := row.(finishedAt := Some(now));
      row := row.(updatedAt := now);
      tasks := tasks[id := row];
      return Done;
    }

    /** Heartbeat: refresh the node, settle the open task, then hand over a queued one. */
    method HandleHeartbeat(nodeId: string, versionInfo: Option<Option<string>>, busy: Option<bool>, now: Time)
      returns (pendingUpdate: Option<Payload>)
      modifies this
      ensures nodeId !in old(nodes) ==> Snapshot() == old(Snapshot()) && pendingUpdate == None
      ensures nodeId in old(nodes) ==>
                var noted := NoteHeartbeat(old(Snapshot()), nodeId, versionInfo, busy);
                (Snapshot(), pendingUpdate) ==
                    Dispatch(Reconcile(noted, nodeId, versionInfo.GetOr(None), now), nodeId, now)
    {
      if nodeId !in nodes {
        return None;
      }
      var node := nodes[nodeId];
      var reported: Option<string> := None;
      if versionInfo.Some? {
        reported := versionInfo.value;
        node := node.(version := reported);
      }
      if busy.Some? {
        node := node.(busy := busy.value);
      }
      nodes := nodes[nodeId := node];
      ReconcileOpenTask(nodeId, reported, now);
      pendingUpdate := DispatchPendingTask(nodeId, now);
    }

    method ReconcileOpenTask(nodeId: string, reported: Option<string>, now: Time)
      modifies this`tasks
      ensures Snapshot() == Reconcile(old(Snapshot()), nodeId, reported, now)
    {
      if reported.None? {
        return;
      }
      var open := Newest(tasks, nodeId, Update, {Dispatched, InProgress});
      if open.None? {
        return;
      }
      var task := tasks[open.value];
      if task.target.Some? && task.target.value != "" && reported == task.target {
        tasks := tasks[open.value := task.(state := Success, finishedAt := Some(now), updatedAt := now)];
        return;
      }
      if task.state == Dispatched {
        if now - task.updatedAt < DISPATCH_GRACE {
          return;
        }
        tasks := tasks[open.value := task.(state := InProgress, updatedAt := now)];
      }
    }

    method DispatchPendingTask(nodeId: string, now: Time) returns (payload: Option<Payload>)
      requires nodeId in nodes
      modifies this`tasks
      ensures (Snapshot(), payload) == Dispatch(old(Snapshot()), nodeId, now)
    {
      if nodes[nodeId].busy {
        return None;
      }
      var next := Oldest(tasks, nodeId, Update, {Pending});
      if next.None? {
        return None;
      }
      var task := tasks[next.value];
      tasks := tasks[next.value := task.(state := Dispatched, updatedAt := now)];
      return Some(Payload(next.value, task.target));
    }

    method HandleCreateReset(nodeId: string, published: bool, now: Time) returns (reply: RequestReply)
      modifies this
      ensures (Snapshot(), reply) == CreateReset(old(Snapshot()), nodeId, published, now)
    {
      if nodeId !in nodes {
        return NodeNotFound;
      }
      var existing := Newest(tasks, nodeId, FactoryReset, OPEN);
      if existing.Some? {
        return AlreadyQueued(existing.value, tasks[existing.value].state);
      }
      var id := |tasks|;
      tasks := tasks + [Task(nodeId, FactoryReset, None, Pending, None, now, now, None)];
      if published {
        tasks := tasks[id := tasks[id].(state := Dispatched)];
        assert tasks == old(tasks) + [Task(nodeId, FactoryReset, None, Dispatched, None, now, now, None)];
      }
      return Created(id);
    }

    method HandleReportReset(
        id: nat, tokenValid: bool, word: string, error: Option<string>, now: Time)
      returns (reply: TaskReply)
      modifies this
      ensures (Snapshot(), reply) == ReportReset(old(Snapshot()), id, tokenValid, word, error, now)
    {
      if !tokenValid {
        return Unauthorized;
      }
      var state := ParseResetState(word);
      if state.None? {
        return BadRequest;
      }
      if id >= |tasks| || tasks[id].kind != FactoryReset {
        return TaskNotFound;
      }
      if tasks[id].state.Terminal() {
        return Done;
      }
      var task := tasks[id].(state := state.value, error := error);
      if state.value.Terminal() {
        task := task.(finishedAt := Some(now));
      }
      if task != tasks[id] {
        task := task.(updatedAt := now);
      }
      tasks := tasks[id := task];
      if state.value == Success && task.nodeId in nodes {
        nodes := nodes[task.nodeId := nodes[task.nodeId].(active := false)];
      }
      return Done;
    }

    method TimeoutSweep(now: Time)
      modifies this`tasks
      ensures Snapshot() == Sweep(old(Snapshot()), now)
    {
      var i := 0;
      while i < |tasks|
        invariant 0 <= i <= |tasks| == |old(tasks)|
        invariant forall j :: 0 <= j < i ==>
                    tasks[j] == if Stale(old(tasks)[j], now) then TimedOut(old(tasks)[j], now) else old(tasks)[j]
        invariant forall j :: i <= j < |tasks| ==> tasks[j] == old(tasks)[j]
      {
        if Stale(tasks[i], now) {
          var task := tasks[i].(state := Failed);
          task := task.(error :=
              Some(TextOr(task.error, "Timeout: no heartbeat confirming " + task.target.GetOr("None"))));
          task := task.(finishedAt := Some(now), updatedAt := now);
          tasks := tasks[i := task];
        }
        i := i + 1;
      }
    }
  }
}
