/**
 Callback jobs (app/api/callbacks.py): a mobile tap executed by a node, or by the server
 itself when the job names no node.
 */
module Callbacks {
  import opened Options
  import opened Runs

  // times are in microseconds

  const CALLBACK_TTL: Time := 5 * 60 * 1_000_000

  datatype Status = Pending | Completed | Failed | Expired

  datatype Job = Job(
    nodeId: Option<string>, status: Status, createdAt: Time, expiresAt: Time,
    completedAt: Option<Time>, error: Option<string>, context: Option<string>)

  /** The result block of an outcome: absent, JSON text, or something JSON cannot hold. */
  datatype ContextData = NoData | Data(json: string) | Unserializable

  datatype Outcome = Outcome(success: bool, error: Option<string>, context: ContextData)

  /** What running the server-side handler comes to. */
  datatype HandlerRun =
    | NotRegistered
    | Raised(message: string)
    | WrongType(typeName: string)
    | Handled(outcome: Outcome)
    | Cancelled  // the task itself was cancelled, which is no exception the code catches

  datatype Reply = NotFound | Gone | Payload | Recorded(status: Status)

  function NewJob(nodeId: Option<string>, now: Time): Job {
    Job(nodeId, Pending, now, now + CALLBACK_TTL, None, None, None)
  }

  predicate Overdue(job: Job, now: Time) {
    job.expiresAt < now && job.status == Pending
  }

  function Read(job: Job, now: Time): Job {
    if Overdue(job, now) then job.(status := Expired) else job
  }

  function Record(job: Job, outcome: Outcome, now: Time): Job {
    job.(status := if outcome.success then Completed else Failed,
         error := outcome.error,
         completedAt := Some(now),
         context := match outcome.context
                    case NoData => job.context
                    case Data(json) => Some(json)
                    case Unserializable => None)
  }

  /** Every way a handler can go wrong becomes a failed outcome, unless the task is cancelled under it. */
  function OutcomeOf(run: HandlerRun): Outcome
    requires !run.Cancelled?
  {
    match run
    case NotRegistered => Outcome(false, Some("Server-side handler no longer registered"), NoData)
    case Raised(message) => Outcome(false, Some(message), NoData)
    case WrongType(name) => Outcome(false, Some("handler returned " + name + ", expected ServerCallbackResult"), NoData)
    case Handled(outcome) => outcome
  }

  class CallbackJob {
    const nodeId: Option<string>
    var status: Status
    const createdAt: Time
    const expiresAt: Time
    var completedAt: Option<Time>
    var error: Option<string>
    var context: Option<string>

    constructor (nodeId: Option<string>, now: Time)
      ensures Snapshot() == NewJob(nodeId, now)
    {
      this.nodeId, status, createdAt, expiresAt := nodeId, Pending, now, now + CALLBACK_TTL;
      completedAt, error, context := None, None, None;
    }

    function Snapshot(): Job
      reads this
    {
      Job(nodeId, status, createdAt, expiresAt, completedAt, error, context)
    }

    /** The payload is served for pending jobs and, again, for finished ones. */
    method GetPayload(caller: string, now: Time) returns (reply: Reply)
      modifies this`status
      ensures nodeId != Some(caller) ==> reply == NotFound && Snapshot() == old(Snapshot())
      ensures nodeId == Some(caller) ==>
              Snapshot() == Read(old(Snapshot()), now) && reply == if status == Expired then Gone else Payload
    {
      if nodeId != Some(caller) {
        return NotFound;
      }
      if status == Expired {
        return Gone;
      }
      if now > expiresAt && status == Pending {
        status := Expired;
        return Gone;
      }
      return Payload;
    }

    method PostResult(caller: string, outcome: Outcome, now: Time) returns (reply: Reply)
      modifies this
      ensures nodeId != Some(caller) ==> reply == NotFound && Snapshot() == old(Snapshot())
      ensures nodeId == Some(caller) ==>
              Snapshot() == Record(old(Snapshot()), outcome, now) && reply == Recorded(status)
    {
      if nodeId != Some(caller) {
        return NotFound;
      }
      RecordResult(outcome, now);
      return Recorded(status);
    }

    method RecordResult(outcome: Outcome, now: Time)
      modifies this
      ensures Snapshot() == Record(old(Snapshot()), outcome, now)
    {
      status := if outcome.success then Completed else Failed;
      error := outcome.error;
      completedAt := Some(now);
      match outcome.context {
        case NoData =>
        case Data(json) => context := Some(json);
        case Unserializable => context := None;
      }
    }

    method GetStatus(now: Time)
      modifies this`status
      ensures Snapshot() == Read(old(Snapshot()), now)
    {
      if now > expiresAt && status == Pending {
        status := Expired;
      }
    }

    /** The background task of the server plane; unless it is cancelled it leaves a result. */
    method RunServerCallback(run: HandlerRun, now: Time)
      modifies this
      ensures Snapshot() == if run.Cancelled? then old(Snapshot()) else Record(old(Snapshot()), OutcomeOf(run), now)
      ensures !run.Cancelled? ==> (status == Completed <==> run.Handled? && run.outcome.success)
      ensures !run.Cancelled? ==> status == Completed || status == Failed
    {
      if run.Cancelled? {
        return;
      }
      if run.NotRegistered? {
        RecordResult(Outcome(false, Some("Server-side handler no longer registered"), NoData), now);
        return;
      }
      if !run.Handled? {
        var message := if run.Raised? then run.message
            else "handler returned " + run.typeName + ", expected ServerCallbackResult";
        RecordResult(Outcome(false, Some(message), NoData), now);
        return;
      }
      RecordResult(run.outcome, now);
    }
  }

  // ---------------------------------------------------------------- runs

  datatype Event =
    | PayloadRead(caller: string)
    | StatusRead
    | ResultPosted(caller: string, outcome: Outcome)
    | ServerRan(run: HandlerRun)

  /** The background task exists only for jobs of the server plane. */
  predicate Applies(nodeId: Option<string>, e: Event) {
    match e
    case PayloadRead(caller) => nodeId == Some(caller)
    case StatusRead => true
    case ResultPosted(caller, _) => nodeId == Some(caller)
    case ServerRan(_) => nodeId.None?
  }

  /** The result an event delivers, if it delivers one. */
  function ResultOf(nodeId: Option<string>, e: Event): Option<Outcome> {
    if !Applies(nodeId, e) then None
    else if e.ResultPosted? then Some(e.outcome)
    else if e.ServerRan? && !e.run.Cancelled? then Some(OutcomeOf(e.run))
    else None
  }

  function Step(job: Job, e: Event, now: Time): Job {
    if !Applies(job.nodeId, e) then job
    else
      match e
      case PayloadRead(_) => Read(job, now)
      case StatusRead => Read(job, now)
      case ResultPosted(_, outcome) => Record(job, outcome, now)
      case ServerRan(run) => if run.Cancelled? then job else Record(job, OutcomeOf(run), now)
  }

  function After(nodeId: Option<string>, start: Time, run: seq<Timed<Event>>, n: nat): Job
    requires n <= |run|
  {
    if n == 0 then NewJob(nodeId, start) else Step(After(nodeId, start, run, n - 1), run[n - 1].event, run[n - 1].at)
  }

  /** The position of the last result delivered among the first n events. */
  function LastResult(nodeId: Option<string>, run: seq<Timed<Event>>, n: nat): (r: Option<nat>)
    requires n <= |run|
    ensures r.Some? ==> r.value < n && ResultOf(nodeId, run[r.value].event).Some?
    ensures forall i :: 0 <= i < n && ResultOf(nodeId, run[i].event).Some? ==> r.Some? && i <= r.value
  {
    if n == 0 then None
    else if ResultOf(nodeId, run[n - 1].event).Some? then Some(n - 1)
    else LastResult(nodeId, run, n - 1)
  }

  /** The position of the last result among the first n events that came with a result block. */
  function LastBlock(nodeId: Option<string>, run: seq<Timed<Event>>, n: nat): (r: Option<nat>)
    requires n <= |run|
    ensures r.Some? ==> r.value < n && BringsBlock(nodeId, run[r.value].event)
    ensures forall i :: 0 <= i < n && BringsBlock(nodeId, run[i].event) ==> r.Some? && i <= r.value
  {
    if n == 0 then None
    else if BringsBlock(nodeId, run[n - 1].event) then Some(n - 1)
    else LastBlock(nodeId, run, n - 1)
  }

  predicate BringsBlock(nodeId: Option<string>, e: Event) {
    ResultOf(nodeId, e).Some? && !ResultOf(nodeId, e).value.context.NoData?
  }

  /** Somebody entitled to look did so after the job's time. */
  predicate SeenLate(nodeId: Option<string>, start: Time, run: seq<Timed<Event>>, n: nat)
    requires n <= |run|
  {
    exists i :: 0 <= i < n && Applies(nodeId, run[i].event) && (run[i].event.PayloadRead? || run[i].event.StatusRead?)
                && start + 300 * 1_000_000 < run[i].at
  }

  /**
   The whole life of a job in one statement: the last delivered result decides its status,
   error and completion time, whatever came before and however late; without any result it
   is expired if somebody looked too late, and pending otherwise.
   */
  lemma {:induction false} TheLastResultDecides(nodeId: Option<string>, start: Time, run: seq<Timed<Event>>, n: nat)
    requires n <= |run|
    ensures After(nodeId, start, run, n).nodeId == nodeId
            && After(nodeId, start, run, n).expiresAt == start + 300 * 1_000_000
    ensures var job, last := After(nodeId, start, run, n), LastResult(nodeId, run, n);
            match last
            case Some(k) =>
              var outcome := ResultOf(nodeId, run[k].event).value;
              job.status == (if outcome.success then Completed else Failed)
              && job.completedAt == Some(run[k].at) && job.error == outcome.error
            case None =>
              job.status == (if SeenLate(nodeId, start, run, n) then Expired else Pending)
              && job.completedAt == None && job.error == None
  {
    if n == 0 {
    } else {
      TheLastResultDecides(nodeId, start, run, n - 1);
      assert SeenLate(nodeId, start, run, n) <==>
             SeenLate(nodeId, start, run, n - 1)
             || (Applies(nodeId, run[n - 1].event) && (run[n - 1].event.PayloadRead? || run[n - 1].event.StatusRead?)
                 && start + 300 * 1_000_000 < run[n - 1].at);
    }
  }

  /** A result overwrites status, error and completion time, and the block only if it brings one. */
  predicate TakesResult(before: Job, after: Job, success: bool, error: Option<string>, block: ContextData, now: Time) {
    && after.nodeId == before.nodeId && after.createdAt == before.createdAt && after.expiresAt == before.expiresAt
    && after.status == (if success then Completed else Failed)
    && after.error == error && after.completedAt == Some(now)
    && match block
       case NoData => after.context == before.context
       case Data(json) => after.context == Some(json)
       case Unserializable => after.context == None
  }

  /**
   What each event of a run does to the job: a look by whoever may look expires a late pending
   job, a result of the named node or of the server's own task is recorded, whatever became of
   the handler, and everything else leaves the job alone.
   */
  lemma {:induction false} EventsHaveTheirEffect(nodeId: Option<string>, start: Time, run: seq<Timed<Event>>, n: nat)
    requires n < |run|
    ensures var before, after, now := After(nodeId, start, run, n), After(nodeId, start, run, n + 1), run[n].at;
            var late := before.status == Pending && start + 300 * 1_000_000 < now;
            match run[n].event
            case StatusRead => after == if late then before.(status := Expired) else before
            case PayloadRead(caller) =>
              after == if late && nodeId == Some(caller) then before.(status := Expired) else before
            case ResultPosted(caller, outcome) =>
              if nodeId == Some(caller) then
                TakesResult(before, after, outcome.success, outcome.error, outcome.context, now)
              else after == before
            case ServerRan(handler) =>
              if nodeId.Some? then after == before
              else
                match handler
                case Cancelled => after == before
                case NotRegistered =>
                  TakesResult(before, after, false, Some("Server-side handler no longer registered"), NoData, now)
                case Raised(message) => TakesResult(before, after, false, Some(message), NoData, now)
                case WrongType(name) =>
                  TakesResult(before, after, false,
                            Some("handler returned " + name + ", expected ServerCallbackResult"), NoData, now)
                case Handled(outcome) =>
                  TakesResult(before, after, outcome.success, outcome.error, outcome.context, now)
  {
    TheLastResultDecides(nodeId, start, run, n);
  }

  /** What a job keeps of a result's block: nothing if JSON cannot hold it. */
  function Kept(block: ContextData): Option<string> {
    if block.Data? then Some(block.json) else None
  }

  lemma {:induction false} BlockStep(job: Job, e: Event, now: Time)
    ensures Step(job, e, now).nodeId == job.nodeId
    ensures Step(job, e, now).context ==
            if BringsBlock(job.nodeId, e) then Kept(ResultOf(job.nodeId, e).value.context) else job.context
  {}

  /**
   The result block is that of the last result that brought one, which need not be the one that
   decides the status.
   */
  lemma {:induction false} TheLastBlockStays(nodeId: Option<string>, start: Time, run: seq<Timed<Event>>, n: nat)
    requires n <= |run|
    ensures After(nodeId, start, run, n).nodeId == nodeId
    ensures var last := LastBlock(nodeId, run, n);
            After(nodeId, start, run, n).context ==
            if last.None? then None else Kept(ResultOf(nodeId, run[last.value].event).value.context)
  {
    if n == 0 {
    } else {
      TheLastBlockStays(nodeId, start, run, n - 1);
      BlockStep(After(nodeId, start, run, n - 1), run[n - 1].event, run[n - 1].at);
    }
  }

  /** A late result completes a job that has expired. */
  lemma {:induction false} LateResultsOverwriteExpiry(node: string, json: string) returns (run: seq<Timed<Event>>)
    ensures |run| == 2
    ensures After(Some(node), 0, run, 1).status == Expired
    ensures After(Some(node), 0, run, 2).status == Completed && After(Some(node), 0, run, 2).context == Some(json)
  {
    var late := CALLBACK_TTL + 1;
    run := [Timed(StatusRead, late), Timed(ResultPosted(node, Outcome(true, None, Data(json))), late)];
    assert After(Some(node), 0, run, 0) == NewJob(Some(node), 0);
  }

  /** A failure reported after a success leaves the block of the success beside the failure. */
  lemma {:induction false} FailuresKeepAnEarlierBlock(
      node: string, json: string, message: string)
    returns (run: seq<Timed<Event>>)
    ensures |run| == 2
    ensures After(Some(node), 0, run, 2).status == Failed && After(Some(node), 0, run, 2).error == Some(message)
    ensures After(Some(node), 0, run, 2).context == Some(json)
  {
    run := [Timed(ResultPosted(node, Outcome(true, None, Data(json))), 1),
            Timed(ResultPosted(node, Outcome(false, Some(message), NoData)), 2)];
    assert After(Some(node), 0, run, 0) == NewJob(Some(node), 0);
    assert After(Some(node), 0, run, 1).context == Some(json);
  }

  /** A job that has left pending never re-enters it, and completed_at is set exactly in completed or failed. */
  lemma {:induction false} PendingIsNeverReentered(
      nodeId: Option<string>, start: Time, run: seq<Timed<Event>>, m: nat, n: nat)
    requires m <= n <= |run|
    ensures After(nodeId, start, run, m).status != Pending ==> After(nodeId, start, run, n).status != Pending
    ensures After(nodeId, start, run, n).completedAt.Some? <==>
            After(nodeId, start, run, n).status in {Completed, Failed}
  {
    TheLastResultDecides(nodeId, start, run, m);
    TheLastResultDecides(nodeId, start, run, n);
  }

  predicate FromNodes(run: seq<Timed<Event>>) {
    forall i :: 0 <= i < |run| ==> run[i].event.PayloadRead? || run[i].event.ResultPosted?
  }

  /** Whatever nodes do, a job of the server plane stays exactly as it was created. */
  lemma {:induction false} NodesCannotTouchServerJobs(start: Time, run: seq<Timed<Event>>, n: nat)
    requires n <= |run| && FromNodes(run)
    ensures After(None, start, run, n) == NewJob(None, start)
  {
    if n == 0 {
    } else {
      NodesCannotTouchServerJobs(start, run, n - 1);
    }
  }

  /** Event m ran the background task to its end. */
  predicate RanThrough(run: seq<Timed<Event>>, m: nat)
    requires m < |run|
  {
    run[m].event.ServerRan? && !run[m].event.run.Cancelled?
  }

  /**
   A job of the server plane is completed or failed, so that a mobile poll terminates, if and
   only if its background task ran to its end at some point; only a cancelled task leaves it open.
   */
  lemma {:induction false} ServerJobsFinishExactlyByTheirTask(start: Time, run: seq<Timed<Event>>, n: nat)
    requires n <= |run|
    ensures After(None, start, run, n).status in {Completed, Failed} <==> exists m :: 0 <= m < n && RanThrough(run, m)
  {
    TheLastResultDecides(None, start, run, n);
    assert forall m :: 0 <= m < n ==> (RanThrough(run, m) <==> ResultOf(None, run[m].event).Some?);
  }
}
