/**
 Requests a node must answer before they expire: package install, uninstall and revert
 (app/api/package_install.py), and the Bluetooth scan and pair requests
 (app/api/bluetooth.py), which are the same machine without extension or verification.
 */
module ExpiringRequests {
  import opened Options
  import opened Runs

  // times are in microseconds

  const SECOND: Time := 1_000_000
  const INSTALL_TTL: Time := 5 * 60 * SECOND
  const RESTART_EXTENSION: Time := 120 * SECOND
  const BLUETOOTH_TTL: Time := 2 * 60 * SECOND

  datatype Status = Pending | Restarting | Completed | Failed | Expired

  datatype Row = Row(
    status: Status, createdAt: Time, expiresAt: Time, completedAt: Option<Time>,
    error: Option<string>, details: Option<string>)

  /** What the node uploads; details that are absent or empty are `None`. */
  datatype Upload = Upload(success: bool, error: Option<string>, details: Option<string>, restarting: bool)

  datatype Reply =
    | Gone                     // 410
    | AlreadyHandled(status: Status)
    | Confirmed
    | Accepted
    | Polled(status: Status, error: Option<string>, details: Option<string>)

  /** An endpoint expires a request only strictly after its time. */
  predicate Late(r: Row, now: Time) {
    r.expiresAt < now
  }

  function Opened(now: Time, ttl: Time): Row {
    Row(Pending, now, now + ttl, None, None, None)
  }

  function AfterVerify(r: Row, now: Time): Row {
    if Late(r, now) then r.(status := Expired) else r
  }

  function AfterUpload(r: Row, body: Upload, now: Time): Row {
    if Late(r, now) then r.(status := Expired)
    else
      var details := if body.details.Some? then body.details else r.details;
      if body.restarting then r.(status := Restarting, expiresAt := r.expiresAt + RESTART_EXTENSION, details := details)
      else if body.success then r.(status := Completed, details := details, completedAt := Some(now))
      else r.(status := Failed, error := Some(TextOr(body.error, "Unknown error")), completedAt := Some(now))
  }

  function AfterPoll(r: Row, now: Time): Row {
    if r.status in {Pending, Restarting} && Late(r, now) then r.(status := Expired) else r
  }

  const EXPIRED_MESSAGE := "Install request expired — node may be offline"

  /** One request row and the endpoints on it. */
  class Request {
    var status: Status
    const createdAt: Time
    var expiresAt: Time
    var completedAt: Option<Time>
    var error: Option<string>
    var details: Option<string>

    constructor (now: Time, ttl: Time)
      ensures Snapshot() == Opened(now, ttl)
    {
      status, createdAt, expiresAt := Pending, now, now + ttl;
      completedAt, error, details := None, None, None;
    }

    function Snapshot(): Row
      reads this
    {
      Row(status, createdAt, expiresAt, completedAt, error, details)
    }

    method Verify(now: Time) returns (reply: Reply)
      modifies this
      ensures Snapshot() == AfterVerify(old(Snapshot()), now)
      ensures reply == Confirmed <==> now <= expiresAt && old(status) == Pending
      ensures reply == Gone <==> expiresAt < now
    {
      if expiresAt < now {
        status := Expired;
        return Gone;
      }
      if status != Pending {
        return AlreadyHandled(status);
      }
      return Confirmed;
    }

    method UploadResults(body: Upload, now: Time) returns (reply: Reply)
      modifies this
      ensures Snapshot() == AfterUpload(old(Snapshot()), body, now)
      ensures reply == if old(expiresAt) < now then Gone else Accepted
    {
      if expiresAt < now {
        status := Expired;
        return Gone;
      }
      if body.restarting {
        status := Restarting;
        expiresAt := expiresAt + RESTART_EXTENSION;
        if body.details.Some? {
          details := body.details;
        }
        return Accepted;
      }
      if body.success {
        status := Completed;
        if body.details.Some? {
          details := body.details;
        }
      } else {
        status := Failed;
        error := Some(TextOr(body.error, "Unknown error"));
      }
      completedAt := Some(now);
      return Accepted;
    }

    method ExpireOnPoll(now: Time)
      modifies this`status
      ensures Snapshot() == AfterPoll(old(Snapshot()), now)
    {
      if (status == Pending || status == Restarting) && expiresAt < now {
        status := Expired;
      }
    }

    /** The install poll tailors its answer to the status. */
    method PollInstall(now: Time) returns (reply: Reply)
      modifies this`status
      ensures Snapshot() == AfterPoll(old(Snapshot()), now)
      ensures reply.Polled? && reply.status == status
      ensures reply.error ==
              if status == Expired then Some("Install request expired — node may be offline")
              else if status == Failed then error else None
      ensures reply.details == if status == Completed then details else None
    {
      ExpireOnPoll(now);
      if status == Expired {
        return Polled(Expired, Some(EXPIRED_MESSAGE), None);
      }
      if status == Pending || status == Restarting {
        return Polled(status, None, None);
      }
      if status == Failed {
        return Polled(Failed, error, None);
      }
      return Polled(Completed, None, details);
    }

    /** The uninstall and revert polls hand back whatever the row holds. */
    method PollRemoval(now: Time) returns (reply: Reply)
      modifies this`status
      ensures Snapshot() == AfterPoll(old(Snapshot()), now)
      ensures reply == Polled(status, if status in {Failed, Expired} then error else None, details)
    {
      ExpireOnPoll(now);
      return Polled(status, if status in {Failed, Expired} then error else None, details);
    }

    /**
     The Bluetooth polls answer an expired request with 410; a Bluetooth request never restarts
     (BluetoothNeverExtends).
     */
    method PollBluetooth(now: Time) returns (reply: Reply)
      requires status != Restarting
      modifies this`status
      ensures Snapshot() == AfterPoll(old(Snapshot()), now)
      ensures reply == Gone <==> status == Expired
      ensures status != Expired ==>
              reply == Polled(status, if status == Failed then error else None,
                              if status == Completed then details else None)
    {
      if status == Pending && expiresAt < now {
        status := Expired;
      }
      if status == Expired {
        return Gone;
      }
      return Polled(status, if status == Failed then error else None, if status == Completed then details else None);
    }
  }

  // ---------------------------------------------------------------- runs

  datatype Event = VerifyEvent | UploadEvent(body: Upload) | PollEvent
  function Step(r: Row, e: Event, now: Time): Row {
    match e
    case VerifyEvent => AfterVerify(r, now)
    case UploadEvent(body) => AfterUpload(r, body, now)
    case PollEvent => AfterPoll(r, now)
  }

  /** The row after n events on a request opened at `start`. */
  function After(start: Time, ttl: Time, run: seq<Timed<Event>>, n: nat): Row
    requires n <= |run|
  {
    if n == 0 then Opened(start, ttl) else Step(After(start, ttl, run, n - 1), run[n - 1].event, run[n - 1].at)
  }

  /** Bluetooth requests are neither verified nor restarted. */
  ghost predicate BluetoothRun(run: seq<Timed<Event>>) {
    forall i :: 0 <= i < |run| ==>
        run[i].event.PollEvent? || (run[i].event.UploadEvent? && !run[i].event.body.restarting)
  }

  /** The uploads of a run that announced a restart and were accepted. */
  function AcceptedRestarts(start: Time, ttl: Time, run: seq<Timed<Event>>, n: nat): nat
    requires n <= |run|
  {
    if n == 0 then 0
    else
      AcceptedRestarts(start, ttl, run, n - 1)
      + (if run[n - 1].event.UploadEvent? && run[n - 1].event.body.restarting
            && !Late(After(start, ttl, run, n - 1), run[n - 1].at) then 1 else 0)
  }

  /** The deadline is exactly the time to live plus two minutes per accepted restart, whatever else happens. */
  lemma {:induction false} DeadlineCountsRestarts(start: Time, ttl: Time, run: seq<Timed<Event>>, n: nat)
    requires n <= |run|
    ensures After(start, ttl, run, n).createdAt == start
    ensures After(start, ttl, run, n).expiresAt == start + ttl
            + 120 * 1_000_000 * AcceptedRestarts(start, ttl, run, n)
  {
    if n == 0 {
    } else {
      DeadlineCountsRestarts(start, ttl, run, n - 1);
    }
  }

  lemma {:induction false} ExpiredMeansLate(start: Time, ttl: Time, run: seq<Timed<Event>>, n: nat)
    requires Chronological(run) && n <= |run|
    ensures After(start, ttl, run, n).status == Expired ==> n > 0 && Late(After(start, ttl, run, n), run[n - 1].at)
  {
    if n == 0 {
    } else {
      ExpiredMeansLate(start, ttl, run, n - 1);
      assert n > 1 ==> run[n - 2].at <= run[n - 1].at;
    }
  }

  /** Expiry is absorbing: no later call of any kind changes the row again. */
  lemma {:induction false} ExpiryIsAbsorbing(start: Time, ttl: Time, run: seq<Timed<Event>>, m: nat, n: nat)
    requires Chronological(run) && m <= n <= |run|
    requires After(start, ttl, run, m).status == Expired
    ensures After(start, ttl, run, n) == After(start, ttl, run, m)
    decreases n
  {
    if m == n {
    } else {
      ExpiryIsAbsorbing(start, ttl, run, m, n - 1);
      ExpiredMeansLate(start, ttl, run, n - 1);
      assert run[n - 2].at <= run[n - 1].at;
    }
  }

  /**
   Which call expires a request: a verify or an upload whenever it comes too late, even on a
   completed or failed request, but a poll only while the request is open.
   */
  lemma {:induction false} ExactlyLateCallsExpire(start: Time, ttl: Time, run: seq<Timed<Event>>, n: nat)
    requires Chronological(run) && n < |run|
    ensures After(start, ttl, run, n + 1).status == Expired <==>
            After(start, ttl, run, n).expiresAt < run[n].at
            && !(run[n].event == PollEvent && After(start, ttl, run, n).status in {Completed, Failed})
  {
    ExpiredMeansLate(start, ttl, run, n);
  }

  /**
   The calls that leave a completed or failed request as settled as it is, known before they
   are made: any poll, a verify that is on time, and an upload that is on time, announces no
   restart and reports the same outcome again.  `deadline` is the one the request has.
   */
  predicate Repeats(status: Status, deadline: Time, timed: Timed<Event>) {
    match timed.event
    case PollEvent => true
    case VerifyEvent => timed.at <= deadline
    case UploadEvent(body) => timed.at <= deadline && !body.restarting && (body.success <==> status == Completed)
  }

  lemma {:induction false} SettledStep(r: Row, timed: Timed<Event>)
    requires r.status in {Completed, Failed}
    ensures Step(r, timed.event, timed.at).status == r.status <==> Repeats(r.status, r.expiresAt, timed)
    ensures Repeats(r.status, r.expiresAt, timed) ==> Step(r, timed.event, timed.at).expiresAt == r.expiresAt
  {}

  /** The status, and with it the deadline, is the same at every point from event m to event n. */
  ghost predicate Lasts(start: Time, ttl: Time, run: seq<Timed<Event>>, m: nat, n: nat)
    requires m <= n <= |run|
  {
    forall i :: m <= i <= n ==> After(start, ttl, run, i).status == After(start, ttl, run, m).status
  }

  /**
   How long an outcome lasts: a completed request stays completed, and a failed one failed,
   if and only if every call in between is a poll, an on-time verify, or an on-time upload of
   the same outcome without a restart.
   */
  lemma {:induction false} OutcomesLastExactlyUnderRepeats(
      start: Time, ttl: Time, run: seq<Timed<Event>>, m: nat, n: nat)
    requires m <= n <= |run| && After(start, ttl, run, m).status in {Completed, Failed}
    ensures var r := After(start, ttl, run, m);
            Lasts(start, ttl, run, m, n) <==> forall i :: m <= i < n ==> Repeats(r.status, r.expiresAt, run[i])
    ensures Lasts(start, ttl, run, m, n) ==>
              After(start, ttl, run, n).expiresAt == After(start, ttl, run, m).expiresAt
    decreases n
  {
    if m == n {
    } else {
      OutcomesLastExactlyUnderRepeats(start, ttl, run, m, n - 1);
      var before := After(start, ttl, run, n - 1);
      if Lasts(start, ttl, run, m, n - 1) {
        SettledStep(before, run[n - 1]);
        assert Lasts(start, ttl, run, m, n) <==> After(start, ttl, run, n).status == before.status;
      } else {
        assert !Lasts(start, ttl, run, m, n);
      }
    }
  }

  /** A completed install is lost to a late upload, so only expiry is final. */
  lemma {:induction false} CompletionIsNotFinal()
    ensures exists run: seq<Timed<Event>>, m: nat, n: nat :: Chronological(run) && m < n <= |run|
              && After(0, INSTALL_TTL, run, m).status == Completed && After(0, INSTALL_TTL, run, n).status == Expired
    ensures exists run: seq<Timed<Event>>, m: nat, n: nat :: Chronological(run) && m < n <= |run|
              && After(0, INSTALL_TTL, run, m).status == Completed && After(0, INSTALL_TTL, run, n).status == Restarting
  {
    var done, again := Upload(true, None, None, false), Upload(true, None, None, true);
    var lost := [Timed(UploadEvent(done), 1), Timed(UploadEvent(done), INSTALL_TTL + 1)];
    var reopened := [Timed(UploadEvent(done), 1), Timed(UploadEvent(again), 2)];
    assert After(0, INSTALL_TTL, lost, 0) == Opened(0, INSTALL_TTL) == After(0, INSTALL_TTL, reopened, 0);
    assert After(0, INSTALL_TTL, lost, 1).status == Completed && After(0, INSTALL_TTL, lost, 2).status == Expired;
    assert After(0, INSTALL_TTL, reopened, 1).status == Completed
        && After(0, INSTALL_TTL, reopened, 2).status == Restarting;
    assert Chronological(lost) && Chronological(reopened);
  }

  /** A poll answers pending or restarting only while the extended deadline has not passed. */
  lemma {:induction false} PollsFindOpenOnlyUnexpired(start: Time, ttl: Time, run: seq<Timed<Event>>, n: nat)
    requires n < |run| && run[n].event == PollEvent
    ensures After(start, ttl, run, n + 1).status in {Pending, Restarting} <==>
            After(start, ttl, run, n).status in {Pending, Restarting}
            && run[n].at <= start + ttl + 120 * 1_000_000 * AcceptedRestarts(start, ttl, run, n)
  {
    DeadlineCountsRestarts(start, ttl, run, n);
  }

  /** An upload the request accepted. */
  ghost predicate AcceptedUpload(start: Time, ttl: Time, run: seq<Timed<Event>>, i: nat)
    requires i < |run|
  {
    run[i].event.UploadEvent? && run[i].at <= After(start, ttl, run, i).expiresAt
  }

  /** An upload that leaves its details: of a restart or a success, and only if it has any. */
  predicate BringsDetails(body: Upload) {
    (body.restarting || body.success) && body.details.Some?
  }

  predicate ReportsFailure(body: Upload) {
    !body.restarting && !body.success
  }

  /** Event k was an accepted upload of a kind that no accepted upload up to event n was again. */
  ghost predicate LastOfKind(
      start: Time, ttl: Time, run: seq<Timed<Event>>, k: nat, n: nat, kind: Upload -> bool)
    requires k < n <= |run|
  {
    && AcceptedUpload(start, ttl, run, k) && kind(run[k].event.body)
    && forall i :: k < i < n && AcceptedUpload(start, ttl, run, i) ==> !kind(run[i].event.body)
  }

  /**
   What a row says in the end: the details of the last accepted upload that left any, the error of
   the last accepted failure, the time of the last accepted outcome, and, unless it has expired,
   the status that the last accepted upload of all gave it.
   */
  lemma {:induction false} TheLastUploadOfEachKindDecides(
      start: Time, ttl: Time, run: seq<Timed<Event>>, k: nat, n: nat)
    requires k < n <= |run| && AcceptedUpload(start, ttl, run, k)
    ensures var row, body := After(start, ttl, run, n), run[k].event.body;
            && (LastOfKind(start, ttl, run, k, n, BringsDetails) ==> row.details == body.details)
            && (LastOfKind(start, ttl, run, k, n, ReportsFailure) ==>
                  row.error == Some(if body.error.Some? && body.error.value != "" then body.error.value
                                    else "Unknown error"))
            && (LastOfKind(start, ttl, run, k, n, (b: Upload) => !b.restarting) ==>
                  row.completedAt == Some(run[k].at))
            && (LastOfKind(start, ttl, run, k, n, (b: Upload) => true) && row.status != Expired ==>
                  row.status == if body.restarting then Restarting else if body.success then Completed else Failed)
    decreases n
  {
    if k + 1 < n {
      TheLastUploadOfEachKindDecides(start, ttl, run, k, n - 1);
    }
  }

  lemma {:induction false} PendingStep(r: Row, e: Event, now: Time)
    ensures Step(r, e, now).status == Pending <==> r.status == Pending && !Late(r, now) && !e.UploadEvent?
    ensures Step(r, e, now).status == Pending ==> Step(r, e, now) == r
  {}

  /** A request is still pending exactly while no upload was accepted and no call came late. */
  lemma {:induction false} PendingMeansUntouched(start: Time, ttl: Time, run: seq<Timed<Event>>, n: nat)
    requires n <= |run|
    ensures After(start, ttl, run, n).status == Pending <==>
            forall i :: 0 <= i < n ==>
                !AcceptedUpload(start, ttl, run, i) && !Late(After(start, ttl, run, i), run[i].at)
    ensures After(start, ttl, run, n).status == Pending ==> After(start, ttl, run, n) == Opened(start, ttl)
  {
    if n == 0 {
    } else {
      PendingMeansUntouched(start, ttl, run, n - 1);
      PendingStep(After(start, ttl, run, n - 1), run[n - 1].event, run[n - 1].at);
    }
  }

  /**
   The gate a node passes before installing: a confirmation at event n means that no result
   was accepted before, so each confirmed request is confirmed only ahead of its first result.
   */
  lemma {:induction false} ConfirmationPrecedesResults(start: Time, ttl: Time, run: seq<Timed<Event>>, n: nat)
    requires n < |run| && run[n].event == VerifyEvent
    requires !Late(After(start, ttl, run, n), run[n].at) && After(start, ttl, run, n).status == Pending
    ensures forall i :: 0 <= i < n ==> !AcceptedUpload(start, ttl, run, i)
    ensures run[n].at <= start + ttl
  {
    PendingMeansUntouched(start, ttl, run, n);
  }

  /** A Bluetooth request is never restarted: its deadline stays, and no poll finds it open after two minutes. */
  lemma {:induction false} BluetoothNeverExtends(start: Time, run: seq<Timed<Event>>, n: nat)
    requires BluetoothRun(run) && Chronological(run) && n <= |run|
    ensures After(start, BLUETOOTH_TTL, run, n).status != Restarting
    ensures After(start, BLUETOOTH_TTL, run, n).expiresAt == start + 120 * 1_000_000
    ensures n > 0 && start + 120 * 1_000_000 < run[n - 1].at ==>
            After(start, BLUETOOTH_TTL, run, n).status in {Completed, Failed, Expired}
  {
    if n == 0 {
    } else {
      BluetoothNeverExtends(start, run, n - 1);
    }
  }
}
