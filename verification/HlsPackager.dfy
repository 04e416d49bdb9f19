/**
 The HLS packager of one camera stream (app/api/hls_packager.py): a manager thread that keeps
 one ffmpeg running, against callers that start, replace and stop packagers.

 Threads interleave at single reads, writes and process operations, so the model is a
 transition system over those: the manager's program counter, the caller's teardown, the
 registry behind the module lock, and ffmpeg processes that may exit at any moment.
 */
module HlsPackager {
  import opened Options

  // ---------------------------------------------------------------- one packager

  /** Where the manager thread stands. */
  datatype Manager =
    | Prewarming
    | Deciding             // pre-warm over, about to look at the stop flag
    | Launching            // committed to launching, nothing spawned yet
    | Storing(proc: nat)   // spawned, but not yet written to pkg.process
    | Waiting              // in the monitor wait
    | Polling              // the wait timed out, about to poll the process
    | BackingOff           // saw an exit, in the back-off wait
    | Finished

  /** How far the one caller that tears the packager down has come. */
  datatype Teardown = Idle | Requested | FlagSet | HasRead(seen: Option<nat>) | TornDown

  /** `alive[i]` tells whether the i-th launched ffmpeg still runs; `late` counts launches after the stop flag. */
  datatype Packager = Packager(
    alive: seq<bool>, process: Option<nat>, stop: bool, manager: Manager, teardown: Teardown, late: nat)

  const NEW := Packager([], None, false, Prewarming, Idle, 0)

  datatype Action =
    | PrewarmEnds | Decide | Spawn | SpawnFails | Store
    | WaitTimesOut | WaitInterrupted | Poll | BackoffTimesOut | BackoffInterrupted
    | ProcessExits(proc: nat)
    | SetFlag | ReadProcess | Terminate

  predicate Exited(p: Packager, proc: nat) {
    proc < |p.alive| && !p.alive[proc]
  }

  predicate Enabled(p: Packager, a: Action) {
    match a
    case PrewarmEnds => p.manager == Prewarming
    case Decide => p.manager == Deciding
    case Spawn => p.manager == Launching
    case SpawnFails => p.manager == Launching
    case Store => p.manager.Storing?
    case WaitTimesOut => p.manager == Waiting && !p.stop
    case WaitInterrupted => p.manager == Waiting && p.stop
    case Poll => p.manager == Polling
    case BackoffTimesOut => p.manager == BackingOff && !p.stop
    case BackoffInterrupted => p.manager == BackingOff && p.stop
    case ProcessExits(i) => i < |p.alive| && p.alive[i]
    case SetFlag => p.teardown == Requested
    case ReadProcess => p.teardown == FlagSet
    case Terminate => p.teardown.HasRead?
  }

  function Act(p: Packager, a: Action): Packager
    requires Enabled(p, a)
  {
    match a
    case PrewarmEnds => p.(manager := Deciding)
    case Decide => p.(manager := if p.stop then Finished else Launching)
    case Spawn =>
      p.(alive := p.alive + [true], manager := Storing(|p.alive|), late := if p.stop then p.late + 1 else p.late)
    case SpawnFails => p.(manager := Finished)
    case Store => p.(process := Some(p.manager.proc), manager := Waiting)
    case WaitTimesOut => p.(manager := Polling)
    case WaitInterrupted => p.(manager := Finished)
    case Poll => p.(manager := if p.process.Some? && Exited(p, p.process.value) then BackingOff else Waiting)
    case BackoffTimesOut => p.(manager := Launching)
    case BackoffInterrupted => p.(manager := Finished)
    case ProcessExits(i) => p.(alive := p.alive[i := false])
    case SetFlag => p.(stop := true, teardown := FlagSet)
    case ReadProcess => p.(teardown := HasRead(p.process))
    case Terminate =>
      var seen := p.teardown.seen;
      var alive := if seen.Some? && seen.value < |p.alive| then p.alive[seen.value := false] else p.alive;
      p.(alive := alive, teardown := TornDown)
  }

  // ---------------------------------------------------------------- the registry of one stream

  /** All packagers ever made for the stream, the registered one, and the one a start() is replacing. */
  datatype World = World(packagers: seq<Packager>, registered: Option<nat>, replacing: Option<nat>)

  const EMPTY := World([], None, None)

  datatype Event =
    | StartFresh
    | StartReuse
    | ReplaceBegins
    | ReplaceEnds
    | StopPops
    | Inside(packager: nat, action: Action)

  /** The registered packager may be reused: it has not launched yet, or its ffmpeg runs. */
  predicate Reusable(p: Packager) {
    p.process.None? || !Exited(p, p.process.value)
  }

  predicate Registered(w: World) {
    w.registered.Some? && w.registered.value < |w.packagers|
  }

  /** start() and stop() take the module lock, which a replacing start() holds. */
  predicate Possible(w: World, e: Event) {
    match e
    case StartFresh => w.replacing.None? && w.registered.None?
    case StartReuse => w.replacing.None? && Registered(w) && Reusable(w.packagers[w.registered.value])
    case ReplaceBegins => w.replacing.None? && Registered(w) && !Reusable(w.packagers[w.registered.value])
    case ReplaceEnds => w.replacing.Some? && w.replacing.value < |w.packagers|
        && w.packagers[w.replacing.value].teardown == TornDown
    case StopPops => w.replacing.None? && Registered(w)
    case Inside(i, a) => i < |w.packagers| && Enabled(w.packagers[i], a)
  }

  function TearingDown(ps: seq<Packager>, i: nat): seq<Packager>
    requires i < |ps|
  {
    ps[i := ps[i].(teardown := Requested)]
  }

  function Next(w: World, e: Event): World
    requires Possible(w, e)
  {
    match e
    case StartFresh => World(w.packagers + [NEW], Some(|w.packagers|), None)
    case StartReuse => w
    case ReplaceBegins => w.(packagers := TearingDown(w.packagers, w.registered.value), replacing := w.registered)
    case ReplaceEnds => World(w.packagers + [NEW], Some(|w.packagers|), None)
    case StopPops => w.(packagers := TearingDown(w.packagers, w.registered.value), registered := None)
    case Inside(i, a) => w.(packagers := w.packagers[i := Act(w.packagers[i], a)])
  }

  ghost predicate Run(worlds: seq<World>, events: seq<Event>) {
    && |worlds| == |events| + 1 && worlds[0] == EMPTY
    && forall n :: 0 <= n < |events| ==> Follows(worlds, events, n)
  }

  ghost predicate Follows(worlds: seq<World>, events: seq<Event>, n: nat)
    requires n < |events| && |worlds| == |events| + 1
  {
    Possible(worlds[n], events[n]) && worlds[n + 1] == Next(worlds[n], events[n])
  }

  // ---------------------------------------------------------------- what a packager keeps

  ghost predicate NoneAlive(p: Packager) {
    forall i :: 0 <= i < |p.alive| ==> !p.alive[i]
  }

  /** The stored process is the last one launched, if any was. */
  predicate StoredLast(p: Packager) {
    p.process == if p.alive == [] then None else Some(|p.alive| - 1)
  }

  ghost predicate Orderly(p: Packager) {
    // a launch happens only over dead predecessors
    && (forall i :: 0 <= i < |p.alive| - 1 ==> !p.alive[i])
    && (p.manager in {Launching, BackingOff} ==> NoneAlive(p))
    && (p.manager in {Prewarming, Deciding} ==> p.alive == [])
    // only the moment between spawning and storing hides a process from the caller
    && (p.manager.Storing? ==> p.alive != [] && p.manager.proc == |p.alive| - 1
                               && (p.process.Some? ==> p.process.value < |p.alive| - 1))
    && (!p.manager.Storing? ==> StoredLast(p))
    && (p.manager in {Waiting, Polling} ==> p.alive != [])
    // unless it was told to stop, the manager ends only when a launch fails
    && (p.manager == Finished && !p.stop ==> NoneAlive(p))
    // the flag goes up with the teardown, and lets one committed launch through
    && (p.stop <==> p.teardown in {FlagSet, TornDown} || p.teardown.HasRead?)
    && p.late <= 1
    && (p.late == 1 ==> p.stop && p.manager !in {Prewarming, Deciding, Launching, Polling, BackingOff})
  }

  lemma {:induction false} OrderlyAct(p: Packager, a: Action)
    requires Orderly(p) && Enabled(p, a)
    ensures Orderly(Act(p, a))
  {}

  /** Every packager but the registered one is being or has been torn down. */
  ghost predicate OneInCharge(w: World) {
    && (w.registered.Some? ==> Registered(w))
    && (w.replacing.Some? ==> w.replacing == w.registered)
    && (forall i :: 0 <= i < |w.packagers| && w.packagers[i].teardown == Idle ==> w.registered == Some(i))
    && (w.registered.Some? && w.replacing.None? ==> w.packagers[w.registered.value].teardown == Idle)
  }

  ghost predicate AllOrderly(w: World) {
    forall i :: 0 <= i < |w.packagers| ==> Orderly(w.packagers[i])
  }

  lemma {:induction false} OneInChargeNext(w: World, e: Event)
    requires OneInCharge(w) && Possible(w, e)
    ensures OneInCharge(Next(w, e))
  {
    if e.Inside? {
      TeardownOnlyMovesOn(w.packagers[e.packager], e.action);
    }
  }

  lemma {:induction false} TeardownOnlyMovesOn(p: Packager, a: Action)
    requires Enabled(p, a)
    ensures Act(p, a).teardown == Idle <==> p.teardown == Idle
  {}

  lemma {:induction false} AllOrderlyNext(w: World, e: Event)
    requires OneInCharge(w) && AllOrderly(w) && Possible(w, e)
    ensures AllOrderly(Next(w, e))
  {
    if e.Inside? {
      OrderlyAct(w.packagers[e.packager], e.action);
    }
  }

  /** Every packager is orderly, and all but the registered one are on their way out. */
  lemma {:induction false} PackagersStayOrderly(worlds: seq<World>, events: seq<Event>, n: nat)
    requires Run(worlds, events) && n < |worlds|
    ensures OneInCharge(worlds[n]) && AllOrderly(worlds[n])
  {
    if n == 0 {
    } else {
      PackagersStayOrderly(worlds, events, n - 1);
      assert Follows(worlds, events, n - 1);
      OneInChargeNext(worlds[n - 1], events[n - 1]);
      AllOrderlyNext(worlds[n - 1], events[n - 1]);
    }
  }

  /**
   In every interleaving no packager ever has two live ffmpeg processes, and at most one
   launch happens after its stop flag is set.
   */
  lemma {:induction false} AtMostOneLiveProcess(worlds: seq<World>, events: seq<Event>, n: nat, k: nat, i: nat, j: nat)
    requires Run(worlds, events) && n < |worlds| && k < |worlds[n].packagers|
    requires var p := worlds[n].packagers[k]; i < |p.alive| && j < |p.alive| && p.alive[i] && p.alive[j]
    ensures i == j
    ensures worlds[n].packagers[k].late <= 1
  {
    PackagersStayOrderly(worlds, events, n);
    assert Orderly(worlds[n].packagers[k]);
  }

  /** A launch after the first happens only when every earlier process has exited. */
  lemma {:induction false} RespawnFollowsExit(worlds: seq<World>, events: seq<Event>, n: nat)
    requires Run(worlds, events) && n < |events|
    requires events[n].Inside? && events[n].action == Spawn && events[n].packager < |worlds[n].packagers|
    ensures NoneAlive(worlds[n].packagers[events[n].packager])
    ensures worlds[n].packagers[events[n].packager].late == 0
  {
    PackagersStayOrderly(worlds, events, n);
    assert Follows(worlds, events, n);
    assert Orderly(worlds[n].packagers[events[n].packager]);
  }

  /** However often start and stop are called, at most one packager of the stream is not being torn down. */
  lemma {:induction false} AtMostOnePackagerInCharge(worlds: seq<World>, events: seq<Event>, n: nat, i: nat, j: nat)
    requires Run(worlds, events) && n < |worlds|
    requires i < |worlds[n].packagers| && j < |worlds[n].packagers|
    requires worlds[n].packagers[i].teardown == Idle && worlds[n].packagers[j].teardown == Idle
    ensures i == j && worlds[n].registered == Some(i)
  {
    PackagersStayOrderly(worlds, events, n);
  }

  // ---------------------------------------------------------------- what survives a teardown

  /** The packager after a list of actions, each enabled in its turn. */
  ghost predicate Reaches(p: Packager, actions: seq<Action>, q: Packager)
    decreases |actions|
  {
    if actions == [] then p == q
    else Enabled(p, actions[0]) && Reaches(Act(p, actions[0]), actions[1..], q)
  }

  /** Both threads are through, and an ffmpeg still runs. */
  ghost predicate Orphaned(q: Packager) {
    q.teardown == TornDown && q.manager == Finished && !NoneAlive(q)
  }

  /** The manager is between committing to a launch and storing the live process. */
  predicate MidLaunch(p: Packager) {
    p.manager == Launching || (p.manager.Storing? && !Exited(p, p.manager.proc))
  }

  /** After a read outside a launch: the only process that may live is the one about to be terminated. */
  ghost predicate Contained(p: Packager) {
    && p.stop && p.manager != Launching
    && (p.manager.Storing? ==> NoneAlive(p))
    && (p.teardown == TornDown ==> NoneAlive(p))
    && (p.teardown.HasRead? ==> forall i :: 0 <= i < |p.alive| && p.alive[i] ==> p.teardown.seen == Some(i))
    && (p.teardown == TornDown || p.teardown.HasRead?)
  }

  lemma {:induction false} OrphanWitness(p: Packager) returns (actions: seq<Action>, q: Packager)
    requires Orderly(p) && p.teardown == FlagSet && MidLaunch(p)
    ensures actions != [] && actions[0] == ReadProcess && Reaches(p, actions, q) && Orphaned(q)
  {
    var store, wait, end := [Store, WaitInterrupted], [WaitInterrupted], [];
    assert store[1..] == wait && wait[1..] == end;
    var launch := [Spawn] + store;
    var body := if p.manager == Launching then launch else store;
    assert launch[1..] == store;
    actions := [ReadProcess, Terminate] + body;
    assert actions[1..] == [Terminate] + body && actions[1..][1..] == body;
    var p2 := Act(Act(p, ReadProcess), Terminate);
    var p3 := if p.manager == Launching then Act(p2, Spawn) else p2;
    var p4 := Act(p3, Store);
    q := Act(p4, WaitInterrupted);
    assert Reaches(q, end, q);
    assert Reaches(p4, wait, q);
    assert Reaches(p3, store, q);
    assert Reaches(p2, body, q);
    assert Reaches(Act(p, ReadProcess), [Terminate] + body, q);
    assert q.alive[|q.alive| - 1];
  }

  // ---------------------------------------------------------------- the same over whole runs

  /** The world after a list of events, each possible in its turn. */
  ghost predicate Continues(w: World, events: seq<Event>, v: World)
    decreases |events|
  {
    if events == [] then w == v
    else Possible(w, events[0]) && Continues(Next(w, events[0]), events[1..], v)
  }

  /** The teardown of packager k reads the process now, and in the end an ffmpeg of k is left running. */
  ghost predicate EndsOrphaned(w: World, k: nat, events: seq<Event>, v: World) {
    && events != [] && events[0] == Inside(k, ReadProcess) && Continues(w, events, v)
    && k < |v.packagers| && Orphaned(v.packagers[k])
  }

  /** What happens inside one packager can happen in the world. */
  lemma {:induction false} ActionsContinue(w: World, k: nat, actions: seq<Action>, q: Packager)
    returns (events: seq<Event>, v: World)
    requires k < |w.packagers| && Reaches(w.packagers[k], actions, q)
    ensures |events| == |actions| && forall i :: 0 <= i < |events| ==> events[i] == Inside(k, actions[i])
    ensures Continues(w, events, v) && k < |v.packagers| && v.packagers[k] == q
    decreases |actions|
  {
    if actions == [] {
      events, v := [], w;
    } else {
      var e := Inside(k, actions[0]);
      var rest;
      rest, v := ActionsContinue(Next(w, e), k, actions[1..], q);
      events := [e] + rest;
      assert events[1..] == rest;
    }
  }

  /** To packager k, an event of the world is one of its own actions, or nothing once it is being torn down. */
  lemma {:induction false} OthersLeaveItAlone(w: World, e: Event, k: nat)
    requires OneInCharge(w) && Possible(w, e) && k < |w.packagers|
    requires w.packagers[k].teardown !in {Idle, Requested}
    ensures k < |Next(w, e).packagers|
    ensures Next(w, e).packagers[k] == w.packagers[k]
         || (e.Inside? && e.packager == k && Next(w, e).packagers[k] == Act(w.packagers[k], e.action))
  {}

  lemma {:induction false} ContainedInTheWorld(w: World, k: nat, events: seq<Event>, v: World)
    requires OneInCharge(w) && Continues(w, events, v) && k < |w.packagers| && Contained(w.packagers[k])
    ensures k < |v.packagers| && Contained(v.packagers[k])
    decreases |events|
  {
    if events == [] {
    } else {
      var e := events[0];
      OneInChargeNext(w, e);
      OthersLeaveItAlone(w, e, k);
      if e.Inside? && e.packager == k {
        ContainedAct(w.packagers[k], e.action);
      }
      ContainedInTheWorld(Next(w, e), k, events[1..], v);
    }
  }

  lemma {:induction false} ContainedAct(p: Packager, a: Action)
    requires Contained(p) && Enabled(p, a)
    ensures Contained(Act(p, a))
  {}

  lemma {:induction false} ReadingContains(p: Packager)
    requires Orderly(p) && p.teardown == FlagSet && !MidLaunch(p)
    ensures Contained(Act(p, ReadProcess))
  {}

  /**
   In any run: when a teardown is about to read the process of its packager, an ffmpeg can be
   left running after both threads are through, by some continuation of the whole registry, if
   and only if the manager stands mid-launch at that moment.
   */
  lemma {:induction false} TeardownOrphansExactlyMidLaunch(worlds: seq<World>, events: seq<Event>, n: nat, k: nat)
    requires Run(worlds, events) && n < |worlds| && k < |worlds[n].packagers|
    requires worlds[n].packagers[k].teardown == FlagSet
    ensures (exists rest, v :: EndsOrphaned(worlds[n], k, rest, v)) <==> MidLaunch(worlds[n].packagers[k])
  {
    PackagersStayOrderly(worlds, events, n);
    var w, p := worlds[n], worlds[n].packagers[k];
    assert Orderly(p);
    if MidLaunch(p) {
      var actions, q := OrphanWitness(p);
      var rest, v := ActionsContinue(w, k, actions, q);
      assert EndsOrphaned(w, k, rest, v);
    } else {
      forall rest, v ensures !EndsOrphaned(w, k, rest, v) {
        if EndsOrphaned(w, k, rest, v) {
          var e := rest[0];
          ReadingContains(p);
          OneInChargeNext(w, e);
          ContainedInTheWorld(Next(w, e), k, rest[1..], v);
        }
      }
    }
  }

  /** A run from nothing: a stream is started, its manager commits to the first launch, and stop() gets in between. */
  lemma {:induction false} MidLaunchIsReached() returns (worlds: seq<World>, events: seq<Event>)
    ensures Run(worlds, events) && |worlds| == 6
    ensures |worlds[5].packagers| == 1
    ensures worlds[5].packagers[0].teardown == FlagSet && MidLaunch(worlds[5].packagers[0])
  {
    events := [StartFresh, Inside(0, PrewarmEnds), Inside(0, Decide), StopPops, Inside(0, SetFlag)];
    var w1 := Next(EMPTY, events[0]);
    var w2 := Next(w1, events[1]);
    var w3 := Next(w2, events[2]);
    var w4 := Next(w3, events[3]);
    worlds := [EMPTY, w1, w2, w3, w4, Next(w4, events[4])];
    assert forall n :: 0 <= n < |events| ==> Follows(worlds, events, n);
  }

  /** So an orphan is real: this run can be continued to one. */
  lemma {:induction false} AnOrphanIsReached()
    returns (worlds: seq<World>, events: seq<Event>, rest: seq<Event>, v: World)
    ensures Run(worlds, events) && worlds != [] && EndsOrphaned(worlds[|worlds| - 1], 0, rest, v)
  {
    worlds, events := MidLaunchIsReached();
    TeardownOrphansExactlyMidLaunch(worlds, events, 5, 0);
    rest, v :| EndsOrphaned(worlds[5], 0, rest, v);
  }

  // ---------------------------------------------------------------- a manager that died

  /**
   A registered packager whose manager has ended without being told to has nothing running;
   the next start() replaces it if it had launched before, and reuses the dead packager if and
   only if its very first launch had failed.
   */
  lemma {:induction false} DeadPackagersAreReusedExactlyIfNeverLaunched(worlds: seq<World>, events: seq<Event>, n: nat)
    requires Run(worlds, events) && n < |worlds|
    requires worlds[n].replacing.None? && Registered(worlds[n])
    requires worlds[n].packagers[worlds[n].registered.value].manager == Finished
    ensures var p := worlds[n].packagers[worlds[n].registered.value];
            && NoneAlive(p)
            && (Possible(worlds[n], StartReuse) <==> p.alive == [])
            && (Possible(worlds[n], ReplaceBegins) <==> p.alive != [])
  {
    PackagersStayOrderly(worlds, events, n);
    var p := worlds[n].packagers[worlds[n].registered.value];
    assert Orderly(p) && p.teardown == Idle;
  }

  /** The packager is registered and dead, and has never launched. */
  ghost predicate Stuck(w: World, k: nat) {
    && w.replacing.None? && w.registered == Some(k) && k < |w.packagers|
    && w.packagers[k] == NEW.(manager := Finished)
  }

  lemma {:induction false} StuckStep(w: World, e: Event, k: nat)
    requires Stuck(w, k) && Possible(w, e)
    ensures Stuck(Next(w, e), k) <==> e != StopPops
  {}

  /** However often start() is called, the stream stays with the dead packager exactly until stop(). */
  lemma {:induction false} StuckExactlyUntilStop(worlds: seq<World>, events: seq<Event>, m: nat, n: nat, k: nat)
    requires Run(worlds, events) && m <= n < |worlds| && Stuck(worlds[m], k)
    ensures (forall i :: m <= i <= n ==> Stuck(worlds[i], k)) <==> (forall i :: m <= i < n ==> events[i] != StopPops)
    decreases n
  {
    if m == n {
    } else {
      StuckExactlyUntilStop(worlds, events, m, n - 1, k);
      if forall i :: m <= i <= n - 1 ==> Stuck(worlds[i], k) {
        assert Follows(worlds, events, n - 1) && Stuck(worlds[n - 1], k);
        StuckStep(worlds[n - 1], events[n - 1], k);
      }
    }
  }

  /** A first launch that fails leads there. */
  lemma {:induction false} StuckIsReached() returns (worlds: seq<World>, events: seq<Event>)
    ensures Run(worlds, events) && |worlds| == 5 && Stuck(worlds[4], 0)
  {
    events := [StartFresh, Inside(0, PrewarmEnds), Inside(0, Decide), Inside(0, SpawnFails)];
    var w1 := Next(EMPTY, events[0]);
    var w2 := Next(w1, events[1]);
    var w3 := Next(w2, events[2]);
    worlds := [EMPTY, w1, w2, w3, Next(w3, events[3])];
    assert forall n :: 0 <= n < |events| ==> Follows(worlds, events, n);
  }
}
