/**
 How the packager gets on (app/api/hls_packager.py): a stream that starts gets its ffmpeg, a
 process that died is replaced, and a manager told to stop is through within three steps.
 */
module HlsProgress {
  import opened Options
  import opened HlsPackager

  /** The steps the manager thread takes itself. */
  predicate IsManagerStep(a: Action) {
    match a
    case PrewarmEnds | Decide | Spawn | SpawnFails | Store => true
    case WaitTimesOut | WaitInterrupted | Poll | BackoffTimesOut | BackoffInterrupted => true
    case ProcessExits(_) | SetFlag | ReadProcess | Terminate => false
  }

  /** Until it is finished, the manager always has a step to take. */
  lemma {:induction false} ManagersNeverBlock(p: Packager)
    requires p.manager != Finished
    ensures exists a :: IsManagerStep(a) && Enabled(p, a)
  {
    var a := match p.manager
      case Prewarming => PrewarmEnds
      case Deciding => Decide
      case Launching => Spawn
      case Storing(_) => Store
      case Waiting => if p.stop then WaitInterrupted else WaitTimesOut
      case Polling => Poll
      case BackingOff => if p.stop then BackoffInterrupted else BackoffTimesOut
      case Finished => Poll;
    assert IsManagerStep(a) && Enabled(p, a);
  }

  // ---------------------------------------------------------------- a process that died

  /** A poll goes on to replace the process exactly if it has exited, and else back to waiting for it. */
  lemma {:induction false} PollsReplaceExactlyTheDead(p: Packager)
    requires Orderly(p) && p.manager == Polling
    ensures p.alive != [] && Enabled(p, Poll)
    ensures Act(p, Poll) == if p.alive[|p.alive| - 1] then p.(manager := Waiting) else p.(manager := BackingOff)
  {}

  const RESPAWN: seq<Action> := [Poll, BackoffTimesOut, Spawn, Store]

  lemma {:induction false} RespawnReaches(p: Packager) returns (q: Packager)
    requires Orderly(p) && p.manager == Polling && !p.stop && !p.alive[|p.alive| - 1]
    ensures Reaches(p, RESPAWN, q) && q.alive == p.alive + [true] && q.process == Some(|p.alive|)
  {
    var p1 := Act(p, Poll);
    var p2 := Act(p1, BackoffTimesOut);
    var p3 := Act(p2, Spawn);
    q := Act(p3, Store);
    assert RESPAWN[1..] == [BackoffTimesOut, Spawn, Store] && RESPAWN[1..][1..] == [Spawn, Store];
    assert RESPAWN[1..][1..][1..] == [Store] && RESPAWN[1..][1..][1..][1..] == [];
    assert Reaches(q, [], q);
    assert Reaches(p3, [Store], q);
    assert Reaches(p2, [Spawn, Store], q);
    assert Reaches(p1, [BackoffTimesOut, Spawn, Store], q);
  }

  /**
   In any run: when the manager polls a process that has exited, and was not told to stop, its
   next four steps are possible whatever else goes on, and put one new live process in its place.
   */
  lemma {:induction false} DeadProcessesAreReplaced(worlds: seq<World>, events: seq<Event>, n: nat, k: nat)
    returns (rest: seq<Event>, v: World)
    requires Run(worlds, events) && n < |worlds| && k < |worlds[n].packagers|
    requires var p := worlds[n].packagers[k];
             p.manager == Polling && !p.stop && forall i :: 0 <= i < |p.alive| ==> !p.alive[i]
    ensures rest == [Inside(k, Poll), Inside(k, BackoffTimesOut), Inside(k, Spawn), Inside(k, Store)]
    ensures Continues(worlds[n], rest, v) && k < |v.packagers|
    ensures var p, q := worlds[n].packagers[k], v.packagers[k];
            q.alive == p.alive + [true] && q.process == Some(|p.alive|)
  {
    PackagersStayOrderly(worlds, events, n);
    assert Orderly(worlds[n].packagers[k]);
    var q := RespawnReaches(worlds[n].packagers[k]);
    rest, v := ActionsContinue(worlds[n], k, RESPAWN, q);
  }

  /** A stream that is started gets an ffmpeg that runs and is stored, with nobody else taking part. */
  lemma {:induction false} AStartedStreamRuns() returns (worlds: seq<World>, events: seq<Event>)
    ensures Run(worlds, events) && |worlds| == 6 && |worlds[5].packagers| == 1
    ensures events == [StartFresh, Inside(0, PrewarmEnds), Inside(0, Decide), Inside(0, Spawn), Inside(0, Store)]
    ensures worlds[5].packagers[0].alive == [true] && worlds[5].packagers[0].process == Some(0)
    ensures worlds[5].registered == Some(0)
  {
    events := [StartFresh, Inside(0, PrewarmEnds), Inside(0, Decide), Inside(0, Spawn), Inside(0, Store)];
    var w1 := Next(EMPTY, events[0]);
    var w2 := Next(w1, events[1]);
    var w3 := Next(w2, events[2]);
    var w4 := Next(w3, events[3]);
    worlds := [EMPTY, w1, w2, w3, w4, Next(w4, events[4])];
    assert forall n :: 0 <= n < |events| ==> Follows(worlds, events, n);
  }

  /** A start() that replaces a packager puts the new one in its place only once the old one is torn down. */
  lemma {:induction false} ReplacementsWaitForTheTeardown(worlds: seq<World>, events: seq<Event>, n: nat)
    requires Run(worlds, events) && n < |events| && events[n] == ReplaceEnds
    ensures worlds[n].registered.Some? && worlds[n].registered.value < |worlds[n].packagers|
    ensures worlds[n].packagers[worlds[n].registered.value].teardown == TornDown
    ensures worlds[n].packagers[worlds[n].registered.value].stop
    ensures |worlds[n + 1].packagers| == |worlds[n].packagers| + 1
            && worlds[n + 1].registered == Some(|worlds[n].packagers|)
            && worlds[n + 1].packagers[|worlds[n].packagers|].manager == Prewarming
  {
    PackagersStayOrderly(worlds, events, n);
    assert Follows(worlds, events, n);
    assert Orderly(worlds[n].packagers[worlds[n].registered.value]);
  }

  // ---------------------------------------------------------------- a manager told to stop

  /** How many steps a manager that was told to stop can still take. */
  function StepsLeft(m: Manager): nat {
    match m
    case Prewarming => 2
    case Deciding => 1
    case Launching => 3
    case Storing(_) => 2
    case Waiting => 1
    case Polling => 2
    case BackingOff => 1
    case Finished => 0
  }

  lemma {:induction false} StoppingAct(p: Packager, a: Action)
    requires p.stop && Enabled(p, a)
    ensures Act(p, a).stop
    ensures StepsLeft(Act(p, a).manager) + (if IsManagerStep(a) then 1 else 0) <= StepsLeft(p.manager)
  {}

  /** The manager steps of packager k among events m to n. */
  function ManagerSteps(events: seq<Event>, k: nat, m: nat, n: nat): nat
    requires m <= n <= |events|
    decreases n
  {
    if m == n then 0
    else ManagerSteps(events, k, m, n - 1)
         + (if events[n - 1].Inside? && events[n - 1].packager == k
             && IsManagerStep(events[n - 1].action) then 1 else 0)
  }

  lemma {:induction false} StepsAreUsedUp(worlds: seq<World>, events: seq<Event>, m: nat, n: nat, k: nat)
    requires Run(worlds, events) && m <= n < |worlds| && k < |worlds[m].packagers| && worlds[m].packagers[k].stop
    ensures k < |worlds[n].packagers| && worlds[n].packagers[k].stop
    ensures StepsLeft(worlds[n].packagers[k].manager) + ManagerSteps(events, k, m, n)
            <= StepsLeft(worlds[m].packagers[k].manager)
    decreases n
  {
    if m == n {
    } else {
      StepsAreUsedUp(worlds, events, m, n - 1, k);
      assert Follows(worlds, events, n - 1);
      PackagersStayOrderly(worlds, events, n - 1);
      assert Orderly(worlds[n - 1].packagers[k]);
      OthersLeaveItAlone(worlds[n - 1], events[n - 1], k);
      if events[n - 1].Inside? && events[n - 1].packager == k {
        StoppingAct(worlds[n - 1].packagers[k], events[n - 1].action);
      }
    }
  }

  /**
   Once the stop flag of a packager is up, its manager takes at most three more steps in any run,
   and whenever it has taken fewer than it can it is able to take the next: so it ends.
   */
  lemma {:induction false} StoppedManagersEnd(worlds: seq<World>, events: seq<Event>, m: nat, n: nat, k: nat)
    requires Run(worlds, events) && m <= n < |worlds| && k < |worlds[m].packagers| && worlds[m].packagers[k].stop
    ensures ManagerSteps(events, k, m, n) <= 3 && k < |worlds[n].packagers|
    ensures worlds[n].packagers[k].manager == Finished
            || (ManagerSteps(events, k, m, n) < 3
                && exists a :: IsManagerStep(a) && Enabled(worlds[n].packagers[k], a))
  {
    StepsAreUsedUp(worlds, events, m, n, k);
    if worlds[n].packagers[k].manager != Finished {
      ManagersNeverBlock(worlds[n].packagers[k]);
    }
  }
}
