/**
 The in-memory token bucket that meters signal posts (app/api/signals.py).

 Each (household, source) pair owns a bucket of at most 60 tokens that refills at one
 token a second, lazily, whenever it is looked at.  The module proves what the bucket
 means for callers: how many calls any window can let through, exactly which calls are
 refused, and that a refused call leaves no trace.
 */
module RateLimiter {
  import opened Options

  const BUDGET_PER_MIN := 60.0
  const REFILL_PER_SECOND := BUDGET_PER_MIN / 60.0

  datatype Bucket = Bucket(tokens: real, last: real)

  /** (household, source agent) */
  type Key = (string, string)
  type State = map<Key, Bucket>

  datatype Call = Call(key: Key, at: real)

  /** A missing or empty source agent counts as "external". */
  function KeyFor(household: string, source: Option<string>): Key {
    (household, if source.None? || source.value == "" then "external" else source.value)
  }

  /** The tokens a bucket holds at `now`: refilled since it was last written, capped. */
  function Refilled(b: Bucket, now: real): real {
    var raw := b.tokens + (now - b.last) * REFILL_PER_SECOND;
    if raw < BUDGET_PER_MIN then raw else BUDGET_PER_MIN
  }

  /** The tokens a key has at `now`; a key never seen has a full bucket. */
  function Level(state: State, key: Key, now: real): real {
    if key in state then Refilled(state[key], now) else BUDGET_PER_MIN
  }

  predicate Admits(state: State, call: Call) {
    Level(state, call.key, call.at) >= 1.0
  }

  function Next(state: State, call: Call): State {
    var tokens := Level(state, call.key, call.at);
    state[call.key := Bucket(if tokens < 1.0 then tokens else tokens - 1.0, call.at)]
  }

  /** Two posts share a bucket exactly if they are of one household and name the same source, none being "external". */
  lemma {:induction false} KeysNameHouseholdAndSource()
    ensures forall h, s, i, t :: KeyFor(h, s) == KeyFor(i, t) <==>
              h == i && TextOr(s, "external") == TextOr(t, "external")
  {}

  /** A post leaves what any other household, and any other source, may do at any time as it was. */
  lemma {:induction false} OthersAreUntouched(state: State, household: string, source: Option<string>, now: real)
    ensures forall h, s, t :: h != household || TextOr(s, "external") != TextOr(source, "external") ==>
              Admits(Next(state, Call(KeyFor(household, source), now)), Call(KeyFor(h, s), t))
              == Admits(state, Call(KeyFor(h, s), t))
  {
    var call := Call(KeyFor(household, source), now);
    forall h, s, t | h != household || TextOr(s, "external") != TextOr(source, "external")
      ensures Admits(Next(state, call), Call(KeyFor(h, s), t)) == Admits(state, Call(KeyFor(h, s), t))
    {
      KeysNameHouseholdAndSource();
      assert KeyFor(h, s) != call.key;
    }
  }

  class Limiter {
    var state: State

    constructor ()
      ensures state == map[]
    {
      state := map[];
    }

    method RateOk(household: string, source: Option<string>, now: real) returns (ok: bool)
      modifies this
      ensures ok == Admits(old(state), Call(KeyFor(household, source), now))
      ensures state == Next(old(state), Call(KeyFor(household, source), now))
      ensures forall h, s, t :: h != household || TextOr(s, "external") != TextOr(source, "external") ==>
                Admits(state, Call(KeyFor(h, s), t)) == Admits(old(state), Call(KeyFor(h, s), t))
    {
      OthersAreUntouched(state, household, source, now);
      var key := KeyFor(household, source);
      var bucket := if key in state then state[key] else Bucket(BUDGET_PER_MIN, now);
      assert REFILL_PER_SECOND == 1.0;
      var tokens := bucket.tokens + (now - bucket.last) * REFILL_PER_SECOND;
      if tokens > BUDGET_PER_MIN {
        tokens := BUDGET_PER_MIN;
      }
      assert tokens == Level(state, key, now);
      if tokens < 1.0 {
        state := state[key := Bucket(tokens, now)];
        return false;
      }
      state := state[key := Bucket(tokens - 1.0, now)];
      return true;
    }
  }

  // ---------------------------------------------------------------- traces

  /** The verdicts on a whole trace of calls. */
  function Verdicts(state: State, calls: seq<Call>): (r: seq<bool>)
    ensures |r| == |calls|
    decreases |calls|
  {
    if calls == [] then []
    else [Admits(state, calls[0])] + Verdicts(Next(state, calls[0]), calls[1..])
  }

  function StateAfter(state: State, calls: seq<Call>): State
    decreases |calls|
  {
    if calls == [] then state else StateAfter(Next(state, calls[0]), calls[1..])
  }

  ghost predicate Chronological(calls: seq<Call>) {
    forall i, j :: 0 <= i <= j < |calls| ==> calls[i].at <= calls[j].at
  }

  /** What every state met on a trace satisfies: capped buckets, written no later than `now`. */
  ghost predicate Sound(state: State, now: real) {
    forall k :: k in state ==> 0.0 <= state[k].tokens <= BUDGET_PER_MIN && state[k].last <= now
  }

  /** The clock of `calls` starts at `now` or later and never runs backwards. */
  ghost predicate From(now: real, calls: seq<Call>) {
    Chronological(calls) && (calls != [] ==> now <= calls[0].at)
  }

  lemma {:induction false} SoundNext(state: State, now: real, call: Call)
    requires Sound(state, now) && now <= call.at
    ensures Sound(Next(state, call), call.at)
  {
    assert REFILL_PER_SECOND == 1.0;
    if call.key in state {
      assert 0.0 <= state[call.key].tokens && state[call.key].last <= call.at;
    }
  }

  lemma {:induction false} FromTail(now: real, calls: seq<Call>)
    requires From(now, calls) && calls != []
    ensures From(calls[0].at, calls[1..])
  {}

  /** Along any trace every bucket stays within 0 and 60 tokens. */
  lemma {:induction false} BucketsStayCapped(state: State, now: real, calls: seq<Call>, key: Key)
    requires Sound(state, now) && From(now, calls)
    requires key in StateAfter(state, calls)
    ensures 0.0 <= StateAfter(state, calls)[key].tokens <= 60.0
    decreases |calls|
  {
    if calls == [] {
    } else {
      SoundNext(state, now, calls[0]);
      FromTail(now, calls);
      BucketsStayCapped(Next(state, calls[0]), calls[0].at, calls[1..], key);
    }
  }

  // ------------------------------------------------- the sliding-window bound

  /** How many calls on `key` with a time in [from, to] were let through. */
  function AdmittedIn(calls: seq<Call>, verdicts: seq<bool>, key: Key, from: real, to: real): nat
    requires |calls| == |verdicts|
  {
    if calls == [] then 0
    else (if verdicts[0] && calls[0].key == key && from <= calls[0].at <= to then 1 else 0)
         + AdmittedIn(calls[1..], verdicts[1..], key, from, to)
  }

  lemma {:induction false} NoneAfter(calls: seq<Call>, verdicts: seq<bool>, key: Key, from: real, to: real)
    requires |calls| == |verdicts|
    requires forall i :: 0 <= i < |calls| ==> to < calls[i].at
    ensures AdmittedIn(calls, verdicts, key, from, to) == 0
  {
    if calls == [] {
    } else {
      NoneAfter(calls[1..], verdicts[1..], key, from, to);
    }
  }

  /** One call costs its key what it lets through, and time gives back at most a token a second. */
  lemma {:induction false} LevelStep(state: State, now: real, call: Call, key: Key)
    requires Sound(state, now) && now <= call.at
    ensures Level(Next(state, call), key, call.at) + (if Admits(state, call) && call.key == key then 1.0 else 0.0)
            <= Level(state, key, now) + (call.at - now)
  {
    assert REFILL_PER_SECOND == 1.0;
  }

  /** Potential argument: what a key can still get until `to` is what it holds plus the refill. */
  lemma {:induction false} HeadroomBound(state: State, now: real, calls: seq<Call>, key: Key, from: real, to: real)
    requires Sound(state, now) && From(now, calls)
    requires now <= to
    ensures AdmittedIn(calls, Verdicts(state, calls), key, from, to) as real <= Level(state, key, now) + (to - now)
    decreases |calls|
  {
    if calls == [] {
    } else {
      var call, rest := calls[0], calls[1..];
      var vs := Verdicts(state, calls);
      assert vs[1..] == Verdicts(Next(state, call), rest);
      SoundNext(state, now, call);
      FromTail(now, calls);
      if to < call.at {
        NoneAfter(calls, vs, key, from, to);
      } else {
        HeadroomBound(Next(state, call), call.at, rest, key, from, to);
        LevelStep(state, now, call, key);
      }
    }
  }

  /** Whatever the other keys do, any window of length d lets through at most 60 + d calls. */
  lemma {:induction false} WindowBound(state: State, now: real, calls: seq<Call>, key: Key, from: real, to: real)
    requires Sound(state, now) && From(now, calls)
    requires from <= to
    ensures AdmittedIn(calls, Verdicts(state, calls), key, from, to) as real <= 60.0 + (to - from)
    decreases |calls|
  {
    if calls == [] {
    } else {
      var call, rest := calls[0], calls[1..];
      var vs := Verdicts(state, calls);
      assert vs[1..] == Verdicts(Next(state, call), rest);
      SoundNext(state, now, call);
      FromTail(now, calls);
      if to < call.at {
        NoneAfter(calls, vs, key, from, to);
      } else if call.at < from {
        WindowBound(Next(state, call), call.at, rest, key, from, to);
      } else {
        HeadroomBound(Next(state, call), call.at, rest, key, from, to);
        assert Level(Next(state, call), key, call.at)
            + (if vs[0] && call.key == key then 1.0 else 0.0) <= BUDGET_PER_MIN;
      }
    }
  }

  // ------------------------------------------------- exactly which calls pass

  /** Calls on `key` let through among positions [i, j). */
  function AdmittedBetween(calls: seq<Call>, verdicts: seq<bool>, key: Key, i: nat, j: nat): nat
    requires i <= j <= |calls| == |verdicts|
    decreases j - i
  {
    if i == j then 0
    else (if verdicts[j - 1] && calls[j - 1].key == key then 1 else 0)
         + AdmittedBetween(calls, verdicts, key, i, j - 1)
  }

  /** No window ending at call n, and starting at an earlier call of its key, would overflow by letting it in. */
  ghost predicate HasRoom(calls: seq<Call>, verdicts: seq<bool>, n: nat)
    requires n < |calls| == |verdicts|
  {
    forall j :: 0 <= j <= n && calls[j].key == calls[n].key ==>
      AdmittedBetween(calls, verdicts, calls[n].key, j, n) as real + 1.0
        <= 60.0 + (calls[n].at - calls[j].at)
  }

  /** The bucket of `key` is exactly the tightest of the window budgets of the calls seen so far. */
  ghost predicate Tightest(state: State, calls: seq<Call>, verdicts: seq<bool>, key: Key, n: nat)
    requires n <= |calls| == |verdicts|
  {
    && (key in state ==>
          && (forall j :: 0 <= j < n && calls[j].key == key ==>
                state[key].tokens <= Budget(state[key].last, calls, verdicts, key, j, n))
          && (exists j :: 0 <= j < n && calls[j].key == key
                && state[key].tokens == Budget(state[key].last, calls, verdicts, key, j, n)))
    && (key !in state ==> forall j :: 0 <= j < n ==> calls[j].key != key)
  }

  /** What the window opened at call j leaves of its budget at time `now`, before call n. */
  ghost function Budget(now: real, calls: seq<Call>, verdicts: seq<bool>, key: Key, j: nat, n: nat): real
    requires j <= n <= |calls| == |verdicts| && j < |calls|
  {
    BUDGET_PER_MIN + (now - calls[j].at) - AdmittedBetween(calls, verdicts, key, j, n) as real
  }

  lemma {:induction false} LevelIsTightest(state: State, calls: seq<Call>, verdicts: seq<bool>, n: nat)
    requires n < |calls| == |verdicts| && Chronological(calls)
    requires Sound(state, calls[n].at)
    requires Tightest(state, calls, verdicts, calls[n].key, n)
    ensures var key := calls[n].key; var level := Level(state, key, calls[n].at);
            && (forall j :: 0 <= j <= n && calls[j].key == key ==>
                 level <= Budget(calls[n].at, calls, verdicts, key, j, n))
            && (exists j :: 0 <= j <= n && calls[j].key == key
                 && level == Budget(calls[n].at, calls, verdicts, key, j, n))
  {
    var key, now := calls[n].key, calls[n].at;
    var level := Level(state, key, now);
    assert Budget(now, calls, verdicts, key, n, n) == BUDGET_PER_MIN;
    if key in state {
      forall j | 0 <= j < n && calls[j].key == key
        ensures Budget(now, calls, verdicts, key, j, n)
                == Budget(state[key].last, calls, verdicts, key, j, n) + (now - state[key].last)
      {}
      assert REFILL_PER_SECOND == 1.0;
      assert level <= state[key].tokens + (now - state[key].last);
      if level != BUDGET_PER_MIN {
        var j :| 0 <= j < n && calls[j].key == key
                 && state[key].tokens == Budget(state[key].last, calls, verdicts, key, j, n);
        assert level == Budget(now, calls, verdicts, key, j, n);
      }
    }
  }

  /** One more call: its verdict is decided by room in the windows, and the bucket stays the tightest budget. */
  lemma {:induction false} TightestStep(state: State, calls: seq<Call>, verdicts: seq<bool>, key: Key, n: nat)
    requires n < |calls| == |verdicts| && Chronological(calls)
    requires Sound(state, calls[n].at)
    requires Tightest(state, calls, verdicts, key, n) && Tightest(state, calls, verdicts, calls[n].key, n)
    requires verdicts[n] == Admits(state, calls[n])
    ensures verdicts[n] <==> HasRoom(calls, verdicts, n)
    ensures Tightest(Next(state, calls[n]), calls, verdicts, key, n + 1)
  {
    var own, now := calls[n].key, calls[n].at;
    LevelIsTightest(state, calls, verdicts, n);
    forall j | 0 <= j <= n && calls[j].key == own
      ensures Budget(now, calls, verdicts, own, j, n + 1)
              == Budget(now, calls, verdicts, own, j, n) - (if verdicts[n] then 1.0 else 0.0)
    {}
    if verdicts[n] {
      forall j | 0 <= j <= n && calls[j].key == own
        ensures AdmittedBetween(calls, verdicts, own, j, n) as real + 1.0 <= BUDGET_PER_MIN + (now - calls[j].at)
      {
        assert Level(state, own, now) <= Budget(now, calls, verdicts, own, j, n);
      }
    }
    if key == own {
      var j :| 0 <= j <= n && calls[j].key == key && Level(state, own, now) == Budget(now, calls, verdicts, key, j, n);
      assert Next(state, calls[n])[key].tokens == Budget(now, calls, verdicts, key, j, n + 1);
    } else {
      forall j | 0 <= j < n && calls[j].key == key
        ensures AdmittedBetween(calls, verdicts, key, j, n + 1) == AdmittedBetween(calls, verdicts, key, j, n)
      {}
      if key in state {
        var j :| 0 <= j < n && calls[j].key == key
                 && state[key].tokens == Budget(state[key].last, calls, verdicts, key, j, n);
        assert Next(state, calls[n])[key].tokens
            == Budget(Next(state, calls[n])[key].last, calls, verdicts, key, j, n + 1);
      }
    }
  }

  lemma {:induction false} ExactFrom(state: State, now: real, calls: seq<Call>, verdicts: seq<bool>, n: nat)
    requires n <= |calls| == |verdicts| && Chronological(calls)
    requires Sound(state, now) && From(now, calls[n..])
    requires forall key :: Tightest(state, calls, verdicts, key, n)
    requires verdicts[n..] == Verdicts(state, calls[n..])
    ensures forall i :: n <= i < |calls| ==> (verdicts[i] <==> HasRoom(calls, verdicts, i))
    decreases |calls| - n
  {
    if n < |calls| {
      var call, rest := calls[n], calls[n..];
      assert rest[0] == call && rest[1..] == calls[n + 1..] && verdicts[n..][1..] == verdicts[n + 1..];
      assert verdicts[n] == verdicts[n..][0] == Admits(state, call);
      TightestStep(state, calls, verdicts, call.key, n);
      var next, m := Next(state, call), n + 1;
      forall key ensures Tightest(next, calls, verdicts, key, m) {
        TightestStep(state, calls, verdicts, key, n);
      }
      SoundNext(state, now, call);
      FromTail(now, rest);
      ExactFrom(next, call.at, calls, verdicts, m);
    }
  }

  /**
   The bucket is the greedy sliding-window limiter: starting empty, a call is let through
   if and only if letting it through keeps every window that ends at it within 60 + length.
   */
  lemma {:induction false} AdmittedExactlyWhenRoom(calls: seq<Call>, n: nat)
    requires Chronological(calls) && n < |calls|
    ensures Verdicts(map[], calls)[n] <==> HasRoom(calls, Verdicts(map[], calls), n)
  {
    assert calls[0..] == calls && Verdicts(map[], calls)[0..] == Verdicts(map[], calls);
    ExactFrom(map[], calls[0].at, calls, Verdicts(map[], calls), 0);
  }

  // ------------------------------------------------- refused calls are transparent

  function Select<T>(xs: seq<T>, keep: seq<bool>): seq<T>
    requires |xs| == |keep|
  {
    if xs == [] then []
    else (if keep[0] then [xs[0]] else []) + Select(xs[1..], keep[1..])
  }

  lemma {:induction false} SelectLength<S, T>(xs: seq<S>, ys: seq<T>, keep: seq<bool>)
    requires |xs| == |ys| == |keep|
    ensures |Select(xs, keep)| == |Select(ys, keep)|
  {
    if xs == [] {
    } else {
      SelectLength(xs[1..], ys[1..], keep[1..]);
    }
  }

  /** The verdicts of the calls on one key. */
  function OnKey(calls: seq<Call>, verdicts: seq<bool>, key: Key): seq<bool>
    requires |calls| == |verdicts|
  {
    if calls == [] then []
    else (if calls[0].key == key then [verdicts[0]] else []) + OnKey(calls[1..], verdicts[1..], key)
  }

  /** The two states cannot be told apart through `key` from `now` on. */
  ghost predicate Alike(a: State, b: State, key: Key, now: real) {
    forall t :: now <= t ==> Level(a, key, t) == Level(b, key, t)
  }

  lemma {:induction false} AlikeAfterBoth(a: State, b: State, key: Key, now: real, call: Call)
    requires Alike(a, b, key, now) && now <= call.at
    ensures Alike(Next(a, call), Next(b, call), key, call.at)
  {
    assert Level(a, key, call.at) == Level(b, key, call.at);
    forall t | call.at <= t ensures Level(Next(a, call), key, t) == Level(Next(b, call), key, t) {
      assert Level(a, key, t) == Level(b, key, t);
    }
  }

  lemma {:induction false} AlikeAfterDropped(a: State, b: State, key: Key, now: real, call: Call)
    requires Alike(a, b, key, now) && now <= call.at
    requires call.key == key ==> !Admits(a, call)
    ensures Alike(Next(a, call), b, key, call.at)
  {
    if call.key == key {
      forall t | call.at <= t ensures Level(Next(a, call), key, t) == Level(a, key, t) {}
    }
  }

  lemma {:induction false} TransparentFrom(a: State, b: State, now: real, calls: seq<Call>, keep: seq<bool>, key: Key)
    requires From(now, calls) && |keep| == |calls|
    requires Alike(a, b, key, now)
    requires forall i :: 0 <= i < |calls| && !keep[i] && calls[i].key == key ==> !Verdicts(a, calls)[i]
    ensures |Select(calls, keep)| == |Select(Verdicts(a, calls), keep)|
    ensures OnKey(Select(calls, keep), Verdicts(b, Select(calls, keep)), key)
         == OnKey(Select(calls, keep), Select(Verdicts(a, calls), keep), key)
    decreases |calls|
  {
    SelectLength(calls, Verdicts(a, calls), keep);
    if calls == [] {
    } else {
      var call, rest := calls[0], calls[1..];
      var va := Verdicts(a, calls);
      assert va[1..] == Verdicts(Next(a, call), rest);
      assert forall i :: 0 <= i < |rest| ==>
          rest[i] == calls[i + 1] && keep[1..][i] == keep[i + 1] && va[1..][i] == va[i + 1];
      FromTail(now, calls);
      var kept := Select(rest, keep[1..]);
      if keep[0] {
        AlikeAfterBoth(a, b, key, now, call);
        TransparentFrom(Next(a, call), Next(b, call), call.at, rest, keep[1..], key);
        assert Select(calls, keep)[1..] == kept;
        assert Select(va, keep)[1..] == Select(va[1..], keep[1..]);
        assert Verdicts(b, Select(calls, keep))[1..] == Verdicts(Next(b, call), kept);
      } else {
        assert !keep[0] && call.key == key ==> !va[0];
        AlikeAfterDropped(a, b, key, now, call);
        TransparentFrom(Next(a, call), b, call.at, rest, keep[1..], key);
        assert Select(calls, keep) == kept;
        assert Select(va, keep) == Select(va[1..], keep[1..]);
      }
    }
  }

  /**
   Delete from a trace any calls on other keys and any refused calls on `key`: every
   remaining verdict on `key` is what it was.  So a refused call costs nothing, and no
   key can be told about the traffic of another.
   */
  lemma {:induction false} DroppingRefusedCallsChangesNothing(state: State, calls: seq<Call>, keep: seq<bool>, key: Key)
    requires Chronological(calls) && |keep| == |calls|
    requires forall i :: 0 <= i < |calls| && !keep[i] && calls[i].key == key ==> !Verdicts(state, calls)[i]
    ensures |Select(calls, keep)| == |Select(Verdicts(state, calls), keep)|
    ensures OnKey(Select(calls, keep), Verdicts(state, Select(calls, keep)), key)
         == OnKey(Select(calls, keep), Select(Verdicts(state, calls), keep), key)
  {
    TransparentFrom(state, state, if calls == [] then 0.0 else calls[0].at, calls, keep, key);
  }

  // ------------------------------------------------- polite callers

  lemma {:induction false} PoliteFrom(state: State, now: real, calls: seq<Call>, key: Key)
    requires Sound(state, now) && From(now, calls)
    requires forall i, j :: 0 <= i < j < |calls| && calls[i].key == key == calls[j].key ==>
            calls[i].at + 1.0 <= calls[j].at
    requires key in state ==> forall i :: 0 <= i < |calls| && calls[i].key == key ==>
            state[key].last + 1.0 <= calls[i].at
    ensures forall i :: 0 <= i < |calls| && calls[i].key == key ==> Verdicts(state, calls)[i]
    decreases |calls|
  {
    if calls == [] {
    } else {
      var call, rest := calls[0], calls[1..];
      SoundNext(state, now, call);
      FromTail(now, calls);
      assert forall i :: 0 <= i < |rest| ==> rest[i] == calls[i + 1];
      PoliteFrom(Next(state, call), call.at, rest, key);
      assert forall i :: 0 < i < |calls| ==> Verdicts(state, calls)[i] == Verdicts(Next(state, call), rest)[i - 1];
    }
  }

  /** A source whose calls are at least a second apart is never refused, however busy the others are. */
  lemma {:induction false} PoliteCallersAreNeverRefused(calls: seq<Call>, key: Key)
    requires Chronological(calls)
    requires forall i, j :: 0 <= i < j < |calls| && calls[i].key == key == calls[j].key ==>
            calls[i].at + 1.0 <= calls[j].at
    ensures forall i :: 0 <= i < |calls| && calls[i].key == key ==> Verdicts(map[], calls)[i]
  {
    PoliteFrom(map[], if calls == [] then 0.0 else calls[0].at, calls, key);
  }

  // ------------------------------------------------- posts of households

  /** One post of a signal: the household, the source agent if it names one, and the time. */
  datatype Post = Post(household: string, source: Option<string>, at: real)

  function CallsOf(posts: seq<Post>): (r: seq<Call>)
    ensures |r| == |posts|
  {
    if posts == [] then [] else [Call(KeyFor(posts[0].household, posts[0].source), posts[0].at)] + CallsOf(posts[1..])
  }

  predicate IsOf(p: Post, household: string, source: string) {
    p.household == household && TextOr(p.source, "external") == source
  }

  /** The posts of one source of one household. */
  function Own(posts: seq<Post>, household: string, source: string): seq<Post> {
    if posts == [] then []
    else (if IsOf(posts[0], household, source) then [posts[0]] else []) + Own(posts[1..], household, source)
  }

  /** The verdicts on those posts. */
  function AnswersTo(posts: seq<Post>, verdicts: seq<bool>, household: string, source: string): seq<bool>
    requires |posts| == |verdicts|
  {
    if posts == [] then []
    else (if IsOf(posts[0], household, source) then [verdicts[0]] else [])
         + AnswersTo(posts[1..], verdicts[1..], household, source)
  }

  lemma {:induction false} OwnPostsCountFrom(
      a: State, b: State, now: real, posts: seq<Post>, household: string, source: string)
    requires source != "" && Alike(a, b, (household, source), now)
    requires forall i :: 0 <= i < |posts| ==> now <= posts[i].at
    requires forall i, j :: 0 <= i <= j < |posts| ==> posts[i].at <= posts[j].at
    ensures AnswersTo(posts, Verdicts(a, CallsOf(posts)), household, source)
         == Verdicts(b, CallsOf(Own(posts, household, source)))
    decreases |posts|
  {
    if posts == [] {
    } else {
      var p, rest := posts[0], posts[1..];
      var call := Call(KeyFor(p.household, p.source), p.at);
      var key := (household, source);
      assert CallsOf(posts)[1..] == CallsOf(rest);
      assert Verdicts(a, CallsOf(posts))[1..] == Verdicts(Next(a, call), CallsOf(rest));
      if IsOf(p, household, source) {
        assert call.key == key;
        assert Level(a, key, call.at) == Level(b, key, call.at);
        AlikeAfterBoth(a, b, key, now, call);
        OwnPostsCountFrom(Next(a, call), Next(b, call), p.at, rest, household, source);
        var own := [p] + Own(rest, household, source);
        assert Own(posts, household, source) == own && own[1..] == Own(rest, household, source);
        assert CallsOf(own)[1..] == CallsOf(own[1..]) && CallsOf(own)[0] == call;
        assert Verdicts(b, CallsOf(own)) == [Admits(b, call)] + Verdicts(Next(b, call), CallsOf(own)[1..]);
      } else {
        AlikeAfterDropped(a, b, key, now, call);
        OwnPostsCountFrom(Next(a, call), b, p.at, rest, household, source);
        assert Own(posts, household, source) == Own(rest, household, source);
      }
    }
  }

  /** In any history the answers to one source of one household are what they would be if nobody else ever posted. */
  lemma {:induction false} OnlyItsOwnPostsCount(posts: seq<Post>, household: string, source: string)
    requires source != "" && forall i, j :: 0 <= i <= j < |posts| ==> posts[i].at <= posts[j].at
    ensures AnswersTo(posts, Verdicts(map[], CallsOf(posts)), household, source)
         == Verdicts(map[], CallsOf(Own(posts, household, source)))
  {
    OwnPostsCountFrom(map[], map[], if posts == [] then 0.0 else posts[0].at, posts, household, source);
  }

  // ------------------------------------------------- calls that overlap

  /** A call that read one state and writes its bucket into another. */
  function WrittenBack(stored: State, read: State, call: Call): State {
    stored[call.key := Next(read, call)[call.key]]
  }

  /**
   The bounds above are for calls that do not overlap.  Two calls on a key that both read the
   state before either writes get the same verdict and spend together what one would: so the
   second passes where it would have been refused exactly if there was one token but not two.
   */
  lemma {:induction false} OverlappingCallsShareAToken(state: State, call: Call)
    ensures WrittenBack(WrittenBack(state, state, call), state, call) == Next(state, call)
    ensures Admits(state, call) && !Admits(Next(state, call), call) <==> 1.0 <= Level(state, call.key, call.at) < 2.0
  {
    OneTokenLess(state, call);
    var bucket := Next(state, call)[call.key];
    assert Next(state, call) == state[call.key := bucket];
    assert state[call.key := bucket][call.key := bucket] == state[call.key := bucket];
  }

  lemma {:induction false} OneTokenLess(state: State, call: Call)
    ensures Level(Next(state, call), call.key, call.at) ==
            Level(state, call.key, call.at) - if Admits(state, call) then 1.0 else 0.0
  {
    var bucket := Next(state, call)[call.key];
    assert bucket.last == call.at && bucket.tokens <= BUDGET_PER_MIN;
    assert (call.at - bucket.last) * REFILL_PER_SECOND == 0.0;
  }
}
