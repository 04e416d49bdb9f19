/**
 Household routines (app/api/routines.py): the table the mobile app edits, and the slug-keyed
 map a node pulls from it.
 */
module Routines {
  import opened Options
  import opened Slugs
  import opened Strings

  // ---------------------------------------------------------------- rows

  /** Mobile-native arguments stay a list of pairs; a node gets them flattened to a map. */
  datatype Arg = Arg(key: string, value: string)
  datatype RoutineStep = RoutineStep(command: string, args: seq<Arg>, caption: string)

  datatype Schedule = Schedule(kind: string, cron: Option<string>, intervalSeconds: Option<int>)

  datatype Routine = Routine(
    id: nat, household: string, slug: string, name: string, triggerPhrases: seq<string>, steps: seq<RoutineStep>,
    instruction: string, length: string, schedule: Option<Schedule>, enabled: bool)

  /** An argument value as the node sees it: text, or what JSON text beginning with a bracket parses to. */
  datatype Value = Text(text: string) | Json(source: string)

  datatype NodeStep = NodeStep(command: string, args: map<string, Value>, caption: string)
  datatype NodeRoutine = NodeRoutine(
    triggerPhrases: seq<string>, steps: seq<NodeStep>, instruction: string, length: string)

  datatype Body = Body(
    name: string, triggerPhrases: seq<string>, steps: seq<RoutineStep>, instruction: string, length: string,
    schedule: Option<Schedule>, enabled: bool)

  /** A partial update: absent fields keep their values; the schedule may be set to nothing. */
  datatype Patch = Patch(
    name: Option<string>, triggerPhrases: Option<seq<string>>, steps: Option<seq<RoutineStep>>,
    instruction: Option<string>,
    length: Option<string>, schedule: Option<Option<Schedule>>, enabled: Option<bool>)

  const VALID_RESPONSE_LENGTHS := {"short", "medium", "long"}

  predicate ValidSchedule(s: Schedule) {
    && s.kind in {"cron", "interval"}
    && (s.kind == "cron" ==> s.cron.Some? && Trim(s.cron.value, IsSpace) != "")
    && (s.kind == "interval" ==> s.intervalSeconds.Some? && s.intervalSeconds.value > 0)
  }

  // ---------------------------------------------------------------- flattening arguments

  /** `parses(v)` says whether v is well-formed JSON. */
  function ArgValue(value: string, parses: string -> bool): Value {
    if value != "" && value[0] in {'[', '{'} && parses(value) then Json(value) else Text(value)
  }

  method FlattenArgs(args: seq<Arg>, parses: string -> bool) returns (out: map<string, Value>)
    ensures out == Flattened(args, parses)
  {
    out := map[];
    for n := 0 to |args|
      invariant out == Flattened(args[..n], parses)
    {
      assert args[..n + 1][..n] == args[..n];
      if args[n].key != "" {
        out := out[args[n].key := ArgValue(args[n].value, parses)];
      }
    }
    assert args[..|args|] == args;
  }

  function Flattened(args: seq<Arg>, parses: string -> bool): map<string, Value> {
    if args == [] then map[]
    else
      var rest, last := Flattened(args[..|args| - 1], parses), args[|args| - 1];
      if last.key == "" then rest else rest[last.key := ArgValue(last.value, parses)]
  }

  /** Of several pairs with one key the last decides the value. */
  lemma {:induction false} LastPairWins(args: seq<Arg>, parses: string -> bool, i: nat)
    requires i < |args| && args[i].key != "" && forall j :: i < j < |args| ==> args[j].key != args[i].key
    ensures args[i].key in Flattened(args, parses)
    ensures Flattened(args, parses)[args[i].key] == ArgValue(args[i].value, parses)
  {
    var rest, n := args[..|args| - 1], |args| - 1;
    if i < n {
      assert args[n].key != args[i].key && rest[i] == args[i];
      LastPairWins(rest, parses, i);
    }
  }

  /** The flat map has no key that is empty or that no pair carries. */
  lemma {:induction false} FlatKeysComeFromPairs(args: seq<Arg>, parses: string -> bool, key: string)
    requires key in Flattened(args, parses)
    ensures key != "" && exists i :: 0 <= i < |args| && args[i].key == key
  {
    var rest, n := args[..|args| - 1], |args| - 1;
    if args[n].key == "" || args[n].key != key {
      FlatKeysComeFromPairs(rest, parses, key);
      var i :| 0 <= i < |rest| && rest[i].key == key;
      assert args[i].key == key;
    }
  }

  function ToNode(r: Routine, parses: string -> bool): NodeRoutine {
    NodeRoutine(r.triggerPhrases,
                seq(|r.steps|, i requires 0 <= i < |r.steps| =>
                  NodeStep(r.steps[i].command, Flattened(r.steps[i].args, parses), r.steps[i].caption)),
                r.instruction,
                if r.length == "" then "short" else r.length)
  }

  // ---------------------------------------------------------------- the table

  datatype Table = Table(rows: seq<Routine>, nextId: nat)

  function SlugsOf(rows: seq<Routine>, household: string): set<string> {
    set i | 0 <= i < |rows| && rows[i].household == household :: rows[i].slug
  }

  predicate Pulled(r: Routine, household: string) {
    r.household == household && r.enabled
  }

  /** The map a node of the household pulls: later rows overwrite earlier ones with the same slug. */
  function NodeMap(rows: seq<Routine>, household: string, parses: string -> bool): map<string, NodeRoutine> {
    if rows == [] then map[]
    else
      var rest, last := NodeMap(rows[..|rows| - 1], household, parses), rows[|rows| - 1];
      if Pulled(last, household) then rest[last.slug := ToNode(last, parses)] else rest
  }

  function PulledCount(rows: seq<Routine>, household: string): nat {
    if rows == [] then 0
    else PulledCount(rows[..|rows| - 1], household) + (if Pulled(rows[|rows| - 1], household) then 1 else 0)
  }

  function NewRoutine(id: nat, household: string, slug: string, body: Body): Routine {
    Routine(id, household, slug, Trim(body.name, IsSpace), body.triggerPhrases, body.steps,
            body.instruction, body.length, body.schedule, body.enabled)
  }

  /** What the creation endpoint accepts. */
  predicate Acceptable(body: Body) {
    Trim(body.name, IsSpace) != "" && body.length in VALID_RESPONSE_LENGTHS
    && (body.schedule.Some? ==> ValidSchedule(body.schedule.value))
  }

  function Patched(r: Routine, patch: Patch): Routine {
    r.(name := if patch.name.Some? && patch.name.value != "" then Trim(patch.name.value, IsSpace) else r.name,
       triggerPhrases := patch.triggerPhrases.GetOr(r.triggerPhrases),
       steps := patch.steps.GetOr(r.steps),
       instruction := patch.instruction.GetOr(r.instruction),
       length := patch.length.GetOr(r.length),
       schedule := patch.schedule.GetOr(r.schedule),
       enabled := patch.enabled.GetOr(r.enabled))
  }

  predicate AcceptablePatch(patch: Patch) {
    && (patch.length.Some? ==> patch.length.value in VALID_RESPONSE_LENGTHS)
    && (patch.schedule.Some? && patch.schedule.value.Some? ==> ValidSchedule(patch.schedule.value.value))
  }

  predicate Names(rows: seq<Routine>, i: nat, household: string, id: nat)
    requires i < |rows|
  {
    rows[i].id == id && rows[i].household == household
  }

  predicate Exists(rows: seq<Routine>, household: string, id: nat) {
    exists i :: 0 <= i < |rows| && Names(rows, i, household, id)
  }

  datatype Event =
    | Create(household: string, body: Body)
    | Edit(household: string, id: nat, patch: Patch)
    | Delete(household: string, id: nat)

  /** One call of the mobile endpoints, succeeding or refused. */
  ghost predicate Transition(s: Table, e: Event, t: Table) {
    match e
    case Create(household, body) =>
      if Acceptable(body) then
        exists slug :: IsUniqueSlug(SlugsOf(s.rows, household), body.name, slug)
                       && t == Table(s.rows + [NewRoutine(s.nextId, household, slug, body)], s.nextId + 1)
      else t == s
    case Edit(household, id, patch) =>
      if AcceptablePatch(patch) && Exists(s.rows, household, id) then
        exists i :: 0 <= i < |s.rows| && Names(s.rows, i, household, id)
                    && t == s.(rows := s.rows[i := Patched(s.rows[i], patch)])
      else t == s
    case Delete(household, id) =>
      if Exists(s.rows, household, id) then
        exists i :: 0 <= i < |s.rows| && Names(s.rows, i, household, id)
                    && t == s.(rows := s.rows[..i] + s.rows[i + 1..])
      else t == s
  }

  datatype Reply = Ok | NotFound | Unprocessable

  class RoutineTable {
    var rows: seq<Routine>
    var nextId: nat

    constructor ()
      ensures Snapshot() == Table([], 0)
    {
      rows, nextId := [], 0;
    }

    function Snapshot(): Table
      reads this
    {
      Table(rows, nextId)
    }

    method CreateRoutine(household: string, body: Body) returns (reply: Reply)
      modifies this
      ensures Transition(old(Snapshot()), Create(household, body), Snapshot())
      ensures reply == if Acceptable(body) then Ok else Unprocessable
    {
      if Trim(body.name, IsSpace) == "" || body.length !in VALID_RESPONSE_LENGTHS {
        return Unprocessable;
      }
      var slug := UniqueSlug(SlugsOf(rows, household), body.name);
      if body.schedule.Some? && !ValidSchedule(body.schedule.value) {
        return Unprocessable;
      }
      rows := rows + [NewRoutine(nextId, household, slug, body)];
      nextId := nextId + 1;
      return Ok;
    }

    method Find(household: string, id: nat) returns (found: Option<nat>)
      ensures found.Some? ==> found.value < |rows| && Names(rows, found.value, household, id)
      ensures found.None? ==> forall i :: 0 <= i < |rows| ==> !Names(rows, i, household, id)
    {
      for i := 0 to |rows|
        invariant forall j :: 0 <= j < i ==> !Names(rows, j, household, id)
      {
        if rows[i].id == id && rows[i].household == household {
          return Some(i);
        }
      }
      return None;
    }

    method UpdateRoutine(household: string, id: nat, patch: Patch) returns (reply: Reply)
      modifies this
      ensures Transition(old(Snapshot()), Edit(household, id, patch), Snapshot())
      ensures reply ==
              if !Exists(old(rows), household, id) then NotFound
              else if AcceptablePatch(patch) then Ok
              else Unprocessable
    {
      var found := Find(household, id);
      if found.None? {
        return NotFound;
      }
      assert Names(rows, found.value, household, id);
      var edited := Apply(rows[found.value], patch);
      if edited.None? {
        return Unprocessable;
      }
      rows := rows[found.value := edited.value];
      return Ok;
    }

    /** The row with the given fields assigned one after the other, or nothing if one of them is refused. */
    static method Apply(row: Routine, patch: Patch) returns (edited: Option<Routine>)
      ensures edited == if AcceptablePatch(patch) then Some(Patched(row, patch)) else None
    {
      var name, triggerPhrases, steps := row.name, row.triggerPhrases, row.steps;
      var instruction, length, schedule, enabled := row.instruction, row.length, row.schedule, row.enabled;
      if patch.name.Some? && patch.name.value != "" {
        name := Trim(patch.name.value, IsSpace);
      }
      if patch.triggerPhrases.Some? {
        triggerPhrases := patch.triggerPhrases.value;
      }
      if patch.steps.Some? {
        steps := patch.steps.value;
      }
      if patch.instruction.Some? {
        instruction := patch.instruction.value;
      }
      if patch.length.Some? {
        if patch.length.value !in VALID_RESPONSE_LENGTHS {
          return None;
        }
        length := patch.length.value;
      }
      if patch.schedule.Some? {
        if patch.schedule.value.Some? && !ValidSchedule(patch.schedule.value.value) {
          return None;
        }
        schedule := patch.schedule.value;
      }
      if patch.enabled.Some? {
        enabled := patch.enabled.value;
      }
      return Some(Routine(row.id, row.household, row.slug, name, triggerPhrases, steps,
                          instruction, length, schedule, enabled));
    }

    method DeleteRoutine(household: string, id: nat) returns (reply: Reply)
      modifies this
      ensures Transition(old(Snapshot()), Delete(household, id), Snapshot())
      ensures reply == if Exists(old(rows), household, id) then Ok else NotFound
    {
      var found := Find(household, id);
      if found.None? {
        return NotFound;
      }
      rows := rows[..found.value] + rows[found.value + 1..];
      return Ok;
    }

    /** A node without a household pulls an empty set. */
    method NodePullRoutines(
        household: Option<string>, parses: string -> bool)
      returns (routines: map<string, NodeRoutine>)
      ensures routines == if household.None? || household.value == "" then map[]
                          else NodeMap(rows, household.value, parses)
    {
      routines := map[];
      if TextOr(household, "") == "" {
        return;
      }
      for n := 0 to |rows|
        invariant routines == NodeMap(rows[..n], household.value, parses)
      {
        assert rows[..n + 1][..n] == rows[..n];
        if rows[n].household == household.value && rows[n].enabled {
          routines := routines[rows[n].slug := ToNode(rows[n], parses)];
        }
      }
      assert rows[..|rows|] == rows;
    }
  }

  // ---------------------------------------------------------------- every run

  ghost predicate SlugsDistinct(rows: seq<Routine>) {
    forall i, j :: 0 <= i < j < |rows| && rows[i].household == rows[j].household ==> rows[i].slug != rows[j].slug
  }

  ghost predicate IdsDistinct(s: Table) {
    && (forall i :: 0 <= i < |s.rows| ==> s.rows[i].id < s.nextId)
    && (forall i, j :: 0 <= i < j < |s.rows| ==> s.rows[i].id != s.rows[j].id)
  }

  ghost predicate SlugsCanonical(rows: seq<Routine>) {
    forall i :: 0 <= i < |rows| ==> Canonical(rows[i].slug)
  }

  ghost predicate Consistent(s: Table) {
    SlugsDistinct(s.rows) && IdsDistinct(s) && SlugsCanonical(s.rows)
  }

  ghost predicate HasId(s: Table, id: nat) {
    exists i :: 0 <= i < |s.rows| && s.rows[i].id == id
  }

  /** An id that s has already given out is in t only if it was in s. */
  ghost predicate OldIdsWereThere(s: Table, t: Table) {
    forall j :: 0 <= j < |t.rows| && t.rows[j].id < s.nextId ==> HasId(s, t.rows[j].id)
  }

  /** A routine keeps its household and slug for as long as it exists, renamed or not. */
  ghost predicate SlugsStable(s: Table, t: Table) {
    forall i, j :: 0 <= i < |s.rows| && 0 <= j < |t.rows| && s.rows[i].id == t.rows[j].id ==>
      s.rows[i].slug == t.rows[j].slug && s.rows[i].household == t.rows[j].household
  }

  lemma {:induction false} UniqueSlugIsCanonical(existing: set<string>, name: string, slug: string)
    requires IsUniqueSlug(existing, name, slug)
    ensures Canonical(slug)
  {
    SlugsAreCanonical(name);
    if slug != Slugify(name) {
      var i :| 2 <= i <= |existing| + 1 && slug == Suffixed(Slugify(name), i) && Tried(Slugify(name), i) <= existing;
      SuffixedIsCanonicalAndInjective(Slugify(name), i, i);
    }
  }

  /** The rows of t are rows of s, possibly edited, with ids, households and slugs untouched. */
  ghost predicate KeepsKeys(s: Table, t: Table) {
    && s.nextId == t.nextId
    && exists from: seq<nat> :: |from| == |t.rows|
         && (forall j :: 0 <= j < |from| ==> from[j] < |s.rows| && SameKey(s.rows[from[j]], t.rows[j]))
         && (forall j, k :: 0 <= j < k < |from| ==> from[j] < from[k])
  }

  predicate SameKey(a: Routine, b: Routine) {
    a.id == b.id && a.household == b.household && a.slug == b.slug
  }

  lemma {:induction false} KeptKeysStayConsistent(s: Table, t: Table)
    requires Consistent(s) && KeepsKeys(s, t)
    ensures Consistent(t) && SlugsStable(s, t)
    ensures OldIdsWereThere(s, t)
  {
    var from: seq<nat> :| |from| == |t.rows|
      && (forall j :: 0 <= j < |from| ==> from[j] < |s.rows| && SameKey(s.rows[from[j]], t.rows[j]))
      && (forall j, k :: 0 <= j < k < |from| ==> from[j] < from[k]);
    forall j, k | 0 <= j < k < |t.rows|
      ensures t.rows[j].id != t.rows[k].id
      ensures t.rows[j].household == t.rows[k].household ==> t.rows[j].slug != t.rows[k].slug
    {
      assert SameKey(s.rows[from[j]], t.rows[j]) && SameKey(s.rows[from[k]], t.rows[k]) && from[j] < from[k];
    }
    forall i, j | 0 <= i < |s.rows| && 0 <= j < |t.rows| && s.rows[i].id == t.rows[j].id
      ensures SameKey(s.rows[i], t.rows[j])
    {
      assert SameKey(s.rows[from[j]], t.rows[j]);
      assert i == from[j];
    }
  }

  lemma {:induction false} OneMoreRowIsDistinct(rows: seq<Routine>, row: Routine)
    requires SlugsDistinct(rows)
    requires forall i :: 0 <= i < |rows| && rows[i].household == row.household ==> rows[i].slug != row.slug
    ensures SlugsDistinct(rows + [row])
  {}

  lemma {:induction false} CreateKeepsConsistency(s: Table, t: Table, household: string, slug: string, body: Body)
    requires Consistent(s) && slug !in SlugsOf(s.rows, household) && Canonical(slug)
    requires t == Table(s.rows + [NewRoutine(s.nextId, household, slug, body)], s.nextId + 1)
    ensures Consistent(t) && SlugsStable(s, t)
    ensures OldIdsWereThere(s, t)
  {
    forall i | 0 <= i < |s.rows| && s.rows[i].household == household ensures s.rows[i].slug != slug {
      assert s.rows[i].slug in SlugsOf(s.rows, household);
    }
    OneMoreRowIsDistinct(s.rows, t.rows[|s.rows|]);
    assert forall i :: 0 <= i < |s.rows| ==> t.rows[i] == s.rows[i];
  }

  lemma {:induction false} EditKeepsKeys(s: Table, t: Table, i: nat, patch: Patch)
    requires i < |s.rows| && t == s.(rows := s.rows[i := Patched(s.rows[i], patch)])
    ensures KeepsKeys(s, t)
  {
    var from := seq(|t.rows|, j requires 0 <= j < |t.rows| => j);
    assert forall j :: 0 <= j < |from| ==> from[j] < |s.rows| && SameKey(s.rows[from[j]], t.rows[j]);
  }

  lemma {:induction false} DeleteKeepsKeys(s: Table, t: Table, i: nat)
    requires i < |s.rows| && t == s.(rows := s.rows[..i] + s.rows[i + 1..])
    ensures KeepsKeys(s, t)
  {
    var from := seq(|t.rows|, j requires 0 <= j < |t.rows| => if j < i then j else j + 1);
    assert forall j :: 0 <= j < |from| ==> from[j] < |s.rows| && SameKey(s.rows[from[j]], t.rows[j]);
  }

  /** The calls that leave the table alone, and the shape of those that do not. */
  lemma {:induction false} TransitionShape(s: Table, e: Event, t: Table)
    requires Transition(s, e, t)
    ensures t == s || KeepsKeys(s, t)
         || exists household: string, slug: string, body: Body ::
             IsUniqueSlug(SlugsOf(s.rows, household), body.name, slug)
              && t == Table(s.rows + [NewRoutine(s.nextId, household, slug, body)], s.nextId + 1)
  {
    match e
    case Create(household, body) =>
    case Edit(household, id, patch) =>
      if t != s {
        var i :| 0 <= i < |s.rows| && Names(s.rows, i, household, id)
            && t == s.(rows := s.rows[i := Patched(s.rows[i], patch)]);
        EditKeepsKeys(s, t, i, patch);
      }
    case Delete(household, id) =>
      if t != s {
        var i :| 0 <= i < |s.rows| && Names(s.rows, i, household, id) && t == s.(rows := s.rows[..i] + s.rows[i + 1..]);
        DeleteKeepsKeys(s, t, i);
      }
  }

  lemma {:induction false} StepKeepsConsistency(s: Table, e: Event, t: Table)
    requires Consistent(s) && Transition(s, e, t)
    ensures Consistent(t) && SlugsStable(s, t) && s.nextId <= t.nextId
    ensures OldIdsWereThere(s, t)
  {
    TransitionShape(s, e, t);
    if KeepsKeys(s, t) {
      KeptKeysStayConsistent(s, t);
    } else if t != s {
      var household: string, slug: string, body: Body :| IsUniqueSlug(SlugsOf(s.rows, household), body.name, slug)
                  && t == Table(s.rows + [NewRoutine(s.nextId, household, slug, body)], s.nextId + 1);
      UniqueSlugIsCanonical(SlugsOf(s.rows, household), body.name, slug);
      CreateKeepsConsistency(s, t, household, slug, body);
    }
  }

  /** A run of the mobile endpoints from an empty table. */
  ghost predicate Run(states: seq<Table>, events: seq<Event>) {
    && |states| == |events| + 1 && states[0] == Table([], 0)
    && forall n :: 0 <= n < |events| ==> Transition(states[n], events[n], states[n + 1])
  }

  /** In every run (household, slug) stays distinct and every slug canonical. */
  lemma {:induction false} SlugsStayDistinct(states: seq<Table>, events: seq<Event>, n: nat)
    requires Run(states, events) && n < |states|
    ensures Consistent(states[n])
  {
    if n == 0 {
    } else {
      SlugsStayDistinct(states, events, n - 1);
      StepKeepsConsistency(states[n - 1], events[n - 1], states[n]);
    }
  }

  lemma {:induction false} StableThrough(s: Table, t: Table, u: Table)
    requires SlugsStable(s, t) && SlugsStable(t, u) && OldIdsWereThere(s, t) && OldIdsWereThere(t, u)
    requires IdsDistinct(s) && s.nextId <= t.nextId
    ensures SlugsStable(s, u) && OldIdsWereThere(s, u)
  {
    forall j | 0 <= j < |u.rows| && u.rows[j].id < s.nextId ensures HasId(s, u.rows[j].id) {
      assert HasId(t, u.rows[j].id);
    }
    forall i, j | 0 <= i < |s.rows| && 0 <= j < |u.rows| && s.rows[i].id == u.rows[j].id
      ensures s.rows[i].slug == u.rows[j].slug && s.rows[i].household == u.rows[j].household
    {
      assert s.rows[i].id < s.nextId && HasId(t, u.rows[j].id);
    }
  }

  /** Whatever is edited in between, a routine found again later in a run still has its slug. */
  lemma {:induction false} SlugsSurviveRenames(states: seq<Table>, events: seq<Event>, m: nat, n: nat)
    requires Run(states, events) && m <= n < |states|
    ensures SlugsStable(states[m], states[n]) && OldIdsWereThere(states[m], states[n])
    ensures states[m].nextId <= states[n].nextId
    decreases n
  {
    SlugsStayDistinct(states, events, m);
    if m == n {
    } else {
      SlugsSurviveRenames(states, events, m, n - 1);
      SlugsStayDistinct(states, events, n - 1);
      StepKeepsConsistency(states[n - 1], events[n - 1], states[n]);
      StableThrough(states[m], states[n - 1], states[n]);
    }
  }

  lemma {:induction false} NodeMapKeys(rows: seq<Routine>, household: string, parses: string -> bool, slug: string)
    ensures slug in NodeMap(rows, household, parses) <==>
              exists i :: 0 <= i < |rows| && Pulled(rows[i], household) && rows[i].slug == slug
  {
    if rows == [] {
    } else {
      var rest, n := rows[..|rows| - 1], |rows| - 1;
      NodeMapKeys(rest, household, parses, slug);
      assert forall i :: 0 <= i < n ==> rest[i] == rows[i];
      if slug in NodeMap(rest, household, parses) {
        var i :| 0 <= i < |rest| && Pulled(rest[i], household) && rest[i].slug == slug;
        assert Pulled(rows[i], household) && rows[i].slug == slug;
      } else if Pulled(rows[n], household) && rows[n].slug == slug {
        assert slug in NodeMap(rows, household, parses);
      }
    }
  }

  lemma {:induction false} NodeMapEntry(rows: seq<Routine>, household: string, parses: string -> bool, i: nat)
    requires SlugsDistinct(rows) && i < |rows| && Pulled(rows[i], household)
    ensures rows[i].slug in NodeMap(rows, household, parses)
    ensures NodeMap(rows, household, parses)[rows[i].slug] == ToNode(rows[i], parses)
  {
    var n := |rows| - 1;
    if i < n {
      var rest := rows[..n];
      assert rows[i].household == rows[n].household ==> rows[i].slug != rows[n].slug;
      assert rest[i] == rows[i] && SlugsDistinct(rest);
      NodeMapEntry(rest, household, parses, i);
    }
  }

  lemma {:induction false} NodeMapSize(rows: seq<Routine>, household: string, parses: string -> bool)
    requires SlugsDistinct(rows)
    ensures |NodeMap(rows, household, parses)| == PulledCount(rows, household)
  {
    if rows == [] {
    } else {
      var n := |rows| - 1;
      var rest, last := rows[..n], rows[n];
      assert SlugsDistinct(rest);
      NodeMapSize(rest, household, parses);
      if Pulled(last, household) {
        var m := NodeMap(rest, household, parses);
        NodeMapKeys(rest, household, parses, last.slug);
        assert last.slug !in m;
        assert NodeMap(rows, household, parses).Keys == m.Keys + {last.slug};
      }
    }
  }

  /** So in every run a node pulls exactly one entry per enabled routine of its household, undamaged. */
  lemma {:induction false} NodesPullEveryEnabledRoutine(
      states: seq<Table>, events: seq<Event>, n: nat, household: string, parses: string -> bool)
    requires Run(states, events) && n < |states|
    ensures var rows := states[n].rows; var pulled := NodeMap(rows, household, parses);
            && |pulled| == PulledCount(rows, household)
            && (forall i :: 0 <= i < |rows| && Pulled(rows[i], household) ==>
                  rows[i].slug in pulled && pulled[rows[i].slug] == ToNode(rows[i], parses))
            && (forall slug :: slug in pulled ==>
                 exists i :: 0 <= i < |rows| && Pulled(rows[i], household) && rows[i].slug == slug)
  {
    SlugsStayDistinct(states, events, n);
    var rows := states[n].rows;
    NodeMapSize(rows, household, parses);
    forall slug | slug in NodeMap(rows, household, parses)
      ensures exists i :: 0 <= i < |rows| && Pulled(rows[i], household) && rows[i].slug == slug
    {
      NodeMapKeys(rows, household, parses, slug);
    }
    forall i | 0 <= i < |rows| && Pulled(rows[i], household)
      ensures rows[i].slug in NodeMap(rows, household, parses)
      ensures NodeMap(rows, household, parses)[rows[i].slug] == ToNode(rows[i], parses)
    {
      NodeMapEntry(rows, household, parses, i);
    }
  }
}
