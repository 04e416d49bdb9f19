/**
 What the routine endpoints put into the table and what a node gets out of it, field by field
 (app/api/routines.py).
 */
module RoutineContents {
  import opened Options
  import opened Slugs
  import opened Strings
  import opened Routines

  // ---------------------------------------------------------------- what a node gets

  /** The flat arguments hold, for each non-empty key, the value of the last pair that carries it. */
  ghost predicate CarryTheLastPairs(pairs: seq<Arg>, args: map<string, Value>, parses: string -> bool) {
    && (forall key :: key in args <==> key != "" && exists j :: 0 <= j < |pairs| && pairs[j].key == key)
    && (forall j :: 0 <= j < |pairs| && pairs[j].key in args && LastWithItsKey(pairs, j) ==>
          args[pairs[j].key] == (
              if pairs[j].value != "" && (pairs[j].value[0] == '[' || pairs[j].value[0] == '{')
                  && parses(pairs[j].value) then Json(pairs[j].value)
              else Text(pairs[j].value)))
  }

  ghost predicate LastWithItsKey(pairs: seq<Arg>, j: nat)
    requires j < |pairs|
  {
    forall k :: j < k < |pairs| ==> pairs[k].key != pairs[j].key
  }

  lemma {:induction false} LastOfItsKey(pairs: seq<Arg>, j: nat) returns (k: nat)
    requires j < |pairs|
    ensures j <= k < |pairs| && pairs[k].key == pairs[j].key && LastWithItsKey(pairs, k)
  {
    k := |pairs| - 1;
    while pairs[k].key != pairs[j].key
      invariant j <= k < |pairs| && forall l :: k < l < |pairs| ==> pairs[l].key != pairs[j].key
      decreases k
    {
      k := k - 1;
    }
  }

  lemma {:induction false} FlatArgumentsCarryTheLastPairs(pairs: seq<Arg>, parses: string -> bool)
    ensures CarryTheLastPairs(pairs, Flattened(pairs, parses), parses)
  {
    var args := Flattened(pairs, parses);
    forall key ensures key in args <==> key != "" && exists j :: 0 <= j < |pairs| && pairs[j].key == key {
      if key in args {
        FlatKeysComeFromPairs(pairs, parses, key);
      } else if key != "" && exists j :: 0 <= j < |pairs| && pairs[j].key == key {
        var j :| 0 <= j < |pairs| && pairs[j].key == key;
        var k := LastOfItsKey(pairs, j);
        LastPairWins(pairs, parses, k);
      }
    }
    forall j | 0 <= j < |pairs| && pairs[j].key in args && LastWithItsKey(pairs, j)
      ensures args[pairs[j].key] == ArgValue(pairs[j].value, parses)
    {
      LastPairWins(pairs, parses, j);
    }
  }

  /** A node's definition of a routine says what the row says, step by step. */
  ghost predicate SaysWhat(given: NodeRoutine, row: Routine, parses: string -> bool) {
    && given.triggerPhrases == row.triggerPhrases && given.instruction == row.instruction
    && given.length == (if row.length == "" then "short" else row.length)
    && |given.steps| == |row.steps|
    && forall k :: 0 <= k < |row.steps| ==>
         && given.steps[k].command == row.steps[k].command
         && given.steps[k].caption == row.steps[k].caption
         && CarryTheLastPairs(row.steps[k].args, given.steps[k].args, parses)
  }

  lemma {:induction false} DefinitionsSayWhatTheRowSays(row: Routine, parses: string -> bool)
    ensures SaysWhat(ToNode(row, parses), row, parses)
  {
    forall k | 0 <= k < |row.steps|
      ensures CarryTheLastPairs(row.steps[k].args, ToNode(row, parses).steps[k].args, parses)
    {
      FlatArgumentsCarryTheLastPairs(row.steps[k].args, parses);
    }
  }

  /**
   In every run the node of a household pulls one entry per slug of an enabled routine of that
   household and no other, and each entry says what the row says.
   */
  lemma {:induction false} NodesPullWhatTheRowsSay(
      states: seq<Table>, events: seq<Event>, n: nat, household: string, parses: string -> bool)
    requires Run(states, events) && n < |states|
    ensures var rows := states[n].rows; var pulled := NodeMap(rows, household, parses);
            && (forall slug :: slug in pulled <==>
                  exists i :: 0 <= i < |rows| && rows[i].household == household && rows[i].enabled
                              && rows[i].slug == slug)
            && (forall i :: 0 <= i < |rows| && rows[i].household == household && rows[i].enabled ==>
                  rows[i].slug in pulled && SaysWhat(pulled[rows[i].slug], rows[i], parses))
  {
    var rows := states[n].rows;
    NodesPullEveryEnabledRoutine(states, events, n, household, parses);
    forall i | 0 <= i < |rows| && rows[i].household == household && rows[i].enabled
      ensures SaysWhat(NodeMap(rows, household, parses)[rows[i].slug], rows[i], parses)
    {
      assert Pulled(rows[i], household);
      DefinitionsSayWhatTheRowSays(rows[i], parses);
    }
  }

  // ---------------------------------------------------------------- what the mobile app may store

  /** A text with a character that is not white space. */
  predicate NonBlank(s: string) {
    exists i :: 0 <= i < |s| && !IsSpace(s[i])
  }

  lemma {:induction false} TrimmedExactlyIfNonBlank(s: string)
    ensures Trim(s, IsSpace) != "" <==> NonBlank(s)
  {
    var before, after := TrimStripsExactly(s, IsSpace);
  }

  /** A schedule with a cron line that is not blank, or with a positive interval. */
  predicate Schedulable(s: Schedule) {
    || (s.kind == "cron" && s.cron.Some? && NonBlank(s.cron.value))
    || (s.kind == "interval" && s.intervalSeconds.Some? && s.intervalSeconds.value > 0)
  }

  lemma {:induction false} ValidMeansSchedulable(s: Schedule)
    ensures ValidSchedule(s) <==> Schedulable(s)
  {
    if s.cron.Some? {
      TrimmedExactlyIfNonBlank(s.cron.value);
    }
  }

  /**
   A creation adds exactly one row at the end if its name is not blank, its length is short,
   medium or long and its schedule, if any, can be followed; otherwise it adds nothing.
   */
  lemma {:induction false} CreationsAddTheRoutine(s: Table, household: string, body: Body, t: Table)
    requires Transition(s, Create(household, body), t)
    ensures if NonBlank(body.name) && body.length in {"short", "medium", "long"}
               && (body.schedule.Some? ==> Schedulable(body.schedule.value)) then
              && |t.rows| == |s.rows| + 1 && t.rows[..|s.rows|] == s.rows && t.nextId == s.nextId + 1
              && (var row := t.rows[|s.rows|];
                  && row.id == s.nextId && row.household == household && row.name == Trim(body.name, IsSpace)
                  && row.triggerPhrases == body.triggerPhrases && row.steps == body.steps
                  && row.instruction == body.instruction && row.length == body.length
                  && row.schedule == body.schedule && row.enabled == body.enabled
                  && (forall i :: 0 <= i < |s.rows| && s.rows[i].household == household ==> s.rows[i].slug != row.slug))
            else t == s
  {
    TrimmedExactlyIfNonBlank(body.name);
    if body.schedule.Some? {
      ValidMeansSchedulable(body.schedule.value);
    }
    if Acceptable(body) {
      var slug :| IsUniqueSlug(SlugsOf(s.rows, household), body.name, slug)
                  && t == Table(s.rows + [NewRoutine(s.nextId, household, slug, body)], s.nextId + 1);
      forall i | 0 <= i < |s.rows| && s.rows[i].household == household ensures s.rows[i].slug != slug {
        assert s.rows[i].slug in SlugsOf(s.rows, household);
      }
    }
  }

  /** A routine of the household has this slug. */
  predicate Taken(rows: seq<Routine>, household: string, slug: string) {
    exists i :: 0 <= i < |rows| && rows[i].household == household && rows[i].slug == slug
  }

  lemma {:induction false} SlugsOfAreTheTaken(rows: seq<Routine>, household: string, slug: string)
    ensures slug in SlugsOf(rows, household) <==> Taken(rows, household, slug)
  {}

  /**
   A new routine gets the slug of its name if that is free in its household, whatever other
   households have, and else the first free one numbered from 2 up.
   */
  lemma {:induction false} NewSlugsAreTheFirstFree(s: Table, household: string, body: Body, t: Table)
    requires Transition(s, Create(household, body), t) && |t.rows| > |s.rows|
    ensures var slug, base := t.rows[|s.rows|].slug, Slugify(body.name);
            if !Taken(s.rows, household, base) then slug == base
            else exists k: nat :: k >= 2 && slug == Suffixed(base, k) && !Taken(s.rows, household, slug)
                                  && forall j: nat :: 2 <= j < k ==> Taken(s.rows, household, Suffixed(base, j))
  {
    var base, existing := Slugify(body.name), SlugsOf(s.rows, household);
    var slug :| IsUniqueSlug(existing, body.name, slug)
                && t == Table(s.rows + [NewRoutine(s.nextId, household, slug, body)], s.nextId + 1);
    SlugsOfAreTheTaken(s.rows, household, base);
    SlugsOfAreTheTaken(s.rows, household, slug);
    if Taken(s.rows, household, base) {
      var k :| 2 <= k <= |existing| + 1 && slug == Suffixed(base, k) && Tried(base, k) <= existing;
      forall j: nat | 2 <= j < k ensures Taken(s.rows, household, Suffixed(base, j)) {
        assert Suffixed(base, j) in Tried(base, k);
        SlugsOfAreTheTaken(s.rows, household, Suffixed(base, j));
      }
    }
  }

  /** The row carries the fields the patch gives and keeps the others, its id, household and slug among them. */
  predicate CarriesPatch(before: Routine, patch: Patch, after: Routine) {
    && after.id == before.id && after.household == before.household && after.slug == before.slug
    && after.name == (if patch.name.Some? && patch.name.value != "" then Trim(patch.name.value, IsSpace)
                      else before.name)
    && after.triggerPhrases == (if patch.triggerPhrases.Some? then patch.triggerPhrases.value
                                else before.triggerPhrases)
    && after.steps == (if patch.steps.Some? then patch.steps.value else before.steps)
    && after.instruction == (if patch.instruction.Some? then patch.instruction.value else before.instruction)
    && after.length == (if patch.length.Some? then patch.length.value else before.length)
    && after.schedule == (if patch.schedule.Some? then patch.schedule.value else before.schedule)
    && after.enabled == (if patch.enabled.Some? then patch.enabled.value else before.enabled)
  }

  /** An edit assigns exactly the given fields of the one row it names, unless a length or schedule is not allowed. */
  lemma {:induction false} EditsAssignTheGivenFields(s: Table, household: string, id: nat, patch: Patch, t: Table)
    requires Consistent(s) && Transition(s, Edit(household, id, patch), t)
    ensures t.nextId == s.nextId && |t.rows| == |s.rows|
    ensures forall i :: 0 <= i < |s.rows| ==>
              if s.rows[i].id == id && s.rows[i].household == household
                 && (patch.length.Some? ==> patch.length.value in {"short", "medium", "long"})
                 && (patch.schedule.Some? && patch.schedule.value.Some? ==> Schedulable(patch.schedule.value.value))
              then CarriesPatch(s.rows[i], patch, t.rows[i])
              else t.rows[i] == s.rows[i]
  {
    if patch.schedule.Some? && patch.schedule.value.Some? {
      ValidMeansSchedulable(patch.schedule.value.value);
    }
    if AcceptablePatch(patch) && Exists(s.rows, household, id) {
      var i :| 0 <= i < |s.rows| && Names(s.rows, i, household, id)
               && t == s.(rows := s.rows[i := Patched(s.rows[i], patch)]);
      assert CarriesPatch(s.rows[i], patch, t.rows[i]);
      forall j | 0 <= j < |s.rows| && j != i ensures s.rows[j].id != id && t.rows[j] == s.rows[j] {
        assert s.rows[i].id != s.rows[j].id;
      }
    } else {
      forall i | 0 <= i < |s.rows| && s.rows[i].id == id && s.rows[i].household == household
        ensures !AcceptablePatch(patch)
      {
        assert Names(s.rows, i, household, id);
      }
    }
  }

  lemma {:induction false} WithoutOne(rows: seq<Routine>, i: nat)
    requires i < |rows| && forall j, k :: 0 <= j < k < |rows| ==> rows[j].id != rows[k].id
    ensures forall row :: row in rows[..i] + rows[i + 1..] <==> row in rows && row.id != rows[i].id
  {
    var after := rows[..i] + rows[i + 1..];
    forall row | row in after ensures row in rows && row.id != rows[i].id {
      var j :| 0 <= j < |after| && after[j] == row;
      assert row == rows[if j < i then j else j + 1];
    }
    forall row | row in rows && row.id != rows[i].id ensures row in after {
      var j :| 0 <= j < |rows| && rows[j] == row;
      assert row == after[if j < i then j else j - 1];
    }
  }

  lemma {:induction false} IdsNameOneRow(rows: seq<Routine>, i: nat)
    requires i < |rows| && forall j, k :: 0 <= j < k < |rows| ==> rows[j].id != rows[k].id
    ensures forall row :: row in rows && row.id == rows[i].id ==> row == rows[i]
  {}

  /** A deletion takes exactly the one row it names out of the table. */
  lemma {:induction false} DeletionsRemoveTheNamedRow(s: Table, household: string, id: nat, t: Table)
    requires Consistent(s) && Transition(s, Delete(household, id), t)
    ensures t.nextId == s.nextId
    ensures forall row :: row in t.rows <==> row in s.rows && !(row.id == id && row.household == household)
  {
    if Exists(s.rows, household, id) {
      var i :| 0 <= i < |s.rows| && Names(s.rows, i, household, id)
               && t == s.(rows := s.rows[..i] + s.rows[i + 1..]);
      WithoutOne(s.rows, i);
      IdsNameOneRow(s.rows, i);
    } else {
      forall row | row in s.rows ensures !(row.id == id && row.household == household) {
        var j :| 0 <= j < |s.rows| && s.rows[j] == row;
        assert !Names(s.rows, j, household, id);
      }
    }
  }

  // ---------------------------------------------------------------- every run

  predicate Playable(row: Routine) {
    row.length in {"short", "medium", "long"} && (row.schedule.Some? ==> Schedulable(row.schedule.value))
  }

  ghost predicate AllPlayable(rows: seq<Routine>) {
    forall row :: row in rows ==> Playable(row)
  }

  lemma {:induction false} StepKeepsPlayable(s: Table, e: Event, t: Table)
    requires Consistent(s) && AllPlayable(s.rows) && Transition(s, e, t)
    ensures AllPlayable(t.rows)
  {
    match e
    case Create(household, body) =>
      CreationsAddTheRoutine(s, household, body, t);
      if t != s {
        assert t.rows == s.rows + [t.rows[|s.rows|]];
      }
    case Edit(household, id, patch) =>
      EditsAssignTheGivenFields(s, household, id, patch, t);
      forall i | 0 <= i < |t.rows| ensures Playable(t.rows[i]) {
        assert s.rows[i] in s.rows;
      }
    case Delete(household, id) =>
      DeletionsRemoveTheNamedRow(s, household, id, t);
  }

  /** In every run each routine has one of the three lengths, and a schedule that can be followed if it has one. */
  lemma {:induction false} RoutinesStayPlayable(states: seq<Table>, events: seq<Event>, n: nat)
    requires Run(states, events) && n < |states|
    ensures AllPlayable(states[n].rows)
  {
    if n == 0 {
    } else {
      RoutinesStayPlayable(states, events, n - 1);
      SlugsStayDistinct(states, events, n - 1);
      StepKeepsPlayable(states[n - 1], events[n - 1], states[n]);
    }
  }

  /** A household's rows, in order. */
  function RowsOf(rows: seq<Routine>, household: string): seq<Routine> {
    if rows == [] then []
    else RowsOf(rows[..|rows| - 1], household)
         + (if rows[|rows| - 1].household == household then [rows[|rows| - 1]] else [])
  }

  lemma {:induction false} RowsOfParts(a: seq<Routine>, b: seq<Routine>, household: string)
    ensures RowsOf(a + b, household) == RowsOf(a, household) + RowsOf(b, household)
  {
    if b == [] {
      assert a + b == a;
    } else {
      RowsOfParts(a, b[..|b| - 1], household);
      assert (a + b)[..|a + b| - 1] == a + b[..|b| - 1];
    }
  }

  /** A call for one household leaves the routines of every other as they are. */
  lemma {:induction false} OtherHouseholdsKeepTheirRoutines(s: Table, e: Event, t: Table, household: string)
    requires Transition(s, e, t) && e.household != household
    ensures RowsOf(t.rows, household) == RowsOf(s.rows, household)
  {
    match e
    case Create(_, body) =>
      if t != s {
        assert t.rows[..|t.rows| - 1] == s.rows;
      }
    case Edit(h, id, patch) =>
      if t != s {
        var i :| 0 <= i < |s.rows| && Names(s.rows, i, h, id)
                 && t == s.(rows := s.rows[i := Patched(s.rows[i], patch)]);
        RowsAround(s.rows, i, household);
        RowsAround(t.rows, i, household);
        assert t.rows[..i] == s.rows[..i] && t.rows[i + 1..] == s.rows[i + 1..];
      }
    case Delete(h, id) =>
      if t != s {
        var i :| 0 <= i < |s.rows| && Names(s.rows, i, h, id)
                 && t == s.(rows := s.rows[..i] + s.rows[i + 1..]);
        RowsAround(s.rows, i, household);
        RowsOfParts(s.rows[..i], s.rows[i + 1..], household);
      }
  }

  lemma {:induction false} RowsAround(rows: seq<Routine>, i: nat, household: string)
    requires i < |rows| && rows[i].household != household
    ensures RowsOf(rows, household) == RowsOf(rows[..i], household) + RowsOf(rows[i + 1..], household)
  {
    assert rows == rows[..i + 1] + rows[i + 1..];
    RowsOfParts(rows[..i + 1], rows[i + 1..], household);
    assert rows[..i + 1][..i] == rows[..i];
  }

  /** What a node pulls depends on the routines of its household alone. */
  lemma {:induction false} NodesPullFromTheirRows(rows: seq<Routine>, household: string, parses: string -> bool)
    ensures NodeMap(rows, household, parses) == NodeMap(RowsOf(rows, household), household, parses)
  {
    if rows == [] {
    } else {
      var rest, last := rows[..|rows| - 1], rows[|rows| - 1];
      NodesPullFromTheirRows(rest, household, parses);
      if last.household == household {
        var own := RowsOf(rows, household);
        assert own == RowsOf(rest, household) + [last] && own[..|own| - 1] == RowsOf(rest, household);
      } else {
        assert RowsOf(rows, household) == RowsOf(rest, household) && !Pulled(last, household);
      }
    }
  }

  /**
   Over any stretch of a run in which only others call, a household's routines and what its node
   pulls are unmoved.
   */
  lemma {:induction false} OthersNeverMoveARoutine(
      states: seq<Table>, events: seq<Event>, m: nat, n: nat, household: string, parses: string -> bool)
    requires Run(states, events) && m <= n < |states|
    requires forall k :: m <= k < n ==> events[k].household != household
    ensures RowsOf(states[n].rows, household) == RowsOf(states[m].rows, household)
    ensures NodeMap(states[n].rows, household, parses) == NodeMap(states[m].rows, household, parses)
    decreases n
  {
    if m == n {
    } else {
      OthersNeverMoveARoutine(states, events, m, n - 1, household, parses);
      OtherHouseholdsKeepTheirRoutines(states[n - 1], events[n - 1], states[n], household);
      NodesPullFromTheirRows(states[n - 1].rows, household, parses);
      NodesPullFromTheirRows(states[n].rows, household, parses);
    }
  }
}
