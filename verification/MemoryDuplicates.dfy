/**
 The last layer of memory injection (app/api/memories.py, app/services/memory_service.py): the
 new memories get their embeddings, and each is compared with what the household already has.
 A row that comes out as the most similar one, and is not the new memory itself, is deactivated.
 */
module MemoryDuplicates {
  import opened Options
  import opened MemoryInjection

  /** The cosine similarity of two embeddings. */
  type Similarity = (Embedding, Embedding) -> real

  const THRESHOLD := 0.9

  /** The rows a new embedding is compared with: active, unexpired, household-wide, and similar enough. */
  predicate Comparable(row: Row, household: string, v: Embedding, similarity: Similarity, now: Time) {
    && row.userId.None? && row.household == household && row.active && row.embedding.Some?
    && (row.expiresAt.None? || now < row.expiresAt.value)
    && similarity(row.embedding.value, v) >= THRESHOLD
  }

  /** The first of the most similar rows. */
  function MostSimilar(
      rows: seq<Row>, household: string, v: Embedding, similarity: Similarity, now: Time): (r: Option<nat>)
    ensures r.Some? ==> r.value < |rows| && Comparable(rows[r.value], household, v, similarity, now)
    ensures r.Some? ==> forall j :: 0 <= j < |rows| && Comparable(rows[j], household, v, similarity, now) ==>
                          similarity(rows[j].embedding.value, v) <= similarity(rows[r.value].embedding.value, v)
    ensures r.Some? ==> forall j :: 0 <= j < r.value && Comparable(rows[j], household, v, similarity, now) ==>
                          similarity(rows[j].embedding.value, v) < similarity(rows[r.value].embedding.value, v)
    ensures r.None? ==> forall j :: 0 <= j < |rows| ==> !Comparable(rows[j], household, v, similarity, now)
  {
    if rows == [] then None
    else
      var n := |rows| - 1;
      var best := MostSimilar(rows[..n], household, v, similarity, now);
      if !Comparable(rows[n], household, v, similarity, now) then best
      else if best.None? then Some(n)
      else if similarity(rows[best.value].embedding.value, v) < similarity(rows[n].embedding.value, v) then Some(n)
      else best
  }

  function Deactivated(row: Row, now: Time): Row {
    row.(active := false, updatedAt := now)
  }

  /** Every saved row gets its vector; an empty vector is skipped. */
  function Embedded(rows: seq<Row>, saved: seq<nat>, vectors: seq<Embedding>): (r: seq<Row>)
    requires |saved| == |vectors| && forall i :: 0 <= i < |saved| ==> saved[i] < |rows|
    ensures |r| == |rows|
  {
    if saved == [] then rows
    else
      var n := |saved| - 1;
      var before := Embedded(rows, saved[..n], vectors[..n]);
      if vectors[n] == [] then before else before[saved[n] := before[saved[n]].(embedding := Some(vectors[n]))]
  }

  /** One comparison: the rows after it, and whether one was deactivated. */
  function Compared(
      rows: seq<Row>, household: string, id: nat, v: Embedding, similarity: Similarity, now: Time): (seq<Row>, bool)
  {
    var found := if v == [] then None else MostSimilar(rows, household, v, similarity, now);
    if found.Some? && found.value != id then (rows[found.value := Deactivated(rows[found.value], now)], true)
    else (rows, false)
  }

  /** All comparisons in order: the rows after them, and how many were deactivated. */
  function Guarded(
      rows: seq<Row>, household: string, saved: seq<nat>, vectors: seq<Embedding>, similarity: Similarity, now: Time)
    : (seq<Row>, nat)
    requires |saved| == |vectors|
  {
    if saved == [] then (rows, 0)
    else
      var n := |saved| - 1;
      var (before, count) := Guarded(rows, household, saved[..n], vectors[..n], similarity, now);
      var (after, hit) := Compared(before, household, saved[n], vectors[n], similarity, now);
      (after, if hit then count + 1 else count)
  }

  lemma {:induction false} GuardedOneMore(
      rows: seq<Row>, household: string, saved: seq<nat>, vectors: seq<Embedding>, similarity: Similarity,
      now: Time, i: nat)
    requires |saved| == |vectors| && i < |saved|
    ensures var (before, count) := Guarded(rows, household, saved[..i], vectors[..i], similarity, now);
            var (after, hit) := Compared(before, household, saved[i], vectors[i], similarity, now);
            Guarded(rows, household, saved[..i + 1], vectors[..i + 1], similarity, now) ==
                (after, if hit then count + 1 else count)
  {
    assert saved[..i + 1][..i] == saved[..i] && vectors[..i + 1][..i] == vectors[..i];
  }

  lemma {:induction false} GuardedAsCompared(
      rows: seq<Row>, household: string, saved: seq<nat>, vectors: seq<Embedding>, similarity: Similarity,
      now: Time, i: nat, before: seq<Row>, count: nat, after: seq<Row>, hit: bool)
    requires |saved| == |vectors| && i < |saved|
    requires (before, count) == Guarded(rows, household, saved[..i], vectors[..i], similarity, now)
    requires (after, hit) == Compared(before, household, saved[i], vectors[i], similarity, now)
    ensures (after, if hit then count + 1 else count)
         == Guarded(rows, household, saved[..i + 1], vectors[..i + 1], similarity, now)
  {
    GuardedOneMore(rows, household, saved, vectors, similarity, now, i);
  }

  // ---------------------------------------------------------------- what the layer may touch

  function ActiveCount(rows: seq<Row>): nat {
    if rows == [] then 0 else ActiveCount(rows[..|rows| - 1]) + (if rows[|rows| - 1].active then 1 else 0)
  }

  lemma {:induction false} OneLessActive(rows: seq<Row>, i: nat, row: Row)
    requires i < |rows| && rows[i].active && !row.active
    ensures ActiveCount(rows[i := row]) + 1 == ActiveCount(rows)
  {
    var n := |rows| - 1;
    var changed := rows[i := row];
    if i == n {
      assert changed[..n] == rows[..n];
    } else {
      OneLessActive(rows[..n], i, row);
      assert changed[..n] == rows[..n][i := row];
    }
  }

  /** The count reported is exactly the number of memories that were active before the layer and are not after it. */
  lemma {:induction false} DeactivationsAreCounted(
      rows: seq<Row>, household: string, saved: seq<nat>, vectors: seq<Embedding>, similarity: Similarity, now: Time)
    requires |saved| == |vectors|
    ensures var (after, count) := Guarded(rows, household, saved, vectors, similarity, now);
            |after| == |rows| && ActiveCount(after) + count == ActiveCount(rows)
  {
    if saved == [] {
    } else {
      var n := |saved| - 1;
      DeactivationsAreCounted(rows, household, saved[..n], vectors[..n], similarity, now);
      var before := Guarded(rows, household, saved[..n], vectors[..n], similarity, now).0;
      var (after, hit) := Compared(before, household, saved[n], vectors[n], similarity, now);
      if hit {
        var found := MostSimilar(before, household, vectors[n], similarity, now).value;
        OneLessActive(before, found, after[found]);
      }
    }
  }

  /** Comparison i can have picked this row. */
  predicate PickedBy(
      row: Row, household: string, id: nat, saved: seq<nat>, vectors: seq<Embedding>, similarity: Similarity,
      now: Time, i: nat)
    requires |saved| == |vectors| && i < |saved|
  {
    && vectors[i] != [] && saved[i] != id
    && row.household == household && row.userId == None && row.active
    && row.embedding.Some? && similarity(row.embedding.value, vectors[i]) >= 0.9
    && (row.expiresAt.Some? ==> now < row.expiresAt.value)
  }

  /**
   Only an active household-wide row at least 0.9 similar to another row's new vector is touched,
   and only deactivated.
   */
  lemma {:induction false} OnlySimilarHouseholdRowsAreTouched(
      rows: seq<Row>, household: string, saved: seq<nat>, vectors: seq<Embedding>, similarity: Similarity,
      now: Time, id: nat)
    requires |saved| == |vectors| && id < |rows|
    ensures var after := Guarded(rows, household, saved, vectors, similarity, now).0;
            && |after| == |rows|
            && (after[id] == rows[id]
                || (after[id] == rows[id].(active := false, updatedAt := now)
                    && exists i :: 0 <= i < |saved|
                         && PickedBy(rows[id], household, id, saved, vectors, similarity, now, i)))
  {
    if saved == [] {
    } else {
      var n := |saved| - 1;
      OnlySimilarHouseholdRowsAreTouched(rows, household, saved[..n], vectors[..n], similarity, now, id);
      var before := Guarded(rows, household, saved[..n], vectors[..n], similarity, now).0;
      var after := Guarded(rows, household, saved, vectors, similarity, now).0;
      if before[id] != rows[id] {
        var i :| 0 <= i < n && PickedBy(rows[id], household, id, saved[..n], vectors[..n], similarity, now, i);
        assert PickedBy(rows[id], household, id, saved, vectors, similarity, now, i);
      } else if after[id] != before[id] {
        assert PickedBy(rows[id], household, id, saved, vectors, similarity, now, n);
      }
    }
  }

  // ---------------------------------------------------------------- which rows are retired

  /** Row j is more similar than row k, or as similar and earlier. */
  predicate Ahead(rows: seq<Row>, v: Embedding, similarity: Similarity, j: nat, k: nat)
    requires j < |rows| && rows[j].embedding.Some? && k < |rows| && rows[k].embedding.Some?
  {
    var a, b := similarity(rows[j].embedding.value, v), similarity(rows[k].embedding.value, v);
    a > b || (a == b && j < k)
  }

  /** Another row that can be compared, and comes before the memory itself if that can be compared too. */
  predicate Beats(rows: seq<Row>, household: string, id: nat, v: Embedding, similarity: Similarity, now: Time, j: nat) {
    && j < |rows| && j != id && Comparable(rows[j], household, v, similarity, now)
    && (id < |rows| && Comparable(rows[id], household, v, similarity, now) ==> Ahead(rows, v, similarity, j, id))
  }

  ghost predicate Beaten(rows: seq<Row>, household: string, id: nat, v: Embedding, similarity: Similarity, now: Time) {
    exists j: nat :: Beats(rows, household, id, v, similarity, now, j)
  }

  /** Of the rows that beat the memory, the first of the most similar. */
  ghost predicate BestToBeat(
      rows: seq<Row>, household: string, id: nat, v: Embedding, similarity: Similarity, now: Time, j: nat)
  {
    && Beats(rows, household, id, v, similarity, now, j)
    && forall k: nat :: k != j && Beats(rows, household, id, v, similarity, now, k) ==> Ahead(rows, v, similarity, j, k)
  }

  lemma {:induction false} TheBestMatchBeats(
      rows: seq<Row>, household: string, id: nat, v: Embedding, similarity: Similarity, now: Time)
    ensures var found := MostSimilar(rows, household, v, similarity, now);
            found.Some? && found.value != id ==> BestToBeat(rows, household, id, v, similarity, now, found.value)
  {}

  lemma {:induction false} WhatBeatsIsFound(
      rows: seq<Row>, household: string, id: nat, v: Embedding, similarity: Similarity, now: Time, j: nat)
    requires Beats(rows, household, id, v, similarity, now, j)
    ensures var found := MostSimilar(rows, household, v, similarity, now); found.Some? && found.value != id
  {
    var found := MostSimilar(rows, household, v, similarity, now);
    assert found.Some?;
  }

  /**
   A comparison retires a row if and only if some row beats the memory, and then exactly the
   first of the most similar ones that do.
   */
  lemma {:induction false} ComparisonsRetireTheBestToBeat(
      rows: seq<Row>, household: string, id: nat, v: Embedding, similarity: Similarity, now: Time)
    requires v != []
    ensures Compared(rows, household, id, v, similarity, now).1 <==> Beaten(rows, household, id, v, similarity, now)
    ensures |Compared(rows, household, id, v, similarity, now).0| == |rows|
    ensures forall j: nat :: j < |rows| ==>
              Compared(rows, household, id, v, similarity, now).0[j] ==
              if BestToBeat(rows, household, id, v, similarity, now, j) then Deactivated(rows[j], now) else rows[j]
  {
    var found := MostSimilar(rows, household, v, similarity, now);
    TheBestMatchBeats(rows, household, id, v, similarity, now);
    forall j: nat | Beats(rows, household, id, v, similarity, now, j) ensures found.Some? && found.value != id {
      WhatBeatsIsFound(rows, household, id, v, similarity, now, j);
    }
    if found.Some? && found.value != id {
      forall j: nat | j != found.value ensures !BestToBeat(rows, household, id, v, similarity, now, j) {
        assert Beats(rows, household, id, v, similarity, now, found.value);
      }
    }
  }

  /** Comparison i of the batch, on the table as it stands by then, retires row id. */
  ghost predicate RetiredAt(
      rows: seq<Row>, household: string, saved: seq<nat>, vectors: seq<Embedding>, similarity: Similarity,
      now: Time, i: nat, id: nat)
    requires |saved| == |vectors| && i < |saved|
  {
    var before := Guarded(rows, household, saved[..i], vectors[..i], similarity, now).0;
    vectors[i] != [] && BestToBeat(before, household, saved[i], vectors[i], similarity, now, id)
  }

  ghost predicate Retired(
      rows: seq<Row>, household: string, saved: seq<nat>, vectors: seq<Embedding>, similarity: Similarity,
      now: Time, n: nat, id: nat)
    requires n <= |saved| == |vectors|
  {
    exists i :: 0 <= i < n && RetiredAt(rows, household, saved, vectors, similarity, now, i, id)
  }

  lemma {:induction false} RetiredOneMore(
      rows: seq<Row>, household: string, saved: seq<nat>, vectors: seq<Embedding>, similarity: Similarity,
      now: Time, n: nat, id: nat)
    requires n < |saved| == |vectors|
    ensures Retired(rows, household, saved, vectors, similarity, now, n + 1, id) <==>
            Retired(rows, household, saved, vectors, similarity, now, n, id)
            || RetiredAt(rows, household, saved, vectors, similarity, now, n, id)
  {}

  lemma {:induction false} RetiredSoFar(
      rows: seq<Row>, household: string, saved: seq<nat>, vectors: seq<Embedding>, similarity: Similarity,
      now: Time, n: nat, id: nat)
    requires n <= |saved| == |vectors| && id < |rows|
    ensures var after := Guarded(rows, household, saved[..n], vectors[..n], similarity, now).0;
            && |after| == |rows|
            && after[id] == if Retired(rows, household, saved, vectors, similarity, now, n, id)
                            then Deactivated(rows[id], now) else rows[id]
  {
    if n == 0 {
    } else {
      RetiredSoFar(rows, household, saved, vectors, similarity, now, n - 1, id);
      GuardedOneMore(rows, household, saved, vectors, similarity, now, n - 1);
      var before := Guarded(rows, household, saved[..n - 1], vectors[..n - 1], similarity, now).0;
      if vectors[n - 1] != [] {
        ComparisonsRetireTheBestToBeat(before, household, saved[n - 1], vectors[n - 1], similarity, now);
      }
      RetiredOneMore(rows, household, saved, vectors, similarity, now, n - 1, id);
    }
  }

  /**
   Exactly which rows a batch retires: those that were the best to beat one of its memories, when
   that was compared.
   */
  lemma {:induction false} RowsAreRetiredExactlyWhenBestToBeat(
      rows: seq<Row>, household: string, saved: seq<nat>, vectors: seq<Embedding>, similarity: Similarity,
      now: Time, id: nat)
    requires |saved| == |vectors| && id < |rows|
    ensures var after := Guarded(rows, household, saved, vectors, similarity, now).0;
            && |after| == |rows|
            && after[id] == if Retired(rows, household, saved, vectors, similarity, now, |saved|, id)
                            then Deactivated(rows[id], now) else rows[id]
  {
    assert saved[..|saved|] == saved && vectors[..|saved|] == vectors;
    RetiredSoFar(rows, household, saved, vectors, similarity, now, |saved|, id);
  }

  /** No memory of the batch is beaten on the table as it is before the comparisons. */
  ghost predicate NoneBeaten(
      rows: seq<Row>, household: string, saved: seq<nat>, vectors: seq<Embedding>, similarity: Similarity, now: Time)
    requires |saved| == |vectors|
  {
    forall i :: 0 <= i < |saved| && vectors[i] != [] ==>
      !Beaten(rows, household, saved[i], vectors[i], similarity, now)
  }

  /** A batch retires nothing if and only if none of its memories is beaten, and then the table stays as it is. */
  lemma {:induction false} BatchesRetireNothingExactlyWhenNoneIsBeaten(
      rows: seq<Row>, household: string, saved: seq<nat>, vectors: seq<Embedding>, similarity: Similarity, now: Time)
    requires |saved| == |vectors|
    ensures var (after, count) := Guarded(rows, household, saved, vectors, similarity, now);
            && (count == 0 <==> NoneBeaten(rows, household, saved, vectors, similarity, now))
            && (count == 0 ==> after == rows)
  {
    if saved == [] {
    } else {
      var n := |saved| - 1;
      BatchesRetireNothingExactlyWhenNoneIsBeaten(rows, household, saved[..n], vectors[..n], similarity, now);
      if Guarded(rows, household, saved[..n], vectors[..n], similarity, now).1 == 0 {
        if vectors[n] != [] {
          ComparisonsRetireTheBestToBeat(rows, household, saved[n], vectors[n], similarity, now);
        }
        assert NoneBeaten(rows, household, saved[..n], vectors[..n], similarity, now);
        assert forall i :: 0 <= i < n ==> saved[..n][i] == saved[i] && vectors[..n][i] == vectors[i];
      } else {
        var i :| 0 <= i < n && vectors[..n][i] != []
                 && Beaten(rows, household, saved[..n][i], vectors[..n][i], similarity, now);
        assert !NoneBeaten(rows, household, saved, vectors, similarity, now) by {
          assert vectors[i] != [] && Beaten(rows, household, saved[i], vectors[i], similarity, now);
        }
      }
    }
  }

  // ---------------------------------------------------------------- near duplicates and exact ones

  /** As with cosines: nothing is more similar to an embedding than itself. */
  ghost predicate Cosine(similarity: Similarity) {
    forall u, v :: similarity(u, v) <= similarity(v, v) == 1.0
  }

  /** The saved row carries its vector and is itself among the rows it is compared with. */
  predicate ComparedWithItself(rows: seq<Row>, household: string, id: nat, v: Embedding, now: Time)
    requires id < |rows|
  {
    && rows[id].userId.None? && rows[id].household == household && rows[id].active
    && rows[id].embedding == Some(v) && (rows[id].expiresAt.None? || now < rows[id].expiresAt.value)
  }

  /** A comparable row before the memory, exactly as similar to it as it is to itself. */
  predicate EarlierTwin(
      rows: seq<Row>, household: string, id: nat, v: Embedding, similarity: Similarity, now: Time, j: nat)
  {
    && j < id && j < |rows| && Comparable(rows[j], household, v, similarity, now)
    && similarity(rows[j].embedding.value, v) == 1.0
  }

  ghost predicate HasEarlierTwin(
      rows: seq<Row>, household: string, id: nat, v: Embedding, similarity: Similarity, now: Time)
  {
    exists j: nat :: EarlierTwin(rows, household, id, v, similarity, now, j)
  }

  /** A household-wide memory is its own best match, so only an exact duplicate that stands before it beats it. */
  lemma {:induction false} HouseholdMemoriesAreBeatenByEarlierTwins(
      rows: seq<Row>, household: string, id: nat, v: Embedding, similarity: Similarity, now: Time)
    requires Cosine(similarity) && id < |rows| && ComparedWithItself(rows, household, id, v, now)
    ensures Beaten(rows, household, id, v, similarity, now) <==> HasEarlierTwin(rows, household, id, v, similarity, now)
  {
    assert similarity(v, v) <= similarity(v, v) == 1.0;
    assert Comparable(rows[id], household, v, similarity, now);
    forall j: nat
      ensures Beats(rows, household, id, v, similarity, now, j) <==>
              EarlierTwin(rows, household, id, v, similarity, now, j)
    {
      if j < |rows| && rows[j].embedding.Some? {
        assert similarity(rows[j].embedding.value, v) <= similarity(v, v);
      }
    }
  }

  /**
   So a batch of household-wide memories retires something if and only if one of them has an
   exact duplicate before it: rows that are merely 0.9 similar stay, and so do exact duplicates
   that stand later, are inactive, have expired, or belong to someone else.
   */
  lemma {:induction false} NearDuplicatesOfHouseholdMemoriesStay(
      rows: seq<Row>, household: string, saved: seq<nat>, vectors: seq<Embedding>, similarity: Similarity, now: Time)
    requires Cosine(similarity) && |saved| == |vectors|
    requires forall i :: 0 <= i < |saved| ==> saved[i] < |rows|
    requires forall i :: 0 <= i < |saved| && vectors[i] != [] ==>
               ComparedWithItself(rows, household, saved[i], vectors[i], now)
    ensures var (after, count) := Guarded(rows, household, saved, vectors, similarity, now);
            && (count == 0 <==> forall i :: 0 <= i < |saved| && vectors[i] != [] ==>
                                  !HasEarlierTwin(rows, household, saved[i], vectors[i], similarity, now))
            && (count == 0 ==> after == rows)
  {
    BatchesRetireNothingExactlyWhenNoneIsBeaten(rows, household, saved, vectors, similarity, now);
    forall i | 0 <= i < |saved| && vectors[i] != []
      ensures Beaten(rows, household, saved[i], vectors[i], similarity, now)
              <==> HasEarlierTwin(rows, household, saved[i], vectors[i], similarity, now)
    {
      HouseholdMemoriesAreBeatenByEarlierTwins(rows, household, saved[i], vectors[i], similarity, now);
    }
  }

  /**
   A user's own memory is not compared with itself, so in any table its comparison retires a
   memory of the whole household if and only if there is one that it resembles.
   */
  lemma {:induction false} AUserMemoryRetiresAHouseholdOne(
      rows: seq<Row>, household: string, id: nat, v: Embedding, similarity: Similarity, now: Time)
    requires id < |rows| && rows[id].userId.Some? && v != []
    ensures Compared(rows, household, id, v, similarity, now).1 <==>
            exists j: nat :: j < |rows| && rows[j].household == household && rows[j].userId == None && rows[j].active
              && rows[j].embedding.Some? && similarity(rows[j].embedding.value, v) >= 0.9
              && (rows[j].expiresAt.Some? ==> now < rows[j].expiresAt.value)
  {
    ComparisonsRetireTheBestToBeat(rows, household, id, v, similarity, now);
    assert forall j: nat :: Beats(rows, household, id, v, similarity, now, j)
                            <==> j < |rows| && Comparable(rows[j], household, v, similarity, now);
  }

  // ---------------------------------------------------------------- tables the endpoint makes

  /** The row an upsert of this item leaves. */
  predicate WrittenFrom(row: Row, household: string, item: Item, now: Time) {
    && row.active && row.household == household && row.key == item.key && row.userId == item.userId
    && row.content == item.content && row.category == item.category && row.source == item.source && !row.pinned
    && row.updatedAt == now && row.expiresAt == Some(now + item.ttl)
  }

  ghost predicate WrittenFromOne(row: Row, household: string, items: seq<Item>, now: Time) {
    exists n :: 0 <= n < |items| && WrittenFrom(row, household, items[n], now)
  }

  /** The saved rows are there, all different, and each is still as one of the items left it. */
  ghost predicate SavedAsTallied(t: Tally, household: string, items: seq<Item>, now: Time) {
    && (forall k :: 0 <= k < |t.saved| ==>
          t.saved[k] < |t.rows| && WrittenFromOne(t.rows[t.saved[k]], household, items, now))
    && (forall k, l :: 0 <= k < l < |t.saved| ==> t.saved[k] != t.saved[l])
  }

  /** Saving an item leaves a row of its own, and every row of another pair alone. */
  lemma {:induction false} SaveWritesOneRow(rows: seq<Row>, household: string, item: Item, now: Time)
    ensures var id := Target(rows, household, PairOf(item)).GetOr(|rows|);
            && id < |Save(rows, household, item, now)| && |rows| <= |Save(rows, household, item, now)|
            && WrittenFrom(Save(rows, household, item, now)[id], household, item, now)
    ensures forall j :: 0 <= j < |rows| && j != Target(rows, household, PairOf(item)).GetOr(|rows|) ==>
              Save(rows, household, item, now)[j] == rows[j]
    ensures forall j :: 0 <= j < |rows| && !RowMatches(rows[j], household, PairOf(item)) ==>
              j != Target(rows, household, PairOf(item)).GetOr(|rows|)
  {}

  lemma {:induction false} OneMoreAsTallied(
      t: Tally, household: string, rest: seq<Item>, x: Item, failure: Option<string>, now: Time)
    requires SavedAsTallied(t, household, rest, now)
    requires forall n :: 0 <= n < |rest| ==> PairOf(rest[n]) != PairOf(x)
    ensures SavedAsTallied(TallyItem(t, household, x, failure, now), household, rest + [x], now)
  {
    var u, items := TallyItem(t, household, x, failure, now), rest + [x];
    var id := Target(t.rows, household, PairOf(x)).GetOr(|t.rows|);
    SaveWritesOneRow(t.rows, household, x, now);
    forall k | 0 <= k < |t.saved|
      ensures u.saved[k] == t.saved[k] && u.saved[k] < |u.rows|
      ensures failure.None? ==> t.saved[k] != id
      ensures WrittenFromOne(u.rows[u.saved[k]], household, items, now)
    {
      var n :| 0 <= n < |rest| && WrittenFrom(t.rows[t.saved[k]], household, rest[n], now);
      assert !RowMatches(t.rows[t.saved[k]], household, PairOf(x));
      assert WrittenFrom(u.rows[u.saved[k]], household, items[n], now);
    }
    if failure.None? {
      assert WrittenFrom(u.rows[id], household, items[|rest|], now);
    }
  }

  /**
   In the table that upserting distinct pairs leaves, each saved row is as its item left it, and no
   two are the same.
   */
  lemma {:induction false} UpsertsLeaveWhatTheyWrote(
      rows: seq<Row>, household: string, items: seq<Item>, failure: nat -> Option<string>, now: Time)
    requires DistinctPairs(items)
    ensures SavedAsTallied(TallyAfter(rows, household, items, failure, now), household, items, now)
  {
    if items == [] {
    } else {
      var n := |items| - 1;
      UpsertsLeaveWhatTheyWrote(rows, household, items[..n], failure, now);
      assert items == items[..n] + [items[n]];
      OneMoreAsTallied(TallyAfter(rows, household, items[..n], failure, now), household, items[..n], items[n],
          failure(n), now);
    }
  }

  lemma {:induction false} VectorsLand(rows: seq<Row>, saved: seq<nat>, vectors: seq<Embedding>, id: nat)
    requires |saved| == |vectors| && Exist(saved, rows) && id < |rows|
    requires forall i, j :: 0 <= i < j < |saved| ==> saved[i] != saved[j]
    ensures forall i :: 0 <= i < |saved| && saved[i] == id && vectors[i] != [] ==>
              Embedded(rows, saved, vectors)[id] == rows[id].(embedding := Some(vectors[i]))
    ensures (forall i :: 0 <= i < |saved| && saved[i] == id ==> vectors[i] == []) ==>
              Embedded(rows, saved, vectors)[id] == rows[id]
  {
    if saved == [] {
    } else {
      var n := |saved| - 1;
      VectorsLand(rows, saved[..n], vectors[..n], id);
      assert forall i :: 0 <= i < n ==> saved[..n][i] == saved[i] && vectors[..n][i] == vectors[i];
    }
  }

  predicate Exist(saved: seq<nat>, rows: seq<Row>) {
    forall i :: 0 <= i < |saved| ==> saved[i] < |rows|
  }

  /** Each saved row has its own vector, unless that is empty, and no other column and no other row changed. */
  ghost predicate EachHasItsVector(rows: seq<Row>, saved: seq<nat>, vectors: seq<Embedding>)
    requires |saved| == |vectors| && Exist(saved, rows)
  {
    var after := Embedded(rows, saved, vectors);
    && (forall i :: 0 <= i < |saved| ==>
          after[saved[i]] == rows[saved[i]].(embedding :=
            if vectors[i] == [] then rows[saved[i]].embedding else Some(vectors[i])))
    && (forall id :: 0 <= id < |rows| && id !in saved ==> after[id] == rows[id])
  }

  lemma {:induction false} AllVectorsLand(rows: seq<Row>, saved: seq<nat>, vectors: seq<Embedding>)
    requires |saved| == |vectors| && Exist(saved, rows)
    requires forall i, j :: 0 <= i < j < |saved| ==> saved[i] != saved[j]
    ensures EachHasItsVector(rows, saved, vectors)
  {
    var after := Embedded(rows, saved, vectors);
    forall i | 0 <= i < |saved|
      ensures after[saved[i]] == if vectors[i] == [] then rows[saved[i]]
                                 else rows[saved[i]].(embedding := Some(vectors[i]))
    {
      VectorsLand(rows, saved, vectors, saved[i]);
    }
    forall id | 0 <= id < |rows| && id !in saved ensures after[id] == rows[id] {
      VectorsLand(rows, saved, vectors, id);
    }
  }

  /** In the table that a batch leaves, each saved memory gets its own vector, and nothing else changes. */
  lemma {:induction false} EveryMemoryGetsItsVector(
      rows: seq<Row>, household: string, batch: seq<Item>, failure: nat -> Option<string>, vectors: seq<Embedding>,
      now: Time)
    requires |TallyAfter(rows, household, Dedup(batch), failure, now).saved| == |vectors|
    ensures var t := TallyAfter(rows, household, Dedup(batch), failure, now);
            Exist(t.saved, t.rows) && EachHasItsVector(t.rows, t.saved, vectors)
  {
    var t := TallyAfter(rows, household, Dedup(batch), failure, now);
    DedupKeepsTheLastOfEachPair(batch);
    UpsertsLeaveWhatTheyWrote(rows, household, Dedup(batch), failure, now);
    AllVectorsLand(t.rows, t.saved, vectors);
  }

  /** Items for the whole household, with a positive time to live as the request schema demands. */
  predicate HouseholdWide(items: seq<Item>) {
    forall i :: 0 <= i < |items| ==> items[i].userId.None? && items[i].ttl > 0
  }

  lemma {:induction false} DedupStaysHouseholdWide(batch: seq<Item>)
    requires HouseholdWide(batch)
    ensures HouseholdWide(Dedup(batch))
  {
    DedupKeepsTheLastOfEachPair(batch);
    forall i | 0 <= i < |Dedup(batch)| ensures Dedup(batch)[i].userId.None? && Dedup(batch)[i].ttl > 0 {
      assert Dedup(batch)[i] in Dedup(batch) && LastOfItsPair(batch, Dedup(batch)[i]);
    }
  }

  /**
   What the endpoint does with a batch for the whole household: it retires something if and
   only if a new memory has an exact duplicate before it in the table.
   */
  lemma {:induction false} HouseholdBatchesRetireOnlyForEarlierTwins(
      rows: seq<Row>, household: string, batch: seq<Item>, failure: nat -> Option<string>, vectors: seq<Embedding>,
      similarity: Similarity, now: Time)
    requires Cosine(similarity) && HouseholdWide(batch)
    requires |TallyAfter(rows, household, Dedup(batch), failure, now).saved| == |vectors|
    ensures var t := TallyAfter(rows, household, Dedup(batch), failure, now); Exist(t.saved, t.rows)
    ensures var t := TallyAfter(rows, household, Dedup(batch), failure, now);
            var table := Embedded(t.rows, t.saved, vectors);
            var (after, count) := Guarded(table, household, t.saved, vectors, similarity, now);
            && (count == 0 <==> forall i :: 0 <= i < |vectors| && vectors[i] != [] ==>
                                  !HasEarlierTwin(table, household, t.saved[i], vectors[i], similarity, now))
            && (count == 0 ==> after == table)
  {
    var items := Dedup(batch);
    var t := TallyAfter(rows, household, items, failure, now);
    EveryMemoryGetsItsVector(rows, household, batch, failure, vectors, now);
    var table := Embedded(t.rows, t.saved, vectors);
    DedupStaysHouseholdWide(batch);
    DedupKeepsTheLastOfEachPair(batch);
    UpsertsLeaveWhatTheyWrote(rows, household, items, failure, now);
    forall i | 0 <= i < |t.saved| && vectors[i] != []
      ensures ComparedWithItself(table, household, t.saved[i], vectors[i], now)
    {
      var n :| 0 <= n < |items| && WrittenFrom(t.rows[t.saved[i]], household, items[n], now);
    }
    NearDuplicatesOfHouseholdMemoriesStay(table, household, t.saved, vectors, similarity, now);
  }

  // ---------------------------------------------------------------- witnesses

  /** All different embeddings are close to each other. */
  const CLOSE: Similarity := (u: Embedding, v: Embedding) => if u == v then 1.0 else 0.95

  /** A table of two memories of the household, the second of which was just saved. */
  function TwoMemories(household: string, first: Item, second: Item, a: Embedding, b: Embedding, now: Time): seq<Row> {
    [NewRow(household, first, now).(embedding := Some(a)), NewRow(household, second, now).(embedding := Some(b))]
  }

  lemma {:induction false} OneComparison(
      rows: seq<Row>, household: string, id: nat, v: Embedding, similarity: Similarity, now: Time)
    ensures var (after, hit) := Compared(rows, household, id, v, similarity, now);
            Guarded(rows, household, [id], [v], similarity, now) == (after, if hit then 1 else 0)
  {
    var saved, vectors := [id], [v];
    assert saved[..0] == [] && vectors[..0] == [] && saved[..1] == saved && vectors[..1] == vectors;
    GuardedOneMore(rows, household, saved, vectors, similarity, now, 0);
  }

  /** An old memory that is comparable to a new one, but no exact duplicate, stays. */
  lemma {:induction false} ANearDuplicateStays(household: string, first: Item, second: Item, now: Time)
    requires HouseholdWide([first, second])
    ensures var rows := TwoMemories(household, first, second, [1.0], [2.0], now);
            && Cosine(CLOSE) && Comparable(rows[0], household, [2.0], CLOSE, now)
            && Guarded(rows, household, [1], [[2.0]], CLOSE, now) == (rows, 0)
  {
    var rows, v := TwoMemories(household, first, second, [1.0], [2.0], now), [2.0];
    assert [first, second][0].ttl > 0 && [first, second][1].ttl > 0 && [first, second][0].userId.None?;
    assert [first, second][1].userId.None? && [1.0][0] != [2.0][0];
    HouseholdMemoriesAreBeatenByEarlierTwins(rows, household, 1, v, CLOSE, now);
    ComparisonsRetireTheBestToBeat(rows, household, 1, v, CLOSE, now);
    OneComparison(rows, household, 1, v, CLOSE, now);
  }

  /**
   Of two exact duplicates the earlier is retired when the later is new, and nothing when the
   earlier is the new one.
   */
  lemma {:induction false} OnlyAnEarlierTwinIsRetired(
      household: string, first: Item, second: Item, v: Embedding, now: Time)
    requires HouseholdWide([first, second]) && v != []
    ensures var rows := TwoMemories(household, first, second, v, v, now);
            && Guarded(rows, household, [1], [v], CLOSE, now) == ([Deactivated(rows[0], now), rows[1]], 1)
            && Guarded(rows, household, [0], [v], CLOSE, now) == (rows, 0)
  {
    var rows := TwoMemories(household, first, second, v, v, now);
    assert [first, second][0].ttl > 0 && [first, second][1].ttl > 0 && [first, second][0].userId.None?;
    assert [first, second][1].userId.None? && Cosine(CLOSE);
    assert EarlierTwin(rows, household, 1, v, CLOSE, now, 0);
    HouseholdMemoriesAreBeatenByEarlierTwins(rows, household, 0, v, CLOSE, now);
    HouseholdMemoriesAreBeatenByEarlierTwins(rows, household, 1, v, CLOSE, now);
    ComparisonsRetireTheBestToBeat(rows, household, 0, v, CLOSE, now);
    ComparisonsRetireTheBestToBeat(rows, household, 1, v, CLOSE, now);
    assert MostSimilar(rows, household, v, CLOSE, now).value == 0;
    OneComparison(rows, household, 0, v, CLOSE, now);
    OneComparison(rows, household, 1, v, CLOSE, now);
    assert rows[0 := Deactivated(rows[0], now)] == [Deactivated(rows[0], now), rows[1]];
  }
}
