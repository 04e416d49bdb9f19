/**
 What an injection does to which row of the memory table, in plain terms: which row an upsert
 overwrites, whose rows a batch may touch at all, and what the embedding layer needs to see
 before it retires a row.
 */
module MemoryEffects {
  import opened Options
  import opened MemoryInjection
  import opened MemoryDuplicates

  // ---------------------------------------------------------------- one upsert

  /** An active memory of the household with the item's key and user. */
  predicate Known(row: Row, household: string, item: Item) {
    row.active && row.household == household && row.key == item.key && row.userId == item.userId
  }

  predicate FirstKnown(rows: seq<Row>, i: nat, household: string, item: Item)
    requires i < |rows|
  {
    Known(rows[i], household, item) && forall j :: 0 <= j < i ==> !Known(rows[j], household, item)
  }

  /**
   An item with a key overwrites the first active memory with that household, key and user, and
   keeps its embedding only if the text stays; any other item becomes a new row at the end.
   */
  lemma {:induction false} UpsertsOverwriteTheFirstKnownRow(rows: seq<Row>, household: string, item: Item, now: Time)
    ensures forall i :: 0 <= i < |rows| && item.key != "" && FirstKnown(rows, i, household, item) ==>
              Save(rows, household, item, now) == rows[i :=
                Row(household, item.userId, item.key, item.category, item.content, item.source, true, false,
                    if rows[i].content == item.content then rows[i].embedding else None,
                    rows[i].createdAt, now, Some(now + item.ttl))]
    ensures item.key == "" || (forall i :: 0 <= i < |rows| ==> !Known(rows[i], household, item)) ==>
              Save(rows, household, item, now) == rows + [
                Row(household, item.userId, item.key, item.category, item.content, item.source, true, false,
                    None, now, now, Some(now + item.ttl))]
  {
    var first := FirstMatch(rows, household, PairOf(item));
    assert forall i :: 0 <= i < |rows| ==>
        (Known(rows[i], household, item) <==> RowMatches(rows[i], household, PairOf(item)));
    forall i | 0 <= i < |rows| && FirstKnown(rows, i, household, item) ensures first == Some(i) {
      assert RowMatches(rows[i], household, PairOf(item));
    }
  }

  predicate NeverReplaced(batch: seq<Item>, i: nat)
    requires i < |batch|
  {
    forall j :: i < j < |batch| ==> batch[j].key != batch[i].key || batch[j].userId != batch[i].userId
  }

  /** Of the items of a batch exactly those stay that no later item with the same key and user replaces. */
  lemma {:induction false} OnlyTheLastItemOfAKeyAndUserStays(batch: seq<Item>, item: Item)
    ensures item in Dedup(batch) <==>
            exists i :: 0 <= i < |batch| && batch[i] == item && NeverReplaced(batch, i)
  {
    DedupKeepsTheLastOfEachPair(batch);
    if i :| 0 <= i < |batch| && batch[i] == item && NeverReplaced(batch, i) {
      assert forall j :: i < j < |batch| ==> PairOf(batch[j]) != PairOf(item);
    } else {
      assert !LastOfItsPair(batch, item);
    }
  }

  /** The error texts are, in order, those of the items that failed, each with its key. */
  lemma {:induction false} ErrorsNameTheFailedItems(
      rows: seq<Row>, household: string, items: seq<Item>, failure: nat -> Option<string>, now: Time, text: string)
    ensures text in TallyAfter(rows, household, items, failure, now).errors <==>
            exists n: nat :: n < |items| && failure(n).Some? && text == "key=" + items[n].key + ": " + failure(n).value
  {
    if items == [] {
    } else {
      var n := |items| - 1;
      ErrorsNameTheFailedItems(rows, household, items[..n], failure, now, text);
      assert forall k :: 0 <= k < n ==> items[..n][k] == items[k];
    }
  }

  // ---------------------------------------------------------------- whose rows may change

  /**
   No row disappears or changes hands, rows of other households stay as they are, and new rows are
   the household's.
   */
  ghost predicate TouchesOnly(before: seq<Row>, after: seq<Row>, household: string) {
    && |before| <= |after|
    && (forall j :: 0 <= j < |before| && before[j].household != household ==> after[j] == before[j])
    && (forall j :: 0 <= j < |before| ==> after[j].household == before[j].household)
    && (forall j :: |before| <= j < |after| ==> after[j].household == household)
  }

  lemma {:induction false} TouchesOnlyThrough(a: seq<Row>, b: seq<Row>, c: seq<Row>, household: string)
    requires TouchesOnly(a, b, household) && TouchesOnly(b, c, household)
    ensures TouchesOnly(a, c, household)
  {}

  /** The saved rows are rows of the household. */
  ghost predicate SavedRowsAreOwn(rows: seq<Row>, saved: seq<nat>, household: string) {
    forall k :: 0 <= k < |saved| ==> saved[k] < |rows| && rows[saved[k]].household == household
  }

  lemma {:induction false} OneMoreTouchesOnly(
      t: Tally, household: string, item: Item, failure: Option<string>, now: Time)
    requires SavedRowsAreOwn(t.rows, t.saved, household)
    ensures var u := TallyItem(t, household, item, failure, now);
            TouchesOnly(t.rows, u.rows, household) && SavedRowsAreOwn(u.rows, u.saved, household)
  {
    SaveWritesOneRow(t.rows, household, item, now);
    assert TouchesOnly(t.rows, Save(t.rows, household, item, now), household);
  }

  lemma {:induction false} TalliesTouchOnlyTheirHousehold(
      rows: seq<Row>, household: string, items: seq<Item>, failure: nat -> Option<string>, now: Time)
    ensures var t := TallyAfter(rows, household, items, failure, now);
            TouchesOnly(rows, t.rows, household) && SavedRowsAreOwn(t.rows, t.saved, household)
  {
    if items == [] {
    } else {
      var n := |items| - 1;
      var t := TallyAfter(rows, household, items[..n], failure, now);
      TalliesTouchOnlyTheirHousehold(rows, household, items[..n], failure, now);
      OneMoreTouchesOnly(t, household, items[n], failure(n), now);
      TouchesOnlyThrough(rows, t.rows, TallyItem(t, household, items[n], failure(n), now).rows, household);
    }
  }

  lemma {:induction false} VectorsTouchOnlyTheirHousehold(
      rows: seq<Row>, household: string, saved: seq<nat>, vectors: seq<Embedding>)
    requires |saved| == |vectors|
    requires SavedRowsAreOwn(rows, saved, household)
    ensures TouchesOnly(rows, Embedded(rows, saved, vectors), household)
  {
    if saved == [] {
    } else {
      var n := |saved| - 1;
      assert rows[saved[n]].household == household;
      VectorsTouchOnlyTheirHousehold(rows, household, saved[..n], vectors[..n]);
    }
  }

  lemma {:induction false} ComparisonsTouchOnlyTheirHousehold(
      rows: seq<Row>, household: string, saved: seq<nat>, vectors: seq<Embedding>, similarity: Similarity, now: Time)
    requires |saved| == |vectors|
    ensures TouchesOnly(rows, Guarded(rows, household, saved, vectors, similarity, now).0, household)
  {
    if saved == [] {
    } else {
      var n := |saved| - 1;
      ComparisonsTouchOnlyTheirHousehold(rows, household, saved[..n], vectors[..n], similarity, now);
    }
  }

  lemma {:induction false} NothingIsCompared(rows: seq<Row>, household: string, similarity: Similarity, now: Time)
    ensures Guarded(Embedded(rows, [], []), household, [], [], similarity, now) == (rows, 0)
  {}

  lemma {:induction false} SavedRowsAreThere(
      rows: seq<Row>, household: string, items: seq<Item>, failure: nat -> Option<string>, now: Time)
    ensures var t := TallyAfter(rows, household, items, failure, now);
            forall i :: 0 <= i < |t.saved| ==> t.saved[i] < |t.rows|
  {
    TalliesTouchOnlyTheirHousehold(rows, household, items, failure, now);
  }

  /** The upserts, the vectors and the comparisons of an injection together touch only rows of its household. */
  lemma {:induction false} InjectionsTouchOnlyTheirHousehold(
      rows: seq<Row>, household: string, items: seq<Item>, failure: nat -> Option<string>,
      embed: nat -> Option<seq<Embedding>>, similarity: Similarity, now: Time)
    ensures var t := TallyAfter(rows, household, items, failure, now);
            var vectors := embed(|t.saved|);
            && (forall i :: 0 <= i < |t.saved| ==> t.saved[i] < |t.rows|)
            && TouchesOnly(rows, if vectors.Some? && |vectors.value| == |t.saved| then
                                   Guarded(Embedded(t.rows, t.saved, vectors.value), household, t.saved, vectors.value,
                                           similarity, now).0
                                 else t.rows, household)
  {
    var t := TallyAfter(rows, household, items, failure, now);
    var vectors := embed(|t.saved|);
    TalliesTouchOnlyTheirHousehold(rows, household, items, failure, now);
    if vectors.Some? && |vectors.value| == |t.saved| {
      var embedded := Embedded(t.rows, t.saved, vectors.value);
      VectorsTouchOnlyTheirHousehold(t.rows, household, t.saved, vectors.value);
      ComparisonsTouchOnlyTheirHousehold(embedded, household, t.saved, vectors.value, similarity, now);
      TouchesOnlyThrough(rows, t.rows, embedded, household);
      TouchesOnlyThrough(rows, embedded,
                         Guarded(embedded, household, t.saved, vectors.value, similarity, now).0, household);
    }
  }

  // ---------------------------------------------------------------- what is retired

  /**
   A row that can be retired for a vector: the household's own and nobody's in particular, active,
   unexpired, 0.9 similar.
   */
  predicate Resembles(row: Row, household: string, v: Embedding, similarity: Similarity, now: Time) {
    && row.household == household && row.userId == None && row.active
    && row.embedding.Some? && similarity(row.embedding.value, v) >= 0.9
    && (row.expiresAt.Some? ==> now < row.expiresAt.value)
  }

  /**
   A comparison that finds only the memory itself, or nothing, retires nothing; any other retires
   one resembling row.
   */
  lemma {:induction false} ComparisonsRetireAResemblingRow(
      rows: seq<Row>, household: string, id: nat, v: Embedding, similarity: Similarity, now: Time)
    ensures var (after, hit) := Compared(rows, household, id, v, similarity, now);
            && (hit ==> exists j :: 0 <= j < |rows| && j != id && Resembles(rows[j], household, v, similarity, now)
                                    && after == rows[j := rows[j].(active := false, updatedAt := now)])
            && (!hit ==> after == rows)
            && (hit ==> v != [])
            && (v != [] && id < |rows| && !Resembles(rows[id], household, v, similarity, now) ==>
                  (hit <==> exists j :: 0 <= j < |rows| && Resembles(rows[j], household, v, similarity, now)))
  {
    assert forall j :: 0 <= j < |rows| ==>
        (Resembles(rows[j], household, v, similarity, now) <==> Comparable(rows[j], household, v, similarity, now));
    if v != [] && MostSimilar(rows, household, v, similarity, now).Some? {
      var j := MostSimilar(rows, household, v, similarity, now).value;
      assert Resembles(rows[j], household, v, similarity, now);
    }
  }
}
