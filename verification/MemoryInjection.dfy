/**
 Batch injection of agent memories (app/api/memories.py) over the keyed upsert of the memory
 service (app/services/memory_service.py).

 A batch is first reduced to the last item of each (key, user) pair, then upserted item by
 item while injected, updated and failed items are counted.  The module proves when this is
 the same as upserting the raw batch in order, and that the counts are exact.
 */
module MemoryInjection {
  import opened Options

  type Time = int
  type Embedding = seq<real>

  datatype Row = Row(
    household: string, userId: Option<int>, key: string, category: string, content: string, source: string,
    active: bool, pinned: bool, embedding: Option<Embedding>, createdAt: Time, updatedAt: Time, expiresAt: Option<Time>)

  datatype Item = Item(content: string, category: string, key: string, userId: Option<int>, ttl: Time, source: string)

  /** What an item is recognised by: its key and its user (or the whole household). */
  type Pair = (string, Option<int>)

  function PairOf(item: Item): Pair {
    (item.key, item.userId)
  }

  // ---------------------------------------------------------------- the keyed upsert

  predicate RowMatches(row: Row, household: string, pair: Pair) {
    row.active && row.household == household && row.key == pair.0 && row.userId == pair.1
  }

  function FirstMatch(rows: seq<Row>, household: string, pair: Pair): (r: Option<nat>)
    ensures r.Some? ==> r.value < |rows| && RowMatches(rows[r.value], household, pair)
                        && forall j :: 0 <= j < r.value ==> !RowMatches(rows[j], household, pair)
    ensures r.None? ==> forall j :: 0 <= j < |rows| ==> !RowMatches(rows[j], household, pair)
  {
    if rows == [] then None
    else
      var r := FirstMatch(rows[..|rows| - 1], household, pair);
      if r.Some? then r
      else if RowMatches(rows[|rows| - 1], household, pair) then Some(|rows| - 1)
      else None
  }

  /** The active row the upsert of an item would overwrite; an empty key never matches. */
  function Target(rows: seq<Row>, household: string, pair: Pair): Option<nat> {
    if pair.0 == "" then None else FirstMatch(rows, household, pair)
  }

  function NewRow(household: string, item: Item, now: Time): Row {
    Row(household, item.userId, item.key, item.category, item.content, item.source,
        true, false, None, now, now, Some(now + item.ttl))
  }

  /** Overwriting drops the embedding when the text changes. */
  function Overwritten(row: Row, item: Item, now: Time): Row {
    row.(embedding := if row.content != item.content then None else row.embedding,
         content := item.content, category := item.category, source := item.source, pinned := false,
         expiresAt := Some(now + item.ttl), updatedAt := now)
  }

  function Save(rows: seq<Row>, household: string, item: Item, now: Time): seq<Row> {
    var target := Target(rows, household, PairOf(item));
    if target.Some? then rows[target.value := Overwritten(rows[target.value], item, now)]
    else rows + [NewRow(household, item, now)]
  }

  function SaveAll(rows: seq<Row>, household: string, items: seq<Item>, now: Time): seq<Row> {
    if items == [] then rows
    else Save(SaveAll(rows, household, items[..|items| - 1], now), household, items[|items| - 1], now)
  }

  // ---------------------------------------------------------------- in-batch dedup

  function IndexOf(items: seq<Item>, pair: Pair): (r: Option<nat>)
    ensures r.Some? ==> r.value < |items| && PairOf(items[r.value]) == pair
    ensures r.None? ==> forall j :: 0 <= j < |items| ==> PairOf(items[j]) != pair
  {
    if items == [] then None
    else if PairOf(items[|items| - 1]) == pair then Some(|items| - 1)
    else IndexOf(items[..|items| - 1], pair)
  }

  /** Assigning into an insertion-ordered dictionary: a known key keeps its place and takes the new value. */
  function Put(items: seq<Item>, item: Item): seq<Item> {
    var i := IndexOf(items, PairOf(item));
    if i.Some? then items[i.value := item] else items + [item]
  }

  function Dedup(batch: seq<Item>): seq<Item> {
    if batch == [] then [] else Put(Dedup(batch[..|batch| - 1]), batch[|batch| - 1])
  }

  ghost predicate DistinctPairs(items: seq<Item>) {
    forall i, j :: 0 <= i < j < |items| ==> PairOf(items[i]) != PairOf(items[j])
  }

  function Pairs(items: seq<Item>): set<Pair> {
    set i | 0 <= i < |items| :: PairOf(items[i])
  }

  lemma {:induction false} PairsOfOneMore(rest: seq<Item>, x: Item)
    ensures Pairs(rest + [x]) == Pairs(rest) + {PairOf(x)}
  {
    var items := rest + [x];
    assert PairOf(items[|rest|]) == PairOf(x);
    forall p | p in Pairs(rest) ensures p in Pairs(items) {
      var i :| 0 <= i < |rest| && PairOf(rest[i]) == p;
      assert PairOf(items[i]) == p;
    }
  }

  /** The item stands in the batch, and no later item has its pair. */
  ghost predicate LastOfItsPair(batch: seq<Item>, item: Item) {
    exists i :: 0 <= i < |batch| && batch[i] == item && forall j :: i < j < |batch| ==> PairOf(batch[j]) != PairOf(item)
  }

  lemma {:induction false} PutKeepsPairsDistinct(items: seq<Item>, x: Item)
    requires DistinctPairs(items)
    ensures DistinctPairs(Put(items, x))
    ensures |items| <= |Put(items, x)| <= |items| + 1
    ensures Pairs(Put(items, x)) == Pairs(items) + {PairOf(x)}
    ensures forall y :: y in Put(items, x) <==> y == x || (y in items && PairOf(y) != PairOf(x))
  {
    var at, after := IndexOf(items, PairOf(x)), Put(items, x);
    assert after[if at.Some? then at.value else |items|] == x;
    assert forall i :: 0 <= i < |items| && at != Some(i) ==> after[i] == items[i] && PairOf(items[i]) != PairOf(x);
    forall p | p in Pairs(items) ensures p in Pairs(after) {
      var i :| 0 <= i < |items| && PairOf(items[i]) == p;
      assert PairOf(after[i]) == p;
    }
    forall y | y in items && PairOf(y) != PairOf(x) ensures y in after {
      var i :| 0 <= i < |items| && items[i] == y;
      assert after[i] == y;
    }
  }

  lemma {:induction false} LastInLonger(rest: seq<Item>, x: Item, y: Item)
    ensures LastOfItsPair(rest + [x], y) <==> y == x || (LastOfItsPair(rest, y) && PairOf(y) != PairOf(x))
  {
    var batch := rest + [x];
    if y == x {
      assert batch[|rest|] == y;
    } else if LastOfItsPair(batch, y) {
      var i :| 0 <= i < |batch| && batch[i] == y && forall j :: i < j < |batch| ==> PairOf(batch[j]) != PairOf(y);
      assert rest[i] == y && PairOf(batch[|rest|]) != PairOf(y);
      assert forall j :: i < j < |rest| ==> rest[j] == batch[j];
    } else if LastOfItsPair(rest, y) {
      var i :| 0 <= i < |rest| && rest[i] == y && forall j :: i < j < |rest| ==> PairOf(rest[j]) != PairOf(y);
      assert batch[i] == y;
    }
  }

  /** The reduced batch holds exactly the last item of every pair, each once. */
  lemma {:induction false} DedupKeepsTheLastOfEachPair(batch: seq<Item>)
    ensures DistinctPairs(Dedup(batch)) && |Dedup(batch)| <= |batch|
    ensures Pairs(Dedup(batch)) == Pairs(batch)
    ensures forall y :: y in Dedup(batch) <==> LastOfItsPair(batch, y)
  {
    if batch == [] {
    } else {
      var rest, x := batch[..|batch| - 1], batch[|batch| - 1];
      assert batch == rest + [x];
      DedupKeepsTheLastOfEachPair(rest);
      PutKeepsPairsDistinct(Dedup(rest), x);
      PairsOfOneMore(rest, x);
      forall y ensures y in Dedup(batch) <==> LastOfItsPair(batch, y) {
        LastInLonger(rest, x, y);
      }
    }
  }

  // ---------------------------------------------------------------- stores without embeddings

  function Erase(rows: seq<Row>): (r: seq<Row>)
    ensures |r| == |rows|
    ensures forall i :: 0 <= i < |rows| ==> r[i] == rows[i].(embedding := None)
  {
    seq(|rows|, i requires 0 <= i < |rows| => rows[i].(embedding := None))
  }

  lemma {:induction false} EraseSave(rows: seq<Row>, household: string, item: Item, now: Time)
    ensures Target(Erase(rows), household, PairOf(item)) == Target(rows, household, PairOf(item))
    ensures Erase(Save(rows, household, item, now)) == Save(Erase(rows), household, item, now)
  {
    var pair := PairOf(item);
    assert forall i :: 0 <= i < |rows| ==>
        (RowMatches(Erase(rows)[i], household, pair) <==> RowMatches(rows[i], household, pair));
    var a, b := FirstMatch(Erase(rows), household, pair), FirstMatch(rows, household, pair);
    if a.Some? {
      assert RowMatches(rows[a.value], household, pair);
    }
    if b.Some? {
      assert RowMatches(Erase(rows)[b.value], household, pair);
    }
  }

  lemma {:induction false} EraseSaveAll(rows: seq<Row>, household: string, items: seq<Item>, now: Time)
    ensures Erase(SaveAll(rows, household, items, now)) == SaveAll(Erase(rows), household, items, now)
  {
    if items == [] {
    } else {
      EraseSaveAll(rows, household, items[..|items| - 1], now);
      EraseSave(SaveAll(rows, household, items[..|items| - 1], now), household, items[|items| - 1], now);
    }
  }

  ghost predicate Bare(rows: seq<Row>) {
    forall i :: 0 <= i < |rows| ==> rows[i].embedding == None
  }

  lemma {:induction false} BareSaveAll(rows: seq<Row>, household: string, items: seq<Item>, now: Time)
    requires Bare(rows)
    ensures Bare(SaveAll(rows, household, items, now))
  {
    if items == [] {
    } else {
      BareSaveAll(rows, household, items[..|items| - 1], now);
    }
  }

  // ---------------------------------------------------------------- how two upserts interact

  /** Saving one item leaves the target of every other pair where it was, and gives its own pair a target. */
  lemma {:induction false} TargetAfterSave(rows: seq<Row>, household: string, item: Item, now: Time, pair: Pair)
    ensures Target(rows, household, pair).Some? ==>
              Target(Save(rows, household, item, now), household, pair) == Target(rows, household, pair)
    ensures pair != PairOf(item) ==>
              Target(Save(rows, household, item, now), household, pair) == Target(rows, household, pair)
    ensures pair == PairOf(item) && pair.0 != "" && Target(rows, household, pair).None? ==>
              Target(Save(rows, household, item, now), household, pair) == Some(|rows|)
  {
    var after := Save(rows, household, item, now);
    assert forall i :: 0 <= i < |rows| ==>
        (RowMatches(after[i], household, pair) <==> RowMatches(rows[i], household, pair));
    assert |after| > |rows| ==> (RowMatches(after[|rows|], household, pair) <==> pair == PairOf(item));
    var a, b := FirstMatch(after, household, pair), FirstMatch(rows, household, pair);
    if b.Some? {
      assert RowMatches(after[b.value], household, pair);
      assert a.Some? && a.value <= b.value;
      assert RowMatches(rows[a.value], household, pair);
    }
  }

  lemma {:induction false} SecondSaveWins(rows: seq<Row>, household: string, first: Item, second: Item, now: Time)
    requires Bare(rows) && PairOf(first) == PairOf(second) && first.key != ""
    ensures Save(Save(rows, household, first, now), household, second, now) == Save(rows, household, second, now)
  {
    TargetAfterSave(rows, household, first, now, PairOf(first));
  }

  lemma {:induction false} SavesCommute(rows: seq<Row>, household: string, known: Item, other: Item, now: Time)
    requires Target(rows, household, PairOf(known)).Some? && PairOf(known) != PairOf(other)
    ensures Save(Save(rows, household, other, now), household, known, now)
         == Save(Save(rows, household, known, now), household, other, now)
  {
    TargetAfterSave(rows, household, other, now, PairOf(known));
    TargetAfterSave(rows, household, known, now, PairOf(other));
    if Target(rows, household, PairOf(other)).Some? {
      var i, j := Target(rows, household, PairOf(known)).value, Target(rows, household, PairOf(other)).value;
      assert RowMatches(rows[i], household, PairOf(known)) && RowMatches(rows[j], household, PairOf(other));
    }
  }

  lemma {:induction false} SaveMovesForward(
      rows: seq<Row>, household: string, known: Item, others: seq<Item>, now: Time)
    requires Target(rows, household, PairOf(known)).Some?
    requires forall i :: 0 <= i < |others| ==> PairOf(others[i]) != PairOf(known)
    ensures Target(SaveAll(rows, household, others, now), household, PairOf(known)).Some?
    ensures Save(SaveAll(rows, household, others, now), household, known, now)
         == SaveAll(Save(rows, household, known, now), household, others, now)
  {
    if others == [] {
    } else {
      var rest, last := others[..|others| - 1], others[|others| - 1];
      SaveMovesForward(rows, household, known, rest, now);
      var mid := SaveAll(rows, household, rest, now);
      TargetAfterSave(mid, household, last, now, PairOf(known));
      SavesCommute(mid, household, known, last, now);
    }
  }

  lemma {:induction false} SaveAllConcat(rows: seq<Row>, household: string, a: seq<Item>, b: seq<Item>, now: Time)
    ensures SaveAll(rows, household, a + b, now) == SaveAll(SaveAll(rows, household, a, now), household, b, now)
  {
    if b == [] {
      assert a + b == a;
    } else {
      SaveAllConcat(rows, household, a, b[..|b| - 1], now);
      assert (a + b)[..|a + b| - 1] == a + b[..|b| - 1];
    }
  }

  /** Replacing an item of the list in place is the same as saving its replacement at the end. */
  lemma {:induction false} ReplacingIsSavingLater(
      rows: seq<Row>, household: string, items: seq<Item>, i: nat, x: Item, now: Time)
    requires Bare(rows) && DistinctPairs(items)
    requires i < |items| && PairOf(items[i]) == PairOf(x) && x.key != ""
    ensures SaveAll(rows, household, items[i := x], now) ==
            Save(SaveAll(rows, household, items, now), household, x, now)
  {
    var before, after := items[..i], items[i + 1..];
    assert items == before + [items[i]] + after && items[i := x] == before + [x] + after;
    var s := SaveAll(rows, household, before, now);
    BareSaveAll(rows, household, before, now);
    SaveAllConcat(rows, household, before + [items[i]], after, now);
    SaveAllConcat(rows, household, before, [items[i]], now);
    SaveAllConcat(rows, household, before + [x], after, now);
    SaveAllConcat(rows, household, before, [x], now);
    assert forall y :: SaveAll(s, household, [y], now) == Save(s, household, y, now) by {
      forall y ensures SaveAll(s, household, [y], now) == Save(s, household, y, now) {
        assert [y][..0] == [];
        assert SaveAll(s, household, [y][..0], now) == s;
      }
    }
    var t := Save(s, household, items[i], now);
    TargetAfterSave(s, household, items[i], now, PairOf(x));
    SaveMovesForward(t, household, x, after, now);
    SecondSaveWins(s, household, items[i], x, now);
  }

  /** The batch repeats no pair whose key is empty. */
  ghost predicate EmptyKeysUnrepeated(batch: seq<Item>) {
    forall i, j :: 0 <= i < j < |batch| && PairOf(batch[i]) == PairOf(batch[j]) ==> batch[i].key != ""
  }

  lemma {:induction false} BareEquivalence(rows: seq<Row>, household: string, batch: seq<Item>, now: Time)
    requires Bare(rows) && EmptyKeysUnrepeated(batch)
    ensures SaveAll(rows, household, Dedup(batch), now) == SaveAll(rows, household, batch, now)
  {
    if batch == [] {
    } else {
      var rest, x := batch[..|batch| - 1], batch[|batch| - 1];
      assert forall i :: 0 <= i < |rest| ==> rest[i] == batch[i];
      BareEquivalence(rows, household, rest, now);
      DedupKeepsTheLastOfEachPair(rest);
      var d := Dedup(rest);
      var at := IndexOf(d, PairOf(x));
      if at.Some? {
        assert PairOf(x) in Pairs(rest);
        var i :| 0 <= i < |rest| && PairOf(rest[i]) == PairOf(x);
        assert batch[i].key != "";
        ReplacingIsSavingLater(rows, household, d, at.value, x, now);
      } else {
        assert (d + [x])[..|d|] == d;
      }
    }
  }

  // ---------------------------------------------------------------- how many rows a batch adds

  function EmptyKeys(items: seq<Item>): nat {
    if items == [] then 0
    else EmptyKeys(items[..|items| - 1]) + (if items[|items| - 1].key == "" then 1 else 0)
  }

  /** The keyed pairs of the batch that had no active row. */
  function NewPairs(rows: seq<Row>, household: string, items: seq<Item>): set<Pair> {
    set p | p in Pairs(items) && p.0 != "" && Target(rows, household, p).None?
  }

  /** After a batch a pair has a target when it had one, which it then keeps, or when the batch named it. */
  lemma {:induction false} TargetAfterSaveAll(rows: seq<Row>, household: string, items: seq<Item>, now: Time, p: Pair)
    ensures Target(SaveAll(rows, household, items, now), household, p).Some? <==>
              Target(rows, household, p).Some? || (p.0 != "" && p in Pairs(items))
    ensures Target(rows, household, p).Some? ==>
              Target(SaveAll(rows, household, items, now), household, p) == Target(rows, household, p)
  {
    if items == [] {
    } else {
      var rest, x := items[..|items| - 1], items[|items| - 1];
      assert items == rest + [x];
      PairsOfOneMore(rest, x);
      TargetAfterSaveAll(rows, household, rest, now, p);
      TargetAfterSave(SaveAll(rows, household, rest, now), household, x, now, p);
    }
  }

  lemma {:induction false} NewPairsOfOneMore(rows: seq<Row>, household: string, rest: seq<Item>, x: Item)
    ensures NewPairs(rows, household, rest + [x]) ==
            NewPairs(rows, household, rest)
            + if x.key != "" && Target(rows, household, PairOf(x)).None? then {PairOf(x)} else {}
    ensures PairOf(x) in NewPairs(rows, household, rest) <==>
            PairOf(x) in Pairs(rest) && x.key != "" && Target(rows, household, PairOf(x)).None?
  {
    PairsOfOneMore(rest, x);
  }

  lemma {:induction false} RowsAdded(rows: seq<Row>, household: string, items: seq<Item>, now: Time)
    ensures |SaveAll(rows, household, items, now)| == |rows| + EmptyKeys(items) + |NewPairs(rows, household, items)|
  {
    if items == [] {
    } else {
      var rest, x := items[..|items| - 1], items[|items| - 1];
      assert items == rest + [x];
      RowsAdded(rows, household, rest, now);
      TargetAfterSaveAll(rows, household, rest, now, PairOf(x));
      NewPairsOfOneMore(rows, household, rest, x);
      if x.key != "" && Target(rows, household, PairOf(x)).None? {
        assert NewPairs(rows, household, items) == NewPairs(rows, household, rest) + {PairOf(x)};
      } else {
        assert NewPairs(rows, household, items) == NewPairs(rows, household, rest);
      }
    }
  }

  lemma {:induction false} EmptyKeysReplaced(items: seq<Item>, i: nat, x: Item)
    requires i < |items| && (items[i].key == "" <==> x.key == "")
    ensures EmptyKeys(items[i := x]) == EmptyKeys(items)
  {
    if i < |items| - 1 {
      EmptyKeysReplaced(items[..|items| - 1], i, x);
      assert items[i := x][..|items| - 1] == items[..|items| - 1][i := x];
    } else {
      assert items[i := x][..|items| - 1] == items[..|items| - 1];
    }
  }

  lemma {:induction false} PutEmptyKeys(items: seq<Item>, x: Item)
    ensures EmptyKeys(Put(items, x)) ==
              EmptyKeys(items) + (if x.key == "" && PairOf(x) !in Pairs(items) then 1 else 0)
  {
    var at := IndexOf(items, PairOf(x));
    if at.Some? {
      EmptyKeysReplaced(items, at.value, x);
      assert PairOf(items[at.value]) in Pairs(items);
    } else {
      assert (items + [x])[..|items|] == items;
    }
  }

  /** The last item repeats an empty-key pair of the rest, or the rest repeats one itself. */
  lemma {:induction false} RepeatedEmptyKey(rest: seq<Item>, x: Item)
    requires !EmptyKeysUnrepeated(rest + [x]) && EmptyKeysUnrepeated(rest)
    ensures x.key == "" && PairOf(x) in Pairs(rest)
  {
    var batch := rest + [x];
    var i, j :| 0 <= i < j < |batch| && PairOf(batch[i]) == PairOf(batch[j]) && batch[i].key == "";
    assert forall k :: 0 <= k < |rest| ==> batch[k] == rest[k];
    assert j == |rest| && PairOf(rest[i]) in Pairs(rest);
  }

  lemma {:induction false} DedupDropsRepeatedEmptyKeys(batch: seq<Item>)
    ensures EmptyKeys(Dedup(batch)) <= EmptyKeys(batch)
    ensures !EmptyKeysUnrepeated(batch) ==> EmptyKeys(Dedup(batch)) < EmptyKeys(batch)
  {
    if batch == [] {
    } else {
      var rest, x := batch[..|batch| - 1], batch[|batch| - 1];
      assert batch == rest + [x];
      DedupDropsRepeatedEmptyKeys(rest);
      DedupKeepsTheLastOfEachPair(rest);
      PutEmptyKeys(Dedup(rest), x);
      if EmptyKeysUnrepeated(rest) && !EmptyKeysUnrepeated(batch) {
        RepeatedEmptyKey(rest, x);
      }
    }
  }

  /**
   Up to the cached embeddings, reducing the batch first gives the same table as upserting
   every item in order, if and only if the batch repeats no pair with an empty key.
   */
  lemma {:induction false} DedupThenUpsertIsUpsertInOrder(
      rows: seq<Row>, household: string, batch: seq<Item>, now: Time)
    ensures Erase(SaveAll(rows, household, Dedup(batch), now)) == Erase(SaveAll(rows, household, batch, now))
            <==> EmptyKeysUnrepeated(batch)
  {
    if EmptyKeysUnrepeated(batch) {
      EraseSaveAll(rows, household, batch, now);
      EraseSaveAll(rows, household, Dedup(batch), now);
      BareEquivalence(Erase(rows), household, batch, now);
    } else {
      DedupDropsRepeatedEmptyKeys(batch);
      DedupKeepsTheLastOfEachPair(batch);
      RowsAdded(rows, household, batch, now);
      RowsAdded(rows, household, Dedup(batch), now);
      assert NewPairs(rows, household, batch) == NewPairs(rows, household, Dedup(batch));
      assert |Erase(SaveAll(rows, household, batch, now))| > |Erase(SaveAll(rows, household, Dedup(batch), now))|;
    }
  }

  // ---------------------------------------------------------------- embeddings

  /** No item that overwrites row i brings a different text. */
  ghost predicate TextKept(rows: seq<Row>, household: string, items: seq<Item>, i: nat)
    requires i < |rows|
  {
    forall k :: 0 <= k < |items| && Target(rows, household, PairOf(items[k])) == Some(i) ==>
        items[k].content == rows[i].content
  }

  /** One more item keeps the text of row i exactly when it does not overwrite that row with another text. */
  lemma {:induction false} TextKeptByOneMore(
      rows: seq<Row>, household: string, rest: seq<Item>, x: Item, now: Time, i: nat)
    requires i < |rows|
    ensures TextKept(rows, household, rest + [x], i) <==>
            TextKept(rows, household, rest, i)
            && (Target(SaveAll(rows, household, rest, now), household, PairOf(x)) == Some(i) ==>
                 x.content == rows[i].content)
  {
    var items, pair := rest + [x], PairOf(x);
    assert items[|rest|] == x && forall k :: 0 <= k < |rest| ==> items[k] == rest[k];
    TargetAfterSaveAll(rows, household, rest, now, pair);
    if Target(rows, household, pair).None? {
      TargetsAreNew(rows, household, rest, now, pair);
    }
    if TextKept(rows, household, items, i) {
      assert forall k :: 0 <= k < |rest| ==> items[k] in items;
    }
  }

  lemma {:induction false} EmbeddingsAfter(rows: seq<Row>, household: string, items: seq<Item>, now: Time, i: nat)
    ensures |rows| <= |SaveAll(rows, household, items, now)|
    ensures i < |rows| ==>
              SaveAll(rows, household, items, now)[i].embedding
                == (if TextKept(rows, household, items, i) then rows[i].embedding else None)
    ensures i < |rows| && TextKept(rows, household, items, i) ==>
              SaveAll(rows, household, items, now)[i].content == rows[i].content
    ensures |rows| <= i < |SaveAll(rows, household, items, now)| ==>
              SaveAll(rows, household, items, now)[i].embedding == None
  {
    if items == [] {
    } else {
      var rest, x := items[..|items| - 1], items[|items| - 1];
      assert items == rest + [x];
      EmbeddingsAfter(rows, household, rest, now, i);
      if i < |rows| {
        TextKeptByOneMore(rows, household, rest, x, now, i);
      }
    }
  }

  /** A pair that had no target only ever gets one among the rows the batch added. */
  lemma {:induction false} TargetsAreNew(rows: seq<Row>, household: string, items: seq<Item>, now: Time, pair: Pair)
    requires Target(rows, household, pair).None?
    ensures var t := Target(SaveAll(rows, household, items, now), household, pair); t.Some? ==> t.value >= |rows|
    ensures |SaveAll(rows, household, items, now)| >= |rows|
  {
    if items == [] {
    } else {
      TargetsAreNew(rows, household, items[..|items| - 1], now, pair);
      TargetAfterSave(SaveAll(rows, household, items[..|items| - 1], now), household, items[|items| - 1], now, pair);
    }
  }

  /** Wherever a cached embedding is at stake, a batch whose last item restores the text never changed it in between. */
  ghost predicate NoTextDetours(rows: seq<Row>, household: string, batch: seq<Item>) {
    forall i :: 0 <= i < |rows| && rows[i].embedding.Some? && TextKept(rows, household, Dedup(batch), i) ==>
      TextKept(rows, household, batch, i)
  }

  /**
   The two tables agree in every column, embeddings included, exactly when in addition no
   item changed the text of an embedded row only for a later item to change it back.
   */
  lemma {:induction false} DedupKeepsEmbeddingsExactlyWithoutDetours(
      rows: seq<Row>, household: string, batch: seq<Item>, now: Time)
    ensures SaveAll(rows, household, Dedup(batch), now) == SaveAll(rows, household, batch, now)
            <==> EmptyKeysUnrepeated(batch) && NoTextDetours(rows, household, batch)
  {
    var raw, reduced := SaveAll(rows, household, batch, now), SaveAll(rows, household, Dedup(batch), now);
    DedupThenUpsertIsUpsertInOrder(rows, household, batch, now);
    forall i: nat
      ensures |rows| <= i < |raw| ==> raw[i].embedding == None
      ensures |rows| <= i < |reduced| ==> reduced[i].embedding == None
    {
      EmbeddingsAfter(rows, household, batch, now, i);
      EmbeddingsAfter(rows, household, Dedup(batch), now, i);
    }
    forall i: nat | i < |rows|
      ensures i < |raw| && raw[i].embedding == (if TextKept(rows, household, batch, i) then rows[i].embedding else None)
      ensures i < |reduced|
              && reduced[i].embedding ==
                   (if TextKept(rows, household, Dedup(batch), i) then rows[i].embedding else None)
    {
      EmbeddingsAfter(rows, household, batch, now, i);
      EmbeddingsAfter(rows, household, Dedup(batch), now, i);
    }
    DedupKeepsTheLastOfEachPair(batch);
    forall i | 0 <= i < |rows| && TextKept(rows, household, batch, i)
      ensures TextKept(rows, household, Dedup(batch), i)
    {
      forall k | 0 <= k < |Dedup(batch)| && Target(rows, household, PairOf(Dedup(batch)[k])) == Some(i)
        ensures Dedup(batch)[k].content == rows[i].content
      {
        assert Dedup(batch)[k] in Dedup(batch);
        assert LastOfItsPair(batch, Dedup(batch)[k]);
      }
    }
    if EmptyKeysUnrepeated(batch) && NoTextDetours(rows, household, batch) {
      forall i | 0 <= i < |raw| ensures raw[i] == reduced[i] {
        assert Erase(raw)[i] == Erase(reduced)[i];
      }
      assert |Erase(raw)| == |Erase(reduced)|;
    }
  }

  /** A batch that rewrites an embedded text and then restores it: only the raw order loses the embedding. */
  lemma {:induction false} DetourLosesTheEmbedding()
    ensures exists rows, batch :: EmptyKeysUnrepeated(batch)
              && SaveAll(rows, "home", Dedup(batch), 0) != SaveAll(rows, "home", batch, 0)
  {
    var a, b := Item("rain", "note", "weather", None, 1, "agent"), Item("sun", "note", "weather", None, 1, "agent");
    var rows := [NewRow("home", a, 0).(embedding := Some([]))];
    var batch := [b, a];
    assert RowMatches(rows[0], "home", PairOf(a));
    assert Target(rows, "home", PairOf(a)) == Some(0);
    assert Dedup(batch) == [a] by {
      assert batch[..1] == [b] && [b][..0] == [];
      assert Dedup([b]) == [b];
    }
    assert !TextKept(rows, "home", batch, 0) by { assert batch[0] == b; }
    assert TextKept(rows, "home", Dedup(batch), 0);
    DedupKeepsEmbeddingsExactlyWithoutDetours(rows, "home", batch, 0);
    assert !NoTextDetours(rows, "home", batch);
  }

  lemma {:induction false} OneItem(household: string, item: Item, now: Time)
    requires item.key == ""
    ensures Dedup([item]) == [item] && SaveAll([], household, [item], now) == [NewRow(household, item, now)]
  {
    assert [item][..0] == [] && Dedup([]) == [] && SaveAll([], household, [], now) == [];
  }

  /** Two items with an empty key: in order they become two rows, reduced only one. */
  lemma {:induction false} RepeatedEmptyKeysLoseARow(household: string, first: Item, second: Item, now: Time)
    requires PairOf(first) == PairOf(second) && first.key == ""
    ensures !EmptyKeysUnrepeated([first, second])
    ensures SaveAll([], household, [first, second], now) ==
            [NewRow(household, first, now), NewRow(household, second, now)]
    ensures SaveAll([], household, Dedup([first, second]), now) == [NewRow(household, second, now)]
  {
    var batch := [first, second];
    assert batch[0].key == "" && PairOf(batch[0]) == PairOf(batch[1]) && batch[..1] == [first];
    OneItem(household, first, now);
    OneItem(household, second, now);
    assert Dedup(batch) == Put([first], second) == [second];
    assert SaveAll([], household, batch, now) == Save([NewRow(household, first, now)], household, second, now);
  }

  // ---------------------------------------------------------------- the tally

  /** What the upsert loop has done after some items; `saved` names the rows it wrote, in order. */
  datatype Tally = Tally(rows: seq<Row>, saved: seq<nat>, injected: nat, updated: nat, errors: seq<string>)

  /** `failure(n)` says how saving item n fails, if it fails. */
  function TallyItem(t: Tally, household: string, item: Item, failure: Option<string>, now: Time): Tally {
    if failure.Some? then t.(errors := t.errors + ["key=" + item.key + ": " + failure.value])
    else
      var target := Target(t.rows, household, PairOf(item));
      var saved := t.(rows := Save(t.rows, household, item, now), saved := t.saved + [target.GetOr(|t.rows|)]);
      if target.Some? then saved.(updated := t.updated + 1) else saved.(injected := t.injected + 1)
  }

  function TallyAfter(
      rows: seq<Row>, household: string, items: seq<Item>, failure: nat -> Option<string>, now: Time): Tally
  {
    if items == [] then Tally(rows, [], 0, 0, [])
    else
      var n := |items| - 1;
      TallyItem(TallyAfter(rows, household, items[..n], failure, now), household, items[n], failure(n), now)
  }

  // ---------------------------------------------------------------- the counters

  /** The pairs of the items that did not fail and had an active row before the batch. */
  ghost function UpdatedPairs(
      rows: seq<Row>, household: string, items: seq<Item>, failure: nat -> Option<string>): set<Pair>
  {
    if items == [] then {}
    else
      var n := |items| - 1;
      UpdatedPairs(rows, household, items[..n], failure)
        + (if failure(n).None? && Target(rows, household, PairOf(items[n])).Some? then {PairOf(items[n])} else {})
  }

  lemma {:induction false} UpdatedPairsAreKnown(
      rows: seq<Row>, household: string, items: seq<Item>, failure: nat -> Option<string>)
    ensures UpdatedPairs(rows, household, items, failure) <= Pairs(items)
    ensures (forall n :: failure(n).None?) ==>
              UpdatedPairs(rows, household, items, failure)
              == set p | p in Pairs(items) && Target(rows, household, p).Some?
  {
    if items == [] {
    } else {
      var rest, x := items[..|items| - 1], items[|items| - 1];
      assert items == rest + [x];
      PairsOfOneMore(rest, x);
      UpdatedPairsAreKnown(rows, household, rest, failure);
    }
  }

  lemma {:induction false} TallyTargets(
      rows: seq<Row>, household: string, items: seq<Item>, failure: nat -> Option<string>, now: Time, p: Pair)
    requires p !in Pairs(items)
    ensures Target(TallyAfter(rows, household, items, failure, now).rows, household, p) == Target(rows, household, p)
  {
    if items == [] {
    } else {
      var rest, x := items[..|items| - 1], items[|items| - 1];
      assert items == rest + [x];
      PairsOfOneMore(rest, x);
      TallyTargets(rows, household, rest, failure, now, p);
      TargetAfterSave(TallyAfter(rows, household, rest, failure, now).rows, household, x, now, p);
    }
  }

  lemma {:induction false} OneMoreTallied(t: Tally, household: string, item: Item, failure: Option<string>, now: Time)
    ensures var u := TallyItem(t, household, item, failure, now);
            && u.injected + u.updated + |u.errors| == t.injected + t.updated + |t.errors| + 1
            && u.updated == t.updated + if failure.None? && Target(t.rows, household, PairOf(item)).Some? then 1 else 0
  {}

  lemma {:induction false} TalliesAreExact(
      rows: seq<Row>, household: string, items: seq<Item>, failure: nat -> Option<string>, now: Time)
    requires DistinctPairs(items)
    ensures var t := TallyAfter(rows, household, items, failure, now);
            && t.injected + t.updated + |t.errors| == |items|
            && t.updated == |UpdatedPairs(rows, household, items, failure)|
  {
    if items == [] {
    } else {
      var n := |items| - 1;
      var rest, x := items[..n], items[n];
      TalliesAreExact(rows, household, rest, failure, now);
      assert items == rest + [x];
      UpdatedPairsAreKnown(rows, household, rest, failure);
      assert PairOf(x) !in UpdatedPairs(rows, household, rest, failure);
      TallyTargets(rows, household, rest, failure, now, PairOf(x));
      OneMoreTallied(TallyAfter(rows, household, rest, failure, now), household, x, failure(n), now);
    }
  }

  /**
   Nothing is lost or counted twice: injected, updated, failed and in-batch duplicates add up
   to the batch; and when nothing fails, `updated` is exactly the number of distinct pairs of
   the batch that were already active, and `injected` the number of those that were not.
   */
  lemma {:induction false} CountsAreExact(
      rows: seq<Row>, household: string, batch: seq<Item>, failure: nat -> Option<string>, now: Time)
    ensures var t := TallyAfter(rows, household, Dedup(batch), failure, now);
            && t.injected + t.updated + |t.errors| + (|batch| - |Dedup(batch)|) == |batch|
            && ((forall n :: failure(n).None?) ==>
                  && t.updated == |set p | p in Pairs(batch) && Target(rows, household, p).Some?|
                  && t.injected == |set p | p in Pairs(batch) && Target(rows, household, p).None?|
                  && t.rows == SaveAll(rows, household, Dedup(batch), now))
  {
    var items := Dedup(batch);
    DedupKeepsTheLastOfEachPair(batch);
    TalliesAreExact(rows, household, items, failure, now);
    if forall n :: failure(n).None? {
      UpdatedPairsAreKnown(rows, household, items, failure);
      KnownAndUnseen(rows, household, Pairs(batch));
      assert Pairs(items) == Pairs(batch);
      PairsCount(items);
      CleanTally(rows, household, items, failure, now);
    }
  }

  lemma {:induction false} KnownAndUnseen(rows: seq<Row>, household: string, pairs: set<Pair>)
    ensures |set p | p in pairs && Target(rows, household, p).Some?|
            + |set p | p in pairs && Target(rows, household, p).None?| == |pairs|
  {
    var known := set p | p in pairs && Target(rows, household, p).Some?;
    var unseen := set p | p in pairs && Target(rows, household, p).None?;
    assert known + unseen == pairs && known !! unseen;
  }

  lemma {:induction false} PairsCount(items: seq<Item>)
    requires DistinctPairs(items)
    ensures |Pairs(items)| == |items|
  {
    if items == [] {
    } else {
      var rest, x := items[..|items| - 1], items[|items| - 1];
      PairsCount(rest);
      assert items == rest + [x];
      PairsOfOneMore(rest, x);
      assert PairOf(x) !in Pairs(rest);
    }
  }

  lemma {:induction false} CleanTally(
      rows: seq<Row>, household: string, items: seq<Item>, failure: nat -> Option<string>, now: Time)
    requires forall n :: failure(n).None?
    ensures TallyAfter(rows, household, items, failure, now).rows == SaveAll(rows, household, items, now)
    ensures TallyAfter(rows, household, items, failure, now).errors == []
  {
    if items == [] {
    } else {
      CleanTally(rows, household, items[..|items| - 1], failure, now);
    }
  }
}
