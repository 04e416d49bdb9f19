/**
 The injection endpoint (app/api/memories.py) and the upsert of the memory service, as they
 work on the table of memories.
 */
module MemoryEndpoint {
  import opened Options
  import opened MemoryInjection
  import opened MemoryDuplicates
  import opened MemoryEffects

  datatype Auth = NodeAuth(household: Option<string>) | AppAuth

  datatype Reply =
    | TooMany | NoHousehold | WrongHousehold | Disabled
    | Injected(injected: nat, updated: nat, deduplicated: nat, errors: seq<string>)

  class MemoryService {
    var rows: seq<Row>

    constructor ()
      ensures rows == []
    {
      rows := [];
    }

    /** The household named in the body, else the one of the calling node. */
    static function HouseholdOf(body: Option<string>, auth: Auth): string {
      TextOr(body, if auth.NodeAuth? then auth.household.GetOr("") else "")
    }

    method InjectMemories(
        bodyHousehold: Option<string>, batch: seq<Item>, auth: Auth,
        memoryDisabled: bool, contextDisabled: bool, failure: nat -> Option<string>,
        embed: nat -> Option<seq<Embedding>>, similarity: Similarity, now: Time)
      returns (reply: Reply)
      modifies this
      ensures reply.TooMany? <==> |batch| > 100
      ensures |batch| <= 100 ==>
                (reply.NoHousehold? <==>
                   (bodyHousehold.None? || bodyHousehold.value == "")
                   && (auth.AppAuth? || auth.household.None? || auth.household.value == ""))
      ensures |batch| <= 100 && !reply.NoHousehold? ==>
                (reply.WrongHousehold? <==>
                   auth.NodeAuth? && TextOr(bodyHousehold, "") != "" && TextOr(auth.household, "") != ""
                       && bodyHousehold != auth.household)
      ensures reply.Disabled? ==> memoryDisabled
      ensures reply.Injected? ==> !memoryDisabled
      ensures !reply.Injected? || contextDisabled ==> rows == old(rows)
      ensures reply.Injected? && contextDisabled ==> reply == Injected(0, 0, 0, [])
      ensures reply.Injected? && !contextDisabled ==>
                var household := HouseholdOf(bodyHousehold, auth);
                var t := TallyAfter(old(rows), household, Dedup(batch), failure, now);
                var vectors := embed(|t.saved|);
                && (forall i :: 0 <= i < |t.saved| ==> t.saved[i] < |t.rows|) && |Dedup(batch)| <= |batch|
                && (var (after, retired) :=
                      if vectors.Some? && |vectors.value| == |t.saved| then
                        Guarded(Embedded(t.rows, t.saved, vectors.value), household, t.saved, vectors.value,
                                similarity, now)
                      else (t.rows, 0);
                    && rows == after
                    && reply == Injected(t.injected, t.updated, |batch| - |Dedup(batch)| + retired, t.errors))
      ensures var household := if bodyHousehold.Some? && bodyHousehold.value != "" then bodyHousehold.value
                               else if auth.NodeAuth? && auth.household.Some? then auth.household.value else "";
              TouchesOnly(old(rows), rows, household)
      ensures auth.NodeAuth? && auth.household.Some? && auth.household.value != "" ==>
                TouchesOnly(old(rows), rows, auth.household.value)
    {
      if |batch| > 100 {
        return TooMany;
      }
      var household := HouseholdOf(bodyHousehold, auth);
      if household == "" {
        return NoHousehold;
      }
      if auth.NodeAuth? && TextOr(bodyHousehold, "") != "" && TextOr(auth.household, "") != "" {
        if bodyHousehold != auth.household {
          return WrongHousehold;
        }
      }
      if memoryDisabled {
        return Disabled;
      }
      if contextDisabled {
        return Injected(0, 0, 0, []);
      }
      InjectionsTouchOnlyTheirHousehold(rows, household, Dedup(batch), failure, embed, similarity, now);
      reply := Inject(household, batch, failure, embed, similarity, now);
    }

    /** The three layers, once the request is accepted. */
    method Inject(
        household: string, batch: seq<Item>, failure: nat -> Option<string>,
        embed: nat -> Option<seq<Embedding>>, similarity: Similarity, now: Time)
      returns (reply: Reply)
      modifies this
      ensures var t := TallyAfter(old(rows), household, Dedup(batch), failure, now);
              var vectors := embed(|t.saved|);
              && (forall i :: 0 <= i < |t.saved| ==> t.saved[i] < |t.rows|) && |Dedup(batch)| <= |batch|
              && (var (after, retired) :=
                    if vectors.Some? && |vectors.value| == |t.saved| then
                      Guarded(Embedded(t.rows, t.saved, vectors.value), household, t.saved, vectors.value,
                              similarity, now)
                    else (t.rows, 0);
                  && rows == after
                  && reply == Injected(t.injected, t.updated, |batch| - |Dedup(batch)| + retired, t.errors))
    {
      var deduped := InBatchDedup(batch);
      var saved, injected, updated, errors := UpsertItems(household, deduped, failure, now);
      SavedRowsAreThere(old(rows), household, deduped, failure, now);
      var retired := EmbedAndCompare(household, saved, embed(|saved|), similarity, now);
      return Injected(injected, updated, |batch| - |deduped| + retired, errors);
    }

    /**
     The embedding layer, which is skipped when nothing was saved, or when the service gave no
     vector for each memory.
     */
    method EmbedAndCompare(
        household: string, saved: seq<nat>, vectors: Option<seq<Embedding>>, similarity: Similarity, now: Time)
      returns (retired: nat)
      requires forall i :: 0 <= i < |saved| ==> saved[i] < |rows|
      modifies this
      ensures (rows, retired) == if vectors.Some? && |vectors.value| == |saved| then
                Guarded(Embedded(old(rows), saved, vectors.value), household, saved, vectors.value, similarity, now)
              else (old(rows), 0)
    {
      if saved == [] || vectors.None? || |vectors.value| != |saved| {
        NothingIsCompared(rows, household, similarity, now);
        return 0;
      }
      Embed(saved, vectors.value);
      retired := Compare(household, saved, vectors.value, similarity, now);
    }

    method UpsertItems(household: string, items: seq<Item>, failure: nat -> Option<string>, now: Time)
      returns (saved: seq<nat>, injected: nat, updated: nat, errors: seq<string>)
      modifies this
      ensures Tally(rows, saved, injected, updated, errors) == TallyAfter(old(rows), household, items, failure, now)
    {
      saved, injected, updated, errors := [], 0, 0, [];
      var n := 0;
      while n < |items|
        invariant 0 <= n <= |items|
        invariant Tally(rows, saved, injected, updated, errors) ==
                TallyAfter(old(rows), household, items[..n], failure, now)
      {
        var item := items[n];
        assert items[..n + 1][..n] == items[..n];
        var error := failure(n);
        if error.Some? {
          errors := errors + ["key=" + item.key + ": " + error.value];
        } else {
          var target := Target(rows, household, PairOf(item));
          saved := saved + [target.GetOr(|rows|)];
          SaveMemory(household, item, now);
          if target.Some? {
            updated := updated + 1;
          } else {
            injected := injected + 1;
          }
        }
        n := n + 1;
      }
      assert items[..n] == items;
    }

    /** Store the embeddings of the saved memories. */
    method Embed(saved: seq<nat>, vectors: seq<Embedding>)
      requires |saved| == |vectors| && forall i :: 0 <= i < |saved| ==> saved[i] < |rows|
      modifies this
      ensures rows == Embedded(old(rows), saved, vectors)
    {
      for i := 0 to |saved|
        invariant |rows| == |old(rows)|
        invariant rows == Embedded(old(rows), saved[..i], vectors[..i])
      {
        assert saved[..i + 1][..i] == saved[..i] && vectors[..i + 1][..i] == vectors[..i];
        if vectors[i] != [] {
          rows := rows[saved[i] := rows[saved[i]].(embedding := Some(vectors[i]))];
        }
      }
      assert saved[..|saved|] == saved && vectors[..|saved|] == vectors;
    }

    /** Deactivate the row a saved memory duplicates, if there is one. */
    method CompareOne(household: string, id: nat, v: Embedding, similarity: Similarity, now: Time) returns (hit: bool)
      modifies this
      ensures (rows, hit) == Compared(old(rows), household, id, v, similarity, now)
    {
      if v == [] {
        return false;
      }
      var existing := MostSimilar(rows, household, v, similarity, now);
      if existing.None? || existing.value == id {
        return false;
      }
      rows := rows[existing.value := rows[existing.value].(active := false, updatedAt := now)];
      return true;
    }

    /** Compare each saved memory with the household's, and deactivate what it duplicates. */
    method Compare(household: string, saved: seq<nat>, vectors: seq<Embedding>, similarity: Similarity, now: Time)
      returns (retired: nat)
      requires |saved| == |vectors|
      modifies this
      ensures (rows, retired) == Guarded(old(rows), household, saved, vectors, similarity, now)
    {
      ghost var start := rows;
      retired := 0;
      for i := 0 to |saved|
        invariant (rows, retired) == Guarded(start, household, saved[..i], vectors[..i], similarity, now)
      {
        ghost var before, count := rows, retired;
        var hit := CompareOne(household, saved[i], vectors[i], similarity, now);
        if hit {
          retired := retired + 1;
        }
        GuardedAsCompared(start, household, saved, vectors, similarity, now, i, before, count, rows, hit);
      }
      assert saved[..|saved|] == saved && vectors[..|saved|] == vectors;
    }

    method InBatchDedup(batch: seq<Item>) returns (deduped: seq<Item>)
      ensures deduped == Dedup(batch) && |deduped| <= |batch|
    {
      deduped := [];
      var n := 0;
      while n < |batch|
        invariant 0 <= n <= |batch|
        invariant deduped == Dedup(batch[..n])
      {
        assert batch[..n + 1][..n] == batch[..n];
        deduped := Put(deduped, batch[n]);
        n := n + 1;
      }
      assert batch[..n] == batch;
      DedupKeepsTheLastOfEachPair(batch);
    }

    method SaveMemory(household: string, item: Item, now: Time)
      modifies this
      ensures rows == Save(old(rows), household, item, now)
    {
      if item.key != "" {
        var existing := FirstMatch(rows, household, PairOf(item));
        if existing.Some? {
          var row := rows[existing.value];
          if row.content != item.content {
            row := row.(embedding := None);
          }
          row := row.(content := item.content, category := item.category, source := item.source, pinned := false);
          row := row.(expiresAt := Some(now + item.ttl), updatedAt := now);
          rows := rows[existing.value := row];
          return;
        }
      }
      rows := rows + [NewRow(household, item, now)];
    }
  }
}
