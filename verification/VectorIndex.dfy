/**
 * The provider of `backend/app/rag/pinecone.py`: batched calls with retries over a map of records.
 *
 * A single call to the index may fail after any part of it took effect. What the batching and retry loops make of
 * that is stated with `Touched`: on success exactly the whole operation, on failure nothing outside of it.
 */
module VectorIndex {
  const UPSERT_BATCH_SIZE := 96
  const DELETE_BATCH_SIZE := 1000

  type Store<R> = map<string, R>

  type Entry<R> = (string, R)

  ghost function Written<R>(entries: seq<Entry<R>>): set<Entry<R>> {
    set e | e in entries
  }

  ghost function Ids(ids: seq<string>): set<string> {
    set k | k in ids
  }

  /** `store` after all of `entries` were written; a later entry wins. */
  ghost function WriteAll<R>(store: Store<R>, entries: seq<Entry<R>>): Store<R> {
    if entries == [] then store
    else WriteAll(store, entries[..|entries| - 1])[entries[|entries| - 1].0 := entries[|entries| - 1].1]
  }

  /** Every record of `after` was there before or is in `written`; every lost key is in `removed`. */
  ghost predicate Touched<R>(before: Store<R>, after: Store<R>, written: set<Entry<R>>, removed: set<string>) {
    && (forall k | k in after :: (k in before && before[k] == after[k]) || (k, after[k]) in written)
    && (forall k | k in before && k !in after :: k in removed)
  }

  lemma TouchedCompose<R>(a: Store<R>, b: Store<R>, c: Store<R>, written: set<Entry<R>>, removed: set<string>)
    requires Touched(a, b, written, removed) && Touched(b, c, written, removed)
    ensures Touched(a, c, written, removed)
  {
    forall k | k in a && k !in c ensures k in removed {
      if k in b {
      }
    }
  }

  lemma TouchedReflexive<R>(store: Store<R>, removed: set<string>)
    ensures Touched(store, store, {}, removed)
  {
  }

  lemma TouchedWiden<R>(a: Store<R>, b: Store<R>, w1: set<Entry<R>>, r1: set<string>, w2: set<Entry<R>>, r2: set<string>)
    requires Touched(a, b, w1, r1) && w1 <= w2 && r1 <= r2
    ensures Touched(a, b, w2, r2)
  {
  }

  lemma {:induction false} WriteAllConcat<R>(store: Store<R>, a: seq<Entry<R>>, b: seq<Entry<R>>)
    ensures WriteAll(store, a + b) == WriteAll(WriteAll(store, a), b)
  {
    if b == [] {
      assert a + b == a;
    } else {
      var front := b[..|b| - 1];
      assert (a + b)[..|a + b| - 1] == a + front;
      WriteAllConcat(store, a, front);
    }
  }

  /** What one record looks like after a full write depends on the batch only if the batch mentions it. */
  lemma {:induction false} WriteAllAt<R>(s1: Store<R>, s2: Store<R>, entries: seq<Entry<R>>, k: string)
    ensures var w1, w2 := WriteAll(s1, entries), WriteAll(s2, entries);
      if exists i :: 0 <= i < |entries| && entries[i].0 == k
      then k in w1 && k in w2 && w1[k] == w2[k] && (k, w1[k]) in entries
      else (k in w1 <==> k in s1) && (k in s1 ==> w1[k] == s1[k])
  {
    if entries == [] {
    } else {
      var n := |entries| - 1;
      var front := entries[..n];
      WriteAllAt(s1, s2, front, k);
      if entries[n].0 == k {
      } else if exists i :: 0 <= i < n && front[i].0 == k {
        var i :| 0 <= i < n && front[i].0 == k;
        assert entries[i].0 == k;
      }
    }
  }

  /** Repeating a batch in full repairs whatever its failed attempts left behind. */
  lemma WriteAllAbsorbs<R>(before: Store<R>, mid: Store<R>, entries: seq<Entry<R>>)
    requires Touched(before, mid, Written(entries), {})
    ensures WriteAll(mid, entries) == WriteAll(before, entries)
  {
    var w1, w2 := WriteAll(mid, entries), WriteAll(before, entries);
    forall k ensures (k in w1 <==> k in w2) && (k in w1 ==> w1[k] == w2[k]) {
      WriteAllAt(mid, before, entries, k);
      WriteAllAt(before, mid, entries, k);
      if k in mid && (k, mid[k]) in Written(entries) {
        var i :| 0 <= i < |entries| && entries[i] == (k, mid[k]);
        assert entries[i].0 == k;
      }
    }
  }

  lemma WriteAllTouches<R>(store: Store<R>, entries: seq<Entry<R>>)
    ensures Touched(store, WriteAll(store, entries), Written(entries), {})
  {
    forall k ensures var w := WriteAll(store, entries);
      && (k in w ==> (k in store && store[k] == w[k]) || (k, w[k]) in Written(entries))
      && (k in store ==> k in w)
    {
      WriteAllAt(store, store, entries, k);
    }
  }

  /** One namespace of the index, reached through the provider. */
  class Provider<R(==)> {
    var records: Store<R>
    const maxRetries: nat
    /** A write that is acknowledged has taken effect in full. */
    const durable: bool
    /** Nothing fails, no write is lost and no answer lags: what the operations then must achieve. */
    const calm: bool

    constructor (maxRetries: nat, durable: bool, calm: bool)
      ensures records == map[] && this.maxRetries == maxRetries && this.durable == durable && this.calm == calm
    {
      this.maxRetries := maxRetries;
      this.durable := durable;
      this.calm := calm;
      records := map[];
    }

    // ----- one attempt: the network decides what happens -----

    /** `index.upsert_records`: an attempt that fails, or whose writes are lost, may have written any part of the batch. */
    method TryUpsert(batch: seq<Entry<R>>) returns (ok: bool)
      modifies this
      ensures ok && (durable || calm) ==> records == WriteAll(old(records), batch)
      ensures Touched(old(records), records, Written(batch), {})
      ensures calm ==> ok
    {
      ok := *;
      ok := ok || calm;
      var i := 0;
      var all := ok && (durable || calm);
      while i < |batch|
        invariant 0 <= i <= |batch|
        invariant Touched(old(records), records, Written(batch), {})
        invariant all ==> records == WriteAll(old(records), batch[..i])
      {
        assert batch[..i + 1][..i] == batch[..i];
        var lands: bool := *;
        if all || lands {
          ghost var before := records;
          records := records[batch[i].0 := batch[i].1];
          assert Touched(before, records, Written(batch), {}) by {
            assert (batch[i].0, batch[i].1) == batch[i];
          }
          TouchedCompose(old(records), before, records, Written(batch), {});
        }
        i := i + 1;
      }
      assert batch[..|batch|] == batch;
    }

    /** `index.delete`: an attempt that fails may have removed any part of the batch. */
    method TryDelete(batch: seq<string>) returns (ok: bool)
      modifies this
      ensures ok ==> records == old(records) - Ids(batch)
      ensures Touched(old(records), records, {}, Ids(batch))
      ensures calm ==> ok
    {
      ok := *;
      ok := ok || calm;
      var some: set<string> := *;
      var gone := set k | k in batch && (ok || k in some);
      records := records - gone;
    }

    /** `index.fetch`: an answer may lag behind, but it names stored records only. */
    method TryFetch(batch: seq<string>) returns (ok: bool, vectors: set<string>)
      ensures vectors <= Ids(batch) && vectors <= records.Keys
      ensures calm ==> ok && vectors == Ids(batch) * records.Keys
    {
      ok := *;
      ok := ok || calm;
      var visible: set<string> := *;
      vectors := set k | k in batch && k in records && (calm || k in visible);
    }

    // ----- _call: the attempt loop, once per kind of call -----

    method CallUpsert(batch: seq<Entry<R>>) returns (ok: bool, attempts: nat)
      modifies this
      ensures ok && (durable || calm) ==> records == WriteAll(old(records), batch)
      ensures Touched(old(records), records, Written(batch), {})
      ensures 1 <= attempts <= maxRetries + 1 && (!ok ==> attempts == maxRetries + 1)
      ensures calm ==> ok && attempts == 1
    {
      attempts := 0;
      ok := false;
      while true
        invariant attempts <= maxRetries && (calm ==> attempts == 0)
        invariant Touched(old(records), records, Written(batch), {})
        decreases maxRetries - attempts
      {
        ghost var mid := records;
        ok := TryUpsert(batch);
        attempts := attempts + 1;
        TouchedCompose(old(records), mid, records, Written(batch), {});
        if ok {
          if durable || calm {
            WriteAllAbsorbs(old(records), mid, batch);
          }
          return;
        }
        if attempts > maxRetries {
          return;
        }
      }
    }

    method CallDelete(batch: seq<string>) returns (ok: bool, attempts: nat)
      modifies this
      ensures ok ==> records == old(records) - Ids(batch)
      ensures Touched(old(records), records, {}, Ids(batch))
      ensures 1 <= attempts <= maxRetries + 1 && (!ok ==> attempts == maxRetries + 1)
      ensures calm ==> ok && attempts == 1
    {
      attempts := 0;
      ok := false;
      while true
        invariant attempts <= maxRetries && (calm ==> attempts == 0)
        invariant Touched(old(records), records, {}, Ids(batch))
        decreases maxRetries - attempts
      {
        ghost var mid := records;
        ok := TryDelete(batch);
        attempts := attempts + 1;
        TouchedCompose(old(records), mid, records, {}, Ids(batch));
        if ok || attempts > maxRetries {
          return;
        }
      }
    }

    method CallFetch(batch: seq<string>) returns (ok: bool, vectors: set<string>, attempts: nat)
      ensures vectors <= Ids(batch) && vectors <= records.Keys
      ensures calm ==> vectors == Ids(batch) * records.Keys
      ensures 1 <= attempts <= maxRetries + 1 && (!ok ==> attempts == maxRetries + 1)
      ensures calm ==> ok && attempts == 1
    {
      attempts := 0;
      ok, vectors := false, {};
      while true
        invariant attempts <= maxRetries && (calm ==> attempts == 0)
        decreases maxRetries - attempts
      {
        ok, vectors := TryFetch(batch);
        attempts := attempts + 1;
        if ok || attempts > maxRetries {
          return;
        }
      }
    }

    // ----- the batched operations -----

    /**
     * All batches or a failure: on success the store is the one an unbatched write produces, if acknowledged writes are
     * durable. Otherwise only part of them may have arrived.
     */
    method Upsert(entries: seq<Entry<R>>) returns (ok: bool)
      modifies this
      ensures ok && (durable || calm) ==> records == WriteAll(old(records), entries)
      ensures Touched(old(records), records, Written(entries), {})
      ensures calm ==> ok
    {
      var start := 0;
      ok := true;
      while start < |entries|
        invariant 0 <= start <= |entries|
        invariant ok && (durable || calm ==> records == WriteAll(old(records), entries[..start]))
        invariant Touched(old(records), records, Written(entries), {})
        decreases |entries| - start
      {
        var end := if start + UPSERT_BATCH_SIZE <= |entries| then start + UPSERT_BATCH_SIZE else |entries|;
        var batch := entries[start..end];
        ghost var before := records;
        var attempts;
        ok, attempts := CallUpsert(batch);
        TouchedWiden(before, records, Written(batch), {}, Written(entries), {});
        TouchedCompose(old(records), before, records, Written(entries), {});
        if !ok {
          return;
        }
        assert entries[..end] == entries[..start] + batch;
        WriteAllConcat(old(records), entries[..start], batch);
        start := end;
      }
      assert entries[..|entries|] == entries;
    }

    method Delete(ids: seq<string>) returns (ok: bool)
      modifies this
      ensures ok ==> records == old(records) - Ids(ids)
      ensures Touched(old(records), records, {}, Ids(ids))
      ensures calm ==> ok
    {
      var start := 0;
      ok := true;
      while start < |ids|
        invariant 0 <= start <= |ids|
        invariant ok && records == old(records) - Ids(ids[..start])
        invariant Touched(old(records), records, {}, Ids(ids))
        decreases |ids| - start
      {
        var end := if start + DELETE_BATCH_SIZE <= |ids| then start + DELETE_BATCH_SIZE else |ids|;
        var batch := ids[start..end];
        ghost var before := records;
        var attempts;
        ok, attempts := CallDelete(batch);
        TouchedWiden(before, records, {}, Ids(batch), {}, Ids(ids));
        TouchedCompose(old(records), before, records, {}, Ids(ids));
        if !ok {
          return;
        }
        assert Ids(ids[..end]) == Ids(ids[..start]) + Ids(batch);
        start := end;
      }
      assert ids[..|ids|] == ids;
    }

    /** The found ids, all of them stored; a failed batch makes the whole call fail. */
    method Fetch(ids: seq<string>) returns (ok: bool, found: set<string>)
      ensures found <= Ids(ids) && found <= records.Keys
      ensures calm ==> ok && found == Ids(ids) * records.Keys
    {
      var start := 0;
      ok, found := true, {};
      while start < |ids|
        invariant 0 <= start <= |ids|
        invariant found <= Ids(ids) && found <= records.Keys
        invariant calm ==> ok && found == Ids(ids[..start]) * records.Keys
        decreases |ids| - start
      {
        var end := if start + DELETE_BATCH_SIZE <= |ids| then start + DELETE_BATCH_SIZE else |ids|;
        var batch := ids[start..end];
        var vectors, attempts;
        ok, vectors, attempts := CallFetch(batch);
        if !ok {
          return;
        }
        assert Ids(batch) <= Ids(ids) && Ids(ids[..end]) == Ids(ids[..start]) + Ids(batch);
        found := found + vectors;
        start := end;
      }
      assert ids[..|ids|] == ids;
    }
  }
}
