/** MySQL `INSERT ... ON DUPLICATE KEY UPDATE` over a table with a unique natural key and an
    auto-increment surrogate id. A row whose key is new is inserted whole with the next id; a
    row whose key exists rewrites only the columns named in the `UPDATE` clause, which the
    `update` parameter expresses, and keeps its id. */
module Upsert {
  import opened Seqs

  /** A stored row: its surrogate id and its columns. */
  datatype Stored<R> = Stored(id: nat, val: R)

  /** A table keyed by its natural key; `nextId` is the auto-increment counter. */
  datatype Table<K, R> = Table(rows: map<K, Stored<R>>, nextId: nat)

  /** Surrogate ids start at 1, stay below the counter, and no two rows share one. */
  predicate Valid<K, R>(t: Table<K, R>) {
    && t.nextId >= 1
    && (forall k :: k in t.rows ==> 1 <= t.rows[k].id < t.nextId)
    && (forall k1, k2 :: k1 in t.rows && k2 in t.rows && k1 != k2 ==> t.rows[k1].id != t.rows[k2].id)
  }

  /** One row of the statement's `VALUES` list. */
  function UpsertRow<K, R, I>(t: Table<K, R>, x: I, key: I -> K, newRow: I -> R, update: (R, I) -> R)
    : (t': Table<K, R>)
    ensures t'.rows.Keys == t.rows.Keys + {key(x)}
    ensures key(x) in t.rows ==> t'.rows[key(x)] == Stored(t.rows[key(x)].id, update(t.rows[key(x)].val, x))
    ensures key(x) in t.rows ==> t'.nextId == t.nextId
    ensures key(x) !in t.rows ==> t'.rows[key(x)] == Stored(t.nextId, newRow(x)) && t'.nextId == t.nextId + 1
    ensures forall k :: k in t.rows && k != key(x) ==> t'.rows[k] == t.rows[k]
    ensures Valid(t) ==> Valid(t')
  {
    var k := key(x);
    if k in t.rows then
      Table(t.rows[k := Stored(t.rows[k].id, update(t.rows[k].val, x))], t.nextId)
    else
      Table(t.rows[k := Stored(t.nextId, newRow(x))], t.nextId + 1)
  }

  /** A whole executemany batch: the rows are applied one after another. */
  function UpsertBatch<K, R, I(!new)>(t: Table<K, R>, batch: seq<I>, key: I -> K, newRow: I -> R, update: (R, I) -> R)
    : (t': Table<K, R>)
    ensures t'.rows.Keys == t.rows.Keys + KeysOf(batch, key)
    ensures forall k :: k in t.rows ==> t'.rows[k].id == t.rows[k].id
    ensures forall k :: k in t.rows && k !in KeysOf(batch, key) ==> t'.rows[k] == t.rows[k]
    ensures KeysOf(batch, key) <= t.rows.Keys ==> t'.nextId == t.nextId
    ensures Valid(t) ==> Valid(t')
    decreases |batch|
  {
    if |batch| == 0 then t
    else
      var init := batch[..|batch| - 1];
      assert batch == init + [batch[|batch| - 1]];
      KeysOfAppend(init, [batch[|batch| - 1]], key);
      UpsertRow(UpsertBatch(t, init, key, newRow, update), batch[|batch| - 1], key, newRow, update)
  }

  /** Concatenated batches (one statement per chunk) act like a single batch. */
  lemma {:induction false} UpsertBatchAppend<K, R, I(!new)>(t: Table<K, R>, a: seq<I>, b: seq<I>,
                                                           key: I -> K, newRow: I -> R, update: (R, I) -> R)
    ensures UpsertBatch(t, a + b, key, newRow, update)
         == UpsertBatch(UpsertBatch(t, a, key, newRow, update), b, key, newRow, update)
    decreases |b|
  {
    if |b| == 0 {
      assert a + b == a;
    } else {
      var b0 := b[..|b| - 1];
      assert (a + b)[..|a + b| - 1] == a + b0;
      assert (a + b)[|a + b| - 1] == b[|b| - 1];
      UpsertBatchAppend(t, a, b0, key, newRow, update);
    }
  }

  /** Upserting a list of chunks one statement at a time is the same as upserting the whole list. */
  lemma {:induction false} UpsertChunks<K, R, I(!new)>(t: Table<K, R>, chunks: seq<seq<I>>,
                                                      key: I -> K, newRow: I -> R, update: (R, I) -> R)
    ensures UpsertEach(t, chunks, key, newRow, update) == UpsertBatch(t, Flatten(chunks), key, newRow, update)
    decreases |chunks|
  {
    if |chunks| > 0 {
      UpsertBatchAppend(t, chunks[0], Flatten(chunks[1..]), key, newRow, update);
      UpsertChunks(UpsertBatch(t, chunks[0], key, newRow, update), chunks[1..], key, newRow, update);
    }
  }

  /** One statement per chunk, in order. */
  function UpsertEach<K, R, I(!new)>(t: Table<K, R>, chunks: seq<seq<I>>, key: I -> K, newRow: I -> R, update: (R, I) -> R)
    : Table<K, R>
    decreases |chunks|
  {
    if |chunks| == 0 then t
    else UpsertEach(UpsertBatch(t, chunks[0], key, newRow, update), chunks[1..], key, newRow, update)
  }

  /** The first and the last batch row carrying key `k`. */
  function FirstWith<K(==), I(!new)>(batch: seq<I>, key: I -> K, k: K): (x: I)
    requires k in KeysOf(batch, key)
    ensures key(x) == k && x in batch
    decreases |batch|
  {
    var init := batch[..|batch| - 1];
    assert batch == init + [batch[|batch| - 1]];
    KeysOfAppend(init, [batch[|batch| - 1]], key);
    if k in KeysOf(init, key) then FirstWith(init, key, k) else batch[|batch| - 1]
  }

  function LastWith<K(==), I(!new)>(batch: seq<I>, key: I -> K, k: K): (x: I)
    requires k in KeysOf(batch, key)
    ensures key(x) == k && x in batch
    decreases |batch|
  {
    var init := batch[..|batch| - 1];
    assert batch == init + [batch[|batch| - 1]];
    KeysOfAppend(init, [batch[|batch| - 1]], key);
    if key(batch[|batch| - 1]) == k then batch[|batch| - 1] else LastWith(init, key, k)
  }

  /** `update` only writes columns taken from its input row: applying two rows is applying the
      later one, and a just inserted row already holds its own update columns. Every
      `UPDATE col = VALUES(col)` clause has this shape. */
  ghost predicate Overwriting<R(!new), I(!new)>(newRow: I -> R, update: (R, I) -> R) {
    && (forall r, x, y :: update(update(r, x), y) == update(r, y))
    && (forall x :: update(newRow(x), x) == newRow(x))
  }

  /** With an overwriting update, a key touched by the batch ends up as its earlier row (or the
      insert of its first batch row) updated from its last batch row. */
  lemma {:induction false} UpsertBatchValue<K, R(!new), I(!new)>(t: Table<K, R>, batch: seq<I>, key: I -> K,
                                                          newRow: I -> R, update: (R, I) -> R, k: K)
    requires Overwriting(newRow, update)
    requires k in KeysOf(batch, key)
    ensures UpsertBatch(t, batch, key, newRow, update).rows[k].val
         == update(if k in t.rows then t.rows[k].val else newRow(FirstWith(batch, key, k)),
                   LastWith(batch, key, k))
    decreases |batch|
  {
    var init := batch[..|batch| - 1];
    var x := batch[|batch| - 1];
    assert batch == init + [x];
    KeysOfAppend(init, [x], key);
    var prev := UpsertBatch(t, init, key, newRow, update);
    if key(x) != k {
      UpsertBatchValue(t, init, key, newRow, update, k);
    } else if k in KeysOf(init, key) {
      UpsertBatchValue(t, init, key, newRow, update, k);
    }
  }

  /** Re-running the same batch leaves the table unchanged: the upsert is idempotent. */
  lemma UpsertIdempotent<K, R(!new), I(!new)>(t: Table<K, R>, batch: seq<I>, key: I -> K,
                                        newRow: I -> R, update: (R, I) -> R)
    requires Overwriting(newRow, update)
    ensures var once := UpsertBatch(t, batch, key, newRow, update);
      UpsertBatch(once, batch, key, newRow, update) == once
  {
    var once := UpsertBatch(t, batch, key, newRow, update);
    var twice := UpsertBatch(once, batch, key, newRow, update);
    forall k | k in once.rows
      ensures k in twice.rows && twice.rows[k] == once.rows[k]
    {
      UpsertAgainSameRow(t, batch, key, newRow, update, k);
    }
    SameRows(twice.rows, once.rows);
  }

  lemma SameRows<K, V>(a: map<K, V>, b: map<K, V>)
    requires a.Keys == b.Keys && forall k :: k in b ==> a[k] == b[k]
    ensures a == b
  {
  }

  /** Re-running a batch leaves each row of the first run's table as it was. */
  lemma UpsertAgainSameRow<K, R(!new), I(!new)>(t: Table<K, R>, batch: seq<I>, key: I -> K,
                                                newRow: I -> R, update: (R, I) -> R, k: K)
    requires Overwriting(newRow, update)
    requires k in UpsertBatch(t, batch, key, newRow, update).rows
    ensures var once := UpsertBatch(t, batch, key, newRow, update);
      UpsertBatch(once, batch, key, newRow, update).rows[k] == once.rows[k]
  {
    var once := UpsertBatch(t, batch, key, newRow, update);
    if k in KeysOf(batch, key) {
      UpsertBatchValue(t, batch, key, newRow, update, k);
      UpsertBatchValue(once, batch, key, newRow, update, k);
    }
  }
}
