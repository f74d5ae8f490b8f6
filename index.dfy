/**
 * The equality index (core/index.py): for each column, a map from the `str()` of a value to
 * the set of row positions filed under it. `IndexManager` updates it in place; the functions
 * below give the state each operation leaves, and the lemmas say what `search` then returns.
 */
module Index {
  import opened Values

  /** `str(value)` -> row positions, for one column. */
  type Buckets = map<string, set<int>>

  /** column -> buckets: the whole of `IndexManager.index`. */
  type IndexMap = map<string, Buckets>

  /** The buckets of a column, empty when the column was never seen. */
  function BucketsOf(idx: IndexMap, column: string): Buckets
  {
    if column in idx then idx[column] else map[]
  }

  /** `search(column, value)` on a given state. */
  function Lookup(idx: IndexMap, column: string, value: Value): set<int>
  {
    var b := BucketsOf(idx, column);
    if ToKey(value) in b then b[ToKey(value)] else {}
  }

  /** One bucket insertion: `index[key].setdefault(value_key, set()).add(row_id)`. */
  function Filed(b: Buckets, valueKey: string, id: int): Buckets
  {
    b[valueKey := (if valueKey in b then b[valueKey] else {}) + {id}]
  }

  /** The state after `add` has visited the keys `ks` of `row`. */
  function AddedOn(idx: IndexMap, id: int, row: Row, ks: set<string>): IndexMap
    requires ks <= row.Keys
  {
    map c | c in idx.Keys + ks :: if c in ks then Filed(BucketsOf(idx, c), ToKey(row[c]), id) else idx[c]
  }

  /** The state `add(id, row)` leaves. */
  function Added(idx: IndexMap, id: int, row: Row): IndexMap
  {
    AddedOn(idx, id, row, row.Keys)
  }

  /** The state after `remove` has visited the keys `ks` of `row`. */
  function RemovedOn(idx: IndexMap, id: int, row: Row, ks: set<string>): IndexMap
    requires ks <= row.Keys
  {
    map c | c in idx.Keys ::
      if c in ks && ToKey(row[c]) in idx[c] then idx[c][ToKey(row[c]) := idx[c][ToKey(row[c])] - {id}]
      else idx[c]
  }

  /** The state `remove(id, row)` leaves. */
  function Removed(idx: IndexMap, id: int, row: Row): IndexMap
  {
    RemovedOn(idx, id, row, row.Keys)
  }

  /** The part of `search(column, value)` that `row`, filed as `id`, contributes. */
  function Contribution(id: int, row: Row, column: string, value: Value): set<int>
  {
    if column in row && ToKey(row[column]) == ToKey(value) then {id} else {}
  }

  class IndexManager {
    var index: IndexMap

    constructor()
      ensures index == map[]
    {
      index := map[];
    }

    /** `add(row_id, row)`: file `rowId` under every (column, value) pair of the row. */
    method Add(rowId: int, row: Row)
      modifies this
      ensures index == Added(old(index), rowId, row)
    {
      var keys := row.Keys;
      ghost var done: set<string> := {};
      while keys != {}
        invariant keys !! done && keys + done == row.Keys
        invariant index == AddedOn(old(index), rowId, row, done)
        decreases keys
      {
        var key :| key in keys;
        var buckets := if key in index then index[key] else map[];
        var valueKey := ToKey(row[key]);
        var ids := if valueKey in buckets then buckets[valueKey] else {};
        index := index[key := buckets[valueKey := ids + {rowId}]];
        AddedOnStep(old(index), rowId, row, done, key);
        keys, done := keys - {key}, done + {key};
      }
    }

    /** `remove(row_id, row)`: discard `rowId` from the buckets of the row's own pairs. */
    method Remove(rowId: int, row: Row)
      modifies this
      ensures index == Removed(old(index), rowId, row)
    {
      var keys := row.Keys;
      ghost var done: set<string> := {};
      while keys != {}
        invariant keys !! done && keys + done == row.Keys
        invariant index == RemovedOn(old(index), rowId, row, done)
        decreases keys
      {
        var key :| key in keys;
        if key in index {
          var valueKey := ToKey(row[key]);
          if valueKey in index[key] {
            index := index[key := index[key][valueKey := index[key][valueKey] - {rowId}]];
          }
        }
        RemovedOnStep(old(index), rowId, row, done, key);
        keys, done := keys - {key}, done + {key};
      }
    }

    /** `update(row_id, old_row, new_row)`: remove, then add. */
    method Update(rowId: int, oldRow: Row, newRow: Row)
      modifies this
      ensures index == Added(Removed(old(index), rowId, oldRow), rowId, newRow)
    {
      Remove(rowId, oldRow);
      Add(rowId, newRow);
    }

    /** `search(column, value)`. */
    function Search(column: string, value: Value): set<int>
      reads this
    {
      Lookup(index, column, value)
    }
  }

  lemma {:induction false} AddedOnStep(idx: IndexMap, id: int, row: Row, done: set<string>, key: string)
    requires done <= row.Keys && key in row && key !in done
    ensures var cur := AddedOn(idx, id, row, done);
      var b := BucketsOf(cur, key);
      cur[key := Filed(b, ToKey(row[key]), id)] == AddedOn(idx, id, row, done + {key})
  {
    var cur := AddedOn(idx, id, row, done);
    assert BucketsOf(cur, key) == BucketsOf(idx, key);
  }

  lemma {:induction false} RemovedOnStep(idx: IndexMap, id: int, row: Row, done: set<string>, key: string)
    requires done <= row.Keys && key in row && key !in done
    ensures var cur := RemovedOn(idx, id, row, done);
      var vk := ToKey(row[key]);
      (if key in cur && vk in cur[key] then cur[key := cur[key][vk := cur[key][vk] - {id}]] else cur)
        == RemovedOn(idx, id, row, done + {key})
  {
  }

  // ---------------------------------------------------------------------------------------
  // What `search` returns after each operation

  /** After `add(id, row)`, a search finds what it found before plus `id` exactly where the
      row's own value has the searched key: the index only grows, and it files every column. */
  lemma {:induction false} LookupAdded(idx: IndexMap, id: int, row: Row, column: string, value: Value)
    ensures Lookup(Added(idx, id, row), column, value) == Lookup(idx, column, value) + Contribution(id, row, column, value)
  {
  }

  /** After `add(id, row)`, `search(k, row[k])` contains `id` for every column `k` of the row. */
  lemma {:induction false} AddFindsRow(idx: IndexMap, id: int, row: Row)
    ensures forall k :: k in row ==> id in Lookup(Added(idx, id, row), k, row[k])
    ensures forall c, v :: Lookup(idx, c, v) <= Lookup(Added(idx, id, row), c, v)
  {
    forall k | k in row ensures id in Lookup(Added(idx, id, row), k, row[k]) {
      LookupAdded(idx, id, row, k, row[k]);
    }
    forall c, v ensures Lookup(idx, c, v) <= Lookup(Added(idx, id, row), c, v) {
      LookupAdded(idx, id, row, c, v);
    }
  }

  /** After `remove(id, row)`, a search finds what it found before minus `id` exactly where
      the row's own value has the searched key; other ids and other buckets are untouched. */
  lemma {:induction false} LookupRemoved(idx: IndexMap, id: int, row: Row, column: string, value: Value)
    ensures Lookup(Removed(idx, id, row), column, value) == Lookup(idx, column, value) - Contribution(id, row, column, value)
  {
  }

  /** Removing an id that is nowhere in the index changes no search result. */
  lemma {:induction false} RemoveAbsentIsNoop(idx: IndexMap, id: int, row: Row)
    requires forall c, v :: id !in Lookup(idx, c, v)
    ensures forall c, v :: Lookup(Removed(idx, id, row), c, v) == Lookup(idx, c, v)
  {
    forall c, v ensures Lookup(Removed(idx, id, row), c, v) == Lookup(idx, c, v) {
      LookupRemoved(idx, id, row, c, v);
    }
  }

  /** After `update(id, old, new)`, `id` is found under every (column, value) of the new row,
      and under a pair of the old row only if the new row has the same key there. */
  lemma {:induction false} UpdateFindsNewRow(idx: IndexMap, id: int, oldRow: Row, newRow: Row)
    ensures forall k :: k in newRow ==> id in Lookup(Added(Removed(idx, id, oldRow), id, newRow), k, newRow[k])
    ensures forall c, v :: id in Lookup(Added(Removed(idx, id, oldRow), id, newRow), c, v)
              <==> (c in newRow && ToKey(newRow[c]) == ToKey(v))
                   || (id in Lookup(idx, c, v) && !(c in oldRow && ToKey(oldRow[c]) == ToKey(v)))
  {
    forall c, v ensures id in Lookup(Added(Removed(idx, id, oldRow), id, newRow), c, v)
              <==> (c in newRow && ToKey(newRow[c]) == ToKey(v))
                   || (id in Lookup(idx, c, v) && !(c in oldRow && ToKey(oldRow[c]) == ToKey(v)))
    {
      LookupRemoved(idx, id, oldRow, c, v);
      LookupAdded(Removed(idx, id, oldRow), id, newRow, c, v);
    }
    AddFindsRow(Removed(idx, id, oldRow), id, newRow);
  }

  /** Search is by `str(value)`: values with the same string form find the same ids. */
  lemma {:induction false} LookupByKey(idx: IndexMap, column: string, v1: Value, v2: Value)
    requires ToKey(v1) == ToKey(v2)
    ensures Lookup(idx, column, v1) == Lookup(idx, column, v2)
  {
  }

  /** A column that no added row had is not in the index, and searching it finds nothing. */
  lemma {:induction false} NeverAddedColumn(idx: IndexMap, id: int, row: Row, column: string, value: Value)
    ensures column !in idx ==> Lookup(idx, column, value) == {}
    ensures column !in idx && column !in row ==> column !in Added(idx, id, row)
    ensures Lookup(map[], column, value) == {}
  {
  }
}
