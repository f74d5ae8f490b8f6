/**
 * `Table` (core/database.py): an ordered list of rows, the `next_id` counter for automatic
 * INTEGER primary keys, and named equality indexes. The functions before the class give the
 * state each operation leaves; the class methods are proved to leave exactly that state, and
 * the lemmas after the class say what those states mean.
 */
module Tables {
  import opened Outcomes
  import opened Values
  import opened Schema
  import opened Matching
  import opened Index
  import Text

  /** What `StorageEngine.load_table` hands to a new table: the stored `rows` and `next_id`,
      either of which may be missing. */
  datatype Stored = Stored(rows: Option<seq<Row>>, nextId: Option<int>)

  /** What `save_data` writes. */
  datatype Snapshot = Snapshot(rows: seq<Row>, nextId: int)

  // ---------------------------------------------------------------------------------------
  // insert: the per-column checks

  /** The outcome of the column loop of `insert`: the values with automatic keys filled in,
      the counter after it, and the first error raised, if any. `next_id` keeps every
      increment made before an error. */
  datatype Checked = Checked(row: Row, nextId: int, failure: Option<Error>)

  function CheckColumns(cols: seq<Column>, values: Row, nextId: int): Checked
    decreases |cols|
  {
    if cols == [] then Checked(values, nextId, None)
    else
      var c := cols[0];
      var fill := c.isPrimary && c.name !in values;
      if fill && c.dataType != INTEGER then Checked(values, nextId, Some(PrimaryKeyMissing(c.name)))
      else
        var vals := if fill then values[c.name := VInt(nextId)] else values;
        var next := if fill then nextId + 1 else nextId;
        if c.name in vals && !Validate(c, vals[c.name]) then Checked(vals, next, Some(InvalidValue(c.name)))
        else if c.name !in vals && !c.nullable then Checked(vals, next, Some(NotNullable(c.name)))
        else CheckColumns(cols[1..], vals, next)
  }

  /** A row satisfies a column: a primary key is present, a present value validates, and an
      absent column is nullable. */
  predicate Conforms(c: Column, row: Row)
  {
    (c.isPrimary ==> c.name in row)
    && (c.name in row ==> Validate(c, row[c.name]))
    && (c.name !in row ==> c.nullable)
  }

  /** `e` is the error `insert` raises for column `c` of `row`. */
  predicate Fails(c: Column, row: Row, e: Error)
  {
    || (e == PrimaryKeyMissing(c.name) && c.isPrimary && c.dataType != INTEGER && c.name !in row)
    || (e == InvalidValue(c.name) && c.name in row && !Validate(c, row[c.name]))
    || (e == NotNullable(c.name) && c.name !in row && !c.nullable)
  }

  /** `name` is an INTEGER primary key of `cols`: the only kind of column `insert` fills. */
  predicate IsAutoKey(cols: seq<Column>, name: string)
  {
    exists k :: 0 <= k < |cols| && cols[k].name == name && cols[k].isPrimary && cols[k].dataType == INTEGER
  }

  // ---------------------------------------------------------------------------------------
  // insert: the UNIQUE check

  /** Some stored row has `row.get(name) == v`. */
  predicate Clashes(data: seq<Row>, name: string, v: Value)
  {
    exists j :: 0 <= j < |data| && PyEq(Get(data[j], name), v)
  }

  /** The first UNIQUE column, in column order, whose new value clashes with a stored row. */
  function DuplicateColumn(cols: seq<Column>, data: seq<Row>, row: Row): Option<string>
    decreases |cols|
  {
    if cols == [] then None
    else if cols[0].isUnique && cols[0].name in row && Clashes(data, cols[0].name, row[cols[0].name]) then Some(cols[0].name)
    else DuplicateColumn(cols[1..], data, row)
  }

  /** The UNIQUE invariant insertion maintains: no row clashes with an earlier one on a UNIQUE
      column it has. */
  predicate UniqueHolds(cols: seq<Column>, data: seq<Row>)
  {
    forall i, j, k :: 0 <= i < j < |data| && 0 <= k < |cols| && cols[k].isUnique && cols[k].name in data[j]
      ==> !PyEq(Get(data[i], cols[k].name), data[j][cols[k].name])
  }

  // ---------------------------------------------------------------------------------------
  // update

  /** `row.update(set_values)` on a matching row; other rows stay as they are. */
  function UpdatedRow(row: Row, setValues: Row, where: map<string, Value>, op: Operator): Row
  {
    if RowMatches(row, where, op) then row + setValues else row
  }

  function UpdatedRows(rows: seq<Row>, setValues: Row, where: map<string, Value>, op: Operator): (r: seq<Row>)
    ensures |r| == |rows|
  {
    seq(|rows|, k requires 0 <= k < |rows| => UpdatedRow(rows[k], setValues, where, op))
  }

  /** An assignment to a known column that the column rejects. */
  predicate BadAssignment(cols: seq<Column>, setValues: Row, name: string)
  {
    name in setValues && ColumnNamed(cols, name).Some? && !Validate(ColumnNamed(cols, name).value, setValues[name])
  }

  predicate AssignmentsValid(cols: seq<Column>, setValues: Row)
  {
    forall k :: k in setValues ==> !BadAssignment(cols, setValues, k)
  }

  /** The bad assignment `update` reports: the first, in the dict's key order `order`. */
  function FirstBad(cols: seq<Column>, setValues: Row, order: seq<string>): (r: Option<string>)
    ensures r.None? <==> forall i :: 0 <= i < |order| ==> !BadAssignment(cols, setValues, order[i])
    ensures r.Some? ==> r.value in order && BadAssignment(cols, setValues, r.value)
  {
    if order == [] then None
    else if BadAssignment(cols, setValues, order[0]) then Some(order[0])
    else
      assert forall i :: 1 <= i < |order| ==> order[1..][i - 1] == order[i];
      FirstBad(cols, setValues, order[1..])
  }

  /** The column reported is bad and every column before it in the order is good. */
  lemma {:induction false} FirstBadIsFirst(cols: seq<Column>, setValues: Row, order: seq<string>)
    requires FirstBad(cols, setValues, order).Some?
    ensures var k := FirstBad(cols, setValues, order).value;
      exists j :: 0 <= j < |order| && order[j] == k && forall i :: 0 <= i < j ==> !BadAssignment(cols, setValues, order[i])
  {
    var k := FirstBad(cols, setValues, order).value;
    if BadAssignment(cols, setValues, order[0]) {
      assert order[0] == k;
    } else {
      FirstBadIsFirst(cols, setValues, order[1..]);
      var j :| 0 <= j < |order[1..]| && order[1..][j] == k
        && forall i :: 0 <= i < j ==> !BadAssignment(cols, setValues, order[1..][i]);
      assert order[j + 1] == k;
      assert forall i :: 1 <= i < j + 1 ==> order[i] == order[1..][i - 1];
    }
  }

  /** With the keys listed exactly, some assignment is bad iff a first bad one is found. */
  lemma {:induction false} FirstBadFound(cols: seq<Column>, setValues: Row, order: seq<string>)
    requires Text.KeyOrder(setValues.Keys, order)
    ensures FirstBad(cols, setValues, order).None? <==> AssignmentsValid(cols, setValues)
  {
    if !AssignmentsValid(cols, setValues) {
      var k :| k in setValues && BadAssignment(cols, setValues, k);
      var i :| 0 <= i < |order| && order[i] == k;
    }
  }

  /** The index state after `update` has re-filed the matching rows among the first `i`. */
  function Reindexed(idx: IndexMap, rows: seq<Row>, i: nat, setValues: Row, where: map<string, Value>, op: Operator): IndexMap
    requires i <= |rows|
  {
    if i == 0 then idx
    else
      var prev := Reindexed(idx, rows, i - 1, setValues, where, op);
      if RowMatches(rows[i - 1], where, op) then Added(Removed(prev, i - 1, rows[i - 1]), i - 1, rows[i - 1] + setValues)
      else prev
  }

  /** The rows with the first `i` updated and the rest as before. */
  function PartlyUpdated(rows: seq<Row>, i: nat, setValues: Row, where: map<string, Value>, op: Operator): (r: seq<Row>)
    ensures |r| == |rows|
  {
    seq(|rows|, k requires 0 <= k < |rows| => if k < i then UpdatedRow(rows[k], setValues, where, op) else rows[k])
  }

  /** One more row updated: position `i` was still the old row, and now holds its update. */
  lemma {:induction false} PartlyUpdatedStep(rows: seq<Row>, i: nat, setValues: Row, where: map<string, Value>, op: Operator)
    requires i < |rows|
    ensures PartlyUpdated(rows, i, setValues, where, op)[i] == rows[i]
    ensures PartlyUpdated(rows, i + 1, setValues, where, op)
      == PartlyUpdated(rows, i, setValues, where, op)[i := UpdatedRow(rows[i], setValues, where, op)]
  {
  }

  /** With no match among the first `i` rows, nothing has been updated yet. */
  lemma {:induction false} UpdateUnmatched(rows: seq<Row>, i: nat, setValues: Row, where: map<string, Value>, op: Operator)
    requires i <= |rows| && Filter(rows[..i], where, op) == []
    ensures PartlyUpdated(rows, i, setValues, where, op) == rows
  {
    forall k | 0 <= k < i ensures !RowMatches(rows[k], where, op) {
      FilterMembers(rows[..i], where, op, rows[..i][k]);
    }
  }

  /** With no match among the first `i` rows, no index has been re-filed yet. */
  lemma {:induction false} ReindexedUnmatched(idx: IndexMap, rows: seq<Row>, i: nat, setValues: Row, where: map<string, Value>, op: Operator)
    requires i <= |rows| && Filter(rows[..i], where, op) == []
    ensures Reindexed(idx, rows, i, setValues, where, op) == idx
  {
    if i > 0 {
      assert rows[..i][..i - 1] == rows[..i - 1];
      ReindexedUnmatched(idx, rows, i - 1, setValues, where, op);
    }
  }

  /** A row that does not match is left as it is, and is not re-filed. */
  lemma {:induction false} UpdateSkip(rows: seq<Row>, i: nat, setValues: Row, where: map<string, Value>, op: Operator)
    requires i < |rows| && !RowMatches(rows[i], where, op)
    ensures PartlyUpdated(rows, i + 1, setValues, where, op) == PartlyUpdated(rows, i, setValues, where, op)
  {
  }

  /** No row updated is the rows themselves; all of them is `UpdatedRows`. */
  lemma {:induction false} PartlyUpdatedEnds(rows: seq<Row>, setValues: Row, where: map<string, Value>, op: Operator)
    ensures PartlyUpdated(rows, 0, setValues, where, op) == rows
    ensures PartlyUpdated(rows, |rows|, setValues, where, op) == UpdatedRows(rows, setValues, where, op)
  {
  }

  // ---------------------------------------------------------------------------------------
  // delete

  /** The index state after `delete` has removed the rows at `ps[k..]`, the last position
      first. */
  function Unindexed(idx: IndexMap, rows: seq<Row>, ps: seq<nat>, k: nat): IndexMap
    decreases |ps| - k
  {
    if k >= |ps| then idx
    else
      var later := Unindexed(idx, rows, ps, k + 1);
      if ps[k] < |rows| then Removed(later, ps[k], rows[ps[k]]) else later
  }

  /** The positions of `ps` as a set. */
  function PositionSet(ps: seq<nat>): set<int>
  {
    set p | p in ps :: p as int
  }

  lemma {:induction false} PositionSetCons(ps: seq<nat>)
    requires ps != []
    ensures PositionSet(ps) == {ps[0] as int} + PositionSet(ps[1..])
  {
    forall j ensures j in PositionSet(ps) <==> j in {ps[0] as int} + PositionSet(ps[1..]) {
      if j in PositionSet(ps) {
        var q :| q in ps && j == q as int;
        assert q == ps[0] || q in ps[1..];
      }
      if j in PositionSet(ps[1..]) {
        var q :| q in ps[1..] && j == q as int;
        assert q in ps;
      }
      if j == ps[0] as int {
        assert ps[0] in ps;
      }
    }
  }

  /** The position below which the delete loop has not yet popped anything. */
  function Limit(rows: seq<Row>, ps: seq<nat>, k: nat): int
  {
    if k < |ps| then ps[k] else |rows|
  }

  /** The data while the delete loop has `k` matching positions left to pop: everything from
      the `k`-th match on has lost its matching rows. */
  function Remaining(rows: seq<Row>, where: map<string, Value>, op: Operator, k: nat): seq<Row>
  {
    var lim := Limit(rows, MatchPositions(rows, where, op), k);
    if 0 <= lim <= |rows| then rows[..lim] + Reject(rows[lim..], where, op) else rows
  }

  // ---------------------------------------------------------------------------------------
  // create_index

  /** `index_name or f"idx_{table}_{column}"`. */
  function IndexNameFor(table: string, column: string, indexName: Option<string>): (n: string)
    ensures indexName.Some? && indexName.value != [] ==> n == indexName.value
    ensures indexName.None? || indexName.value == [] ==> n == "idx_" + table + "_" + column
  {
    if indexName.Some? && indexName.value != [] then indexName.value else "idx_" + table + "_" + column
  }

  /** The positions a scan finds: rows that have `col` with the same `str()` as `v`. */
  function Positions(rows: seq<Row>, col: string, v: Value): set<int>
  {
    set j | 0 <= j < |rows| && col in rows[j] && ToKey(rows[j][col]) == ToKey(v)
  }

  /** The index answers `search(col, v)` for `rows` exactly as a scan would. */
  ghost predicate Consistent(idx: IndexMap, rows: seq<Row>, col: string)
  {
    forall v :: Lookup(idx, col, v) == Positions(rows, col, v)
  }

  predicate IndexesDistinct(m: map<string, IndexManager>)
  {
    forall a, b :: a in m && b in m && a != b ==> m[a] != m[b]
  }

  class Table {
    const name: string
    /** `self.columns`, the name-keyed dict, as its entries in insertion order. */
    const columns: seq<Column>
    var data: seq<Row>
    var nextId: int
    var indexes: map<string, IndexManager>
    /** The last snapshot `save_data` wrote, if any. */
    ghost var saved: Option<Snapshot>

    ghost predicate Valid()
      reads this
    {
      NamesDistinct(columns) && IndexesDistinct(indexes)
    }

    /** `Table(name, columns, database)` followed by `load_data()`, with the loaded record
        passed in. */
    constructor(name: string, cols: seq<Column>, stored: Option<Stored>)
      ensures Valid()
      ensures this.name == name && columns == ColumnMap(cols) && indexes == map[] && saved == None
      ensures data == (if stored.Some? && stored.value.rows.Some? then stored.value.rows.value else [])
      ensures nextId == (if stored.Some? && stored.value.nextId.Some? then stored.value.nextId.value else 1)
    {
      this.name := name;
      columns := ColumnMap(cols);
      ColumnMapDistinct(cols);
      data := [];
      nextId := 1;
      indexes := map[];
      saved := None;
      if stored.Some? {
        data := if stored.value.rows.Some? then stored.value.rows.value else [];
        nextId := if stored.value.nextId.Some? then stored.value.nextId.value else 1;
      }
    }

    /** The column loop of `insert`. */
    method CheckRow(values: Row) returns (ch: Checked)
      ensures ch == CheckColumns(columns, values, nextId)
    {
      var vals := values;
      var next := nextId;
      var i := 0;
      while i < |columns|
        invariant 0 <= i <= |columns|
        invariant CheckColumns(columns[i..], vals, next) == CheckColumns(columns, values, nextId)
      {
        var col := columns[i];
        assert columns[i..][0] == col && columns[i..][1..] == columns[i + 1..];
        if col.isPrimary && col.name !in vals {
          if col.dataType == INTEGER {
            vals := vals[col.name := VInt(next)];
            next := next + 1;
          } else {
            return Checked(vals, next, Some(PrimaryKeyMissing(col.name)));
          }
        }
        if col.name in vals {
          if !Validate(col, vals[col.name]) {
            return Checked(vals, next, Some(InvalidValue(col.name)));
          }
        } else if !col.nullable {
          return Checked(vals, next, Some(NotNullable(col.name)));
        }
        i := i + 1;
      }
      return Checked(vals, next, None);
    }

    /** The UNIQUE loop of `insert`. */
    method FindDuplicate(row: Row) returns (d: Option<string>)
      ensures d == DuplicateColumn(columns, data, row)
    {
      var i := 0;
      while i < |columns|
        invariant 0 <= i <= |columns|
        invariant DuplicateColumn(columns[i..], data, row) == DuplicateColumn(columns, data, row)
      {
        var col := columns[i];
        assert columns[i..][0] == col && columns[i..][1..] == columns[i + 1..];
        if col.isUnique && col.name in row {
          var j := 0;
          while j < |data|
            invariant 0 <= j <= |data|
            invariant forall m :: 0 <= m < j ==> !PyEq(Get(data[m], col.name), row[col.name])
          {
            if PyEq(Get(data[j], col.name), row[col.name]) {
              assert Clashes(data, col.name, row[col.name]);
              return Some(col.name);
            }
            j := j + 1;
          }
        }
        i := i + 1;
      }
      return None;
    }

    /** Every index of the table files the row under `id`. */
    method AddToIndexes(id: int, row: Row)
      requires Valid()
      modifies indexes.Values
      ensures forall n :: n in indexes ==> indexes[n].index == Added(old(indexes[n].index), id, row)
    {
      var names := indexes.Keys;
      while names != {}
        invariant names <= indexes.Keys
        invariant forall n :: n in indexes && n !in names ==> indexes[n].index == Added(old(indexes[n].index), id, row)
        invariant forall n :: n in names ==> indexes[n].index == old(indexes[n].index)
        decreases names
      {
        var n :| n in names;
        indexes[n].Add(id, row);
        names := names - {n};
      }
    }

    /** Every index of the table unfiles the row from `id`. */
    method RemoveFromIndexes(id: int, row: Row)
      requires Valid()
      modifies indexes.Values
      ensures forall n :: n in indexes ==> indexes[n].index == Removed(old(indexes[n].index), id, row)
    {
      var names := indexes.Keys;
      while names != {}
        invariant names <= indexes.Keys
        invariant forall n :: n in indexes && n !in names ==> indexes[n].index == Removed(old(indexes[n].index), id, row)
        invariant forall n :: n in names ==> indexes[n].index == old(indexes[n].index)
        decreases names
      {
        var n :| n in names;
        indexes[n].Remove(id, row);
        names := names - {n};
      }
    }

    /** Every index of the table refiles `id` from the old row to the new one. */
    method UpdateIndexes(id: int, oldRow: Row, newRow: Row)
      requires Valid()
      modifies indexes.Values
      ensures forall n :: n in indexes ==> indexes[n].index == Added(Removed(old(indexes[n].index), id, oldRow), id, newRow)
    {
      var names := indexes.Keys;
      while names != {}
        invariant names <= indexes.Keys
        invariant forall n :: n in indexes && n !in names ==> indexes[n].index == Added(Removed(old(indexes[n].index), id, oldRow), id, newRow)
        invariant forall n :: n in names ==> indexes[n].index == old(indexes[n].index)
        decreases names
      {
        var n :| n in names;
        indexes[n].Update(id, oldRow, newRow);
        names := names - {n};
      }
    }

    /** `insert(values)`: fill automatic keys, check every column, check UNIQUE, append, save,
        then file the new row in every index. The result is the new row's position. */
    method Insert(values: Row) returns (r: Result<int>)
      requires Valid()
      modifies this, indexes.Values
      ensures Valid() && indexes == old(indexes)
      ensures var ch := CheckColumns(columns, values, old(nextId));
        && nextId == ch.nextId
        && (ch.failure.Some? ==>
              && r == Err(ch.failure.value) && data == old(data) && saved == old(saved)
              && unchanged(indexes.Values))
        && (ch.failure.None? && DuplicateColumn(columns, old(data), ch.row).Some? ==>
              && r == Err(DuplicateValue(DuplicateColumn(columns, old(data), ch.row).value))
              && data == old(data) && saved == old(saved)
              && unchanged(indexes.Values))
        && (ch.failure.None? && DuplicateColumn(columns, old(data), ch.row).None? ==>
              && r == Ok(|old(data)|) && data == old(data) + [ch.row] && saved == Some(Snapshot(data, nextId))
              && forall n :: n in indexes ==> indexes[n].index == Added(old(indexes[n].index), |old(data)|, ch.row))
    {
      var ch := CheckRow(values);
      nextId := ch.nextId;
      if ch.failure.Some? {
        return Err(ch.failure.value);
      }
      var dup := FindDuplicate(ch.row);
      if dup.Some? {
        return Err(DuplicateValue(dup.value));
      }
      var rowId := |data|;
      data := data + [ch.row];
      saved := Some(Snapshot(data, nextId));
      AddToIndexes(rowId, ch.row);
      return Ok(rowId);
    }

    /** `select(where, where_operator)`: the matching rows, in order. */
    method Select(where: map<string, Value>, op: Operator) returns (rows: seq<Row>)
      ensures rows == Filter(data, where, op)
    {
      rows := [];
      var i := 0;
      while i < |data|
        invariant 0 <= i <= |data|
        invariant rows == Filter(data[..i], where, op)
      {
        var m := MatchRow(data[i], where, op);
        assert data[..i + 1][..i] == data[..i];
        if m {
          rows := rows + [data[i]];
        }
        i := i + 1;
      }
      assert data[..|data|] == data;
    }

    /** The first loop of `delete`: the positions of the matching rows. */
    method MatchingPositions(where: map<string, Value>, op: Operator) returns (ps: seq<nat>)
      ensures ps == MatchPositions(data, where, op)
    {
      ps := [];
      var i := 0;
      while i < |data|
        invariant 0 <= i <= |data|
        invariant ps == MatchPositions(data[..i], where, op)
      {
        var m := MatchRow(data[i], where, op);
        assert data[..i + 1][..i] == data[..i];
        if m {
          ps := ps + [i];
        }
        i := i + 1;
      }
      assert data[..|data|] == data;
    }

    /** The validation loop `update` runs on each match, over the keys in the dict's order
        `order`: the first invalid assignment, if any. */
    method FindBadAssignment(setValues: Row, order: seq<string>) returns (bad: Option<string>)
      requires Text.KeyOrder(setValues.Keys, order)
      ensures bad.None? <==> AssignmentsValid(columns, setValues)
      ensures bad.Some? ==> BadAssignment(columns, setValues, bad.value)
      ensures bad == FirstBad(columns, setValues, order)
    {
      FirstBadFound(columns, setValues, order);
      for i := 0 to |order|
        invariant FirstBad(columns, setValues, order) == FirstBad(columns, setValues, order[i..])
      {
        var k := order[i];
        var col := ColumnNamed(columns, k);
        assert order[i..][1..] == order[i + 1..];
        if col.Some? && !Validate(col.value, setValues[k]) {
          return Some(k);
        }
      }
      return None;
    }

    /** `row.update(set_values)` on the matching row at `i`, then `index.update(i, old_row,
        row)` on every index. */
    method ApplyAt(i: nat, setValues: Row, ghost rows: seq<Row>, ghost where: map<string, Value>, ghost op: Operator)
      requires Valid() && i < |rows| && RowMatches(rows[i], where, op)
      requires data == PartlyUpdated(rows, i, setValues, where, op)
      modifies this, indexes.Values
      ensures Valid() && indexes == old(indexes) && nextId == old(nextId) && saved == old(saved)
      ensures data == PartlyUpdated(rows, i + 1, setValues, where, op)
      ensures forall n :: n in indexes ==>
        indexes[n].index == Added(Removed(old(indexes[n].index), i, rows[i]), i, rows[i] + setValues)
    {
      PartlyUpdatedStep(rows, i, setValues, where, op);
      var oldRow := data[i];
      var newRow := oldRow + setValues;
      data := data[i := newRow];
      UpdateIndexes(i, oldRow, newRow);
    }

    /** What the `update` loop has achieved after `i` rows, `count` of which matched: the
        rows so far are updated and every index has re-filed them. */
    ghost predicate UpdateProgress(rows: seq<Row>, start: map<string, IndexMap>, i: nat, count: int,
                                   setValues: Row, where: map<string, Value>, op: Operator)
      reads this, indexes.Values
    {
      && i <= |rows|
      && data == PartlyUpdated(rows, i, setValues, where, op)
      && count == |Filter(rows[..i], where, op)|
      && (count > 0 ==> AssignmentsValid(columns, setValues))
      && forall n :: n in indexes ==> n in start && indexes[n].index == Reindexed(start[n], rows, i, setValues, where, op)
    }

    /** One pass of the `update` loop, on the row at `i`: test it, and if it matches,
        validate and apply the assignments. */
    method UpdateAt(i: nat, count: int, setValues: Row, order: seq<string>, where: map<string, Value>, op: Operator,
                    ghost rows: seq<Row>, ghost start: map<string, IndexMap>)
      returns (next: int, bad: Option<string>)
      requires Valid() && i < |rows| && UpdateProgress(rows, start, i, count, setValues, where, op)
      requires Text.KeyOrder(setValues.Keys, order)
      modifies this, indexes.Values
      ensures Valid() && indexes == old(indexes) && nextId == old(nextId) && saved == old(saved)
      ensures bad.Some? ==>
        && rows[i] in Filter(rows, where, op) && !AssignmentsValid(columns, setValues) && BadAssignment(columns, setValues, bad.value)
        && bad == FirstBad(columns, setValues, order)
        && data == rows && forall n :: n in indexes ==> indexes[n].index == start[n]
      ensures bad.None? ==> UpdateProgress(rows, start, i + 1, next, setValues, where, op)
    {
      var m := MatchRow(data[i], where, op);
      if m {
        next, bad := UpdateMatched(i, count, setValues, order, where, op, rows, start);
      } else {
        PartlyUpdatedStep(rows, i, setValues, where, op);
        assert rows[..i + 1][..i] == rows[..i];
        UpdateSkip(rows, i, setValues, where, op);
        next, bad := count, None;
      }
    }

    /** The matching row at `i`: a bad assignment is reported before anything changes;
        otherwise the row is updated and re-filed. */
    method UpdateMatched(i: nat, count: int, setValues: Row, order: seq<string>, where: map<string, Value>, op: Operator,
                         ghost rows: seq<Row>, ghost start: map<string, IndexMap>)
      returns (next: int, bad: Option<string>)
      requires Valid() && i < |rows| && UpdateProgress(rows, start, i, count, setValues, where, op)
      requires Text.KeyOrder(setValues.Keys, order)
      requires RowMatches(rows[i], where, op)
      modifies this, indexes.Values
      ensures Valid() && indexes == old(indexes) && nextId == old(nextId) && saved == old(saved)
      ensures bad.Some? ==>
        && rows[i] in Filter(rows, where, op) && !AssignmentsValid(columns, setValues) && BadAssignment(columns, setValues, bad.value)
        && bad == FirstBad(columns, setValues, order)
        && data == rows && forall n :: n in indexes ==> indexes[n].index == start[n]
      ensures bad.None? ==> UpdateProgress(rows, start, i + 1, next, setValues, where, op)
    {
      PartlyUpdatedStep(rows, i, setValues, where, op);
      assert rows[..i + 1][..i] == rows[..i];
      bad := FindBadAssignment(setValues, order);
      next := count + 1;
      if bad.None? {
        ApplyAt(i, setValues, rows, where, op);
      } else {
        FilterMembers(rows, where, op, rows[i]);
        UpdateUnmatched(rows, i, setValues, where, op);
        forall n | n in indexes ensures indexes[n].index == start[n] {
          ReindexedUnmatched(start[n], rows, i, setValues, where, op);
        }
      }
    }

    /** `update(set_values, where, where_operator)`: overwrite the assignments on every
        matching row and re-file it in every index; the result is the number of matches. An
        invalid assignment to a known column fails at the first match, before any change, and
        names the first invalid column in the dict's key order `order`. */
    method Update(setValues: Row, order: seq<string>, where: map<string, Value>, op: Operator) returns (r: Result<int>)
      requires Valid() && Text.KeyOrder(setValues.Keys, order)
      modifies this, indexes.Values
      ensures Valid() && indexes == old(indexes) && nextId == old(nextId)
      ensures var matched := |Filter(old(data), where, op)|;
        if matched > 0 && !AssignmentsValid(columns, setValues) then
          && r.Err? && r.error.InvalidValue? && BadAssignment(columns, setValues, r.error.column)
          && FirstBad(columns, setValues, order) == Some(r.error.column)
          && data == old(data) && saved == old(saved)
          && forall n :: n in indexes ==> indexes[n].index == old(indexes[n].index)
        else
          && r == Ok(matched)
          && data == UpdatedRows(old(data), setValues, where, op)
          && saved == (if matched > 0 then Some(Snapshot(data, nextId)) else old(saved))
          && forall n :: n in indexes ==>
               indexes[n].index == Reindexed(old(indexes[n].index), old(data), |old(data)|, setValues, where, op)
    {
      var count, bad := UpdateRows(setValues, order, where, op);
      if bad.Some? {
        return Err(InvalidValue(bad.value));
      }
      if count > 0 {
        saved := Some(Snapshot(data, nextId));
      }
      return Ok(count);
    }

    /** The row loop of `update`. */
    method UpdateRows(setValues: Row, order: seq<string>, where: map<string, Value>, op: Operator) returns (count: int, bad: Option<string>)
      requires Valid() && Text.KeyOrder(setValues.Keys, order)
      modifies this, indexes.Values
      ensures Valid() && indexes == old(indexes) && nextId == old(nextId) && saved == old(saved)
      ensures bad.Some? <==> |Filter(old(data), where, op)| > 0 && !AssignmentsValid(columns, setValues)
      ensures bad.Some? ==>
        && BadAssignment(columns, setValues, bad.value) && bad == FirstBad(columns, setValues, order) && data == old(data)
        && forall n :: n in indexes ==> indexes[n].index == old(indexes[n].index)
      ensures bad.None? ==>
        && count == |Filter(old(data), where, op)|
        && data == UpdatedRows(old(data), setValues, where, op)
        && forall n :: n in indexes ==>
             indexes[n].index == Reindexed(old(indexes[n].index), old(data), |old(data)|, setValues, where, op)
    {
      count := 0;
      var i := 0;
      ghost var rows := data;
      ghost var start := map n | n in indexes :: indexes[n].index;
      PartlyUpdatedEnds(rows, setValues, where, op);
      while i < |data|
        invariant indexes == old(indexes) && nextId == old(nextId) && saved == old(saved)
        invariant i <= |rows| == |data| && rows == old(data)
        invariant forall n :: n in indexes ==> n in start && start[n] == old(indexes[n].index)
        invariant UpdateProgress(rows, start, i, count, setValues, where, op)
      {
        var next;
        next, bad := UpdateAt(i, count, setValues, order, where, op, rows, start);
        if bad.Some? {
          FilterMembers(rows, where, op, rows[i]);
          return;
        }
        count := next;
        i := i + 1;
      }
      assert rows[..i] == rows;
      bad := None;
    }

    /** One pop of the delete loop: the row at `p` leaves the data and every index. */
    method PopRow(p: nat)
      requires Valid() && p < |data|
      modifies this, indexes.Values
      ensures Valid() && indexes == old(indexes) && nextId == old(nextId) && saved == old(saved)
      ensures data == old(data)[..p] + old(data)[p + 1..]
      ensures forall n :: n in indexes ==> indexes[n].index == Removed(old(indexes[n].index), p, old(data)[p])
    {
      var oldRow := data[p];
      data := data[..p] + data[p + 1..];
      RemoveFromIndexes(p, oldRow);
    }

    /** `delete(where, where_operator)`: collect the matching positions, then pop them from the
        last to the first, removing each popped row from every index under its old position.
        The result is the number of rows deleted. */
    method Delete(where: map<string, Value>, op: Operator) returns (count: int)
      requires Valid()
      modifies this, indexes.Values
      ensures Valid() && indexes == old(indexes) && nextId == old(nextId)
      ensures data == Reject(old(data), where, op)
      ensures count == |MatchPositions(old(data), where, op)|
      ensures saved == (if count > 0 then Some(Snapshot(data, nextId)) else old(saved))
      ensures forall n :: n in indexes ==>
        indexes[n].index == Unindexed(old(indexes[n].index), old(data), MatchPositions(old(data), where, op), 0)
    {
      count := DeleteRows(where, op);
      if count > 0 {
        saved := Some(Snapshot(data, nextId));
      }
    }

    /** What the pop loop of `delete` has achieved with `k` matching positions left: the data
        is `Remaining` and every index has lost the rows at `ps[k..]`. */
    ghost predicate DeleteProgress(rows: seq<Row>, start: map<string, IndexMap>, ps: seq<nat>, k: nat,
                                   where: map<string, Value>, op: Operator)
      reads this, indexes.Values
    {
      && ps == MatchPositions(rows, where, op) && k <= |ps|
      && data == Remaining(rows, where, op, k)
      && forall n :: n in indexes ==> n in start && indexes[n].index == Unindexed(start[n], rows, ps, k)
    }

    /** One pass of the pop loop: the `k`-th match leaves the data and every index. */
    method PopMatch(k: nat, ghost rows: seq<Row>, ghost start: map<string, IndexMap>, ps: seq<nat>,
                    ghost where: map<string, Value>, ghost op: Operator)
      requires Valid() && 0 < k && DeleteProgress(rows, start, ps, k, where, op)
      modifies this, indexes.Values
      ensures Valid() && indexes == old(indexes) && nextId == old(nextId) && saved == old(saved)
      ensures DeleteProgress(rows, start, ps, k - 1, where, op)
    {
      var p := ps[k - 1];
      DeleteStep(rows, where, op, k);
      PopRow(p);
    }

    /** The pop loop of `delete`. */
    method DeleteRows(where: map<string, Value>, op: Operator) returns (count: int)
      requires Valid()
      modifies this, indexes.Values
      ensures Valid() && indexes == old(indexes) && nextId == old(nextId) && saved == old(saved)
      ensures data == Reject(old(data), where, op)
      ensures count == |MatchPositions(old(data), where, op)|
      ensures forall n :: n in indexes ==>
        indexes[n].index == Unindexed(old(indexes[n].index), old(data), MatchPositions(old(data), where, op), 0)
    {
      var deleted := MatchingPositions(where, op);
      ghost var rows := data;
      ghost var start := map n | n in indexes :: indexes[n].index;
      DeleteStart(rows, where, op);
      var k: nat := |deleted|;
      while k > 0
        invariant indexes == old(indexes) && nextId == old(nextId) && saved == old(saved)
        invariant rows == old(data)
        invariant forall n :: n in indexes ==> n in start && start[n] == old(indexes[n].index)
        invariant DeleteProgress(rows, start, deleted, k, where, op)
      {
        PopMatch(k, rows, start, deleted, where, op);
        k := k - 1;
      }
      DeleteDone(rows, where, op);
      count := |deleted|;
    }

    /** `create_index(column, index_name)`: a fresh index over the positions of the stored rows
        that have the column, filed under the given or the default name. */
    method CreateIndex(column: string, indexName: Option<string>) returns (r: Result<()>)
      requires Valid()
      modifies this
      ensures Valid() && data == old(data) && nextId == old(nextId) && saved == old(saved)
      ensures !HasColumn(columns, column) ==> r == Err(ColumnNotFound(column)) && indexes == old(indexes)
      ensures HasColumn(columns, column) ==>
        var n := IndexNameFor(name, column, indexName);
        && r == Ok(())
        && indexes.Keys == old(indexes).Keys + {n}
        && fresh(indexes[n])
        && (forall m :: m in old(indexes) && m != n ==> indexes[m] == old(indexes)[m])
        && indexes[n].index.Keys <= {column}
        && Consistent(indexes[n].index, data, column)
    {
      if PositionOf(columns, column) == |columns| {
        return Err(ColumnNotFound(column));
      }
      var n := IndexNameFor(name, column, indexName);
      var idx := new IndexManager();
      var i := 0;
      while i < |data|
        invariant 0 <= i <= |data|
        invariant idx.index.Keys <= {column}
        invariant Consistent(idx.index, data[..i], column)
        modifies idx
      {
        assert data[..i + 1] == data[..i] + [data[i]];
        if column in data[i] {
          ghost var before := idx.index;
          idx.Add(i, map[column := data[i][column]]);
          ConsistentAppend(before, data[..i], map[column := data[i][column]], data[i], column);
        } else {
          ConsistentAppendMissing(idx.index, data[..i], data[i], column);
        }
        i := i + 1;
      }
      assert data[..|data|] == data;
      indexes := indexes[n := idx];
      return Ok(());
    }

    /** `drop_index(index_name)`: an absent name changes nothing. */
    method DropIndex(indexName: string)
      requires Valid()
      modifies this
      ensures Valid() && indexes == old(indexes) - {indexName}
      ensures data == old(data) && nextId == old(nextId) && saved == old(saved)
    {
      if indexName in indexes {
        indexes := indexes - {indexName};
      }
    }
  }

  // ---------------------------------------------------------------------------------------
  // Proof steps of the delete loop

  lemma {:induction false} RejectUnmatched(seg: seq<Row>, where: map<string, Value>, op: Operator)
    requires forall m :: 0 <= m < |seg| ==> !RowMatches(seg[m], where, op)
    ensures Reject(seg, where, op) == seg
    decreases |seg|
  {
    if seg != [] {
      RejectUnmatched(seg[..|seg| - 1], where, op);
    }
  }

  /** Between two consecutive match positions no row matches. */
  lemma {:induction false} DeleteGap(rows: seq<Row>, where: map<string, Value>, op: Operator, k: nat)
    requires 0 < k <= |MatchPositions(rows, where, op)|
    ensures var ps := MatchPositions(rows, where, op);
      var p, lim := ps[k - 1], Limit(rows, ps, k);
      && 0 <= p < lim <= |rows|
      && p == Limit(rows, ps, k - 1)
      && RowMatches(rows[p], where, op)
      && forall j :: p < j < lim ==> !RowMatches(rows[j], where, op)
  {
    var ps := MatchPositions(rows, where, op);
    MatchPositionsExact(rows, where, op);
    MatchPositionsBounded(rows, where, op);
    var p, lim := ps[k - 1], Limit(rows, ps, k);
    forall j | p < j < lim ensures !RowMatches(rows[j], where, op) {
      forall m | 0 <= m < |ps| ensures ps[m] != j {
        if m < k - 1 {
          assert ps[m] < p;
        } else if m >= k {
          assert ps[m] >= lim;
        }
      }
    }
  }

  lemma {:induction false} RejectSingle(x: Row, where: map<string, Value>, op: Operator)
    requires RowMatches(x, where, op)
    ensures Reject([x], where, op) == []
  {
    assert [x][..0] == [];
  }

  lemma {:induction false} RejectSplitTail(x: Row, mid: seq<Row>, tail: seq<Row>, where: map<string, Value>, op: Operator)
    ensures Reject([x] + mid + tail, where, op) == Reject([x] + mid, where, op) + Reject(tail, where, op)
  {
    FilterAppend([x] + mid, tail, where, op);
  }

  lemma {:induction false} RejectSplitHead(x: Row, mid: seq<Row>, where: map<string, Value>, op: Operator)
    ensures Reject([x] + mid, where, op) == Reject([x], where, op) + Reject(mid, where, op)
  {
    FilterAppend([x], mid, where, op);
  }

  lemma {:induction false} RejectHead(x: Row, mid: seq<Row>, tail: seq<Row>, where: map<string, Value>, op: Operator)
    requires RowMatches(x, where, op)
    requires Reject(mid, where, op) == mid
    ensures Reject([x] + mid + tail, where, op) == mid + Reject(tail, where, op)
  {
    RejectSingle(x, where, op);
    RejectSplitTail(x, mid, tail, where, op);
    RejectSplitHead(x, mid, where, op);
    assert [] + mid == mid;
  }

  lemma {:induction false} RejectFrom(rows: seq<Row>, where: map<string, Value>, op: Operator, p: nat, lim: nat)
    requires p < lim <= |rows| && RowMatches(rows[p], where, op)
    requires forall j :: p < j < lim ==> !RowMatches(rows[j], where, op)
    ensures Reject(rows[p..], where, op) == rows[p + 1..lim] + Reject(rows[lim..], where, op)
  {
    var mid := rows[p + 1..lim];
    forall m | 0 <= m < |mid| ensures !RowMatches(mid[m], where, op) {
      assert mid[m] == rows[p + 1 + m];
    }
    RejectUnmatched(mid, where, op);
    assert rows[p..] == [rows[p]] + mid + rows[lim..];
    RejectHead(rows[p], mid, rows[lim..], where, op);
  }

  /** One pop of the delete loop, on values: the `k`-th match is still in place, and taking
      it out leaves the data with `k - 1` matches to pop. */
  lemma {:induction false} DeleteStep(rows: seq<Row>, where: map<string, Value>, op: Operator, k: nat)
    requires 0 < k <= |MatchPositions(rows, where, op)|
    ensures var p, data := MatchPositions(rows, where, op)[k - 1], Remaining(rows, where, op, k);
      && p < |data| && p < |rows| && data[p] == rows[p]
      && data[..p] + data[p + 1..] == Remaining(rows, where, op, k - 1)
  {
    var ps := MatchPositions(rows, where, op);
    DeleteGap(rows, where, op, k);
    var p, lim := ps[k - 1], Limit(rows, ps, k);
    RejectFrom(rows, where, op, p, lim);
    SpliceOut(rows[..lim], Reject(rows[lim..], where, op), p);
    assert rows[..lim][..p] == rows[..p];
    assert rows[..lim][p + 1..] == rows[p + 1..lim];
  }

  /** Taking element `p` out of `a + r`, with `p` inside `a`. */
  lemma {:induction false} SpliceOut<T>(a: seq<T>, r: seq<T>, p: nat)
    requires p < |a|
    ensures (a + r)[p] == a[p]
    ensures (a + r)[..p] + (a + r)[p + 1..] == a[..p] + (a[p + 1..] + r)
  {
    assert (a + r)[..p] == a[..p];
    assert (a + r)[p + 1..] == a[p + 1..] + r;
  }

  /** Before the delete loop pops anything, the data is the rows. */
  lemma {:induction false} DeleteStart(rows: seq<Row>, where: map<string, Value>, op: Operator)
    ensures Remaining(rows, where, op, |MatchPositions(rows, where, op)|) == rows
  {
    assert rows[..|rows|] == rows;
    assert rows[|rows|..] == [];
  }

  /** When the delete loop has popped every match, the data is the unmatched rows. */
  lemma {:induction false} DeleteDone(rows: seq<Row>, where: map<string, Value>, op: Operator)
    ensures Remaining(rows, where, op, 0) == Reject(rows, where, op)
  {
    RejectBelowFirst(rows, where, op);
  }

  /** No row before the first match matches. */
  lemma {:induction false} BelowFirstUnmatched(rows: seq<Row>, where: map<string, Value>, op: Operator)
    ensures var lim := Limit(rows, MatchPositions(rows, where, op), 0);
      && 0 <= lim <= |rows|
      && forall j :: 0 <= j < lim ==> !RowMatches(rows[j], where, op)
  {
    var ps := MatchPositions(rows, where, op);
    MatchPositionsExact(rows, where, op);
    MatchPositionsBounded(rows, where, op);
    var lim := Limit(rows, ps, 0);
    forall j | 0 <= j < lim ensures !RowMatches(rows[j], where, op) {
      forall m | 0 <= m < |ps| ensures ps[m] != j {
        assert ps[m] >= ps[0];
      }
    }
  }

  /** The rows before the first match are kept whole by `Reject`. */
  lemma {:induction false} RejectBelowFirst(rows: seq<Row>, where: map<string, Value>, op: Operator)
    ensures var lim := Limit(rows, MatchPositions(rows, where, op), 0);
      0 <= lim <= |rows| && rows[..lim] + Reject(rows[lim..], where, op) == Reject(rows, where, op)
  {
    BelowFirstUnmatched(rows, where, op);
    var lim := Limit(rows, MatchPositions(rows, where, op), 0);
    var pre := rows[..lim];
    forall m | 0 <= m < |pre| ensures !RowMatches(pre[m], where, op) {
      assert pre[m] == rows[m];
    }
    RejectUnmatched(pre, where, op);
    assert rows == pre + rows[lim..];
    FilterAppend(pre, rows[lim..], where, op);
  }

  // ---------------------------------------------------------------------------------------
  // What insert promises

  lemma {:induction false} CheckColumnsFills(cols: seq<Column>, values: Row, nextId: int)
    ensures var ch := CheckColumns(cols, values, nextId);
      && values.Keys <= ch.row.Keys
      && (forall k :: k in values ==> ch.row[k] == values[k])
      && nextId <= ch.nextId
      && (forall k :: k in ch.row && k !in values ==>
            IsAutoKey(cols, k) && ch.row[k].VInt? && nextId <= ch.row[k].i < ch.nextId)
    decreases |cols|
  {
    if cols != [] {
      var c := cols[0];
      var fill := c.isPrimary && c.name !in values;
      if !(fill && c.dataType != INTEGER) {
        var vals := if fill then values[c.name := VInt(nextId)] else values;
        var next := if fill then nextId + 1 else nextId;
        if !(c.name in vals && !Validate(c, vals[c.name])) && !(c.name !in vals && !c.nullable) {
          CheckColumnsFills(cols[1..], vals, next);
          var ch := CheckColumns(cols, values, nextId);
          assert ch == CheckColumns(cols[1..], vals, next);
          forall k | k in ch.row && k !in values
            ensures IsAutoKey(cols, k) && ch.row[k].VInt? && nextId <= ch.row[k].i < ch.nextId
          {
            if k in vals {
              assert 0 < |cols| && cols[0].name == k;
            } else {
              var j :| 0 <= j < |cols[1..]| && cols[1..][j].name == k && cols[1..][j].isPrimary && cols[1..][j].dataType == INTEGER;
              assert cols[j + 1] == cols[1..][j];
            }
          }
        }
      }
    }
  }

  /** Some column absent from `values` holds the id `i` in `row`. */
  ghost predicate Issued(row: Row, values: Row, i: int)
  {
    exists k :: k in row && k !in values && row[k] == VInt(i)
  }

  /** Every id the counter advanced over was given to some column the caller left out. */
  lemma {:induction false} CheckColumnsIssues(cols: seq<Column>, values: Row, nextId: int)
    ensures var ch := CheckColumns(cols, values, nextId);
      forall i :: nextId <= i < ch.nextId ==> Issued(ch.row, values, i)
    decreases |cols|
  {
    if cols != [] {
      var c := cols[0];
      var fill := c.isPrimary && c.name !in values;
      if !(fill && c.dataType != INTEGER) {
        var vals := if fill then values[c.name := VInt(nextId)] else values;
        var next := if fill then nextId + 1 else nextId;
        var ch := CheckColumns(cols, values, nextId);
        if !(c.name in vals && !Validate(c, vals[c.name])) && !(c.name !in vals && !c.nullable) {
          CheckColumnsIssues(cols[1..], vals, next);
          CheckColumnsFills(cols[1..], vals, next);
          assert ch == CheckColumns(cols[1..], vals, next);
          forall i | nextId <= i < ch.nextId ensures Issued(ch.row, values, i) {
            if i == nextId && fill {
              assert c.name in ch.row && c.name !in values && ch.row[c.name] == VInt(i);
            } else {
              assert Issued(ch.row, vals, i);
              var k :| k in ch.row && k !in vals && ch.row[k] == VInt(i);
              assert k !in values;
            }
          }
        }
      }
    }
  }

  /** The row values `insert` checks satisfy every column it returns successfully for: a
      successful check means every column conforms. */
  lemma {:induction false} CheckColumnsSound(cols: seq<Column>, values: Row, nextId: int)
    requires NamesDistinct(cols)
    ensures var ch := CheckColumns(cols, values, nextId);
      ch.failure.None? ==> forall k :: 0 <= k < |cols| ==> Conforms(cols[k], ch.row)
    decreases |cols|
  {
    var ch := CheckColumns(cols, values, nextId);
    if cols != [] && ch.failure.None? {
      var c := cols[0];
      var fill := c.isPrimary && c.name !in values;
      var vals := if fill then values[c.name := VInt(nextId)] else values;
      var next := if fill then nextId + 1 else nextId;
      assert ch == CheckColumns(cols[1..], vals, next);
      assert NamesDistinct(cols[1..]);
      CheckColumnsSound(cols[1..], vals, next);
      CheckColumnsFills(cols[1..], vals, next);
      assert Conforms(c, vals);
      forall j | 0 <= j < |cols[1..]| ensures cols[1..][j].name != c.name {
        assert cols[1..][j] == cols[j + 1];
      }
      assert !IsAutoKey(cols[1..], c.name);
      assert Conforms(c, ch.row);
      forall k | 0 <= k < |cols| ensures Conforms(cols[k], ch.row) {
        if k > 0 {
          assert cols[k] == cols[1..][k - 1];
        }
      }
    }
  }

  /** Values that already satisfy every column pass unchanged, and no key is drawn. */
  lemma {:induction false} CheckColumnsComplete(cols: seq<Column>, values: Row, nextId: int)
    requires forall k :: 0 <= k < |cols| ==> Conforms(cols[k], values)
    ensures CheckColumns(cols, values, nextId) == Checked(values, nextId, None)
    decreases |cols|
  {
    if cols != [] {
      assert Conforms(cols[0], values);
      forall k | 0 <= k < |cols[1..]| ensures Conforms(cols[1..][k], values) {
        assert cols[1..][k] == cols[k + 1];
      }
      CheckColumnsComplete(cols[1..], values, nextId);
    }
  }

  /** A failing check names a column for which `insert` raises that error, and every column
      before it conforms. */
  lemma {:induction false} CheckColumnsFailure(cols: seq<Column>, values: Row, nextId: int)
    requires NamesDistinct(cols)
    ensures var ch := CheckColumns(cols, values, nextId);
      ch.failure.Some? ==> exists k :: 0 <= k < |cols| && Fails(cols[k], ch.row, ch.failure.value)
    decreases |cols|
  {
    var ch := CheckColumns(cols, values, nextId);
    if cols != [] && ch.failure.Some? {
      var c := cols[0];
      var fill := c.isPrimary && c.name !in values;
      if fill && c.dataType != INTEGER {
        assert Fails(cols[0], ch.row, ch.failure.value);
      } else {
        var vals := if fill then values[c.name := VInt(nextId)] else values;
        var next := if fill then nextId + 1 else nextId;
        if c.name in vals && !Validate(c, vals[c.name]) {
          assert Fails(cols[0], ch.row, ch.failure.value);
        } else if c.name !in vals && !c.nullable {
          assert Fails(cols[0], ch.row, ch.failure.value);
        } else {
          assert NamesDistinct(cols[1..]);
          CheckColumnsFailure(cols[1..], vals, next);
          var j :| 0 <= j < |cols[1..]| && Fails(cols[1..][j], ch.row, ch.failure.value);
          assert cols[j + 1] == cols[1..][j];
        }
      }
    }
  }

  /** With a single INTEGER primary key and the key omitted, a successful check fills exactly
      that key with the old counter and advances the counter by exactly one. */
  lemma {:induction false} AutoIdSinglePrimary(cols: seq<Column>, values: Row, nextId: int, p: nat)
    requires NamesDistinct(cols)
    requires p < |cols| && cols[p].isPrimary && cols[p].dataType == INTEGER && cols[p].name !in values
    requires forall k :: 0 <= k < |cols| && cols[k].isPrimary ==> k == p
    ensures var ch := CheckColumns(cols, values, nextId);
      ch.failure.None? ==> ch.row == values[cols[p].name := VInt(nextId)] && ch.nextId == nextId + 1
  {
    var ch := CheckColumns(cols, values, nextId);
    if ch.failure.None? {
      CheckColumnsFills(cols, values, nextId);
      CheckColumnsIssues(cols, values, nextId);
      CheckColumnsSound(cols, values, nextId);
      var key := cols[p].name;
      assert Conforms(cols[p], ch.row);
      forall k | k in ch.row && k !in values ensures k == key {
        var j :| 0 <= j < |cols| && cols[j].name == k && cols[j].isPrimary && cols[j].dataType == INTEGER;
        assert j == p;
      }
      assert ch.row[key].VInt? && nextId <= ch.row[key].i < ch.nextId;
      assert Issued(ch.row, values, nextId);
      var k0 :| k0 in ch.row && k0 !in values && ch.row[k0] == VInt(nextId);
      assert k0 == key;
      assert Issued(ch.row, values, ch.nextId - 1);
      var k1 :| k1 in ch.row && k1 !in values && ch.row[k1] == VInt(ch.nextId - 1);
      assert k1 == key;
      assert ch.row == values[key := VInt(nextId)];
    }
  }

  /** No UNIQUE clash is reported exactly when no UNIQUE column of the new row clashes, and a
      reported column is a UNIQUE column of the row that clashes. */
  lemma {:induction false} DuplicateColumnIff(cols: seq<Column>, data: seq<Row>, row: Row)
    ensures DuplicateColumn(cols, data, row).None? <==>
      forall k :: 0 <= k < |cols| && cols[k].isUnique && cols[k].name in row ==> !Clashes(data, cols[k].name, row[cols[k].name])
    ensures DuplicateColumn(cols, data, row).Some? ==>
      var c := DuplicateColumn(cols, data, row).value;
      exists k :: 0 <= k < |cols| && cols[k].name == c && cols[k].isUnique && c in row && Clashes(data, c, row[c])
    decreases |cols|
  {
    if cols != [] {
      DuplicateColumnIff(cols[1..], data, row);
      forall k | 0 < k < |cols| ensures cols[k] == cols[1..][k - 1] {
      }
      if DuplicateColumn(cols, data, row) != DuplicateColumn(cols[1..], data, row) {
        assert DuplicateColumn(cols, data, row) == Some(cols[0].name);
      }
    }
  }

  /** Appending a row the UNIQUE check accepted keeps the UNIQUE invariant. */
  lemma {:induction false} InsertKeepsUnique(cols: seq<Column>, data: seq<Row>, row: Row)
    requires UniqueHolds(cols, data)
    requires DuplicateColumn(cols, data, row).None?
    ensures UniqueHolds(cols, data + [row])
  {
    DuplicateColumnIff(cols, data, row);
    var d := data + [row];
    forall i, j, k | 0 <= i < j < |d| && 0 <= k < |cols| && cols[k].isUnique && cols[k].name in d[j]
      ensures !PyEq(Get(d[i], cols[k].name), d[j][cols[k].name])
    {
      if j == |data| {
        assert d[i] == data[i];
        assert !Clashes(data, cols[k].name, row[cols[k].name]);
      } else {
        assert d[i] == data[i] && d[j] == data[j];
      }
    }
  }

  /** Under the UNIQUE invariant, two distinct stored rows that both have a UNIQUE column hold
      values that are not Python-equal. */
  lemma {:induction false} UniqueMeansDistinct(cols: seq<Column>, data: seq<Row>, i: nat, j: nat, k: nat)
    requires UniqueHolds(cols, data)
    requires i < |data| && j < |data| && i != j && k < |cols| && cols[k].isUnique
    requires cols[k].name in data[i] && cols[k].name in data[j]
    ensures !PyEq(data[i][cols[k].name], data[j][cols[k].name])
  {
    var c := cols[k].name;
    PyEqIsEquivalence(data[i][c], data[j][c], data[j][c]);
    if i < j {
      assert !PyEq(Get(data[i], c), data[j][c]);
    } else {
      assert !PyEq(Get(data[j], c), data[i][c]);
    }
  }

  /** The UNIQUE check compares with `row.get`, so an explicit NULL clashes with any stored row
      that lacks the column. */
  lemma {:induction false} NullClashesWithMissing(cols: seq<Column>, data: seq<Row>, row: Row, k: nat, j: nat)
    requires k < |cols| && cols[k].isUnique && cols[k].name in row && row[cols[k].name] == VNull
    requires j < |data| && cols[k].name !in data[j]
    requires forall m :: 0 <= m < k ==> !(cols[m].isUnique && cols[m].name in row && Clashes(data, cols[m].name, row[cols[m].name]))
    ensures DuplicateColumn(cols, data, row) == Some(cols[k].name)
  {
    assert PyEq(Get(data[j], cols[k].name), VNull);
    DuplicateColumnPrefix(cols, data, row, k);
  }

  lemma {:induction false} DuplicateColumnPrefix(cols: seq<Column>, data: seq<Row>, row: Row, k: nat)
    requires k < |cols| && cols[k].isUnique && cols[k].name in row && Clashes(data, cols[k].name, row[cols[k].name])
    requires forall m :: 0 <= m < k ==> !(cols[m].isUnique && cols[m].name in row && Clashes(data, cols[m].name, row[cols[m].name]))
    ensures DuplicateColumn(cols, data, row) == Some(cols[k].name)
    decreases k
  {
    if k > 0 {
      forall m | 0 <= m < k - 1 ensures cols[1..][m] == cols[m + 1] {
      }
      DuplicateColumnPrefix(cols[1..], data, row, k - 1);
    }
  }

  /** Deleting keeps the UNIQUE invariant: the survivors keep their relative order. */
  lemma {:induction false} DeleteKeepsUnique(cols: seq<Column>, data: seq<Row>, where: map<string, Value>, op: Operator)
    requires UniqueHolds(cols, data)
    ensures UniqueHolds(cols, Reject(data, where, op))
    decreases |data|
  {
    if data != [] {
      var init := data[..|data| - 1];
      var last := data[|data| - 1];
      assert UniqueHolds(cols, init) by {
        forall i, j, k | 0 <= i < j < |init| && 0 <= k < |cols| && cols[k].isUnique && cols[k].name in init[j]
          ensures !PyEq(Get(init[i], cols[k].name), init[j][cols[k].name])
        {
          assert init[i] == data[i] && init[j] == data[j];
        }
      }
      DeleteKeepsUnique(cols, init, where, op);
      if !RowMatches(last, where, op) {
        var r := Reject(init, where, op);
        var d := r + [last];
        assert Reject(data, where, op) == d;
        forall i, j, k | 0 <= i < j < |d| && 0 <= k < |cols| && cols[k].isUnique && cols[k].name in d[j]
          ensures !PyEq(Get(d[i], cols[k].name), d[j][cols[k].name])
        {
          if j == |r| {
            RejectMembers(init, where, op, r[i]);
            var m :| 0 <= m < |init| && init[m] == r[i];
            assert data[m] == d[i] && data[|data| - 1] == d[j];
          } else {
            assert d[i] == r[i] && d[j] == r[j];
          }
        }
      }
    }
  }

  lemma {:induction false} RejectMembers(rows: seq<Row>, where: map<string, Value>, op: Operator, r: Row)
    ensures r in Reject(rows, where, op) ==> r in rows
    decreases |rows|
  {
    if rows != [] {
      RejectMembers(rows[..|rows| - 1], where, op, r);
      assert rows == rows[..|rows| - 1] + [rows[|rows| - 1]];
    }
  }

  /** After a successful insert, selecting by any part of the new row finds it, last. */
  lemma {:induction false} InsertThenSelect(data: seq<Row>, row: Row, where: map<string, Value>)
    requires forall k :: k in where ==> k in row && where[k] == row[k]
    ensures var found := Filter(data + [row], where, Eq);
      found == Filter(data, where, Eq) + [row]
  {
    forall k | k in where ensures k in row && KeyMatches(row[k], where[k], Eq) {
      PyEqIsEquivalence(row[k], row[k], row[k]);
    }
    assert (data + [row])[..|data + [row]| - 1] == data;
  }

  // ---------------------------------------------------------------------------------------
  // What update promises

  /** Matching rows get every assignment and keep their other keys; other rows are unchanged. */
  lemma {:induction false} UpdatedRowsEffect(rows: seq<Row>, setValues: Row, where: map<string, Value>, op: Operator, k: nat)
    requires k < |rows|
    ensures var r := UpdatedRows(rows, setValues, where, op);
      && (!RowMatches(rows[k], where, op) ==> r[k] == rows[k])
      && (RowMatches(rows[k], where, op) ==>
            && r[k].Keys == rows[k].Keys + setValues.Keys
            && (forall c :: c in setValues ==> r[k][c] == setValues[c])
            && (forall c :: c in rows[k] && c !in setValues ==> r[k][c] == rows[k][c]))
  {
  }

  /** When the assignments do not touch the where-keys, updating twice is updating once. */
  lemma {:induction false} UpdateIdempotent(rows: seq<Row>, setValues: Row, where: map<string, Value>, op: Operator)
    requires setValues.Keys !! where.Keys
    ensures UpdatedRows(UpdatedRows(rows, setValues, where, op), setValues, where, op) == UpdatedRows(rows, setValues, where, op)
  {
    var once := UpdatedRows(rows, setValues, where, op);
    forall k | 0 <= k < |rows| ensures UpdatedRow(once[k], setValues, where, op) == once[k] {
      if RowMatches(rows[k], where, op) {
        var u := rows[k] + setValues;
        forall c | c in where ensures c in u && u[c] == rows[k][c] {
        }
        assert RowMatches(u, where, op);
        assert u + setValues == u;
      }
    }
  }

  /** Replacing one row moves only that position in or out of a scan's result. */
  lemma {:induction false} PositionsReplace(rows: seq<Row>, i: nat, row: Row, col: string, v: Value)
    requires i < |rows|
    ensures Positions(rows[i := row], col, v) == (Positions(rows, col, v) - {i}) + Contribution(i, row, col, v)
    ensures Positions(rows, col, v) * {i} == Contribution(i, rows[i], col, v)
  {
    var after := rows[i := row];
    forall j ensures j in Positions(after, col, v) <==> j in (Positions(rows, col, v) - {i}) + Contribution(i, row, col, v) {
      if 0 <= j < |rows| && j != i {
        assert after[j] == rows[j];
      }
    }
  }

  /** Re-filing the row at `i` as `row` keeps one search result equal to the scan's. */
  lemma {:induction false} RefiledAt(idx: IndexMap, rows: seq<Row>, i: nat, row: Row, col: string, v: Value)
    requires i < |rows| && Lookup(idx, col, v) == Positions(rows, col, v)
    ensures Lookup(Added(Removed(idx, i, rows[i]), i, row), col, v) == Positions(rows[i := row], col, v)
  {
    LookupRemoved(idx, i, rows[i], col, v);
    LookupAdded(Removed(idx, i, rows[i]), i, row, col, v);
    PositionsReplace(rows, i, row, col, v);
  }

  /** One re-filing step keeps an index consistent with the rows, updated so far. */
  lemma {:induction false} RefileStep(idx: IndexMap, rows: seq<Row>, i: nat, setValues: Row, where: map<string, Value>, op: Operator, col: string)
    requires i < |rows|
    requires Consistent(idx, PartlyUpdated(rows, i, setValues, where, op), col)
    ensures var next := if RowMatches(rows[i], where, op) then Added(Removed(idx, i, rows[i]), i, rows[i] + setValues) else idx;
      Consistent(next, PartlyUpdated(rows, i + 1, setValues, where, op), col)
  {
    var before := PartlyUpdated(rows, i, setValues, where, op);
    var after := PartlyUpdated(rows, i + 1, setValues, where, op);
    if RowMatches(rows[i], where, op) {
      var next := Added(Removed(idx, i, rows[i]), i, rows[i] + setValues);
      assert after == before[i := rows[i] + setValues];
      forall v ensures Lookup(next, col, v) == Positions(after, col, v) {
        RefiledAt(idx, before, i, rows[i] + setValues, col, v);
      }
    } else {
      assert after == before;
    }
  }

  /** The same step, stated on the index state `Reindexed` gives after `i` rows. */
  lemma {:induction false} ReindexStep(idx0: IndexMap, rows: seq<Row>, i: nat, setValues: Row, where: map<string, Value>, op: Operator, col: string)
    requires i < |rows|
    requires Consistent(Reindexed(idx0, rows, i, setValues, where, op), PartlyUpdated(rows, i, setValues, where, op), col)
    ensures Consistent(Reindexed(idx0, rows, i + 1, setValues, where, op), PartlyUpdated(rows, i + 1, setValues, where, op), col)
  {
    RefileStep(Reindexed(idx0, rows, i, setValues, where, op), rows, i, setValues, where, op, col);
  }

  /** `update` keeps every index consistent, on its column, with the rows updated so far. */
  lemma {:induction false} UpdateKeepsConsistent(idx: IndexMap, rows: seq<Row>, i: nat, setValues: Row, where: map<string, Value>, op: Operator, col: string)
    requires i <= |rows|
    requires Consistent(idx, rows, col)
    ensures Consistent(Reindexed(idx, rows, i, setValues, where, op), PartlyUpdated(rows, i, setValues, where, op), col)
  {
    if i == 0 {
      PartlyUpdatedEnds(rows, setValues, where, op);
    } else {
      UpdateKeepsConsistent(idx, rows, i - 1, setValues, where, op, col);
      ReindexStep(idx, rows, i - 1, setValues, where, op, col);
    }
  }

  /** After `update`, an index consistent with the old rows is consistent with the new ones. */
  lemma {:induction false} UpdateKeepsConsistentAll(idx: IndexMap, rows: seq<Row>, setValues: Row, where: map<string, Value>, op: Operator, col: string)
    requires Consistent(idx, rows, col)
    ensures Consistent(Reindexed(idx, rows, |rows|, setValues, where, op), UpdatedRows(rows, setValues, where, op), col)
  {
    UpdateKeepsConsistent(idx, rows, |rows|, setValues, where, op, col);
    PartlyUpdatedEnds(rows, setValues, where, op);
  }

  // ---------------------------------------------------------------------------------------
  // What the index promises through insert, create_index and delete

  /** Appending a row adds at most its own position to a scan's result. */
  lemma {:induction false} PositionsAppend(rows: seq<Row>, row: Row, col: string, v: Value)
    ensures Positions(rows + [row], col, v) == Positions(rows, col, v) + Contribution(|rows|, row, col, v)
  {
    var d := rows + [row];
    forall j ensures j in Positions(d, col, v) <==> j in Positions(rows, col, v) + Contribution(|rows|, row, col, v) {
      if 0 <= j < |rows| {
        assert d[j] == rows[j];
      }
    }
  }

  /** Filing a row as it is appended keeps an index consistent on a column; the filed row only
      needs to agree with the stored one on that column. */
  lemma {:induction false} ConsistentAppend(idx: IndexMap, rows: seq<Row>, filed: Row, row: Row, col: string)
    requires Consistent(idx, rows, col)
    requires (col in filed <==> col in row) && (col in row ==> filed[col] == row[col])
    ensures Consistent(Added(idx, |rows|, filed), rows + [row], col)
  {
    forall v ensures Lookup(Added(idx, |rows|, filed), col, v) == Positions(rows + [row], col, v) {
      LookupAdded(idx, |rows|, filed, col, v);
      PositionsAppend(rows, row, col, v);
      assert Lookup(idx, col, v) == Positions(rows, col, v);
    }
  }

  /** Appending a row without the column changes nothing the index must answer. */
  lemma {:induction false} ConsistentAppendMissing(idx: IndexMap, rows: seq<Row>, row: Row, col: string)
    requires Consistent(idx, rows, col) && col !in row
    ensures Consistent(idx, rows + [row], col)
  {
    forall v ensures Lookup(idx, col, v) == Positions(rows + [row], col, v) {
      PositionsAppend(rows, row, col, v);
      assert Lookup(idx, col, v) == Positions(rows, col, v);
    }
  }

  /** Every position the index files under a value of the column is a row with that key. */
  ghost predicate Sound(idx: IndexMap, rows: seq<Row>, col: string)
  {
    forall v :: Lookup(idx, col, v) <= Positions(rows, col, v)
  }

  /** Removing rows from an index never adds a position to a search result. */
  lemma {:induction false} UnindexedShrinks(idx: IndexMap, rows: seq<Row>, ps: seq<nat>, k: nat, col: string, v: Value)
    ensures Lookup(Unindexed(idx, rows, ps, k), col, v) <= Lookup(idx, col, v)
    decreases |ps| - k
  {
    if k < |ps| {
      UnindexedShrinks(idx, rows, ps, k + 1, col, v);
      if ps[k] < |rows| {
        LookupRemoved(Unindexed(idx, rows, ps, k + 1), ps[k], rows[ps[k]], col, v);
      }
    }
  }

  /** After `delete`, an index that was sound for the old rows keeps every position it had
      except the deleted ones: it is not re-keyed to the new positions of the survivors. */
  lemma {:induction false} UnindexedLookup(idx: IndexMap, rows: seq<Row>, ps: seq<nat>, k: nat, col: string, v: Value)
    requires Sound(idx, rows, col)
    requires k <= |ps| && forall j :: 0 <= j < |ps| ==> ps[j] < |rows|
    ensures Lookup(Unindexed(idx, rows, ps, k), col, v) == Lookup(idx, col, v) - PositionSet(ps[k..])
    decreases |ps| - k
  {
    if k < |ps| {
      var later := Unindexed(idx, rows, ps, k + 1);
      var p := ps[k];
      UnindexedLookup(idx, rows, ps, k + 1, col, v);
      UnindexedShrinks(idx, rows, ps, k + 1, col, v);
      LookupRemoved(later, p, rows[p], col, v);
      assert Lookup(idx, col, v) <= Positions(rows, col, v);
      assert ps[k..] == [p] + ps[k + 1..];
      PositionSetCons(ps[k..]);
    } else {
      assert ps[k..] == [];
    }
  }

  /** Concretely: two rows indexed on `a`, delete the first, and the index still files the
      survivor under position 1 although the table now holds a single row. */
  lemma {:induction false} DeleteLeavesStaleIndex(idx: IndexMap)
    requires Consistent(idx, [map["a" := VInt(1)], map["a" := VInt(2)]], "a")
    ensures var rows: seq<Row> := [map["a" := VInt(1)], map["a" := VInt(2)]];
      var where := map["a" := VInt(1)];
      && Reject(rows, where, Eq) == [map["a" := VInt(2)]]
      && 1 in Lookup(Unindexed(idx, rows, MatchPositions(rows, where, Eq), 0), "a", VInt(2))
  {
    var rows: seq<Row> := [map["a" := VInt(1)], map["a" := VInt(2)]];
    var where := map["a" := VInt(1)];
    assert RowMatches(rows[0], where, Eq);
    assert !KeyMatches(rows[1]["a"], where["a"], Eq);
    assert !RowMatches(rows[1], where, Eq);
    assert rows[..1] == [rows[0]];
    assert MatchPositions(rows, where, Eq) == [0];
    assert Lookup(idx, "a", VInt(2)) == Positions(rows, "a", VInt(2));
    assert 1 in Positions(rows, "a", VInt(2));
    assert Sound(idx, rows, "a");
    UnindexedLookup(idx, rows, [0], 0, "a", VInt(2));
    assert [0][0..] == [0];
  }
}
