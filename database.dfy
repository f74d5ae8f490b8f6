/**
 * `Database` (core/database.py): the registry of tables, the schema metadata it saves, and
 * `execute_parsed_query`, which runs a parsed command against the tables, including the
 * nested-loop JOIN of a SELECT. The join is specified by functions over row sequences; the
 * class method that builds it follows the source's loops and is proved to return the same.
 */
module Databases {
  import opened Outcomes
  import opened Values
  import opened Text
  import opened Schema
  import opened Matching
  import opened Index
  import opened Tables
  import opened SqlScan
  import opened SqlClauses
  import opened SqlParser

  // ---------------------------------------------------------------------------------------
  // create_table: the primary-key count

  /** How many of the columns are primary keys. */
  function PrimaryCount(cols: seq<Column>): (n: nat)
    ensures n <= |cols|
  {
    if cols == [] then 0
    else PrimaryCount(cols[..|cols| - 1]) + (if cols[|cols| - 1].isPrimary then 1 else 0)
  }

  predicate NoPrimary(cols: seq<Column>)
  {
    forall k :: 0 <= k < |cols| ==> !cols[k].isPrimary
  }

  predicate AtMostOnePrimary(cols: seq<Column>)
  {
    forall j, k :: 0 <= j < k < |cols| && cols[j].isPrimary ==> !cols[k].isPrimary
  }

  lemma {:induction false} PrimaryCountZero(cols: seq<Column>)
    ensures PrimaryCount(cols) == 0 <==> NoPrimary(cols)
    decreases |cols|
  {
    if cols != [] {
      var init := cols[..|cols| - 1];
      PrimaryCountZero(init);
      assert forall k :: 0 <= k < |init| ==> init[k] == cols[k];
    }
  }

  /** `create_table` accepts a column list exactly when no two of its columns are primary. */
  lemma {:induction false} PrimaryCountAtMostOne(cols: seq<Column>)
    ensures PrimaryCount(cols) <= 1 <==> AtMostOnePrimary(cols)
    decreases |cols|
  {
    if cols != [] {
      var init, last := cols[..|cols| - 1], cols[|cols| - 1];
      PrimaryCountAtMostOne(init);
      PrimaryCountZero(init);
      assert forall k :: 0 <= k < |init| ==> init[k] == cols[k];
      if PrimaryCount(init) >= 2 {
        var j, k :| 0 <= j < k < |init| && init[j].isPrimary && init[k].isPrimary;
        assert cols[j].isPrimary && cols[k].isPrimary;
      } else if PrimaryCount(init) == 1 && last.isPrimary {
        var j :| 0 <= j < |init| && init[j].isPrimary;
        assert cols[j].isPrimary && cols[|cols| - 1].isPrimary;
      }
    }
  }

  /** `execute_parsed_query` rebuilds each parsed column with `data_type.upper()`. */
  function UpperTypes(cols: seq<Column>): (r: seq<Column>)
    ensures |r| == |cols|
  {
    seq(|cols|, k requires 0 <= k < |cols| => cols[k].(dataType := Upper(cols[k].dataType)))
  }

  lemma {:induction false} UpperTwice(s: string)
    ensures Upper(Upper(s)) == Upper(s)
  {
  }

  /** The parser already upper-cases the types it reads, so the rebuild changes nothing. */
  lemma {:induction false} UpperTypesOfParsed(body: string)
    ensures UpperTypes(TableColumns(body)) == TableColumns(body)
  {
    var cs := TableColumns(body);
    forall k | 0 <= k < |cs| ensures UpperTypes(cs)[k] == cs[k] {
      var d := DefinitionItems(body)[k];
      DefinitionItemsUnpadded(body);
      UnpaddedStrip(d);
      ColumnDefinitionUpper(d);
    }
  }

  lemma {:induction false} ColumnDefinitionUpper(d: string)
    requires Strip(d) != []
    ensures Upper(ColumnDefinition(d).dataType) == ColumnDefinition(d).dataType
  {
    var parts := Tokens(Strip(d));
    if |parts| > 1 {
      UpperTwice(parts[1]);
    } else {
      assert Upper(TEXT) == TEXT;
    }
  }

  // ---------------------------------------------------------------------------------------
  // Metadata

  /** What `save_metadata` writes: each table's `to_dict` column records, in column order. */
  type Metadata = map<string, seq<ColumnRecord>>

  function Records(cols: seq<Column>): (rs: seq<ColumnRecord>)
    ensures |rs| == |cols|
  {
    seq(|cols|, k requires 0 <= k < |cols| => ToDict(cols[k]))
  }

  /** Every stored record decoded into a column, or `None` when a record lacks `name` or
      `data_type`. */
  function Decoded(rs: seq<ColumnRecord>): (r: Option<seq<Column>>)
    ensures r.Some? ==> |r.value| == |rs|
    ensures r.Some? ==> forall k :: 0 <= k < |rs| ==> FromDict(rs[k]) == Some(r.value[k])
    ensures r.None? ==> exists k :: 0 <= k < |rs| && FromDict(rs[k]).None?
    decreases |rs|
  {
    if rs == [] then Some([])
    else
      var init := Decoded(rs[..|rs| - 1]);
      var last := FromDict(rs[|rs| - 1]);
      if init.Some? && last.Some? then Some(init.value + [last.value]) else None
  }

  /** The schema a table saves reads back as the same column list. */
  lemma {:induction false} DecodedRecords(cols: seq<Column>)
    ensures Decoded(Records(cols)) == Some(cols)
    decreases |cols|
  {
    if cols != [] {
      var init, last := cols[..|cols| - 1], cols[|cols| - 1];
      DecodedRecords(init);
      var rs := Records(cols);
      assert rs[..|rs| - 1] == Records(init);
      FromDictToDict(last);
      assert init + [last] == cols;
    }
  }

  // ---------------------------------------------------------------------------------------
  // JOIN

  /** The right row with every key qualified by the joined table's name and a dot. */
  function Prefixed(table: string, row: Row): Row
  {
    map p | p in PrefixedKeys(table, row.Keys) :: row[p[|table| + 1..]]
  }

  function PrefixedKeys(table: string, keys: set<string>): set<string>
  {
    set k | k in keys :: table + "." + k
  }

  /** The right row's entry for `k` is found under `<table>.<k>`, and under no other name. */
  lemma {:induction false} PrefixedEntries(table: string, row: Row)
    ensures forall k :: k in row ==>
      table + "." + k in Prefixed(table, row) && Prefixed(table, row)[table + "." + k] == row[k]
    ensures forall p :: p in Prefixed(table, row) ==> exists k :: k in row && p == table + "." + k
  {
    forall k | k in row
      ensures table + "." + k in Prefixed(table, row) && Prefixed(table, row)[table + "." + k] == row[k]
    {
      assert (table + "." + k)[|table| + 1..] == k;
    }
  }

  /** `left_row.copy()` updated with the prefixed right row: right-hand entries win. */
  function Merged(left: Row, table: string, right: Row): Row
  {
    left + Prefixed(table, right)
  }

  /** `<table>.<col>` for every column of the joined table. */
  function ColumnKeys(table: string, cols: seq<Column>): set<string>
  {
    set k | 0 <= k < |cols| :: table + "." + cols[k].name
  }

  /** The entries the LEFT join sets to `None` for an unmatched left row. */
  function NullColumns(table: string, cols: seq<Column>): Row
  {
    map p | p in ColumnKeys(table, cols) :: VNull
  }

  lemma {:induction false} NullColumnsStep(table: string, cols: seq<Column>, k: nat)
    requires k < |cols|
    ensures NullColumns(table, cols[..k + 1]) == NullColumns(table, cols[..k])[table + "." + cols[k].name := VNull]
  {
    var a, b := cols[..k + 1], cols[..k];
    assert forall q :: 0 <= q < k ==> a[q] == b[q];
    assert a[k] == cols[k];
    assert ColumnKeys(table, a) == ColumnKeys(table, b) + {table + "." + cols[k].name};
  }

  /** Setting an entry after a merge is setting it in the merged-in row. */
  lemma {:induction false} MergeThenSet(left: Row, right: Row, key: string, v: Value)
    ensures (left + right)[key := v] == left + right[key := v]
  {
    var a, b := (left + right)[key := v], left + right[key := v];
    assert a.Keys == b.Keys;
    forall p | p in a ensures a[p] == b[p] {
    }
  }

  /** The rows of the joined table whose right column equals the left row's left column (`None`
      when the left row lacks it), selected with `=`. */
  function Probe(right: seq<Row>, j: JoinSpec, left: Row): seq<Row>
  {
    Filter(right, map[j.rightColumn := Get(left, j.leftColumn)], Eq)
  }

  function MergedAll(left: Row, table: string, matches: seq<Row>): (r: seq<Row>)
    ensures |r| == |matches|
  {
    seq(|matches|, k requires 0 <= k < |matches| => Merged(left, table, matches[k]))
  }

  /** What one left row contributes: a merged row per match for INNER and LEFT, the null-filled
      row for an unmatched one under LEFT, and nothing for any other join type. */
  function JoinedRow(left: Row, matches: seq<Row>, j: JoinSpec, table: string, cols: seq<Column>): seq<Row>
  {
    match j.kind
    case Inner => MergedAll(left, table, matches)
    case LeftOuter => if matches != [] then MergedAll(left, table, matches) else [left + NullColumns(table, cols)]
    case OtherJoin(_) => []
  }

  /** `f` applied to each element in turn, the results concatenated in order. */
  function FlatMap(xs: seq<Row>, f: Row -> seq<Row>): seq<Row>
    decreases |xs|
  {
    if xs == [] then [] else FlatMap(xs[..|xs| - 1], f) + f(xs[|xs| - 1])
  }

  lemma {:induction false} FlatMapSnoc(xs: seq<Row>, x: Row, f: Row -> seq<Row>)
    ensures FlatMap(xs + [x], f) == FlatMap(xs, f) + f(x)
  {
    var s := xs + [x];
    assert s[..|s| - 1] == xs && s[|s| - 1] == x;
  }

  lemma {:induction false} FlatMapConcat(a: seq<Row>, b: seq<Row>, f: Row -> seq<Row>)
    ensures FlatMap(a + b, f) == FlatMap(a, f) + FlatMap(b, f)
    decreases |b|
  {
    if b == [] {
      assert a + b == a;
    } else {
      var init, x := b[..|b| - 1], b[|b| - 1];
      assert b == init + [x];
      assert a + b == (a + init) + [x];
      calc {
        FlatMap(a + b, f);
        { FlatMapSnoc(a + init, x, f); }
        FlatMap(a + init, f) + f(x);
        { FlatMapConcat(a, init, f); }
        FlatMap(a, f) + FlatMap(init, f) + f(x);
        { FlatMapSnoc(init, x, f); }
        FlatMap(a, f) + FlatMap(b, f);
      }
    }
  }

  /** What each left row contributes, as a function of the left row. */
  function Contribution(right: seq<Row>, j: JoinSpec, table: string, cols: seq<Column>): Row -> seq<Row>
  {
    left => JoinedRow(left, Probe(right, j, left), j, table, cols)
  }

  /** The join's output: each left row's contribution, in the order of the left rows. */
  function Joined(lefts: seq<Row>, right: seq<Row>, j: JoinSpec, table: string, cols: seq<Column>): seq<Row>
  {
    FlatMap(lefts, Contribution(right, j, table, cols))
  }

  /** The output of a concatenation of left rows is the concatenation of their outputs. */
  lemma {:induction false} JoinedConcat(a: seq<Row>, b: seq<Row>, right: seq<Row>, j: JoinSpec, table: string, cols: seq<Column>)
    ensures Joined(a + b, right, j, table, cols) == Joined(a, right, j, table, cols) + Joined(b, right, j, table, cols)
  {
    FlatMapConcat(a, b, Contribution(right, j, table, cols));
  }

  /** One unfolding of `Joined`, on a non-empty list. */
  lemma {:induction false} JoinedLast(lefts: seq<Row>, right: seq<Row>, j: JoinSpec, table: string, cols: seq<Column>)
    requires lefts != []
    ensures Joined(lefts, right, j, table, cols)
         == Joined(lefts[..|lefts| - 1], right, j, table, cols)
            + JoinedRow(lefts[|lefts| - 1], Probe(right, j, lefts[|lefts| - 1]), j, table, cols)
  {
  }

  /** One more left row appends its contribution. */
  lemma {:induction false} JoinedPrefix(lefts: seq<Row>, i: nat, right: seq<Row>, j: JoinSpec, table: string, cols: seq<Column>)
    requires i < |lefts|
    ensures Joined(lefts[..i + 1], right, j, table, cols)
         == Joined(lefts[..i], right, j, table, cols) + JoinedRow(lefts[i], Probe(right, j, lefts[i]), j, table, cols)
  {
    assert lefts[..i + 1] == lefts[..i] + [lefts[i]];
    FlatMapSnoc(lefts[..i], lefts[i], Contribution(right, j, table, cols));
  }

  /** The output splits at any left row into what precedes it, its own contribution and what
      follows it. */
  lemma {:induction false} JoinedAt(lefts: seq<Row>, i: nat, right: seq<Row>, j: JoinSpec, table: string, cols: seq<Column>)
    requires i < |lefts|
    ensures Joined(lefts, right, j, table, cols)
         == Joined(lefts[..i], right, j, table, cols)
            + JoinedRow(lefts[i], Probe(right, j, lefts[i]), j, table, cols)
            + Joined(lefts[i + 1..], right, j, table, cols)
  {
    assert lefts == lefts[..i] + [lefts[i]] + lefts[i + 1..];
    JoinedConcat(lefts[..i] + [lefts[i]], lefts[i + 1..], right, j, table, cols);
    JoinedConcat(lefts[..i], [lefts[i]], right, j, table, cols);
    assert ([] + [lefts[i]])[..0] == [];
  }

  /** INNER: a left row without a match contributes nothing. */
  lemma {:induction false} InnerDropsUnmatched(lefts: seq<Row>, i: nat, right: seq<Row>, j: JoinSpec, table: string, cols: seq<Column>)
    requires i < |lefts| && j.kind == Inner && Probe(right, j, lefts[i]) == []
    ensures Joined(lefts, right, j, table, cols)
         == Joined(lefts[..i], right, j, table, cols) + Joined(lefts[i + 1..], right, j, table, cols)
  {
    JoinedAt(lefts, i, right, j, table, cols);
  }

  /** LEFT: a left row without a match appears once, with every column of the joined table
      set to `None` and its own other entries kept. */
  lemma {:induction false} LeftKeepsUnmatched(lefts: seq<Row>, i: nat, right: seq<Row>, j: JoinSpec, table: string, cols: seq<Column>)
    requires i < |lefts| && j.kind == LeftOuter && Probe(right, j, lefts[i]) == []
    ensures var x := lefts[i] + NullColumns(table, cols);
      && Joined(lefts, right, j, table, cols)
         == Joined(lefts[..i], right, j, table, cols) + [x] + Joined(lefts[i + 1..], right, j, table, cols)
      && (forall k :: 0 <= k < |cols| ==> table + "." + cols[k].name in x && x[table + "." + cols[k].name] == VNull)
      && (forall key :: key in lefts[i] && key !in ColumnKeys(table, cols) ==> key in x && x[key] == lefts[i][key])
  {
    JoinedAt(lefts, i, right, j, table, cols);
  }

  /** LEFT keeps every left row: the output is at least as long as the left rows. */
  lemma {:induction false} LeftJoinCovers(lefts: seq<Row>, right: seq<Row>, j: JoinSpec, table: string, cols: seq<Column>)
    requires j.kind == LeftOuter
    ensures |Joined(lefts, right, j, table, cols)| >= |lefts|
    decreases |lefts|
  {
    if lefts != [] {
      LeftJoinCovers(lefts[..|lefts| - 1], right, j, table, cols);
    }
  }

  /** When every left row has a match, INNER and LEFT give the same rows. */
  lemma {:induction false} InnerIsLeftWhenAllMatch(lefts: seq<Row>, right: seq<Row>, j: JoinSpec, table: string, cols: seq<Column>)
    requires j.kind == Inner
    requires forall k :: 0 <= k < |lefts| ==> Probe(right, j, lefts[k]) != []
    ensures Joined(lefts, right, j, table, cols) == Joined(lefts, right, j.(kind := LeftOuter), table, cols)
    decreases |lefts|
  {
    if lefts != [] {
      var init := lefts[..|lefts| - 1];
      assert forall k :: 0 <= k < |init| ==> init[k] == lefts[k];
      InnerIsLeftWhenAllMatch(init, right, j, table, cols);
    }
  }

  /** A join type other than INNER and LEFT produces no rows. */
  lemma {:induction false} OtherJoinIsEmpty(lefts: seq<Row>, right: seq<Row>, j: JoinSpec, table: string, cols: seq<Column>)
    requires j.kind.OtherJoin?
    ensures Joined(lefts, right, j, table, cols) == []
    decreases |lefts|
  {
    if lefts != [] {
      OtherJoinIsEmpty(lefts[..|lefts| - 1], right, j, table, cols);
    }
  }

  /** The join condition: the right row has the right column, equal (by Python `==`) to the
      left row's value for the left column, `None` when it has none. */
  predicate JoinsWith(l: Row, r: Row, j: JoinSpec)
  {
    j.rightColumn in r && PyEq(r[j.rightColumn], Get(l, j.leftColumn))
  }

  /** `x` merges a row of `lefts` with a row of `right` that it joins with. */
  ghost predicate MergedFrom(lefts: seq<Row>, right: seq<Row>, j: JoinSpec, table: string, x: Row)
  {
    exists l, r :: l in lefts && r in right && JoinsWith(l, r, j) && x == Merged(l, table, r)
  }

  /** The probe of a left row finds exactly the right rows it joins with. */
  lemma {:induction false} ProbeMembers(right: seq<Row>, j: JoinSpec, l: Row, r: Row)
    ensures r in Probe(right, j, l) <==> r in right && JoinsWith(l, r, j)
  {
    FilterMembers(right, map[j.rightColumn := Get(l, j.leftColumn)], Eq, r);
  }

  /** INNER emits exactly the merges of a left row with a right row it joins with: every such
      pair appears, and nothing else does. */
  lemma {:induction false} InnerMembers(lefts: seq<Row>, right: seq<Row>, j: JoinSpec, table: string, cols: seq<Column>, x: Row)
    requires j.kind == Inner
    ensures x in Joined(lefts, right, j, table, cols) <==> MergedFrom(lefts, right, j, table, x)
    decreases |lefts|
  {
    if lefts != [] {
      var init, last := lefts[..|lefts| - 1], lefts[|lefts| - 1];
      InnerMembers(init, right, j, table, cols, x);
      JoinedLast(lefts, right, j, table, cols);
      InnerRowMembers(last, right, j, table, x);
      MergedFromSnoc(init, last, right, j, table, x);
      assert lefts == init + [last];
    }
  }

  /** The merged rows of one left row are its merges with the right rows it joins with. */
  lemma {:induction false} InnerRowMembers(l: Row, right: seq<Row>, j: JoinSpec, table: string, x: Row)
    ensures x in MergedAll(l, table, Probe(right, j, l)) <==>
      exists r :: r in right && JoinsWith(l, r, j) && x == Merged(l, table, r)
  {
    var ms := Probe(right, j, l);
    if x in MergedAll(l, table, ms) {
      var k :| 0 <= k < |ms| && MergedAll(l, table, ms)[k] == x;
      ProbeMembers(right, j, l, ms[k]);
    }
    if exists r :: r in right && JoinsWith(l, r, j) && x == Merged(l, table, r) {
      var r :| r in right && JoinsWith(l, r, j) && x == Merged(l, table, r);
      ProbeMembers(right, j, l, r);
      var k :| 0 <= k < |ms| && ms[k] == r;
      assert MergedAll(l, table, ms)[k] == x;
    }
  }

  lemma {:induction false} MergedFromSnoc(init: seq<Row>, last: Row, right: seq<Row>, j: JoinSpec, table: string, x: Row)
    ensures MergedFrom(init + [last], right, j, table, x) <==>
      MergedFrom(init, right, j, table, x) || exists r :: r in right && JoinsWith(last, r, j) && x == Merged(last, table, r)
  {
    if MergedFrom(init + [last], right, j, table, x) {
      var l, r :| l in init + [last] && r in right && JoinsWith(l, r, j) && x == Merged(l, table, r);
      if l !in init {
        assert l == last;
      }
    }
    if exists r :: r in right && JoinsWith(last, r, j) && x == Merged(last, table, r) {
      var r :| r in right && JoinsWith(last, r, j) && x == Merged(last, table, r);
      assert last in init + [last];
    }
    if MergedFrom(init, right, j, table, x) {
      var l, r :| l in init && r in right && JoinsWith(l, r, j) && x == Merged(l, table, r);
      assert l in init + [last];
    }
  }

  // ---------------------------------------------------------------------------------------
  // The database

  /** What `execute_parsed_query` returns. */
  datatype Answer =
    | NewTable(table: Table)   // CREATE TABLE: the new Table object
    | Nothing                  // DROP TABLE, CREATE INDEX, DROP INDEX: None
    | RowId(id: int)           // INSERT: the new row's position
    | Rows(rows: seq<Row>)     // SELECT
    | Count(n: int)            // UPDATE, DELETE: the number of matching rows

  /** The rows `load_data` starts a table with. */
  function LoadedRows(loaded: Option<Stored>): seq<Row>
  {
    if loaded.Some? && loaded.value.rows.Some? then loaded.value.rows.value else []
  }

  function LoadedNextId(loaded: Option<Stored>): int
  {
    if loaded.Some? && loaded.value.nextId.Some? then loaded.value.nextId.value else 1
  }

  /** The table a command names first. */
  function Target(c: Command): string
  {
    match c
    case CreateTable(t, _) => t
    case DropTable(t) => t
    case Insert(t, _) => t
    case Select(t, _, _, _, _) => t
    case Update(t, _, _, _, _) => t
    case Delete(t, _, _) => t
    case CreateIndex(_, t, _) => t
    case DropIndex(_, t) => t
  }

  /** A table as `load_metadata` builds it: named `n`, with the columns of its metadata
      entry, the rows and counter stored under its name, and no index. */
  ghost predicate Loaded(t: Table, n: string, meta: Metadata, stored: map<string, Stored>)
    reads t
  {
    && n in meta && Decoded(meta[n]).Some?
    && t.name == n && t.Valid()
    && t.columns == ColumnMap(Decoded(meta[n]).value)
    && t.data == LoadedRows(if n in stored then Some(stored[n]) else None)
    && t.nextId == LoadedNextId(if n in stored then Some(stored[n]) else None)
    && t.indexes == map[]
  }

  class Database {
    const name: string
    var tables: map<string, Table>
    /** The last metadata `save_metadata` wrote, if any. */
    ghost var savedMeta: Option<Metadata>
    /** The tables whose stored rows `storage.delete_table` removed, in order. */
    ghost var deleted: seq<string>

    /** The index objects of all tables. */
    ghost function IndexObjects(): set<IndexManager>
      reads this, tables.Values
    {
      set n, m | n in tables && m in tables[n].indexes :: tables[n].indexes[m]
    }

    /** Each table is filed under its own name and is well formed, and no two tables share an
        index object. */
    ghost predicate Valid()
      reads this, tables.Values
    {
      && (forall n :: n in tables ==> tables[n].name == n && tables[n].Valid())
      && (forall a, b, m, k ::
            a in tables && b in tables && a != b && m in tables[a].indexes && k in tables[b].indexes
            ==> tables[a].indexes[m] != tables[b].indexes[k])
    }

    /** The schema `save_metadata` writes for the current tables. */
    ghost function Metadata(): Metadata
      reads this
    {
      map n | n in tables :: Records(tables[n].columns)
    }

    /** `Database(name)` followed by `load_metadata()`: one table per metadata entry, each
        loading its stored rows. `meta` is what the storage's metadata holds, `stored` what
        it holds for each table's rows. */
    constructor(name: string, meta: Option<Metadata>, stored: map<string, Stored>)
      requires meta.Some? ==> forall n :: n in meta.value ==> Decoded(meta.value[n]).Some?
      ensures Valid() && this.name == name && savedMeta == None && deleted == []
      ensures tables.Keys == (if meta.Some? then meta.value.Keys else {})
      ensures forall n :: n in tables ==> Loaded(tables[n], n, meta.value, stored)
    {
      this.name := name;
      var ts := map[];
      if meta.Some? {
        ts := LoadTables(meta.value, stored);
      }
      tables := ts;
      savedMeta := None;
      deleted := [];
    }

    /** The loop of `load_metadata`: a table per entry, built from its column records. */
    static method LoadTables(meta: Metadata, stored: map<string, Stored>) returns (ts: map<string, Table>)
      requires forall n :: n in meta ==> Decoded(meta[n]).Some?
      ensures ts.Keys == meta.Keys
      ensures forall n :: n in ts ==> Loaded(ts[n], n, meta, stored)
    {
      ts := map[];
      var names := meta.Keys;
      while names != {}
        invariant names <= meta.Keys && ts.Keys == meta.Keys - names
        invariant forall n :: n in ts ==> Loaded(ts[n], n, meta, stored)
        decreases names
      {
        var n :| n in names;
        var columns := Decoded(meta[n]).value;
        var t := new Table(n, columns, if n in stored then Some(stored[n]) else None);
        ts := ts[n := t];
        names := names - {n};
      }
    }

    /** `get_table(name)`: the table filed under the name, if any. */
    function GetTable(name: string): (r: Option<Table>)
      reads this
      ensures r.Some? <==> name in tables
      ensures r.Some? ==> r.value == tables[name]
    {
      if name in tables then Some(tables[name]) else None
    }

    /** `create_table(name, columns)`: fails when the name is taken or two columns are
        primary; otherwise files a new table (which loads `loaded`, the rows stored under its
        name) and saves the metadata. */
    method CreateTable(name: string, columns: seq<Column>, loaded: Option<Stored>) returns (r: Result<Table>)
      requires Valid()
      modifies this
      ensures Valid() && deleted == old(deleted)
      ensures name in old(tables) ==>
        r == Err(TableExists(name)) && tables == old(tables) && savedMeta == old(savedMeta)
      ensures name !in old(tables) && !AtMostOnePrimary(columns) ==>
        r == Err(MultiplePrimaryKeys) && tables == old(tables) && savedMeta == old(savedMeta)
      ensures name !in old(tables) && AtMostOnePrimary(columns) ==>
        && r.Ok? && fresh(r.value) && tables == old(tables)[name := r.value]
        && r.value.columns == ColumnMap(columns) && r.value.indexes == map[]
        && r.value.data == LoadedRows(loaded) && r.value.nextId == LoadedNextId(loaded)
        && savedMeta == Some(Metadata())
    {
      if name in tables {
        return Err(TableExists(name));
      }
      PrimaryCountAtMostOne(columns);
      var primaries := CountPrimaries(columns);
      if primaries > 1 {
        return Err(MultiplePrimaryKeys);
      }
      var t := new Table(name, columns, loaded);
      tables := tables[name := t];
      savedMeta := Some(Metadata());
      return Ok(t);
    }

    /** The comprehension of `create_table` that collects the primary columns, counted. */
    static method CountPrimaries(columns: seq<Column>) returns (n: nat)
      ensures n == PrimaryCount(columns)
    {
      n := 0;
      for k := 0 to |columns|
        invariant n == PrimaryCount(columns[..k])
      {
        assert columns[..k + 1][..k] == columns[..k];
        if columns[k].isPrimary {
          n := n + 1;
        }
      }
      assert columns[..|columns|] == columns;
    }

    /** `drop_table(name)`: removes the table, deletes its stored rows and saves the
        metadata; an unknown name changes nothing. */
    method DropTable(name: string)
      requires Valid()
      modifies this
      ensures Valid()
      ensures name in old(tables) ==>
        tables == old(tables) - {name} && deleted == old(deleted) + [name] && savedMeta == Some(Metadata())
      ensures name !in old(tables) ==>
        tables == old(tables) && deleted == old(deleted) && savedMeta == old(savedMeta)
    {
      if name in tables {
        tables := tables - {name};
        deleted := deleted + [name];
        savedMeta := Some(Metadata());
      }
    }

    /** The join loop of `execute_parsed_query`: for each left row, probe the joined table
        and append the merged rows, or the null-filled row for an unmatched LEFT row. */
    static method JoinRows(rows: seq<Row>, right: Table, j: JoinSpec) returns (joined: seq<Row>)
      ensures joined == Joined(rows, right.data, j, right.name, right.columns)
    {
      joined := [];
      for i := 0 to |rows|
        invariant joined == Joined(rows[..i], right.data, j, right.name, right.columns)
      {
        var left := rows[i];
        var rightRows := right.Select(map[j.rightColumn := Get(left, j.leftColumn)], Eq);
        var part := JoinOne(left, rightRows, j, right.name, right.columns);
        JoinedPrefix(rows, i, right.data, j, right.name, right.columns);
        joined := joined + part;
      }
      assert rows[..|rows|] == rows;
    }

    /** The body of the join loop for one left row and the rows its probe found. */
    static method JoinOne(left: Row, rightRows: seq<Row>, j: JoinSpec, table: string, cols: seq<Column>)
      returns (part: seq<Row>)
      ensures part == JoinedRow(left, rightRows, j, table, cols)
    {
      part := [];
      if j.kind.Inner? || j.kind.LeftOuter? {
        if rightRows != [] {
          for m := 0 to |rightRows|
            invariant part == MergedAll(left, table, rightRows[..m])
          {
            part := part + [Merged(left, table, rightRows[m])];
          }
          assert rightRows[..|rightRows|] == rightRows;
        } else if j.kind.LeftOuter? {
          var filled := NullFilled(left, table, cols);
          part := [filled];
        }
      }
    }

    /** The left row with `None` under the qualified name of every column of the joined table. */
    static method NullFilled(left: Row, table: string, cols: seq<Column>) returns (row: Row)
      ensures row == left + NullColumns(table, cols)
    {
      row := left;
      for k := 0 to |cols|
        invariant row == left + NullColumns(table, cols[..k])
      {
        NullColumnsStep(table, cols, k);
        MergeThenSet(left, NullColumns(table, cols[..k]), table + "." + cols[k].name, VNull);
        row := row[table + "." + cols[k].name := VNull];
      }
      assert cols[..|cols|] == cols;
    }

    /** `execute_parsed_query(parsed)`: look up the command's table (an unknown one is an
        error) and run the matching operation; a SELECT with a join then joins its rows with
        the rows of the joined table. `loaded` is what storage holds for a table CREATE TABLE
        creates. */
    method ExecuteParsed(c: Command, loaded: Option<Stored>) returns (r: Result<Answer>)
      requires Valid() && (c.Update? ==> KeyOrder(c.setValues.Keys, c.setOrder))
      modifies this, tables.Values, IndexObjects()
      ensures Valid() && Executed(c, loaded, r)
    {
      match c
      case CreateTable(t, columns) =>
        r := RunCreateTable(t, columns, loaded);
      case DropTable(t) =>
        r := RunDropTable(t);
      case Insert(t, values) =>
        r := RunInsert(t, values);
      case Select(t, where, op, _, join) =>
        r := RunSelect(t, where, op, join);
      case Update(t, setValues, setOrder, where, op) =>
        r := RunUpdate(t, setValues, setOrder, where, op);
      case Delete(t, where, op) =>
        r := RunDelete(t, where, op);
      case CreateIndex(index, t, column) =>
        r := RunCreateIndex(index, t, column);
      case DropIndex(index, t) =>
        r := RunDropIndex(index, t);
    }

    method RunCreateTable(t: string, columns: seq<Column>, loaded: Option<Stored>) returns (r: Result<Answer>)
      requires Valid()
      modifies this
      ensures Valid() && CreateTableDone(t, columns, loaded, r)
    {
      var created := CreateTable(t, UpperTypes(columns), loaded);
      r := if created.Ok? then Ok(NewTable(created.value)) else Err(created.error);
    }

    method RunDropTable(t: string) returns (r: Result<Answer>)
      requires Valid()
      modifies this
      ensures Valid() && DropTableDone(t, r)
    {
      DropTable(t);
      r := Ok(Nothing);
    }

    method RunInsert(t: string, values: Row) returns (r: Result<Answer>)
      requires Valid()
      modifies tables.Values, IndexObjects()
      ensures Valid() && InsertDone(t, values, r)
    {
      if t !in tables {
        return Err(TableNotFound(t));
      }
      var table := tables[t];
      IndexesOfTable(t);
      var id := table.Insert(values);
      OneTableChanged(t);
      r := if id.Ok? then Ok(RowId(id.value)) else Err(id.error);
    }

    method RunSelect(t: string, where: map<string, Value>, op: Operator, join: Option<JoinSpec>) returns (r: Result<Answer>)
      requires Valid()
      ensures SelectDone(t, where, op, join, r)
    {
      if t !in tables {
        return Err(TableNotFound(t));
      }
      var rows := tables[t].Select(where, op);
      if join.Some? {
        if join.value.table !in tables {
          return Err(JoinTableNotFound(join.value.table));
        }
        rows := JoinRows(rows, tables[join.value.table], join.value);
      }
      r := Ok(Rows(rows));
    }

    method RunUpdate(t: string, setValues: Row, setOrder: seq<string>, where: map<string, Value>, op: Operator) returns (r: Result<Answer>)
      requires Valid() && KeyOrder(setValues.Keys, setOrder)
      modifies tables.Values, IndexObjects()
      ensures Valid() && UpdateDone(t, setValues, setOrder, where, op, r)
    {
      if t !in tables {
        return Err(TableNotFound(t));
      }
      var table := tables[t];
      IndexesOfTable(t);
      var count := table.Update(setValues, setOrder, where, op);
      OneTableChanged(t);
      if count.Err? {
        return Err(count.error);
      }
      r := Ok(Count(count.value));
    }

    method RunDelete(t: string, where: map<string, Value>, op: Operator) returns (r: Result<Answer>)
      requires Valid()
      modifies tables.Values, IndexObjects()
      ensures Valid() && DeleteDone(t, where, op, r)
    {
      if t !in tables {
        return Err(TableNotFound(t));
      }
      var table := tables[t];
      IndexesOfTable(t);
      var count := table.Delete(where, op);
      OneTableChanged(t);
      r := Ok(Count(count));
    }

    method RunCreateIndex(index: string, t: string, column: string) returns (r: Result<Answer>)
      requires Valid()
      modifies tables.Values
      ensures Valid() && CreateIndexDone(index, t, column, r)
    {
      if t !in tables {
        return Err(TableNotFound(t));
      }
      var table := tables[t];
      var made := table.CreateIndex(column, Some(index));
      r := if made.Ok? then Ok(Nothing) else Err(made.error);
    }

    method RunDropIndex(index: string, t: string) returns (r: Result<Answer>)
      requires Valid()
      modifies tables.Values
      ensures Valid() && DropIndexDone(index, t, r)
    {
      if t !in tables {
        return Err(TableNotFound(t));
      }
      tables[t].DropIndex(index);
      r := Ok(Nothing);
    }

    /** The index objects of one table are among those of the database. */
    lemma {:induction false} IndexesOfTable(t: string)
      requires Valid() && t in tables
      ensures tables[t].indexes.Values <= IndexObjects()
      ensures forall n, m :: n in tables && n != t && m in tables[n].indexes ==>
        tables[n].indexes[m] !in tables[t].indexes.Values
    {
      forall i | i in tables[t].indexes.Values ensures i in IndexObjects() {
        var m :| m in tables[t].indexes && tables[t].indexes[m] == i;
      }
    }

    /** A change confined to table `t` that keeps its name, its well-formedness and its index
        objects keeps the database well formed. */
    twostate lemma {:induction false} OneTableChanged(t: string)
      requires old(Valid()) && t in old(tables) && tables == old(tables)
      requires tables[t].name == old(tables[t].name) && tables[t].indexes == old(tables[t].indexes)
      requires tables[t].Valid() && Untouched({t})
      ensures Valid()
    {
    }

    /** Every table other than those named in `except` is still filed under its name, with
        its fields and its indexes' contents as they were. */
    twostate predicate Untouched(except: set<string>)
      reads this, tables.Values, IndexObjects()
    {
      forall n :: n in old(tables) && n !in except ==>
        && n in tables && tables[n] == old(tables[n])
        && unchanged(tables[n]) && unchanged(tables[n].indexes.Values)
    }

    /** The effect of a command on a table that exists, or the error for one that does not:
        the registry and the other tables stay as they were. */
    twostate predicate OnTable(t: string, new r: Result<Answer>)
      reads this, tables.Values, IndexObjects()
    {
      && tables == old(tables) && savedMeta == old(savedMeta) && deleted == old(deleted)
      && Untouched({t})
      && (t !in tables ==> r == Err(TableNotFound(t)))
    }

    /** What `execute_parsed_query` does for each kind of command: the new state and the
        result, in terms of the table functions. */
    twostate predicate Executed(c: Command, loaded: Option<Stored>, new r: Result<Answer>)
      reads this, tables.Values, IndexObjects()
    {
      match c
      case CreateTable(t, columns) => CreateTableDone(t, columns, loaded, r)
      case DropTable(t) => DropTableDone(t, r)
      case Insert(t, values) => InsertDone(t, values, r)
      case Select(t, where, op, _, join) => SelectDone(t, where, op, join, r)
      case Update(t, setValues, setOrder, where, op) => UpdateDone(t, setValues, setOrder, where, op, r)
      case Delete(t, where, op) => DeleteDone(t, where, op, r)
      case CreateIndex(index, t, column) => CreateIndexDone(index, t, column, r)
      case DropIndex(index, t) => DropIndexDone(index, t, r)
    }

    /** CREATE TABLE: `create_table` with the parsed columns, types upper-cased. */
    twostate predicate CreateTableDone(t: string, columns: seq<Column>, loaded: Option<Stored>, new r: Result<Answer>)
      reads this, tables.Values, IndexObjects()
    {
      var cols := UpperTypes(columns);
      && deleted == old(deleted) && Untouched({t})
      && (t in old(tables) ==>
            r == Err(TableExists(t)) && tables == old(tables) && savedMeta == old(savedMeta))
      && (t !in old(tables) && !AtMostOnePrimary(cols) ==>
            r == Err(MultiplePrimaryKeys) && tables == old(tables) && savedMeta == old(savedMeta))
      && (t !in old(tables) && AtMostOnePrimary(cols) ==>
            && tables.Keys == old(tables).Keys + {t} && fresh(tables[t]) && r == Ok(NewTable(tables[t]))
            && tables[t].columns == ColumnMap(cols) && tables[t].indexes == map[]
            && tables[t].data == LoadedRows(loaded) && tables[t].nextId == LoadedNextId(loaded)
            && savedMeta == Some(Metadata()))
    }

    /** DROP TABLE: `drop_table`. */
    twostate predicate DropTableDone(t: string, new r: Result<Answer>)
      reads this, tables.Values, IndexObjects()
    {
      && r == Ok(Nothing) && Untouched({t})
      && (t in old(tables) ==>
            tables == old(tables) - {t} && deleted == old(deleted) + [t] && savedMeta == Some(Metadata()))
      && (t !in old(tables) ==>
            tables == old(tables) && deleted == old(deleted) && savedMeta == old(savedMeta))
    }

    /** INSERT: `insert` on the named table. */
    twostate predicate InsertDone(t: string, values: Row, new r: Result<Answer>)
      reads this, tables.Values, IndexObjects()
    {
      && OnTable(t, r)
      && (t in tables ==>
            var tb := tables[t];
            var ch := CheckColumns(tb.columns, values, old(tb.nextId));
            var dup := DuplicateColumn(tb.columns, old(tb.data), ch.row);
            && tb.nextId == ch.nextId && tb.indexes == old(tb.indexes)
            && (ch.failure.Some? ==>
                  r == Err(ch.failure.value) && tb.data == old(tb.data) && unchanged(tb.indexes.Values))
            && (ch.failure.None? && dup.Some? ==>
                  r == Err(DuplicateValue(dup.value)) && tb.data == old(tb.data) && unchanged(tb.indexes.Values))
            && (ch.failure.None? && dup.None? ==>
                  && r == Ok(RowId(|old(tb.data)|)) && tb.data == old(tb.data) + [ch.row]
                  && forall n :: n in tb.indexes ==>
                       tb.indexes[n].index == Added(old(tb.indexes[n].index), |old(tb.data)|, ch.row)))
    }

    /** SELECT: `select` on the named table, then the join with the joined table if any; nothing changes. */
    twostate predicate SelectDone(t: string, where: map<string, Value>, op: Operator, join: Option<JoinSpec>, new r: Result<Answer>)
      reads this, tables.Values, IndexObjects()
    {
      && tables == old(tables) && savedMeta == old(savedMeta) && deleted == old(deleted)
      && Untouched({})
      && (t !in tables ==> r == Err(TableNotFound(t)))
      && (t in tables && join.None? ==> r == Ok(Rows(Filter(tables[t].data, where, op))))
      && (t in tables && join.Some? && join.value.table !in tables ==>
            r == Err(JoinTableNotFound(join.value.table)))
      && (t in tables && join.Some? && join.value.table in tables ==>
            var jt := tables[join.value.table];
            r == Ok(Rows(Joined(Filter(tables[t].data, where, op), jt.data, join.value, jt.name, jt.columns))))
    }

    /** UPDATE: `update` on the named table. */
    twostate predicate UpdateDone(t: string, setValues: Row, setOrder: seq<string>, where: map<string, Value>, op: Operator, new r: Result<Answer>)
      reads this, tables.Values, IndexObjects()
    {
      && OnTable(t, r)
      && (t in tables ==>
            var tb := tables[t];
            var matched := |Filter(old(tb.data), where, op)|;
            && tb.nextId == old(tb.nextId) && tb.indexes == old(tb.indexes)
            && if matched > 0 && !AssignmentsValid(tb.columns, setValues) then
                 && r.Err? && r.error.InvalidValue? && BadAssignment(tb.columns, setValues, r.error.column)
                 && FirstBad(tb.columns, setValues, setOrder) == Some(r.error.column)
                 && tb.data == old(tb.data)
                 && forall n :: n in tb.indexes ==> tb.indexes[n].index == old(tb.indexes[n].index)
               else
                 && r == Ok(Count(matched))
                 && tb.data == UpdatedRows(old(tb.data), setValues, where, op)
                 && forall n :: n in tb.indexes ==>
                      tb.indexes[n].index == Reindexed(old(tb.indexes[n].index), old(tb.data), |old(tb.data)|, setValues, where, op))
    }

    /** DELETE: `delete` on the named table. */
    twostate predicate DeleteDone(t: string, where: map<string, Value>, op: Operator, new r: Result<Answer>)
      reads this, tables.Values, IndexObjects()
    {
      && OnTable(t, r)
      && (t in tables ==>
            var tb := tables[t];
            var ps := MatchPositions(old(tb.data), where, op);
            && tb.nextId == old(tb.nextId) && tb.indexes == old(tb.indexes)
            && r == Ok(Count(|ps|)) && tb.data == Reject(old(tb.data), where, op)
            && forall n :: n in tb.indexes ==>
                 tb.indexes[n].index == Unindexed(old(tb.indexes[n].index), old(tb.data), ps, 0))
    }

    /** CREATE INDEX: `create_index` on the named table, under the parsed index name. */
    twostate predicate CreateIndexDone(index: string, t: string, column: string, new r: Result<Answer>)
      reads this, tables.Values, IndexObjects()
    {
      && OnTable(t, r)
      && (t in tables ==>
            var tb := tables[t];
            && tb.data == old(tb.data) && tb.nextId == old(tb.nextId)
            && (!HasColumn(tb.columns, column) ==> r == Err(ColumnNotFound(column)) && tb.indexes == old(tb.indexes))
            && (HasColumn(tb.columns, column) ==>
                  var n := IndexNameFor(t, column, Some(index));
                  && r == Ok(Nothing)
                  && tb.indexes.Keys == old(tb.indexes).Keys + {n}
                  && (forall m :: m in old(tb.indexes) && m != n ==> tb.indexes[m] == old(tb.indexes)[m])
                  && tb.indexes[n].index.Keys <= {column}
                  && Consistent(tb.indexes[n].index, tb.data, column)))
    }

    /** DROP INDEX: `drop_index` on the named table. */
    twostate predicate DropIndexDone(index: string, t: string, new r: Result<Answer>)
      reads this, tables.Values, IndexObjects()
    {
      && OnTable(t, r)
      && (t in tables ==>
            var tb := tables[t];
            && r == Ok(Nothing) && tb.indexes == old(tb.indexes) - {index}
            && tb.data == old(tb.data) && tb.nextId == old(tb.nextId))
    }

    /** `execute_query(query)`: parse, then execute the command. */
    method ExecuteQuery(query: string, loaded: Option<Stored>) returns (r: Result<Answer>)
      requires Valid()
      modifies this, tables.Values, IndexObjects()
      ensures Valid()
      ensures var p := Parse(query);
        && (p.Err? ==> r == Err(p.error) && unchanged(this))
        && (p.Ok? ==> Executed(p.value, loaded, r))
    {
      var parsed := ParseQuery(query);
      if parsed.Err? {
        return Err(parsed.error);
      }
      r := ExecuteParsed(parsed.value, loaded);
    }
  }
}
