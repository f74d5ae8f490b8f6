/**
 * Column descriptors: the type and nullability check `Column.validate`, the metadata record
 * form `to_dict`/`from_dict`, and the name-keyed column mapping a table builds from its
 * column list (core/database.py:10-71).
 */
module Schema {
  import opened Outcomes
  import opened Values
  import opened Text

  const INTEGER := "INTEGER"
  const TEXT := "TEXT"
  const DATE := "DATE"
  const BOOLEAN := "BOOLEAN"
  const FLOAT := "FLOAT"

  /** A column descriptor; `dataType` is free text, and a type outside the five known ones
      accepts any non-null value. */
  datatype Column = Column(name: string, dataType: string, isPrimary: bool, isUnique: bool, nullable: bool)

  // ---------------------------------------------------------------------------------------
  // Dates: the text parses as year-month-day with `strptime`

  /** `%m`: `1[0-2]|0[1-9]|[1-9]`. */
  predicate IsMonthText(m: string)
  {
    (|m| == 1 && '1' <= m[0] <= '9')
    || (|m| == 2 && ((m[0] == '0' && '1' <= m[1] <= '9') || (m[0] == '1' && '0' <= m[1] <= '2')))
  }

  /** `%d`: `3[01]|[12]\d|0[1-9]|[1-9]| [1-9]`. */
  predicate IsDayText(d: string)
  {
    (|d| == 1 && '1' <= d[0] <= '9')
    || (|d| == 2 && ((d[0] == '3' && (d[1] == '0' || d[1] == '1'))
                     || ((d[0] == '1' || d[0] == '2') && IsDigit(d[1]))
                     || ((d[0] == '0' || d[0] == ' ') && '1' <= d[1] <= '9')))
  }

  function DayNumber(d: string): nat
    requires IsDayText(d)
  {
    if d[0] == ' ' then DigitsValue(d[1..]) else DigitsValue(d)
  }

  predicate IsLeapYear(y: int)
  {
    y % 4 == 0 && (y % 100 != 0 || y % 400 == 0)
  }

  function DaysInMonth(y: int, m: int): int
  {
    if m == 2 then (if IsLeapYear(y) then 29 else 28)
    else if m == 4 || m == 6 || m == 9 || m == 11 then 30
    else 31
  }

  /** The whole string is a four-digit year, a month and a day separated by dashes, and the
      date exists (years start at 1; leap years follow the Gregorian rule). */
  predicate IsValidDate(s: string)
  {
    |s| >= 8 && IsDigits(s[..4]) && s[4] == '-'
    && var rest := s[5..];
       var dash := IndexOf(rest, '-');
       dash < |rest|
       && var m, d := rest[..dash], rest[dash + 1..];
          IsMonthText(m) && IsDayText(d)
          && var year := DigitsValue(s[..4]);
             year >= 1 && DayNumber(d) <= DaysInMonth(year, DigitsValue(m))
  }

  // ---------------------------------------------------------------------------------------
  // Column.validate

  /** `Column.validate(value)`. */
  predicate Validate(col: Column, v: Value)
  {
    if v.VNull? then col.nullable
    else if col.dataType == INTEGER then IsInt(v)
    else if col.dataType == FLOAT then IsInt(v) || v.VFloat?
    else if col.dataType == TEXT then v.VStr?
    else if col.dataType == DATE then (if v.VStr? then IsValidDate(v.s) else v.VDate?)
    else if col.dataType == BOOLEAN then v.VBool?
    else true
  }

  /** The type table of `validate`: what each declared type admits, one `isinstance` test per
      type. It lays out the cases; `ValidateTypeHierarchy` and `DateFields` state properties
      derived from them. */
  lemma {:induction false} ValidateByType(col: Column, v: Value)
    ensures v.VNull? ==> (Validate(col, v) <==> col.nullable)
    ensures !v.VNull? && col.dataType == INTEGER ==> (Validate(col, v) <==> v.VInt? || v.VBool?)
    ensures !v.VNull? && col.dataType == FLOAT ==> (Validate(col, v) <==> v.VInt? || v.VBool? || v.VFloat?)
    ensures !v.VNull? && col.dataType == TEXT ==> (Validate(col, v) <==> v.VStr?)
    ensures !v.VNull? && col.dataType == BOOLEAN ==> (Validate(col, v) <==> v.VBool?)
    ensures !v.VNull? && col.dataType !in {INTEGER, FLOAT, TEXT, DATE, BOOLEAN} ==> Validate(col, v)
  {
  }

  /** Because `bool` is a subclass of `int`, a value a BOOLEAN column accepts is also accepted
      by an INTEGER column, and every INTEGER value by a FLOAT column. */
  lemma {:induction false} ValidateTypeHierarchy(name: string, nullable: bool, v: Value)
    ensures Validate(Column(name, BOOLEAN, false, false, nullable), v)
            ==> Validate(Column(name, INTEGER, false, false, nullable), v)
    ensures Validate(Column(name, INTEGER, false, false, nullable), v)
            ==> Validate(Column(name, FLOAT, false, false, nullable), v)
  {
  }

  /** A string assembled from a four-digit year, a month and a day is a valid date exactly
      when its fields are. */
  lemma {:induction false} DateFields(y: string, m: string, d: string)
    requires |y| == 4 && IsDigits(y) && '-' !in m
    ensures IsValidDate(y + "-" + m + "-" + d)
            <==> IsMonthText(m) && IsDayText(d) && DigitsValue(y) >= 1
                 && DayNumber(d) <= DaysInMonth(DigitsValue(y), DigitsValue(m))
  {
    var s := y + "-" + m + "-" + d;
    assert s[..4] == y && s[4] == '-';
    var rest := s[5..];
    assert rest == m + "-" + d;
    IndexOfAfter(m, d);
    assert rest[..|m|] == m && rest[|m| + 1..] == d;
  }

  lemma {:induction false} IndexOfAfter(m: string, d: string)
    requires '-' !in m
    ensures IndexOf(m + "-" + d, '-') == |m|
  {
    if m != [] {
      assert (m + "-" + d)[1..] == m[1..] + "-" + d;
      IndexOfAfter(m[1..], d);
    }
  }

  lemma {:induction false} FieldValues()
    ensures DigitsValue("2023") == 2023 && DigitsValue("2024") == 2024
    ensures DigitsValue("02") == 2 && DigitsValue("29") == 29 && DigitsValue("13") == 13
  {
    assert "2023"[..3] == "202" && "2024"[..3] == "202" && "202"[..2] == "20" && "20"[..1] == "2";
    assert "02"[..1] == "0" && "29"[..1] == "2" && "13"[..1] == "1";
  }

  /** February 29th exists in 2024, a leap year ... */
  lemma {:induction false} LeapDayExample()
    ensures IsValidDate("2024" + "-" + "02" + "-" + "29")
  {
    FieldValues();
    DateFields("2024", "02", "29");
  }

  /** ... and not in 2023. */
  lemma {:induction false} NoLeapDayExample()
    ensures !IsValidDate("2023" + "-" + "02" + "-" + "29")
  {
    FieldValues();
    DateFields("2023", "02", "29");
  }

  /** `%m` and `%d` accept one digit ... */
  lemma {:induction false} ShortFieldsExample()
    ensures IsValidDate("2024" + "-" + "1" + "-" + "5")
  {
    FieldValues();
    DateFields("2024", "1", "5");
  }

  /** ... and there is no thirteenth month. */
  lemma {:induction false} NoThirteenthMonthExample()
    ensures !IsValidDate("2024" + "-" + "13" + "-" + "01")
  {
    DateFields("2024", "13", "01");
  }

  // ---------------------------------------------------------------------------------------
  // Column.to_dict / Column.from_dict

  /** A field of a metadata record, as stored in JSON. */
  datatype Field = FStr(s: string) | FBool(b: bool)

  type ColumnRecord = map<string, Field>

  function ToDict(c: Column): ColumnRecord
  {
    map["name" := FStr(c.name), "data_type" := FStr(c.dataType), "is_primary" := FBool(c.isPrimary),
        "is_unique" := FBool(c.isUnique), "nullable" := FBool(c.nullable)]
  }

  /** `data.get(key, default)` read as a flag (a stored string counts by its truthiness). */
  function FlagOr(d: ColumnRecord, key: string, default: bool): bool
  {
    if key !in d then default
    else match d[key]
      case FBool(b) => b
      case FStr(s) => s != []
  }

  /** `Column.from_dict`: `name` and `data_type` are required (a missing one is a KeyError),
      the flags default to not primary, not unique, nullable. */
  function FromDict(d: ColumnRecord): (r: Option<Column>)
    ensures r.Some? <==> "name" in d && d["name"].FStr? && "data_type" in d && d["data_type"].FStr?
    ensures r.Some? ==> r.value.name == d["name"].s && r.value.dataType == d["data_type"].s
    ensures r.Some? && "is_primary" !in d ==> !r.value.isPrimary
    ensures r.Some? && "is_unique" !in d ==> !r.value.isUnique
    ensures r.Some? && "nullable" !in d ==> r.value.nullable
  {
    if "name" in d && d["name"].FStr? && "data_type" in d && d["data_type"].FStr? then
      Some(Column(d["name"].s, d["data_type"].s, FlagOr(d, "is_primary", false),
                  FlagOr(d, "is_unique", false), FlagOr(d, "nullable", true)))
    else None
  }

  /** The metadata record of a column reads back as the same column. */
  lemma {:induction false} FromDictToDict(c: Column)
    ensures FromDict(ToDict(c)) == Some(c)
  {
  }

  // ---------------------------------------------------------------------------------------
  // `{col.name: col for col in columns}`

  predicate NamesDistinct(cols: seq<Column>)
  {
    forall j, k :: 0 <= j < k < |cols| ==> cols[j].name != cols[k].name
  }

  predicate HasColumn(cols: seq<Column>, name: string)
  {
    exists k :: 0 <= k < |cols| && cols[k].name == name
  }

  /** Position of the first column called `name`, or `|cols|`. */
  function PositionOf(cols: seq<Column>, name: string): (p: nat)
    ensures p <= |cols|
    ensures p < |cols| ==> cols[p].name == name
    ensures forall k :: 0 <= k < p ==> cols[k].name != name
  {
    if cols == [] then 0 else if cols[0].name == name then 0 else 1 + PositionOf(cols[1..], name)
  }

  /** The column a name-keyed mapping gives for `name`. */
  function ColumnNamed(cols: seq<Column>, name: string): Option<Column>
  {
    var p := PositionOf(cols, name);
    if p < |cols| then Some(cols[p]) else None
  }

  /** The last column of the list called `name`: the one a dict comprehension keeps. */
  predicate IsLastNamed(cols: seq<Column>, c: Column)
  {
    exists j :: 0 <= j < |cols| && cols[j] == c && forall k :: j < k < |cols| ==> cols[k].name != c.name
  }

  /** One step of the comprehension: overwrite the entry of the same name in place, or append. */
  function Place(acc: seq<Column>, c: Column): seq<Column>
  {
    var p := PositionOf(acc, c.name);
    if p < |acc| then acc[p := c] else acc + [c]
  }

  /** The dict a table builds from its column list, as an ordered sequence of entries. */
  function ColumnMap(cols: seq<Column>): seq<Column>
    decreases |cols|
  {
    if cols == [] then [] else Place(ColumnMap(cols[..|cols| - 1]), cols[|cols| - 1])
  }

  lemma {:induction false} PlaceProperties(acc: seq<Column>, c: Column)
    requires NamesDistinct(acc)
    ensures var r := Place(acc, c);
      && NamesDistinct(r)
      && HasColumn(r, c.name)
      && (forall k :: 0 <= k < |acc| ==> HasColumn(r, acc[k].name))
      && (forall k :: 0 <= k < |r| ==> r[k] == c || (r[k] == acc[k] && acc[k].name != c.name))
  {
    var p := PositionOf(acc, c.name);
    var r := Place(acc, c);
    assert r[if p < |acc| then p else |acc|].name == c.name;
    forall k | 0 <= k < |acc| ensures HasColumn(r, acc[k].name) {
      assert r[k].name == acc[k].name;
    }
  }

  /** The mapping has distinct names. */
  lemma {:induction false} ColumnMapDistinct(cols: seq<Column>)
    ensures NamesDistinct(ColumnMap(cols))
    decreases |cols|
  {
    if cols != [] {
      ColumnMapDistinct(cols[..|cols| - 1]);
      PlaceProperties(ColumnMap(cols[..|cols| - 1]), cols[|cols| - 1]);
    }
  }

  /** Every listed name has an entry in the mapping. */
  lemma {:induction false} ColumnMapCovers(cols: seq<Column>, k: nat)
    requires k < |cols|
    ensures HasColumn(ColumnMap(cols), cols[k].name)
    decreases |cols|
  {
    var init, c := cols[..|cols| - 1], cols[|cols| - 1];
    var acc := ColumnMap(init);
    ColumnMapDistinct(init);
    PlaceProperties(acc, c);
    if k < |init| {
      ColumnMapCovers(init, k);
      assert cols[k] == init[k];
      var q :| 0 <= q < |acc| && acc[q].name == init[k].name;
      assert HasColumn(Place(acc, c), acc[q].name);
    }
  }

  /** Each entry of the mapping is the last column of its name: a repeated name keeps its
      first position but its last descriptor. */
  lemma {:induction false} ColumnMapLastWins(cols: seq<Column>, k: nat)
    requires k < |ColumnMap(cols)|
    ensures IsLastNamed(cols, ColumnMap(cols)[k])
    decreases |cols|
  {
    var init, c := cols[..|cols| - 1], cols[|cols| - 1];
    var acc := ColumnMap(init);
    var r := Place(acc, c);
    ColumnMapDistinct(init);
    PlaceProperties(acc, c);
    if r[k] == c {
      assert cols[|cols| - 1] == c;
    } else {
      assert r[k] == acc[k] && acc[k].name != c.name;
      ColumnMapLastWins(init, k);
      var j :| 0 <= j < |init| && init[j] == acc[k] && forall m :: j < m < |init| ==> init[m].name != acc[k].name;
      assert cols[j] == acc[k];
      assert forall m :: j < m < |cols| ==> cols[m].name != acc[k].name by {
        forall m | j < m < |cols| ensures cols[m].name != acc[k].name {
          if m < |init| { assert cols[m] == init[m]; }
        }
      }
    }
  }
}
