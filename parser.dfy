/**
 * The SQL parser (parser/sql_parser.py): a query is stripped, its upper-cased text picks the
 * statement by its first words, and each statement's reader turns the text into a command.
 * The functions say what each reader returns; the methods follow the source's loops and are
 * proved to return the same; the lemmas at the end say what the readers make of well-formed
 * statements.
 */
module SqlParser {
  import opened Text
  import opened Outcomes
  import opened Values
  import opened Schema
  import opened Matching
  import opened SqlScan
  import opened SqlHeaders
  import opened SqlClauses

  /** The join types the engine knows; the parser only ever produces `Inner`. */
  datatype JoinKind = Inner | LeftOuter | OtherJoin(name: string)

  /** The `join` part of a parsed SELECT: the joined table and the `on` column pair. */
  datatype JoinSpec = JoinSpec(kind: JoinKind, table: string, leftColumn: string, rightColumn: string)

  /** A parsed query, one variant per `type` the parser produces. An empty where-mapping stands
      for both `{}` and `None`, which the engine treats alike. */
  datatype Command =
    | CreateTable(table: string, columns: seq<Column>)
    | DropTable(table: string)
    | Insert(table: string, values: Row)
    | Select(table: string, where: map<string, Value>, op: Operator, orderBy: Option<string>,
             join: Option<JoinSpec>)
    | Update(table: string, setValues: Row, setOrder: seq<string>, where: map<string, Value>, op: Operator)
    | Delete(table: string, where: map<string, Value>, op: Operator)
    | CreateIndex(index: string, table: string, column: string)
    | DropIndex(index: string, table: string)

  // ---------------------------------------------------------------------------------------
  // Statement readers

  /** A definition as the column-list split leaves it: not blank, no surrounding space. */
  predicate Unpadded(d: string)
  {
    d != [] && !IsSpace(d[0]) && !IsSpace(d[|d| - 1])
  }

  lemma {:induction false} UnpaddedStrip(d: string)
    requires Unpadded(d)
    ensures Strip(d) == d
  {
    StripKeepsUnpadded(d);
  }

  /** One column per definition, in order. */
  function ColumnsOf(defs: seq<string>): (cs: seq<Column>)
    requires forall k :: 0 <= k < |defs| ==> Unpadded(defs[k])
    ensures |cs| == |defs|
  {
    seq(|defs|, k requires 0 <= k < |defs| => UnpaddedStrip(defs[k]); ColumnDefinition(defs[k]))
  }

  /** The columns of a CREATE TABLE body, one per non-blank definition. */
  function TableColumns(body: string): (cs: seq<Column>)
    ensures |cs| == |DefinitionItems(body)|
  {
    DefinitionItemsUnpadded(body);
    ColumnsOf(DefinitionItems(body))
  }

  function CreateTableCommand(q: string): (r: Result<Command>)
    ensures r.Ok? ==> r.value.CreateTable?
    ensures r.Err? ==> r.error == InvalidSyntax("CREATE TABLE")
  {
    match CreateTableHeader(q)
    case None => Err(InvalidSyntax("CREATE TABLE"))
    case Some((t, body)) => Ok(CreateTable(Lower(t), TableColumns(body)))
  }

  function DropTableCommand(q: string): (r: Result<Command>)
    ensures r.Ok? ==> r.value.DropTable?
    ensures r.Err? ==> r.error == InvalidSyntax("DROP TABLE")
  {
    match DropTableHeader(q)
    case None => Err(InvalidSyntax("DROP TABLE"))
    case Some(t) => Ok(DropTable(Lower(t)))
  }

  function InsertCommand(q: string): (r: Result<Command>)
    ensures r.Ok? ==> r.value.Insert?
    ensures r.Err? ==> r.error == InvalidSyntax("INSERT")
  {
    match InsertHeader(q)
    case None => Err(InvalidSyntax("INSERT"))
    case Some(p) => Ok(Insert(Lower(p.table), Zipped(ColumnNames(p.columns), ValueItems(p.values))))
  }

  /** The join of a SELECT, when both the join text and the ON text are non-empty and the ON
      text has exactly one `=`. */
  function JoinOf(j: Option<(string, string)>): (r: Option<JoinSpec>)
    ensures r.Some? ==> r.value.kind == Inner && j.Some? && j.value.0 != [] && j.value.1 != []
  {
    match j
    case Some((jt, on)) =>
      if jt != [] && on != [] then
        match OnColumns(on)
        case Some((l, r)) => Some(JoinSpec(Inner, Lower(Strip(jt)), l, r))
        case None => None
      else None
    case None => None
  }

  function SelectCommand(q: string): (r: Result<Command>)
    ensures r.Ok? ==> r.value.Select?
    ensures r.Err? ==> r.error == InvalidSyntax("SELECT")
    ensures r.Ok? && r.value.join.Some? ==> r.value.join.value.kind == Inner
  {
    match SelectHeader(q)
    case None => Err(InvalidSyntax("SELECT"))
    case Some(p) =>
      var (where, op) := if p.where.Some? && p.where.value != [] then Where(SelectWhere, Strip(p.where.value)) else (map[], Eq);
      var order := if p.orderBy.Some? && p.orderBy.value != [] then Some(Lower(Strip(p.orderBy.value))) else None;
      Ok(Select(Lower(p.table), where, op, order, JoinOf(p.join)))
  }

  /** The text before the first `WHERE` (any case) and the text from it on, both stripped; the
      second is empty when there is no `WHERE`. */
  function WhereCut(query: string): (string, string)
  {
    var wi := Find(Upper(query), "WHERE");
    if wi >= 0 then (Strip(query[..wi]), Strip(query[wi..])) else (Strip(query), "")
  }

  /** The WHERE condition of UPDATE and DELETE: the clause after the keyword, when there is one. */
  function TailWhere(style: WhereStyle, wherePart: string): (map<string, Value>, Operator)
  {
    if wherePart != [] then Where(style, Strip(if |wherePart| >= 5 then wherePart[5..] else "")) else (map[], Eq)
  }

  /** SET values are kept as text. */
  function Texts(m: map<string, string>): (r: Row)
    ensures r.Keys == m.Keys && forall k :: k in m ==> r[k] == VStr(m[k])
  {
    map k | k in m :: VStr(m[k])
  }

  function UpdateCommand(query: string): (r: Result<Command>)
    ensures r.Ok? ==> r.value.Update? && KeyOrder(r.value.setValues.Keys, r.value.setOrder)
    ensures r.Err? ==> r.error == InvalidSyntax("UPDATE")
  {
    var (main, wherePart) := WhereCut(query);
    match UpdateHeader(main)
    case None => Err(InvalidSyntax("UPDATE"))
    case Some((t, setText)) =>
      var (where, op) := TailWhere(UpdateWhere, wherePart);
      var clause := Strip(setText);
      Ok(Update(Lower(t), Texts(SetValues(clause)), SetOrder(clause), where, op))
  }

  /** The table name of DELETE: the first word after `DELETE FROM` (any case), lower-cased, or
      the empty name when nothing follows. */
  function DeleteTable(tablePart: string): string
  {
    var up := Upper(tablePart);
    var f := Find(up, "DELETE FROM");
    var rest := Strip(if f >= 0 then tablePart[f + 11..] else tablePart);
    if rest == [] then [] else TokensOfUnpadded(rest); Lower(Tokens(rest)[0])
  }

  /** DELETE never fails to parse. Digits are ASCII here; a WHERE value that Python's `isdigit`
      accepts but `int()` rejects would raise in the source. */
  function DeleteCommand(query: string): (c: Command)
    ensures c.Delete?
  {
    var (tablePart, wherePart) := WhereCut(query);
    var (where, op) := TailWhere(DeleteWhere, wherePart);
    Delete(DeleteTable(tablePart), where, op)
  }

  function CreateIndexCommand(q: string): (r: Result<Command>)
    ensures r.Ok? ==> r.value.CreateIndex?
    ensures r.Err? ==> r.error == InvalidSyntax("CREATE INDEX")
  {
    match CreateIndexHeader(q)
    case None => Err(InvalidSyntax("CREATE INDEX"))
    case Some((i, t, c)) => Ok(CreateIndex(Lower(i), Lower(t), Lower(c)))
  }

  function DropIndexCommand(q: string): (r: Result<Command>)
    ensures r.Ok? ==> r.value.DropIndex?
    ensures r.Err? ==> r.error == InvalidSyntax("DROP INDEX")
  {
    match DropIndexHeader(q)
    case None => Err(InvalidSyntax("DROP INDEX"))
    case Some((i, t)) => Ok(DropIndex(Lower(i), Lower(t)))
  }

  // ---------------------------------------------------------------------------------------
  // Dispatch

  /** The statement keywords, in the order `parse_query` tries them. */
  const Keywords: seq<string> := ["CREATE TABLE", "DROP TABLE", "INSERT INTO", "SELECT", "UPDATE",
                                  "DELETE FROM", "CREATE INDEX", "DROP INDEX"]

  /** The first keyword, in the order they are tried, that `u` starts with; `|Keywords|` when
      there is none. */
  function FirstKeyword(u: string, i: nat): (k: nat)
    requires i <= |Keywords|
    ensures i <= k <= |Keywords|
    ensures k < |Keywords| ==> StartsWith(u, Keywords[k])
    ensures forall j :: i <= j < k ==> !StartsWith(u, Keywords[j])
    decreases |Keywords| - i
  {
    if i == |Keywords| || StartsWith(u, Keywords[i]) then i else FirstKeyword(u, i + 1)
  }

  /** The position in `Keywords` of the keyword a command is read after. */
  function KindOf(c: Command): (k: nat)
    ensures k < |Keywords|
  {
    match c
    case CreateTable(_, _) => 0
    case DropTable(_) => 1
    case Insert(_, _) => 2
    case Select(_, _, _, _, _) => 3
    case Update(_, _, _, _, _) => 4
    case Delete(_, _, _) => 5
    case CreateIndex(_, _, _) => 6
    case DropIndex(_, _) => 7
  }

  /** The reader for the `k`-th keyword: what it reads is a command of that keyword, and it
      fails only with a syntax error. */
  function ReadStatement(k: nat, q: string): (r: Result<Command>)
    requires k < |Keywords|
    ensures r.Err? ==> r.error.InvalidSyntax?
    ensures r.Ok? && r.value.Update? ==> KeyOrder(r.value.setValues.Keys, r.value.setOrder)
  {
    if k == 0 then CreateTableCommand(q)
    else if k == 1 then DropTableCommand(q)
    else if k == 2 then InsertCommand(q)
    else if k == 3 then SelectCommand(q)
    else if k == 4 then UpdateCommand(q)
    else if k == 5 then Ok(DeleteCommand(q))
    else if k == 6 then CreateIndexCommand(q)
    else DropIndexCommand(q)
  }

  /** What the `k`-th reader reads is a command of the `k`-th keyword. */
  lemma {:induction false} ReadStatementKind(k: nat, q: string)
    requires k < |Keywords|
    ensures ReadStatement(k, q).Ok? ==> KindOf(ReadStatement(k, q).value) == k
  {
    var r := ReadStatement(k, q);
    if r.Ok? {
      var c := r.value;
      if k == 0 {
        assert c.CreateTable?;
      } else if k == 1 {
        assert c.DropTable?;
      } else if k == 2 {
        assert c.Insert?;
      } else if k == 3 {
        assert c.Select?;
      } else if k == 4 {
        assert c.Update?;
      } else if k == 5 {
        assert c.Delete?;
      } else if k == 6 {
        assert c.CreateIndex?;
      } else {
        assert c.DropIndex?;
      }
    }
  }

  /** `parse_query`: the stripped query goes to the reader of the first keyword its upper-cased
      text starts with; anything else is unsupported. */
  function Parse(query: string): (r: Result<Command>)
    ensures r.Ok? && r.value.Update? ==> KeyOrder(r.value.setValues.Keys, r.value.setOrder)
  {
    var q := Strip(query);
    var k := FirstKeyword(Upper(q), 0);
    if k < |Keywords| then ReadStatement(k, q) else Err(UnsupportedQuery(q))
  }

  lemma {:induction false} PrefixesAgree(u: string, a: string, b: string, p: nat)
    requires StartsWith(u, a) && StartsWith(u, b) && p < |a| && p < |b|
    ensures a[p] == b[p]
  {
    assert a[p] == u[..|a|][p] == u[p] == u[..|b|][p];
  }

  /** No text starts with two of the keywords. */
  lemma {:induction false} KeywordsExclusive(u: string, i: nat, j: nat)
    requires i < |Keywords| && j < |Keywords|
    requires StartsWith(u, Keywords[i]) && StartsWith(u, Keywords[j])
    ensures i == j
  {
    PrefixesAgree(u, Keywords[i], Keywords[j], 0);
    PrefixesAgree(u, Keywords[i], Keywords[j], 1);
    PrefixesAgree(u, Keywords[i], Keywords[j], 5);
    if |Keywords[i]| > 7 && |Keywords[j]| > 7 {
      PrefixesAgree(u, Keywords[i], Keywords[j], 7);
    }
  }

  /** The order of the tests does not matter: a query that starts with a keyword is read by
      that keyword's reader. */
  lemma {:induction false} ParseByKeyword(query: string, k: nat)
    requires k < |Keywords| && StartsWith(Upper(Strip(query)), Keywords[k])
    ensures Parse(query) == ReadStatement(k, Strip(query))
  {
    var u := Upper(Strip(query));
    var f := FirstKeyword(u, 0);
    if f < k {
      KeywordsExclusive(u, f, k);
    }
  }

  /** A query is unsupported exactly when it starts with none of the keywords; every other
      failure is a syntax error of its reader. */
  lemma {:induction false} ParseUnsupported(query: string)
    ensures Parse(query).Err? && Parse(query).error.UnsupportedQuery? <==>
      forall k :: 0 <= k < |Keywords| ==> !StartsWith(Upper(Strip(query)), Keywords[k])
    ensures Parse(query).Err? ==> Parse(query).error == UnsupportedQuery(Strip(query)) || Parse(query).error.InvalidSyntax?
  {
  }

  /** A command read from a query is of the kind its first words name. */
  lemma {:induction false} ParseKind(query: string)
    ensures Parse(query).Ok? ==> StartsWith(Upper(Strip(query)), Keywords[KindOf(Parse(query).value)])
  {
    var q := Strip(query);
    var k := FirstKeyword(Upper(q), 0);
    if k < |Keywords| {
      ReadStatementKind(k, q);
    }
  }

  // ---------------------------------------------------------------------------------------
  // The readers with loops

  /** The loop of `_parse_create_table` that reads each definition in turn. */
  method DefineColumns(defs: seq<string>) returns (columns: seq<Column>)
    requires forall k :: 0 <= k < |defs| ==> Unpadded(defs[k])
    ensures columns == ColumnsOf(defs)
  {
    columns := [];
    for k := 0 to |defs|
      invariant |columns| == k
      invariant forall j :: 0 <= j < k ==> columns[j] == ColumnsOf(defs)[j]
    {
      UnpaddedStrip(defs[k]);
      columns := columns + [ColumnDefinition(defs[k])];
    }
  }

  /** The column list of `_parse_create_table`: split at its top-level commas by the loop over
      its characters, then read definition by definition. */
  method ReadColumns(body: string) returns (columns: seq<Column>)
    ensures columns == TableColumns(body)
  {
    var defs := SplitDefinitions(body);
    DefinitionsUnpadded(body, defs);
    columns := DefineColumns(defs);
  }

  lemma {:induction false} DefinitionsUnpadded(body: string, defs: seq<string>)
    requires defs == DefinitionItems(body)
    ensures forall k :: 0 <= k < |defs| ==> Unpadded(defs[k])
  {
    DefinitionItemsUnpadded(body);
  }

  method ParseCreateTable(q: string) returns (r: Result<Command>)
    ensures r == CreateTableCommand(q)
  {
    var header := CreateTableHeader(q);
    if header.None? {
      return Err(InvalidSyntax("CREATE TABLE"));
    }
    var (t, body) := header.value;
    var columns := ReadColumns(body);
    return Ok(CreateTable(Lower(t), columns));
  }

  /** The conversion loop of `_parse_insert`: `zip` pairs columns and values in order. */
  method PairValues(columns: seq<string>, values: seq<string>) returns (row: Row)
    ensures row == Zipped(columns, values)
  {
    var n := if |columns| < |values| then |columns| else |values|;
    row := map[];
    for k := 0 to n
      invariant row == Paired(columns, values, k)
    {
      row := row[columns[k] := Literal(values[k])];
    }
  }

  /** The row of `_parse_insert`: the values are split at the commas outside quotes by the loop
      over their characters and paired with the columns. */
  method ReadRow(columnText: string, valueText: string) returns (row: Row)
    ensures row == Zipped(ColumnNames(columnText), ValueItems(valueText))
  {
    var values := SplitValues(valueText);
    row := PairValues(ColumnNames(columnText), values);
  }

  method ParseInsert(q: string) returns (r: Result<Command>)
    ensures r == InsertCommand(q)
  {
    var header := InsertHeader(q);
    if header.None? {
      return Err(InvalidSyntax("INSERT"));
    }
    var p := header.value;
    var row := ReadRow(p.columns, p.values);
    return Ok(Insert(Lower(p.table), row));
  }

  /** `_parse_update`: the SET clause is read by the loop over its characters. */
  method ParseUpdate(query: string) returns (r: Result<Command>)
    ensures r == UpdateCommand(query)
  {
    var (main, wherePart) := WhereCut(query);
    var header := UpdateHeader(main);
    if header.None? {
      return Err(InvalidSyntax("UPDATE"));
    }
    var (t, setText) := header.value;
    var setValues, setOrder := ScanSetClause(Strip(setText));
    var (where, op) := TailWhere(UpdateWhere, wherePart);
    return Ok(Update(Lower(t), Texts(setValues), setOrder, where, op));
  }

  /** `parse_query`: the tests of the keywords, in order, pick the reader; the readers with
      loops run as methods. */
  method ParseQuery(query: string) returns (r: Result<Command>)
    ensures r == Parse(query)
  {
    var q := Strip(query);
    var k := FirstKeyword(Upper(q), 0);
    if k < |Keywords| {
      r := RunReader(k, q);
    } else {
      r := Err(UnsupportedQuery(q));
    }
  }

  /** The reader of the `k`-th keyword, run on the stripped query. */
  method RunReader(k: nat, q: string) returns (r: Result<Command>)
    requires k < |Keywords|
    ensures r == ReadStatement(k, q)
  {
    if k == 0 {
      r := ParseCreateTable(q);
    } else if k == 1 {
      r := DropTableCommand(q);
    } else if k == 2 {
      r := ParseInsert(q);
    } else if k == 3 {
      r := SelectCommand(q);
    } else if k == 4 {
      r := ParseUpdate(q);
    } else if k == 5 {
      r := Ok(DeleteCommand(q));
    } else if k == 6 {
      r := CreateIndexCommand(q);
    } else {
      r := DropIndexCommand(q);
    }
  }

}
