# A verified model of the mini-RDBMS core

This project models, in Dafny, the core of a small embedded relational database written in
Python. The core has three parts:

- the table engine (`core/database.py`): column validation, the `Table` class with insert,
  select, update, delete and secondary indexes, and the `Database` class that owns the tables
  and executes parsed statements, including the nested-loop join;
- the equality index (`core/index.py`): for each column, a map from the `str()` of a value
  to the set of row positions holding it;
- the SQL parser (`parser/sql_parser.py`): the prefix dispatch over eight statement kinds and
  the reader of each kind. The readers are regular-expression headers, three character loops
  (INSERT values, CREATE TABLE definitions, UPDATE assignments) and the WHERE readers.

The model takes the source's own form. The index, the table and the database are classes
whose methods update fields in place. Each method is proved against a specification
function of the old state: `Added`/`Removed` for the index, `CheckColumns`, `DuplicateColumn`,
`Filter`, `Reject`, `UpdatedRows` and `Reindexed` for the table, and `Joined` for the join. The
parser is pure: each reader is a function, and each loop of the source is a method proved equal
to its function.

Modules, one per concern:

| file | module | what it holds |
|---|---|---|
| values.dfy | `Values` | cell values, Python `==` on them, the `str()` key the index uses |
| text.dfy | `Text` | the string operations the parser uses (strip, split, find, case, quotes) |
| outcomes.dfy | `Outcomes` | `Option`, `Result` and the errors the source raises |
| schema.dfy | `Schema` | `Column`, `validate`, date parsing, `to_dict`/`from_dict`, the name-keyed column dict |
| matching.dfy | `Matching` | the WHERE predicate, LIKE, and the row sequences it selects or rejects |
| index.dfy | `Index` | the `IndexManager` class |
| table.dfy | `Tables` | the `Table` class and its specification functions |
| sqlscan.dfy | `SqlScan` | the three character loops of the parser |
| headers.dfy | `SqlHeaders` | the statement headers, written out as the clause shapes the patterns accept |
| clauses.dfy | `SqlClauses` | INSERT literals, WHERE readers, JOIN ON, column definitions |
| parser.dfy | `SqlParser` | the `Command` datatype, the eight readers, the dispatch |
| statements.dfy | `SqlStatements` | round trips: statement text built from parts parses back to those parts |
| database.dfy | `Databases` | the join, the metadata round trip and the `Database` class |

Some behaviours of the source are kept as written and exhibited by lemmas:

- Deleting rows unfiles them from the indexes at their old positions. The positions of the
  surviving rows are not shifted (`Tables.DeleteLeavesStaleIndex`).
- The UNIQUE check compares with `row.get`, so an explicit NULL clashes with any stored row
  that lacks the column (`Tables.NullClashesWithMissing`).
- The index keys buckets by `str(value)`. The int 1 and the string '1' therefore share a
  bucket, while `True` and `1`, equal under `==`, do not (`Values.KeyConflatesIntAndString`,
  `Values.KeySeparatesBoolAndInt`).
- DELETE and UPDATE test for ` LIKE ` before `=` across the whole WHERE text. A LIKE inside a
  quoted equality value therefore turns the clause into a LIKE test
  (`SqlClauses.LikeInsideEqualsValue`).
- UPDATE cuts its WHERE clause at the first `WHERE` of the upper-cased query, quotes
  included. A `WHERE` inside a quoted SET value therefore truncates the SET clause there and
  leaves the update with no condition (`SqlStatements.WhereInsideSetValue`).
- ORDER BY is parsed but never applied by the executor, and the model does the same.
- The parser only ever produces INNER joins. The executor's LEFT branch is still modelled and
  proved (`Databases.LeftKeepsUnmatched`).

## Model

| member | source | states |
|---|---|---|
| `Values.Get` | core/database.py:398 | `row.get(key)`: a missing key reads as None, a present key as its value |
| `Values.PyEqIsEquivalence` | core/database.py:143-146 | Python `==` on cell values, used by `=` filters, the UNIQUE check and the join probe, is reflexive, symmetric and transitive |
| `Values.NatToStringInjective` | core/index.py:15 | the decimal form of a natural number determines the number |
| `Values.IntKeyInjective` | core/index.py:15-19 | two ints get the same index key exactly when they are equal |
| `Values.KeyConflatesIntAndString` | core/index.py:15-17 | 1 and '1' are unequal under `==` but share the index key "1" |
| `Values.KeySeparatesBoolAndInt` | core/index.py:15-17 | True == 1, yet their index keys differ |
| `Text.TrimLeft` | parser/sql_parser.py:7 | the result is a suffix of the input, every dropped character is whitespace, and it does not start with whitespace |
| `Text.TrimRight` | parser/sql_parser.py:7 | the result is a prefix of the input, every dropped character is whitespace, and it does not end with whitespace |
| `Text.Strip` | parser/sql_parser.py:7 | `strip()` leaves no whitespace at either end |
| `Text.StripKeepsUnpadded` | parser/sql_parser.py:7 | `strip()` leaves an unpadded string unchanged |
| `Text.FindFrom` | parser/sql_parser.py:176 | the first occurrence at or after a position, or -1 when there is none |
| `Text.Find` | parser/sql_parser.py:176 | `find` is -1 exactly when the substring does not occur; otherwise it is the first occurrence |
| `Text.IndexOf` | parser/sql_parser.py:71 | the position of the first separator, or the length when there is none |
| `Text.SplitOn` | parser/sql_parser.py:91 | `split(c)` gives at least one piece, and no piece contains `c` |
| `Text.SplitOnJoin` | parser/sql_parser.py:91 | joining the pieces of `split(c)` with `c` gives the text back |
| `Text.WordEnd` | parser/sql_parser.py:106 | a `\w+` run ends at the first non-word character |
| `Text.Tokens` | parser/sql_parser.py:415 | `split()` gives non-empty pieces without whitespace |
| `Text.Unquote` | parser/sql_parser.py:64 | `[1:-1]` drops the first and the last character |
| `Text.CollapseDoubled` | parser/sql_parser.py:237 | replacing `''` by `'` undoes the doubling of every quote |
| `Schema.ValidateByType` | core/database.py:27-47 | `validate` per declared type: None is valid iff the column is nullable; INTEGER takes ints and bools, FLOAT ints, bools and floats, TEXT strings, BOOLEAN bools; an unknown type takes anything |
| `Schema.ValidateTypeHierarchy` | core/database.py:32-44 | whatever BOOLEAN accepts INTEGER accepts, and whatever INTEGER accepts FLOAT accepts |
| `Schema.DateFields` | core/database.py:38-41 | a text date with a four-digit year is valid iff month and day have the `strptime` shapes, the year is at least 1 and the day fits the month, leap years included |
| `Schema.LeapDayExample` | core/database.py:40 | 2024-02-29 is accepted |
| `Schema.NoLeapDayExample` | core/database.py:40 | 2023-02-29 is rejected |
| `Schema.ShortFieldsExample` | core/database.py:40 | one-digit month and day fields are accepted |
| `Schema.NoThirteenthMonthExample` | core/database.py:40 | month 13 is rejected |
| `Schema.FromDict` | core/database.py:58-66 | `from_dict` needs `name` and `data_type`; missing flags default to not primary, not unique, nullable |
| `Schema.FromDictToDict` | core/database.py:49-66 | `from_dict(to_dict(c))` gives back `c` |
| `Schema.PositionOf` | core/database.py:263 | the first column with the name, or the length when there is none |
| `Schema.ColumnMapDistinct` | core/database.py:71 | the name-keyed column dict has distinct names |
| `Schema.ColumnMapCovers` | core/database.py:71 | every given column's name is in the dict |
| `Schema.ColumnMapLastWins` | core/database.py:71 | each entry of the dict is the last given column of its name |
| `Matching.LikeAtIffPrefix` | core/database.py:150-152 | an anchored LIKE match succeeds iff the pattern matches the whole of some prefix |
| `Matching.LikeSearchIffSubstring` | core/database.py:150-152 | the LIKE search succeeds iff the pattern matches the whole of some substring of the value |
| `Matching.SearchFindsSubstring` | core/database.py:152 | a successful LIKE search exhibits the substring the pattern matches |
| `Matching.SubstringIsFound` | core/database.py:152 | a substring the pattern matches makes the LIKE search succeed |
| `Matching.LikeExample` | core/database.py:150-152 | '%li%' finds 'Alice' in either case and does not find 'Bob' |
| `Matching.MatchRow` | core/database.py:134-158 | the per-row loop over the where-keys computes exactly `RowMatches` |
| `Matching.FilterRejectPartition` | core/database.py:215-258 | every row is selected or rejected, and the deleted count equals the selected count |
| `Matching.MatchPositionsExact` | core/database.py:219-245 | the collected delete positions are strictly increasing and are exactly the matching rows |
| `Matching.FilterAtPositions` | core/database.py:129-162 | the selected rows are the rows at the matching positions, in order |
| `Matching.FilterMembers` | core/database.py:129-162 | a row is selected iff it is stored and matches |
| `Matching.EmptyWhereSelectsAll` | core/database.py:135 | an empty WHERE selects every row and deletes every row |
| `Matching.FilterAppend` | core/database.py:129-162 | selecting from and deleting over concatenated data distribute over the concatenation |
| `Index.IndexManager.constructor` | core/index.py:5-7 | a new index is empty |
| `Index.IndexManager.Add` | core/index.py:9-19 | `add` files the row id under each of the row's (column, `str(value)`) pairs |
| `Index.IndexManager.Remove` | core/index.py:21-27 | `remove` discards the id from the buckets of the row's own pairs that exist |
| `Index.IndexManager.Update` | core/index.py:29-32 | `update` is remove of the old row, then add of the new |
| `Index.LookupAdded` | core/index.py:9-19 | after `add`, a search finds what it found before plus the id exactly where the row's value has the searched key |
| `Index.AddFindsRow` | core/index.py:9-19 | after `add`, every column of the row finds the id, and no earlier result is lost |
| `Index.LookupRemoved` | core/index.py:21-27 | after `remove`, a search finds what it found before minus the id where the row's value has the searched key |
| `Index.RemoveAbsentIsNoop` | core/index.py:21-27 | removing an id that is filed nowhere changes no search |
| `Index.UpdateFindsNewRow` | core/index.py:29-32 | after `update`, the id is found exactly under the new row's pairs, plus old filings the old row did not cover |
| `Index.LookupByKey` | core/index.py:34-38 | values with the same string form find the same ids |
| `Index.NeverAddedColumn` | core/index.py:36-39 | a column never indexed finds nothing |
| `Tables.IndexNameFor` | core/database.py:266-267 | a given non-empty index name is kept; otherwise the name is `idx_<table>_<column>` |
| `Tables.CheckColumnsFills` | core/database.py:97-109 | the checked row keeps every supplied value and only adds auto-generated ids, each in the range the counter advanced over |
| `Tables.CheckColumnsIssues` | core/database.py:98-101 | every id the counter advanced over was written into the row |
| `Tables.CheckColumnsSound` | core/database.py:97-109 | a check that passes leaves every column conforming (valid value, or absent and nullable) |
| `Tables.CheckColumnsComplete` | core/database.py:97-109 | values that already conform pass unchanged and use no id |
| `Tables.CheckColumnsFailure` | core/database.py:97-109 | a failing check names an error that some column really has |
| `Tables.AutoIdSinglePrimary` | core/database.py:98-101 | a missing INTEGER primary key receives `next_id`, and the counter moves by one |
| `Tables.DuplicateColumnIff` | core/database.py:111-116 | the unique check fails iff some unique column's new value equals that column in a stored row, and it names such a column |
| `Tables.InsertKeepsUnique` | core/database.py:111-120 | an insert that passes the unique check keeps unique columns pairwise distinct |
| `Tables.UniqueMeansDistinct` | core/database.py:111-116 | under the uniqueness invariant, two stored rows never hold equal values in a unique column |
| `Tables.NullClashesWithMissing` | core/database.py:113-116 | an explicit NULL in a unique column clashes with a stored row lacking that column |
| `Tables.DeleteKeepsUnique` | core/database.py:215-258 | deleting rows keeps the uniqueness invariant |
| `Tables.InsertThenSelect` | core/database.py:94-162 | a row inserted and then searched for by its own values is found after the earlier matches |
| `Tables.UpdatedRowsEffect` | core/database.py:193-204 | a matching row takes the set values and keeps its other columns; a non-matching row is unchanged |
| `Tables.UpdateIdempotent` | core/database.py:164-213 | repeating an update whose set columns are not WHERE columns changes nothing more |
| `Tables.ConsistentAppend` | core/database.py:123-125 | filing an inserted row keeps an index equal to the row positions of each value |
| `Tables.UpdateKeepsConsistentAll` | core/database.py:206-208 | re-filing the updated rows keeps an index equal to the row positions of each value |
| `Tables.UnindexedShrinks` | core/database.py:248-253 | deleting only ever removes ids from index searches |
| `Tables.UnindexedLookup` | core/database.py:248-253 | after a delete, an index search gives the old ids minus the deleted positions |
| `Tables.DeleteLeavesStaleIndex` | core/database.py:248-253 | deleting row 0 of two leaves the index pointing at position 1 for the survivor, now at 0 |
| `Tables.Table.constructor` | core/database.py:69-84 | a table takes the column dict, no indexes, and the stored rows and counter when present (none and 1 otherwise) |
| `Tables.Table.CheckRow` | core/database.py:97-109 | the column loop computes `CheckColumns` |
| `Tables.Table.FindDuplicate` | core/database.py:111-116 | the unique-check loop computes `DuplicateColumn` |
| `Tables.Table.AddToIndexes` | core/database.py:123-125 | every index files the new row |
| `Tables.Table.RemoveFromIndexes` | core/database.py:251-253 | every index unfiles the removed row |
| `Tables.Table.UpdateIndexes` | core/database.py:206-208 | every index re-files the updated row |
| `Tables.Table.Insert` | core/database.py:94-127 | invalid values and duplicates leave rows and indexes alone and report the error; otherwise the checked row is appended, saved, filed in every index and its position returned; the counter advances in every case |
| `Tables.Table.Select` | core/database.py:129-162 | the result is the stored rows that match, in order |
| `Tables.Table.MatchingPositions` | core/database.py:219-245 | the collected positions are those of the matching rows |
| `Tables.Table.FindBadAssignment` | core/database.py:195-199 | none is found iff every set value is valid for its column; the one found is the first invalid name in the SET dict's key order |
| `Tables.FirstBad` | core/database.py:195-199 | the first name in the key order whose value is invalid for its known column: none iff no name in the order is invalid |
| `Tables.FirstBadIsFirst` | core/database.py:195-199 | the name found sits at some position of the key order, and every name before it is valid |
| `Tables.FirstBadFound` | core/database.py:195-199 | when the order lists exactly the SET dict's keys, no invalid name is found iff every assignment is valid |
| `Tables.Table.Update` | core/database.py:164-213 | an invalid set value with some match fails, names the first invalid column in the SET dict's key order, and changes nothing; otherwise the matching rows are updated, re-filed, saved when any matched, and their count returned |
| `Tables.Table.UpdateRows` | core/database.py:168-209 | the row loop updates exactly the matching rows and re-files them; at the first match with an invalid set value it stops, reporting the first invalid column in key order, with nothing changed |
| `Tables.Table.PopRow` | core/database.py:249-253 | one row leaves the data and every index |
| `Tables.Table.Delete` | core/database.py:215-258 | the non-matching rows remain in order, the matches are unfiled at their old positions, saved when any, and their count returned |
| `Tables.Table.DeleteRows` | core/database.py:247-253 | popping the matches from the last one down leaves exactly the non-matching rows |
| `Tables.Table.CreateIndex` | core/database.py:261-275 | an unknown column fails; otherwise a new index under the chosen name holds exactly the row positions of each value of the column |
| `Tables.Table.DropIndex` | core/database.py:277-280 | the named index is gone and nothing else changes |
| `SqlScan.SplitValues` | parser/sql_parser.py:130-145 | the value-splitting loop computes `ValueItems`: cut at commas outside quotes, each item stripped |
| `SqlScan.JoinPieces` | parser/sql_parser.py:133-142 | the pieces a splitting loop cuts, joined back with commas, give the text |
| `SqlScan.ValueItemsOfJoin` | parser/sql_parser.py:130-145 | items without unquoted commas, joined with commas, split back into the stripped items |
| `SqlScan.QuotedCommaKept` | parser/sql_parser.py:133-141 | a comma inside quotes does not split a value |
| `SqlScan.SplitDefinitions` | parser/sql_parser.py:386-404 | the definition loop computes `DefinitionItems`: cut at depth-0 commas, blank pieces dropped |
| `SqlScan.DefinitionItemsUnpadded` | parser/sql_parser.py:396-404 | every definition is non-empty and stripped |
| `SqlScan.DefinitionItemsOfJoin` | parser/sql_parser.py:386-404 | definitions without depth-0 commas, joined with commas, split back into the stripped definitions |
| `SqlScan.ParenthesizedCommaKept` | parser/sql_parser.py:390-400 | a comma inside parentheses does not split a definition |
| `SqlScan.ScanPairs` | parser/sql_parser.py:194-231 | the SET scanner loop computes the specification scanner |
| `SqlScan.CleanValue` | parser/sql_parser.py:235-237 | a quoted value is unquoted and its doubled quotes collapsed; others stay |
| `SqlScan.CleanValues` | parser/sql_parser.py:234-238 | every SET value is cleaned |
| `SqlScan.ScanSetClause` | parser/sql_parser.py:194-238 | the SET reader computes `SetValues` and the dict's key order `SetOrder` |
| `SqlScan.SetOrder` | parser/sql_parser.py:194-238 | the key order of the SET dict lists each of its keys exactly once |
| `SqlScan.ScanKeeps` | parser/sql_parser.py:222-231 | a SET scan that starts from a key order of its pairs ends with a key order of the pairs it stores |
| `SqlScan.SetClauseRoundTrip` | parser/sql_parser.py:194-238 | a SET clause written from plain names and quoted values reads back as those pairs, its keys in the order of each name's first assignment |
| `SqlHeaders.Leftmost` | parser/sql_parser.py:33 | the search takes the leftmost position at which the pattern matches |
| `SqlHeaders.DropTableHeader` | parser/sql_parser.py:104-115 | no match iff the header occurs nowhere; the captured name is a word |
| `SqlHeaders.DropIndexHeader` | parser/sql_parser.py:361-373 | no match iff the header occurs nowhere; both names are words |
| `SqlHeaders.CreateIndexHeader` | parser/sql_parser.py:346-359 | no match iff the header occurs nowhere; the three names are words |
| `SqlHeaders.CreateTableHeader` | parser/sql_parser.py:376-384 | no match iff the header occurs nowhere; the table name is a word |
| `SqlHeaders.InsertHeader` | parser/sql_parser.py:118-127 | no match iff the header occurs nowhere; the table name is a word |
| `SqlHeaders.SelectHeader` | parser/sql_parser.py:32-42 | no match iff the header occurs nowhere; the table name is a word |
| `SqlHeaders.UpdateHeader` | parser/sql_parser.py:186-191 | a match gives a word for the table and a SET text within one line |
| `SqlClauses.ColumnNames` | parser/sql_parser.py:126 | one name per comma piece, stripped and lower-cased |
| `SqlClauses.PairedKeys` | parser/sql_parser.py:148-163 | the zipped row has exactly the columns that were paired with a value |
| `SqlClauses.PairedLastWins` | parser/sql_parser.py:148-163 | a column's value is the literal paired with its last occurrence |
| `SqlClauses.IntLiteralOfString` | parser/sql_parser.py:159-161 | `int()` reads back the decimal form of any integer |
| `SqlClauses.LiteralInt` | parser/sql_parser.py:159-161 | an integer literal becomes an int |
| `SqlClauses.LiteralQuoted` | parser/sql_parser.py:152-153 | a quoted literal becomes its text without quotes |
| `SqlClauses.LiteralPointFloat` | parser/sql_parser.py:154-156 | digits, a point and digits become a float |
| `SqlClauses.LiteralTwoPoints` | parser/sql_parser.py:154-158 | a literal with two points fails `float()` and stays text |
| `SqlClauses.DigitsValueOfNat` | parser/sql_parser.py:79-80 | a digit string reads back as the number that produced it |
| `SqlClauses.LikeSplit` | parser/sql_parser.py:57 | a split cuts at an occurrence of whitespace-LIKE-whitespace |
| `SqlClauses.LikeGuardSplits` | parser/sql_parser.py:56-58 | when the upper-cased clause contains ` LIKE `, the split succeeds |
| `SqlClauses.WhereOperator` | parser/sql_parser.py:53-83 | for every clause and reader, the operator is LIKE exactly when the upper-cased clause holds ` LIKE `; the condition names at most one column; a clause with neither ` LIKE ` nor `=` is no condition |
| `SqlClauses.WhereEqualsKey` | parser/sql_parser.py:69-83 | in SELECT and DELETE, for every clause `k=rest` without ` LIKE ` and with no `=` in `k`, the key is `k` stripped and lower-cased and the value is read from `rest` stripped |
| `SqlClauses.WhereEqualsNumber` | parser/sql_parser.py:79-80 | `name = 42` is an equality with the int 42 in every reader |
| `SqlClauses.WhereEqualsQuoted` | parser/sql_parser.py:259-273 | `name = 'text'` gives the text; UPDATE and DELETE collapse doubled quotes, SELECT keeps them |
| `SqlClauses.WhereLike` | parser/sql_parser.py:246-257 | `name LIKE 'p'` gives the pattern p under the lower-cased name |
| `SqlClauses.LikeInsideEqualsValue` | parser/sql_parser.py:312-322 | a LIKE inside a quoted equality value turns the clause into a LIKE test on a garbled key |
| `SqlClauses.OnColumns` | parser/sql_parser.py:90-100 | the ON text gives two columns iff it has exactly one `=` |
| `SqlClauses.QualifiedColumn` | parser/sql_parser.py:93-94 | a qualified column `t.c` reads as `c`, lower-cased |
| `SqlClauses.AfterLastSuffix` | parser/sql_parser.py:93 | the part after the last dot is the unqualified name |
| `SqlClauses.ColumnDefinition` | parser/sql_parser.py:413-434 | a definition has a name and a type, and a primary key is never nullable |
| `SqlParser.CreateTableCommand` | parser/sql_parser.py:376-410 | a CREATE TABLE command, or the CREATE TABLE syntax error |
| `SqlParser.DropTableCommand` | parser/sql_parser.py:104-115 | a DROP TABLE command, or the DROP TABLE syntax error |
| `SqlParser.InsertCommand` | parser/sql_parser.py:117-169 | an INSERT command, or the INSERT syntax error |
| `SqlParser.SelectCommand` | parser/sql_parser.py:29-102 | a SELECT command, or the SELECT syntax error; a join it reads is always INNER |
| `SqlParser.Texts` | parser/sql_parser.py:233-238 | SET values stay strings, under the same keys |
| `SqlParser.UpdateCommand` | parser/sql_parser.py:171-281 | an UPDATE command, carrying a key order of its SET dict, or the UPDATE syntax error |
| `SqlParser.DeleteCommand` | parser/sql_parser.py:283-344 | DELETE never fails to parse and always gives a DELETE command (for ASCII digits; see Digits under Left out) |
| `SqlParser.CreateIndexCommand` | parser/sql_parser.py:346-359 | a CREATE INDEX command, or the CREATE INDEX syntax error |
| `SqlParser.DropIndexCommand` | parser/sql_parser.py:361-373 | a DROP INDEX command, or the DROP INDEX syntax error |
| `SqlParser.FirstKeyword` | parser/sql_parser.py:10-25 | the first statement keyword, in dispatch order, that the query starts with |
| `SqlParser.ReadStatement` | parser/sql_parser.py:11-25 | a reader fails only with a syntax error, and an update it reads carries a key order of its SET dict |
| `SqlParser.ReadStatementKind` | parser/sql_parser.py:10-25 | each reader produces a command of its own kind |
| `SqlParser.KeywordsExclusive` | parser/sql_parser.py:10-25 | no query starts with two different statement keywords |
| `SqlParser.ParseByKeyword` | parser/sql_parser.py:6-25 | a query starting with a keyword goes to that keyword's reader, stripped |
| `SqlParser.ParseUnsupported` | parser/sql_parser.py:26-27 | the query is unsupported iff it starts with no keyword; every other failure is a syntax error |
| `SqlParser.ParseKind` | parser/sql_parser.py:6-25 | a parsed command's kind is the keyword the query starts with |
| `SqlParser.DefineColumns` | parser/sql_parser.py:396-404 | the definition loop reads each definition into a column |
| `SqlParser.ReadColumns` | parser/sql_parser.py:384-404 | the columns of a CREATE TABLE body |
| `SqlParser.ParseCreateTable` | parser/sql_parser.py:375-410 | the CREATE TABLE reader computes `CreateTableCommand` |
| `SqlParser.PairValues` | parser/sql_parser.py:148-163 | the pairing loop computes the zipped row |
| `SqlParser.ReadRow` | parser/sql_parser.py:125-163 | the INSERT row from the column and value texts |
| `SqlParser.ParseInsert` | parser/sql_parser.py:117-169 | the INSERT reader computes `InsertCommand` |
| `SqlParser.ParseUpdate` | parser/sql_parser.py:171-281 | the UPDATE reader computes `UpdateCommand` |
| `SqlParser.RunReader` | parser/sql_parser.py:11-25 | the dispatch runs the reader of the keyword found, computing `ReadStatement` |
| `SqlParser.ParseQuery` | parser/sql_parser.py:6-27 | `parse_query` computes `Parse` |
| `SqlStatements.ParseDropTable` | parser/sql_parser.py:104-115 | `DROP TABLE t` parses to dropping `t`, lower-cased |
| `SqlStatements.ReadDropIndex` | parser/sql_parser.py:361-373 | `DROP INDEX i ON t` reads as dropping index `i` of `t` |
| `SqlStatements.ReadCreateIndex` | parser/sql_parser.py:346-359 | `CREATE INDEX i ON t (c)` reads as that index on that column |
| `SqlStatements.ReadSelectAll` | parser/sql_parser.py:29-50 | `SELECT * FROM t` reads as an unfiltered select of `t` with no join and no order |
| `SqlStatements.ReadSelectWhere` | parser/sql_parser.py:29-82 | `SELECT * FROM t WHERE w` reads as a select of the lower-cased `t` with the WHERE reading of `w` (condition and operator), no order and no join, when `w` holds neither ORDER BY nor JOIN |
| `SqlStatements.ReadSelectJoin` | parser/sql_parser.py:29-99 | `SELECT * FROM t JOIN u ON a.x = b.y` reads as an unfiltered select of `t` with an INNER join on `u`, the qualifiers dropped and both columns lower-cased |
| `SqlStatements.ReadUpdate` | parser/sql_parser.py:171-281 | `UPDATE t SET k1 = 'v1', ... WHERE w` reads as an update of the lower-cased `t` (`t` and the SET text free of WHERE, names lower-case words, each value written between quotes with its quotes doubled) whose SET map holds each value, unquoted, under its name, a later assignment to the same name winning, whose key order is the order of each name's first assignment, with the WHERE reading of `w` |
| `SqlStatements.WhereInsideSetValue` | parser/sql_parser.py:173-191 | as written, `UPDATE t SET k = 'x WHERE y'` cuts the SET text at `'x` and reads no condition, so the update reaches every row |
| `SqlStatements.ReadDeleteAll` | parser/sql_parser.py:283-303 | `DELETE FROM t` reads as deleting every row of `t` |
| `SqlStatements.ReadDeleteWhere` | parser/sql_parser.py:283-344 | `DELETE FROM t WHERE w` reads as deleting with the WHERE reading of `w` |
| `SqlStatements.ReadDeleteWhereNumber` | parser/sql_parser.py:324-337 | `DELETE FROM t WHERE k = n` deletes the rows whose `k` equals the int `n` |
| `SqlStatements.ReadCreateTable` | parser/sql_parser.py:375-410 | `CREATE TABLE t (body)` reads as `t` with the columns of the body |
| `SqlStatements.TableColumnsOfJoin` | parser/sql_parser.py:386-404 | a body joined from definitions reads back one column per definition |
| `SqlStatements.ReadInsert` | parser/sql_parser.py:117-169 | `INSERT INTO t (cols) VALUES (vals)` reads as the zipped row |
| `SqlStatements.NameOnlyColumn` | parser/sql_parser.py:413-423 | a bare name is a nullable, non-primary TEXT column |
| `SqlStatements.PrimaryKeyColumn` | parser/sql_parser.py:413-434 | for all words n and t, `n t PRIMARY KEY` reads as the primary, non-nullable column `n` (lower-cased) of type `t` (upper-cased), unique exactly when `UNIQUE` occurs in the upper-cased definition |
| `Databases.PrimaryCountZero` | core/database.py:316 | no primary key is counted iff no column is primary |
| `Databases.PrimaryCountAtMostOne` | core/database.py:315-318 | at most one primary key is counted iff no two distinct columns are primary |
| `Databases.UpperTypesOfParsed` | core/database.py:356-365 | re-upper-casing the parsed column types changes nothing |
| `Databases.ColumnDefinitionUpper` | parser/sql_parser.py:419 | a parsed data type is already upper-case |
| `Databases.Decoded` | core/database.py:294 | decoding succeeds with one column per record, or names a record that fails |
| `Databases.DecodedRecords` | core/database.py:303-306 | the saved column records decode back to the columns |
| `Databases.PrefixedEntries` | core/database.py:404 | the prefixed right row holds each right value under `table.key`, and nothing else |
| `Databases.JoinedConcat` | core/database.py:396-418 | the join of concatenated left rows is the concatenation of the joins |
| `Databases.JoinedAt` | core/database.py:397-416 | the output of each left row sits between those of the rows before and after it |
| `Databases.InnerDropsUnmatched` | core/database.py:400-405 | INNER drops a left row without matches |
| `Databases.LeftKeepsUnmatched` | core/database.py:406-416 | LEFT keeps an unmatched left row once, with None under every qualified right column and its own other values |
| `Databases.LeftJoinCovers` | core/database.py:406-416 | LEFT produces at least one row per left row |
| `Databases.InnerIsLeftWhenAllMatch` | core/database.py:400-411 | when every left row has a match, INNER and LEFT agree |
| `Databases.OtherJoinIsEmpty` | core/database.py:392-417 | a join type other than INNER or LEFT produces no rows |
| `Databases.ProbeMembers` | core/database.py:398 | the probe finds exactly the right rows whose right column equals the left value |
| `Databases.InnerMembers` | core/database.py:396-405 | a row is in the INNER join iff it merges some left row with some right row it joins with |
| `Databases.Database.constructor` | core/database.py:283-295 | one table per metadata entry, each with its decoded columns and stored rows, nothing saved |
| `Databases.Database.LoadTables` | core/database.py:289-295 | the loading loop builds exactly the tables of the metadata |
| `Databases.Database.GetTable` | core/database.py:332-334 | the table filed under the name, or none when there is no such table |
| `Databases.Database.CreateTable` | core/database.py:310-323 | a taken name and two primary keys fail and change nothing; otherwise a fresh table is filed and the metadata saved |
| `Databases.Database.CountPrimaries` | core/database.py:316-317 | the loop counts the primary columns |
| `Databases.Database.DropTable` | core/database.py:325-330 | an existing table is removed, its storage deleted and the metadata saved; an absent name changes nothing |
| `Databases.Database.JoinRows` | core/database.py:396-418 | the join loop computes `Joined` |
| `Databases.Database.JoinOne` | core/database.py:398-416 | the rows one left row contributes |
| `Databases.Database.NullFilled` | core/database.py:413-416 | the left row with None under every qualified right column |
| `Databases.Database.ExecuteParsed` | core/database.py:351-455 | each command has the effect and result of its table operation; the other tables stay as they were |
| `Databases.Database.RunCreateTable` | core/database.py:355-366 | CREATE TABLE upper-cases the types and creates the table |
| `Databases.Database.RunDropTable` | core/database.py:368-369 | DROP TABLE drops the table |
| `Databases.Database.RunInsert` | core/database.py:371-375 | INSERT on an unknown table fails; otherwise it is the table's insert |
| `Databases.Database.RunSelect` | core/database.py:377-420 | SELECT filters the table, then joins with the join table, failing when either is unknown |
| `Databases.Database.RunUpdate` | core/database.py:422-432 | UPDATE on an unknown table fails; otherwise it is the table's update, whose error names the first invalid column in SET-clause order |
| `Databases.Database.RunDelete` | core/database.py:434-440 | DELETE on an unknown table fails; otherwise it is the table's delete |
| `Databases.Database.RunCreateIndex` | core/database.py:442-446 | CREATE INDEX on an unknown table fails; otherwise it is the table's create_index |
| `Databases.Database.RunDropIndex` | core/database.py:448-452 | DROP INDEX on an unknown table fails; otherwise it is the table's drop_index |
| `Databases.Database.ExecuteQuery` | core/database.py:336-349 | a parse error is returned and nothing changes; otherwise the parsed command is executed |

## Left out

- Storage: `StorageEngine` (JSON/pickle files) is not part of this model. The rows and counter a table loads, and the metadata a database loads, are constructor parameters. What gets saved is kept in ghost state: `saved` on a table, and `savedMeta` and the list of `deleted` tables on a database.
- Floats: a float is its literal text. `float()` conversion, float arithmetic and `1.0 == 1` are not modelled.
- Dates: a `datetime` object is its text. `strptime` is modelled only as the `%Y-%m-%d` shape check that `validate` relies on.
- Regular expressions: every pattern is written out as the clause shape it accepts. LIKE patterns interpret `%` and `_`; other regex metacharacters in a pattern are taken literally, and a malformed pattern does not raise.
- Character classes: case folding and `\w` are ASCII only. Whitespace is Python's `isspace` set.
- Digits: `str.isdigit` and `int()` accept ASCII digits only here. Python also accepts other Unicode digits. A WHERE value such as `٣`, or an INSERT value, becomes the int 3 in the source but stays text in the model. A digit that `isdigit` accepts but `int()` rejects, such as `²`, makes the source raise `ValueError` in the SELECT, UPDATE and DELETE WHERE readers. The model reads it as text instead.
- Tables.Table.Insert: the source writes the generated id into the caller's `values` dict, so the caller sees its own dict change. The model builds a new row and leaves its argument alone. The SQL path never reuses that dict.
- Output column order: rows are maps, so the key order of returned dicts is not modelled. The one order the core depends on, that of the SET dict, is carried beside it as a list of its keys.
- `execute_parsed_query` on hand-written dicts: the parser's `Command` type is closed. The "Unknown query type" branch and `KeyError`s from missing dict keys therefore cannot arise.
- `IndexManager.sorted_keys` is never read or written after construction, so it is omitted.
- Index.IndexManager.Search: it has no contract of its own. What a search returns is stated through `Lookup` by the `Index` lemmas.
- Databases.Database.constructor: requires every metadata entry to decode. The source raises a `KeyError` part-way through loading instead.
- The REPL, the web application, the CLI entry points and their formatting are outside the core.
