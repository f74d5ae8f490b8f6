/**
 * The statement headers of the SQL parser (parser/sql_parser.py): what each `re.search` or
 * `re.match` pattern accepts and which text its groups capture. Each pattern is written out
 * as the clause shape it accepts. Python's matcher takes the leftmost starting position at
 * which the pattern matches. A greedy run (`\w+`, `\s+`, `(.*)`) followed by a character it
 * cannot contain ends where the run ends. A lazy group (`(.*?)`) ends at the first position
 * from which the rest of the pattern matches. Letters compare without regard to ASCII case.
 */
module SqlHeaders {
  import opened Text
  import opened Outcomes

  /** The first position in `[i, n)` where `P` holds, or `n` when there is none. */
  function Leftmost(P: nat -> bool, i: nat, n: nat): (r: nat)
    requires i <= n
    ensures i <= r <= n
    ensures r < n ==> P(r)
    ensures forall k :: i <= k < r ==> !P(k)
    decreases n - i
  {
    if i == n then n else if P(i) then i else Leftmost(P, i + 1, n)
  }

  predicate SpaceAt(q: string, i: nat)
  {
    i < |q| && IsSpace(q[i])
  }

  predicate WordAt(q: string, i: nat)
  {
    i < |q| && IsWordChar(q[i])
  }

  /** A maximal run of word characters: what `(\w+)` captures when a non-word character or
      the end follows. */
  predicate IsWord(s: string)
  {
    s != [] && forall k :: 0 <= k < |s| ==> IsWordChar(s[k])
  }

  /** The word starting at `i`. */
  function WordFrom(q: string, i: nat): (w: string)
    requires WordAt(q, i)
    ensures IsWord(w) && w == q[i..WordEnd(q, i)]
  {
    q[i..WordEnd(q, i)]
  }

  /** Position of the last `c` in `s`, or -1. */
  function LastIndex(s: string, c: char): (r: int)
    ensures -1 <= r < |s|
    ensures r >= 0 ==> s[r] == c
    ensures forall k :: r < k < |s| ==> s[k] != c
  {
    if s == [] then -1 else if s[|s| - 1] == c then |s| - 1 else LastIndex(s[..|s| - 1], c)
  }

  /** Position of the first newline at or after `i`, or `|s|`: where `.` stops without DOTALL. */
  function LineEnd(s: string, i: nat): (j: nat)
    requires i <= |s|
    ensures i <= j <= |s|
    ensures j < |s| ==> s[j] == '\n'
    ensures forall k :: i <= k < j ==> s[k] != '\n'
    decreases |s| - i
  {
    if i == |s| || s[i] == '\n' then i else LineEnd(s, i + 1)
  }

  // ---------------------------------------------------------------------------------------
  // DROP TABLE, DROP INDEX, CREATE INDEX

  /** The DROP TABLE header, with its table word, starts at `i`. */
  predicate DropTableAt(q: string, i: nat)
  {
    AtCI(q, i, "DROP TABLE ") && WordAt(q, i + 11)
  }

  /** DROP TABLE followed by a word, anywhere in the text, any case: the table name captured. */
  function DropTableHeader(q: string): (r: Option<string>)
    ensures r.None? <==> forall i :: 0 <= i <= |q| ==> !DropTableAt(q, i)
    ensures r.Some? ==> IsWord(r.value)
  {
    var P := (i: nat) => DropTableAt(q, i);
    assert forall k: nat :: P(k) == DropTableAt(q, k);
    var i := Leftmost(P, 0, |q| + 1);
    if i <= |q| then Some(WordFrom(q, i + 11)) else None
  }

  /** The DROP INDEX header, with its index and table words, starts at `i`. */
  predicate DropIndexAt(q: string, i: nat)
  {
    AtCI(q, i, "DROP INDEX ") && WordAt(q, i + 11) && AtCI(q, WordEnd(q, i + 11), " ON ")
    && WordAt(q, WordEnd(q, i + 11) + 4)
  }

  /** DROP INDEX, a word, ON, a word, anywhere in the text, any case: index and table names. */
  function DropIndexHeader(q: string): (r: Option<(string, string)>)
    ensures r.None? <==> forall i :: 0 <= i <= |q| ==> !DropIndexAt(q, i)
    ensures r.Some? ==> IsWord(r.value.0) && IsWord(r.value.1)
  {
    var P := (i: nat) => DropIndexAt(q, i);
    assert forall k: nat :: P(k) == DropIndexAt(q, k);
    var i := Leftmost(P, 0, |q| + 1);
    if i <= |q| then Some(DropIndexGroups(q, i)) else None
  }

  function DropIndexGroups(q: string, i: nat): (r: (string, string))
    requires DropIndexAt(q, i)
    ensures IsWord(r.0) && IsWord(r.1)
  {
    (WordFrom(q, i + 11), WordFrom(q, WordEnd(q, i + 11) + 4))
  }

  /** The CREATE INDEX header, with its index, table and parenthesized column words, starts at `i`. */
  predicate CreateIndexAt(q: string, i: nat)
  {
    AtCI(q, i, "CREATE INDEX ") && WordAt(q, i + 13)
    && var e := WordEnd(q, i + 13);
    AtCI(q, e, " ON ") && WordAt(q, e + 4)
    && var f := WordEnd(q, e + 4);
    AtCI(q, f, " (") && WordAt(q, f + 2) && AtCI(q, WordEnd(q, f + 2), ")")
  }

  /** CREATE INDEX, a word, ON, a word, a space and a parenthesized word, anywhere in the text,
      any case: index, table and column names. */
  function CreateIndexHeader(q: string): (r: Option<(string, string, string)>)
    ensures r.None? <==> forall i :: 0 <= i <= |q| ==> !CreateIndexAt(q, i)
    ensures r.Some? ==> IsWord(r.value.0) && IsWord(r.value.1) && IsWord(r.value.2)
  {
    var P := (i: nat) => CreateIndexAt(q, i);
    assert forall k: nat :: P(k) == CreateIndexAt(q, k);
    var i := Leftmost(P, 0, |q| + 1);
    if i <= |q| then Some(CreateIndexGroups(q, i)) else None
  }

  function CreateIndexGroups(q: string, i: nat): (r: (string, string, string))
    requires CreateIndexAt(q, i)
    ensures IsWord(r.0) && IsWord(r.1) && IsWord(r.2)
  {
    var e := WordEnd(q, i + 13);
    var f := WordEnd(q, e + 4);
    (WordFrom(q, i + 13), WordFrom(q, e + 4), WordFrom(q, f + 2))
  }

  // ---------------------------------------------------------------------------------------
  // CREATE TABLE and INSERT

  /** Position of the `(` after `\w+\s*` starting at `i`, when a word starts there. */
  function OpenParen(q: string, i: nat): nat
    requires WordAt(q, i)
  {
    SpaceEnd(q, WordEnd(q, i))
  }

  /** The CREATE TABLE header starts at `i`: a table word and a parenthesized body running to the
      last `)` (the body may span lines). */
  predicate CreateTableAt(q: string, i: nat)
  {
    AtCI(q, i, "CREATE TABLE ") && WordAt(q, i + 13)
    && var p := OpenParen(q, i + 13); p < |q| && q[p] == '(' && LastIndex(q, ')') > p
  }

  /** The table name and the column-list text: everything between the `(` and the last `)`. */
  function CreateTableHeader(q: string): (r: Option<(string, string)>)
    ensures r.None? <==> forall i :: 0 <= i <= |q| ==> !CreateTableAt(q, i)
    ensures r.Some? ==> IsWord(r.value.0)
  {
    var P := (i: nat) => CreateTableAt(q, i);
    assert forall k: nat :: P(k) == CreateTableAt(q, k);
    var i := Leftmost(P, 0, |q| + 1);
    if i <= |q| then Some(CreateTableGroups(q, i)) else None
  }

  function CreateTableGroups(q: string, i: nat): (r: (string, string))
    requires CreateTableAt(q, i)
    ensures IsWord(r.0)
  {
    var p := OpenParen(q, i + 13);
    (WordFrom(q, i + 13), q[p + 1..LastIndex(q, ')')])
  }

  /** INSERT INTO, a table word and an opening parenthesis start at `i`. */
  predicate InsertOpenAt(q: string, i: nat)
  {
    AtCI(q, i, "INSERT INTO ") && WordAt(q, i + 12)
    && var p := OpenParen(q, i + 12); p < |q| && q[p] == '('
  }

  /** A closing parenthesis, VALUES, and a parenthesized value list to a later `)` start at `j`. */
  predicate ValuesAt(q: string, j: nat)
  {
    j < |q| && q[j] == ')'
    && var v := SpaceEnd(q, j + 1);
    AtCI(q, v, "VALUES")
    && var o := SpaceEnd(q, v + 6);
    o < |q| && q[o] == '(' && LastIndex(q, ')') > o
  }

  /** Where the lazy column group of INSERT ends: the first `)` followed by `VALUES (...)`. */
  function ColumnsEnd(q: string, i: nat): (j: nat)
    requires InsertOpenAt(q, i)
    ensures OpenParen(q, i + 12) < j <= |q| && (j < |q| ==> ValuesAt(q, j))
  {
    var P := (j: nat) => ValuesAt(q, j);
    assert forall k: nat :: P(k) == ValuesAt(q, k);
    Leftmost(P, OpenParen(q, i + 12) + 1, |q|)
  }

  predicate InsertAt(q: string, i: nat)
  {
    InsertOpenAt(q, i) && ColumnsEnd(q, i) < |q|
  }

  datatype InsertParts = InsertParts(table: string, columns: string, values: string)

  /** INSERT INTO, a table word, a parenthesized column list (lazy), VALUES and a parenthesized
      value list running to the last closing parenthesis; any case, newlines allowed. */
  function InsertHeader(q: string): (r: Option<InsertParts>)
    ensures r.None? <==> forall i :: 0 <= i <= |q| ==> !InsertAt(q, i)
    ensures r.Some? ==> IsWord(r.value.table)
  {
    var P := (i: nat) => InsertAt(q, i);
    assert forall k: nat :: P(k) == InsertAt(q, k);
    var i := Leftmost(P, 0, |q| + 1);
    if i <= |q| then Some(InsertGroups(q, i)) else None
  }

  function InsertGroups(q: string, i: nat): (r: InsertParts)
    requires InsertAt(q, i)
    ensures IsWord(r.table)
  {
    var p := OpenParen(q, i + 12);
    var j := ColumnsEnd(q, i);
    assert ValuesAt(q, j);
    var o := SpaceEnd(q, SpaceEnd(q, j + 1) + 6);
    InsertParts(WordFrom(q, i + 12), q[p + 1..j], q[o + 1..LastIndex(q, ')')])
  }

  // ---------------------------------------------------------------------------------------
  // SELECT

  /** `\s+KW\s+` matches at `x`. */
  predicate KeywordAt(q: string, x: nat, kw: string)
  {
    SpaceAt(q, x) && AtCI(q, SpaceEnd(q, x), kw) && SpaceAt(q, SpaceEnd(q, x) + |kw|)
  }

  /** Where the text after `\s+KW\s+` starts. */
  function AfterKeyword(q: string, x: nat, kw: string): nat
    requires KeywordAt(q, x, kw)
  {
    SpaceEnd(q, SpaceEnd(q, x) + |kw|)
  }

  /** `$` without MULTILINE: the end, or just before a final newline. */
  predicate AtEnd(q: string, y: nat)
  {
    y == |q| || (y + 1 == |q| && q[y] == '\n')
  }

  /** Where a lazy group that runs to `$` ends. */
  function FirstEnd(q: string, s: nat): (y: nat)
    requires s <= |q|
    ensures s <= y <= |q| && AtEnd(q, y)
    ensures forall k :: s <= k < y ==> !AtEnd(q, k)
  {
    if s < |q| && q[|q| - 1] == '\n' then |q| - 1 else |q|
  }

  /** Where the lazy join-table group ends: the first ` ON ` at or after `js`, or `|q|`. */
  function OnPos(q: string, js: nat): (z: nat)
    requires js <= |q|
    ensures js <= z <= |q| && (z < |q| ==> KeywordAt(q, z, "ON"))
    ensures forall k :: js <= k < z ==> !KeywordAt(q, k, "ON")
  {
    var P := (z: nat) => KeywordAt(q, z, "ON");
    assert forall k: nat :: P(k) == KeywordAt(q, k, "ON");
    Leftmost(P, js, |q|)
  }

  /** The optional JOIN part at `y` (whitespace, JOIN, a lazy table text, ON, a lazy ON text,
      end): the join text and the ON text. */
  function JoinFrom(q: string, y: nat): Option<(string, string)>
  {
    if !KeywordAt(q, y, "JOIN") then None
    else JoinRest(q, SpaceEnd(q, y) + 4, AfterKeyword(q, y, "JOIN"))
  }

  /** What follows JOIN, whose keyword ends at `k0` and whose trailing spaces end at `js`: the
      join text up to the first ` ON `, and the ON text. When no `ON` follows the run of spaces
      after JOIN, the run gives its last character back and the join text is empty. */
  function JoinRest(q: string, k0: nat, js: nat): Option<(string, string)>
    requires js <= |q|
  {
    var z := OnPos(q, js);
    if z < |q| then Some((q[js..z], q[AfterKeyword(q, z, "ON")..FirstEnd(q, AfterKeyword(q, z, "ON"))]))
    else if js >= k0 + 2 && KeywordAt(q, js - 1, "ON") then
      Some(("", q[AfterKeyword(q, js - 1, "ON")..FirstEnd(q, AfterKeyword(q, js - 1, "ON"))]))
    else None
  }

  /** The rest of the pattern after ORDER BY's group matches at `y`. */
  predicate AfterOrderMatches(q: string, y: nat)
  {
    JoinFrom(q, y).Some? || AtEnd(q, y)
  }

  /** The rest of the pattern after WHERE's group matches at `x`: an ORDER BY part, which
      always completes, or what may follow it. */
  predicate AfterWhereMatches(q: string, x: nat)
  {
    KeywordAt(q, x, "ORDER BY") || AfterOrderMatches(q, x)
  }

  /** The rest of the pattern after the table name matches at `e`. */
  predicate TailMatches(q: string, e: nat)
  {
    KeywordAt(q, e, "WHERE") || AfterWhereMatches(q, e)
  }

  /** First position at or after `s` from which `P` holds, `|q|` when none before it. */
  function LazyEnd(q: string, P: nat -> bool, s: nat): (x: nat)
    requires s <= |q|
    ensures s <= x <= |q|
    ensures x < |q| ==> P(x)
    ensures forall k :: s <= k < x ==> !P(k)
  {
    Leftmost(P, s, |q|)
  }

  datatype SelectParts = SelectParts(table: string, where: Option<string>, orderBy: Option<string>,
                                     join: Option<(string, string)>)

  /** What follows ORDER BY: its group and the join, if any. */
  function AfterWhereParts(q: string, x: nat): (Option<string>, Option<(string, string)>)
    requires x <= |q|
  {
    if KeywordAt(q, x, "ORDER BY") then
      var b := AfterKeyword(q, x, "ORDER BY");
      var y := LazyEnd(q, (y: nat) => AfterOrderMatches(q, y), b);
      (Some(q[b..y]), JoinFrom(q, y))
    else (None, JoinFrom(q, x))
  }

  /** The optional WHERE, ORDER BY and JOIN parts after the table name ending at `e`. */
  function TailParts(q: string, table: string, e: nat): (r: SelectParts)
    requires e <= |q|
    ensures r.table == table
  {
    if KeywordAt(q, e, "WHERE") then
      var b := AfterKeyword(q, e, "WHERE");
      var x := LazyEnd(q, (x: nat) => AfterWhereMatches(q, x), b);
      var (o, j) := AfterWhereParts(q, x);
      SelectParts(table, Some(q[b..x]), o, j)
    else
      var (o, j) := AfterWhereParts(q, e);
      SelectParts(table, None, o, j)
  }

  /** Whitespace, FROM, whitespace and a table word, then the rest of the SELECT shape, start at `p`. */
  predicate FromAt(q: string, p: nat)
  {
    KeywordAt(q, p, "FROM") && WordAt(q, AfterKeyword(q, p, "FROM"))
    && TailMatches(q, WordEnd(q, AfterKeyword(q, p, "FROM")))
  }

  /** Where the lazy column group of SELECT ends, or `|q|` when the pattern fails at `i`. The
      group starts after the whole run of spaces after SELECT; when that finds nothing, the run
      gives back one character and an empty group is tried. */
  function FromPos(q: string, i: nat): (p: nat)
    requires SpaceAt(q, i + 6)
    ensures p <= |q| && (p < |q| ==> FromAt(q, p))
  {
    var c0 := SpaceEnd(q, i + 6);
    var P := (p: nat) => FromAt(q, p);
    assert forall k: nat :: P(k) == FromAt(q, k);
    var p := Leftmost(P, c0, |q|);
    if p < |q| then p
    else if c0 >= i + 8 && FromAt(q, c0 - 1) then c0 - 1
    else |q|
  }

  predicate SelectAt(q: string, i: nat)
  {
    AtCI(q, i, "SELECT") && SpaceAt(q, i + 6) && FromPos(q, i) < |q|
  }

  /** SELECT, a lazy column list, FROM and a table word, then optional WHERE, ORDER BY and
      JOIN ... ON parts in that order, all lazy, up to the end of the text; any case, newlines
      allowed: the table name and the WHERE, ORDER BY, JOIN and ON groups. */
  function SelectHeader(q: string): (r: Option<SelectParts>)
    ensures r.None? <==> forall i :: 0 <= i <= |q| ==> !SelectAt(q, i)
    ensures r.Some? ==> IsWord(r.value.table)
  {
    var P := (i: nat) => SelectAt(q, i);
    assert forall k: nat :: P(k) == SelectAt(q, k);
    var i := Leftmost(P, 0, |q| + 1);
    if i <= |q| then Some(SelectGroups(q, i)) else None
  }

  function SelectGroups(q: string, i: nat): (r: SelectParts)
    requires SelectAt(q, i)
    ensures IsWord(r.table)
  {
    var p := FromPos(q, i);
    var t0 := AfterKeyword(q, p, "FROM");
    TailParts(q, WordFrom(q, t0), WordEnd(q, t0))
  }

  // ---------------------------------------------------------------------------------------
  // UPDATE

  /** UPDATE, a table word and SET, anchored at the start, any case: the table name and the
      text after `SET` up to the end of its line. */
  function UpdateHeader(m: string): (r: Option<(string, string)>)
    ensures r.Some? ==> IsWord(r.value.0) && '\n' !in r.value.1
  {
    if AtCI(m, 0, "UPDATE") && SpaceAt(m, 6) && WordAt(m, SpaceEnd(m, 6)) then
      var a := SpaceEnd(m, 6);
      var b := WordEnd(m, a);
      if KeywordAt(m, b, "SET") then
        var d := AfterKeyword(m, b, "SET");
        Some((WordFrom(m, a), m[d..LineEnd(m, d)]))
      else None
    else None
  }
}
