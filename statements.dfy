/**
 * What the SQL parser (parser/sql_parser.py) reads from well-formed statements: each lemma
 * writes a statement out from its parts and states the command `parse_query` returns for it.
 */
module SqlStatements {
  import opened Text
  import opened Outcomes
  import opened Values
  import opened Matching
  import opened Schema
  import opened SqlHeaders
  import opened SqlClauses
  import opened SqlScan
  import opened SqlParser

  /** No lower-case ASCII letter: the text is its own upper-case form. */
  predicate NoLower(s: string)
  {
    forall k :: 0 <= k < |s| ==> !('a' <= s[k] <= 'z')
  }

  lemma {:induction false} UpperNoLower(s: string)
    requires NoLower(s)
    ensures Upper(s) == s
  {
  }

  lemma {:induction false} AtLiteral(q: string, i: nat, lit: string)
    requires NoLower(lit) && i + |lit| <= |q| && q[i..i + |lit|] == lit
    ensures AtCI(q, i, lit)
  {
    UpperNoLower(lit);
  }

  /** The word that runs to the end of the text. */
  lemma {:induction false} WordToEnd(q: string, i: nat, t: string)
    requires IsWord(t) && i <= |q| && q[i..] == t
    ensures WordAt(q, i) && WordEnd(q, i) == |q| && WordFrom(q, i) == t
  {
    assert q[i] == t[0];
  }

  /** The word `t` at `i`, followed by a character that is not a word character. */
  lemma {:induction false} WordBefore(q: string, i: nat, t: string)
    requires IsWord(t) && i + |t| < |q| && q[i..i + |t|] == t && !IsWordChar(q[i + |t|])
    ensures WordAt(q, i) && WordEnd(q, i) == i + |t| && WordFrom(q, i) == t
  {
    assert forall k :: i <= k < i + |t| ==> q[k] == t[k - i];
  }

  /** A statement that starts with the `k`-th keyword and carries no surrounding space is read
      by that keyword's reader. */
  lemma {:induction false} Statement(q: string, kw: string)
    requires NoLower(kw) && Unpadded(q) && StartsWith(q, kw)
    ensures Strip(q) == q && StartsWith(Upper(q), kw)
  {
    UnpaddedStrip(q);
    UpperNoLower(kw);
    assert Upper(q)[..|kw|] == Upper(q[..|kw|]);
  }

  // ---------------------------------------------------------------------------------------
  // DROP TABLE t

  lemma {:induction false} DropTableText(t: string)
    requires IsWord(t)
    ensures var q := "DROP TABLE " + t;
      Unpadded(q) && q[..11] == "DROP TABLE " && q[..10] == Keywords[1] && q[11..] == t
  {
    var q := "DROP TABLE " + t;
    assert q[|q| - 1] == t[|t| - 1];
  }

  lemma {:induction false} DropTableAtStart(q: string, t: string)
    requires IsWord(t) && |q| == 11 + |t| && q[..11] == "DROP TABLE " && q[11..] == t
    ensures DropTableHeader(q) == Some(t)
  {
    AtLiteral(q, 0, "DROP TABLE ");
    WordToEnd(q, 11, t);
    var P := (i: nat) => DropTableAt(q, i);
    assert P(0);
  }

  /** `DROP TABLE t` drops the table `t`, lower-cased. */
  lemma {:induction false} ParseDropTable(t: string)
    requires IsWord(t)
    ensures Parse("DROP TABLE " + t) == Ok(DropTable(Lower(t)))
  {
    var q := "DROP TABLE " + t;
    DropTableText(t);
    DropTableAtStart(q, t);
    Statement(q, Keywords[1]);
    ParseByKeyword(q, 1);
  }

  // ---------------------------------------------------------------------------------------
  // DROP INDEX i ON t

  lemma {:induction false} DropIndexText(i: string, t: string)
    requires IsWord(i) && IsWord(t)
    ensures var q := "DROP INDEX " + i + " ON " + t; var e := 11 + |i|;
      Unpadded(q) && |q| == e + 4 + |t| && q[..11] == "DROP INDEX " && q[..10] == Keywords[7]
      && q[11..e] == i && q[e] == ' ' && q[e..e + 4] == " ON " && q[e + 4..] == t
  {
    var q := "DROP INDEX " + i + " ON " + t;
    assert q[|q| - 1] == t[|t| - 1];
  }

  lemma {:induction false} DropIndexAtStart(q: string, i: string, t: string)
    requires IsWord(i) && IsWord(t)
    requires var e := 11 + |i|;
      |q| == e + 4 + |t| && q[..11] == "DROP INDEX " && q[11..e] == i && q[e] == ' '
      && q[e..e + 4] == " ON " && q[e + 4..] == t
    ensures DropIndexHeader(q) == Some((i, t))
  {
    var e := 11 + |i|;
    AtLiteral(q, 0, "DROP INDEX ");
    WordBefore(q, 11, i);
    AtLiteral(q, e, " ON ");
    WordToEnd(q, e + 4, t);
    var P := (i: nat) => DropIndexAt(q, i);
    assert P(0);
  }

  /** `DROP INDEX i ON t` drops the index `i` of the table `t`, both lower-cased. */
  lemma {:induction false} ReadDropIndex(i: string, t: string)
    requires IsWord(i) && IsWord(t)
    ensures DropIndexCommand("DROP INDEX " + i + " ON " + t) == Ok(DropIndex(Lower(i), Lower(t)))
  {
    var q := "DROP INDEX " + i + " ON " + t;
    DropIndexText(i, t);
    DropIndexAtStart(q, i, t);
  }

  // ---------------------------------------------------------------------------------------
  // CREATE INDEX i ON t (c)

  lemma {:induction false} CreateIndexText(i: string, t: string, c: string)
    requires IsWord(i) && IsWord(t) && IsWord(c)
    ensures var q := "CREATE INDEX " + i + " ON " + t + " (" + c + ")";
      var e := 13 + |i|; var f := e + 4 + |t|;
      Unpadded(q) && |q| == f + 3 + |c| && q[..13] == "CREATE INDEX " && q[..12] == Keywords[6]
      && q[13..e] == i && q[e] == ' ' && q[e..e + 4] == " ON " && q[e + 4..f] == t
      && q[f] == ' ' && q[f..f + 2] == " (" && q[f + 2..f + 2 + |c|] == c && q[f + 2 + |c|..] == ")"
  {
    var q := "CREATE INDEX " + i + " ON " + t + " (" + c + ")";
    assert q[|q| - 1] == ')';
  }

  lemma {:induction false} CreateIndexAtStart(q: string, i: string, t: string, c: string)
    requires CreateIndexAt(q, 0)
    requires var e := 13 + |i|; var f := e + 4 + |t|;
      WordEnd(q, 13) == e && WordEnd(q, e + 4) == f
      && WordFrom(q, 13) == i && WordFrom(q, e + 4) == t && WordFrom(q, f + 2) == c
    ensures CreateIndexHeader(q) == Some((i, t, c))
  {
    var P := (i: nat) => CreateIndexAt(q, i);
    assert P(0);
  }

  lemma {:induction false} CreateIndexMatches(q: string, i: string, t: string, c: string)
    requires IsWord(i) && IsWord(t) && IsWord(c)
    requires var e := 13 + |i|; var f := e + 4 + |t|;
      |q| == f + 3 + |c| && q[..13] == "CREATE INDEX " && q[13..e] == i && q[e] == ' '
      && q[e..e + 4] == " ON " && q[e + 4..f] == t && q[f] == ' ' && q[f..f + 2] == " ("
      && q[f + 2..f + 2 + |c|] == c && q[f + 2 + |c|..] == ")"
    ensures var e := 13 + |i|; var f := e + 4 + |t|;
      CreateIndexAt(q, 0) && WordEnd(q, 13) == e && WordEnd(q, e + 4) == f
      && WordFrom(q, 13) == i && WordFrom(q, e + 4) == t && WordFrom(q, f + 2) == c
  {
    var e := 13 + |i|;
    var f := e + 4 + |t|;
    CreateIndexWords(q, i, t, c);
    CreateIndexLiterals(q, e, f, f + 2 + |c|);
    CreateIndexAtOf(q, e, f);
  }

  lemma {:induction false} CreateIndexLiterals(q: string, e: nat, f: nat, g: nat)
    requires 13 <= e && e + 4 <= f && f + 2 <= g && g + 1 == |q|
    requires q[..13] == "CREATE INDEX " && q[e..e + 4] == " ON " && q[f..f + 2] == " (" && q[g..] == ")"
    ensures AtCI(q, 0, "CREATE INDEX ") && AtCI(q, e, " ON ") && AtCI(q, f, " (") && AtCI(q, g, ")")
  {
    AtLiteral(q, 0, "CREATE INDEX ");
    AtLiteral(q, e, " ON ");
    AtLiteral(q, f, " (");
    AtLiteral(q, g, ")");
  }

  lemma {:induction false} CreateIndexWords(q: string, i: string, t: string, c: string)
    requires IsWord(i) && IsWord(t) && IsWord(c)
    requires var e := 13 + |i|; var f := e + 4 + |t|;
      |q| == f + 3 + |c| && q[13..e] == i && q[e] == ' ' && q[e + 4..f] == t && q[f] == ' '
      && q[f + 2..f + 2 + |c|] == c && q[f + 2 + |c|..] == ")"
    ensures var e := 13 + |i|; var f := e + 4 + |t|;
      WordAt(q, 13) && WordEnd(q, 13) == e && WordAt(q, e + 4) && WordEnd(q, e + 4) == f
      && WordAt(q, f + 2) && WordEnd(q, f + 2) == f + 2 + |c|
      && WordFrom(q, 13) == i && WordFrom(q, e + 4) == t && WordFrom(q, f + 2) == c
  {
    var e := 13 + |i|;
    var f := e + 4 + |t|;
    WordBefore(q, 13, i);
    WordBefore(q, e + 4, t);
    assert q[f + 2 + |c|] == ')';
    WordBefore(q, f + 2, c);
  }

  lemma {:induction false} CreateIndexAtOf(q: string, e: nat, f: nat)
    requires AtCI(q, 0, "CREATE INDEX ") && WordAt(q, 13) && WordEnd(q, 13) == e
    requires AtCI(q, e, " ON ") && WordAt(q, e + 4) && WordEnd(q, e + 4) == f
    requires AtCI(q, f, " (") && WordAt(q, f + 2) && AtCI(q, WordEnd(q, f + 2), ")")
    ensures CreateIndexAt(q, 0)
  {
  }

  /** `CREATE INDEX i ON t (c)` creates the index `i` on the column `c` of the table `t`, all
      three lower-cased. */
  lemma {:induction false} ReadCreateIndex(i: string, t: string, c: string)
    requires IsWord(i) && IsWord(t) && IsWord(c)
    ensures CreateIndexCommand("CREATE INDEX " + i + " ON " + t + " (" + c + ")") == Ok(CreateIndex(Lower(i), Lower(t), Lower(c)))
  {
    var q := "CREATE INDEX " + i + " ON " + t + " (" + c + ")";
    CreateIndexText(i, t, c);
    CreateIndexMatches(q, i, t, c);
    CreateIndexAtStart(q, i, t, c);
  }

  // ---------------------------------------------------------------------------------------
  // SELECT * FROM t [WHERE w | JOIN u ON a.x = b.y]

  lemma {:induction false} SelectText(t: string, tail: string)
    requires IsWord(t)
    ensures var q := "SELECT * FROM " + t + tail; var e := 14 + |t|;
      |q| == e + |tail| && q[..14] == "SELECT * FROM " && q[14..e] == t && q[e..] == tail
  {
  }

  /** `* FROM t`, with `t` ending at `e`, where the rest of the pattern accepts what follows. */
  lemma {:induction false} FromAtStar(q: string, t: string, e: nat)
    requires IsWord(t) && e == 14 + |t| <= |q| && q[7] == '*' && q[8] == ' ' && q[9..13] == "FROM"
      && q[13] == ' ' && q[14..e] == t && (e < |q| ==> !IsWordChar(q[e])) && TailMatches(q, e)
    ensures !FromAt(q, 7) && FromAt(q, 8) && AfterKeyword(q, 8, "FROM") == 14
    ensures WordEnd(q, 14) == e && WordFrom(q, 14) == t
  {
    AtLiteral(q, 9, "FROM");
    assert q[14] == t[0];
    assert SpaceEnd(q, 8) == 9;
    assert SpaceEnd(q, 13) == 14;
    if e == |q| {
      WordToEnd(q, 14, t);
    } else {
      WordBefore(q, 14, t);
    }
  }

  lemma {:induction false} SelectAtStar(q: string, t: string, e: nat)
    requires IsWord(t) && e == 14 + |t| <= |q| && q[..6] == "SELECT" && q[6] == ' ' && q[7] == '*'
      && q[8] == ' ' && q[9..13] == "FROM" && q[13] == ' ' && q[14..e] == t
      && (e < |q| ==> !IsWordChar(q[e])) && TailMatches(q, e)
    ensures SelectAt(q, 0) && FromPos(q, 0) == 8 && AfterKeyword(q, 8, "FROM") == 14
    ensures WordFrom(q, 14) == t && WordEnd(q, 14) == e
  {
    AtLiteral(q, 0, "SELECT");
    FromAtStar(q, t, e);
    assert SpaceEnd(q, 6) == 7;
    var P := (p: nat) => FromAt(q, p);
    assert !P(7) && P(8);
    assert Leftmost(P, 7, |q|) == 8;
  }

  /** The header read at the very start: the table and what follows it. */
  lemma {:induction false} SelectHeaderStar(q: string, t: string, e: nat)
    requires SelectAt(q, 0) && FromPos(q, 0) == 8 && AfterKeyword(q, 8, "FROM") == 14
    requires WordFrom(q, 14) == t && WordEnd(q, 14) == e
    ensures SelectHeader(q) == Some(TailParts(q, t, e))
  {
    var P := (i: nat) => SelectAt(q, i);
    assert P(0);
  }

  /** `SELECT * FROM t` at the start, then a tail at `e` that the rest of the pattern accepts:
      the header is the table and what the tail holds. */
  lemma {:induction false} SelectStarHeader(q: string, t: string, e: nat)
    requires IsWord(t) && e == 14 + |t| <= |q| && q[..14] == "SELECT * FROM " && q[14..e] == t
    requires (e < |q| ==> !IsWordChar(q[e])) && TailMatches(q, e)
    ensures SelectHeader(q) == Some(TailParts(q, t, e))
  {
    assert q[..6] == q[..14][..6] && q[9..13] == q[..14][9..13];
    assert q[6] == ' ' && q[7] == '*' && q[8] == ' ' && q[13] == ' ';
    SelectAtStar(q, t, e);
    SelectHeaderStar(q, t, e);
  }

  /** `SELECT * FROM t` selects every row of the table `t`, lower-cased, with no condition, no
      order and no join. */
  lemma {:induction false} ReadSelectAll(t: string)
    requires IsWord(t)
    ensures SelectCommand("SELECT * FROM " + t) == Ok(Select(Lower(t), map[], Eq, None, None))
  {
    var q := "SELECT * FROM " + t;
    assert q == "SELECT * FROM " + t + "";
    SelectText(t, "");
    assert AtEnd(q, |q|);
    SelectStarHeader(q, t, |q|);
    assert !KeywordAt(q, |q|, "WHERE") && !KeywordAt(q, |q|, "ORDER BY") && !KeywordAt(q, |q|, "JOIN");
  }

  /** A keyword found at or after `b` lies inside `w = q[b..]`. */
  lemma {:induction false} KeywordInside(q: string, b: nat, w: string, k: nat, kw: string)
    requires b <= k && b + |w| == |q| && q[b..] == w
    ensures KeywordAt(q, k, kw) ==> Contains(Upper(w), kw)
  {
    if KeywordAt(q, k, kw) {
      var s := SpaceEnd(q, k);
      var i := s - b;
      assert q[s..s + |kw|] == w[i..i + |kw|];
      UpperSlice(w, i, i + |kw|);
      assert OccursAt(Upper(w), kw, i);
    }
  }

  /** Nowhere inside a condition with no `ORDER BY`, no `JOIN` and no trailing space can the
      rest of the pattern take over. */
  lemma {:induction false} NoTailInside(q: string, b: nat, w: string)
    requires b + |w| == |q| && q[b..] == w && Unpadded(w)
    requires !Contains(Upper(w), "ORDER BY") && !Contains(Upper(w), "JOIN")
    ensures forall k :: b <= k < |q| ==> !AfterWhereMatches(q, k)
  {
    forall k | b <= k < |q|
      ensures !AfterWhereMatches(q, k)
    {
      KeywordInside(q, b, w, k, "ORDER BY");
      KeywordInside(q, b, w, k, "JOIN");
      assert q[|q| - 1] == w[|w| - 1];
    }
  }

  /** ` WHERE w` at `e` gives the WHERE group `w` and nothing after it. */
  lemma {:induction false} WhereTail(q: string, t: string, e: nat, w: string)
    requires e + 7 + |w| == |q| && q[e] == ' ' && q[e + 1..e + 6] == "WHERE" && q[e + 6] == ' '
      && q[e + 7..] == w && Unpadded(w)
    requires !Contains(Upper(w), "ORDER BY") && !Contains(Upper(w), "JOIN")
    ensures KeywordAt(q, e, "WHERE") && TailParts(q, t, e) == SelectParts(t, Some(w), None, None)
  {
    var b := e + 7;
    assert SpaceEnd(q, e) == e + 1;
    AtLiteral(q, e + 1, "WHERE");
    assert q[b] == w[0];
    assert SpaceEnd(q, e + 6) == b;
    NoTailInside(q, b, w);
    var P := (x: nat) => AfterWhereMatches(q, x);
    assert LazyEnd(q, P, b) == |q|;
    assert !KeywordAt(q, |q|, "ORDER BY") && !KeywordAt(q, |q|, "JOIN");
    assert AfterWhereParts(q, |q|) == (None, None);
    assert q[b..|q|] == w;
  }

  /** `SELECT * FROM t WHERE w` selects the rows of `t` that meet the condition `w`, when `w`
      carries no `ORDER BY` or `JOIN` of its own. */
  lemma {:induction false} ReadSelectWhere(t: string, w: string)
    requires IsWord(t) && Unpadded(w) && !Contains(Upper(w), "ORDER BY") && !Contains(Upper(w), "JOIN")
    ensures var (m, op) := Where(SelectWhere, w);
      SelectCommand("SELECT * FROM " + t + " WHERE " + w) == Ok(Select(Lower(t), m, op, None, None))
  {
    var q := "SELECT * FROM " + t + " WHERE " + w;
    var e := 14 + |t|;
    SelectText(t, " WHERE " + w);
    assert q == "SELECT * FROM " + t + (" WHERE " + w);
    WhereTail(q, t, e, w);
    SelectStarHeader(q, t, e);
    SelectOfWhere(q, t, w);
  }

  lemma {:induction false} SelectOfWhere(q: string, t: string, w: string)
    requires SelectHeader(q) == Some(SelectParts(t, Some(w), None, None)) && Unpadded(w)
    ensures SelectCommand(q) == Ok(Select(Lower(t), Where(SelectWhere, w).0, Where(SelectWhere, w).1, None, None))
  {
    UnpaddedStrip(w);
  }

  /** A text with one `=`, and a space on each side of it, splits into the two sides. */
  lemma {:induction false} SplitAroundEquals(l: string, r: string)
    requires '=' !in l && '=' !in r
    ensures SplitOn(l + " = " + r, '=') == [l + " ", " " + r]
  {
    var on := l + " = " + r;
    assert IndexOf(on, '=') == |l| + 1 by {
      assert forall k :: 0 <= k < |l| ==> on[k] == l[k] && l[k] in l;
      assert on[|l|] == ' ' && on[|l| + 1] == '=';
    }
    var rest := on[|l| + 2..];
    assert rest == " " + r;
    assert IndexOf(rest, '=') == |rest| by {
      assert forall k :: 0 <= k < |r| ==> rest[k + 1] == r[k] && r[k] in r;
    }
    assert SplitOn(rest, '=') == [rest];
    assert on[..|l| + 1] == l + " ";
  }

  /** A word holds no character outside `\w`. */
  lemma {:induction false} WordLacks(s: string, c: char)
    requires IsWord(s) && !IsWordChar(c)
    ensures c !in s
  {
  }

  /** One trailing space after a text with no padding is stripped away. */
  lemma {:induction false} StripTrailSpace(l: string)
    requires Unpadded(l)
    ensures Strip(l + " ") == l
  {
    assert TrimLeft(l + " ") == l + " ";
    assert (l + " ")[..|l|] == l;
    StripKeepsUnpadded(l);
  }

  /** A side of the ON text that strips to `a.x` reads as the column `x`. */
  lemma {:induction false} QualifiedSide(p: string, a: string, x: string)
    requires IsWord(x) && Strip(p) == a + "." + x
    ensures OnColumn(p) == Lower(x)
  {
    WordLacks(x, '.');
    assert a + "." + x == a + ['.'] + x;
    AfterLastSuffix(a, x, '.');
  }

  /** The left side of `a.x = b.y`, with its trailing space, reads as `x`. */
  lemma {:induction false} OnLeftSide(a: string, x: string)
    requires IsWord(a) && IsWord(x)
    ensures OnColumn(a + "." + x + " ") == Lower(x)
  {
    var l := a + "." + x;
    assert l[0] == a[0] && l[|l| - 1] == x[|x| - 1];
    StripTrailSpace(l);
    QualifiedSide(l + " ", a, x);
  }

  /** The right side of `a.x = b.y`, with its leading space, reads as `y`. */
  lemma {:induction false} OnRightSide(b: string, y: string)
    requires IsWord(b) && IsWord(y)
    ensures OnColumn(" " + (b + "." + y)) == Lower(y)
  {
    var r := b + "." + y;
    assert r[0] == b[0] && r[|r| - 1] == y[|y| - 1];
    StripSpaceValue(r);
    QualifiedSide(" " + r, b, y);
  }

  /** The ON text `a.x = b.y` joins the column `x` to the column `y`. */
  lemma {:induction false} OnQualified(a: string, x: string, b: string, y: string)
    requires IsWord(a) && IsWord(x) && IsWord(b) && IsWord(y)
    ensures OnColumns(a + "." + x + " = " + b + "." + y) == Some((Lower(x), Lower(y)))
  {
    var l, r := a + "." + x, b + "." + y;
    assert a + "." + x + " = " + b + "." + y == l + " = " + r;
    assert '=' !in l && '=' !in r by {
      assert forall k :: 0 <= k < |l| ==> IsWordChar(l[k]) || l[k] == '.';
      assert forall k :: 0 <= k < |r| ==> IsWordChar(r[k]) || r[k] == '.';
    }
    SplitAroundEquals(l, r);
    OnLeftSide(a, x);
    OnRightSide(b, y);
  }

  /** ` JOIN ` at `e`, which is neither ` WHERE ` nor ` ORDER BY `. */
  lemma {:induction false} JoinKeyword(q: string, e: nat)
    requires e + 6 < |q| && q[e] == ' ' && q[e + 1..e + 5] == "JOIN" && q[e + 5] == ' ' && !IsSpace(q[e + 6])
    ensures KeywordAt(q, e, "JOIN") && AfterKeyword(q, e, "JOIN") == e + 6
    ensures !KeywordAt(q, e, "WHERE") && !KeywordAt(q, e, "ORDER BY")
  {
    assert q[e + 1] == 'J';
    assert SpaceEnd(q, e) == e + 1;
    AtLiteral(q, e + 1, "JOIN");
    assert SpaceEnd(q, e + 5) == e + 6;
    assert Upper(q[e + 1..e + 6])[0] == 'J';
    if e + 9 <= |q| {
      assert Upper(q[e + 1..e + 9])[0] == 'J';
    }
  }

  /** After the join word `u` starting at `js`, the first ` ON ` is the one that follows `u`,
      and the ON text runs to the end. */
  lemma {:induction false} OnAfterWord(q: string, js: nat, u: string, on: string)
    requires IsWord(u) && Unpadded(on)
    requires var z := js + |u|;
      z + 4 + |on| == |q| && q[js..z] == u && q[z] == ' ' && q[z + 1..z + 3] == "ON" && q[z + 3] == ' '
      && q[z + 4..] == on
    ensures var z := js + |u|;
      KeywordAt(q, z, "ON") && AfterKeyword(q, z, "ON") == z + 4 && FirstEnd(q, z + 4) == |q|
      && OnPos(q, js) == z
  {
    var z := js + |u|;
    assert q[z + 1] == 'O';
    assert SpaceEnd(q, z) == z + 1;
    AtLiteral(q, z + 1, "ON");
    assert q[z + 4] == on[0];
    assert SpaceEnd(q, z + 3) == z + 4;
    assert forall k :: js <= k < z ==> q[k] == u[k - js];
    assert forall k :: js <= k < z ==> !SpaceAt(q, k);
    assert KeywordAt(q, z, "ON");
    assert q[|q| - 1] == on[|on| - 1];
  }

  /** The join text runs from after JOIN's spaces to the first ` ON `, and the ON text from
      after it to the end. */
  lemma {:induction false} JoinRestAt(q: string, k0: nat, js: nat, z: nat, o: nat, u: string, on: string)
    requires js <= z < |q| && OnPos(q, js) == z && KeywordAt(q, z, "ON") && AfterKeyword(q, z, "ON") == o
    requires FirstEnd(q, o) == |q| && q[js..z] == u && q[o..] == on
    ensures JoinRest(q, k0, js) == Some((u, on))
  {
    assert q[o..FirstEnd(q, o)] == q[o..];
  }

  /** After JOIN and its spaces, the join word `u`, ` ON ` and the text `on` up to the end give
      the join text `u` and the ON text `on`. */
  lemma {:induction false} JoinTail(q: string, k0: nat, js: nat, u: string, on: string)
    requires IsWord(u) && Unpadded(on)
    requires var z := js + |u|;
      z + 4 + |on| == |q| && q[js..z] == u && q[z] == ' ' && q[z + 1..z + 3] == "ON" && q[z + 3] == ' '
      && q[z + 4..] == on
    ensures JoinRest(q, k0, js) == Some((u, on))
  {
    OnAfterWord(q, js, u, on);
    JoinRestAt(q, k0, js, js + |u|, js + |u| + 4, u, on);
  }

  /** A tail that starts with ` JOIN ` has neither WHERE nor ORDER BY, and its JOIN part is the
      one that follows. */
  lemma {:induction false} JoinTailParts(q: string, t: string, e: nat, js: nat, j: (string, string))
    requires e <= |q| && KeywordAt(q, e, "JOIN") && !KeywordAt(q, e, "WHERE") && !KeywordAt(q, e, "ORDER BY")
    requires AfterKeyword(q, e, "JOIN") == js && JoinRest(q, SpaceEnd(q, e) + 4, js) == Some(j)
    ensures TailMatches(q, e) && TailParts(q, t, e) == SelectParts(t, None, None, Some(j))
  {
    assert JoinFrom(q, e) == Some(j);
  }

  lemma {:induction false} SelectJoinText(t: string, u: string, on: string)
    requires IsWord(t)
    ensures var q := "SELECT * FROM " + t + " JOIN " + u + " ON " + on; var e := 14 + |t|;
      var z := e + 6 + |u|;
      z + 4 + |on| == |q| && q[..14] == "SELECT * FROM " && q[14..e] == t && q[e] == ' '
      && q[e + 1..e + 5] == "JOIN" && q[e + 5] == ' ' && q[e + 6..z] == u && q[z] == ' '
      && q[z + 1..z + 3] == "ON" && q[z + 3] == ' ' && q[z + 4..] == on
  {
  }

  /** The tail ` JOIN u ON on` at `e`: a JOIN part and nothing else. */
  lemma {:induction false} SelectJoinTail(q: string, t: string, e: nat, u: string, on: string)
    requires IsWord(u) && Unpadded(on)
    requires var z := e + 6 + |u|;
      z + 4 + |on| == |q| && q[e] == ' ' && q[e + 1..e + 5] == "JOIN" && q[e + 5] == ' ' && q[e + 6..z] == u
      && q[z] == ' ' && q[z + 1..z + 3] == "ON" && q[z + 3] == ' ' && q[z + 4..] == on
    ensures TailMatches(q, e) && TailParts(q, t, e) == SelectParts(t, None, None, Some((u, on)))
  {
    JoinPartAt(q, e, u, on);
    JoinTailParts(q, t, e, e + 6, (u, on));
  }

  lemma {:induction false} JoinPartAt(q: string, e: nat, u: string, on: string)
    requires IsWord(u) && Unpadded(on)
    requires var z := e + 6 + |u|;
      z + 4 + |on| == |q| && q[e] == ' ' && q[e + 1..e + 5] == "JOIN" && q[e + 5] == ' ' && q[e + 6..z] == u
      && q[z] == ' ' && q[z + 1..z + 3] == "ON" && q[z + 3] == ' ' && q[z + 4..] == on
    ensures KeywordAt(q, e, "JOIN") && !KeywordAt(q, e, "WHERE") && !KeywordAt(q, e, "ORDER BY")
    ensures AfterKeyword(q, e, "JOIN") == e + 6 && JoinRest(q, SpaceEnd(q, e) + 4, e + 6) == Some((u, on))
  {
    assert q[e + 6] == u[0];
    JoinKeyword(q, e);
    JoinTail(q, SpaceEnd(q, e) + 4, e + 6, u, on);
  }

  /** The header of `SELECT * FROM t JOIN u ON on`: the table, the join text and the ON text. */
  lemma {:induction false} SelectJoinHeader(t: string, u: string, on: string)
    requires IsWord(t) && IsWord(u) && Unpadded(on)
    ensures SelectHeader("SELECT * FROM " + t + " JOIN " + u + " ON " + on)
      == Some(SelectParts(t, None, None, Some((u, on))))
  {
    var q := "SELECT * FROM " + t + " JOIN " + u + " ON " + on;
    var e := 14 + |t|;
    SelectJoinText(t, u, on);
    SelectJoinTail(q, t, e, u, on);
    SelectStarHeader(q, t, e);
  }

  /** `SELECT * FROM t JOIN u ON a.x = b.y` is an INNER join of `t` with `u` on the columns `x`
      and `y`, all lower-cased, with no condition and no order. */
  lemma {:induction false} ReadSelectJoin(t: string, u: string, a: string, x: string, b: string, y: string)
    requires IsWord(t) && IsWord(u) && IsWord(a) && IsWord(x) && IsWord(b) && IsWord(y)
    ensures SelectCommand("SELECT * FROM " + t + " JOIN " + u + " ON " + a + "." + x + " = " + b + "." + y)
      == Ok(Select(Lower(t), map[], Eq, None, Some(JoinSpec(Inner, Lower(u), Lower(x), Lower(y)))))
  {
    var on := a + "." + x + " = " + b + "." + y;
    var q := "SELECT * FROM " + t + " JOIN " + u + " ON " + on;
    assert q == "SELECT * FROM " + t + " JOIN " + u + " ON " + a + "." + x + " = " + b + "." + y;
    assert on[0] == a[0] && on[|on| - 1] == y[|y| - 1];
    SelectJoinHeader(t, u, on);
    SelectOfJoin(q, SelectParts(t, None, None, Some((u, on))));
    OnQualified(a, x, b, y);
    JoinOfWord(u, on, x, y);
  }

  /** A header with neither WHERE nor ORDER BY gives a command with neither. */
  lemma {:induction false} SelectOfJoin(q: string, p: SelectParts)
    requires SelectHeader(q) == Some(p) && p.where.None? && p.orderBy.None?
    ensures SelectCommand(q) == Ok(Select(Lower(p.table), map[], Eq, None, JoinOf(p.join)))
  {
  }

  lemma {:induction false} JoinOfWord(u: string, on: string, x: string, y: string)
    requires IsWord(u) && on != [] && OnColumns(on) == Some((Lower(x), Lower(y)))
    ensures JoinOf(Some((u, on))) == Some(JoinSpec(Inner, Lower(u), Lower(x), Lower(y)))
  {
    StripNameSpace(u);
  }

  // ---------------------------------------------------------------------------------------
  // DELETE FROM t [WHERE w]

  /** No `WHERE` starts in the upper-cased `DELETE FROM t` part of a DELETE statement. */
  lemma {:induction false} NoWhereBefore(u: string, ut: string)
    requires 12 + |ut| <= |u| && u[..12] == "DELETE FROM " && u[12..12 + |ut|] == ut
    requires !Contains(ut, "WHERE")
    requires 12 + |ut| < |u| ==> u[12 + |ut|] == ' '
    ensures forall p :: 0 <= p <= 12 + |ut| ==> !OccursAt(u, "WHERE", p)
  {
    forall p | 0 <= p <= 12 + |ut|
      ensures !OccursAt(u, "WHERE", p)
    {
      if p < 12 {
        assert u[p] == u[..12][p] != 'W';
      } else if p + 5 <= 12 + |ut| {
        assert !OccursAt(ut, "WHERE", p - 12);
        var a, b := u[p..p + 5], ut[p - 12..p - 7];
        forall j | 0 <= j < 5
          ensures a[j] == b[j]
        {
          assert ut[p - 12 + j] == u[12..12 + |ut|][p - 12 + j];
        }
        assert a == b;
      } else if p + 5 <= |u| {
        var d := 12 + |ut| - p;
        assert u[p..p + 5][d] == ' ' != "WHERE"[d];
      }
    }
  }

  lemma {:induction false} UpperTable(u: string, q: string, t: string)
    requires u == Upper(q) && |q| >= 12 + |t| && q[..12] == "DELETE FROM " && q[12..12 + |t|] == t
    ensures u[..12] == "DELETE FROM " && u[12..12 + |t|] == Upper(t)
    ensures u[..11] == "DELETE FROM"
  {
    UpperSlice(q, 0, 12);
    UpperSlice(q, 12, 12 + |t|);
    UpperNoLower("DELETE FROM ");
  }

  /** A leading space and no other padding: stripping leaves the rest. */
  lemma {:induction false} StripLeadSpace(x: string, w: string)
    requires Unpadded(w) && |x| == |w| + 1 && x[0] == ' ' && x[1..] == w
    ensures Strip(x) == w
  {
    assert x == " " + w;
    StripSpaceValue(w);
  }

  lemma {:induction false} DeleteTableAt(q: string, t: string)
    requires IsWord(t) && |q| == 12 + |t| && q[..12] == "DELETE FROM " && q[12..] == t
    ensures DeleteTable(q) == Lower(t)
  {
    DeleteHeaderFound(q, t);
    assert q[11] == ' ' && q[12..] == t;
    StripLeadSpace(q[11..], t);
    WordIsFirstToken(t);
  }

  /** `DELETE FROM` is found at the very start of the upper-cased statement. */
  lemma {:induction false} DeleteHeaderFound(q: string, t: string)
    requires |q| == 12 + |t| && q[..12] == "DELETE FROM " && q[12..] == t
    ensures Find(Upper(q), "DELETE FROM") == 0
  {
    UpperTable(Upper(q), q, t);
    assert OccursAt(Upper(q), "DELETE FROM", 0);
  }

  /** A word is its own first token. */
  lemma {:induction false} WordIsFirstToken(t: string)
    requires IsWord(t)
    ensures Strip(t) == t && Tokens(t) != [] && Tokens(t)[0] == t
  {
    TokensOfUnpadded(t);
    assert TokenEnd(t, 0) == |t|;
    StripKeepsUnpadded(t);
  }

  /** The table name of `DELETE FROM t`. */
  lemma {:induction false} DeleteTableOf(t: string)
    requires IsWord(t)
    ensures DeleteTable("DELETE FROM " + t) == Lower(t)
  {
    DeleteAllText(t);
    DeleteTableAt("DELETE FROM " + t, t);
  }

  lemma {:induction false} DeleteAllText(t: string)
    requires IsWord(t)
    ensures var q := "DELETE FROM " + t; Unpadded(q) && q[..12] == "DELETE FROM " && q[12..] == t
  {
    var q := "DELETE FROM " + t;
    assert q[|q| - 1] == t[|t| - 1];
  }

  /** `DELETE FROM t` deletes every row of the table `t`, lower-cased, when no `WHERE` hides in
      the name. */
  lemma {:induction false} ReadDeleteAll(t: string)
    requires IsWord(t) && !Contains(Upper(t), "WHERE")
    ensures DeleteCommand("DELETE FROM " + t) == Delete(Lower(t), map[], Eq)
  {
    var q := "DELETE FROM " + t;
    DeleteAllText(t);
    UpperTable(Upper(q), q, t);
    NoWhereBefore(Upper(q), Upper(t));
    assert Find(Upper(q), "WHERE") == -1;
    UnpaddedStrip(q);
    DeleteTableOf(t);
  }

  lemma {:induction false} DeleteWhereText(t: string, w: string)
    requires IsWord(t) && Unpadded(w)
    ensures var q := "DELETE FROM " + t + " WHERE " + w; var x := 13 + |t|;
      |q| == x + 6 + |w| && q[..12] == "DELETE FROM " && q[12..12 + |t|] == t && q[x - 1] == ' '
      && q[..x] == ("DELETE FROM " + t) + " " && q[x..x + 5] == "WHERE" && q[x] == 'W' && q[x + 5] == ' '
      && q[x + 6..] == w
  {
  }

  /** The WHERE part of a statement cut at its `WHERE`, and the condition after the keyword. */
  lemma {:induction false} WherePartIn(q: string, x: nat, w: string)
    requires Unpadded(w) && |q| == x + 6 + |w| && q[x] == 'W' && q[x + 5] == ' ' && q[x + 6..] == w
    ensures Strip(q[x..]) == q[x..] && |q[x..]| >= 5 && Strip(q[x..][5..]) == w
  {
    var v := q[x..];
    assert v[|v| - 1] == w[|w| - 1];
    StripKeepsUnpadded(v);
    assert v[5..][1..] == w;
    StripLeadSpace(v[5..], w);
  }

  lemma {:induction false} TablePartOf(t: string)
    requires IsWord(t)
    ensures Strip(("DELETE FROM " + t) + " ") == "DELETE FROM " + t
  {
    var a := "DELETE FROM " + t;
    assert TrimLeft(a + " ") == a + " ";
    assert (a + " ")[..|a|] == a;
    DeleteAllText(t);
    UnpaddedStrip(a);
  }

  lemma {:induction false} WhereCutAt(q: string, t: string, w: string, x: nat)
    requires IsWord(t) && !Contains(Upper(t), "WHERE") && x == 13 + |t|
    requires |q| == x + 6 + |w| && q[..12] == "DELETE FROM " && q[12..12 + |t|] == t && q[x - 1] == ' '
      && q[x..x + 5] == "WHERE"
    ensures Find(Upper(q), "WHERE") == x
  {
    var u := Upper(q);
    UpperTable(u, q, t);
    NoWhereBefore(u, Upper(t));
    UpperSlice(q, x, x + 5);
    UpperNoLower("WHERE");
    assert OccursAt(u, "WHERE", x);
  }

  /** `DELETE FROM t WHERE w` deletes the rows of `t` that meet the condition `w`, when no
      `WHERE` hides in the name. */
  lemma {:induction false} ReadDeleteWhere(t: string, w: string)
    requires IsWord(t) && !Contains(Upper(t), "WHERE") && Unpadded(w)
    ensures var (m, op) := Where(DeleteWhere, w);
      DeleteCommand("DELETE FROM " + t + " WHERE " + w) == Delete(Lower(t), m, op)
  {
    var q := "DELETE FROM " + t + " WHERE " + w;
    var x := 13 + |t|;
    DeleteWhereText(t, w);
    WhereCutAt(q, t, w, x);
    TablePartOf(t);
    WherePartIn(q, x, w);
    DeleteTableOf(t);
  }

  lemma {:induction false} EqualsNumberUnpadded(k: string, n: nat)
    requires IsWord(k)
    ensures Unpadded(k + " = " + NatToString(n))
  {
    var w := k + " = " + NatToString(n);
    var d := NatToString(n);
    assert w[0] == k[0] && w[|w| - 1] == d[|d| - 1];
  }

  /** `DELETE FROM t WHERE k = n` deletes the rows of `t` whose column `k` holds the number `n`. */
  lemma {:induction false} ReadDeleteWhereNumber(t: string, k: string, n: nat)
    requires IsWord(t) && !Contains(Upper(t), "WHERE") && IsWord(k)
    ensures DeleteCommand("DELETE FROM " + t + " WHERE " + k + " = " + NatToString(n))
      == Delete(Lower(t), map[Lower(k) := VInt(n)], Eq)
  {
    var w := k + " = " + NatToString(n);
    EqualsNumberUnpadded(k, n);
    ReadDeleteWhere(t, w);
    WhereEqualsNumber(DeleteWhere, k, n);
    DeleteWhereJoin(t, k, NatToString(n));
  }

  lemma {:induction false} DeleteWhereJoin(t: string, k: string, d: string)
    ensures "DELETE FROM " + t + " WHERE " + k + " = " + d == "DELETE FROM " + t + " WHERE " + (k + " = " + d)
  {
  }

  // ---------------------------------------------------------------------------------------
  // UPDATE t SET k = 'v', ... WHERE w

  /** A text without the letter `W` holds no `WHERE`. */
  lemma {:induction false} NoWhereWithoutW(s: string)
    requires 'W' !in s
    ensures !Contains(s, "WHERE")
  {
    forall p | 0 <= p <= |s|
      ensures !OccursAt(s, "WHERE", p)
    {
      if p + 5 <= |s| {
        assert s[p..p + 5][0] == s[p] && s[p] in s;
      }
    }
  }

  /** Two texts without `WHERE`, with a space where they meet, hold none together. */
  lemma {:induction false} NoWhereAcross(a: string, b: string)
    requires !Contains(a, "WHERE") && !Contains(b, "WHERE")
    requires (a != [] && a[|a| - 1] == ' ') || (b != [] && b[0] == ' ')
    ensures !Contains(a + b, "WHERE")
  {
    var s := a + b;
    forall p | 0 <= p <= |s|
      ensures !OccursAt(s, "WHERE", p)
    {
      if p + 5 <= |a| {
        assert s[p..p + 5] == a[p..p + 5];
        assert !OccursAt(a, "WHERE", p);
      } else if |a| <= p {
        if p + 5 <= |s| {
          assert s[p..p + 5] == b[p - |a|..p - |a| + 5];
          assert !OccursAt(b, "WHERE", p - |a|);
        }
      } else if p + 5 <= |s| {
        var d := if a != [] && a[|a| - 1] == ' ' then |a| - 1 - p else |a| - p;
        assert s[p..p + 5][d] == ' ';
      }
    }
  }

  lemma {:induction false} UpperConcat(a: string, b: string)
    ensures Upper(a + b) == Upper(a) + Upper(b)
  {
  }

  /** The first `WHERE` is at `x` when none occurs before it and a space precedes it. */
  lemma {:induction false} FirstWhereAt(u: string, x: nat)
    requires 1 <= x && x + 5 <= |u| && !Contains(u[..x], "WHERE") && u[x - 1] == ' ' && u[x..x + 5] == "WHERE"
    ensures Find(u, "WHERE") == x
  {
    assert OccursAt(u, "WHERE", x);
    forall k | 0 <= k < x
      ensures !OccursAt(u, "WHERE", k)
    {
      if k + 5 <= x {
        assert u[k..k + 5] == u[..x][k..k + 5];
        assert !OccursAt(u[..x], "WHERE", k);
      } else {
        assert u[k..k + 5][x - 1 - k] == ' ';
      }
    }
  }

  /** No quote doubling brings in a newline. */
  lemma {:induction false} DoubleQuotesNoNewline(v: string)
    requires '\n' !in v
    ensures '\n' !in DoubleQuotes(v)
    decreases |v|
  {
    if v != [] {
      assert v[0] in v && forall c :: c in v[1..] ==> c in v;
      DoubleQuotesNoNewline(v[1..]);
    }
  }

  /** A SET clause written from plain names and values without newlines is on one line, begins
      with the first name and ends with a quote. */
  lemma {:induction false} AssignmentsShape(ps: seq<(string, string)>)
    requires ps != [] && forall i :: 0 <= i < |ps| ==> PlainName(ps[i].0) && '\n' !in ps[i].1
    ensures var s := Assignments(ps); '\n' !in s && |s| > 0 && IsWordChar(s[0]) && s[|s| - 1] == '\''
    decreases |ps|
  {
    var k, v := ps[0].0, ps[0].1;
    DoubleQuotesNoNewline(v);
    var a := Assignment(k, v);
    assert '\n' !in k by {
      assert forall i :: 0 <= i < |k| ==> IsWordChar(k[i]);
    }
    assert a == k + " = '" + DoubleQuotes(v) + "'";
    assert '\n' !in a;
    if |ps| > 1 {
      AssignmentsShape(ps[1..]);
      var rest := Assignments(ps[1..]);
      assert Assignments(ps) == a + ", " + rest;
      assert '\n' !in a + ", " + rest;
    }
  }

  lemma {:induction false} UpdateText(t: string, a: string, w: string)
    requires IsWord(t)
    ensures var q := "UPDATE " + t + " SET " + a + " WHERE " + w; var m := "UPDATE " + t + " SET " + a;
      var x := |m| + 1;
      |q| == x + 6 + |w| && q[..x] == m + " " && q[x - 1] == ' ' && q[x..x + 5] == "WHERE" && q[x] == 'W'
      && q[x + 5] == ' ' && q[x + 6..] == w
  {
  }

  /** The first `WHERE` of `UPDATE t SET a WHERE w` is the keyword, when neither the name nor
      the SET clause holds one. */
  lemma {:induction false} UpdateWhereFound(t: string, a: string, w: string)
    requires IsWord(t) && !Contains(Upper(t), "WHERE") && !Contains(Upper(a), "WHERE")
    ensures var q := "UPDATE " + t + " SET " + a + " WHERE " + w;
      Find(Upper(q), "WHERE") == |"UPDATE " + t + " SET " + a| + 1
  {
    var q := "UPDATE " + t + " SET " + a + " WHERE " + w;
    var m := "UPDATE " + t + " SET " + a;
    var x := |m| + 1;
    UpdateText(t, a, w);
    UpperNoLower("UPDATE ");
    UpperNoLower(" SET ");
    UpperNoLower(" ");
    NoWhereWithoutW("UPDATE ");
    NoWhereWithoutW(" SET ");
    NoWhereWithoutW(" ");
    var h := "UPDATE " + Upper(t) + " SET " + Upper(a) + " ";
    NoWhereAcross("UPDATE ", Upper(t));
    NoWhereAcross("UPDATE " + Upper(t), " SET ");
    NoWhereAcross("UPDATE " + Upper(t) + " SET ", Upper(a));
    NoWhereAcross("UPDATE " + Upper(t) + " SET " + Upper(a), " ");
    UpperConcat("UPDATE ", t);
    UpperConcat("UPDATE " + t, " SET ");
    UpperConcat("UPDATE " + t + " SET ", a);
    UpperConcat(m, " ");
    assert Upper(m + " ") == h;
    UpperSlice(q, 0, x);
    UpperSlice(q, x, x + 5);
    UpperNoLower("WHERE");
    FirstWhereAt(Upper(q), x);
  }

  lemma {:induction false} UpdateMainText(t: string, a: string)
    requires IsWord(t)
    ensures var m := "UPDATE " + t + " SET " + a; var b := 7 + |t|;
      |m| == b + 5 + |a| && m[..6] == "UPDATE" && m[6] == ' ' && m[7..b] == t && m[b] == ' '
      && m[b + 1..b + 4] == "SET" && m[b + 4] == ' ' && m[b + 5..] == a
  {
  }

  /** ` SET ` at `b`, then a text with no newline up to the end. */
  lemma {:induction false} SetToEnd(m: string, b: nat, a: string)
    requires Unpadded(a) && '\n' !in a && |m| == b + 5 + |a| && m[b] == ' ' && m[b + 1..b + 4] == "SET"
      && m[b + 4] == ' ' && m[b + 5..] == a
    ensures KeywordAt(m, b, "SET") && AfterKeyword(m, b, "SET") == b + 5 && LineEnd(m, b + 5) == |m|
  {
    assert m[b + 1] == 'S';
    assert SpaceEnd(m, b) == b + 1;
    AtLiteral(m, b + 1, "SET");
    assert m[b + 5] == a[0];
    assert SpaceEnd(m, b + 4) == b + 5;
    assert forall k :: b + 5 <= k < |m| ==> m[k] == a[k - b - 5] && a[k - b - 5] in a;
  }

  /** The anchored UPDATE header of `UPDATE t SET a`: the name and the whole SET text. */
  lemma {:induction false} UpdateHeaderOf(t: string, a: string)
    requires IsWord(t) && Unpadded(a) && '\n' !in a
    ensures UpdateHeader("UPDATE " + t + " SET " + a) == Some((t, a))
  {
    var m := "UPDATE " + t + " SET " + a;
    var b := 7 + |t|;
    UpdateMainText(t, a);
    AtLiteral(m, 0, "UPDATE");
    assert m[7] == t[0];
    assert SpaceEnd(m, 6) == 7;
    WordBefore(m, 7, t);
    SetToEnd(m, b, a);
    assert m[b + 5..|m|] == a;
  }

  /** `UPDATE t SET a WHERE w` is cut at its `WHERE` into the statement before it and the WHERE
      part. */
  lemma {:induction false} UpdateCut(t: string, a: string, w: string)
    requires IsWord(t) && !Contains(Upper(t), "WHERE") && !Contains(Upper(a), "WHERE")
    requires Unpadded(a) && Unpadded(w)
    ensures WhereCut("UPDATE " + t + " SET " + a + " WHERE " + w) == ("UPDATE " + t + " SET " + a, "WHERE " + w)
  {
    var q := "UPDATE " + t + " SET " + a + " WHERE " + w;
    var main := "UPDATE " + t + " SET " + a;
    var x := |main| + 1;
    UpdateText(t, a, w);
    UpdateWhereFound(t, a, w);
    assert main[0] == 'U' && main[|main| - 1] == a[|a| - 1];
    var rest := "WHERE " + w;
    assert q[x..] == rest && rest[|rest| - 1] == w[|w| - 1];
    WhereCutOf(q, x, main, rest);
  }

  /** A statement whose first `WHERE` follows `main` and a space is cut there. */
  lemma {:induction false} WhereCutOf(q: string, x: nat, main: string, rest: string)
    requires Find(Upper(q), "WHERE") == x && x <= |q| && q[..x] == main + " " && q[x..] == rest
    requires Unpadded(main) && Unpadded(rest)
    ensures WhereCut(q) == (main, rest)
  {
    StripTrailSpace(main);
    UnpaddedStrip(rest);
  }

  /** `UPDATE t SET k1 = 'v1', ... WHERE w` sets each named column of the rows of `t` that
      meet `w` to its text, a later assignment to the same column winning, when no `WHERE`
      hides in the name or the assignments and no value holds a newline. */
  lemma {:induction false} ReadUpdate(t: string, ps: seq<(string, string)>, w: string)
    requires IsWord(t) && !Contains(Upper(t), "WHERE") && Unpadded(w)
    requires ps != [] && forall i :: 0 <= i < |ps| ==> PlainName(ps[i].0) && '\n' !in ps[i].1
    requires !Contains(Upper(Assignments(ps)), "WHERE")
    ensures var (m, op) := Where(UpdateWhere, w);
      UpdateCommand("UPDATE " + t + " SET " + Assignments(ps) + " WHERE " + w)
        == Ok(Update(Lower(t), Texts(PairsMap(ps)), FirstNames(ps), m, op))
  {
    var a := Assignments(ps);
    var q := "UPDATE " + t + " SET " + a + " WHERE " + w;
    AssignmentsShape(ps);
    UpdateCut(t, a, w);
    UpdateHeaderOf(t, a);
    UnpaddedStrip(a);
    SetClauseRoundTrip(ps);
    UpdateOfParts(q, "UPDATE " + t + " SET " + a, "WHERE " + w, t, a);
    TailWhereOf(UpdateWhere, w);
  }

  /** The command read from the parts the WHERE cut and the header give. */
  lemma {:induction false} UpdateOfParts(q: string, main: string, wherePart: string, t: string, setText: string)
    requires WhereCut(q) == (main, wherePart) && UpdateHeader(main) == Some((t, setText))
    ensures var (m, op) := TailWhere(UpdateWhere, wherePart);
      UpdateCommand(q) == Ok(Update(Lower(t), Texts(SetValues(Strip(setText))), SetOrder(Strip(setText)), m, op))
  {
  }

  /** The WHERE part `WHERE w` gives the condition `w`. */
  lemma {:induction false} TailWhereOf(style: WhereStyle, w: string)
    requires Unpadded(w)
    ensures TailWhere(style, "WHERE " + w) == Where(style, w)
  {
    assert ("WHERE " + w)[5..] == " " + w;
    StripLeadSpace(" " + w, w);
  }

  /** As written, the WHERE cut looks for `WHERE` anywhere in the upper-cased query, quotes
      included: in `UPDATE t SET k = 'x WHERE y'` it cuts inside the quoted value, so the SET
      text ends at `'x` and the update carries no condition, reaching every row. */
  lemma {:induction false} WhereInsideSetValue(t: string, k: string, x: string, y: string)
    requires IsWord(t) && !Contains(Upper(t), "WHERE") && IsWord(k) && IsWord(x) && IsWord(y)
    requires !Contains(Upper(k + " = '" + x), "WHERE")
    ensures UpdateCommand("UPDATE " + t + " SET " + k + " = '" + x + " WHERE " + y + "'")
      == Ok(Update(Lower(t), Texts(SetValues(k + " = '" + x)), SetOrder(k + " = '" + x), map[], Eq))
  {
    var a := k + " = '" + x;
    var w := y + "'";
    var q := "UPDATE " + t + " SET " + a + " WHERE " + w;
    assert q == "UPDATE " + t + " SET " + k + " = '" + x + " WHERE " + y + "'";
    OpenQuoteText(k, x);
    QuoteEndNoCondition(y);
    UpdateCut(t, a, w);
    UpdateHeaderOf(t, a);
    UnpaddedStrip(a);
    UpdateOfParts(q, "UPDATE " + t + " SET " + a, "WHERE " + w, t, a);
    TailWhereOf(UpdateWhere, w);
  }

  /** `k = 'x`, a SET text whose quote is left open, is one unpadded line. */
  lemma {:induction false} OpenQuoteText(k: string, x: string)
    requires IsWord(k) && IsWord(x)
    ensures Unpadded(k + " = '" + x) && '\n' !in k + " = '" + x
  {
    var a := k + " = '" + x;
    assert a[0] == k[0] && a[|a| - 1] == x[|x| - 1];
    assert forall i :: 0 <= i < |k| ==> k[i] != '\n';
    assert forall i :: 0 <= i < |x| ==> x[i] != '\n';
  }

  /** `y'`, what is left after the cut, holds neither ` LIKE ` nor `=`: no condition. */
  lemma {:induction false} QuoteEndNoCondition(y: string)
    requires IsWord(y)
    ensures Unpadded(y + "'") && Where(UpdateWhere, y + "'") == (map[], Eq)
  {
    var w := y + "'";
    assert w[0] == y[0];
    assert forall i :: 0 <= i < |w| ==> w[i] != ' ' && w[i] != '=';
    NoLikeIn(w);
  }

  // ---------------------------------------------------------------------------------------
  // CREATE TABLE t (definitions)

  lemma {:induction false} CreateTableText(t: string, body: string)
    requires IsWord(t)
    ensures var q := "CREATE TABLE " + t + " (" + body + ")"; var e := 13 + |t|;
      |q| == e + 3 + |body| && q[..13] == "CREATE TABLE " && q[13..e] == t && q[e] == ' '
      && q[e + 1] == '(' && q[e + 2..|q| - 1] == body && q[|q| - 1] == ')'
  {
  }

  lemma {:induction false} CreateTableAtStart(q: string, t: string, body: string)
    requires IsWord(t)
    requires var e := 13 + |t|;
      |q| == e + 3 + |body| && q[..13] == "CREATE TABLE " && q[13..e] == t && q[e] == ' '
      && q[e + 1] == '(' && q[e + 2..|q| - 1] == body && q[|q| - 1] == ')'
    ensures CreateTableHeader(q) == Some((t, body))
  {
    var e := 13 + |t|;
    AtLiteral(q, 0, "CREATE TABLE ");
    WordBefore(q, 13, t);
    assert SpaceEnd(q, e) == e + 1;
    assert OpenParen(q, 13) == e + 1;
    assert LastIndex(q, ')') == |q| - 1;
    var P := (i: nat) => CreateTableAt(q, i);
    assert P(0);
  }

  /** `CREATE TABLE t (body)` creates the table `t`, lower-cased, with the columns the
      definitions in `body` describe, whatever the body holds. */
  lemma {:induction false} ReadCreateTable(t: string, body: string)
    requires IsWord(t)
    ensures CreateTableCommand("CREATE TABLE " + t + " (" + body + ")") == Ok(CreateTable(Lower(t), TableColumns(body)))
  {
    CreateTableText(t, body);
    CreateTableAtStart("CREATE TABLE " + t + " (" + body + ")", t, body);
  }

  lemma {:induction false} StripTwice(d: string)
    requires Strip(d) != []
    ensures Strip(Strip(d)) == Strip(d)
  {
    StripKeepsUnpadded(Strip(d));
  }

  /** Definitions joined with commas, none of them blank and none with a comma outside
      parentheses, give one column each, in order. */
  lemma {:induction false} TableColumnsOfJoin(defs: seq<string>)
    requires defs != [] && forall i :: 0 <= i < |defs| ==> Whole(OutsideParens, defs[i]) && Strip(defs[i]) != []
    ensures |TableColumns(Join(defs, ','))| == |defs|
    ensures forall i :: 0 <= i < |defs| ==> TableColumns(Join(defs, ','))[i] == ColumnDefinition(defs[i])
  {
    DefinitionItemsOfJoin(defs);
    forall i | 0 <= i < |defs|
      ensures TableColumns(Join(defs, ','))[i] == ColumnDefinition(defs[i])
    {
      StripTwice(defs[i]);
    }
  }

  // ---------------------------------------------------------------------------------------
  // INSERT INTO t (columns) VALUES (values)

  lemma {:induction false} InsertText(t: string, cols: string, vals: string)
    requires IsWord(t)
    ensures var q := "INSERT INTO " + t + " (" + cols + ") VALUES (" + vals + ")";
      var e := 12 + |t|; var j := e + 2 + |cols|;
      |q| == j + 11 + |vals| && q[..12] == "INSERT INTO " && q[12..e] == t && q[e] == ' '
      && q[e + 1] == '(' && q[e + 2..j] == cols && q[j] == ')' && q[j + 1] == ' '
      && q[j + 2..j + 8] == "VALUES" && q[j + 8] == ' ' && q[j + 9] == '('
      && q[j + 10..|q| - 1] == vals && q[|q| - 1] == ')'
  {
  }

  /** Where VALUES follows the column list. */
  lemma {:induction false} ValuesAtEnd(q: string, j: nat)
    requires j + 11 <= |q| && q[j] == ')' && q[j + 1] == ' ' && q[j + 2..j + 8] == "VALUES"
      && q[j + 8] == ' ' && q[j + 9] == '(' && q[|q| - 1] == ')'
    ensures ValuesAt(q, j) && SpaceEnd(q, SpaceEnd(q, j + 1) + 6) == j + 9 && LastIndex(q, ')') == |q| - 1
  {
    AtLiteral(q, j + 2, "VALUES");
    assert SpaceEnd(q, j + 1) == j + 2;
    assert SpaceEnd(q, j + 8) == j + 9;
  }

  lemma {:induction false} InsertOpenStart(q: string, t: string)
    requires IsWord(t) && var e := 12 + |t|;
      e + 1 < |q| && q[..12] == "INSERT INTO " && q[12..e] == t && q[e] == ' ' && q[e + 1] == '('
    ensures InsertOpenAt(q, 0) && OpenParen(q, 12) == 13 + |t| && WordFrom(q, 12) == t
  {
    var e := 12 + |t|;
    AtLiteral(q, 0, "INSERT INTO ");
    WordBefore(q, 12, t);
    assert SpaceEnd(q, e) == e + 1;
  }

  /** The lazy column group stops at the first `)`, when that `)` is followed by VALUES. */
  lemma {:induction false} ColumnsEndOf(q: string, j: nat)
    requires InsertOpenAt(q, 0) && OpenParen(q, 12) < j && ValuesAt(q, j)
    requires forall k | OpenParen(q, 12) < k < j :: q[k] != ')'
    ensures ColumnsEnd(q, 0) == j
  {
    var V := (j: nat) => ValuesAt(q, j);
    forall k | OpenParen(q, 12) + 1 <= k < j
      ensures !V(k)
    {
      assert q[k] != ')';
    }
    assert V(j);
    var r := Leftmost(V, OpenParen(q, 12) + 1, |q|);
    assert r <= j;
    assert r == j;
  }

  lemma {:induction false} InsertFirst(q: string)
    requires InsertAt(q, 0)
    ensures InsertHeader(q) == Some(InsertGroups(q, 0))
  {
    var P := (i: nat) => InsertAt(q, i);
    assert P(0);
  }

  lemma {:induction false} InsertGroupsAt(q: string, t: string, p: nat, j: nat)
    requires InsertAt(q, 0) && OpenParen(q, 12) == p && WordFrom(q, 12) == t
    requires ColumnsEnd(q, 0) == j && j + 11 <= |q| && SpaceEnd(q, SpaceEnd(q, j + 1) + 6) == j + 9
      && LastIndex(q, ')') == |q| - 1
    ensures InsertGroups(q, 0) == InsertParts(t, q[p + 1..j], q[j + 10..|q| - 1])
  {
  }

  lemma {:induction false} InsertAtStart(q: string, t: string, p: nat, j: nat, cols: string, vals: string)
    requires InsertOpenAt(q, 0) && OpenParen(q, 12) == p && WordFrom(q, 12) == t
    requires ColumnsEnd(q, 0) == j && j + 11 <= |q| && SpaceEnd(q, SpaceEnd(q, j + 1) + 6) == j + 9
      && LastIndex(q, ')') == |q| - 1
    requires q[p + 1..j] == cols && q[j + 10..|q| - 1] == vals
    ensures InsertHeader(q) == Some(InsertParts(t, cols, vals))
  {
    assert InsertAt(q, 0);
    InsertGroupsAt(q, t, p, j);
    InsertFirst(q);
  }

  lemma {:induction false} InsertHeaderOf(q: string, t: string, cols: string, vals: string)
    requires IsWord(t) && ')' !in cols
    requires var e := 12 + |t|; var j := e + 2 + |cols|;
      |q| == j + 11 + |vals| && q[..12] == "INSERT INTO " && q[12..e] == t && q[e] == ' '
      && q[e + 1] == '(' && q[e + 2..j] == cols && q[j] == ')' && q[j + 1] == ' '
      && q[j + 2..j + 8] == "VALUES" && q[j + 8] == ' ' && q[j + 9] == '('
      && q[j + 10..|q| - 1] == vals && q[|q| - 1] == ')'
    ensures InsertHeader(q) == Some(InsertParts(t, cols, vals))
  {
    var e := 12 + |t|;
    var j := e + 2 + |cols|;
    InsertOpenStart(q, t);
    ValuesAtEnd(q, j);
    forall k | e + 1 < k < j
      ensures q[k] != ')'
    {
      assert q[k] == cols[k - e - 2];
    }
    ColumnsEndOf(q, j);
    InsertAtStart(q, t, e + 1, j, cols, vals);
  }

  /** `INSERT INTO t (columns) VALUES (values)` inserts into `t`, lower-cased, the row that
      pairs the column names with the values in order, when the column list has no `)`. */
  lemma {:induction false} ReadInsert(t: string, cols: string, vals: string)
    requires IsWord(t) && ')' !in cols
    ensures InsertCommand("INSERT INTO " + t + " (" + cols + ") VALUES (" + vals + ")")
      == Ok(Insert(Lower(t), Zipped(ColumnNames(cols), ValueItems(vals))))
  {
    InsertText(t, cols, vals);
    InsertHeaderOf("INSERT INTO " + t + " (" + cols + ") VALUES (" + vals + ")", t, cols, vals);
  }

  // ---------------------------------------------------------------------------------------
  // Column definitions

  lemma {:induction false} SpaceEndAt(s: string, i: nat, a: nat)
    requires i <= a <= |s| && (a == |s| || !IsSpace(s[a]))
    requires forall k :: i <= k < a ==> IsSpace(s[k])
    ensures SpaceEnd(s, i) == a
    decreases a - i
  {
    if i < a {
      SpaceEndAt(s, i + 1, a);
    }
  }

  lemma {:induction false} TokenEndAt(s: string, i: nat, b: nat)
    requires i < b <= |s| && (b == |s| || IsSpace(s[b]))
    requires forall k :: i <= k < b ==> !IsSpace(s[k])
    ensures TokenEnd(s, i) == b
    decreases b - i
  {
    if i + 1 < b {
      TokenEndAt(s, i + 1, b);
    }
  }

  /** After the spaces before `a`, the first token of `s` is the run `w` of non-spaces at `a`. */
  lemma {:induction false} TokensAt(s: string, a: nat, w: string)
    requires w != [] && a + |w| <= |s| && s[a..a + |w|] == w
    requires forall k :: 0 <= k < a ==> IsSpace(s[k])
    requires forall m :: 0 <= m < |w| ==> !IsSpace(w[m])
    requires a + |w| == |s| || IsSpace(s[a + |w|])
    ensures Tokens(s) == [w] + Tokens(s[a + |w|..])
  {
    assert s[a] == w[0];
    SpaceEndAt(s, 0, a);
    forall k | a <= k < a + |w|
      ensures !IsSpace(s[k])
    {
      assert s[k] == w[k - a];
    }
    TokenEndAt(s, a, a + |w|);
    TokensUnfold(s, a, a + |w|, w);
  }

  lemma {:induction false} TokensUnfold(s: string, a: nat, b: nat, w: string)
    requires a == SpaceEnd(s, 0) && a < |s| && b == TokenEnd(s, a) && s[a..b] == w
    ensures Tokens(s) == [w] + Tokens(s[b..])
  {
  }

  /** A phrase with a space in it does not occur in a text without spaces. */
  lemma {:induction false} NoSpacedPhrase(s: string, lit: string, m: nat)
    requires m < |lit| && IsSpace(lit[m]) && forall k :: 0 <= k < |s| ==> !IsSpace(s[k])
    ensures !Contains(s, lit)
  {
    forall k | 0 <= k <= |s| - |lit|
      ensures !OccursAt(s, lit, k)
    {
      assert s[k..k + |lit|][m] == s[k + m];
    }
  }

  /** A definition that is only a name gives a nullable TEXT column that is not the primary
      key; it is unique exactly when the name itself contains UNIQUE (as `unique_id` does). */
  lemma {:induction false} NameOnlyColumn(n: string)
    requires IsWord(n)
    ensures Strip(n) != []
      && ColumnDefinition(n) == Column(Lower(n), TEXT, false, Contains(Upper(n), "UNIQUE"), true)
  {
    assert !IsSpace(n[0]) && !IsSpace(n[|n| - 1]);
    StripKeepsUnpadded(n);
    TokensAt(n, 0, n);
    assert n[|n|..] == [];
    var u := Upper(n);
    assert forall k :: 0 <= k < |u| ==> !IsSpace(u[k]);
    NoSpacedPhrase(u, "PRIMARY KEY", 7);
    NoSpacedPhrase(u, "NOT NULL", 3);
  }

  /** A word followed by a space is the first token. */
  lemma {:induction false} WordThenSpace(lead: string, w: string, rest: string)
    requires lead == "" || lead == " "
    requires IsWord(w) && rest != [] && rest[0] == ' '
    ensures Tokens(lead + w + rest) == [w] + Tokens(rest)
  {
    var s := lead + w + rest;
    var a := |lead|;
    assert s[a..a + |w|] == w && s[a + |w|] == ' ' && s[a + |w|..] == rest;
    assert forall m :: 0 <= m < |w| ==> IsWordChar(w[m]);
    TokensAt(s, a, w);
  }

  lemma {:induction false} PrimaryKeyTokens(n: string, t: string)
    requires IsWord(n) && IsWord(t)
    ensures var d := n + " " + t + " PRIMARY KEY";
      var parts := Tokens(d); |parts| > 1 && parts[0] == n && parts[1] == t
  {
    var d := n + " " + t + " PRIMARY KEY";
    var r := " " + t + " PRIMARY KEY";
    assert d == "" + n + r;
    WordThenSpace("", n, r);
    WordThenSpace(" ", t, " PRIMARY KEY");
  }

  lemma {:induction false} PrimaryKeyPhrase(n: string, t: string)
    requires IsWord(n) && IsWord(t)
    ensures var d := n + " " + t + " PRIMARY KEY";
      Strip(d) == d && Contains(Upper(d), "PRIMARY KEY")
  {
    var d := n + " " + t + " PRIMARY KEY";
    assert d[0] == n[0] && d[|d| - 1] == 'Y';
    StripKeepsUnpadded(d);
    var k := |n| + |t| + 2;
    assert d[k..] == "PRIMARY KEY";
    assert Upper(d)[k..k + 11] == "PRIMARY KEY";
    assert OccursAt(Upper(d), "PRIMARY KEY", k);
  }

  /** `name type PRIMARY KEY` gives the primary-key column `name` of that type, upper-cased,
      and it is not nullable. */
  lemma {:induction false} PrimaryKeyColumn(d: string, n: string, t: string)
    requires IsWord(n) && IsWord(t) && d == n + " " + t + " PRIMARY KEY"
    ensures Strip(d) != []
      && ColumnDefinition(d) == Column(Lower(n), Upper(t), true, Contains(Upper(d), "UNIQUE"), false)
  {
    PrimaryKeyFacts(d, n, t);
  }

  lemma {:induction false} PrimaryKeyFacts(d: string, n: string, t: string)
    requires IsWord(n) && IsWord(t) && d == n + " " + t + " PRIMARY KEY"
    ensures d != [] && Strip(d) == d && Contains(Upper(d), "PRIMARY KEY")
    ensures |Tokens(d)| > 1 && Tokens(d)[0] == n && Tokens(d)[1] == t
  {
    PrimaryKeyPhrase(n, t);
    PrimaryKeyTokens(n, t);
  }

}
