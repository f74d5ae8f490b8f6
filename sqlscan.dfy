/**
 * The character scanners of the SQL parser (parser/sql_parser.py): the VALUES splitter of
 * INSERT, the column-list splitter of CREATE TABLE and the SET-clause scanner of UPDATE. Each
 * loop is a method proved equal to a function that says where the text is cut; the lemmas say
 * what that cutting keeps together and what it gives back for text written the usual way.
 */
module SqlScan {
  import opened Text

  // ---------------------------------------------------------------------------------------
  // Cutting a list at its top-level commas

  /** Number of occurrences of `c` in `s`. */
  function Count(s: string, c: char): nat
  {
    if s == [] then 0 else Count(s[..|s| - 1], c) + (if s[|s| - 1] == c then 1 else 0)
  }

  /** Which commas separate items: VALUES ignores the commas after an odd number of quotes, a
      column list ignores the commas inside parentheses. */
  datatype CutRule = OutsideQuotes | OutsideParens

  /** Having read `before`, the scanner is outside every quote (every parenthesis). */
  predicate Neutral(rule: CutRule, before: string)
  {
    match rule
    case OutsideQuotes => Count(before, '\'') % 2 == 0
    case OutsideParens => Count(before, '(') == Count(before, ')')
  }

  /** The character `c`, read after `before`, ends an item. */
  predicate CutsAt(rule: CutRule, before: string, c: char)
  {
    c == ',' && Neutral(rule, before)
  }

  /** The raw items of `s`: the texts between consecutive separating commas, in order. */
  function Pieces(rule: CutRule, s: string): (r: seq<string>)
    ensures |r| >= 1
  {
    if s == [] then [""]
    else
      var p := s[..|s| - 1];
      var r := Pieces(rule, p);
      if CutsAt(rule, p, s[|s| - 1]) then r + [""] else r[..|r| - 1] + [r[|r| - 1] + [s[|s| - 1]]]
  }

  /** Reading one more character: a separator opens an empty piece, anything else extends the
      last piece. */
  lemma {:induction false} PiecesSnoc(rule: CutRule, p: string, c: char)
    ensures CutsAt(rule, p, c) ==> Pieces(rule, p + [c]) == Pieces(rule, p) + [""]
    ensures !CutsAt(rule, p, c) ==> var r := Pieces(rule, p); Pieces(rule, p + [c]) == r[..|r| - 1] + [r[|r| - 1] + [c]]
  {
    assert (p + [c])[..|p + [c]| - 1] == p;
  }

  /** `x` is one item wherever it stands after a separator: it leaves the scanner outside
      quotes (parentheses) and none of its commas separates. */
  predicate Whole(rule: CutRule, x: string)
  {
    Neutral(rule, x) && forall k :: 0 <= k < |x| ==> !CutsAt(rule, x[..k], x[k])
  }

  lemma {:induction false} CountAppend(a: string, b: string, c: char)
    ensures Count(a + b, c) == Count(a, c) + Count(b, c)
    decreases |b|
  {
    if b != [] {
      var b' := b[..|b| - 1];
      assert (a + b)[..|a + b| - 1] == a + b';
      CountAppend(a, b', c);
    } else {
      assert a + b == a;
    }
  }

  /** After a separator, the scanner is in the same state as at the start. */
  lemma {:induction false} CutsAfterSeparator(rule: CutRule, a: string, b: string, c: char)
    requires Neutral(rule, a)
    ensures CutsAt(rule, a + [','] + b, c) == CutsAt(rule, b, c)
    ensures Neutral(rule, a + [','] + b) == Neutral(rule, b)
  {
    CountAppend(a + [','], b, '\'');
    CountAppend(a + [','], b, '(');
    CountAppend(a + [','], b, ')');
    CountAppend(a, [','], '\'');
    CountAppend(a, [','], '(');
    CountAppend(a, [','], ')');
    assert [','][..0] == [];
  }

  /** Cutting after a separator read outside quotes is cutting the two sides apart. */
  lemma {:induction false} PiecesAppend(rule: CutRule, a: string, b: string)
    requires Neutral(rule, a)
    ensures Pieces(rule, a + [','] + b) == Pieces(rule, a) + Pieces(rule, b)
    decreases |b|
  {
    if b == [] {
      PiecesSnoc(rule, a, ',');
      assert a + [','] + b == a + [','];
    } else {
      var b' := b[..|b| - 1];
      var c := b[|b| - 1];
      PiecesAppend(rule, a, b');
      PiecesAppendStep(rule, a, b', c, b);
    }
  }

  lemma {:induction false} PiecesAppendStep(rule: CutRule, a: string, b: string, c: char, bc: string)
    requires Neutral(rule, a) && bc == b + [c]
    requires Pieces(rule, a + [','] + b) == Pieces(rule, a) + Pieces(rule, b)
    ensures Pieces(rule, a + [','] + bc) == Pieces(rule, a) + Pieces(rule, bc)
  {
    assert a + [','] + bc == a + [','] + b + [c];
    PiecesAppendSnoc(rule, a, b, c);
  }

  lemma {:induction false} PiecesAppendSnoc(rule: CutRule, a: string, b: string, c: char)
    requires Neutral(rule, a)
    requires Pieces(rule, a + [','] + b) == Pieces(rule, a) + Pieces(rule, b)
    ensures Pieces(rule, a + [','] + b + [c]) == Pieces(rule, a) + Pieces(rule, b + [c])
  {
    PiecesSnoc(rule, a + [','] + b, c);
    PiecesSnoc(rule, b, c);
    CutsAfterSeparator(rule, a, b, c);
    ExtendAfter(Pieces(rule, a), Pieces(rule, b), [c]);
  }

  lemma {:induction false} ExtendLastPiece(raw: seq<string>, current: string, y: string)
    ensures var r := raw + [current]; r[..|r| - 1] + [r[|r| - 1] + y] == raw + [current + y]
  {
    var r := raw + [current];
    assert r[..|r| - 1] == raw;
  }

  lemma {:induction false} ExtendAfter(pa: seq<string>, r: seq<string>, y: string)
    requires r != []
    ensures var r1 := pa + r;
      r1[..|r1| - 1] + [r1[|r1| - 1] + y] == pa + (r[..|r| - 1] + [r[|r| - 1] + y])
    ensures pa + r + [""] == pa + (r + [""])
  {
    var r1 := pa + r;
    assert r1[..|r1| - 1] == pa + r[..|r| - 1];
  }

  /** A whole item is a single piece. */
  lemma {:induction false} WholeIsOnePiece(rule: CutRule, x: string, n: nat)
    requires n <= |x| && forall k :: 0 <= k < n ==> !CutsAt(rule, x[..k], x[k])
    ensures Pieces(rule, x[..n]) == [x[..n]]
  {
    if n > 0 {
      assert x[..n][..n - 1] == x[..n - 1] && x[..n][n - 1] == x[n - 1];
      WholeIsOnePiece(rule, x, n - 1);
      assert x[..n - 1] + [x[n - 1]] == x[..n];
    }
  }

  /** Items that are whole, joined by commas, are cut back into exactly those items. */
  lemma {:induction false} PiecesOfJoin(rule: CutRule, xs: seq<string>)
    requires xs != [] && forall i :: 0 <= i < |xs| ==> Whole(rule, xs[i])
    ensures Pieces(rule, Join(xs, ',')) == xs
  {
    WholeIsOnePiece(rule, xs[0], |xs[0]|);
    assert xs[0][..|xs[0]|] == xs[0];
    if |xs| > 1 {
      PiecesOfJoin(rule, xs[1..]);
      PiecesAppend(rule, xs[0], Join(xs[1..], ','));
      assert Join(xs, ',') == xs[0] + [','] + Join(xs[1..], ',');
      assert [xs[0]] + xs[1..] == xs;
    }
  }

  lemma {:induction false} JoinSnoc(xs: seq<string>, x: string, c: char)
    requires xs != []
    ensures Join(xs + [x], c) == Join(xs, c) + [c] + x
  {
    if |xs| > 1 {
      assert (xs + [x])[1..] == xs[1..] + [x];
      JoinSnoc(xs[1..], x, c);
    }
  }

  lemma {:induction false} JoinExtendLast(xs: seq<string>, y: string, c: char)
    requires xs != []
    ensures Join(xs[..|xs| - 1] + [xs[|xs| - 1] + y], c) == Join(xs, c) + y
  {
    if |xs| > 1 {
      var front := xs[..|xs| - 1];
      JoinSnoc(front, xs[|xs| - 1] + y, c);
      JoinSnoc(front, xs[|xs| - 1], c);
      assert front + [xs[|xs| - 1]] == xs;
    }
  }

  /** Nothing is lost or added by cutting: rejoining the raw pieces with commas gives `s`. */
  lemma {:induction false} JoinPieces(rule: CutRule, s: string)
    ensures Join(Pieces(rule, s), ',') == s
  {
    if s != [] {
      var p := s[..|s| - 1];
      JoinPieces(rule, p);
      var r := Pieces(rule, p);
      if CutsAt(rule, p, s[|s| - 1]) {
        JoinSnoc(r, "", ',');
      } else {
        JoinExtendLast(r, [s[|s| - 1]], ',');
      }
      assert p + [s[|s| - 1]] == s;
    }
  }

  /** A quoted literal is a whole VALUES item, commas inside it included. */
  lemma {:induction false} QuotedIsWhole(a: string)
    requires '\'' !in a
    ensures Whole(OutsideQuotes, "'" + a + "'")
  {
    var x := "'" + a + "'";
    forall k | 0 <= k < |x|
      ensures !CutsAt(OutsideQuotes, x[..k], x[k])
    {
      if 0 < k < |x| - 1 {
        CountAppend("'", a[..k - 1], '\'');
        assert x[..k] == "'" + a[..k - 1];
        NoQuote(a[..k - 1]);
      }
    }
    CountAppend("'" + a, "'", '\'');
    CountAppend("'", a, '\'');
    NoQuote(a);
  }

  lemma {:induction false} NoQuote(a: string)
    requires '\'' !in a
    ensures Count(a, '\'') == 0
  {
    if a != [] {
      assert a[..|a| - 1] <= a;
      NoQuote(a[..|a| - 1]);
    }
  }

  /** Text without quotes or commas, such as a number, is a whole VALUES item. */
  lemma {:induction false} UnquotedIsWhole(x: string)
    requires '\'' !in x && ',' !in x
    ensures Whole(OutsideQuotes, x)
  {
    NoQuote(x);
  }

  /** One-paren-deep text with no parenthesis inside, such as `price DECIMAL(10,2)`, is a whole
      item of a column list, commas inside the parentheses included. */
  lemma {:induction false} ParenthesizedIsWhole(head: string, a: string)
    requires '(' !in head && ')' !in head && ',' !in head && '(' !in a && ')' !in a
    ensures Whole(OutsideParens, head + "(" + a + ")")
  {
    var x := head + "(" + a + ")";
    forall k | 0 <= k < |x|
      ensures !CutsAt(OutsideParens, x[..k], x[k])
    {
      if |head| < k < |x| - 1 {
        assert x[..k] == head + "(" + a[..k - |head| - 1];
        CountAppend(head + "(", a[..k - |head| - 1], '(');
        CountAppend(head + "(", a[..k - |head| - 1], ')');
        CountAppend(head, "(", '(');
        CountAppend(head, "(", ')');
        NoChar(head, ')');
        NoChar(a[..k - |head| - 1], ')');
        assert "("[..0] == [];
      }
    }
    assert x == head + "(" + a + ")";
    CountAppend(head + "(" + a, ")", '(');
    CountAppend(head + "(" + a, ")", ')');
    CountAppend(head + "(", a, '(');
    CountAppend(head + "(", a, ')');
    CountAppend(head, "(", '(');
    CountAppend(head, "(", ')');
    NoChar(head, '(');
    NoChar(head, ')');
    NoChar(a, '(');
    NoChar(a, ')');
    assert "("[..0] == [] && ")"[..0] == [];
  }

  lemma {:induction false} NoChar(a: string, c: char)
    requires c !in a
    ensures Count(a, c) == 0
  {
    if a != [] {
      assert a[..|a| - 1] <= a;
      NoChar(a[..|a| - 1], c);
    }
  }

  // ---------------------------------------------------------------------------------------
  // INSERT ... VALUES (...)

  function StripAll(xs: seq<string>): seq<string>
  {
    seq(|xs|, k requires 0 <= k < |xs| => Strip(xs[k]))
  }

  lemma {:induction false} StripAllSnoc(xs: seq<string>, x: string)
    ensures StripAll(xs + [x]) == StripAll(xs) + [Strip(x)]
  {
  }

  lemma {:induction false} CountSnoc(s: string, c: char, d: char)
    ensures Count(s + [c], d) == Count(s, d) + (if c == d then 1 else 0)
  {
    assert (s + [c])[..|s|] == s;
  }

  /** The VALUES items: every piece stripped, the last one only when its raw text is not
      empty (`a, b,` has two items, `a, b, ` three). */
  function ValueItems(s: string): seq<string>
  {
    ItemsOf(Pieces(OutsideQuotes, s))
  }

  function ItemsOf(ps: seq<string>): seq<string>
    requires ps != []
  {
    var front := StripAll(ps[..|ps| - 1]);
    if ps[|ps| - 1] != [] then front + [Strip(ps[|ps| - 1])] else front
  }

  /** The splitting loop's state after reading `text[..i]`. */
  ghost predicate ValuesRead(text: string, i: nat, values: seq<string>, raw: seq<string>, current: string, inQuotes: bool)
  {
    i <= |text| && Pieces(OutsideQuotes, text[..i]) == raw + [current] && values == StripAll(raw)
    && inQuotes == (Count(text[..i], '\'') % 2 == 1)
  }

  /** Reading one character: a comma outside quotes closes the item, anything else joins it. */
  lemma {:induction false} ReadValueChar(text: string, i: nat, values: seq<string>, raw: seq<string>, current: string, inQuotes: bool)
    requires i < |text| && ValuesRead(text, i, values, raw, current, inQuotes)
    ensures text[i] == ',' && !inQuotes ==> ValuesRead(text, i + 1, values + [Strip(current)], raw + [current], "", inQuotes)
    ensures !(text[i] == ',' && !inQuotes) ==> ValuesRead(text, i + 1, values, raw, current + [text[i]], if text[i] == '\'' then !inQuotes else inQuotes)
  {
    var c := text[i];
    var p := text[..i];
    assert p + [c] == text[..i + 1];
    CountSnoc(p, c, '\'');
    if c == ',' && !inQuotes {
      assert CutsAt(OutsideQuotes, p, c);
      PiecesSnoc(OutsideQuotes, p, c);
      StripAllSnoc(raw, current);
    } else {
      assert !CutsAt(OutsideQuotes, p, c);
      PiecesSnoc(OutsideQuotes, p, c);
      ExtendLastPiece(raw, current, [c]);
    }
  }

  /** The splitting loop of INSERT: a quote flips the in-quotes flag and is kept, a comma
      outside quotes ends an item. */
  method SplitValues(text: string) returns (values: seq<string>)
    ensures values == ValueItems(text)
  {
    values := [];
    var current := "";
    var inQuotes := false;
    ghost var raw: seq<string> := [];
    for i := 0 to |text|
      invariant ValuesRead(text, i, values, raw, current, inQuotes)
    {
      var c := text[i];
      ReadValueChar(text, i, values, raw, current, inQuotes);
      if c == '\'' && !inQuotes {
        inQuotes := true;
        current := current + [c];
      } else if c == '\'' && inQuotes {
        inQuotes := false;
        current := current + [c];
      } else if c == ',' && !inQuotes {
        values := values + [Strip(current)];
        raw := raw + [current];
        current := "";
      } else {
        current := current + [c];
      }
    }
    assert text[..|text|] == text;
    assert (raw + [current])[..|raw|] == raw;
    if current != [] {
      values := values + [Strip(current)];
    }
  }

  /** VALUES items that are whole and not blank come back as they were written, stripped. */
  lemma {:induction false} ValueItemsOfJoin(xs: seq<string>)
    requires xs != [] && forall i :: 0 <= i < |xs| ==> Whole(OutsideQuotes, xs[i])
    requires xs[|xs| - 1] != []
    ensures ValueItems(Join(xs, ',')) == StripAll(xs)
  {
    PiecesOfJoin(OutsideQuotes, xs);
    ItemsOfUnblank(xs);
  }

  lemma {:induction false} ItemsOfUnblank(xs: seq<string>)
    requires xs != [] && xs[|xs| - 1] != []
    ensures ItemsOf(xs) == StripAll(xs)
  {
    StripAllSnoc(xs[..|xs| - 1], xs[|xs| - 1]);
    assert xs[..|xs| - 1] + [xs[|xs| - 1]] == xs;
  }

  /** A comma inside a quoted literal does not split it: `'a,b',2` gives two items. */
  lemma {:induction false} QuotedCommaKept(a: string, n: string)
    requires '\'' !in a && '\'' !in n && ',' !in n
    requires n != [] && !IsSpace(n[0]) && !IsSpace(n[|n| - 1])
    ensures ValueItems("'" + a + "'" + "," + n) == ["'" + a + "'", n]
  {
    var q := "'" + a + "'";
    QuotedIsWhole(a);
    UnquotedIsWhole(n);
    ValueItemsOfPair(q, n);
    StripKeepsUnpadded(q);
    StripKeepsUnpadded(n);
  }

  lemma {:induction false} ValueItemsOfPair(p: string, n: string)
    requires Whole(OutsideQuotes, p) && Whole(OutsideQuotes, n) && n != []
    ensures ValueItems(p + "," + n) == [Strip(p), Strip(n)]
  {
    JoinPair(p, n);
    StripAllPair(p, n);
    ValueItemsOfJoin([p, n]);
  }

  lemma {:induction false} JoinPair(p: string, n: string)
    ensures Join([p, n], ',') == p + "," + n
  {
    assert [p, n][1..] == [n];
  }

  lemma {:induction false} StripAllPair(p: string, n: string)
    ensures StripAll([p, n]) == [Strip(p), Strip(n)]
  {
  }

  // ---------------------------------------------------------------------------------------
  // CREATE TABLE t (...)

  /** The items that are not empty, in order. */
  function NonBlank(xs: seq<string>): (r: seq<string>)
    ensures |r| <= |xs|
    ensures forall k :: 0 <= k < |r| ==> r[k] != [] && r[k] in xs
  {
    if xs == [] then []
    else
      var front := NonBlank(xs[..|xs| - 1]);
      assert forall k :: 0 <= k < |front| ==> front[k] in xs by {
        assert forall y :: y in xs[..|xs| - 1] ==> y in xs;
      }
      if xs[|xs| - 1] != [] then front + [xs[|xs| - 1]] else front
  }

  lemma {:induction false} NonBlankSnoc(xs: seq<string>, x: string)
    ensures NonBlank(xs + [x]) == NonBlank(xs) + (if x != [] then [x] else [])
  {
    assert (xs + [x])[..|xs|] == xs;
  }

  /** The column definitions: every piece between top-level commas, stripped, blank ones
      dropped. */
  function DefinitionItems(s: string): seq<string>
  {
    NonBlank(StripAll(Pieces(OutsideParens, s)))
  }

  /** The splitting loop's state after reading `text[..i]`: `depth` is the parenthesis depth. */
  ghost predicate DefinitionsRead(text: string, i: nat, defs: seq<string>, raw: seq<string>, current: string, depth: int)
  {
    i <= |text| && Pieces(OutsideParens, text[..i]) == raw + [current] && defs == NonBlank(StripAll(raw))
    && depth == Count(text[..i], '(') - Count(text[..i], ')')
  }

  /** Reading one character: a comma at depth 0 closes the definition, anything else joins it. */
  lemma {:induction false} ReadDefinitionChar(text: string, i: nat, defs: seq<string>, raw: seq<string>, current: string, depth: int)
    requires i < |text| && DefinitionsRead(text, i, defs, raw, current, depth)
    ensures text[i] == ',' && depth == 0 ==>
      DefinitionsRead(text, i + 1, defs + (if Strip(current) != [] then [Strip(current)] else []), raw + [current], "", depth)
    ensures !(text[i] == ',' && depth == 0) ==>
      DefinitionsRead(text, i + 1, defs, raw, current + [text[i]],
        if text[i] == '(' then depth + 1 else if text[i] == ')' then depth - 1 else depth)
  {
    var c := text[i];
    var p := text[..i];
    assert p + [c] == text[..i + 1];
    CountSnoc(p, c, '(');
    CountSnoc(p, c, ')');
    if c == ',' && depth == 0 {
      assert CutsAt(OutsideParens, p, c);
      PiecesSnoc(OutsideParens, p, c);
      StripAllSnoc(raw, current);
      NonBlankSnoc(StripAll(raw), Strip(current));
    } else {
      assert !CutsAt(OutsideParens, p, c);
      PiecesSnoc(OutsideParens, p, c);
      ExtendLastPiece(raw, current, [c]);
    }
  }

  /** The splitting loop of CREATE TABLE: parentheses change the depth and are kept, a comma at
      depth 0 ends a definition, and a definition that is blank once stripped is skipped. */
  method SplitDefinitions(text: string) returns (defs: seq<string>)
    ensures defs == DefinitionItems(text)
  {
    defs := [];
    var current := "";
    var depth := 0;
    ghost var raw: seq<string> := [];
    for i := 0 to |text|
      invariant DefinitionsRead(text, i, defs, raw, current, depth)
    {
      var c := text[i];
      ReadDefinitionChar(text, i, defs, raw, current, depth);
      if c == '(' {
        depth := depth + 1;
        current := current + [c];
      } else if c == ')' {
        depth := depth - 1;
        current := current + [c];
      } else if c == ',' && depth == 0 {
        var def := Strip(current);
        if def != [] {
          defs := defs + [def];
        }
        raw := raw + [current];
        current := "";
      } else {
        current := current + [c];
      }
    }
    assert text[..|text|] == text;
    StripAllSnoc(raw, current);
    NonBlankSnoc(StripAll(raw), Strip(current));
    if Strip(current) != [] {
      defs := defs + [Strip(current)];
    }
  }

  /** Every definition comes out stripped and non-blank. */
  lemma {:induction false} DefinitionItemsUnpadded(s: string)
    ensures forall k :: 0 <= k < |DefinitionItems(s)| ==>
      var d := DefinitionItems(s)[k]; d != [] && !IsSpace(d[0]) && !IsSpace(d[|d| - 1])
  {
    var ps := Pieces(OutsideParens, s);
    forall k | 0 <= k < |DefinitionItems(s)|
      ensures var d := DefinitionItems(s)[k]; d != [] && !IsSpace(d[0]) && !IsSpace(d[|d| - 1])
    {
      var d := DefinitionItems(s)[k];
      assert d in StripAll(ps);
      var j :| 0 <= j < |StripAll(ps)| && StripAll(ps)[j] == d;
      assert d == Strip(ps[j]);
    }
  }

  /** Definitions that are whole column-list items and not blank come back one by one,
      stripped. */
  lemma {:induction false} DefinitionItemsOfJoin(xs: seq<string>)
    requires xs != [] && forall i :: 0 <= i < |xs| ==> Whole(OutsideParens, xs[i]) && Strip(xs[i]) != []
    ensures DefinitionItems(Join(xs, ',')) == StripAll(xs)
  {
    PiecesOfJoin(OutsideParens, xs);
    var ys := StripAll(xs);
    assert forall i :: 0 <= i < |ys| ==> ys[i] == Strip(xs[i]);
    NonBlankAll(ys);
  }

  lemma {:induction false} NonBlankAll(xs: seq<string>)
    requires forall i :: 0 <= i < |xs| ==> xs[i] != []
    ensures NonBlank(xs) == xs
  {
    if xs != [] {
      NonBlankAll(xs[..|xs| - 1]);
      assert xs[..|xs| - 1] + [xs[|xs| - 1]] == xs;
    }
  }

  /** `price DECIMAL(10,2)` stays one definition: a comma inside parentheses does not split. */
  lemma {:induction false} ParenthesizedCommaKept(head: string, a: string, n: string)
    requires '(' !in head && ')' !in head && ',' !in head && '(' !in a && ')' !in a
    requires '(' !in n && ')' !in n && ',' !in n
    requires head != [] && !IsSpace(head[0]) && n != [] && !IsSpace(n[0]) && !IsSpace(n[|n| - 1])
    ensures DefinitionItems(head + "(" + a + ")" + "," + n) == [head + "(" + a + ")", n]
  {
    var x := head + "(" + a + ")";
    ParenthesizedIsWhole(head, a);
    NoChar(n, '(');
    NoChar(n, ')');
    assert Whole(OutsideParens, n);
    StripKeepsUnpadded(x);
    StripKeepsUnpadded(n);
    var xs := [x, n];
    assert Join(xs, ',') == x + "," + n;
    DefinitionItemsOfJoin(xs);
  }

  // ---------------------------------------------------------------------------------------
  // UPDATE ... SET

  /** The scanner's state: the pairs stored so far with their keys in the order they were
      first stored (a dict keeps its insertion order), the key and value being read, whether
      the value is inside quotes and whether the key is still being read. */
  datatype SetScanner = SetScanner(pairs: map<string, string>, order: seq<string>, key: string, value: string,
                                   inQuotes: bool, parsingKey: bool)

  const SetStart := SetScanner(map[], [], "", "", false, true)

  /** The insertion order after storing under `k`: a new key goes last, a stored one keeps its place. */
  function Noted(order: seq<string>, pairs: map<string, string>, k: string): seq<string>
  {
    if k in pairs then order else order + [k]
  }

  /** One step of the scanner at the head of the remaining text `t`: the new state and the
      number of characters read. A key ends at `=` (then stripped and lower-cased); in a value
      a quote is kept, `''` inside quotes is kept as both quotes, and a comma outside quotes
      stores the stripped value and starts the next key. */
  function ScanStep(t: string, st: SetScanner): (r: (SetScanner, nat))
    requires t != []
    ensures 1 <= r.1 <= |t|
  {
    var c := t[0];
    if st.parsingKey then
      if c == '=' then (st.(parsingKey := false, key := Lower(Strip(st.key))), 1)
      else (st.(key := st.key + [c]), 1)
    else if !st.inQuotes && c == '\'' then (st.(inQuotes := true, value := st.value + [c]), 1)
    else if st.inQuotes && c == '\'' then
      if |t| > 1 && t[1] == '\'' then (st.(value := st.value + "''"), 2)
      else (st.(inQuotes := false, value := st.value + [c]), 1)
    else if !st.inQuotes && c == ',' then
      (SetScanner(st.pairs[st.key := Strip(st.value)], Noted(st.order, st.pairs, st.key), "", "", st.inQuotes, true), 1)
    else (st.(value := st.value + [c]), 1)
  }

  /** The scanner run over the remaining text `t`. */
  function ScanSet(t: string, st: SetScanner): SetScanner
    decreases |t|
  {
    if t == [] then st
    else
      var r := ScanStep(t, st);
      ScanSet(t[r.1..], r.0)
  }

  /** The pair still open at the end is stored when both its key and its value are non-empty. */
  function Finished(st: SetScanner): map<string, string>
  {
    if st.key != [] && st.value != [] then st.pairs[st.key := Strip(st.value)] else st.pairs
  }

  /** The insertion order of `Finished(st)`. */
  function FinishedOrder(st: SetScanner): seq<string>
  {
    if st.key != [] && st.value != [] then Noted(st.order, st.pairs, st.key) else st.order
  }

  /** A quoted value loses its quotes and has each `''` collapsed to `'`; others stay as read. */
  function CleanValue(v: string): (r: string)
    ensures IsQuoted(v) ==> r == CollapseQuotes(Unquote(v))
    ensures !IsQuoted(v) ==> r == v
  {
    if IsQuoted(v) then CollapseQuotes(Unquote(v)) else v
  }

  /** The SET values of a clause, as the parser records them: every value a string. */
  function SetValues(clause: string): map<string, string>
  {
    var m := Finished(ScanSet(clause, SetStart));
    map k | k in m :: CleanValue(m[k])
  }

  /** The keys of `SetValues(clause)` in the order the dict holds them: first assignment first. */
  function SetOrder(clause: string): (r: seq<string>)
    ensures KeyOrder(SetValues(clause).Keys, r)
  {
    ScanKeeps(clause, SetStart);
    FinishedOrder(ScanSet(clause, SetStart))
  }

  /** The SET clause of UPDATE: the scanning loop, then the cleaning loop, which rewrites
      values under keys already stored and so leaves their order alone. */
  method ScanSetClause(clause: string) returns (setValues: map<string, string>, setOrder: seq<string>)
    ensures setValues == SetValues(clause) && setOrder == SetOrder(clause)
  {
    var pairs;
    pairs, setOrder := ScanPairs(clause);
    setValues := CleanValues(pairs);
  }

  /** The scanning loop, with the scanner's variables held in one record. */
  method ScanPairs(clause: string) returns (pairs: map<string, string>, order: seq<string>)
    ensures pairs == Finished(ScanSet(clause, SetStart)) && order == FinishedOrder(ScanSet(clause, SetStart))
  {
    var st := SetStart;
    var i := 0;
    ghost var goal := ScanSet(clause, SetStart);
    assert clause[0..] == clause;
    while i < |clause|
      invariant i <= |clause|
      invariant ScanSet(clause[i..], st) == goal
      decreases |clause| - i
    {
      st, i := Advance(clause, i, st);
    }
    pairs, order := Finished(st), FinishedOrder(st);
  }

  /** One pass of the scanning loop moves the scan forward without changing where it ends. */
  method Advance(clause: string, i: nat, st: SetScanner) returns (st': SetScanner, j: nat)
    requires i < |clause|
    ensures i < j <= |clause| && ScanSet(clause[i..], st) == ScanSet(clause[j..], st')
  {
    var n;
    st', n := ReadSetChar(clause, i, st);
    ScanSetAt(clause, i, st, st', n);
    j := i + n;
  }

  /** One pass of the scanning loop at position `i`: how many characters it consumes and the new state. */
  method ReadSetChar(clause: string, i: nat, st: SetScanner) returns (st': SetScanner, n: nat)
    requires i < |clause|
    ensures (st', n) == ScanStep(clause[i..], st)
  {
    assert clause[i..][0] == clause[i];
    assert i + 1 < |clause| ==> clause[i..][1] == clause[i + 1];
    var c := clause[i];
    n := 1;
    if st.parsingKey {
      if c == '=' {
        st' := st.(parsingKey := false, key := Lower(Strip(st.key)));
      } else {
        st' := st.(key := st.key + [c]);
      }
    } else if !st.inQuotes && c == '\'' {
      st' := st.(inQuotes := true, value := st.value + [c]);
    } else if st.inQuotes && c == '\'' {
      if i + 1 < |clause| && clause[i + 1] == '\'' {
        st' := st.(value := st.value + "''");
        n := 2;
      } else {
        st' := st.(inQuotes := false, value := st.value + [c]);
      }
    } else if !st.inQuotes && c == ',' {
      st' := SetScanner(st.pairs[st.key := Strip(st.value)], Noted(st.order, st.pairs, st.key), "", "", st.inQuotes, true);
    } else {
      st' := st.(value := st.value + [c]);
    }
  }

  /** After the step at position `i` the scan goes on from where that step stopped. */
  lemma {:induction false} ScanSetAt(clause: string, i: nat, st: SetScanner, st': SetScanner, n: nat)
    requires i < |clause| && (st', n) == ScanStep(clause[i..], st)
    ensures i + n <= |clause| && ScanSet(clause[i..], st) == ScanSet(clause[i + n..], st')
  {
    assert clause[i..][n..] == clause[i + n..];
  }

  /** A step keeps the insertion order listing exactly the stored keys, each once. */
  lemma {:induction false} StepKeeps(t: string, st: SetScanner)
    requires t != [] && KeyOrder(st.pairs.Keys, st.order)
    ensures KeyOrder(ScanStep(t, st).0.pairs.Keys, ScanStep(t, st).0.order)
  {
    if !st.parsingKey && !st.inQuotes && t[0] == ',' {
      NotedKeeps(st.order, st.pairs, st.key, Strip(st.value));
    }
  }

  lemma {:induction false} NotedKeeps(order: seq<string>, pairs: map<string, string>, k: string, v: string)
    requires KeyOrder(pairs.Keys, order)
    ensures KeyOrder(pairs[k := v].Keys, Noted(order, pairs, k))
  {
    if k !in pairs {
      var o := order + [k];
      assert forall i :: 0 <= i < |order| ==> o[i] == order[i] && order[i] in pairs;
    }
  }

  /** The whole scan, the open pair included, keeps the order exact. */
  lemma {:induction false} ScanKeeps(t: string, st: SetScanner)
    requires KeyOrder(st.pairs.Keys, st.order)
    ensures KeyOrder(Finished(ScanSet(t, st)).Keys, FinishedOrder(ScanSet(t, st)))
    decreases |t|
  {
    if t == [] {
      if st.key != [] && st.value != [] {
        NotedKeeps(st.order, st.pairs, st.key, Strip(st.value));
      }
    } else {
      StepKeeps(t, st);
      var r := ScanStep(t, st);
      ScanKeeps(t[r.1..], r.0);
    }
  }

  /** The cleaning loop: each value in turn. */
  method CleanValues(pairs: map<string, string>) returns (cleaned: map<string, string>)
    ensures cleaned == map k | k in pairs :: CleanValue(pairs[k])
  {
    cleaned := pairs;
    var keys := pairs.Keys;
    while keys != {}
      invariant keys <= pairs.Keys && cleaned.Keys == pairs.Keys
      invariant forall x :: x in pairs ==> cleaned[x] == if x in keys then pairs[x] else CleanValue(pairs[x])
      decreases keys
    {
      var k :| k in keys;
      cleaned := cleaned[k := CleanValue(pairs[k])];
      keys := keys - {k};
    }
  }

  // What the SET scanner makes of assignments written the usual way

  /** A column name as written in SQL text: word characters, lower case. */
  predicate PlainName(k: string)
  {
    k != [] && forall i :: 0 <= i < |k| ==> IsWordChar(k[i]) && !('A' <= k[i] <= 'Z')
  }

  /** `k = 'v'` with every quote of `v` doubled. */
  function Assignment(k: string, v: string): string
  {
    k + " = '" + DoubleQuotes(v) + "'"
  }

  /** Assignments separated by `, `. */
  function Assignments(ps: seq<(string, string)>): string
    requires ps != []
  {
    if |ps| == 1 then Assignment(ps[0].0, ps[0].1)
    else Assignment(ps[0].0, ps[0].1) + ", " + Assignments(ps[1..])
  }

  /** The pairs as a dictionary built left to right: a later assignment wins. */
  function PairsMap(ps: seq<(string, string)>): map<string, string>
  {
    if ps == [] then map[] else PairsMap(ps[..|ps| - 1])[ps[|ps| - 1].0 := ps[|ps| - 1].1]
  }

  lemma {:induction false} ScanKeyText(x: string, rest: string, st: SetScanner)
    requires st.parsingKey && '=' !in x
    ensures ScanSet(x + rest, st) == ScanSet(rest, st.(key := st.key + x))
    decreases |x|
  {
    if x != [] {
      assert (x + rest)[0] == x[0] != '=';
      assert (x + rest)[1..] == x[1..] + rest;
      ScanKeyText(x[1..], rest, st.(key := st.key + [x[0]]));
      Assoc(st.key, [x[0]], x[1..]);
      assert [x[0]] + x[1..] == x;
    } else {
      assert x + rest == rest && st.key + x == st.key;
      assert st.(key := st.key + x) == st;
    }
  }

  lemma {:induction false} ScanQuotedBody(v: string, rest: string, st: SetScanner)
    requires !st.parsingKey && st.inQuotes && (rest == [] || rest[0] != '\'')
    ensures ScanSet(DoubleQuotes(v) + "'" + rest, st)
            == ScanSet(rest, st.(inQuotes := false, value := st.value + DoubleQuotes(v) + "'"))
    decreases |v|
  {
    if v == [] {
      CloseQuoteStep(rest, st);
    } else {
      var st' := QuotedCharStep(v, rest, st);
      ScanQuotedBody(v[1..], rest, st');
    }
  }

  /** The closing quote of a literal. */
  lemma {:induction false} CloseQuoteStep(rest: string, st: SetScanner)
    requires !st.parsingKey && st.inQuotes && (rest == [] || rest[0] != '\'')
    ensures ScanSet(DoubleQuotes([]) + "'" + rest, st)
            == ScanSet(rest, st.(inQuotes := false, value := st.value + DoubleQuotes([]) + "'"))
  {
    var t := DoubleQuotes([]) + "'" + rest;
    assert DoubleQuotes([]) == [];
    assert t == "'" + rest && t[1..] == rest;
    assert st.value + DoubleQuotes([]) + "'" == st.value + "'";
    assert ScanStep(t, st) == (st.(inQuotes := false, value := st.value + "'"), 1);
  }

  /** The first character of a literal's body: a doubled quote is read as two characters. */
  lemma {:induction false} QuotedCharStep(v: string, rest: string, st: SetScanner) returns (st': SetScanner)
    requires v != [] && !st.parsingKey && st.inQuotes
    ensures !st'.parsingKey && st'.inQuotes && st' == st.(value := st'.value)
    ensures st'.value + DoubleQuotes(v[1..]) == st.value + DoubleQuotes(v)
    ensures ScanSet(DoubleQuotes(v) + "'" + rest, st) == ScanSet(DoubleQuotes(v[1..]) + "'" + rest, st')
  {
    var t := DoubleQuotes(v) + "'" + rest;
    var u := DoubleQuotes(v[1..]) + "'" + rest;
    var h := if v[0] == '\'' then "''" else [v[0]];
    DoubleQuotesHead(v, h);
    Assoc(h, DoubleQuotes(v[1..]), "'" + rest);
    assert t == h + u;
    st' := st.(value := st.value + h);
    QuotedScanStep(t, h, u, st);
    ScanSetStep(t, st, st', |h|, u);
    Assoc(st.value, h, DoubleQuotes(v[1..]));
  }

  lemma {:induction false} DoubleQuotesHead(v: string, h: string)
    requires v != [] && h == if v[0] == '\'' then "''" else [v[0]]
    ensures DoubleQuotes(v) == h + DoubleQuotes(v[1..])
  {
  }

  /** Inside quotes, a doubled quote is read as a pair and any other character as itself. */
  lemma {:induction false} QuotedScanStep(t: string, h: string, u: string, st: SetScanner)
    requires !st.parsingKey && st.inQuotes && t == h + u
    requires h == "''" || (|h| == 1 && h[0] != '\'')
    ensures t != [] && ScanStep(t, st) == (st.(value := st.value + h), |h|) && t[|h|..] == u
  {
    assert t[0] == h[0] && t[|h|..] == u;
    if h == "''" {
      assert t[1] == '\'';
    } else {
      assert h == [t[0]];
    }
  }

  lemma {:induction false} ScanSetStep(t: string, st: SetScanner, st': SetScanner, n: nat, u: string)
    requires t != [] && ScanStep(t, st) == (st', n) && t[n..] == u
    ensures ScanSet(t, st) == ScanSet(u, st')
  {
  }

  lemma {:induction false} Assoc(a: string, b: string, c: string)
    ensures a + b + c == a + (b + c)
  {
  }

  /** Reading one assignment (after a key prefix `lead` of spaces) leaves a finished pair. */
  lemma {:induction false} ScanAssignment(lead: string, k: string, v: string, rest: string, pairs: map<string, string>, order: seq<string>)
    requires lead == "" || lead == " "
    requires PlainName(k) && (rest == [] || rest[0] == ',')
    ensures ScanSet(lead + Assignment(k, v) + rest, SetScanner(pairs, order, "", "", false, true))
            == ScanSet(rest, SetScanner(pairs, order, k, " '" + DoubleQuotes(v) + "'", false, false))
  {
    var x := lead + k + " ";
    AssignmentSplit(lead, k, v, rest);
    PlainNameNoEquals(lead, k);
    PlainNameStrip(lead, k);
    ScanAfterKey(x, k, DoubleQuotes(v) + "'" + rest, pairs, order);
    ScanQuotedBody(v, rest, SetScanner(pairs, order, k, " '", true, false));
    Assoc(" '", DoubleQuotes(v), "'");
  }

  lemma {:induction false} AssignmentSplit(lead: string, k: string, v: string, rest: string)
    ensures lead + Assignment(k, v) + rest == (lead + k + " ") + (['='] + ([' '] + (['\''] + (DoubleQuotes(v) + "'" + rest))))
  {
  }

  /** After the key text `x`: the `=`, a space and the opening quote of the value. */
  lemma {:induction false} ScanAfterKey(x: string, k: string, body: string, pairs: map<string, string>, order: seq<string>)
    requires '=' !in x && Lower(Strip(x)) == k
    ensures ScanSet(x + (['='] + ([' '] + (['\''] + body))), SetScanner(pairs, order, "", "", false, true))
            == ScanSet(body, SetScanner(pairs, order, k, " '", true, false))
  {
    var st0 := SetScanner(pairs, order, "", "", false, true);
    var t1 := ['='] + ([' '] + (['\''] + body));
    ScanKeyText(x, t1, st0);
    assert "" + x == x;
    ScanEquals([' '] + (['\''] + body), st0.(key := x));
    ScanValueOpen(body, SetScanner(pairs, order, k, "", false, false));
  }

  lemma {:induction false} ScanEquals(rest: string, st: SetScanner)
    requires st.parsingKey
    ensures ScanSet(['='] + rest, st) == ScanSet(rest, st.(parsingKey := false, key := Lower(Strip(st.key))))
  {
    ScanOne('=', rest, st);
  }

  lemma {:induction false} ScanValueOpen(body: string, st: SetScanner)
    requires !st.parsingKey && !st.inQuotes && st.value == []
    ensures ScanSet([' '] + (['\''] + body), st) == ScanSet(body, st.(value := " '", inQuotes := true))
  {
    ScanOne(' ', ['\''] + body, st);
    assert ScanStep([' '] + (['\''] + body), st).0 == st.(value := " ");
    ScanOne('\'', body, st.(value := " "));
    assert ScanStep(['\''] + body, st.(value := " ")).0 == st.(value := " '", inQuotes := true);
  }

  lemma {:induction false} PlainNameNoEquals(lead: string, k: string)
    requires lead == "" || lead == " "
    requires PlainName(k)
    ensures '=' !in lead + k + " "
  {
    assert forall i :: 0 <= i < |k| ==> IsWordChar(k[i]);
  }

  /** A step that reads one character. */
  lemma {:induction false} ScanOne(c: char, rest: string, st: SetScanner)
    requires !(st.inQuotes && !st.parsingKey && c == '\'')
    ensures ScanSet([c] + rest, st) == ScanSet(rest, ScanStep([c] + rest, st).0)
  {
    assert ([c] + rest)[0] == c && ([c] + rest)[1..] == rest;
  }

  lemma {:induction false} PlainNameStrip(lead: string, k: string)
    requires lead == "" || lead == " "
    requires PlainName(k)
    ensures Lower(Strip(lead + k + " ")) == k
  {
    PlainNameUnpadded(k);
    assert TrimLeft(lead + k + " ") == k + " " by {
      if lead == " " {
        assert (lead + k + " ")[1..] == k + " ";
      } else {
        assert lead + k + " " == k + " ";
      }
    }
    assert TrimRight(k + " ") == k by {
      assert (k + " ")[..|k|] == k;
    }
    PlainNameLower(k);
  }

  lemma {:induction false} PlainNameUnpadded(k: string)
    requires PlainName(k)
    ensures !IsSpace(k[0]) && !IsSpace(k[|k| - 1])
  {
    assert IsWordChar(k[0]) && IsWordChar(k[|k| - 1]);
  }

  lemma {:induction false} PlainNameLower(k: string)
    requires PlainName(k)
    ensures Lower(k) == k
  {
  }

  /** The stripped value of a finished pair is the quoted literal, which cleans to `v`. */
  lemma {:induction false} CleanQuoted(v: string)
    ensures Strip(" '" + DoubleQuotes(v) + "'") == "'" + DoubleQuotes(v) + "'"
    ensures CleanValue("'" + DoubleQuotes(v) + "'") == v
  {
    var d := DoubleQuotes(v);
    StripLead("'" + d + "'");
    assert " '" + d + "'" == " " + ("'" + d + "'");
    UnquoteQuoted(d);
    CollapseDoubled(v);
  }

  lemma {:induction false} StripLead(q: string)
    requires q != [] && !IsSpace(q[0]) && !IsSpace(q[|q| - 1])
    ensures Strip(" " + q) == q
  {
    assert (" " + q)[1..] == q;
    assert TrimLeft(" " + q) == TrimLeft(q);
    StripKeepsUnpadded(q);
  }

  lemma {:induction false} UnquoteQuoted(d: string)
    ensures IsQuoted("'" + d + "'") && Unquote("'" + d + "'") == d
  {
    var q := "'" + d + "'";
    assert q[1..|q| - 1] == d;
  }

  lemma {:induction false} ScanAssignments(lead: string, ps: seq<(string, string)>, pairs: map<string, string>, order: seq<string>)
    requires lead == "" || lead == " "
    requires ps != [] && forall i :: 0 <= i < |ps| ==> PlainName(ps[i].0)
    ensures ScanSet(lead + Assignments(ps), SetScanner(pairs, order, "", "", false, true)) == AssignmentsScanned(pairs, order, ps)
    decreases |ps|
  {
    var k, v := ps[0].0, ps[0].1;
    if |ps| == 1 {
      assert lead + Assignments(ps) == lead + Assignment(k, v) + "";
      ScanAssignment(lead, k, v, "", pairs, order);
      assert ps[..0] == [];
    } else {
      var pairs' := pairs[k := "'" + DoubleQuotes(v) + "'"];
      ScanAssignments(" ", ps[1..], pairs', Noted(order, pairs, k));
      ScanAssignmentsStep(lead, ps, pairs, order);
    }
  }

  /** The scanner state after the assignments `ps`: the earlier ones stored, the last one open. */
  function AssignmentsScanned(pairs: map<string, string>, order: seq<string>, ps: seq<(string, string)>): SetScanner
    requires ps != []
  {
    var last := ps[|ps| - 1];
    var init := ps[..|ps| - 1];
    SetScanner(Quoted(pairs, init), QuotedOrder(pairs, order, init), last.0, " '" + DoubleQuotes(last.1) + "'", false, false)
  }

  lemma {:induction false} ScanAssignmentsStep(lead: string, ps: seq<(string, string)>, pairs: map<string, string>, order: seq<string>)
    requires lead == "" || lead == " "
    requires |ps| > 1 && forall i :: 0 <= i < |ps| ==> PlainName(ps[i].0)
    requires var pairs' := pairs[ps[0].0 := "'" + DoubleQuotes(ps[0].1) + "'"];
      var order' := Noted(order, pairs, ps[0].0);
      ScanSet(" " + Assignments(ps[1..]), SetScanner(pairs', order', "", "", false, true)) == AssignmentsScanned(pairs', order', ps[1..])
    ensures ScanSet(lead + Assignments(ps), SetScanner(pairs, order, "", "", false, true)) == AssignmentsScanned(pairs, order, ps)
  {
    var k, v := ps[0].0, ps[0].1;
    var tail := Assignments(ps[1..]);
    AssignmentsCons(lead, ps);
    ScanAssignment(lead, k, v, [','] + (" " + tail), pairs, order);
    ScanComma(" " + tail, pairs, order, k, " '" + DoubleQuotes(v) + "'");
    CleanQuoted(v);
    QuotedTail(pairs, order, ps);
  }

  lemma {:induction false} AssignmentsCons(lead: string, ps: seq<(string, string)>)
    requires |ps| > 1
    ensures lead + Assignments(ps) == lead + Assignment(ps[0].0, ps[0].1) + ([','] + (" " + Assignments(ps[1..])))
  {
  }

  /** A comma outside quotes stores the pair read so far and starts a new key. */
  lemma {:induction false} ScanComma(rest: string, pairs: map<string, string>, order: seq<string>, k: string, val: string)
    ensures ScanSet([','] + rest, SetScanner(pairs, order, k, val, false, false))
            == ScanSet(rest, SetScanner(pairs[k := Strip(val)], Noted(order, pairs, k), "", "", false, true))
  {
    var st := SetScanner(pairs, order, k, val, false, false);
    ScanOne(',', rest, st);
    assert ([','] + rest)[0] == ',';
    assert ScanStep([','] + rest, st).0 == SetScanner(pairs[k := Strip(val)], Noted(order, pairs, k), "", "", false, true);
  }

  lemma {:induction false} QuotedTail(pairs: map<string, string>, order: seq<string>, ps: seq<(string, string)>)
    requires |ps| > 1
    ensures var tl := ps[1..]; var pairs' := pairs[ps[0].0 := "'" + DoubleQuotes(ps[0].1) + "'"];
      tl[|tl| - 1] == ps[|ps| - 1] &&
      Quoted(pairs', tl[..|tl| - 1]) == Quoted(pairs, ps[..|ps| - 1]) &&
      QuotedOrder(pairs', Noted(order, pairs, ps[0].0), tl[..|tl| - 1]) == QuotedOrder(pairs, order, ps[..|ps| - 1])
  {
    assert ps[1..][..|ps[1..]| - 1] == ps[1..|ps| - 1];
    QuotedCons(pairs, ps[..|ps| - 1]);
    QuotedOrderCons(pairs, order, ps[..|ps| - 1]);
    assert ps[..|ps| - 1][1..] == ps[1..|ps| - 1];
  }

  /** `pairs` after storing each of `ps` as its quoted literal, left to right. */
  function Quoted(pairs: map<string, string>, ps: seq<(string, string)>): map<string, string>
  {
    if ps == [] then pairs
    else Quoted(pairs, ps[..|ps| - 1])[ps[|ps| - 1].0 := "'" + DoubleQuotes(ps[|ps| - 1].1) + "'"]
  }

  lemma {:induction false} QuotedCons(pairs: map<string, string>, ps: seq<(string, string)>)
    requires ps != []
    ensures Quoted(pairs, ps) == Quoted(pairs[ps[0].0 := "'" + DoubleQuotes(ps[0].1) + "'"], ps[1..])
  {
    if |ps| > 1 {
      QuotedCons(pairs, ps[..|ps| - 1]);
      assert ps[..|ps| - 1][1..] == ps[1..][..|ps[1..]| - 1];
    } else {
      assert ps[1..] == [] && ps[..0] == [];
    }
  }

  /** The insertion order after storing each of `ps`, left to right. */
  function QuotedOrder(pairs: map<string, string>, order: seq<string>, ps: seq<(string, string)>): seq<string>
  {
    if ps == [] then order
    else Noted(QuotedOrder(pairs, order, ps[..|ps| - 1]), Quoted(pairs, ps[..|ps| - 1]), ps[|ps| - 1].0)
  }

  lemma {:induction false} QuotedOrderCons(pairs: map<string, string>, order: seq<string>, ps: seq<(string, string)>)
    requires ps != []
    ensures QuotedOrder(pairs, order, ps)
            == QuotedOrder(pairs[ps[0].0 := "'" + DoubleQuotes(ps[0].1) + "'"], Noted(order, pairs, ps[0].0), ps[1..])
  {
    if |ps| > 1 {
      QuotedOrderCons(pairs, order, ps[..|ps| - 1]);
      QuotedCons(pairs, ps[..|ps| - 1]);
      assert ps[..|ps| - 1][1..] == ps[1..][..|ps[1..]| - 1];
    } else {
      assert ps[1..] == [] && ps[..0] == [];
    }
  }

  /** The names of `ps` in the order they first appear, each once. */
  function FirstNames(ps: seq<(string, string)>): (r: seq<string>)
    ensures forall k :: k in r <==> exists i :: 0 <= i < |ps| && ps[i].0 == k
    ensures forall i, j :: 0 <= i < j < |r| ==> r[i] != r[j]
  {
    if ps == [] then []
    else
      var f := FirstNames(ps[..|ps| - 1]);
      var k := ps[|ps| - 1].0;
      assert forall i :: 0 <= i < |ps| - 1 ==> ps[..|ps| - 1][i] == ps[i];
      if k in f then f else f + [k]
  }

  /** Storing the quoted pairs from nothing lists their names in first-appearance order. */
  lemma {:induction false} QuotedFirstNames(ps: seq<(string, string)>)
    ensures QuotedOrder(map[], [], ps) == FirstNames(ps)
    ensures forall k :: k in Quoted(map[], ps) <==> k in FirstNames(ps)
  {
    if ps != [] {
      QuotedFirstNames(ps[..|ps| - 1]);
    }
  }

  lemma {:induction false} CleanQuotedPairs(ps: seq<(string, string)>)
    ensures var m := Quoted(map[], ps); (map k | k in m :: CleanValue(m[k])) == PairsMap(ps)
  {
    if ps != [] {
      CleanQuotedPairs(ps[..|ps| - 1]);
      CleanQuoted(ps[|ps| - 1].1);
      var m := Quoted(map[], ps);
      var m' := Quoted(map[], ps[..|ps| - 1]);
      assert (map k | k in m :: CleanValue(m[k])) == (map k | k in m' :: CleanValue(m'[k]))[ps[|ps| - 1].0 := ps[|ps| - 1].1];
    }
  }

  /** SET assignments of plain column names to quoted literals, doubled quotes and commas
      inside the literals included, come back as the dictionary they spell. */
  lemma {:induction false} SetClauseRoundTrip(ps: seq<(string, string)>)
    requires ps != [] && forall i :: 0 <= i < |ps| ==> PlainName(ps[i].0)
    ensures SetValues(Assignments(ps)) == PairsMap(ps)
    ensures SetOrder(Assignments(ps)) == FirstNames(ps)
  {
    ScanAssignments("", ps, map[], []);
    assert "" + Assignments(ps) == Assignments(ps);
    FinishedScanned(map[], [], ps);
    CleanQuotedPairs(ps);
    QuotedFirstNames(ps);
  }

  lemma {:induction false} FinishedScanned(pairs: map<string, string>, order: seq<string>, ps: seq<(string, string)>)
    requires ps != [] && PlainName(ps[|ps| - 1].0)
    ensures Finished(AssignmentsScanned(pairs, order, ps)) == Quoted(pairs, ps)
    ensures FinishedOrder(AssignmentsScanned(pairs, order, ps)) == QuotedOrder(pairs, order, ps)
  {
    CleanQuoted(ps[|ps| - 1].1);
  }
}
