/**
 * The WHERE predicate shared by `Table.select`, `Table.update` and `Table.delete`
 * (core/database.py:133-162, 168-192, 219-245): a conjunction over the where-mapping, each key
 * compared with `=` or with a SQL `LIKE` pattern, and the filtered row sequences it induces.
 */
module Matching {
  import opened Values
  import opened Text

  /** The operator a statement applies to every where-key; any other operator name makes every
      present key match. */
  datatype Operator = Eq | Like | OtherOp(name: string)

  // ---------------------------------------------------------------------------------------
  // LIKE: the pattern becomes a regular expression (`%` any run, `_` any one character) that is
  // searched for anywhere in the value, ignoring case

  /** The pattern matches a prefix of `s` (`%` is `.*`, `_` is `.`, neither crosses a newline;
      letters compare without regard to ASCII case). */
  predicate LikeAt(p: string, s: string)
    decreases |p| + |s|
  {
    if p == [] then true
    else if p[0] == '%' then LikeAt(p[1..], s) || (s != [] && s[0] != '\n' && LikeAt(p, s[1..]))
    else if p[0] == '_' then s != [] && s[0] != '\n' && LikeAt(p[1..], s[1..])
    else s != [] && LowerChar(s[0]) == LowerChar(p[0]) && LikeAt(p[1..], s[1..])
  }

  /** Unanchored search: the pattern matches starting somewhere in `s`. */
  predicate LikeSearch(p: string, s: string)
    decreases |s|
  {
    LikeAt(p, s) || (s != [] && LikeSearch(p, s[1..]))
  }

  /** Reference semantics: the pattern matches the whole of `t`. */
  predicate FullMatch(p: string, t: string)
    decreases |p| + |t|
  {
    if p == [] then t == []
    else if p[0] == '%' then FullMatch(p[1..], t) || (t != [] && t[0] != '\n' && FullMatch(p, t[1..]))
    else if p[0] == '_' then t != [] && t[0] != '\n' && FullMatch(p[1..], t[1..])
    else t != [] && LowerChar(t[0]) == LowerChar(p[0]) && FullMatch(p[1..], t[1..])
  }

  /** Matching a prefix is matching the whole of some prefix. */
  lemma {:induction false} LikeAtIffPrefix(p: string, s: string)
    ensures LikeAt(p, s) <==> exists k :: 0 <= k <= |s| && FullMatch(p, s[..k])
    decreases |p| + |s|
  {
    if p == [] {
      assert FullMatch(p, s[..0]);
    } else if p[0] == '%' {
      LikeAtIffPrefix(p[1..], s);
      if s != [] {
        LikeAtIffPrefix(p, s[1..]);
        if LikeAt(p, s) {
          if !LikeAt(p[1..], s) {
            var k :| 0 <= k <= |s[1..]| && FullMatch(p, s[1..][..k]);
            assert s[..k + 1][1..] == s[1..][..k];
            assert FullMatch(p, s[..k + 1]);
          }
        }
        if exists k :: 0 <= k <= |s| && FullMatch(p, s[..k]) {
          var k :| 0 <= k <= |s| && FullMatch(p, s[..k]);
          if !FullMatch(p[1..], s[..k]) {
            assert k > 0 && s[0] != '\n' && FullMatch(p, s[..k][1..]);
            assert s[..k][1..] == s[1..][..k - 1];
          }
        }
      }
    } else {
      if s != [] {
        LikeAtIffPrefix(p[1..], s[1..]);
        if LikeAt(p, s) {
          var k :| 0 <= k <= |s[1..]| && FullMatch(p[1..], s[1..][..k]);
          assert s[..k + 1][1..] == s[1..][..k];
          assert FullMatch(p, s[..k + 1]);
        }
        if exists k :: 0 <= k <= |s| && FullMatch(p, s[..k]) {
          var k :| 0 <= k <= |s| && FullMatch(p, s[..k]);
          assert k > 0;
          assert s[..k][1..] == s[1..][..k - 1];
        }
      } else {
        assert forall k :: 0 <= k <= |s| ==> s[..k] == [];
      }
    }
  }

  /** `re.search` semantics: the pattern matches some contiguous part of `s`. */
  lemma {:induction false} LikeSearchIffSubstring(p: string, s: string)
    ensures LikeSearch(p, s) <==> exists i, j :: 0 <= i <= j <= |s| && FullMatch(p, s[i..j])
  {
    if LikeSearch(p, s) {
      var i, j := SearchFindsSubstring(p, s);
    }
    if exists i, j :: 0 <= i <= j <= |s| && FullMatch(p, s[i..j]) {
      var i, j :| 0 <= i <= j <= |s| && FullMatch(p, s[i..j]);
      SubstringIsFound(p, s, i, j);
    }
  }

  /** A successful search names the part of `s` the pattern matches. */
  lemma {:induction false} SearchFindsSubstring(p: string, s: string) returns (i: nat, j: nat)
    requires LikeSearch(p, s)
    ensures i <= j <= |s| && FullMatch(p, s[i..j])
    decreases |s|
  {
    if LikeAt(p, s) {
      LikeAtIffPrefix(p, s);
      var k :| 0 <= k <= |s| && FullMatch(p, s[..k]);
      assert s[0..k] == s[..k];
      i, j := 0, k;
    } else {
      var i', j' := SearchFindsSubstring(p, s[1..]);
      TailSlice(s, i', j');
      i, j := i' + 1, j' + 1;
    }
  }

  /** Every part of `s` the pattern matches is found by the search. */
  lemma {:induction false} SubstringIsFound(p: string, s: string, i: nat, j: nat)
    requires i <= j <= |s| && FullMatch(p, s[i..j])
    ensures LikeSearch(p, s)
    decreases i
  {
    if i == 0 {
      assert s[..j] == s[i..j];
      LikeAtIffPrefix(p, s);
    } else {
      TailSlice(s, i - 1, j - 1);
      SubstringIsFound(p, s[1..], i - 1, j - 1);
    }
  }

  /** A slice of the tail is the slice one further along. */
  lemma {:induction false} TailSlice(s: string, i: nat, j: nat)
    requires i <= j < |s|
    ensures s[1..][i..j] == s[i + 1..j + 1]
  {
    forall k | 0 <= k < j - i ensures s[1..][i..j][k] == s[i + 1..j + 1][k] {
    }
  }

  /** The LIKE scenario: `'%li%'` finds "Alice" but not "Bob", regardless of case. */
  lemma {:induction false} LikeExample()
    ensures LikeSearch("%li%", "Alice") && LikeSearch("%LI%", "alice")
    ensures !LikeSearch("%li%", "Bob")
  {
    assert LikeAt("%", "ce");
    assert LikeAt("i%", "ice");
    assert LikeAt("li%", "lice");
    assert LikeAt("%li%", "lice");
    assert LikeAt("%", "ce");
    assert LikeAt("I%", "ice");
    assert LikeAt("LI%", "lice");
    assert LikeAt("%LI%", "lice");
    assert LikeSearch("%LI%", "lice");
    assert !LikeAt("li%", "");
    assert !LikeAt("li%", "b") && !LikeAt("li%", "ob") && !LikeAt("li%", "Bob");
    assert !LikeAt("%li%", "");
    assert !LikeAt("%li%", "b");
    assert !LikeAt("%li%", "ob");
    assert !LikeAt("%li%", "Bob");
    assert !LikeSearch("%li%", "b");
    assert !LikeSearch("%li%", "ob");
  }

  // ---------------------------------------------------------------------------------------
  // The row predicate

  /** One where-key against the row's value for it. */
  predicate KeyMatches(rowValue: Value, value: Value, op: Operator)
  {
    match op
    case Eq => PyEq(rowValue, value)
    case Like => value.VStr? && rowValue.VStr? && LikeSearch(value.s, rowValue.s)
    case OtherOp(_) => true
  }

  /** The row has every where-key and each matches; an empty where matches every row. */
  predicate RowMatches(row: Row, where: map<string, Value>, op: Operator)
  {
    forall k :: k in where ==> k in row && KeyMatches(row[k], where[k], op)
  }

  /** The per-row loop of the source: walk the where-keys, stop at the first failing one. */
  method MatchRow(row: Row, where: map<string, Value>, op: Operator) returns (m: bool)
    ensures m <==> RowMatches(row, where, op)
  {
    var keys := where.Keys;
    while keys != {}
      invariant keys <= where.Keys
      invariant forall k :: k in where && k !in keys ==> k in row && KeyMatches(row[k], where[k], op)
      decreases keys
    {
      var key :| key in keys;
      if key !in row {
        return false;
      }
      var ok := KeyMatches(row[key], where[key], op);
      if !ok {
        return false;
      }
      keys := keys - {key};
    }
    return true;
  }

  // ---------------------------------------------------------------------------------------
  // Filtered sequences

  /** The rows that match, in their original order. */
  function Filter(rows: seq<Row>, where: map<string, Value>, op: Operator): seq<Row>
  {
    if rows == [] then []
    else Filter(rows[..|rows| - 1], where, op)
         + (if RowMatches(rows[|rows| - 1], where, op) then [rows[|rows| - 1]] else [])
  }

  /** The rows that do not match, in their original order. */
  function Reject(rows: seq<Row>, where: map<string, Value>, op: Operator): seq<Row>
  {
    if rows == [] then []
    else Reject(rows[..|rows| - 1], where, op)
         + (if RowMatches(rows[|rows| - 1], where, op) then [] else [rows[|rows| - 1]])
  }

  /** Positions of the matching rows, ascending. */
  function MatchPositions(rows: seq<Row>, where: map<string, Value>, op: Operator): seq<nat>
  {
    if rows == [] then []
    else MatchPositions(rows[..|rows| - 1], where, op)
         + (if RowMatches(rows[|rows| - 1], where, op) then [|rows| - 1] else [])
  }

  /** Every row is either selected or rejected. */
  lemma {:induction false} FilterRejectPartition(rows: seq<Row>, where: map<string, Value>, op: Operator)
    ensures |Filter(rows, where, op)| + |Reject(rows, where, op)| == |rows|
    ensures |Filter(rows, where, op)| == |MatchPositions(rows, where, op)|
  {
    if rows != [] {
      FilterRejectPartition(rows[..|rows| - 1], where, op);
    }
  }

  lemma {:induction false} MatchPositionsBounded(rows: seq<Row>, where: map<string, Value>, op: Operator)
    ensures forall k :: 0 <= k < |MatchPositions(rows, where, op)| ==> MatchPositions(rows, where, op)[k] < |rows|
  {
    if rows != [] {
      MatchPositionsBounded(rows[..|rows| - 1], where, op);
    }
  }

  /** The match positions ascend, and they are exactly the positions of the matching rows. */
  lemma {:induction false} MatchPositionsExact(rows: seq<Row>, where: map<string, Value>, op: Operator)
    ensures var ps := MatchPositions(rows, where, op);
      && (forall j, k :: 0 <= j < k < |ps| ==> ps[j] < ps[k])
      && (forall i :: 0 <= i < |rows| ==> (i in ps <==> RowMatches(rows[i], where, op)))
  {
    if rows != [] {
      var init := rows[..|rows| - 1];
      MatchPositionsExact(init, where, op);
      MatchPositionsBounded(init, where, op);
      var ps0 := MatchPositions(init, where, op);
      var ps := MatchPositions(rows, where, op);
      forall i | 0 <= i < |rows| ensures (i in ps <==> RowMatches(rows[i], where, op)) {
        if i < |init| {
          assert init[i] == rows[i];
          assert i in ps <==> i in ps0;
        }
      }
    }
  }

  /** The selected rows are the rows at the match positions. */
  lemma {:induction false} FilterAtPositions(rows: seq<Row>, where: map<string, Value>, op: Operator)
    ensures var ps := MatchPositions(rows, where, op);
      && |Filter(rows, where, op)| == |ps|
      && (forall k :: 0 <= k < |ps| ==> ps[k] < |rows| && Filter(rows, where, op)[k] == rows[ps[k]])
  {
    MatchPositionsBounded(rows, where, op);
    if rows != [] {
      var init := rows[..|rows| - 1];
      FilterAtPositions(init, where, op);
      MatchPositionsBounded(init, where, op);
      var ps0 := MatchPositions(init, where, op);
      forall k | 0 <= k < |ps0| ensures init[ps0[k]] == rows[ps0[k]] {
      }
    }
  }

  /** A row is selected exactly when it is one of the rows and it matches. */
  lemma {:induction false} FilterMembers(rows: seq<Row>, where: map<string, Value>, op: Operator, r: Row)
    ensures r in Filter(rows, where, op) <==> r in rows && RowMatches(r, where, op)
  {
    if rows != [] {
      var init := rows[..|rows| - 1];
      FilterMembers(init, where, op, r);
      assert rows == init + [rows[|rows| - 1]];
    }
  }

  /** No where (or an empty one) selects every row and rejects none. */
  lemma {:induction false} EmptyWhereSelectsAll(rows: seq<Row>, op: Operator)
    ensures Filter(rows, map[], op) == rows
    ensures Reject(rows, map[], op) == []
  {
    if rows != [] {
      EmptyWhereSelectsAll(rows[..|rows| - 1], op);
    }
  }

  /** Filtering a concatenation filters each part. */
  lemma {:induction false} FilterAppend(a: seq<Row>, b: seq<Row>, where: map<string, Value>, op: Operator)
    ensures Filter(a + b, where, op) == Filter(a, where, op) + Filter(b, where, op)
    ensures Reject(a + b, where, op) == Reject(a, where, op) + Reject(b, where, op)
  {
    SelectAppend(a, b, where, op);
    RejectAppend(a, b, where, op);
  }

  lemma {:induction false} SelectAppend(a: seq<Row>, b: seq<Row>, where: map<string, Value>, op: Operator)
    ensures Filter(a + b, where, op) == Filter(a, where, op) + Filter(b, where, op)
    decreases |b|
  {
    if b != [] {
      var b' := b[..|b| - 1];
      assert (a + b)[..|a + b| - 1] == a + b';
      assert (a + b)[|a + b| - 1] == b[|b| - 1];
      SelectAppend(a, b', where, op);
    } else {
      assert a + b == a;
    }
  }

  lemma {:induction false} RejectAppend(a: seq<Row>, b: seq<Row>, where: map<string, Value>, op: Operator)
    ensures Reject(a + b, where, op) == Reject(a, where, op) + Reject(b, where, op)
    decreases |b|
  {
    if b != [] {
      var b' := b[..|b| - 1];
      assert (a + b)[..|a + b| - 1] == a + b';
      assert (a + b)[|a + b| - 1] == b[|b| - 1];
      RejectAppend(a, b', where, op);
    } else {
      assert a + b == a;
    }
  }
}
