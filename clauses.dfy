/**
 * The clause readers of the SQL parser (parser/sql_parser.py): INSERT literals, the WHERE
 * clause of SELECT, UPDATE and DELETE, the join condition and the column definition of
 * CREATE TABLE.
 */
module SqlClauses {
  import opened Text
  import opened Outcomes
  import opened Values
  import opened Schema
  import opened Matching
  import opened SqlHeaders

  // ---------------------------------------------------------------------------------------
  // INSERT literals (parser/sql_parser.py:149-163)

  /** Python's `digitpart`: digits, with single underscores allowed between two digits. */
  predicate IsDigitPart(s: string)
  {
    s != [] && IsDigit(s[0]) && IsDigit(s[|s| - 1])
    && (forall k :: 0 <= k < |s| ==> IsDigit(s[k]) || s[k] == '_')
    && (forall k :: 0 <= k < |s| - 1 && s[k] == '_' ==> IsDigit(s[k + 1]))
  }

  /** The digits of `s`, underscores dropped. */
  function DigitsOnly(s: string): string
  {
    if s == [] then [] else DigitsOnly(s[..|s| - 1]) + (if s[|s| - 1] == '_' then [] else [s[|s| - 1]])
  }

  lemma {:induction false} DigitsOnlyDigits(s: string)
    requires forall k :: 0 <= k < |s| ==> IsDigit(s[k]) || s[k] == '_'
    ensures forall k :: 0 <= k < |DigitsOnly(s)| ==> IsDigit(DigitsOnly(s)[k])
  {
    if s != [] {
      DigitsOnlyDigits(s[..|s| - 1]);
    }
  }

  /** The value of a digit part. */
  function DigitPartValue(s: string): nat
    requires IsDigitPart(s)
  {
    DigitsOnlyDigits(s);
    DigitsValue(DigitsOnly(s))
  }

  /** The text after an optional sign, and whether the sign was `-`. */
  function Unsigned(s: string): (r: (string, bool))
    ensures |r.0| <= |s|
  {
    if s != [] && (s[0] == '+' || s[0] == '-') then (s[1..], s[0] == '-') else (s, false)
  }

  /** `int(s)` for a stripped string: an optional sign and a digit part; `None` where Python
      raises `ValueError`. */
  function IntLiteral(s: string): (r: Option<int>)
  {
    var (body, negative) := Unsigned(s);
    if IsDigitPart(body) then
      var n: int := DigitPartValue(body);
      Some(if negative then -n else n)
    else None
  }

  /** `float(s)` succeeds, for a stripped string that contains a `.`: an optional sign, a
      point float (`1.5`, `1.`, `.5`) and an optional exponent (`e`, an optional sign, digits). */
  predicate IsPointFloat(s: string)
  {
    var (body, _) := Unsigned(s);
    var e := ExponentStart(body);
    var mantissa := body[..e];
    var d := IndexOf(mantissa, '.');
    d < |mantissa|
    && (d == 0 || IsDigitPart(mantissa[..d]))
    && (d + 1 == |mantissa| || IsDigitPart(mantissa[d + 1..]))
    && (d > 0 || d + 1 < |mantissa|)
    && (e == |body| || IsDigitPart(Unsigned(body[e + 1..]).0))
  }

  /** Position of the first `e` or `E`, or `|s|`. */
  function ExponentStart(s: string): (r: nat)
    ensures r <= |s|
    ensures r < |s| ==> s[r] == 'e' || s[r] == 'E'
  {
    if s == [] || s[0] == 'e' || s[0] == 'E' then 0 else 1 + ExponentStart(s[1..])
  }

  /** The conversion of one stripped VALUES item: `NULL` in any case is `None`, a quoted item
      is its inner text, an item with a `.` is a float when `float()` accepts it, any other
      item an int when `int()` accepts it, and whatever is left stays the raw text. */
  function Literal(v: string): Value
  {
    if Upper(v) == "NULL" then VNull
    else if IsQuoted(v) then VStr(Unquote(v))
    else if '.' in v then (if IsPointFloat(v) then VFloat(v) else VStr(v))
    else match IntLiteral(v)
      case Some(n) => VInt(n)
      case None => VStr(v)
  }

  /** The INSERT column names: the column text split at every comma, each name stripped and
      lower-cased. */
  function ColumnNames(text: string): (r: seq<string>)
    ensures |r| == |SplitOn(text, ',')|
    ensures forall k :: 0 <= k < |r| ==> r[k] == Lower(Strip(SplitOn(text, ',')[k]))
  {
    var parts := SplitOn(text, ',');
    seq(|parts|, k requires 0 <= k < |parts| => Lower(Strip(parts[k])))
  }

  /** `zip(columns, values)` written into a dictionary, first `n` pairs: a later pair for the
      same column overwrites an earlier one. */
  function Paired(columns: seq<string>, values: seq<string>, n: nat): Row
    requires n <= |columns| && n <= |values|
  {
    if n == 0 then map[] else Paired(columns, values, n - 1)[columns[n - 1] := Literal(values[n - 1])]
  }

  /** The INSERT row: pairing stops at the shorter of the two lists. */
  function Zipped(columns: seq<string>, values: seq<string>): Row
  {
    Paired(columns, values, if |columns| < |values| then |columns| else |values|)
  }

  /** A column gets a value exactly when it is among the first `n` names. */
  lemma {:induction false} PairedKeys(columns: seq<string>, values: seq<string>, n: nat)
    requires n <= |columns| && n <= |values|
    ensures forall c :: c in Paired(columns, values, n) <==> exists i :: 0 <= i < n && columns[i] == c
  {
    if n > 0 {
      PairedKeys(columns, values, n - 1);
    }
  }

  /** Each column holds the literal of the last pair that names it. */
  lemma {:induction false} PairedLastWins(columns: seq<string>, values: seq<string>, n: nat, i: nat)
    requires n <= |columns| && n <= |values| && i < n
    requires forall j :: i < j < n ==> columns[j] != columns[i]
    ensures columns[i] in Paired(columns, values, n) && Paired(columns, values, n)[columns[i]] == Literal(values[i])
  {
    if i < n - 1 {
      PairedLastWins(columns, values, n - 1, i);
    }
  }

  /** Text that starts with a sign or a digit and goes on with digits is none of NULL, a quoted
      literal or a float. */
  lemma {:induction false} NumberShaped(v: string)
    requires v != [] && (v[0] == '-' || IsDigit(v[0]))
    requires forall k :: 0 < k < |v| ==> IsDigit(v[k])
    ensures Upper(v) != "NULL" && !IsQuoted(v) && '.' !in v
  {
    assert Upper(v)[0] == v[0];
  }

  lemma {:induction false} DigitsArePart(s: string)
    requires IsDigits(s)
    ensures IsDigitPart(s)
  {
  }

  lemma {:induction false} DigitCharValue(d: nat)
    requires d < 10
    ensures DigitChar(d) as int - '0' as int == d
  {
  }

  lemma {:induction false} DigitsValueOfNat(n: nat)
    ensures DigitsValue(NatToString(n)) == n
    decreases n
  {
    var s := NatToString(n);
    if n < 10 {
      DigitCharValue(n);
      assert s[..0] == [];
    } else {
      DigitsValueOfNat(n / 10);
      DigitCharValue(n % 10);
      assert s[..|s| - 1] == NatToString(n / 10);
      assert s[|s| - 1] == DigitChar(n % 10);
    }
  }

  lemma {:induction false} DigitsOnlyDigitsKept(s: string)
    requires forall k :: 0 <= k < |s| ==> IsDigit(s[k])
    ensures DigitsOnly(s) == s
  {
    if s != [] {
      DigitsOnlyDigitsKept(s[..|s| - 1]);
      assert s[..|s| - 1] + [s[|s| - 1]] == s;
    }
  }

  lemma {:induction false} IntLiteralOfString(i: int)
    ensures IntLiteral(IntToString(i)) == Some(i)
  {
    var n: nat := if i < 0 then -i else i;
    var d := NatToString(n);
    var v := IntToString(i);
    assert Unsigned(v) == (d, i < 0) by {
      if i < 0 {
        assert v[1..] == d;
      }
    }
    DigitsArePart(d);
    DigitsOnlyDigitsKept(d);
    DigitsValueOfNat(n);
  }

  /** `int()` reads back what `str()` writes. */
  lemma {:induction false} LiteralInt(i: int)
    ensures Literal(IntToString(i)) == VInt(i)
  {
    NumberShaped(IntToString(i));
    IntLiteralOfString(i);
  }

  /** A quoted item is read as its inner text, whatever it holds. */
  lemma {:induction false} LiteralQuoted(s: string)
    ensures Literal("'" + s + "'") == VStr(s)
  {
    var v := "'" + s + "'";
    assert Upper(v)[0] == '\'';
    assert v[1..|v| - 1] == s;
  }

  lemma {:induction false} ExponentFree(s: string)
    requires forall k :: 0 <= k < |s| ==> s[k] != 'e' && s[k] != 'E'
    ensures ExponentStart(s) == |s|
  {
  }

  lemma {:induction false} PointFloatOf(a: string, b: string)
    requires IsDigits(a) && IsDigits(b)
    ensures IsPointFloat(a + "." + b)
  {
    var v := a + "." + b;
    assert Unsigned(v) == (v, false);
    ExponentFree(v);
    assert v[..|v|] == v;
    assert IndexOf(v, '.') == |a| by {
      assert v[|a|] == '.';
    }
    assert v[..|a|] == a;
    assert v[|a| + 1..] == b;
    DigitsArePart(a);
    DigitsArePart(b);
  }

  /** Digits, a point and digits make a float, kept as written. */
  lemma {:induction false} LiteralPointFloat(a: string, b: string)
    requires IsDigits(a) && IsDigits(b)
    ensures Literal(a + "." + b) == VFloat(a + "." + b)
  {
    var v := a + "." + b;
    assert Upper(v) != "NULL" by {
      assert Upper(v)[0] == v[0] == a[0];
    }
    assert '.' in v by {
      assert v[|a|] == '.';
    }
    PointFloatOf(a, b);
  }

  /** With a second point `float()` fails and the item stays text. */
  lemma {:induction false} LiteralTwoPoints(a: string, b: string, c: string)
    requires IsDigits(a) && IsDigits(b) && IsDigits(c)
    ensures Literal(a + "." + b + "." + c) == VStr(a + "." + b + "." + c)
  {
    var v := a + "." + b + "." + c;
    assert Upper(v) != "NULL" by {
      assert Upper(v)[0] == v[0] == a[0];
    }
    assert '.' in v by {
      assert v[|a|] == '.';
    }
    assert !IsPointFloat(v) by {
      assert Unsigned(v) == (v, false);
      ExponentFree(v);
      assert v[..|v|] == v;
      assert IndexOf(v, '.') == |a| by {
        assert v[|a|] == '.';
      }
      var tail := v[|a| + 1..];
      assert tail[|b|] == '.';
      assert !IsDigitPart(tail) by {
        assert !IsDigit(tail[|b|]) && tail[|b|] != '_';
      }
    }
  }

  // ---------------------------------------------------------------------------------------
  // WHERE (parser/sql_parser.py:52-83, 243-273, 308-337)

  /** The three readers of a WHERE clause differ in how they read `key = value`. */
  datatype WhereStyle =
    | SelectWhere   // `split('=', 1)`; quotes removed, doubled quotes kept
    | UpdateWhere   // lazy key, spaces around `=`, value to end of line; quotes removed, doubled quotes collapsed
    | DeleteWhere   // `split('=', 1)`; quotes removed, doubled quotes collapsed

  /** A single case-insensitive split at whitespace, LIKE, whitespace, when it splits: the text
      before the first such separator and the text after it. */
  function LikeSplit(w: string): (r: Option<(string, string)>)
    ensures r.Some? ==> exists s: nat :: KeywordAt(w, s, "LIKE") && r.value == (w[..s], w[AfterKeyword(w, s, "LIKE")..])
  {
    var s := LikePos(w);
    if s < |w| then Some((w[..s], w[AfterKeyword(w, s, "LIKE")..])) else None
  }

  /** Where the first whitespace-LIKE-whitespace separator starts, or `|w|` when there is none. */
  function LikePos(w: string): (s: nat)
    ensures s <= |w| && (s < |w| ==> KeywordAt(w, s, "LIKE"))
  {
    var P := (s: nat) => KeywordAt(w, s, "LIKE");
    assert forall k: nat :: P(k) == KeywordAt(w, k, "LIKE");
    Leftmost(P, 0, |w|)
  }

  /** A WHERE value: quoted text loses its quotes (and, outside SELECT, has `''` collapsed),
      ASCII digits become an int, anything else stays text. */
  function WhereValue(style: WhereStyle, v: string): Value
  {
    if IsQuoted(v) then VStr(if style == SelectWhere then Unquote(v) else CollapseQuotes(Unquote(v)))
    else if IsDigits(v) then VInt(DigitsValue(v))
    else VStr(v)
  }

  /** The `=` side: the key and the value text, or `None` where the UPDATE pattern does not
      match (a newline before the `=`). */
  function EqualsSplit(style: WhereStyle, w: string): (r: Option<(string, string)>)
    requires '=' in w
  {
    var e := IndexOf(w, '=');
    if style != UpdateWhere then Some((Lower(Strip(w[..e])), Strip(w[e + 1..])))
    else
      var p := UpdateEqualsPos(w);
      if p < |w| && '\n' !in w[..p] then
        var v0 := SpaceEnd(w, SpaceEnd(w, p) + 1);
        Some((Lower(Strip(w[..p])), Strip(w[v0..LineEnd(w, v0)])))
      else None
  }

  /** Where the UPDATE pattern's lazy name group ends: the first position from which spaces
      lead to `=`, or `|w|` when there is none. */
  function UpdateEqualsPos(w: string): nat
  {
    Leftmost((p: nat) => p <= |w| && SpaceEnd(w, p) < |w| && w[SpaceEnd(w, p)] == '=', 0, |w|)
  }

  /** A stripped WHERE clause read into the where-mapping and its operator. A clause with
      ` LIKE ` (any case) is a LIKE condition; otherwise one with `=` is an equality; anything
      else, or text the readers do not accept, is no condition. */
  function Where(style: WhereStyle, w: string): (map<string, Value>, Operator)
  {
    if Contains(Upper(w), " LIKE ") then
      match LikeSplit(w)
      case Some((k, v)) =>
        var value := Strip(v);
        (map[Lower(Strip(k)) := VStr(if IsQuoted(value) then Unquote(value) else value)], Like)
      case None => (map[], Eq)
    else if '=' in w then
      match EqualsSplit(style, w)
      case Some((k, v)) => (map[k := WhereValue(style, v)], Eq)
      case None => (map[], Eq)
    else (map[], Eq)
  }

  lemma {:induction false} UpperSpace(c: char)
    requires UpperChar(c) == ' '
    ensures c == ' '
  {
  }

  lemma {:induction false} UpperSlice(s: string, i: nat, j: nat)
    requires i <= j <= |s|
    ensures Upper(s[i..j]) == Upper(s)[i..j]
  {
  }

  /** Where the upper-cased text has ` LIKE `, the text itself has `\s+LIKE\s+`. */
  lemma {:induction false} LikeAt(w: string, k: nat)
    requires OccursAt(Upper(w), " LIKE ", k)
    ensures KeywordAt(w, k, "LIKE")
  {
    var u := Upper(w);
    assert u[k..k + 6] == " LIKE ";
    assert u[k] == ' ' && u[k + 1] == 'L' && u[k + 5] == ' ';
    UpperSpace(w[k]);
    UpperSpace(w[k + 5]);
    assert !IsSpace(w[k + 1]);
    assert SpaceEnd(w, k) == k + 1 by {
      assert SpaceEnd(w, k + 1) == k + 1;
    }
    UpperSlice(w, k + 1, k + 5);
    assert u[k + 1..k + 5] == "LIKE" by {
      forall m | 0 <= m < 4
        ensures u[k + 1..k + 5][m] == "LIKE"[m]
      {
        assert u[k + 1 + m] == u[k..k + 6][1 + m];
      }
    }
  }

  /** The ` LIKE ` test only lets through clauses that the split then cuts in two, so a LIKE
      clause always yields a LIKE condition. */
  lemma {:induction false} LikeGuardSplits(w: string)
    requires Contains(Upper(w), " LIKE ")
    ensures LikeSplit(w).Some?
  {
    var k :| 0 <= k <= |Upper(w)| && OccursAt(Upper(w), " LIKE ", k);
    LikeAt(w, k);
    var P := (s: nat) => KeywordAt(w, s, "LIKE");
    assert P(k);
    assert Leftmost(P, 0, |w|) <= k;
    assert LikePos(w) <= k;
  }

  /** No space is followed by an `L` in either case, so ` LIKE ` cannot occur. */
  predicate NoSpaceBeforeL(s: string)
  {
    forall i :: 0 <= i < |s| - 1 && s[i] == ' ' ==> UpperChar(s[i + 1]) != 'L'
  }

  lemma {:induction false} NoLikeIn(w: string)
    requires NoSpaceBeforeL(w)
    ensures !Contains(Upper(w), " LIKE ")
  {
    var u := Upper(w);
    forall k | 0 <= k <= |u|
      ensures !OccursAt(u, " LIKE ", k)
    {
      if k <= |u| - 6 {
        if w[k] == ' ' {
          assert u[k..k + 6][1] == UpperChar(w[k + 1]) != 'L';
        } else {
          assert u[k..k + 6][0] == UpperChar(w[k]) != ' ';
        }
      }
    }
  }

  lemma {:induction false} NoSpaceBeforeLAppend(a: string, b: string)
    requires NoSpaceBeforeL(a) && NoSpaceBeforeL(b)
    requires a != [] && b != [] && a[|a| - 1] == ' ' ==> UpperChar(b[0]) != 'L'
    ensures NoSpaceBeforeL(a + b)
  {
    var w := a + b;
    forall i | 0 <= i < |w| - 1 && w[i] == ' '
      ensures UpperChar(w[i + 1]) != 'L'
    {
      if i < |a| - 1 {
        assert w[i] == a[i] && w[i + 1] == a[i + 1];
      } else if i == |a| - 1 {
        assert w[i + 1] == b[0];
      } else {
        assert w[i] == b[i - |a|] && w[i + 1] == b[i - |a| + 1];
      }
    }
  }

  /** Doubling quotes adds no space and no `L`. */
  lemma {:induction false} NoSpaceBeforeLDoubled(s: string)
    requires NoSpaceBeforeL(s)
    ensures NoSpaceBeforeL(DoubleQuotes(s))
    ensures s != [] ==> DoubleQuotes(s)[0] == s[0]
  {
    if s != [] {
      var rest := s[1..];
      assert NoSpaceBeforeL(rest) by {
        forall i | 0 <= i < |rest| - 1 && rest[i] == ' '
          ensures UpperChar(rest[i + 1]) != 'L'
        {
          assert s[i + 1] == ' ' && s[i + 2] == rest[i + 1];
        }
      }
      NoSpaceBeforeLDoubled(rest);
      if s[0] == '\'' {
        NoSpaceBeforeLAppend("''", DoubleQuotes(rest));
      } else {
        if rest != [] {
          assert s[1] == rest[0];
        }
        NoSpaceBeforeLAppend([s[0]], DoubleQuotes(rest));
      }
    }
  }

  lemma {:induction false} DoubledKeeps(s: string, c: char)
    requires c != '\'' && c !in s
    ensures c !in DoubleQuotes(s)
  {
    if s != [] {
      DoubledKeeps(s[1..], c);
    }
  }

  /** How a clause without ` LIKE ` and with a `=` is read. */
  lemma {:induction false} WhereOfEquals(style: WhereStyle, w: string, key: string, v: string)
    requires !Contains(Upper(w), " LIKE ") && '=' in w && EqualsSplit(style, w) == Some((key, v))
    ensures Where(style, w) == (map[key := WhereValue(style, v)], Eq)
  {
  }

  /** How a clause with ` LIKE ` is read. */
  lemma {:induction false} WhereOfLike(style: WhereStyle, w: string, key: string, v: string)
    requires Contains(Upper(w), " LIKE ") && LikeSplit(w) == Some((key, v))
    ensures Where(style, w) == (map[Lower(Strip(key)) := VStr(if IsQuoted(Strip(v)) then Unquote(Strip(v)) else Strip(v))], Like)
  {
  }

  /** The operator of a WHERE clause is LIKE exactly when the clause holds ` LIKE ` in any
      case; a condition names at most one column; and a clause with neither ` LIKE ` nor `=`
      is no condition. */
  lemma {:induction false} WhereOperator(style: WhereStyle, w: string)
    ensures Where(style, w).1 == Like <==> Contains(Upper(w), " LIKE ")
    ensures |Where(style, w).0| <= 1
    ensures !Contains(Upper(w), " LIKE ") && '=' !in w ==> Where(style, w).0 == map[]
  {
    if Contains(Upper(w), " LIKE ") {
      LikeGuardSplits(w);
    }
  }

  /** In SELECT and DELETE, `split('=', 1)` makes the key of an equality the text before the
      first `=`, stripped and lower-cased, and reads the value from the stripped rest. */
  lemma {:induction false} WhereEqualsKey(style: WhereStyle, k: string, rest: string)
    requires style != UpdateWhere && '=' !in k
    requires !Contains(Upper(k + "=" + rest), " LIKE ")
    ensures Where(style, k + "=" + rest) == (map[Lower(Strip(k)) := WhereValue(style, Strip(rest))], Eq)
  {
    var w := k + "=" + rest;
    assert forall i :: 0 <= i < |k| ==> w[i] == k[i] && k[i] in k;
    EqualsSplitFirst(style, w, |k|);
    assert w[..|k|] == k && w[|k| + 1..] == rest;
    WhereOfEquals(style, w, Lower(Strip(k)), Strip(rest));
  }

  lemma {:induction false} StripNameSpace(k: string)
    requires IsWord(k)
    ensures Strip(k + " ") == k && Strip(k) == k
  {
    assert TrimLeft(k + " ") == k + " ";
    assert (k + " ")[..|k|] == k;
    StripKeepsUnpadded(k);
  }

  lemma {:induction false} StripSpaceValue(v: string)
    requires v != [] && !IsSpace(v[0]) && !IsSpace(v[|v| - 1])
    ensures Strip(" " + v) == v
  {
    assert (" " + v)[1..] == v;
    StripKeepsUnpadded(v);
  }

  lemma {:induction false} FirstEquals(w: string, e: nat)
    requires e < |w| && w[e] == '=' && forall i :: 0 <= i < e ==> w[i] != '='
    ensures '=' in w && IndexOf(w, '=') == e
  {
  }

  lemma {:induction false} EqualsSplitAt(style: WhereStyle, w: string, e: nat)
    requires style != UpdateWhere
    requires '=' in w && IndexOf(w, '=') == e
    ensures EqualsSplit(style, w) == Some((Lower(Strip(w[..e])), Strip(w[e + 1..])))
  {
  }

  /** `split('=', 1)` at the first `=`. */
  lemma {:induction false} EqualsSplitFirst(style: WhereStyle, w: string, e: nat)
    requires style != UpdateWhere
    requires e < |w| && w[e] == '=' && forall i :: 0 <= i < e ==> w[i] != '='
    ensures '=' in w && EqualsSplit(style, w) == Some((Lower(Strip(w[..e])), Strip(w[e + 1..])))
  {
    FirstEquals(w, e);
    EqualsSplitAt(style, w, e);
  }

  /** The UPDATE pattern `(.*?)\s*=\s*(.*)` where the first spaces-then-`=` starts at `p`. */
  lemma {:induction false} UpdateSplitAt(w: string, p: nat)
    requires p <= |w| && SpaceEnd(w, p) < |w| && w[SpaceEnd(w, p)] == '='
    requires forall i :: 0 <= i < p ==> !IsSpace(w[i]) && w[i] != '=' && w[i] != '\n'
    ensures var v0 := SpaceEnd(w, SpaceEnd(w, p) + 1);
      '=' in w && EqualsSplit(UpdateWhere, w) == Some((Lower(Strip(w[..p])), Strip(w[v0..LineEnd(w, v0)])))
  {
    UpdateEqualsPosAt(w, p);
  }

  lemma {:induction false} UpdateEqualsPosAt(w: string, p: nat)
    requires p <= |w| && SpaceEnd(w, p) < |w| && w[SpaceEnd(w, p)] == '='
    requires forall i :: 0 <= i < p ==> !IsSpace(w[i]) && w[i] != '=' && w[i] != '\n'
    ensures UpdateEqualsPos(w) == p
  {
    var P := (p: nat) => p <= |w| && SpaceEnd(w, p) < |w| && w[SpaceEnd(w, p)] == '=';
    assert P(p);
    forall i | 0 <= i < p
      ensures !P(i)
    {
      assert SpaceEnd(w, i) == i;
    }
    assert Leftmost(P, 0, |w|) == p;
  }

  /** The characters of `name = value`. */
  predicate EqualsShaped(w: string, k: string, v: string)
  {
    |w| == |k| + 3 + |v| && w[..|k|] == k && w[..|k| + 1] == k + " " && w[|k|] == ' ' && w[|k| + 1] == '='
    && w[|k| + 2] == ' ' && w[|k| + 2..] == " " + v && w[|k| + 3..] == v
    && forall i :: 0 <= i < |k| ==> !IsSpace(w[i]) && w[i] != '=' && w[i] != '\n'
  }

  lemma {:induction false} EqualsShape(k: string, v: string)
    requires IsWord(k)
    ensures EqualsShaped(k + " = " + v, k, v)
  {
    var w := k + " = " + v;
    assert forall i :: 0 <= i < |k| ==> w[i] == k[i];
  }

  lemma {:induction false} UpdateAfterNameSpaces(w: string, k: string, v: string)
    requires EqualsShaped(w, k, v) && '\n' !in v && v != [] && !IsSpace(v[0])
    ensures SpaceEnd(w, |k|) == |k| + 1 && SpaceEnd(w, |k| + 2) == |k| + 3 && LineEnd(w, |k| + 3) == |w|
  {
    assert SpaceEnd(w, |k| + 1) == |k| + 1;
    assert w[|k| + 3] == v[0];
    assert SpaceEnd(w, |k| + 3) == |k| + 3;
    assert forall i :: |k| + 3 <= i < |w| ==> w[i] == v[i - |k| - 3];
  }

  lemma {:induction false} UpdateEqualsAfterName(w: string, k: string, v: string)
    requires EqualsShaped(w, k, v) && Strip(k) == k
    requires v != [] && !IsSpace(v[0]) && !IsSpace(v[|v| - 1]) && '\n' !in v
    ensures '=' in w && EqualsSplit(UpdateWhere, w) == Some((Lower(k), v))
  {
    UpdateAfterNameSpaces(w, k, v);
    UpdateSplitAt(w, |k|);
    StripKeepsUnpadded(v);
    assert w[|k| + 3..|w|] == v;
  }

  lemma {:induction false} SplitEqualsAfterName(style: WhereStyle, w: string, k: string, v: string)
    requires style != UpdateWhere
    requires EqualsShaped(w, k, v) && Strip(k + " ") == k
    requires v != [] && !IsSpace(v[0]) && !IsSpace(v[|v| - 1])
    ensures '=' in w && EqualsSplit(style, w) == Some((Lower(k), v))
  {
    EqualsSplitFirst(style, w, |k| + 1);
    StripSpaceValue(v);
  }

  lemma {:induction false} EqualsAfterNameAt(style: WhereStyle, w: string, k: string, v: string)
    requires EqualsShaped(w, k, v) && Strip(k + " ") == k && Strip(k) == k
    requires v != [] && !IsSpace(v[0]) && !IsSpace(v[|v| - 1]) && '\n' !in v
    ensures '=' in w && EqualsSplit(style, w) == Some((Lower(k), v))
  {
    if style == UpdateWhere {
      UpdateEqualsAfterName(w, k, v);
    } else {
      SplitEqualsAfterName(style, w, k, v);
    }
  }

  /** A name followed by ` = ` reads as that name in all three styles. */
  lemma {:induction false} EqualsAfterName(style: WhereStyle, k: string, v: string)
    requires IsWord(k) && v != [] && !IsSpace(v[0]) && !IsSpace(v[|v| - 1]) && '\n' !in v
    ensures '=' in k + " = " + v && EqualsSplit(style, k + " = " + v) == Some((Lower(k), v))
  {
    EqualsShape(k, v);
    StripNameSpace(k);
    EqualsAfterNameAt(style, k + " = " + v, k, v);
  }

  lemma {:induction false} NameNoSpaceBeforeL(k: string, t: string)
    requires IsWord(k) && NoSpaceBeforeL(t) && t != [] && t[0] == ' ' && |t| >= 2 && UpperChar(t[1]) != 'L'
    ensures NoSpaceBeforeL(k + t)
  {
    assert NoSpaceBeforeL(k) by {
      assert forall i :: 0 <= i < |k| ==> k[i] != ' ';
    }
    NoSpaceBeforeLAppend(k, t);
  }

  /** `name = 42` is an equality with an int, in every style. */
  lemma {:induction false} WhereEqualsNumber(style: WhereStyle, k: string, n: nat)
    requires IsWord(k)
    ensures Where(style, k + " = " + NatToString(n)) == (map[Lower(k) := VInt(n)], Eq)
  {
    var d := NatToString(n);
    var w := k + " = " + d;
    assert NoSpaceBeforeL(" = " + d) by {
      assert forall i :: 0 <= i < |d| ==> (" = " + d)[i + 3] == d[i];
    }
    NameNoSpaceBeforeL(k, " = " + d);
    Assoc3(k, " = ", d);
    NoLikeIn(w);
    EqualsAfterName(style, k, d);
    DigitsValueOfNat(n);
    WhereOfEqualsValue(style, w, Lower(k), d, VInt(n));
  }

  lemma {:induction false} WhereOfEqualsValue(style: WhereStyle, w: string, key: string, v: string, value: Value)
    requires !Contains(Upper(w), " LIKE ") && '=' in w && EqualsSplit(style, w) == Some((key, v))
    requires WhereValue(style, v) == value
    ensures Where(style, w) == (map[key := value], Eq)
  {
    WhereOfEquals(style, w, key, v);
  }

  lemma {:induction false} Assoc3(a: string, b: string, c: string)
    ensures a + (b + c) == a + b + c
  {
  }

  lemma {:induction false} QuotedText(k: string, d: string)
    ensures k + " = '" + d + "'" == k + " = " + ("'" + d + "'")
    ensures "'" + (d + "'") == "'" + d + "'"
  {
  }

  /** `name = 'text'`, with quotes inside doubled: UPDATE and DELETE give back the text, SELECT
      keeps the doubled quotes. */
  lemma {:induction false} WhereEqualsQuoted(style: WhereStyle, k: string, s: string)
    requires IsWord(k) && NoSpaceBeforeL(s) && '\n' !in s
    ensures Where(style, k + " = '" + DoubleQuotes(s) + "'")
         == (map[Lower(k) := VStr(if style == SelectWhere then DoubleQuotes(s) else s)], Eq)
  {
    var d := DoubleQuotes(s);
    var v := "'" + d + "'";
    var w := k + " = " + v;
    QuotedText(k, d);
    NoSpaceBeforeLDoubled(s);
    NoSpaceBeforeLAppend(d, "'");
    NoSpaceBeforeLAppend("'", d + "'");
    NoSpaceBeforeLAppend(" = ", v);
    NameNoSpaceBeforeL(k, " = " + v);
    Assoc3(k, " = ", v);
    NoLikeIn(w);
    DoubledKeeps(s, '\n');
    assert '\n' !in v;
    EqualsAfterName(style, k, v);
    assert Unquote(v) == d;
    CollapseDoubled(s);
    WhereOfEqualsValue(style, w, Lower(k), v, VStr(if style == SelectWhere then d else s));
  }

  /** The LIKE split happens at the first run of spaces when LIKE follows it. */
  lemma {:induction false} LikeSplitFirst(w: string, x: nat)
    requires KeywordAt(w, x, "LIKE") && forall i :: 0 <= i < x ==> !IsSpace(w[i])
    ensures LikeSplit(w) == Some((w[..x], w[AfterKeyword(w, x, "LIKE")..]))
  {
    var P := (s: nat) => KeywordAt(w, s, "LIKE");
    assert P(x);
    assert Leftmost(P, 0, |w|) == x;
    assert LikePos(w) == x;
  }

  /** The characters of `name LIKE value`. */
  lemma {:induction false} LikeShape(k: string, v: string)
    requires IsWord(k) && v != [] && v[0] == '\''
    ensures var w := k + " LIKE " + v;
      OccursAt(Upper(w), " LIKE ", |k|) && w[..|k|] == k && w[|k| + 6..] == v && w[|k| + 6] == '\''
      && forall i :: 0 <= i < |k| ==> !IsSpace(w[i])
  {
    var w := k + " LIKE " + v;
    UpperSlice(w, |k|, |k| + 6);
    assert w[|k|..|k| + 6] == " LIKE ";
    assert forall i :: 0 <= i < |k| ==> w[i] == k[i];
  }

  /** The LIKE split of `name LIKE rest`, for a name and a rest that starts with a quote. */
  lemma {:induction false} LikeAfterName(k: string, v: string)
    requires IsWord(k) && v != [] && v[0] == '\''
    ensures var w := k + " LIKE " + v;
      Contains(Upper(w), " LIKE ") && LikeSplit(w) == Some((k, v))
  {
    var w := k + " LIKE " + v;
    LikeShape(k, v);
    LikeAt(w, |k|);
    assert SpaceEnd(w, |k|) == |k| + 1;
    assert SpaceEnd(w, |k| + 5) == |k| + 6;
    LikeSplitFirst(w, |k|);
  }

  lemma {:induction false} LikeText(k: string, p: string)
    ensures k + " LIKE '" + p + "'" == k + " LIKE " + ("'" + p + "'")
  {
  }

  lemma {:induction false} WhereOfLikeQuoted(style: WhereStyle, w: string, k: string, v: string, p: string)
    requires Contains(Upper(w), " LIKE ") && LikeSplit(w) == Some((k, v))
    requires Strip(k) == k && Strip(v) == v && IsQuoted(v) && Unquote(v) == p
    ensures Where(style, w) == (map[Lower(k) := VStr(p)], Like)
  {
    WhereOfLike(style, w, k, v);
  }

  lemma {:induction false} QuotedFacts(p: string)
    ensures var v := "'" + p + "'"; Strip(v) == v && IsQuoted(v) && Unquote(v) == p
  {
    StripKeepsUnpadded("'" + p + "'");
  }

  /** `name LIKE 'pattern'` is a LIKE condition with the pattern, whatever it holds. */
  lemma {:induction false} WhereLike(style: WhereStyle, k: string, p: string)
    requires IsWord(k)
    ensures Where(style, k + " LIKE '" + p + "'") == (map[Lower(k) := VStr(p)], Like)
  {
    var v := "'" + p + "'";
    var w := k + " LIKE " + v;
    LikeText(k, p);
    LikeAfterName(k, v);
    StripNameSpace(k);
    QuotedFacts(p);
    WhereOfLikeQuoted(style, w, k, v, p);
  }

  /** The LIKE split happens at the first whitespace-LIKE-whitespace separator. */
  lemma {:induction false} LikeSplitAt(w: string, x: nat)
    requires KeywordAt(w, x, "LIKE") && forall i :: 0 <= i < x ==> !KeywordAt(w, i, "LIKE")
    ensures LikeSplit(w) == Some((w[..x], w[AfterKeyword(w, x, "LIKE")..]))
  {
    var P := (s: nat) => KeywordAt(w, s, "LIKE");
    assert P(x);
    assert Leftmost(P, 0, |w|) == x;
    assert LikePos(w) == x;
  }

  /** The characters of `name = 'a LIKE b'`. */
  lemma {:induction false} LikeInValueShape(k: string, a: string, b: string)
    requires IsWord(k) && IsWord(a) && IsWord(b)
    ensures var w := k + " = '" + a + " LIKE " + b + "'"; var x := |k| + 4 + |a|;
      |w| == x + 7 + |b| && w[..x] == k + " = '" + a && w[x..x + 6] == " LIKE " && w[x + 6..] == b + "'"
      && w[|k|] == ' ' && w[|k| + 1] == '=' && w[|k| + 2] == ' ' && w[|k| + 3] == '\''
      && (forall i :: 0 <= i < |k| ==> w[i] == k[i])
      && (forall i :: |k| + 4 <= i < x ==> w[i] == a[i - |k| - 4])
  {
  }

  lemma {:induction false} NotAtCI(s: string, i: nat, lit: string)
    requires i < |s| && lit != [] && UpperChar(s[i]) != lit[0]
    ensures !AtCI(s, i, lit)
  {
    if i + |lit| <= |s| {
      assert Upper(s[i..i + |lit|])[0] == UpperChar(s[i]);
    }
  }

  lemma {:induction false} NoLikeBefore(w: string, k: string, a: string, x: nat)
    requires IsWord(k) && IsWord(a) && x == |k| + 4 + |a| && |w| > x
    requires w[|k|] == ' ' && w[|k| + 1] == '=' && w[|k| + 2] == ' ' && w[|k| + 3] == '\''
    requires forall i :: 0 <= i < |k| ==> w[i] == k[i]
    requires forall i :: |k| + 4 <= i < x ==> w[i] == a[i - |k| - 4]
    ensures forall i :: 0 <= i < x ==> !KeywordAt(w, i, "LIKE")
  {
    forall i | 0 <= i < x
      ensures !KeywordAt(w, i, "LIKE")
    {
      if i == |k| || i == |k| + 2 {
        assert SpaceEnd(w, i) == i + 1;
        NotAtCI(w, i + 1, "LIKE");
      } else if i < |k| {
        assert IsWordChar(k[i]);
      } else if i >= |k| + 4 {
        assert IsWordChar(a[i - |k| - 4]);
      }
    }
  }

  /** The first ` LIKE ` of a clause shaped `name = 'a LIKE b'` is the one inside the value. */
  lemma {:induction false} LikeInsideSplitAt(w: string, k: string, a: string, b: string, x: nat)
    requires IsWord(k) && IsWord(a) && IsWord(b) && x == |k| + 4 + |a|
    requires |w| == x + 7 + |b| && w[x..x + 6] == " LIKE " && w[x + 6..] == b + "'"
    requires w[|k|] == ' ' && w[|k| + 1] == '=' && w[|k| + 2] == ' ' && w[|k| + 3] == '\''
    requires forall i :: 0 <= i < |k| ==> w[i] == k[i]
    requires forall i :: |k| + 4 <= i < x ==> w[i] == a[i - |k| - 4]
    ensures Contains(Upper(w), " LIKE ") && LikeSplit(w) == Some((w[..x], w[x + 6..]))
  {
    NoLikeBefore(w, k, a, x);
    assert w[x + 6] == b[0];
    LikeFirstAt(w, x);
  }

  lemma {:induction false} LikeFirstAt(w: string, x: nat)
    requires x + 7 <= |w| && w[x..x + 6] == " LIKE " && !IsSpace(w[x + 6])
    requires forall i :: 0 <= i < x ==> !KeywordAt(w, i, "LIKE")
    ensures Contains(Upper(w), " LIKE ") && LikeSplit(w) == Some((w[..x], w[x + 6..]))
  {
    UpperSlice(w, x, x + 6);
    assert OccursAt(Upper(w), " LIKE ", x);
    LikeAt(w, x);
    assert w[x + 1] == 'L' && w[x + 5] == ' ';
    assert SpaceEnd(w, x) == x + 1;
    assert SpaceEnd(w, x + 5) == x + 6;
    LikeSplitAt(w, x);
  }

  lemma {:induction false} LikeInsideSplit(k: string, a: string, b: string)
    requires IsWord(k) && IsWord(a) && IsWord(b)
    ensures var w := k + " = '" + a + " LIKE " + b + "'";
      Contains(Upper(w), " LIKE ") && LikeSplit(w) == Some((k + " = '" + a, b + "'"))
  {
    LikeInValueShape(k, a, b);
    LikeInsideSplitAt(k + " = '" + a + " LIKE " + b + "'", k, a, b, |k| + 4 + |a|);
  }

  lemma {:induction false} LikeInsideParts(k: string, a: string, b: string)
    requires IsWord(k) && IsWord(a) && IsWord(b)
    ensures Strip(k + " = '" + a) == k + " = '" + a && Strip(b + "'") == b + "'" && !IsQuoted(b + "'")
  {
    var key := k + " = '" + a;
    assert !IsSpace(key[0]) && !IsSpace(key[|key| - 1]) by {
      assert key[0] == k[0] && key[|key| - 1] == a[|a| - 1];
    }
    StripKeepsUnpadded(key);
    StripKeepsUnpadded(b + "'");
    assert (b + "'")[0] == b[0];
  }

  /** As written, a LIKE test comes before the `=` test and looks at the whole clause, so an
      equality whose quoted value holds ` like ` is read as a LIKE condition on a key made of
      everything before it. */
  lemma {:induction false} LikeInsideEqualsValue(style: WhereStyle, k: string, a: string, b: string)
    requires IsWord(k) && IsWord(a) && IsWord(b)
    ensures Where(style, k + " = '" + a + " LIKE " + b + "'") == (map[Lower(k + " = '" + a) := VStr(b + "'")], Like)
  {
    LikeInsideSplit(k, a, b);
    LikeInsideParts(k, a, b);
    WhereOfLike(style, k + " = '" + a + " LIKE " + b + "'", k + " = '" + a, b + "'");
  }

  // ---------------------------------------------------------------------------------------
  // JOIN ... ON (parser/sql_parser.py:88-100)

  /** One side of ON: stripped, the part after its last dot, lower-cased; a possibly qualified
      column name, unqualified. */
  function OnColumn(side: string): string
  {
    Lower(AfterLast(Strip(side), '.'))
  }

  /** The ON text read into the two column names, when it has exactly one `=`. */
  function OnColumns(on: string): (r: Option<(string, string)>)
    ensures r.Some? <==> |SplitOn(on, '=')| == 2
  {
    var parts := SplitOn(on, '=');
    if |parts| == 2 then Some((OnColumn(parts[0]), OnColumn(parts[1]))) else None
  }

  /** A qualified column keeps only its last part: `t.c` gives `c`. */
  lemma {:induction false} QualifiedColumn(t: string, c: string)
    requires '.' !in c && c != [] && !IsSpace(c[0]) && !IsSpace(c[|c| - 1])
    requires t != [] && !IsSpace(t[0])
    ensures OnColumn(t + "." + c) == Lower(c)
  {
    var s := t + "." + c;
    StripKeepsUnpadded(s);
    AfterLastSuffix(t, c, '.');
  }

  lemma {:induction false} AfterLastSuffix(t: string, c: string, d: char)
    requires d !in c
    ensures AfterLast(t + [d] + c, d) == c
    decreases |t|
  {
    var s := t + [d] + c;
    var i := IndexOf(s, d);
    assert s[|t|] == d;
    if i == |t| {
      assert s[i + 1..] == c;
      assert IndexOf(c, d) == |c|;
      assert SplitOn(c, d) == [c];
      assert SplitOn(s, d) == [s[..i]] + SplitOn(c, d);
    } else {
      assert i < |t|;
      assert s[i + 1..] == t[i + 1..] + [d] + c;
      AfterLastSuffix(t[i + 1..], c, d);
      assert SplitOn(s, d) == [s[..i]] + SplitOn(s[i + 1..], d);
    }
  }

  // ---------------------------------------------------------------------------------------
  // Column definitions (parser/sql_parser.py:413-434)

  lemma {:induction false} TokensOfUnpadded(s: string)
    requires s != [] && !IsSpace(s[0])
    ensures Tokens(s) != [] && Tokens(s)[0] == s[..TokenEnd(s, 0)]
  {
    assert SpaceEnd(s, 0) == 0;
  }

  /** `_parse_column_definition(d)` for a definition that is not blank: the name is the first
      word, lower-cased; the type the second, upper-cased, or TEXT; `PRIMARY KEY` anywhere makes
      the column the primary key and not nullable, `UNIQUE` anywhere makes it unique and
      `NOT NULL` anywhere makes it not nullable. */
  function ColumnDefinition(d: string): (c: Column)
    requires Strip(d) != []
    ensures c.name != [] && c.dataType != []
    ensures c.isPrimary ==> !c.nullable
  {
    var def := Strip(d);
    TokensOfUnpadded(def);
    var parts := Tokens(def);
    var u := Upper(def);
    var primary := Contains(u, "PRIMARY KEY");
    Column(Lower(parts[0]), if |parts| > 1 then Upper(parts[1]) else TEXT,
           primary, Contains(u, "UNIQUE"), !primary && !Contains(u, "NOT NULL"))
  }
}
