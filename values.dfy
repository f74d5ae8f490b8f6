/**
 * The value domain of the table engine: what a cell of a row can hold, Python's `==` on those
 * values (used by WHERE `=`, the UNIQUE check and the join probe) and Python's `str()` on them
 * (used by the equality index to key its buckets).
 */
module Values {

  /** A cell value. `VFloat` is an opaque float identified by its literal text; `VDate` is a
      native datetime object identified by its `str()` form. */
  datatype Value =
    | VNull
    | VInt(i: int)
    | VBool(b: bool)
    | VStr(s: string)
    | VFloat(literal: string)
    | VDate(text: string)

  /** A row maps column names to values; a column absent from the map is absent from the row. */
  type Row = map<string, Value>

  /** `isinstance(v, int)`: Python's `bool` is a subclass of `int`. */
  predicate IsInt(v: Value)
  {
    v.VInt? || v.VBool?
  }

  /** The integer a Python int or bool stands for (`True == 1`, `False == 0`). */
  function IntOf(v: Value): int
    requires IsInt(v)
  {
    if v.VBool? then (if v.b then 1 else 0) else v.i
  }

  /** Python `a == b` on the value domain. */
  predicate PyEq(a: Value, b: Value)
  {
    if IsInt(a) && IsInt(b) then IntOf(a) == IntOf(b)
    else match (a, b)
      case (VNull, VNull) => true
      case (VStr(x), VStr(y)) => x == y
      case (VFloat(x), VFloat(y)) => x == y
      case (VDate(x), VDate(y)) => x == y
      case _ => false
  }

  /** `row.get(key)`: a missing key reads as `None`. */
  function Get(row: Row, key: string): (v: Value)
    ensures key !in row ==> v == VNull
    ensures key in row ==> v == row[key]
  {
    if key in row then row[key] else VNull
  }

  function DigitChar(d: nat): char
    requires d < 10
  {
    "0123456789"[d]
  }

  /** Decimal digits of a natural number, most significant first, no leading zeros. */
  function NatToString(n: nat): (s: string)
    ensures |s| >= 1
    ensures (|s| == 1) == (n < 10)
    ensures forall k :: 0 <= k < |s| ==> '0' <= s[k] <= '9'
    decreases n
  {
    if n < 10 then [DigitChar(n)] else NatToString(n / 10) + [DigitChar(n % 10)]
  }

  /** `str(i)` for a Python int. */
  function IntToString(i: int): string
  {
    if i < 0 then "-" + NatToString(-i) else NatToString(i)
  }

  /** `str(v)`: the key under which the index files a value. */
  function ToKey(v: Value): string
  {
    match v
    case VNull => "None"
    case VInt(i) => IntToString(i)
    case VBool(b) => if b then "True" else "False"
    case VStr(s) => s
    case VFloat(lit) => lit
    case VDate(t) => t
  }

  /** Python `==` is an equivalence relation on the value domain. */
  lemma {:induction false} PyEqIsEquivalence(a: Value, b: Value, c: Value)
    ensures PyEq(a, a)
    ensures PyEq(a, b) ==> PyEq(b, a)
    ensures PyEq(a, b) && PyEq(b, c) ==> PyEq(a, c)
  {
  }

  lemma {:induction false} NatToStringInjective(m: nat, n: nat)
    requires NatToString(m) == NatToString(n)
    ensures m == n
    decreases m
  {
    var s := NatToString(m);
    if m >= 10 && n >= 10 {
      var pm, pn := NatToString(m / 10), NatToString(n / 10);
      assert s == pm + [DigitChar(m % 10)] == pn + [DigitChar(n % 10)];
      assert pm == s[..|s| - 1] == pn;
      NatToStringInjective(m / 10, n / 10);
      assert DigitChar(m % 10) == s[|s| - 1] == DigitChar(n % 10);
    } else {
      assert DigitChar(m) == s[0] == DigitChar(n);
    }
  }

  /** Two integers share an index key exactly when they are the same integer. */
  lemma {:induction false} IntKeyInjective(i: int, j: int)
    ensures ToKey(VInt(i)) == ToKey(VInt(j)) <==> i == j
  {
    var si, sj := IntToString(i), IntToString(j);
    if si == sj {
      assert (i < 0) == (j < 0) by {
        assert si[0] == sj[0];
        assert i < 0 ==> si[0] == '-';
        assert j < 0 ==> sj[0] == '-';
        assert i >= 0 ==> si[0] != '-';
        assert j >= 0 ==> sj[0] != '-';
      }
      if i < 0 {
        assert NatToString(-i) == si[1..] == sj[1..] == NatToString(-j);
        NatToStringInjective(-i, -j);
      } else {
        NatToStringInjective(i, j);
      }
    }
  }

  /** Keying by `str()` conflates values that `==` tells apart: the int 1 and the string "1". */
  lemma {:induction false} KeyConflatesIntAndString()
    ensures !PyEq(VInt(1), VStr("1"))
    ensures ToKey(VInt(1)) == ToKey(VStr("1"))
  {
    assert NatToString(1) == "1";
  }

  /** ... and separates values that `==` identifies: `True == 1` but `str(True) != str(1)`. */
  lemma {:induction false} KeySeparatesBoolAndInt()
    ensures PyEq(VBool(true), VInt(1))
    ensures ToKey(VBool(true)) != ToKey(VInt(1))
  {
    assert NatToString(1) == "1";
  }
}
