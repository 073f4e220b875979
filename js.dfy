/** The JavaScript values the records of the store and the page state hold,
    and the language rules the source leans on: truthiness, `===`, the
    SameValueZero equality of `includes` and `Set`, `String(v)`,
    `Number(v)`, relational comparison against a number, and property
    access. Numbers are integers; `NaN` is its own value. */
module Js {
  import opened Wrappers
  import opened Text
  import Seqs

  datatype Value =
    | Undefined
    | Null
    | Bool(b: bool)
    | Num(n: int)
    | NaN
    | Str(s: string)
    | Arr(elems: seq<Value>)
    | Obj(fields: map<string, Value>)

  /** A plain object: a document's data, a form, a filter object. */
  type Record = map<string, Value>

  /** `r[k]`, where a missing key reads as `undefined`. */
  function Get(r: Record, k: string): Value
  {
    if k in r then r[k] else Undefined
  }

  /** `Boolean(v)`: the falsy values are undefined, null, false, 0, NaN and "". */
  predicate Truthy(v: Value)
  {
    match v
    case Undefined => false
    case Null => false
    case Bool(b) => b
    case Num(n) => n != 0
    case NaN => false
    case Str(s) => s != []
    case Arr(_) => true
    case Obj(_) => true
  }

  predicate IsNullish(v: Value)
  {
    v == Undefined || v == Null
  }

  /** `a === b`. Primitives compare by value and `NaN` equals nothing. Arrays
      and objects compare by reference; two values of the model never share
      a reference, so they are never strictly equal. */
  predicate StrictEquals(a: Value, b: Value)
  {
    match (a, b)
    case (Undefined, Undefined) => true
    case (Null, Null) => true
    case (Bool(x), Bool(y)) => x == y
    case (Num(x), Num(y)) => x == y
    case (Str(x), Str(y)) => x == y
    case _ => false
  }

  /** SameValueZero, the equality of `Array.prototype.includes` and `Set`:
      `===` except that `NaN` equals `NaN`. */
  predicate SameValueZero(a: Value, b: Value)
  {
    StrictEquals(a, b) || (a == NaN && b == NaN)
  }

  /** Values alike by SameValueZero are equal values of the model. */
  lemma SameValueZeroIsEquality(a: Value, b: Value)
    ensures SameValueZero(a, b) ==> a == b
  {
  }

  /** `===` against a string is equality with a string value. */
  lemma StrictEqualsString(v: Value, s: string)
    ensures StrictEquals(v, Str(s)) <==> v == Str(s)
    ensures SameValueZero(v, Str(s)) <==> v == Str(s)
  {
  }

  /** `String(v)`, also what a template literal writes for `${v}`. */
  function ToStr(v: Value): string
    decreases v
  {
    match v
    case Undefined => "undefined"
    case Null => "null"
    case Bool(b) => if b then "true" else "false"
    case Num(n) => IntToString(n)
    case NaN => "NaN"
    case Str(s) => s
    case Arr(_) => JoinElems(v, 0, ",")
    case Obj(_) => "[object Object]"
  }

  /** `a.slice(from).join(sep)` for the array `a`: `undefined` and `null`
      elements are written as empty text. */
  function JoinElems(a: Value, from: nat, sep: string): string
    requires a.Arr? && from <= |a.elems|
    decreases a, |a.elems| - from
  {
    if from == |a.elems| then []
    else
      var e := a.elems[from];
      var t := if IsNullish(e) then [] else ToStr(e);
      if from + 1 == |a.elems| then t else t + sep + JoinElems(a, from + 1, sep)
  }

  /** Joining an array of strings is joining the strings. */
  lemma {:induction false} JoinElemsStrings(a: Value, from: nat, sep: string, parts: seq<string>)
    requires a.Arr? && from <= |a.elems|
    requires |parts| == |a.elems| - from
    requires forall i :: 0 <= i < |parts| ==> a.elems[from + i] == Str(parts[i])
    decreases |a.elems| - from
    ensures JoinElems(a, from, sep) == Join(parts, sep)
  {
    if from < |a.elems| {
      var e := a.elems[from];
      assert e == Str(parts[0]);
      var t := if IsNullish(e) then [] else ToStr(e);
      assert t == parts[0];
      if from + 1 < |a.elems| {
        JoinElemsStrings(a, from + 1, sep, parts[1..]);
        assert JoinElems(a, from, sep) == t + sep + JoinElems(a, from + 1, sep);
        assert Join(parts, sep) == parts[0] + sep + Join(parts[1..], sep);
      } else {
        assert JoinElems(a, from, sep) == t;
        assert Join(parts, sep) == parts[0];
      }
    }
  }

  predicate AllDigits(s: string)
  {
    forall i :: 0 <= i < |s| ==> IsDigit(s[i])
  }

  /** `Number(s)` for a string: surrounding white space is ignored, blank
      text is 0, an optionally signed run of decimal digits is its value,
      anything else is `NaN`. */
  function StringToNumber(s: string): (r: Value)
    ensures r.Num? || r == NaN
  {
    var t := Trim(s);
    if t == [] then Num(0)
    else if t[0] == '-' && |t| > 1 && AllDigits(t[1..]) then Num(-(DigitsValue(t[1..]) as int))
    else if t[0] == '+' && |t| > 1 && AllDigits(t[1..]) then Num(DigitsValue(t[1..]))
    else if AllDigits(t) then Num(DigitsValue(t))
    else NaN
  }

  /** `Number(v)`. */
  function ToNumber(v: Value): (r: Value)
    ensures r.Num? || r == NaN
  {
    match v
    case Undefined => NaN
    case Null => Num(0)
    case Bool(b) => Num(if b then 1 else 0)
    case Num(_) => v
    case NaN => NaN
    case Str(s) => StringToNumber(s)
    case Arr(_) => StringToNumber(ToStr(v))
    case Obj(_) => NaN
  }

  /** The decimal text of an integer reads back as that integer. */
  lemma NumberOfIntText(n: int)
    ensures ToNumber(Str(IntToString(n))) == Num(n)
  {
    var t := IntToString(n);
    NumberOfText(t);
    NumberOfIntString(n);
  }

  lemma NumberOfText(t: string)
    ensures ToNumber(Str(t)) == StringToNumber(t)
  {
  }

  lemma NumberOfIntString(n: int)
    ensures StringToNumber(IntToString(n)) == Num(n)
  {
    if n < 0 {
      var m: nat := -n;
      assert IntToString(n) == "-" + NatToString(m);
      NumberOfNegativeText(m);
    } else {
      assert IntToString(n) == NatToString(n);
      NumberOfNatText(n);
    }
  }

  lemma NumberOfNatText(n: nat)
    ensures StringToNumber(NatToString(n)) == Num(n)
  {
    NatToStringRoundTrip(n);
    NumberOfDigits(NatToString(n));
  }

  lemma NumberOfDigits(d: string)
    requires d != [] && AllDigits(d)
    ensures StringToNumber(d) == Num(DigitsValue(d))
  {
    DigitsNotWhiteSpace(d);
    TrimOfTrimmed(d);
    assert d[0] != '-' && d[0] != '+';
  }

  lemma NumberOfNegativeText(m: nat)
    requires m > 0
    ensures StringToNumber("-" + NatToString(m)) == Num(-(m as int))
  {
    var d := NatToString(m);
    NatToStringRoundTrip(m);
    var t := "-" + d;
    TrimOfSignedDigits(d);
    assert t[0] == '-' && t[1..] == d && AllDigits(d);
    assert StringToNumber(t) == Num(-(DigitsValue(d) as int));
  }

  lemma TrimOfSignedDigits(d: string)
    requires d != [] && AllDigits(d)
    ensures Trim("-" + d) == "-" + d
  {
    DigitsNotWhiteSpace(d);
    var t := "-" + d;
    assert t[|t| - 1] == d[|d| - 1];
    TrimOfTrimmed(t);
  }

  lemma DigitsNotWhiteSpace(d: string)
    requires forall i :: 0 <= i < |d| ==> IsDigit(d[i])
    ensures forall i :: 0 <= i < |d| ==> !IsWhiteSpace(d[i])
  {
  }

  /** The number a relational comparison with a number sees in `v`, or
      `None` when that is `NaN` (and every comparison is false). */
  function Numeric(v: Value): (r: Option<int>)
    ensures r.Some? <==> ToNumber(v).Num?
    ensures r.Some? ==> ToNumber(v) == Num(r.value)
  {
    match ToNumber(v)
    case Num(n) => Some(n)
    case _ => None
  }

  /** `v >= x` for a number `x`. */
  predicate AtLeast(v: Value, x: int)
  {
    Numeric(v).Some? && Numeric(v).value >= x
  }

  /** `v <= x` for a number `x`. */
  predicate AtMost(v: Value, x: int)
  {
    Numeric(v).Some? && Numeric(v).value <= x
  }

  /** `v < x` for a number `x`. */
  predicate Below(v: Value, x: int)
  {
    Numeric(v).Some? && Numeric(v).value < x
  }

  /** `v > x` for a number `x`. */
  predicate Above(v: Value, x: int)
  {
    Numeric(v).Some? && Numeric(v).value > x
  }

  /** Every comparison with `undefined` is false: it converts to `NaN`. */
  lemma UndefinedComparesFalse(x: int)
    ensures !AtLeast(Undefined, x) && !AtMost(Undefined, x) && !Below(Undefined, x) && !Above(Undefined, x)
  {
  }

  /** `container.includes(x)`: membership by SameValueZero for an array,
      substring search on the text of `x` for a string. Other receivers
      have no `includes` method; they never match in this model. */
  predicate Includes(container: Value, x: Value)
  {
    match container
    case Arr(es) => exists i :: 0 <= i < |es| && SameValueZero(es[i], x)
    case Str(s) => Contains(s, ToStr(x))
    case _ => false
  }

  /** An array includes a string exactly when the string is one of its
      elements. */
  lemma IncludesString(es: seq<Value>, t: string)
    ensures Includes(Arr(es), Str(t)) <==> Str(t) in es
  {
    forall i | 0 <= i < |es| ensures SameValueZero(es[i], Str(t)) <==> es[i] == Str(t) {
      StrictEqualsString(es[i], t);
    }
  }

  /** `v?.toLowerCase().includes(term)`: only a string field can match;
      a missing field short-circuits to `undefined`. */
  predicate LowerIncludes(v: Value, term: string)
  {
    v.Str? && Contains(Lower(v.s), term)
  }

  /** `v.length` for a string or an array. */
  function Length(v: Value): Option<nat>
  {
    match v
    case Str(s) => Some(|s|)
    case Arr(es) => Some(|es|)
    case _ => None
  }

  /** `v[key]` as a property read: reading from `undefined` or `null` throws
      a TypeError, reading a key an object lacks gives `undefined`. */
  function Prop(v: Value, key: string): (r: Result<Value>)
    ensures r.Failure? <==> IsNullish(v)
    ensures v.Obj? ==> r == Success(Get(v.fields, key))
  {
    match v
    case Undefined => Failure("Cannot read properties of undefined (reading '" + key + "')")
    case Null => Failure("Cannot read properties of null (reading '" + key + "')")
    case Obj(m) => Success(Get(m, key))
    case Str(s) => Success(if key == "length" then Num(|s|) else Undefined)
    case Arr(es) => Success(if key == "length" then Num(|es|) else Undefined)
    case _ => Success(Undefined)
  }

  /** `v?.[key]`: optional chaining stops at `undefined` or `null`. */
  function OptProp(v: Value, key: string): (r: Value)
    ensures IsNullish(v) ==> r == Undefined
    ensures !IsNullish(v) ==> Prop(v, key) == Success(r)
  {
    if IsNullish(v) then Undefined else Prop(v, key).value
  }

  /** The own properties `{...v}` copies: an object's fields; nothing for
      `undefined`, `null` and the other primitives. */
  function Spread(v: Value): Record
  {
    if v.Obj? then v.fields else map[]
  }

  /** `[...s]` for a string: one single-character string per character. */
  function Characters(s: string): (r: seq<Value>)
    ensures |r| == |s|
    ensures forall i :: 0 <= i < |s| ==> r[i] == Str([s[i]])
  {
    seq(|s|, i requires 0 <= i < |s| => Str([s[i]]))
  }

  /** The largest distance from the epoch, in milliseconds, a `Date` can
      hold. */
  const MAX_TIME: int := 8_640_000_000_000_000

  /** `new Date(v).getTime()` for the values the model stores as dates: a
      number of milliseconds within the representable range, `null` as the
      epoch, a boolean as 0 or 1. Anything else is an invalid date (date
      text is not parsed in this model). */
  function TimeOf(v: Value): (r: Option<int>)
    ensures r.Some? ==> -MAX_TIME <= r.value <= MAX_TIME
    ensures v.Num? && -MAX_TIME <= v.n <= MAX_TIME ==> r == Some(v.n)
    ensures v == Undefined || v == NaN ==> r.None?
  {
    match v
    case Num(n) => if -MAX_TIME <= n <= MAX_TIME then Some(n) else None
    case Null => Some(0)
    case Bool(b) => Some(if b then 1 else 0)
    case _ => None
  }

  /** `[...new Set(values)]`: the distinct values in order of first
      occurrence, by SameValueZero. */
  function Unique(values: seq<Value>): (r: seq<Value>)
  {
    Seqs.Distinct(values, SameValueZero)
  }

  /** `records.map(r => r[name])`. */
  function Field(products: seq<Record>, name: string): (r: seq<Value>)
    ensures |r| == |products|
    ensures forall i :: 0 <= i < |r| ==> r[i] == Get(products[i], name)
  {
    seq(|products|, i requires 0 <= i < |products| => Get(products[i], name))
  }

  /** The distinct values are drawn from the input in order, hold no two
      alike, and include every input value. */
  lemma UniqueProperties(values: seq<Value>, i: int)
    requires 0 <= i < |values|
    ensures Seqs.IsSubsequence(Unique(values), values)
    ensures Seqs.PairwiseDistinct(Unique(values), SameValueZero)
    ensures values[i] in Unique(values)
  {
    var u := Unique(values);
    Seqs.DistinctProperties(values, SameValueZero);
    assert !Seqs.SeenBefore(values[i], [], SameValueZero);
    assert values[i] in u || Seqs.SeenBefore(values[i], u, SameValueZero);
    if Seqs.SeenBefore(values[i], u, SameValueZero) {
      var k :| 0 <= k < |u| && SameValueZero(values[i], u[k]);
      SameValueZeroIsEquality(values[i], u[k]);
    }
  }
}
