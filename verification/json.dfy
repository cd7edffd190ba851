/** JavaScript values as the controllers see them: the rows handed back by the
    store, request payloads, and the bodies of JSON responses. Only the parts of
    JavaScript semantics the controllers rely on are modelled: truthiness,
    property access and object spread. */
module Json {
  import opened Wrappers

  /** A JavaScript value. Numbers are integers (no floating point, no NaN). */
  datatype Value =
    | Undefined
    | Null
    | Bool(b: bool)
    | Num(n: int)
    | Str(s: string)
    | Arr(items: seq<Value>)
    | Obj(fields: map<string, Value>)

  /** A plain object's own enumerable properties. */
  type Record = map<string, Value>

  /** Reading `r.key` from an object: a missing property reads as `undefined`. */
  function Get(r: Record, key: string): Value
  {
    if key in r then r[key] else Undefined
  }

  /** JavaScript truthiness: `undefined`, `null`, `false`, `0` and `""` are falsy,
      every object and array is truthy. */
  predicate Truthy(v: Value)
  {
    match v
    case Undefined => false
    case Null => false
    case Bool(b) => b
    case Num(n) => n != 0
    case Str(s) => s != ""
    case Arr(_) => true
    case Obj(_) => true
  }

  /** The message a JavaScript engine gives when reading a property of
      `undefined` or `null`. */
  function ReadError(of: string, key: string): string
  {
    "Cannot read properties of " + of + " (reading '" + key + "')"
  }

  /** Property access `v.key`: throws on `undefined` and `null`, reads own
      properties of objects, and yields `undefined` for any other value
      (prototype properties such as `length` are not modelled). */
  function Member(v: Value, key: string): (r: Result<Value>)
    ensures r.Err? <==> v.Undefined? || v.Null?
    ensures v.Obj? ==> r == Ok(Get(v.fields, key))
    ensures !v.Obj? && r.Ok? ==> r.value == Undefined
  {
    match v
    case Undefined => Err(ReadError("undefined", key))
    case Null => Err(ReadError("null", key))
    case Obj(fields) => Ok(Get(fields, key))
    case _ => Ok(Undefined)
  }

  function DigitChar(d: nat): char
    requires d < 10
  {
    "0123456789"[d]
  }

  /** Decimal text of a natural number, the property key JavaScript uses for an index. */
  function Digits(n: nat): (s: string)
    ensures |s| > 0
    ensures n >= 10 ==> |s| > 1
  {
    if n < 10 then [DigitChar(n)] else Digits(n / 10) + [DigitChar(n % 10)]
  }

  /** Distinct indices have distinct keys, so no index entry overwrites another. */
  lemma {:induction false} DigitsInjective(a: nat, b: nat)
    requires Digits(a) == Digits(b)
    ensures a == b
  {
    if a >= 10 && b >= 10 {
      var da, db := Digits(a), Digits(b);
      assert da[|da| - 1] == DigitChar(a % 10) && db[|db| - 1] == DigitChar(b % 10);
      assert a % 10 == b % 10;
      assert Digits(a / 10) == da[..|da| - 1] == db[..|db| - 1] == Digits(b / 10);
      DigitsInjective(a / 10, b / 10);
    } else if a < 10 && b < 10 {
      assert Digits(a)[0] == Digits(b)[0];
    }
  }

  /** The index keys `"0"`, `"1"`, ... of a sequence of length `n`. */
  ghost function IndexKeys(n: nat): set<string>
  {
    set i | 0 <= i < n :: Digits(i)
  }

  /** The entries an array spreads into an object: one per index. */
  function IndexEntries(items: seq<Value>): (m: Record)
    ensures m.Keys == IndexKeys(|items|)
    ensures forall i :: 0 <= i < |items| ==> Digits(i) in m && m[Digits(i)] == items[i]
  {
    assert forall i, j :: 0 <= i < |items| && 0 <= j < |items| && Digits(i) == Digits(j) ==> i == j by {
      forall i, j | 0 <= i < |items| && 0 <= j < |items| && Digits(i) == Digits(j)
        ensures i == j
      {
        DigitsInjective(i, j);
      }
    }
    map i | 0 <= i < |items| :: Digits(i) := items[i]
  }

  /** The one-character strings of `s`, which is what spreading a string enumerates. */
  function Chars(s: string): (cs: seq<Value>)
    ensures |cs| == |s|
    ensures forall i :: 0 <= i < |s| ==> cs[i] == Str([s[i]])
  {
    seq(|s|, i requires 0 <= i < |s| => Str([s[i]]))
  }

  /** The entries `{...v}` contributes to an object literal: an object's own
      properties, an array's or a string's indices, and nothing for
      `undefined`, `null`, booleans and numbers. */
  function Spread(v: Value): (m: Record)
    ensures v.Obj? ==> m == v.fields
    ensures v.Arr? ==> m.Keys == IndexKeys(|v.items|)
    ensures v.Arr? ==> forall i :: 0 <= i < |v.items| ==> Digits(i) in m && m[Digits(i)] == v.items[i]
    ensures v.Str? ==> m.Keys == IndexKeys(|v.s|)
    ensures v.Str? ==> forall i :: 0 <= i < |v.s| ==> Digits(i) in m && m[Digits(i)] == Str([v.s[i]])
    ensures !v.Obj? && !v.Arr? && !v.Str? ==> m == map[]
  {
    match v
    case Obj(fields) => fields
    case Arr(items) => IndexEntries(items)
    case Str(s) => IndexEntries(Chars(s))
    case _ => map[]
  }
}
