/** The values the table engine works on: decoded JSON records, plus the `undefined`
    that a missing key yields, with the JavaScript conversions the engine relies on. */
module JsonValues {
  import opened Text

  /** A JavaScript value as the engine sees it. Object fields keep their insertion
      order, which decides column order. `Undefined` never comes out of the JSON
      decoder; it is what a lookup of a missing key produces. */
  datatype Json =
    | Undefined
    | Null
    | Bool(b: bool)
    | Num(n: int)
    | Str(s: string)
    | Arr(items: seq<Json>)
    | Obj(fields: seq<Field>)

  datatype Field = Field(key: string, value: Json)

  /** `typeof v` is "string", "number" or "boolean". */
  predicate IsPrimitive(v: Json)
  {
    v.Str? || v.Num? || v.Bool?
  }

  /** `isPrimitiveArray(v)`: an array all of whose elements are primitive. */
  predicate IsPrimitiveArray(v: Json)
  {
    v.Arr? && forall i :: 0 <= i < |v.items| ==> IsPrimitive(v.items[i])
  }

  /** `typeof v === "object" && v !== null`: arrays and plain objects. */
  predicate IsObjectLike(v: Json)
  {
    v.Arr? || v.Obj?
  }

  /** JavaScript truthiness. */
  predicate Truthy(v: Json)
  {
    match v
    case Undefined => false
    case Null => false
    case Bool(b) => b
    case Num(n) => n != 0
    case Str(s) => s != ""
    case Arr(_) => true
    case Obj(_) => true
  }

  function DigitChar(d: nat): char
    requires d < 10
  {
    "0123456789"[d]
  }

  /** Decimal digits of a natural number, no leading zero. */
  function NatToString(n: nat): (r: string)
    ensures |r| >= 1
  {
    if n < 10 then [DigitChar(n)] else NatToString(n / 10) + [DigitChar(n % 10)]
  }

  /** `String(n)` for an integral number. */
  function IntToString(n: int): string
  {
    if n < 0 then "-" + NatToString(-n) else NatToString(n)
  }

  /** `String(v)`; array elements that are null or undefined become "" as
      `Array.prototype.join` makes them, and nested arrays join with ",". */
  function ToText(v: Json): string
  {
    match v
    case Undefined => "undefined"
    case Null => "null"
    case Bool(b) => if b then "true" else "false"
    case Num(n) => IntToString(n)
    case Str(s) => s
    case Arr(items) =>
      Join(seq(|items|, i requires 0 <= i < |items| =>
             if items[i].Undefined? || items[i].Null? then "" else ToText(items[i])), ",")
    case Obj(_) => "[object Object]"
  }

  /** `String(v || "")`: the text of a value, empty for every falsy value. */
  function Display(v: Json): (r: string)
    ensures !Truthy(v) ==> r == ""
    ensures v.Str? ==> r == v.s
  {
    if Truthy(v) then ToText(v) else ""
  }

  predicate IsDigit(ch: char)
  {
    '0' <= ch <= '9'
  }

  function DigitsValue(s: string): nat
    requires forall i :: 0 <= i < |s| ==> IsDigit(s[i])
  {
    if s == [] then 0
    else
      var last := s[|s| - 1];
      assert IsDigit(last);
      DigitsValue(s[..|s| - 1]) * 10 + (last as int - '0' as int)
  }

  /** The array index a property key denotes: a canonical decimal numeral. */
  function ArrayIndex(key: string): Option<nat>
  {
    if |key| >= 1 && (forall i :: 0 <= i < |key| ==> IsDigit(key[i])) && (|key| == 1 || key[0] != '0')
    then Some(DigitsValue(key))
    else None
  }

  datatype Option<+T> = None | Some(value: T)

  /** Position of the first field named `key`, or `|fields|` when there is none: the
      field lookup of `obj?.[key]` (server.js:144), over a record's fields. */
  function FieldIndex(fields: seq<Field>, key: string): (i: nat)
    ensures i <= |fields|
    ensures i < |fields| ==> fields[i].key == key
    ensures forall j :: 0 <= j < i ==> fields[j].key != key
  {
    if fields == [] then 0
    else if fields[0].key == key then 0
    else 1 + FieldIndex(fields[1..], key)
  }

  /** `v?.[key]`: the field of an object, the element of an array at a numeric key,
      and `undefined` for everything else. */
  function Get(v: Json, key: string): (r: Json)
    ensures v.Obj? && FieldIndex(v.fields, key) == |v.fields| ==> r == Undefined
    ensures v.Arr? && ArrayIndex(key).None? ==> r == Undefined
    ensures !IsObjectLike(v) ==> r == Undefined
  {
    match v
    case Obj(fields) =>
      var i := FieldIndex(fields, key);
      if i < |fields| then fields[i].value else Undefined
    case Arr(items) =>
      (match ArrayIndex(key)
       case Some(i) => if i < |items| then items[i] else Undefined
       case None => Undefined)
    case _ => Undefined
  }

  /** `for (const key of keys) val = val?.[key]`, starting from `v`. */
  function GetPath(v: Json, keys: seq<string>): Json
    decreases keys
  {
    if keys == [] then v else GetPath(Get(v, keys[0]), keys[1..])
  }

  /** Once a lookup path reaches `undefined` it stays there. */
  lemma {:induction false} GetPathUndefined(keys: seq<string>)
    ensures GetPath(Undefined, keys) == Undefined
    decreases |keys|
  {
    if keys != [] {
      GetPathUndefined(keys[1..]);
    }
  }

  lemma {:induction false} GetPathAppend(v: Json, a: seq<string>, b: seq<string>)
    ensures GetPath(v, a + b) == GetPath(GetPath(v, a), b)
    decreases |a|
  {
    if a == [] {
      assert a + b == b;
    } else {
      assert (a + b)[1..] == a[1..] + b;
      GetPathAppend(Get(v, a[0]), a[1..], b);
    }
  }
}
