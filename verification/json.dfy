/** JavaScript values as the API returns them and as the UI state holds them, with
    the language's own readings of them: truthiness, `??`, `||`, property reads,
    `String(v)`, `Number(v)` and `new Date(v)`. */
module Json {
  import opened Wrappers
  import opened Text

  /** A JSON value. Numbers are integers: fractional numbers are not modelled. */
  datatype Json =
    | JNull
    | JBool(b: bool)
    | JNum(n: int)
    | JStr(s: string)
    | JArr(items: seq<Json>)
    | JObj(fields: map<string, Json>)

  /** A JavaScript value that may be `undefined` (None). */
  type Val = Option<Json>

  /** JavaScript truthiness: `undefined`, `null`, `false`, `0` and `""` are falsy. */
  predicate Truthy(v: Val) {
    match v
    case None => false
    case Some(j) =>
      match j
      case JNull => false
      case JBool(b) => b
      case JNum(n) => n != 0
      case JStr(s) => s != ""
      case JArr(_) => true
      case JObj(_) => true
  }

  /** `undefined` or `null`, the values `??` and `?.` skip. */
  predicate Nullish(v: Val) {
    v == None || v == Some(JNull)
  }

  /** `a ?? b` */
  function Coalesce(a: Val, b: Val): Val {
    if Nullish(a) then b else a
  }

  /** `a || b` */
  function Or(a: Val, b: Val): Val {
    if Truthy(a) then a else b
  }

  /** `v?.key`, and `v.key` on any value but `null`/`undefined`: the field of an
      object, `undefined` for everything else. */
  function Get(v: Val, key: string): Val {
    if v.Some? && v.value.JObj? && key in v.value.fields then Some(v.value.fields[key]) else None
  }

  /** `a || fallback` where the fallback is a defined value. */
  function OrDefault(a: Val, fallback: Json): Json {
    if Truthy(a) then a.value else fallback
  }

  /** `Array.isArray(v)` */
  predicate IsArray(v: Val) {
    v.Some? && v.value.JArr?
  }

  /** The elements of `v` when it is an array, otherwise the empty sequence. */
  function ArrayOr(v: Val): seq<Json> {
    if IsArray(v) then v.value.items else []
  }

  function DigitChar(d: nat): char
    requires d < 10
  {
    ('0' as int + d) as char
  }

  function DigitValue(c: char): nat
    requires IsDigit(c)
  {
    c as int - '0' as int
  }

  /** The decimal rendering of a natural number. */
  function NatToString(n: nat): string
    decreases n
  {
    if n < 10 then [DigitChar(n)] else NatToString(n / 10) + [DigitChar(n % 10)]
  }

  /** `String(n)` for an integer (no exponent form: integers past 10^21 are not modelled). */
  function IntToString(n: int): string {
    if n < 0 then "-" + NatToString(-n) else NatToString(n)
  }

  predicate AllDigits(s: string) {
    forall i :: 0 <= i < |s| ==> IsDigit(s[i])
  }

  /** The value of a string of decimal digits. */
  function DigitsValue(s: string): nat
    requires AllDigits(s)
  {
    if |s| == 0 then 0 else 10 * DigitsValue(s[..|s| - 1]) + DigitValue(s[|s| - 1])
  }

  lemma {:induction false} NatToStringDigits(n: nat)
    ensures |NatToString(n)| > 0
    ensures AllDigits(NatToString(n))
    ensures DigitsValue(NatToString(n)) == n
    decreases n
  {
    var s := NatToString(n);
    if n >= 10 {
      NatToStringDigits(n / 10);
      assert s[..|s| - 1] == NatToString(n / 10);
    }
  }

  /** `Number(s)` for a string: surrounding whitespace is ignored, the empty string is 0,
      an optionally signed run of decimal digits is its value, anything else is NaN (None). */
  function StringToNumber(s: string): Option<int> {
    var t := Trim(s);
    if t == "" then Some(0)
    else if t[0] == '-' || t[0] == '+' then
      if |t| > 1 && AllDigits(t[1..]) then
        Some(if t[0] == '-' then -(DigitsValue(t[1..]) as int) else DigitsValue(t[1..]))
      else None
    else if AllDigits(t) then Some(DigitsValue(t))
    else None
  }

  /** Reading back the decimal rendering of an integer gives the integer. */
  lemma NumberOfIntToString(n: int)
    ensures StringToNumber(IntToString(n)) == Some(n)
  {
    var s := IntToString(n);
    var d := NatToString(if n < 0 then -n else n);
    NatToStringDigits(if n < 0 then -n else n);
    assert s[0] == '-' || IsDigit(s[0]);
    assert IsDigit(s[|s| - 1]);
    assert TrimStart(s) == s;
    assert Trim(s) == s;
    if n < 0 {
      assert s[1..] == d;
    }
  }

  /** `String(v)` and template-literal interpolation. */
  function ToJsString(v: Val): string {
    match v
    case None => "undefined"
    case Some(j) => Str(j)
  }

  function Str(j: Json): string
    decreases j, 1
  {
    match j
    case JNull => "null"
    case JBool(b) => if b then "true" else "false"
    case JNum(n) => IntToString(n)
    case JStr(s) => s
    case JArr(items) => JoinItems(items)
    case JObj(_) => "[object Object]"
  }

  /** `items.join(",")`, where `null` elements print as the empty string. */
  function JoinItems(items: seq<Json>): string
    decreases items, 0
  {
    if |items| == 0 then ""
    else
      var head := if items[0] == JNull then "" else Str(items[0]);
      if |items| == 1 then head else head + "," + JoinItems(items[1..])
  }

  /** `Number(v)`; None stands for NaN. */
  function ToNumber(v: Val): Option<int> {
    match v
    case None => None
    case Some(j) =>
      match j
      case JNull => Some(0)
      case JBool(b) => Some(if b then 1 else 0)
      case JNum(n) => Some(n)
      case JStr(s) => StringToNumber(s)
      case JArr(_) => StringToNumber(Str(j))
      case JObj(_) => StringToNumber(Str(j))
  }

  /** `Number(v) || 0`: NaN counts as 0. */
  function NumberOrZero(v: Val): int {
    ToNumber(v).GetOr(0)
  }

  /** `v[i]` on an array, a string (one character, indexed per code point) or an object
      (the field named by the index); `undefined` out of range and on every other value. */
  function Index(v: Val, i: nat): Val {
    match v
    case Some(JArr(items)) => if i < |items| then Some(items[i]) else None
    case Some(JStr(s)) => if i < |s| then Some(JStr([s[i]])) else None
    case Some(JObj(f)) => if IntToString(i) in f then Some(f[IntToString(i)]) else None
    case _ => None
  }

  /** The largest time value a JavaScript Date can hold, in milliseconds. */
  const MaxTime: int := 8_640_000_000_000_000

  /** Date's TimeClip: out-of-range time values make an Invalid Date (None). */
  function TimeClip(t: int): Option<int> {
    if -MaxTime <= t <= MaxTime then Some(t) else None
  }

  /** The time value of `new Date(j)` in milliseconds, or None for an Invalid Date.
      String parsing is the parameter `parse` (the engine's `Date.parse`); arrays and
      objects are first converted to strings. */
  function DateValue(j: Json, parse: string -> Option<int>): Option<int> {
    var t :=
      match j
      case JNull => Some(0)
      case JBool(b) => Some(if b then 1 else 0)
      case JNum(n) => Some(n)
      case JStr(s) => parse(s)
      case JArr(_) => parse(Str(j))
      case JObj(_) => parse(Str(j));
    if t.Some? then TimeClip(t.value) else None
  }

  /** The dashboard's `coerceDate`: a falsy value and an Invalid Date both give null. */
  function CoerceDate(v: Val, parse: string -> Option<int>): Option<int> {
    if Truthy(v) then DateValue(v.value, parse) else None
  }
}
