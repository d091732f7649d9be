/**
 * The shapes of JavaScript runtime values that reach the plugin: frontmatter
 * objects, query-engine cell values and script results. Numbers are modelled
 * as integers, with NaN kept as its own case.
 */
module JsValues {
  import opened Wrappers
  import opened Strings

  datatype Value =
    | Undefined
    | Null
    | Bool(b: bool)
    | Num(n: int)
    | NaN
    | Str(s: string)
    | Arr(items: seq<Value>)
    | Obj(fields: map<string, Value>)
      /** A Luxon DateTime: its time of day and what its `toString()` yields. */
    | DateTime(hour: int, minute: int, second: int, iso: string)
      /** A query-engine Link: its target path and what its `markdown()` yields. */
    | Link(path: string, markdown: string)
    | Func

  /** JavaScript truthiness: `undefined`, `null`, `false`, `0`, `NaN` and `""` are falsy. */
  predicate Truthy(v: Value) {
    match v
    case Undefined => false
    case Null => false
    case Bool(b) => b
    case Num(n) => n != 0
    case NaN => false
    case Str(s) => s != ""
    case _ => true
  }

  /** The `typeof` operator. */
  function TypeOf(v: Value): string {
    match v
    case Undefined => "undefined"
    case Bool(_) => "boolean"
    case Num(_) => "number"
    case NaN => "number"
    case Str(_) => "string"
    case Func => "function"
    case _ => "object"
  }

  /** `checkIsLink`: a truthy object with a `markdown` method, which among these shapes is a Link. */
  function IsLink(v: Value): (r: bool)
    ensures r <==> v.Link?
  {
    Truthy(v) && TypeOf(v) == "object" && v.Link?
  }

  /** `tryToMarkdownLink`: a Link becomes its markdown text, anything else is returned as it is. */
  function TryToMarkdownLink(v: Value): (r: Value)
    ensures IsLink(v) ==> r == Str(v.markdown)
    ensures !IsLink(v) ==> r == v
    ensures !IsLink(r)
  {
    if IsLink(v) then Str(v.markdown) else v
  }

  /**
   * `arr[j] = v` on an array: within the array the element is replaced;
   * past its end the array grows, the gap holding `undefined`.
   */
  function SetElement(arr: seq<Value>, j: nat, v: Value): (r: seq<Value>)
    ensures |r| == if j < |arr| then |arr| else j + 1
    ensures r[j] == v
    ensures forall k :: 0 <= k < |arr| && k != j ==> r[k] == arr[k]
    ensures forall k :: |arr| <= k < j ==> r[k] == Undefined
  {
    if j < |arr| then arr[j := v]
    else arr + seq(j - |arr|, _ => Undefined) + [v]
  }

  function DigitChar(d: nat): char
    requires d < 10
  {
    ('0' as int + d) as char
  }

  predicate IsDigit(c: char) { '0' <= c <= '9' }

  predicate AllDigits(s: string) {
    forall k :: 0 <= k < |s| ==> IsDigit(s[k])
  }

  /** The decimal numeral of a natural number. */
  function NatToString(n: nat): (r: string)
    ensures |r| >= 1 && AllDigits(r)
  {
    if n < 10 then [DigitChar(n)] else NatToString(n / 10) + [DigitChar(n % 10)]
  }

  /** `String(n)` for an integer. */
  function IntToString(n: int): string {
    if n < 0 then "-" + NatToString(-n) else NatToString(n)
  }

  /** The value of a string of decimal digits. */
  function DigitsValue(s: string): nat
    requires AllDigits(s)
  {
    if s == [] then 0 else DigitsValue(s[..|s| - 1]) * 10 + (s[|s| - 1] as int - '0' as int)
  }

  /** `Number(s)` restricted to integers: white space is trimmed, the empty string is 0, and anything but an optionally signed decimal integer is NaN. */
  function StringToNumber(s: string): Option<int> {
    var t := Trim(s);
    if t == "" then Some(0)
    else if |t| > 1 && (t[0] == '-' || t[0] == '+') && AllDigits(t[1..]) then
      var m: int := DigitsValue(t[1..]);
      Some(if t[0] == '-' then -m else m)
    else if AllDigits(t) then Some(DigitsValue(t))
    else None
  }

  /** `Number(v)`, with `None` for NaN. Arrays other than `[]`, objects, dates, links and functions are NaN here. */
  function ToNumber(v: Value): Option<int> {
    match v
    case Undefined => None
    case Null => Some(0)
    case Bool(b) => Some(if b then 1 else 0)
    case Num(n) => Some(n)
    case NaN => None
    case Str(s) => StringToNumber(s)
    case Arr(items) => if items == [] then Some(0) else None
    case _ => None
  }

  /** The number value of an integer-or-NaN result. */
  function NumberValue(n: Option<int>): Value {
    match n
    case Some(k) => Num(k)
    case None => NaN
  }

  /** `v.toString()`; `None` where it throws (on `null` and `undefined`). */
  function ToStr(v: Value): Option<string> {
    match v
    case Undefined => None
    case Null => None
    case _ => Some(StringOf(v))
  }

  /**
   * `String(v)`: arrays join their elements with commas, printing `null` and
   * `undefined` as empty. A function stands for no particular source text, so
   * its string is the placeholder "function" rather than its source.
   */
  function StringOf(v: Value): string
    decreases v, 1
  {
    match v
    case Undefined => "undefined"
    case Null => "null"
    case Bool(b) => if b then "true" else "false"
    case Num(n) => IntToString(n)
    case NaN => "NaN"
    case Str(s) => s
    case Arr(items) => JoinItems(v, items)
    case Obj(_) => "[object Object]"
    case DateTime(_, _, _, iso) => iso
    case Link(_, md) => md
    case Func => "function"
  }

  function JoinItems(parent: Value, items: seq<Value>): string
    requires forall k :: 0 <= k < |items| ==> items[k] < parent
    decreases parent, 0, |items|
  {
    if items == [] then ""
    else
      var head := if items[0].Null? || items[0].Undefined? then "" else StringOf(items[0]);
      if |items| == 1 then head else head + "," + JoinItems(parent, items[1..])
  }

  lemma {:induction false} DigitsOfNat(n: nat)
    ensures DigitsValue(NatToString(n)) == n
  {
    var s := NatToString(n);
    if n >= 10 {
      DigitsOfNat(n / 10);
      assert s[..|s| - 1] == NatToString(n / 10);
    }
  }

  /** `Number` of a non-empty string of digits is its value. */
  lemma ReadDigits(d: string)
    requires d != [] && AllDigits(d)
    ensures StringToNumber(d) == Some(DigitsValue(d))
  {
    assert IsDigit(d[0]) && IsDigit(d[|d| - 1]);
    TrimKeeps(d);
  }

  /** `Number` of a minus sign followed by a non-empty string of digits is minus its value. */
  lemma ReadNegativeDigits(d: string)
    requires d != [] && AllDigits(d)
    ensures StringToNumber("-" + d) == Some(-(DigitsValue(d) as int))
  {
    var s := "-" + d;
    assert s[0] == '-' && s[|s| - 1] == d[|d| - 1] && IsDigit(d[|d| - 1]);
    TrimKeeps(s);
    assert s[1..] == d;
  }

  /** Reading back minus the numeral of a natural number. */
  lemma NegativeRoundTrip(m: nat)
    ensures StringToNumber("-" + NatToString(m)) == Some(-(m as int))
  {
    var d := NatToString(m);
    assert DigitsValue(d) == m by { DigitsOfNat(m); }
    ReadNegativeDigits(d);
    assert StringToNumber("-" + d) == Some(-(DigitsValue(d) as int));
  }

  /** Reading back the numeral of a natural number. */
  lemma NaturalRoundTrip(n: nat)
    ensures StringToNumber(NatToString(n)) == Some(n)
  {
    DigitsOfNat(n);
    ReadDigits(NatToString(n));
  }

  /** Printing an integer and reading it back with `Number` gives the integer. */
  lemma IntStringRoundTrip(n: int)
    ensures StringToNumber(IntToString(n)) == Some(n)
  {
    if n < 0 {
      NegativeRoundTrip(-n);
    } else {
      NaturalRoundTrip(n);
    }
  }
}
