/** JavaScript values as the route handlers and components see them after
    `JSON.parse` or in a record, with the conversions the source applies to
    them: truthiness, `String(v)` and `parseInt(v, 10)`. Numbers are modelled
    as integers. */
module Js {
  import opened Optional
  import opened Strings

  datatype Json =
    | Undefined
    | Null
    | Bool(b: bool)
    | Num(n: int)
    | Str(s: string)
    | Arr(items: seq<Json>)
    | Obj

  /** What `if (v)`, `!v`, `v || d` and `v && w` test. */
  predicate Truthy(v: Json) {
    match v
    case Undefined => false
    case Null => false
    case Bool(b) => b
    case Num(n) => n != 0
    case Str(s) => s != ""
    case _ => true
  }

  /** `v || fallback` */
  function Or(v: Json, fallback: Json): (r: Json)
    ensures Truthy(v) ==> r == v
    ensures !Truthy(v) ==> r == fallback
  {
    if Truthy(v) then v else fallback
  }

  /** `o.key` on a parsed JSON object; a missing key reads as undefined. */
  function Get(o: map<string, Json>, key: string): (r: Json)
    ensures key !in o ==> r == Undefined
    ensures key in o ==> r == o[key]
  {
    if key in o then o[key] else Undefined
  }

  /** `String(v)`. An array is its elements joined by ",", with null and
      undefined elements written as nothing. */
  function ToJsString(v: Json): string
    decreases v
  {
    match v
    case Undefined => "undefined"
    case Null => "null"
    case Bool(b) => if b then "true" else "false"
    case Num(n) => IntToString(n)
    case Str(s) => s
    case Arr(items) => Join(ElementStrings(items), ",")
    case Obj => "[object Object]"
  }

  function ElementStrings(items: seq<Json>): (r: seq<string>)
    ensures |r| == |items|
    decreases items
  {
    if items == [] then []
    else
      var first := if items[0].Undefined? || items[0].Null? then "" else ToJsString(items[0]);
      [first] + ElementStrings(items[1..])
  }

  /** `parseInt(s, 10)`: leading white space, an optional sign, then the
      longest run of decimal digits; no digits gives NaN (None). */
  function ParseInt(s: string): (r: Option<int>)
  {
    var t := TrimStart(s);
    var negative := t != [] && t[0] == '-';
    var body := if t != [] && (t[0] == '-' || t[0] == '+') then t[1..] else t;
    var k := DigitRun(body);
    if k == 0 then None
    else
      var magnitude: int := DigitsValue(body[..k]);
      Some(if negative then -magnitude else magnitude)
  }

  /** `parseInt` reads back the decimal text of every integer. */
  lemma ParseIntOfIntString(n: int)
    ensures ParseInt(IntToString(n)) == Some(n)
  {
    var m: nat := if n < 0 then -n else n;
    var digits := NatToString(m);
    NatToStringValue(m);
    DigitRunOfDigits(digits);
    assert digits[..|digits|] == digits;
    var s := IntToString(n);
    assert LeadingSpace(s) == 0 by {
      assert !IsSpace(s[0]);
    }
    assert TrimStart(s) == s[0..] == s;
    if n < 0 {
      assert s[1..] == digits;
    } else {
      assert s == digits;
      assert IsDigit(s[0]);
    }
  }

  lemma DigitRunOfDigits(s: string)
    requires AllDigits(s)
    ensures DigitRun(s) == |s|
  {
    if s != [] {
      DigitRunOfDigits(s[1..]);
    }
  }
}
