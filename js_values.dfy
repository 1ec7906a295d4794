/** JavaScript values as they cross the HTTP boundary, with the three conversions
    the code base leans on: truthiness (`!!x`, `x || y`), `Number(x)` and `String(x)`.
    Numbers are integers; `Number(x)` can also give NaN. */
module JsValues {
  import opened Text

  /** A JSON value in a request or response body. Objects are not values of this
      type: each body shape has a datatype of its own. */
  datatype Json = Undefined | Null | Bool(b: bool) | Num(n: int) | Str(s: string) | Arr(items: seq<Json>)

  /** The result of Number(x). */
  datatype JsNum = Finite(value: int) | NaN

  /** `!!x` */
  predicate Truthy(j: Json)
  {
    match j
    case Undefined => false
    case Null => false
    case Bool(b) => b
    case Num(n) => n != 0
    case Str(s) => s != ""
    case Arr(_) => true
  }

  /** The value of `a || b`. */
  function Or(a: Json, b: Json): (r: Json)
    ensures r == a || r == b
    ensures Truthy(r) <==> Truthy(a) || Truthy(b)
    ensures Truthy(a) ==> r == a
  {
    if Truthy(a) then a else b
  }

  /** Number(s) for a string: surrounding whitespace is ignored, the empty string is 0,
      an optionally signed run of decimal digits is its value; anything else is NaN here. */
  function StringToNumber(s: string): JsNum
  {
    var t := Trim(s);
    if t == "" then Finite(0)
    else if AllDigits(t) then Finite(DecimalValue(t))
    else if |t| > 1 && t[0] == '-' && AllDigits(t[1..]) then Finite(-(DecimalValue(t[1..]) as int))
    else if |t| > 1 && t[0] == '+' && AllDigits(t[1..]) then Finite(DecimalValue(t[1..]))
    else NaN
  }

  /** String(x) for a value that is not an array. */
  function ScalarToString(j: Json): string
  {
    match j
    case Undefined => "undefined"
    case Null => "null"
    case Bool(b) => if b then "true" else "false"
    case Num(n) => IntToString(n)
    case Str(s) => s
    case Arr(_) => ""
  }

  /** How Array.prototype.join spells one element: a nested array is joined in turn. */
  function ElementString(j: Json): string
    decreases j, 1
  {
    if j.Undefined? || j.Null? then "" else if j.Arr? then JsToString(j) else ScalarToString(j)
  }

  /** String(x). */
  function JsToString(j: Json): (s: string)
    decreases j, 0
    ensures j.Str? ==> s == j.s
  {
    match j
    case Arr(items) => Join(seq(|items|, i requires 0 <= i < |items| => ElementString(items[i])), ",")
    case _ => ScalarToString(j)
  }

  /** A nested array is flattened into the join: `String([[1, 2], 3])` is "1,2,3". */
  lemma NestedArrayString()
    ensures JsToString(Arr([Arr([Num(1), Num(2)]), Num(3)])) == "1,2,3"
  {
    assert IntToString(1) == "1" && IntToString(2) == "2" && IntToString(3) == "3";
    var inner := [Num(1), Num(2)];
    var innerParts := seq(|inner|, i requires 0 <= i < |inner| => ElementString(inner[i]));
    assert innerParts == ["1", "2"];
    assert ["1", "2"][1..] == ["2"];
    assert JsToString(Arr(inner)) == "1,2";
    var outer := [Arr(inner), Num(3)];
    var outerParts := seq(|outer|, i requires 0 <= i < |outer| => ElementString(outer[i]));
    assert outerParts == ["1,2", "3"];
    assert ["1,2", "3"][1..] == ["3"];
  }

  /** Number(String(x)) == x for a number x. */
  lemma NumberStringRoundTrip(n: int)
    ensures ToNumber(Str(JsToString(Num(n)))) == Finite(n)
  {
    IntToStringToNumber(n);
  }

  /** Number(x). */
  function ToNumber(j: Json): (r: JsNum)
    ensures !Truthy(j) && !j.Undefined? ==> r == Finite(0)
    ensures j.Num? ==> r == Finite(j.n)
  {
    match j
    case Undefined => NaN
    case Null => Finite(0)
    case Bool(b) => Finite(if b then 1 else 0)
    case Num(n) => Finite(n)
    case Str(s) => StringToNumber(s)
    case Arr(_) => StringToNumber(JsToString(j))
  }

  /** String(n) for the result of Number(x); this is also the property key `obj[n]` uses. */
  function NumToString(n: JsNum): string
  {
    match n
    case Finite(v) => IntToString(v)
    case NaN => "NaN"
  }

  /** `a === b` on numbers: NaN equals nothing, itself included. */
  predicate StrictEq(a: JsNum, b: JsNum)
  {
    a.Finite? && b.Finite? && a.value == b.value
  }

  lemma {:induction false} IntToStringDigitsOrMinus(i: int)
    ensures IntToString(i) != ""
    ensures i >= 0 ==> AllDigits(IntToString(i)) && DecimalValue(IntToString(i)) == i
    ensures i < 0 ==> IntToString(i)[0] == '-' && AllDigits(IntToString(i)[1..])
                      && DecimalValue(IntToString(i)[1..]) == -i
  {
    if i >= 0 {
      NatToStringRoundTrip(i);
      NatToStringShape(i);
    } else {
      NatToStringRoundTrip(-i);
      NatToStringShape(-i);
      assert IntToString(i)[1..] == NatToString(-i);
    }
  }

  /** Number(String(i)) == i: the decimal spelling of an integer reads back as itself. */
  lemma IntToStringToNumber(i: int)
    ensures StringToNumber(IntToString(i)) == Finite(i)
  {
    IntToStringDigitsOrMinus(i);
    var t := IntToString(i);
    NatToStringShape(if i < 0 then -i else i);
    TrimStartIdempotent(t);
    assert !IsJsWhitespace(t[|t| - 1]);
    assert Trim(t) == t;
  }

  /** Distinct integers are spelled differently. */
  lemma IntToStringInjective(a: int, b: int)
    ensures IntToString(a) == IntToString(b) ==> a == b
  {
    IntToStringToNumber(a);
    IntToStringToNumber(b);
  }

  /** The spelling of an integer holds only digits and a leading minus sign. */
  lemma IntToStringOnly(i: int, c: char)
    requires !IsDigit(c) && c != '-'
    ensures c !in IntToString(i)
  {
    IntToStringDigitsOrMinus(i);
    var t := IntToString(i);
    if i < 0 {
      assert t == [t[0]] + t[1..];
    }
  }

  /** For a boolean, a number or null, truthiness is being a number other than 0. */
  lemma TruthyAsNumber(j: Json)
    requires j.Bool? || j.Num? || j.Null?
    ensures Truthy(j) <==> ToNumber(j) != Finite(0)
  {
  }

  /** The key under which `obj[Number(x)] = ...` stores an entry is the key `obj[x]` reads
      back when x is a number: the client progress maps rely on this. */
  lemma NumberKeyAgreement(n: int)
    ensures NumToString(ToNumber(Num(n))) == JsToString(Num(n))
  {
  }

  /** ... and when x is the canonical decimal spelling of an integer. */
  lemma StringKeyAgreement(n: int)
    ensures NumToString(ToNumber(Str(IntToString(n)))) == JsToString(Str(IntToString(n)))
  {
    IntToStringToNumber(n);
  }
}
