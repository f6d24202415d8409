/** Untyped JavaScript values, as the handlers receive them from `request.json()`,
    `res.json()` or `JSON.parse`, and the coercions the code applies to them
    (`typeof`, truthiness, `Number(...)`, `Number.isFinite`). */
module Js {
  import opened Text

  /** A JavaScript number. Finite numbers are modelled by their integer value. */
  datatype Num = Finite(v: int) | PosInf | NegInf | NaN

  datatype Value =
    | Undefined
    | Null
    | Bool(b: bool)
    | Number(n: Num)
    | Str(s: string)
    | Arr(elems: seq<Value>)
    | Obj(fields: map<string, Value>)

  /** `v?.key`: the property of an object, `undefined` for every other value. */
  function Field(v: Value, key: string): Value {
    if v.Obj? && key in v.fields then v.fields[key] else Undefined
  }

  /** `!!v`. */
  predicate Truthy(v: Value) {
    match v
    case Undefined => false
    case Null => false
    case Bool(b) => b
    case Number(n) => n != Finite(0) && n != NaN
    case Str(s) => s != ""
    case Arr(_) => true
    case Obj(_) => true
  }

  /** `v && typeof v === "object"`: arrays and plain objects. */
  predicate IsObject(v: Value) {
    v.Arr? || v.Obj?
  }

  /** `typeof v === "string" ? v : d`. */
  function StringOr(v: Value, d: string): string {
    if v.Str? then v.s else d
  }

  /** `Number.isFinite(n)`. */
  predicate IsFinite(n: Num) {
    n.Finite?
  }

  /** `Number(s)` for a string: surrounding white space is ignored, the empty
      string is 0, a signed run of decimal digits is its value, the signed word
      `Infinity` is infinite, anything else is NaN. */
  function ParseNumber(s: string): (r: Num)
    ensures IsBlank(s) ==> r == Finite(0)
    ensures AllDigits(Trim(s)) ==> r == Finite(DigitsValue(Trim(s)))
    ensures Signed(Trim(s), '+') ==> r == Finite(DigitsValue(Trim(s)[1..]))
    ensures Signed(Trim(s), '-') ==> r == Finite(0 - DigitsValue(Trim(s)[1..]))
    ensures Trim(s) == "Infinity" || Trim(s) == "+Infinity" <==> r == PosInf
    ensures Trim(s) == "-Infinity" <==> r == NegInf
    ensures r.NaN? <==> !(IsBlank(s) || Trim(s) == "Infinity" || Trim(s) == "+Infinity" || Trim(s) == "-Infinity"
                          || AllDigits(Trim(s)) || Signed(Trim(s), '+') || Signed(Trim(s), '-'))
  {
    var t := Trim(s);
    if t == "" then Finite(0)
    else if t == "Infinity" || t == "+Infinity" then PosInf
    else if t == "-Infinity" then NegInf
    else if AllDigits(t) then Finite(DigitsValue(t))
    else if t[0] == '+' && AllDigits(t[1..]) then Finite(DigitsValue(t[1..]))
    else if t[0] == '-' && AllDigits(t[1..]) then Finite(0 - DigitsValue(t[1..]) as int)
    else NaN
  }

  /** A sign followed by at least one decimal digit. */
  predicate Signed(t: string, sign: char) {
    |t| > 1 && t[0] == sign && AllDigits(t[1..])
  }

  /** `Number(String(n))` gives back `n` for a natural number. */
  lemma ParseRendered(n: nat)
    ensures ParseNumber(NatToString(n)) == Finite(n)
  {
    TrimNoSpace(NatToString(n));
  }

  /** `Number(v)`. */
  function ToNumber(v: Value): Num {
    match v
    case Undefined => NaN
    case Null => Finite(0)
    case Bool(b) => Finite(if b then 1 else 0)
    case Number(n) => n
    case Str(s) => ParseNumber(s)
    case Arr(_) => NaN
    case Obj(_) => NaN
  }

  /** `typeof v === "number" ? v : Number(v)`, as the normalisers write it. */
  function NumberOf(v: Value): (r: Num)
    ensures v.Number? ==> r == v.n
    ensures v.Str? ==> r == ParseNumber(v.s)
  {
    if v.Number? then v.n else ToNumber(v)
  }

  /** `typeof v === "number" && Number.isFinite(v) ? v : 0` */
  function FiniteOrZero(n: Num): int {
    if n.Finite? then n.v else 0
  }
}
