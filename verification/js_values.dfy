/**
 * The JavaScript values the board code stores in field values and attributes,
 * with the language rules the code leans on: truthiness, `??`, template-string
 * rendering and `Number(...)`.
 */
module JsValues {
  import opened Wrappers
  import opened Decimal

  /** A JavaScript `Date`: a local-time instant in milliseconds, or the invalid date. */
  datatype JsDate = DateAt(ms: int) | InvalidDate

  datatype JsValue =
    | Null
    | Undefined
    | Str(s: string)
    | Num(n: real)
    | NaN
    | DateObj(date: JsDate)

  /** JavaScript truthiness; every object, an invalid `Date` included, is truthy. */
  predicate Truthy(v: JsValue) {
    match v
    case Null => false
    case Undefined => false
    case Str(s) => s != ""
    case Num(n) => n != 0.0
    case NaN => false
    case DateObj(_) => true
  }

  predicate Nullish(v: JsValue) {
    v.Null? || v.Undefined?
  }

  /** `v ?? fallback`. */
  function Coalesce(v: JsValue, fallback: JsValue): (r: JsValue)
    ensures !Nullish(v) ==> r == v
    ensures Nullish(v) ==> r == fallback
  {
    if Nullish(v) then fallback else v
  }

  /** How a template literal renders an optional string: a missing one becomes "undefined". */
  function TemplateText(s: Option<string>): string {
    s.GetOr("undefined")
  }

  /** How JSX renders an optional string: a missing one renders nothing. */
  function JsxText(s: Option<string>): string {
    s.GetOr("")
  }

  /** A digit string with at most one '.', holding at least one digit, as a number. */
  function UnsignedDecimal(s: string): (r: Option<real>)
    ensures r.Some? ==> r.value >= 0.0
  {
    var dot := IndexOf(s, '.');
    var whole := s[..dot];
    var fraction := if dot < |s| then s[dot + 1..] else "";
    if AllDigits(whole) && AllDigits(fraction) && |whole| + |fraction| >= 1 then
      Some((DigitsValue(whole) as real) + (DigitsValue(fraction) as real) / (Pow10(|fraction|) as real))
    else None
  }

  /**
   * `Number(s)` for a string: "" is 0, an optionally signed decimal is its value,
   * and anything else is NaN (`None`).
   */
  function StringToNumber(s: string): (r: Option<real>)
    ensures s == "" ==> r == Some(0.0)
  {
    if s == "" then Some(0.0)
    else if s[0] == '-' then
      match UnsignedDecimal(s[1..])
      case Some(x) => Some(-x)
      case None => None
    else if s[0] == '+' then UnsignedDecimal(s[1..])
    else UnsignedDecimal(s)
  }

  /** `Number(v)` for any value; `None` is NaN. */
  function ToNumber(v: JsValue): Option<real> {
    match v
    case Null => Some(0.0)
    case Undefined => None
    case Str(s) => StringToNumber(s)
    case Num(n) => Some(n)
    case NaN => None
    case DateObj(DateAt(t)) => Some(t as real)
    case DateObj(InvalidDate) => None
  }

  /** The JavaScript number `Number(...)` produced, as a value. */
  function NumberValue(n: Option<real>): JsValue {
    match n
    case Some(x) => Num(x)
    case None => NaN
  }

  /** `Number` reads back every integer that `String` writes. */
  lemma NumberOfIntegerText(n: int)
    ensures StringToNumber(IntToString(n)) == Some(n as real)
  {
    var digits := NatToString(if n >= 0 then n else -n);
    assert IndexOf(digits, '.') == |digits|;
    assert digits[..|digits|] == digits;
    if n < 0 {
      assert IntToString(n)[1..] == digits;
    }
  }

  /** `Number` reads a decimal fraction: "12.5" is 12.5. */
  lemma NumberOfDecimalExample()
    ensures StringToNumber("12.5") == Some(12.5)
    ensures StringToNumber("-3") == Some(-3.0)
    ensures StringToNumber("abc") == None
  {
    assert IndexOf("12.5", '.') == 2;
    assert "12.5"[..2] == "12" && "12.5"[3..] == "5";
    assert DigitsValue("12") == 12 by {
      assert "12"[..1] == "1";
    }
    assert "-3"[1..] == "3";
    assert IndexOf("3", '.') == 1;
    assert "3"[..1] == "3";
    assert !IsDigit('a');
  }

  /** Math.round: halves go up. */
  function Round(x: real): int {
    (x + 0.5).Floor
  }
}
