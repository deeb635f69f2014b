/** The "Order" input of the column and element forms. */
module DisplayOrder {
  import opened JsValues
  import opened Decimal

  /** An empty input clears the display order (`null`); any other input is `Number(input)`. */
  function ParseOrderInput(text: string): (r: JsValue)
    ensures r == Null <==> text == ""
    ensures text != "" ==> (r.NaN? <==> StringToNumber(text).None?)
    ensures text != "" && StringToNumber(text).Some? ==> r == Num(StringToNumber(text).value)
  {
    if text == "" then Null else NumberValue(StringToNumber(text))
  }

  /**
   * The input shows `String(order)`, or nothing for a missing order; for whole
   * numbers, parsing what is shown gives the order back.
   */
  lemma OrderInputRoundTrip(n: int)
    ensures ParseOrderInput(IntToString(n)) == Num(n as real)
    ensures ParseOrderInput("") == Null
  {
    NumberOfIntegerText(n);
  }
}
