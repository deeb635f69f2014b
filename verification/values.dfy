/**
 * The named value providers of src/enums/values.js: `empty` and `now`, which
 * produce a field value for a field of a given data type.
 */
module Values {
  import opened Wrappers
  import opened Calendar
  import opened JsValues
  import opened DateUtils
  import opened FieldDataTypes

  datatype ValueProvider = EmptyValue | NowValue {

    /** The key actions and initial values refer to the provider by; it doubles as the label. */
    function Key(): string {
      match this
      case EmptyValue => "empty"
      case NowValue => "now"
    }
  }

  /** `Object.values(VALUES)`, in declaration order. */
  const AllProviders: seq<ValueProvider> := [EmptyValue, NowValue]

  /**
   * The current instant (local milliseconds) and the two helpers of
   * src/utils/dateTimeUtils.js that `now` uses, which are not part of this model.
   */
  datatype Clock = Clock(now: int, dateTimeServerString: int -> string, humanTimeString: int -> string)

  /** A diagnostic the code writes with `console.error`. */
  datatype Problem =
    | InvalidDataTypeForValue(dataType: Option<string>)
    | UnknownValue(value: JsValue)
    | UnknownCommand(command: Option<string>)

  /** A provider's value, and the diagnostic it reported, if any. */
  datatype Provided = Provided(value: JsValue, problem: Option<Problem>)

  function FindProviderIn(providers: seq<ValueProvider>, key: JsValue): (r: Option<ValueProvider>)
    ensures r.Some? ==> r.value in providers && key == Str(r.value.Key())
    ensures r.None? ==> forall i :: 0 <= i < |providers| ==> key != Str(providers[i].Key())
  {
    if providers == [] then None
    else if key == Str(providers[0].Key()) then Some(providers[0])
    else FindProviderIn(providers[1..], key)
  }

  /** `Object.values(VALUES).find(v => v.key === key)`: only a string equal to a key matches. */
  function FindProvider(key: JsValue): (r: Option<ValueProvider>)
    ensures r.Some? ==> key == Str(r.value.Key())
  {
    FindProviderIn(AllProviders, key)
  }

  /**
   * `provider.call(dataType)`. `empty` gives null whatever the type. `now`
   * gives today's `YYYY-MM-DD` for a date field, the date-time server string
   * for a date-time field and the human time string for a text field; for
   * any other type it reports the type and gives undefined.
   */
  function Call(p: ValueProvider, dataType: Option<string>, clock: Clock): (r: Provided)
    ensures p.EmptyValue? ==> r == Provided(Null, None)
    ensures p.NowValue? ==>
      (r.problem.Some? <==> FindByKey(dataType) !in {Some(DateType), Some(DateTimeType), Some(TextType)})
    ensures r.problem.Some? ==> r.value == Undefined && r.problem == Some(InvalidDataTypeForValue(dataType))
  {
    match p
    case EmptyValue => Provided(Null, None)
    case NowValue =>
      if dataType == Some(DateType.Key()) then
        Provided(ObjectToServerString(DateObj(DateAt(clock.now))), None)
      else if dataType == Some(DateTimeType.Key()) then
        Provided(Str(clock.dateTimeServerString(clock.now)), None)
      else if dataType == Some(TextType.Key()) then
        Provided(Str(clock.humanTimeString(clock.now)), None)
      else
        Provided(Undefined, Some(InvalidDataTypeForValue(dataType)))
  }

  /** Both providers have distinct keys, so a lookup finds at most one, and finds each by its key. */
  lemma FindProviderMeaning(p: ValueProvider, key: JsValue)
    ensures EmptyValue.Key() != NowValue.Key()
    ensures FindProvider(Str(p.Key())) == Some(p)
    ensures FindProvider(key).None? <==> key != Str("empty") && key != Str("now")
  {
    assert AllProviders[1..] == [NowValue];
    if p.NowValue? {
      assert FindProviderIn(AllProviders, Str("now")) == FindProviderIn([NowValue], Str("now"));
    }
  }

  /**
   * `now` on a date field gives the server string of today's date, which reads
   * back as the midnight that starts today (for years 100..9999).
   */
  lemma NowOnDateIsToday(clock: Clock)
    requires 100 <= FromDayNumber(DayOf(clock.now)).year <= 9999
    ensures Call(NowValue, Some("date"), clock).value == Str(ServerDateText(FromDayNumber(DayOf(clock.now))))
    ensures ServerStringToObject(Call(NowValue, Some("date"), clock).value) == DateObj(DateAt(MidnightOf(DayOf(clock.now))))
  {
    InstantRoundTrip(clock.now);
  }

  /** `now` on the date-time and text types hands the current instant to the date-time helpers. */
  lemma NowOnDateTimeAndText(clock: Clock)
    ensures Call(NowValue, Some("datetime"), clock) == Provided(Str(clock.dateTimeServerString(clock.now)), None)
    ensures Call(NowValue, Some("text"), clock) == Provided(Str(clock.humanTimeString(clock.now)), None)
  {
  }

  /** `now` on a number field gives no value and reports the data type. */
  lemma NowOnNumberFails(clock: Clock)
    ensures Call(NowValue, Some("number"), clock) == Provided(Undefined, Some(InvalidDataTypeForValue(Some("number"))))
  {
  }
}
