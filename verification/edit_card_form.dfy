/**
 * The card editor of src/screens/Card/EditCardForm.js: editing one field of
 * the draft, turning button actions into field-value patches, merging those
 * patches, saving the draft with overrides, and choosing the elements to show.
 */
module EditCardForm {
  import opened Wrappers
  import opened Calendar
  import opened JsValues
  import opened DateUtils
  import opened Values
  import opened Seqs
  import opened Board

  /** The editor's state: the field values being edited and whether they changed since the last save. */
  datatype Draft = Draft(fieldValues: FieldValues, isChanged: bool)

  const SetValueCommand: string := "set-value"
  const AddDaysCommand: string := "add-days"

  /** `setFieldValue`: one field takes the new value, the others keep theirs, and the form is marked changed. */
  function SetFieldValue(d: Draft, fieldId: string, value: JsValue): (r: Draft)
    ensures r.isChanged
    ensures r.fieldValues.Keys == d.fieldValues.Keys + {fieldId}
    ensures ValueOf(r.fieldValues, fieldId) == value
    ensures forall k :: k != fieldId ==> ValueOf(r.fieldValues, k) == ValueOf(d.fieldValues, k)
  {
    Draft(d.fieldValues[fieldId := value], true)
  }

  /** Setting the same field twice keeps only the second value. */
  lemma SetFieldValueTwice(d: Draft, fieldId: string, a: JsValue, b: JsValue)
    ensures SetFieldValue(SetFieldValue(d, fieldId, a), fieldId, b) == SetFieldValue(d, fieldId, b)
  {
  }

  /** The patch an action yields (`None` when it yields nothing) and what it reported. */
  datatype Resolution = Resolution(patch: Option<FieldValues>, problem: Option<Problem>)

  /**
   * `performAction` dereferences the action's field element when `set-value`
   * names a known provider; the code fails when that element is missing.
   */
  predicate CanPerform(action: Action, elements: seq<Element>) {
    action.command == Some(SetValueCommand) && FindProvider(action.value).Some? ==>
      FindElement(elements, action.field).Some?
  }

  /**
   * `getStartDate` for `add-days`: the stored date when it is a date at or after
   * now, and now otherwise (nothing stored, an invalid date, or a past date).
   */
  function StartDate(stored: JsValue, now: int): (r: JsDate)
    ensures r.DateAt? && r.ms >= now
    ensures r.ms != now ==> ServerStringToObject(stored) == DateObj(r)
    ensures var f := ServerStringToObject(stored);
            f.DateObj? && f.date.DateAt? && f.date.ms >= now ==> r == f.date
  {
    var fieldDate := ServerStringToObject(stored);
    if Truthy(fieldDate) && fieldDate.DateObj? && fieldDate.date.DateAt? && fieldDate.date.ms >= now then fieldDate.date
    else DateAt(now)
  }

  /** `performAction`. `set-value` and `add-days` yield a patch of the action's field; anything else is reported. */
  function PerformAction(action: Action, elements: seq<Element>, fieldValues: FieldValues, clock: Clock): (r: Resolution)
    requires CanPerform(action, elements)
    ensures r.patch.Some? ==> r.patch.value.Keys == {action.field}
    ensures r.patch.None? <==>
      (action.command != Some(SetValueCommand) && action.command != Some(AddDaysCommand))
      || (action.command == Some(SetValueCommand) && FindProvider(action.value).None?)
    ensures r.patch.None? ==> r.problem.Some?
    ensures action.command == Some(AddDaysCommand) ==> r.patch.Some? && r.problem.None?
  {
    if action.command == Some(SetValueCommand) then
      match FindProvider(action.value)
      case Some(p) =>
        var provided := Call(p, FindElement(elements, action.field).value.attributes.dataType, clock);
        Resolution(Some(map[action.field := provided.value]), provided.problem)
      case None => Resolution(None, Some(UnknownValue(action.value)))
    else if action.command == Some(AddDaysCommand) then
      var start := StartDate(ValueOf(fieldValues, action.field), clock.now);
      var updated := AddDaysTo(start, ToNumber(action.value));
      Resolution(Some(map[action.field := ObjectToServerString(DateObj(updated))]), None)
    else Resolution(None, Some(UnknownCommand(action.command)))
  }

  /** `set-value` with a known provider writes the provider's value for the field's data type. */
  lemma SetValueWritesProvidedValue(action: Action, elements: seq<Element>, fieldValues: FieldValues, clock: Clock, p: ValueProvider)
    requires action.command == Some(SetValueCommand) && action.value == Str(p.Key())
    requires FindElement(elements, action.field).Some?
    ensures var field := FindElement(elements, action.field).value;
            PerformAction(action, elements, fieldValues, clock).patch
              == Some(map[action.field := Call(p, field.attributes.dataType, clock).value])
  {
    FindProviderMeaning(p, action.value);
  }

  /** The patch of `add-days`: the start date moved by the day count, as a server string. */
  lemma AddDaysPatch(action: Action, elements: seq<Element>, fieldValues: FieldValues, clock: Clock)
    requires action.command == Some(AddDaysCommand)
    ensures PerformAction(action, elements, fieldValues, clock).patch
              == Some(map[action.field := Str(FormatServer(AddDaysTo(StartDate(ValueOf(fieldValues, action.field), clock.now), ToNumber(action.value))))])
  {
    var updated := AddDaysTo(StartDate(ValueOf(fieldValues, action.field), clock.now), ToNumber(action.value));
    assert ObjectToServerString(DateObj(updated)) == Str(FormatServer(updated));
  }

  /** Moving an instant by `n` days and formatting it gives the server text of the day `n` days later. */
  lemma FormatMovedInstant(t: int, n: real)
    ensures FormatServer(AddDaysTo(DateAt(t), Some(n))) == ServerDateText(FromDayNumber(DayOf(t) + Round(n)))
  {
  }

  /** The later of two days. */
  function LaterDay(a: int, b: int): int {
    if a >= b then a else b
  }

  /** The start day is the later of the stored date and today. */
  lemma StartDayOfStoredDate(s: string, now: int)
    requires IsServerDateShape(s) && ValidDate(ServerDateFields(s)) && ServerDateFields(s).year >= 100
    ensures DayOf(StartDate(Str(s), now).ms) == LaterDay(DayNumber(ServerDateFields(s)), DayOf(now))
  {
    var stored := DayNumber(ServerDateFields(s));
    ParseServerDate(s);
    MidnightOrder(stored, now);
    DayOfMidnight(stored);
  }

  /**
   * `add-days` on a field holding a server date: the new date is the given
   * number of days (rounded) after the later of the stored date and today.
   */
  lemma AddDaysFromStoredDate(action: Action, elements: seq<Element>, fieldValues: FieldValues, clock: Clock, s: string, n: real)
    requires action.command == Some(AddDaysCommand) && ToNumber(action.value) == Some(n)
    requires ValueOf(fieldValues, action.field) == Str(s)
    requires IsServerDateShape(s) && ValidDate(ServerDateFields(s)) && ServerDateFields(s).year >= 100
    ensures var start := LaterDay(DayNumber(ServerDateFields(s)), DayOf(clock.now));
            PerformAction(action, elements, fieldValues, clock).patch
              == Some(map[action.field := Str(ServerDateText(FromDayNumber(start + Round(n))))])
  {
    var day := LaterDay(DayNumber(ServerDateFields(s)), DayOf(clock.now));
    StartDayOfStoredDate(s, clock.now);
    AddDaysFromStoredDay(action, elements, fieldValues, clock, n, s, day);
  }

  /** `add-days` on a stored string counts from the day its start date falls on. */
  lemma AddDaysFromStoredDay(action: Action, elements: seq<Element>, fieldValues: FieldValues, clock: Clock, n: real, s: string, day: int)
    requires action.command == Some(AddDaysCommand) && ToNumber(action.value) == Some(n)
    requires ValueOf(fieldValues, action.field) == Str(s)
    requires DayOf(StartDate(Str(s), clock.now).ms) == day
    ensures PerformAction(action, elements, fieldValues, clock).patch
              == Some(map[action.field := Str(ServerDateText(FromDayNumber(day + Round(n))))])
  {
    AddDaysFromStart(action, elements, fieldValues, clock, n, day);
  }

  /** `add-days` writes the day that lies the rounded day count after the start date. */
  lemma AddDaysFromStart(action: Action, elements: seq<Element>, fieldValues: FieldValues, clock: Clock, n: real, day: int)
    requires action.command == Some(AddDaysCommand) && ToNumber(action.value) == Some(n)
    requires DayOf(StartDate(ValueOf(fieldValues, action.field), clock.now).ms) == day
    ensures PerformAction(action, elements, fieldValues, clock).patch
              == Some(map[action.field := Str(ServerDateText(FromDayNumber(day + Round(n))))])
  {
    var start := StartDate(ValueOf(fieldValues, action.field), clock.now);
    AddDaysPatch(action, elements, fieldValues, clock);
    FormatMovedInstant(start.ms, n);
    assert start == DateAt(start.ms);
  }

  /** `add-days` on a field with no stored value counts from today. */
  lemma AddDaysFromToday(action: Action, elements: seq<Element>, fieldValues: FieldValues, clock: Clock, n: real)
    requires action.command == Some(AddDaysCommand) && ToNumber(action.value) == Some(n)
    requires !Truthy(ValueOf(fieldValues, action.field))
    ensures PerformAction(action, elements, fieldValues, clock).patch
              == Some(map[action.field := Str(ServerDateText(FromDayNumber(DayOf(clock.now) + Round(n))))])
  {
    AddDaysPatch(action, elements, fieldValues, clock);
    FormatMovedInstant(clock.now, n);
  }

  /** A day count that is not a number writes the text "Invalid Date" into the field. */
  lemma AddDaysNotANumber(action: Action, elements: seq<Element>, fieldValues: FieldValues, clock: Clock)
    requires action.command == Some(AddDaysCommand) && ToNumber(action.value).None?
    ensures PerformAction(action, elements, fieldValues, clock).patch == Some(map[action.field := Str(InvalidDateText)])
  {
    AddDaysPatch(action, elements, fieldValues, clock);
  }

  /** The last patch in `patches` that has key `k`, or -1 when none has it. */
  function LastWith(patches: seq<Option<FieldValues>>, k: string): (i: int)
    ensures -1 <= i < |patches|
    ensures i >= 0 ==> patches[i].Some? && k in patches[i].value
    ensures forall j :: i < j < |patches| ==> patches[j].None? || k !in patches[j].value
  {
    if patches == [] then -1
    else
      var last := patches[|patches| - 1];
      if last.Some? && k in last.value then |patches| - 1
      else LastWith(patches[..|patches| - 1], k)
  }

  /**
   * `Object.assign({}, ...patches)`: a key is in the result when some patch has
   * it, and takes its value from the last patch that has it. Patches that are
   * `None` (undefined) contribute nothing.
   */
  function MergePatches(patches: seq<Option<FieldValues>>): (r: FieldValues)
    ensures forall k :: k in r <==> LastWith(patches, k) >= 0
    ensures forall k :: k in r ==> r[k] == patches[LastWith(patches, k)].value[k]
  {
    if patches == [] then map[]
    else
      var merged := MergePatches(patches[..|patches| - 1]);
      match patches[|patches| - 1]
      case None => merged
      case Some(p) => merged + p
  }

  predicate AllCanPerform(actions: seq<Action>, elements: seq<Element>) {
    forall i :: 0 <= i < |actions| ==> CanPerform(actions[i], elements)
  }

  function Resolve(actions: seq<Action>, elements: seq<Element>, fieldValues: FieldValues, clock: Clock): (r: seq<Resolution>)
    requires AllCanPerform(actions, elements)
    ensures |r| == |actions|
    ensures forall i :: 0 <= i < |actions| ==> r[i] == PerformAction(actions[i], elements, fieldValues, clock)
  {
    if actions == [] then []
    else [PerformAction(actions[0], elements, fieldValues, clock)] + Resolve(actions[1..], elements, fieldValues, clock)
  }

  function Patches(rs: seq<Resolution>): (r: seq<Option<FieldValues>>)
    ensures |r| == |rs|
    ensures forall i :: 0 <= i < |rs| ==> r[i] == rs[i].patch
  {
    if rs == [] then [] else [rs[0].patch] + Patches(rs[1..])
  }

  /** The overrides `handlePerformActions` computes from a button's actions. */
  function ActionOverrides(actions: seq<Action>, elements: seq<Element>, fieldValues: FieldValues, clock: Clock): FieldValues
    requires AllCanPerform(actions, elements)
  {
    MergePatches(Patches(Resolve(actions, elements, fieldValues, clock)))
  }

  /** What saving sends, and the editor state afterwards. */
  datatype Save = Save(sent: FieldValues, draft: Draft)

  /**
   * `handleUpdateCard`: the draft overlaid with the overrides is sent; the
   * draft's own values stay as they were and the form is no longer changed.
   */
  function HandleUpdateCard(d: Draft, overrides: FieldValues): (r: Save)
    ensures r.sent.Keys == d.fieldValues.Keys + overrides.Keys
    ensures forall k :: k in overrides ==> r.sent[k] == overrides[k]
    ensures forall k :: k in d.fieldValues && k !in overrides ==> r.sent[k] == d.fieldValues[k]
    ensures r.draft == Draft(d.fieldValues, false)
  {
    Save(d.fieldValues + overrides, Draft(d.fieldValues, false))
  }

  /**
   * Pressing a button: the field written by the last action that yields a
   * patch for it is sent with that action's value; fields no action touches
   * are sent unchanged.
   */
  lemma PerformActionsMeaning(d: Draft, actions: seq<Action>, elements: seq<Element>, clock: Clock, k: string)
    requires AllCanPerform(actions, elements)
    ensures var rs := Resolve(actions, elements, d.fieldValues, clock);
            var i := LastWith(Patches(rs), k);
            var sent := HandleUpdateCard(d, ActionOverrides(actions, elements, d.fieldValues, clock)).sent;
            (i >= 0 ==> actions[i].field == k && sent[k] == rs[i].patch.value[k])
            && (i < 0 ==> ValueOf(sent, k) == ValueOf(d.fieldValues, k))
  {
  }

  /** The elements whose show condition holds for the draft's values, in their board order. */
  function ShownElements(elements: seq<Element>, fieldValues: FieldValues, c: Collaborators): (r: seq<Element>)
    ensures forall i :: 0 <= i < |r| ==>
      r[i] in elements && c.checkConditions(fieldValues, Some([r[i].attributes.showCondition]), elements)
    ensures forall i :: 0 <= i < |elements| && c.checkConditions(fieldValues, Some([elements[i].attributes.showCondition]), elements) ==>
      elements[i] in r
  {
    Filter(elements, (e: Element) => c.checkConditions(fieldValues, Some([e.attributes.showCondition]), elements))
  }

  lemma ShownElementsKeepOrder(elements: seq<Element>, fieldValues: FieldValues, c: Collaborators)
    ensures IsSubsequence(ShownElements(elements, fieldValues, c), elements)
  {
    FilterIsSubsequence(elements, (e: Element) => c.checkConditions(fieldValues, Some([e.attributes.showCondition]), elements));
  }

  /** `elementsToShow`: the shown elements, ordered by display order. */
  function ElementsToShow(elements: seq<Element>, fieldValues: FieldValues, c: Collaborators): seq<Element> {
    c.sortByDisplayOrder(ShownElements(elements, fieldValues, c))
  }
}
