/**
 * The element editor of src/screens/Board/Element/EditElementForm.js: typed
 * attribute updates, the choice and menu-item list operations, which input
 * groups the form shows for each element type, and the action inputs.
 */
module EditElementForm {
  import opened Wrappers
  import opened JsValues
  import opened Decimal
  import opened Seqs
  import opened Board
  import opened Values
  import opened FieldDataTypes
  import opened DisplayOrder
  import EditCardForm

  /** `options`, or the empty object lodash `set` creates under a missing `options`. */
  function OptionsOf(a: ElementAttributes): ElementOptions {
    a.options.GetOr(NoOptions)
  }

  /** `options?.choices ?? []`. */
  function ChoicesOf(a: ElementAttributes): seq<Choice> {
    OptionsOf(a).choices.GetOr([])
  }

  /** `options?.items ?? []`. */
  function ItemsOf(a: ElementAttributes): seq<MenuItem> {
    OptionsOf(a).items.GetOr([])
  }

  /** `updateAttribute('options.choices', choices)`: only the choices change. */
  function WithChoices(a: ElementAttributes, choices: seq<Choice>): (r: ElementAttributes)
    ensures r == a.(options := r.options)
    ensures r.options.Some? && ChoicesOf(r) == choices
    ensures OptionsOf(r) == OptionsOf(a).(choices := Some(choices))
  {
    a.(options := Some(OptionsOf(a).(choices := Some(choices))))
  }

  /** `updateAttribute('options.items', items)`: only the menu items change. */
  function WithItems(a: ElementAttributes, items: seq<MenuItem>): (r: ElementAttributes)
    ensures r == a.(options := r.options)
    ensures r.options.Some? && ItemsOf(r) == items
    ensures OptionsOf(r) == OptionsOf(a).(items := Some(items))
  {
    a.(options := Some(OptionsOf(a).(items := Some(items))))
  }

  /** `addChoice`: one choice with the fresh id `uuid()` gives is appended, missing choices counting as none. */
  function AddChoice(a: ElementAttributes, freshId: string): (r: ElementAttributes)
    ensures ChoicesOf(r) == ChoicesOf(a) + [Choice(Some(freshId), None)]
    ensures r == a.(options := r.options) && ItemsOf(r) == ItemsOf(a)
    ensures OptionsOf(r) == OptionsOf(a).(choices := Some(ChoicesOf(r)))
  {
    WithChoices(a, ChoicesOf(a) + [Choice(Some(freshId), None)])
  }

  /** `removeChoiceAtIndex`: `splice(index, 1)` on a copy of the choices, missing choices counting as none. */
  function RemoveChoiceAtIndex(a: ElementAttributes, index: int): (r: ElementAttributes)
    ensures r == a.(options := r.options) && ItemsOf(r) == ItemsOf(a)
    ensures OptionsOf(r) == OptionsOf(a).(choices := Some(ChoicesOf(r)))
    ensures 0 <= index < |ChoicesOf(a)| ==>
              |ChoicesOf(r)| == |ChoicesOf(a)| - 1
              && (forall j :: 0 <= j < |ChoicesOf(r)| ==>
                    ChoicesOf(r)[j] == if j < index then ChoicesOf(a)[j] else ChoicesOf(a)[j + 1])
              && multiset(ChoicesOf(r)) + multiset{ChoicesOf(a)[index]} == multiset(ChoicesOf(a))
    ensures index >= |ChoicesOf(a)| ==> ChoicesOf(r) == ChoicesOf(a)
  {
    RemoveAtMultiset(ChoicesOf(a), index);
    WithChoices(a, RemoveAt(ChoicesOf(a), index))
  }

  /** `addButtonMenuItem`: one empty item is appended, missing items counting as none. */
  function AddButtonMenuItem(a: ElementAttributes): (r: ElementAttributes)
    ensures ItemsOf(r) == ItemsOf(a) + [EmptyMenuItem]
    ensures r == a.(options := r.options) && ChoicesOf(r) == ChoicesOf(a)
    ensures OptionsOf(r) == OptionsOf(a).(items := Some(ItemsOf(r)))
  {
    WithItems(a, ItemsOf(a) + [EmptyMenuItem])
  }

  /**
   * `removeButtonMenuItemAtIndex`: spreads `options?.items` with no fallback,
   * so the code fails unless the element has options with items.
   */
  function RemoveButtonMenuItemAtIndex(a: ElementAttributes, index: int): (r: ElementAttributes)
    requires a.options.Some? && a.options.value.items.Some?
    ensures r == a.(options := r.options) && ChoicesOf(r) == ChoicesOf(a)
    ensures OptionsOf(r) == OptionsOf(a).(items := Some(ItemsOf(r)))
    ensures 0 <= index < |ItemsOf(a)| ==>
              |ItemsOf(r)| == |ItemsOf(a)| - 1
              && (forall j :: 0 <= j < |ItemsOf(r)| ==>
                    ItemsOf(r)[j] == if j < index then ItemsOf(a)[j] else ItemsOf(a)[j + 1])
              && multiset(ItemsOf(r)) + multiset{ItemsOf(a)[index]} == multiset(ItemsOf(a))
    ensures index >= |ItemsOf(a)| ==> ItemsOf(r) == ItemsOf(a)
  {
    RemoveAtMultiset(a.options.value.items.value, index);
    WithItems(a, RemoveAt(a.options.value.items.value, index))
  }

  /**
   * Removing what was just added gives the list back: the choice with the
   * fresh id, and the empty menu item (whose list now exists, so the removal
   * can run).
   */
  lemma RemoveAddedEntries(a: ElementAttributes, freshId: string)
    ensures ChoicesOf(RemoveChoiceAtIndex(AddChoice(a, freshId), |ChoicesOf(a)|)) == ChoicesOf(a)
    ensures var added := AddButtonMenuItem(a);
            added.options.Some? && added.options.value.items.Some?
            && ItemsOf(RemoveButtonMenuItemAtIndex(added, |ItemsOf(a)|)) == ItemsOf(a)
  {
    RemoveAppended(ChoicesOf(a), Choice(Some(freshId), None));
    RemoveAppended(ItemsOf(a), EmptyMenuItem);
  }

  /** The `updateAttribute` calls on an element's own attributes. */
  datatype ElementUpdate =
    | SetElementName(name: string)
    | SetElementDisplayOrder(text: string)
    | SetDataType(dataType: FieldDataType)
    | SetInitialValue(provider: ValueProvider)
    | SetReadOnly(readOnly: bool)
    | SetShowLabelWhenReadOnly(showLabel: bool)
    | SetMultiline(multiline: bool)

  /**
   * `updateAttribute`: the attribute at the path takes the new value (a data
   * type or provider is stored by key, the order input is parsed) and nothing
   * else changes; an option flag leaves the other options as they were.
   */
  function ApplyElementUpdate(a: ElementAttributes, u: ElementUpdate): (r: ElementAttributes)
    ensures r.elementType == a.elementType && r.showCondition == a.showCondition && r.action == a.action
    ensures u.SetElementName? ==> r == a.(name := Some(u.name))
    ensures u.SetElementDisplayOrder? ==> r == a.(displayOrder := ParseOrderInput(u.text))
    ensures u.SetDataType? ==> r == a.(dataType := Some(u.dataType.Key())) && FindByKey(r.dataType) == Some(u.dataType)
    ensures u.SetInitialValue? ==> r == a.(initialValue := Str(u.provider.Key())) && FindProvider(r.initialValue) == Some(u.provider)
    ensures u.SetReadOnly? ==> r == a.(readOnly := u.readOnly)
    ensures (u.SetShowLabelWhenReadOnly? || u.SetMultiline?) ==>
              r == a.(options := r.options) && r.options.Some?
              && ChoicesOf(r) == ChoicesOf(a) && ItemsOf(r) == ItemsOf(a)
    ensures u.SetShowLabelWhenReadOnly? ==>
              OptionsOf(r).showLabelWhenReadOnly == u.showLabel && OptionsOf(r).multiline == OptionsOf(a).multiline
    ensures u.SetMultiline? ==>
              OptionsOf(r).multiline == u.multiline && OptionsOf(r).showLabelWhenReadOnly == OptionsOf(a).showLabelWhenReadOnly
    ensures u.SetShowLabelWhenReadOnly? ==> OptionsOf(r) == OptionsOf(a).(showLabelWhenReadOnly := u.showLabel)
    ensures u.SetMultiline? ==> OptionsOf(r) == OptionsOf(a).(multiline := u.multiline)
  {
    FindByKeyMeaning(None, if u.SetDataType? then u.dataType else DateType);
    FindProviderMeaning(if u.SetInitialValue? then u.provider else EmptyValue, Undefined);
    match u
    case SetElementName(name) => a.(name := Some(name))
    case SetElementDisplayOrder(text) => a.(displayOrder := ParseOrderInput(text))
    case SetDataType(t) => a.(dataType := Some(t.Key()))
    case SetInitialValue(p) => a.(initialValue := Str(p.Key()))
    case SetReadOnly(b) => a.(readOnly := b)
    case SetShowLabelWhenReadOnly(b) => a.(options := Some(OptionsOf(a).(showLabelWhenReadOnly := b)))
    case SetMultiline(b) => a.(options := Some(OptionsOf(a).(multiline := b)))
  }

  /** The input groups the form shows below the name and order. */
  datatype Sections = Sections(fieldInputs: bool, multilineInput: bool, actionInputs: bool, menuItems: bool)

  /**
   * Field inputs for a field, the multiline checkbox only for a text field,
   * action inputs for a button and the menu items for a button menu. A field
   * element must carry its options: the form reads two of them without a guard.
   */
  function VisibleSections(a: ElementAttributes): (r: Sections)
    requires a.elementType == FieldElement ==> a.options.Some?
    ensures r.fieldInputs <==> a.elementType == FieldElement
    ensures r.multilineInput <==> r.fieldInputs && FindByKey(a.dataType) == Some(TextType)
    ensures r.actionInputs <==> a.elementType == ButtonElement
    ensures r.menuItems <==> a.elementType == ButtonMenuElement
  {
    FindByKeyMeaning(a.dataType, TextType);
    var isField := a.elementType == FieldElement;
    Sections(isField, isField && a.dataType == Some(TextType.Key()),
             a.elementType == ButtonElement, a.elementType == ButtonMenuElement)
  }

  /** An element shows at most one of the field, action and menu groups, and only a field element shows the multiline box. */
  lemma SectionsExclusive(a: ElementAttributes)
    requires a.elementType == FieldElement ==> a.options.Some?
    ensures var s := VisibleSections(a);
            (s.fieldInputs ==> !s.actionInputs && !s.menuItems)
            && (s.actionInputs ==> !s.menuItems)
            && (s.multilineInput ==> s.fieldInputs)
            && (a.elementType.OtherElementType? ==> s == Sections(false, false, false, false))
  {
  }

  /** Switching a field to the text type shows the multiline box; any other type hides it. */
  lemma MultilineFollowsDataType(a: ElementAttributes, t: FieldDataType)
    requires a.elementType == FieldElement && a.options.Some?
    ensures VisibleSections(ApplyElementUpdate(a, SetDataType(t))).multilineInput <==> t == TextType
  {
    KeysAreDistinct(t, TextType);
  }

  /** The value input of an action: the provider dropdown, or the days-to-add text input. */
  datatype ActionValueInput = ValueDropdown(selected: Option<ValueProvider>) | DaysInput(text: JsValue)

  /**
   * `ActionInputs`: the days input exactly when the command is `add-days`,
   * showing the stored value or the empty string; otherwise the dropdown, with
   * the provider whose key is the stored value selected.
   */
  function ActionValueInputFor(action: Option<Action>): (r: ActionValueInput)
    ensures r.DaysInput? <==> action.Some? && action.value.command == Some(EditCardForm.AddDaysCommand)
    ensures r.DaysInput? ==> !Nullish(r.text) && (!Nullish(action.value.value) ==> r.text == action.value.value)
    ensures r.ValueDropdown? && r.selected.Some? ==> action.Some? && action.value.value == Str(r.selected.value.Key())
    ensures r.ValueDropdown? && action.None? ==> r.selected.None?
    ensures r.DaysInput? && action.Some? && Nullish(action.value.value) ==> r.text == Str("")
    ensures forall p: ValueProvider :: r.ValueDropdown? && action.Some? && action.value.value == Str(p.Key()) ==> r.selected == Some(p)
  {
    FindProviderMeaning(EmptyValue, Undefined);
    FindProviderMeaning(NowValue, Undefined);
    if action.Some? && action.value.command == Some(EditCardForm.AddDaysCommand) then
      DaysInput(Coalesce(action.value.value, Str("")))
    else
      ValueDropdown(FindProvider(if action.Some? then action.value.value else Undefined))
  }

  /**
   * Read against one and the same `Action`, the action inputs agree with the
   * card form: a selected provider is the provider `set-value` calls, and whole
   * days typed into the days input are the days `add-days` adds. The two forms
   * do not share an `Action` in the code: the element form edits `action` and
   * `options.items[i].action`, while the card form performs
   * `options.actions` and `menuItem.actions`.
   */
  lemma ActionInputsMatchCardForm(action: Action, elements: seq<Element>, fieldValues: FieldValues, clock: Clock, n: int)
    ensures var input := ActionValueInputFor(Some(action));
            input.ValueDropdown? && input.selected.Some? && action.command == Some(EditCardForm.SetValueCommand)
              && FindElement(elements, action.field).Some? ==>
            EditCardForm.PerformAction(action, elements, fieldValues, clock).patch
              == Some(map[action.field := Call(input.selected.value, FindElement(elements, action.field).value.attributes.dataType, clock).value])
    ensures action.command == Some(EditCardForm.AddDaysCommand) && action.value == Str(IntToString(n)) ==>
              ActionValueInputFor(Some(action)) == DaysInput(Str(IntToString(n)))
              && ToNumber(action.value) == Some(n as real)
  {
    var input := ActionValueInputFor(Some(action));
    if input.ValueDropdown? && input.selected.Some? && action.command == Some(EditCardForm.SetValueCommand)
       && FindElement(elements, action.field).Some?
    {
      EditCardForm.SetValueWritesProvidedValue(action, elements, fieldValues, clock, input.selected.value);
    }
    NumberOfIntegerText(n);
  }
}
