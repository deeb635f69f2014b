/**
 * The records of a board as the screens see them: elements (fields, buttons,
 * button menus), cards with their field values, and columns with their
 * inclusion conditions, sort order, grouping and summary. Attributes the
 * modelled logic never reads are left out.
 *
 * The helpers the screens call but whose code is not part of this model
 * (`checkConditions`, `fieldTypes`, `sortByDisplayOrder`, `calculateSummary`)
 * are function-valued parameters gathered in `Collaborators`.
 */
module Board {
  import opened Wrappers
  import opened JsValues

  /** An element's `element-type`. */
  datatype ElementType = FieldElement | ButtonElement | ButtonMenuElement | OtherElementType(key: Option<string>)

  /** A condition on a field: a query key and, for queries that take one, a concrete value. */
  datatype Condition = Condition(field: Option<string>, query: Option<string>, value: JsValue)

  /** `{}`, the condition the column form appends. */
  const EmptyCondition: Condition := Condition(None, None, Undefined)

  /** A button action: a command key, the id of the field it writes, and a provider key or day count. */
  datatype Action = Action(command: Option<string>, field: string, value: JsValue)

  datatype MenuItem = MenuItem(name: Option<string>, action: Option<Action>)

  /** `{}`, the menu item the element form appends. */
  const EmptyMenuItem: MenuItem := MenuItem(None, None)

  datatype Choice = Choice(id: Option<string>, labelText: Option<string>)

  /** An element's `options`; flags that are absent read as false. */
  datatype ElementOptions = ElementOptions(
    showLabelWhenReadOnly: bool,
    multiline: bool,
    choices: Option<seq<Choice>>,
    items: Option<seq<MenuItem>>,
    actions: Option<seq<Action>>)

  /** `{}`, the options object lodash `set` creates when an element has none. */
  const NoOptions: ElementOptions := ElementOptions(false, false, None, None, None)

  datatype ElementAttributes = ElementAttributes(
    name: Option<string>,
    elementType: ElementType,
    dataType: Option<string>,
    initialValue: JsValue,
    readOnly: bool,
    showCondition: Option<Condition>,
    displayOrder: JsValue,
    options: Option<ElementOptions>,
    action: Option<Action>)

  datatype Element = Element(id: string, attributes: ElementAttributes)

  /** A card's `field-values`, keyed by field element id. */
  type FieldValues = map<string, JsValue>

  /** `values[id]`: undefined for a key that is absent. */
  function ValueOf(values: FieldValues, id: string): (v: JsValue)
    ensures id !in values ==> v == Undefined
  {
    if id in values then values[id] else Undefined
  }

  datatype Card = Card(id: string, fieldValues: FieldValues)

  /** A field id together with a direction key, as `card-sort-order` and `card-grouping` hold them. */
  datatype FieldDirection = FieldDirection(field: Option<string>, direction: Option<string>)

  datatype Summary = Summary(summaryFunction: Option<string>, field: Option<string>)

  datatype ColumnAttributes = ColumnAttributes(
    name: Option<string>,
    displayOrder: JsValue,
    inclusionConditions: Option<seq<Condition>>,
    sortOrder: Option<FieldDirection>,
    grouping: Option<FieldDirection>,
    summary: Option<Summary>)

  datatype Column = Column(id: string, attributes: ColumnAttributes)

  /** The direction key that makes a sort descending. */
  const DescendingKey: string := "descending"

  /** JavaScript truthiness of an optional string such as a field id or a direction key. */
  predicate IsSet(s: Option<string>) {
    s.Some? && s.value != ""
  }

  /** `elements.find(e => e.id === id)`: the first element with that id. */
  function FindElement(elements: seq<Element>, id: string): (r: Option<Element>)
    ensures r.Some? ==> r.value in elements && r.value.id == id
    ensures r.None? ==> forall i :: 0 <= i < |elements| ==> elements[i].id != id
    ensures r.Some? ==>
      exists i :: 0 <= i < |elements| && elements[i] == r.value && forall j :: 0 <= j < i ==> elements[j].id != id
  {
    if elements == [] then None
    else if elements[0].id == id then Some(elements[0])
    else FindElement(elements[1..], id)
  }

  /** A field type: how it renders a value (absent for nothing to show) and where the value sorts. */
  datatype FieldType = FieldType(
    formatValue: (JsValue, Option<ElementOptions>) -> Option<string>,
    sortValue: (JsValue, Option<ElementOptions>) -> int)

  datatype Collaborators = Collaborators(
    checkConditions: (FieldValues, Option<seq<Option<Condition>>>, seq<Element>) -> bool,
    fieldTypes: Option<string> -> Option<FieldType>,
    sortByDisplayOrder: seq<Element> -> seq<Element>,
    calculateSummary: (seq<Card>, Summary) -> string)

  const EmptyText: string := "(empty)"

  /** `${name}: ${text ?? '(empty)'}`, the labelled read-only rendering of a value. */
  function LabelledText(name: Option<string>, text: Option<string>): string {
    TemplateText(name) + ": " + text.GetOr(EmptyText)
  }
}
