/**
 * The column list of src/screens/Board/Column/ColumnList.js: the field values
 * a new card starts with, and which column renders as its editor.
 */
module ColumnList {
  import opened Wrappers
  import opened JsValues
  import opened Values
  import opened Board

  /** A field element whose initial value is not `null` contributes an initial value. */
  predicate HasInitialValue(e: Element) {
    e.attributes.elementType == FieldElement && e.attributes.initialValue != Null
  }

  /**
   * The initial value of a contributing field: its provider's value for the
   * field's data type, or undefined when the initial value names no provider.
   */
  function ResolvedInitialValue(e: Element, clock: Clock): (v: JsValue)
    ensures FindProvider(e.attributes.initialValue).None? ==> v == Undefined
    ensures FindProvider(e.attributes.initialValue) == Some(EmptyValue) ==> v == Null
  {
    match FindProvider(e.attributes.initialValue)
    case Some(p) => Call(p, e.attributes.dataType, clock).value
    case None => Undefined
  }

  /** The index of the last contributing element with id `id`, or -1 when there is none. */
  function LastContributor(elements: seq<Element>, id: string): (i: int)
    ensures -1 <= i < |elements|
    ensures i >= 0 ==> HasInitialValue(elements[i]) && elements[i].id == id
    ensures forall j :: i < j < |elements| ==> !(HasInitialValue(elements[j]) && elements[j].id == id)
  {
    if elements == [] then -1
    else
      var last := elements[|elements| - 1];
      if HasInitialValue(last) && last.id == id then |elements| - 1
      else LastContributor(elements[..|elements| - 1], id)
  }

  /**
   * `getInitialFieldValues`: an entry for every contributing field, built with
   * `Object.fromEntries`, so a later field with the same id overwrites an earlier one.
   */
  function InitialFieldValues(elements: seq<Element>, clock: Clock): (r: FieldValues)
    ensures forall id :: id in r <==> LastContributor(elements, id) >= 0
    ensures forall id :: id in r ==> r[id] == ResolvedInitialValue(elements[LastContributor(elements, id)], clock)
  {
    if elements == [] then map[]
    else
      var last := elements[|elements| - 1];
      var earlier := InitialFieldValues(elements[..|elements| - 1], clock);
      if HasInitialValue(last) then earlier[last.id := ResolvedInitialValue(last, clock)] else earlier
  }

  /**
   * A key is present exactly for the ids of contributing elements: buttons,
   * menus and fields whose initial value is `null` add nothing.
   */
  lemma {:induction false} InitialValueKeys(elements: seq<Element>, clock: Clock, id: string)
    ensures (id in InitialFieldValues(elements, clock))
            <==> exists i :: 0 <= i < |elements| && HasInitialValue(elements[i]) && elements[i].id == id
  {
    if exists i :: 0 <= i < |elements| && HasInitialValue(elements[i]) && elements[i].id == id {
      var i :| 0 <= i < |elements| && HasInitialValue(elements[i]) && elements[i].id == id;
      assert LastContributor(elements, id) >= i;
    }
  }

  /**
   * The value of a field that no later contributing element shares its id with
   * is that field's resolved initial value; an unknown provider key gives an
   * undefined entry rather than no entry.
   */
  lemma InitialValueOfField(elements: seq<Element>, clock: Clock, i: int)
    requires 0 <= i < |elements| && HasInitialValue(elements[i])
    requires forall j :: i < j < |elements| ==> elements[j].id != elements[i].id || !HasInitialValue(elements[j])
    ensures elements[i].id in InitialFieldValues(elements, clock)
    ensures InitialFieldValues(elements, clock)[elements[i].id] == ResolvedInitialValue(elements[i], clock)
    ensures FindProvider(elements[i].attributes.initialValue).None? ==>
              InitialFieldValues(elements, clock)[elements[i].id] == Undefined
  {
    assert LastContributor(elements, elements[i].id) == i;
  }

  /** How a column in the list renders: as its editor or as the column itself. */
  datatype RenderedColumn = ColumnEditor(column: Column) | ColumnCards(column: Column)

  /**
   * The columns in display order, each rendered as its editor exactly when its
   * id is the selected column id; nothing is selected initially (`null`).
   */
  function RenderColumns(columns: seq<Column>, selected: Option<string>, sortByDisplayOrder: seq<Column> -> seq<Column>): (r: seq<RenderedColumn>)
    ensures |r| == |sortByDisplayOrder(columns)|
    ensures forall i :: 0 <= i < |r| ==> r[i].column == sortByDisplayOrder(columns)[i]
    ensures forall i :: 0 <= i < |r| ==> (r[i].ColumnEditor? <==> selected == Some(r[i].column.id))
  {
    var sorted := sortByDisplayOrder(columns);
    seq(|sorted|, i requires 0 <= i < |sorted| =>
      if selected == Some(sorted[i].id) then ColumnEditor(sorted[i]) else ColumnCards(sorted[i]))
  }

  /**
   * With distinct column ids at most one column is an editor, and with no
   * selection none is.
   */
  lemma AtMostOneEditor(columns: seq<Column>, selected: Option<string>, sortByDisplayOrder: seq<Column> -> seq<Column>, i: int, j: int)
    requires var sorted := sortByDisplayOrder(columns);
             forall a, b :: 0 <= a < b < |sorted| ==> sorted[a].id != sorted[b].id
    requires var r := RenderColumns(columns, selected, sortByDisplayOrder);
             0 <= i < |r| && 0 <= j < |r| && r[i].ColumnEditor? && r[j].ColumnEditor?
    ensures i == j
    ensures selected.Some?
  {
  }
}
