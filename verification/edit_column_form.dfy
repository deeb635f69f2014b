/**
 * The column editor of src/screens/Board/Column/EditColumnForm.js: typed
 * updates of the column's attributes, the condition list operations, and
 * when the concrete-value editor and the summary-field picker are shown.
 */
module EditColumnForm {
  import opened Wrappers
  import opened JsValues
  import opened Seqs
  import opened Board
  import opened DisplayOrder
  import ColumnView

  /** The top-level column attributes an update can touch. */
  datatype AttributeKey = NameKey | DisplayOrderKey | ConditionsKey | SortOrderKey | GroupingKey | SummaryKey

  /**
   * The `updateAttribute(path, value)` calls the form makes, one per path.
   * Condition updates address the condition by its index in the list.
   */
  datatype ColumnUpdate =
    | SetName(name: string)
    | SetDisplayOrder(text: string)
    | SetConditions(conditions: seq<Condition>)
    | SetConditionField(index: nat, field: Option<string>)
    | SetConditionQuery(index: nat, query: Option<string>)
    | SetConditionValue(index: nat, value: JsValue)
    | SetSortField(field: Option<string>)
    | SetSortDirection(direction: Option<string>)
    | SetGroupField(field: Option<string>)
    | SetGroupDirection(direction: Option<string>)
    | SetSummaryFunction(summaryFunction: Option<string>)
    | SetSummaryField(field: Option<string>)
  {
    /** The attribute the update's path starts with. */
    function Target(): AttributeKey {
      match this
      case SetName(_) => NameKey
      case SetDisplayOrder(_) => DisplayOrderKey
      case SetConditions(_) => ConditionsKey
      case SetConditionField(_, _) => ConditionsKey
      case SetConditionQuery(_, _) => ConditionsKey
      case SetConditionValue(_, _) => ConditionsKey
      case SetSortField(_) => SortOrderKey
      case SetSortDirection(_) => SortOrderKey
      case SetGroupField(_) => GroupingKey
      case SetGroupDirection(_) => GroupingKey
      case SetSummaryFunction(_) => SummaryKey
      case SetSummaryField(_) => SummaryKey
    }
  }

  /** `attributes['card-inclusion-conditions'] ?? []`. */
  function Conditions(a: ColumnAttributes): seq<Condition> {
    a.inclusionConditions.GetOr([])
  }

  /** `a` and `b` agree on every top-level attribute except `key`. */
  predicate SameExcept(a: ColumnAttributes, b: ColumnAttributes, key: AttributeKey) {
    (key != NameKey ==> a.name == b.name)
    && (key != DisplayOrderKey ==> a.displayOrder == b.displayOrder)
    && (key != ConditionsKey ==> a.inclusionConditions == b.inclusionConditions)
    && (key != SortOrderKey ==> a.sortOrder == b.sortOrder)
    && (key != GroupingKey ==> a.grouping == b.grouping)
    && (key != SummaryKey ==> a.summary == b.summary)
  }

  /** The form offers a condition update only for a condition it lists. */
  predicate CanApply(a: ColumnAttributes, u: ColumnUpdate) {
    (u.SetConditionField? || u.SetConditionQuery? || u.SetConditionValue?) ==>
      a.inclusionConditions.Some? && u.index < |a.inclusionConditions.value|
  }

  /** The field and direction of `card-sort-order` or `card-grouping`, with lodash `set` creating it when missing. */
  function WithField(fd: Option<FieldDirection>, field: Option<string>): FieldDirection {
    FieldDirection(field, if fd.Some? then fd.value.direction else None)
  }

  function WithDirection(fd: Option<FieldDirection>, direction: Option<string>): FieldDirection {
    FieldDirection(if fd.Some? then fd.value.field else None, direction)
  }

  /** Writes condition `i` of a listed condition list. */
  function UpdateCondition(conditions: seq<Condition>, i: nat, c: Condition): (r: seq<Condition>)
    requires i < |conditions|
    ensures |r| == |conditions| && r[i] == c
    ensures forall j :: 0 <= j < |r| && j != i ==> r[j] == conditions[j]
  {
    conditions[i := c]
  }

  /**
   * `updateAttribute`: the attribute at the update's path takes the new value
   * and every other attribute keeps its value.
   */
  function ApplyColumnUpdate(a: ColumnAttributes, u: ColumnUpdate): (r: ColumnAttributes)
    requires CanApply(a, u)
    ensures SameExcept(a, r, u.Target())
    ensures u.SetName? ==> r.name == Some(u.name)
    ensures u.SetDisplayOrder? ==> r.displayOrder == ParseOrderInput(u.text)
    ensures u.SetConditions? ==> r.inclusionConditions == Some(u.conditions)
    ensures (u.SetConditionField? || u.SetConditionQuery? || u.SetConditionValue?) ==>
              r.inclusionConditions.Some? && |Conditions(r)| == |Conditions(a)|
              && (forall j :: 0 <= j < |Conditions(r)| && j != u.index ==> Conditions(r)[j] == Conditions(a)[j])
    ensures u.SetConditionField? ==> Conditions(r)[u.index] == Conditions(a)[u.index].(field := u.field)
    ensures u.SetConditionQuery? ==> Conditions(r)[u.index] == Conditions(a)[u.index].(query := u.query)
    ensures u.SetConditionValue? ==> Conditions(r)[u.index] == Conditions(a)[u.index].(value := u.value)
    ensures (u.SetSortField? || u.SetSortDirection?) ==> r.sortOrder.Some?
    ensures u.SetSortField? ==> r.sortOrder.value.field == u.field
                                && (a.sortOrder.Some? ==> r.sortOrder.value.direction == a.sortOrder.value.direction)
    ensures u.SetSortDirection? ==> r.sortOrder.value.direction == u.direction
                                    && (a.sortOrder.Some? ==> r.sortOrder.value.field == a.sortOrder.value.field)
    ensures (u.SetGroupField? || u.SetGroupDirection?) ==> r.grouping.Some?
    ensures u.SetGroupField? ==> r.grouping.value.field == u.field
                                 && (a.grouping.Some? ==> r.grouping.value.direction == a.grouping.value.direction)
    ensures u.SetGroupDirection? ==> r.grouping.value.direction == u.direction
                                     && (a.grouping.Some? ==> r.grouping.value.field == a.grouping.value.field)
    ensures (u.SetSummaryFunction? || u.SetSummaryField?) ==> r.summary.Some?
    ensures u.SetSummaryFunction? ==> r.summary.value.summaryFunction == u.summaryFunction
                                      && (a.summary.Some? ==> r.summary.value.field == a.summary.value.field)
    ensures u.SetSummaryField? ==> r.summary.value.field == u.field
                                   && (a.summary.Some? ==> r.summary.value.summaryFunction == a.summary.value.summaryFunction)
  {
    match u
    case SetName(name) => a.(name := Some(name))
    case SetDisplayOrder(text) => a.(displayOrder := ParseOrderInput(text))
    case SetConditions(conditions) => a.(inclusionConditions := Some(conditions))
    case SetConditionField(i, field) =>
      var cs := a.inclusionConditions.value;
      a.(inclusionConditions := Some(UpdateCondition(cs, i, cs[i].(field := field))))
    case SetConditionQuery(i, query) =>
      var cs := a.inclusionConditions.value;
      a.(inclusionConditions := Some(UpdateCondition(cs, i, cs[i].(query := query))))
    case SetConditionValue(i, value) =>
      var cs := a.inclusionConditions.value;
      a.(inclusionConditions := Some(UpdateCondition(cs, i, cs[i].(value := value))))
    case SetSortField(field) => a.(sortOrder := Some(WithField(a.sortOrder, field)))
    case SetSortDirection(direction) => a.(sortOrder := Some(WithDirection(a.sortOrder, direction)))
    case SetGroupField(field) => a.(grouping := Some(WithField(a.grouping, field)))
    case SetGroupDirection(direction) => a.(grouping := Some(WithDirection(a.grouping, direction)))
    case SetSummaryFunction(f) =>
      a.(summary := Some(Summary(f, if a.summary.Some? then a.summary.value.field else None)))
    case SetSummaryField(field) =>
      a.(summary := Some(Summary(if a.summary.Some? then a.summary.value.summaryFunction else None, field)))
  }

  /** Making the same update twice is the same as making it once. */
  lemma UpdateIsIdempotent(a: ColumnAttributes, u: ColumnUpdate)
    requires CanApply(a, u)
    ensures CanApply(ApplyColumnUpdate(a, u), u)
    ensures ApplyColumnUpdate(ApplyColumnUpdate(a, u), u) == ApplyColumnUpdate(a, u)
  {
    var once := ApplyColumnUpdate(a, u);
    if u.SetConditionField? || u.SetConditionQuery? || u.SetConditionValue? {
      assert Conditions(ApplyColumnUpdate(once, u)) == Conditions(once);
    }
  }

  /**
   * Choosing a sort field and a sort direction, both non-empty, in either
   * order, turns sorting on for the column and keeps everything but the sort order.
   */
  lemma {:induction false} ChoosingSortTurnsSortOn(a: ColumnAttributes, id: string, field: string, direction: string)
    requires field != "" && direction != ""
    ensures var b := ApplyColumnUpdate(ApplyColumnUpdate(a, SetSortField(Some(field))), SetSortDirection(Some(direction)));
            var c := ApplyColumnUpdate(ApplyColumnUpdate(a, SetSortDirection(Some(direction))), SetSortField(Some(field)));
            b == c && ColumnView.SortApplies(Column(id, b)) && SameExcept(a, b, SortOrderKey)
            && b.sortOrder == Some(FieldDirection(Some(field), Some(direction)))
  {
  }

  /** `addCondition`: the listed conditions followed by one empty condition. */
  function AddCondition(a: ColumnAttributes): (r: ColumnAttributes)
    ensures Conditions(r) == Conditions(a) + [EmptyCondition]
    ensures r.inclusionConditions.Some? && SameExcept(a, r, ConditionsKey)
  {
    ApplyColumnUpdate(a, SetConditions(Conditions(a) + [EmptyCondition]))
  }

  /**
   * `removeConditionAtIndex`: `splice(index, 1)` on a copy of the listed
   * conditions. For a listed index exactly that condition goes, the rest keep
   * their order, and the list is one shorter.
   */
  function RemoveConditionAtIndex(a: ColumnAttributes, index: int): (r: ColumnAttributes)
    ensures r.inclusionConditions.Some? && SameExcept(a, r, ConditionsKey)
    ensures 0 <= index < |Conditions(a)| ==>
              |Conditions(r)| == |Conditions(a)| - 1
              && (forall j :: 0 <= j < |Conditions(r)| ==>
                    Conditions(r)[j] == if j < index then Conditions(a)[j] else Conditions(a)[j + 1])
              && multiset(Conditions(r)) + multiset{Conditions(a)[index]} == multiset(Conditions(a))
    ensures index >= |Conditions(a)| ==> Conditions(r) == Conditions(a)
  {
    RemoveAtMultiset(Conditions(a), index);
    ApplyColumnUpdate(a, SetConditions(RemoveAt(Conditions(a), index)))
  }

  /** Removing the condition just added gives the conditions back, now listed explicitly. */
  lemma RemoveAddedCondition(a: ColumnAttributes)
    ensures RemoveConditionAtIndex(AddCondition(a), |Conditions(a)|) == a.(inclusionConditions := Some(Conditions(a)))
  {
    RemoveAppended(Conditions(a), EmptyCondition);
  }

  /** A condition query, as the form's query list offers it. */
  datatype Query = Query(key: string, showConcreteValueField: bool)

  /** `queryOptions.find(query => query.key === key)`. */
  function FindQuery(queries: seq<Query>, key: Option<string>): (r: Option<Query>)
    ensures r.Some? ==> r.value in queries && key == Some(r.value.key)
    ensures r.None? ==> forall i :: 0 <= i < |queries| ==> key != Some(queries[i].key)
  {
    if queries == [] then None
    else if key == Some(queries[0].key) then Some(queries[0])
    else FindQuery(queries[1..], key)
  }

  /** The concrete-value editor shows when the condition's query takes a value and the condition has a field. */
  predicate ShowConcreteValueEditor(queries: seq<Query>, condition: Condition) {
    var query := FindQuery(queries, condition.query);
    query.Some? && query.value.showConcreteValueField && IsSet(condition.field)
  }

  /**
   * With distinct query keys, the concrete-value editor shows exactly when some
   * query with the condition's key takes a value and the condition names a field.
   */
  lemma {:induction false} ConcreteValueEditorMeaning(queries: seq<Query>, condition: Condition)
    requires forall i, j :: 0 <= i < j < |queries| ==> queries[i].key != queries[j].key
    ensures ShowConcreteValueEditor(queries, condition)
            <==> IsSet(condition.field)
                 && exists i :: 0 <= i < |queries| && Some(queries[i].key) == condition.query && queries[i].showConcreteValueField
  {
    if queries != [] {
      ConcreteValueEditorMeaning(queries[1..], condition);
      if Some(queries[0].key) == condition.query {
        forall i | 1 <= i < |queries|
          ensures Some(queries[i].key) != condition.query
        {
          assert queries[0].key != queries[i].key;
        }
      }
      if IsSet(condition.field)
         && exists i :: 0 <= i < |queries| && Some(queries[i].key) == condition.query && queries[i].showConcreteValueField
      {
        var i :| 0 <= i < |queries| && Some(queries[i].key) == condition.query && queries[i].showConcreteValueField;
        if i > 0 {
          assert queries[1..][i - 1] == queries[i];
        }
      }
    }
  }

  /** The summary function key that takes a field. */
  const SumKey: string := "sum"

  /** The summary-field picker shows only for the sum function. */
  predicate ShowSummaryField(a: ColumnAttributes) {
    a.summary.Some? && a.summary.value.summaryFunction == Some(SumKey)
  }

  /**
   * Choosing the sum function shows the picker and puts a summary in the
   * column's title; choosing any other function hides the picker.
   */
  lemma SummaryFieldFollowsFunction(a: ColumnAttributes, id: string, f: Option<string>)
    ensures ShowSummaryField(ApplyColumnUpdate(a, SetSummaryFunction(f))) <==> f == Some(SumKey)
    ensures ShowSummaryField(a) ==> ColumnView.HasSummary(Column(id, a))
  {
  }
}
