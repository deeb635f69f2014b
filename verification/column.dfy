/**
 * One column of src/screens/Board/Column/Column.js: the cards it includes,
 * their order, whether they are grouped, the group headers and the title.
 */
module ColumnView {
  import opened Wrappers
  import opened JsValues
  import opened Seqs
  import opened StableSort
  import opened Board

  /** The inclusion conditions as `checkConditions` receives them. */
  function ConditionList(conditions: Option<seq<Condition>>): (r: Option<seq<Option<Condition>>>)
    ensures conditions.None? <==> r.None?
    ensures conditions.Some? ==>
              |r.value| == |conditions.value|
              && forall i :: 0 <= i < |conditions.value| ==> r.value[i] == Some(conditions.value[i])
  {
    match conditions
    case None => None
    case Some(cs) => Some(seq(|cs|, i requires 0 <= i < |cs| => Some(cs[i])))
  }

  /** Whether a card satisfies the column's inclusion conditions. */
  predicate Included(card: Card, column: Column, elements: seq<Element>, c: Collaborators) {
    c.checkConditions(card.fieldValues, ConditionList(column.attributes.inclusionConditions), elements)
  }

  /** `filteredCards`: the cards satisfying the inclusion conditions. */
  function FilteredCards(cards: seq<Card>, column: Column, elements: seq<Element>, c: Collaborators): (r: seq<Card>)
    ensures forall i :: 0 <= i < |r| ==> r[i] in cards && Included(r[i], column, elements, c)
    ensures forall i :: 0 <= i < |cards| && Included(cards[i], column, elements, c) ==> cards[i] in r
  {
    Filter(cards, (card: Card) => Included(card, column, elements, c))
  }

  /** The filtered cards keep their relative order, and keep every included card as often as it occurs. */
  lemma FilteredCardsKeepOrder(cards: seq<Card>, column: Column, elements: seq<Element>, c: Collaborators, card: Card)
    ensures IsSubsequence(FilteredCards(cards, column, elements, c), cards)
    ensures multiset(FilteredCards(cards, column, elements, c))[card]
              == if Included(card, column, elements, c) then multiset(cards)[card] else 0
  {
    FilterIsSubsequence(cards, (card: Card) => Included(card, column, elements, c));
    FilterCount(cards, (card: Card) => Included(card, column, elements, c), card);
  }

  /** Cards are sorted only when the sort order has both a field and a direction. */
  predicate SortApplies(column: Column) {
    var order := column.attributes.sortOrder;
    order.Some? && IsSet(order.value.field) && IsSet(order.value.direction)
  }

  /**
   * The code reads the sort field's element (failing when it is missing) and,
   * once there is a card to sort, the field type of its data type (failing
   * when there is none).
   */
  predicate CanSort(cards: seq<Card>, column: Column, elements: seq<Element>, c: Collaborators) {
    SortApplies(column) ==>
      var sortField := FindElement(elements, column.attributes.sortOrder.value.field.value);
      sortField.Some?
      && (|FilteredCards(cards, column, elements, c)| > 0 ==> c.fieldTypes(sortField.value.attributes.dataType).Some?)
  }

  /** The sort value of a card: its value of the sort field, mapped by the field's type. */
  function SortKey(column: Column, elements: seq<Element>, c: Collaborators): Card -> int
    requires SortApplies(column)
  {
    var fieldId := column.attributes.sortOrder.value.field.value;
    match FindElement(elements, fieldId)
    case None => (card: Card) => 0
    case Some(sortField) =>
      match c.fieldTypes(sortField.attributes.dataType)
      case None => (card: Card) => 0
      case Some(fieldType) =>
        (card: Card) => fieldType.sortValue(ValueOf(card.fieldValues, fieldId), sortField.attributes.options)
  }

  predicate IsDescending(column: Column) {
    column.attributes.sortOrder.Some? && column.attributes.sortOrder.value.direction == Some(DescendingKey)
  }

  /**
   * `columnCards`: the filtered cards, stably sorted by sort value when a sort
   * applies and then reversed as a whole for the descending direction.
   */
  function ColumnCards(cards: seq<Card>, column: Column, elements: seq<Element>, c: Collaborators): (r: seq<Card>)
    requires CanSort(cards, column, elements, c)
    ensures !SortApplies(column) ==> r == FilteredCards(cards, column, elements, c)
    ensures multiset(r) == multiset(FilteredCards(cards, column, elements, c))
  {
    var filtered := FilteredCards(cards, column, elements, c);
    if !SortApplies(column) then filtered
    else
      var key := SortKey(column, elements, c);
      ReverseMultiset(Sort(filtered, key));
      if IsDescending(column) then SortDescending(filtered, key) else Sort(filtered, key)
  }

  /**
   * An ascending column is the filtered cards in non-decreasing sort value,
   * with cards of equal value in their filtered order; it is the only such order.
   */
  lemma AscendingColumnOrder(cards: seq<Card>, column: Column, elements: seq<Element>, c: Collaborators, k: int, t: seq<Card>)
    requires CanSort(cards, column, elements, c) && SortApplies(column) && !IsDescending(column)
    ensures var key := SortKey(column, elements, c);
            var filtered := FilteredCards(cards, column, elements, c);
            var r := ColumnCards(cards, column, elements, c);
            SortedBy(r, key) && WithKey(r, key, k) == WithKey(filtered, key, k)
            && (SortedBy(t, key) && (forall j :: WithKey(t, key, j) == WithKey(filtered, key, j)) ==> t == r)
  {
    var key := SortKey(column, elements, c);
    var filtered := FilteredCards(cards, column, elements, c);
    assert ColumnCards(cards, column, elements, c) == Sort(filtered, key);
    SortIsStable(filtered, key, k);
    if SortedBy(t, key) && (forall j :: WithKey(t, key, j) == WithKey(filtered, key, j)) {
      SortIsUnique(filtered, t, key);
    }
  }

  /**
   * A descending column is the ascending order reversed: sort values never
   * increase, and cards of equal value come in reverse filtered order.
   */
  lemma DescendingColumnOrder(cards: seq<Card>, column: Column, elements: seq<Element>, c: Collaborators, k: int)
    requires CanSort(cards, column, elements, c) && SortApplies(column) && IsDescending(column)
    ensures var key := SortKey(column, elements, c);
            var filtered := FilteredCards(cards, column, elements, c);
            var r := ColumnCards(cards, column, elements, c);
            r == Reverse(Sort(filtered, key))
            && (forall i, j :: 0 <= i < j < |r| ==> key(r[i]) >= key(r[j]))
            && WithKey(r, key, k) == Reverse(WithKey(filtered, key, k))
  {
    var key := SortKey(column, elements, c);
    SortDescendingMeaning(FilteredCards(cards, column, elements, c), key, k);
  }

  /** Grouping applies only when the grouping has both a field and a direction. */
  predicate ApplyGrouping(column: Column) {
    var grouping := column.attributes.grouping;
    grouping.Some? && IsSet(grouping.value.field) && IsSet(grouping.value.direction)
  }

  /**
   * With grouping on, the header reads the group field's element, its field
   * type and its options, failing when any of them is missing.
   */
  predicate CanRenderHeader(column: Column, elements: seq<Element>, c: Collaborators) {
    ApplyGrouping(column) ==>
      var groupField := FindElement(elements, column.attributes.grouping.value.field.value);
      groupField.Some?
      && c.fieldTypes(groupField.value.attributes.dataType).Some?
      && groupField.value.attributes.options.Some?
  }

  /**
   * `renderSectionHeader`: no header without grouping; otherwise the group's
   * formatted value, or "(empty)", labelled with the field name when the
   * field shows its label when read-only.
   */
  function GroupHeader(column: Column, elements: seq<Element>, groupValue: JsValue, c: Collaborators): (r: Option<string>)
    requires CanRenderHeader(column, elements, c)
    ensures r.Some? <==> ApplyGrouping(column)
  {
    if !ApplyGrouping(column) then None
    else
      var groupField := FindElement(elements, column.attributes.grouping.value.field.value).value;
      var attributes := groupField.attributes;
      var formatted := c.fieldTypes(attributes.dataType).value.formatValue(groupValue, attributes.options);
      if attributes.options.value.showLabelWhenReadOnly then Some(LabelledText(attributes.name, formatted))
      else Some(formatted.GetOr(EmptyText))
  }

  /** What a group header shows, in terms of the group field's formatted value. */
  lemma GroupHeaderText(column: Column, elements: seq<Element>, groupValue: JsValue, c: Collaborators)
    requires CanRenderHeader(column, elements, c) && ApplyGrouping(column)
    ensures var groupField := FindElement(elements, column.attributes.grouping.value.field.value).value;
            var formatted := c.fieldTypes(groupField.attributes.dataType).value.formatValue(groupValue, groupField.attributes.options);
            var header := GroupHeader(column, elements, groupValue, c).value;
            (formatted.None? && !groupField.attributes.options.value.showLabelWhenReadOnly ==> header == "(empty)")
            && (formatted.Some? && !groupField.attributes.options.value.showLabelWhenReadOnly ==> header == formatted.value)
            && (groupField.attributes.options.value.showLabelWhenReadOnly ==>
                  header == TemplateText(groupField.attributes.name) + ": " + formatted.GetOr("(empty)"))
  {
  }

  const UnnamedColumnText: string := "(unnamed column)"

  predicate HasSummary(column: Column) {
    column.attributes.summary.Some? && IsSet(column.attributes.summary.value.summaryFunction)
  }

  /**
   * The column title: the name, or "(unnamed column)", followed by the summary
   * in parentheses when a summary function is set.
   */
  function Title(cards: seq<Card>, column: Column, elements: seq<Element>, c: Collaborators): (r: string)
    requires CanSort(cards, column, elements, c)
    ensures var name := column.attributes.name.GetOr(UnnamedColumnText);
            |r| >= |name| && r[..|name|] == name
    ensures !HasSummary(column) ==> r == column.attributes.name.GetOr(UnnamedColumnText)
  {
    var name := column.attributes.name.GetOr(UnnamedColumnText);
    if HasSummary(column) then
      var r := name + " (" + c.calculateSummary(ColumnCards(cards, column, elements, c), column.attributes.summary.value) + ")";
      assert r[..|name|] == name;
      r
    else name
  }

  /** The summary is computed over the column's cards after filtering and sorting. */
  lemma TitleSummary(cards: seq<Card>, column: Column, elements: seq<Element>, c: Collaborators)
    requires CanSort(cards, column, elements, c) && HasSummary(column)
    ensures var summarized := ColumnCards(cards, column, elements, c);
            Title(cards, column, elements, c)
              == column.attributes.name.GetOr(UnnamedColumnText)
                 + " (" + c.calculateSummary(summarized, column.attributes.summary.value) + ")"
            && multiset(summarized) == multiset(FilteredCards(cards, column, elements, c))
  {
  }
}
