/**
 * The field component of src/components/Field.js: what one field shows for a
 * value, read-only or editable.
 */
module FieldDisplay {
  import opened Wrappers
  import opened JsValues
  import opened Board
  import ColumnView

  /** What the field renders. */
  datatype FieldView =
    | UnknownTypeMarker(message: string)
      /** The text shown read-only; `None` renders nothing. */
    | ReadOnlyText(text: Option<string>)
      /** The type's editor, given the value to edit. */
    | Editor(value: JsValue)

  const UnknownTypePrefix: string := "ERROR: unknown data type "

  /** A read-only field reads its options' label flag; the code fails when the options are missing. */
  predicate CanDisplay(field: Element, readOnly: bool, c: Collaborators) {
    readOnly && c.fieldTypes(field.attributes.dataType).Some? ==> field.attributes.options.Some?
  }

  /**
   * An unknown data type shows an error naming the type. A read-only field
   * shows the formatted value, prefixed by `Name: ` (with "(empty)" for no
   * value) when its label flag is set. Otherwise the editor gets the value,
   * with null and undefined replaced by the empty string.
   */
  function Display(field: Element, value: JsValue, readOnly: bool, c: Collaborators): (r: FieldView)
    requires CanDisplay(field, readOnly, c)
    ensures r.UnknownTypeMarker? <==> c.fieldTypes(field.attributes.dataType).None?
    ensures r.UnknownTypeMarker? ==>
              |r.message| >= |UnknownTypePrefix| && r.message[..|UnknownTypePrefix|] == UnknownTypePrefix
              && r.message[|UnknownTypePrefix|..] == JsxText(field.attributes.dataType)
    ensures r.ReadOnlyText? <==> readOnly && c.fieldTypes(field.attributes.dataType).Some?
    ensures r.Editor? ==> !Nullish(r.value) && (Nullish(value) ==> r.value == Str(""))
                          && (!Nullish(value) ==> r.value == value)
  {
    match c.fieldTypes(field.attributes.dataType)
    case None =>
      var text := UnknownTypePrefix + JsxText(field.attributes.dataType);
      assert text[..|UnknownTypePrefix|] == UnknownTypePrefix;
      assert text[|UnknownTypePrefix|..] == JsxText(field.attributes.dataType);
      UnknownTypeMarker(text)
    case Some(fieldType) =>
      if readOnly then
        var formatted := fieldType.formatValue(value, field.attributes.options);
        if field.attributes.options.value.showLabelWhenReadOnly then ReadOnlyText(Some(LabelledText(field.attributes.name, formatted)))
        else ReadOnlyText(formatted)
      else Editor(Coalesce(value, Str("")))
  }

  /**
   * Read-only text: without the label flag the formatted value as it is,
   * possibly nothing; with it `Name: ` and the formatted value or "(empty)".
   */
  lemma ReadOnlyTextMeaning(field: Element, value: JsValue, fieldType: FieldType, c: Collaborators)
    requires c.fieldTypes(field.attributes.dataType) == Some(fieldType) && field.attributes.options.Some?
    ensures var formatted := fieldType.formatValue(value, field.attributes.options);
            var shown := Display(field, value, true, c).text;
            (!field.attributes.options.value.showLabelWhenReadOnly ==> shown == formatted)
            && (field.attributes.options.value.showLabelWhenReadOnly ==>
                  shown == Some(TemplateText(field.attributes.name) + ": " + formatted.GetOr("(empty)")))
  {
  }

  /**
   * A group header of a labelled group field reads exactly like that field
   * shown read-only with the group's value; an unlabelled one differs only in
   * showing "(empty)" where the field shows nothing.
   */
  lemma {:induction false} GroupHeaderIsReadOnlyField(column: Column, elements: seq<Element>, groupValue: JsValue, c: Collaborators)
    requires ColumnView.CanRenderHeader(column, elements, c) && ColumnView.ApplyGrouping(column)
    ensures var groupField := FindElement(elements, column.attributes.grouping.value.field.value).value;
            var shown := Display(groupField, groupValue, true, c).text;
            var header := ColumnView.GroupHeader(column, elements, groupValue, c).value;
            (groupField.attributes.options.value.showLabelWhenReadOnly ==> shown == Some(header))
            && (!groupField.attributes.options.value.showLabelWhenReadOnly ==>
                  (shown.Some? ==> header == shown.value) && (shown.None? ==> header == "(empty)"))
  {
    var groupField := FindElement(elements, column.attributes.grouping.value.field.value).value;
    ColumnView.GroupHeaderText(column, elements, groupValue, c);
    ReadOnlyTextMeaning(groupField, groupValue, c.fieldTypes(groupField.attributes.dataType).value, c);
  }
}
