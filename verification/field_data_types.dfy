/** The closed set of field data types, with the keys stored on elements and their labels. */
module FieldDataTypes {
  import opened Wrappers

  datatype FieldDataType = DateType | DateTimeType | NumberType | TextType {

    /** The key stored in an element's `data-type` attribute. */
    function Key(): string {
      match this
      case DateType => "date"
      case DateTimeType => "datetime"
      case NumberType => "number"
      case TextType => "text"
    }

    function Label(): string {
      match this
      case DateType => "Date"
      case DateTimeType => "Date and Time"
      case NumberType => "Number"
      case TextType => "Text"
    }
  }

  /** `Object.values(FIELD_DATA_TYPES)`, in declaration order. */
  const AllDataTypes: seq<FieldDataType> := [DateType, DateTimeType, NumberType, TextType]

  /** The first type in `types` whose key is `key`. */
  function FindIn(types: seq<FieldDataType>, key: Option<string>): (r: Option<FieldDataType>)
    ensures r.Some? ==> r.value in types && key == Some(r.value.Key())
    ensures r.None? ==> forall i :: 0 <= i < |types| ==> key != Some(types[i].Key())
  {
    if types == [] then None
    else if key == Some(types[0].Key()) then Some(types[0])
    else FindIn(types[1..], key)
  }

  /** `Object.values(FIELD_DATA_TYPES).find(o => o.key === key)`; `None` is a missing key. */
  function FindByKey(key: Option<string>): (r: Option<FieldDataType>)
    ensures r.Some? ==> key == Some(r.value.Key())
  {
    FindIn(AllDataTypes, key)
  }

  /** There are exactly four data types, each listed once. */
  lemma ExactlyFourTypes(t: FieldDataType)
    ensures |AllDataTypes| == 4
    ensures t in AllDataTypes
    ensures forall i, j :: 0 <= i < j < |AllDataTypes| ==> AllDataTypes[i] != AllDataTypes[j]
  {
  }

  /** Different types have different keys. */
  lemma KeysAreDistinct(a: FieldDataType, b: FieldDataType)
    ensures a.Key() == b.Key() <==> a == b
  {
  }

  lemma KeysAndLabels()
    ensures DateType.Key() == "date" && DateType.Label() == "Date"
    ensures DateTimeType.Key() == "datetime" && DateTimeType.Label() == "Date and Time"
    ensures NumberType.Key() == "number" && NumberType.Label() == "Number"
    ensures TextType.Key() == "text" && TextType.Label() == "Text"
  {
  }

  /** Looking a type up by its own key finds it; a key no type has finds nothing. */
  lemma FindByKeyMeaning(key: Option<string>, t: FieldDataType)
    ensures FindByKey(Some(t.Key())) == Some(t)
    ensures (forall u: FieldDataType :: key != Some(u.Key())) <==> FindByKey(key).None?
  {
    ExactlyFourTypes(t);
    KeysAreDistinct(t, FindByKey(Some(t.Key())).value);
    if FindByKey(key).None? {
      forall u: FieldDataType
        ensures key != Some(u.Key())
      {
        ExactlyFourTypes(u);
      }
    }
  }
}
