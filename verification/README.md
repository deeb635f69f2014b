# Riverbed board logic in Dafny

This project models the logic of the Riverbed board app (riverbed-expo). A board holds
elements (fields, buttons and button menus), cards that carry a value per field, and
columns that filter, sort, group and summarise the cards. The model covers:

- the calendar-date helpers (`dateUtils`): server strings `YYYY-MM-DD`, the human format
  `ddd MMM D, YYYY`, adding days and the month-offset test. Dates are integer day numbers
  with a proved civil-date conversion. Instants are integer local milliseconds.
- the value providers `empty` and `now`, and the four field data types;
- the card editor: editing a field, resolving button actions (`set-value`, `add-days`)
  into field-value patches, merging the patches so that the later one wins, saving, and
  choosing the elements to show;
- the column pipeline: filter by inclusion conditions, stable sort by a per-type key,
  reverse for a descending sort, the grouping gate, group headers and the column title;
- the initial field values of a new card, and which column renders as its editor;
- how a field displays a value read-only or as an editor;
- the column and element editors: typed attribute updates, adding and removing
  conditions, choices and menu items, parsing the order input, and which inputs are shown.

Helpers whose code is not part of this model are function-valued parameters:
`checkConditions`, `fieldTypes` (`formatValue`, `getSortValue`), `sortByDisplayOrder`
and `calculateSummary` (in `Board.Collaborators`), and the date-time helpers of
`dateTimeUtils` together with the current instant (in `Values.Clock`). A JavaScript value
is `JsValues.JsValue`, and the model states its truthiness, `??`, template-literal
rendering and `Number(...)` explicitly. Where the code dereferences something that may be
missing and would fail, the model has a precondition (`CanPerform`, `CanSort`,
`CanRenderHeader`, `CanDisplay`, and the `requires` of `RemoveButtonMenuItemAtIndex` and
`VisibleSections`).
`CanApply` is different: the code would not fail there. It limits condition updates to the
conditions the form lists, which are the only ones it offers.

Files: `wrappers.dfy`, `decimal.dfy` (digit strings), `calendar.dfy` (civil dates),
`js_values.dfy`, `date_utils.dfy`, `field_data_types.dfy`, `values.dfy`, `board.dfy`
(the records), `seqs.dfy` (filter, reverse, splice), `stable_sort.dfy`,
`edit_card_form.dfy`, `column.dfy`, `column_list.dfy`, `field_display.dfy`,
`display_order.dfy`, `edit_column_form.dfy`, `edit_element_form.dfy`.

## Model

| member | source | states |
|---|---|---|
| DateUtils.AddDaysTo | src/utils/dateUtils.js:7-9 | Adding n days moves the instant to the day Math.round(n) days later and keeps the time of day. A NaN count or an invalid date gives the invalid date. |
| DateUtils.AddDaysToShiftsCalendarDate | src/utils/dateUtils.js:7-9 | On the calendar, adding n days to an instant moves its date by Math.round(n) days (Calendar.AddDays). This links the lemmas about Calendar.AddDays below to `addDays`. |
| DateUtils.AddDaysToZero | src/utils/dateUtils.js:7-9 | Adding zero days leaves the instant unchanged. |
| DateUtils.AddDaysToCompose | src/utils/dateUtils.js:7-9 | For whole day counts, adding a days and then b days is the same as adding a + b days. |
| DateUtils.HalfDaysDoNotCompose | src/utils/dateUtils.js:7-9 | Fractional counts do not compose, because each call rounds: adding 0.5 days twice moves two days, but adding 1 day moves one. |
| Calendar.AddDaysZero | src/utils/dateUtils.js:7-9 | Adding zero days to a real civil date gives the same date. |
| Calendar.AddDaysCompose | src/utils/dateUtils.js:7-9 | For whole day counts, shifting a civil date by a days and then b days is the same as shifting it by a + b days. |
| Calendar.AddDaysIsRepeatedNextDay | src/utils/dateUtils.js:7-9 | Adding n days equals n steps of the calendar's next-day rule, across month ends, year ends and February 29th. |
| Calendar.DateRoundTrip | src/utils/dateUtils.js:26-36 | Turning a real civil date into its day number and back gives the same date. This underlies both parsing and formatting. |
| Calendar.DayNumberInjective | src/utils/dateUtils.js:26-36 | Two real dates have the same day number exactly when they are the same date. |
| Calendar.WeekdayCycle | src/utils/dateUtils.js:4 | The weekday the human format names advances by one each day and repeats every seven days. |
| DateUtils.ServerDateTextIsZeroPadded | src/utils/dateUtils.js:3 | The server text of a date in years 0..9999 has the `DDDD-DD-DD` shape, and its digits read back as that date. |
| DateUtils.ServerStringToObject | src/utils/dateUtils.js:26-28 | A falsy input (null, undefined, '') comes back unchanged. Any other input becomes a Date object. |
| DateUtils.ServerStringToHumanString | src/utils/dateUtils.js:29-31 | A falsy input comes back unchanged. Any other input becomes a string. |
| DateUtils.HumanStringOfServerDate | src/utils/dateUtils.js:29-31 | A server string naming a real date in years 100..9999 is shown as that date's `ddd MMM D, YYYY` text. |
| DateUtils.ObjectToServerString | src/utils/dateUtils.js:32-36 | A falsy input comes back unchanged. Any other input becomes a string. |
| DateUtils.ParseServerDate | src/utils/dateUtils.js:26-28 | A server string naming a real date in years 100..9999 parses to the local midnight that starts that date. |
| DateUtils.ServerStringRoundTrip | src/utils/dateUtils.js:26-36 | For a server string naming a real date in years 100..9999, formatting the parsed object gives the same string back. |
| DateUtils.InstantRoundTrip | src/utils/dateUtils.js:26-36 | Formatting an instant and parsing the result gives the midnight that starts the instant's day. |
| DateUtils.RollOverExample | src/utils/dateUtils.js:26-36 | "2023-02-30" does not exist: it rolls over and is written back as "2023-03-02". |
| DateUtils.TwoDigitYearExample | src/utils/dateUtils.js:26-36 | Years 0..99 are read as 1900..1999, so "0050-01-01" is written back as "1950-01-01". |
| DateUtils.FormatMidnight | src/utils/dateUtils.js:3-4 | The midnight of a real date formats as that date's server text and as its human text. |
| DateUtils.HumanTextExample | src/utils/dateUtils.js:4 | January 1st, 2023 has the human text "Sun Jan 1, 2023". |
| DateUtils.HumanStringExample | src/utils/dateUtils.js:29-31 | "2023-01-01" becomes "Sun Jan 1, 2023", as the field-data-types end-to-end test expects. |
| DateUtils.IsMonthOffset | src/utils/dateUtils.js:13-16 | An empty or missing date string counts as being at every month offset. |
| DateUtils.MonthOffsetMeaning | src/utils/dateUtils.js:18-24 | For a real date, the test holds exactly when the date is in now's year and its month is now's month plus the offset. |
| DateUtils.MonthOffsetNeverWraps | src/utils/dateUtils.js:21-24 | An offset that leads out of now's year matches no date at all. |
| DateUtils.IsCurrentMonth | src/utils/dateUtils.js:10-12 | `isCurrentMonth` is the month-offset test with offset 0. At that offset the test as written and the corrected test agree. |
| DateUtils.CurrentMonthMeaning | src/utils/dateUtils.js:10-12 | A real date is in the current month exactly when its year and month are now's. |
| DateUtils.MonthOffsetAcrossYearsMeaning | src/utils/dateUtils.js:18-24 | With the corrected test, a date is at the offset exactly when its month index is now's month index plus the offset. |
| DateUtils.MonthOffsetTestsAgreeWithinYear | src/utils/dateUtils.js:21-24 | When the target month lies inside now's year, the test as written and the corrected test agree. |
| DateUtils.NextMonthMissedInDecember | src/utils/dateUtils.js:21-24 | In December, a January date of the next year is not at offset 1 as written, but is with the corrected test. |
| DateUtils.NextMonthInDecember | src/utils/dateUtils.js:21-24 | On 2023-12-15, "2024-01-10" is not next month as written, but is with the corrected test. |
| Values.Call | src/enums/values.js:6-28 | `empty` gives null for every data type. `now` reports a problem, and gives undefined, exactly when the type is not date, datetime or text. |
| Values.FindProvider | src/screens/Card/EditCardForm.js:86 | Only a string equal to a provider's key finds that provider. |
| Values.FindProviderMeaning | src/enums/values.js:7-13 | The keys `empty` and `now` are distinct. Each provider is found by its own key. Nothing else finds a provider. |
| Values.NowOnDateIsToday | src/enums/values.js:17-18 | `now` on a date field gives today's server string, which parses back to the midnight that starts today. |
| Values.NowOnDateTimeAndText | src/enums/values.js:19-22 | `now` on datetime and text fields hands the current instant to the two date-time helpers. |
| Values.NowOnNumberFails | src/enums/values.js:23-25 | `now` on a number field gives undefined and reports the invalid data type. |
| FieldDataTypes.ExactlyFourTypes | src/enums/fieldDataTypes.js:1-6 | There are exactly four data types, each listed once. |
| FieldDataTypes.KeysAreDistinct | src/enums/fieldDataTypes.js:2-5 | Two types have the same key exactly when they are the same type. |
| FieldDataTypes.KeysAndLabels | src/enums/fieldDataTypes.js:2-5 | The keys map to labels as date to Date, datetime to Date and Time, number to Number, and text to Text. |
| FieldDataTypes.FindByKeyMeaning | src/screens/Board/Element/EditElementForm.js:120-122 | Looking up a type's own key finds that type. A key that no type has finds nothing, and only such a key finds nothing. |
| Board.FindElement | src/screens/Card/EditCardForm.js:82 | The lookup finds the first element with the id, or reports that no element has it. |
| EditCardForm.SetFieldValue | src/screens/Card/EditCardForm.js:66-69 | The edited field takes the new value. Every other field keeps its value. The form is marked changed. |
| EditCardForm.SetFieldValueTwice | src/screens/Card/EditCardForm.js:66-69 | Setting a field twice leaves only the second value. |
| EditCardForm.StartDate | src/screens/Card/EditCardForm.js:98-106 | The start date is the later of the stored date and now. A valid stored date at or after now is returned as it is. Otherwise the start is now. |
| EditCardForm.PerformAction | src/screens/Card/EditCardForm.js:79-114 | A patch only ever touches the action's field. There is no patch exactly for an unknown command or for `set-value` with an unknown provider, and then a problem is reported. `add-days` always patches. |
| EditCardForm.SetValueWritesProvidedValue | src/screens/Card/EditCardForm.js:85-91 | `set-value` with a known provider writes that provider's value for the field's data type. |
| EditCardForm.StartDayOfStoredDate | src/screens/Card/EditCardForm.js:98-106 | The start day is the later of the stored date and today. |
| EditCardForm.AddDaysFromStart | src/screens/Card/EditCardForm.js:107-110 | `add-days` writes the server text of the day that lies Math.round(n) days after the start day. |
| EditCardForm.AddDaysFromStoredDate | src/screens/Card/EditCardForm.js:96-110 | On a field holding a server date, the new date is the rounded day count after the later of that date and today. |
| EditCardForm.AddDaysFromToday | src/screens/Card/EditCardForm.js:98-110 | On a field with no stored value, the count starts from today. |
| EditCardForm.AddDaysNotANumber | src/screens/Card/EditCardForm.js:108-109 | A day count that is not a number writes the text "Invalid Date". |
| EditCardForm.FormatMovedInstant | src/utils/dateUtils.js:7-9 | Moving an instant by n days and formatting it gives the server text of the day Math.round(n) days later. |
| EditCardForm.MergePatches | src/screens/Card/EditCardForm.js:72-75 | A key is merged exactly when some patch has it. Its value comes from the last patch that has it. An action without a patch contributes nothing. |
| EditCardForm.Resolve | src/screens/Card/EditCardForm.js:74 | Each action is resolved on its own, in order. |
| EditCardForm.HandleUpdateCard | src/screens/Card/EditCardForm.js:121-128 | What is sent is the draft overlaid with the overrides: override keys take the override value, other keys keep the draft value. Afterwards the form is unchanged. |
| EditCardForm.PerformActionsMeaning | src/screens/Card/EditCardForm.js:71-77 | A pressed button sends, for each field, the value from the last action that patched it. Fields that no action patched are sent unchanged. |
| EditCardForm.ShownElements | src/screens/Card/EditCardForm.js:56-64 | The shown elements are exactly the elements whose show condition holds. |
| EditCardForm.ShownElementsKeepOrder | src/screens/Card/EditCardForm.js:57-63 | Shown elements keep their board order before the display-order sort. |
| ColumnView.FilteredCards | src/screens/Board/Column/Column.js:31-37 | The filtered cards are exactly the cards that meet the inclusion conditions. |
| ColumnView.FilteredCardsKeepOrder | src/screens/Board/Column/Column.js:31-37 | Filtering keeps the cards' relative order, and keeps each included card as many times as it occurs. |
| ColumnView.ColumnCards | src/screens/Board/Column/Column.js:38-55 | Unless both a sort field and a direction are set, the column is the filtered cards as they are. The column is always a permutation of the filtered cards. |
| ColumnView.AscendingColumnOrder | src/screens/Board/Column/Column.js:40-49 | An ascending column is non-decreasing by sort value and keeps the filtered order among equal values. It is the only such order. |
| ColumnView.DescendingColumnOrder | src/screens/Board/Column/Column.js:50-52 | A descending column is the ascending result reversed: values never increase, and ties come in reverse filtered order. |
| ColumnView.GroupHeader | src/screens/Board/Column/Column.js:87-106 | There is a header exactly when both a grouping field and a grouping direction are set. |
| ColumnView.GroupHeaderText | src/screens/Board/Column/Column.js:92-101 | The header is the formatted group value, or "(empty)". With the label flag set, it is prefixed by `Name: `. |
| ColumnView.Title | src/screens/Board/Column/Column.js:69-73 | The title starts with the column name, or with "(unnamed column)". Without a summary function it is just that. |
| ColumnView.TitleSummary | src/screens/Board/Column/Column.js:71-73 | With a summary function, the title appends the summary in parentheses. The summary is computed over the filtered and sorted column cards. |
| StableSort.Sort | src/screens/Board/Column/Column.js:43-49 | The stable sort by key gives a permutation of its input that is non-decreasing by key. |
| StableSort.SortIsStable | src/screens/Board/Column/Column.js:43-49 | Elements with equal keys keep their input order. |
| StableSort.SortIsUnique | src/screens/Board/Column/Column.js:43-49 | Any sorted sequence with the same elements per key, in the same order, is the sort's result. |
| StableSort.SortDescendingMeaning | src/screens/Board/Column/Column.js:50-52 | The reversed sort is a permutation that never increases by key, and it reverses the order of each key's elements. |
| Seqs.FilterIsSubsequence | src/screens/Board/Column/Column.js:31-37 | A filter's result is a subsequence of its input. |
| Seqs.RemoveAt | src/screens/Board/Column/EditColumnForm.js:158-159 | `splice(index, 1)` on a copy removes exactly the element at a listed index and shifts the rest down. An index past the end removes nothing. |
| Seqs.RemoveAtMultiset | src/screens/Board/Column/EditColumnForm.js:158-159 | Removing a listed element takes exactly one occurrence of it out. |
| ColumnList.ResolvedInitialValue | src/screens/Board/Column/ColumnList.js:160-166 | An initial value that names no provider resolves to undefined. `empty` resolves to null. |
| ColumnList.InitialFieldValues | src/screens/Board/Column/ColumnList.js:154-169 | An id has an entry exactly when a contributing field has that id. The value comes from the last such field. |
| ColumnList.InitialValueKeys | src/screens/Board/Column/ColumnList.js:155-159 | Only field elements whose initial value is not null contribute a key. |
| ColumnList.InitialValueOfField | src/screens/Board/Column/ColumnList.js:160-168 | A field's entry is its provider's value for the field's data type. An unknown key gives an undefined entry, not a missing one. |
| ColumnList.RenderColumns | src/screens/Board/Column/ColumnList.js:104-130 | The columns render in display order, and a column renders as its editor exactly when its id is the selected id. |
| ColumnList.AtMostOneEditor | src/screens/Board/Column/ColumnList.js:105 | With distinct column ids, at most one column is an editor. With nothing selected, none is. |
| FieldDisplay.Display | src/components/Field.js:5-45 | An unknown data type shows "ERROR: unknown data type " followed by the type. A known type shows read-only text exactly when read-only. The editor never gets null or undefined: those become ''. |
| FieldDisplay.ReadOnlyTextMeaning | src/components/Field.js:21-26 | Without the label flag, the field shows the formatted value as it is, possibly nothing. With it, the field shows `Name: ` and the value, or "(empty)". |
| FieldDisplay.GroupHeaderIsReadOnlyField | src/screens/Board/Column/Column.js:92-101 | A labelled group header reads exactly like its field shown read-only. An unlabelled one shows "(empty)" where the field shows nothing. |
| DisplayOrder.ParseOrderInput | src/screens/Board/Column/EditColumnForm.js:93-98 | An empty input becomes null. Any other input becomes `Number(input)`, which is NaN for text that is not a number. |
| DisplayOrder.OrderInputRoundTrip | src/screens/Board/Column/EditColumnForm.js:88-98 | Parsing the shown `String(order)` of a whole number gives the order back. |
| EditColumnForm.ApplyColumnUpdate | src/screens/Board/Column/EditColumnForm.js:37-43 | Each update sets the value at its path and leaves every other top-level attribute unchanged. Condition, sort, grouping and summary updates keep the sibling values at their path. |
| EditColumnForm.UpdateIsIdempotent | src/screens/Board/Column/EditColumnForm.js:37-43 | Making the same update twice is the same as making it once. |
| EditColumnForm.ChoosingSortTurnsSortOn | src/screens/Board/Column/EditColumnForm.js:250-266 | Choosing a sort field and a direction, in either order, turns sorting on and changes nothing but the sort order. |
| EditColumnForm.AddCondition | src/screens/Board/Column/EditColumnForm.js:151-155 | One empty condition is appended to the listed conditions (a missing list counts as empty). Nothing else changes. |
| EditColumnForm.RemoveConditionAtIndex | src/screens/Board/Column/EditColumnForm.js:157-161 | Exactly the condition at the index goes, the others keep their order, and the list is one shorter. |
| EditColumnForm.RemoveAddedCondition | src/screens/Board/Column/EditColumnForm.js:151-161 | Removing the condition just added gives the original conditions back. |
| EditColumnForm.ConcreteValueEditorMeaning | src/screens/Board/Column/EditColumnForm.js:205-207 | The concrete-value editor shows exactly when the condition's query takes a value and the condition names a field. |
| EditColumnForm.SummaryFieldFollowsFunction | src/screens/Board/Column/EditColumnForm.js:323-328 | The summary-field picker shows exactly when the summary function is `sum`. When it shows, the title carries a summary. |
| EditElementForm.AddChoice | src/screens/Board/Element/EditElementForm.js:82-86 | One choice with the fresh id is appended (missing choices count as none). Nothing else changes, in the attributes or among the other options (`actions`, the items and both flags). |
| EditElementForm.RemoveChoiceAtIndex | src/screens/Board/Element/EditElementForm.js:88-92 | Exactly the choice at the index goes and the rest keep their order. Missing choices count as none. The other attributes and options are kept. |
| EditElementForm.AddButtonMenuItem | src/screens/Board/Element/EditElementForm.js:70-74 | One empty menu item is appended (missing items count as none). Nothing else changes, in the attributes or among the other options (`actions`, the choices and both flags). |
| EditElementForm.RemoveButtonMenuItemAtIndex | src/screens/Board/Element/EditElementForm.js:76-80 | Requires an existing item list. Exactly the item at the index goes and the rest keep their order. The other attributes and options are kept. |
| EditElementForm.RemoveAddedEntries | src/screens/Board/Element/EditElementForm.js:70-92 | Removing the choice or menu item just added gives the original list back. |
| EditElementForm.ApplyElementUpdate | src/screens/Board/Element/EditElementForm.js:45-51 | Each update sets its attribute and nothing else. An option flag changes only that flag among the options. A type or provider is stored by key and found again by it. The order input is parsed. |
| EditElementForm.VisibleSections | src/screens/Board/Element/EditElementForm.js:115-212 | For an element whose options are present when it is a field: field inputs show exactly for a field, the multiline box exactly for a text field, action inputs for a button and menu items for a button menu. |
| EditElementForm.SectionsExclusive | src/screens/Board/Element/EditElementForm.js:115-212 | At most one of the field, action and menu groups shows, and any other element type shows none (a field carrying its options). |
| EditElementForm.MultilineFollowsDataType | src/screens/Board/Element/EditElementForm.js:166-175 | Setting the data type of a field that carries its options shows the multiline box exactly when the type is text. |
| EditElementForm.ActionValueInputFor | src/screens/Board/Element/EditElementForm.js:300-318 | The days input shows exactly for `add-days`, with the stored value or ''. Otherwise the value dropdown shows. It selects the provider whose key is stored, and only that one. With no action, nothing is selected. |
| EditElementForm.ActionInputsMatchCardForm | src/screens/Board/Element/EditElementForm.js:300-318 | Read against one and the same action: the provider the dropdown selects is the one `set-value` calls, and whole days typed into the days input are the days `add-days` adds. |

## Left out

- Debounced saving, mount tracking, loading and error states, network requests and navigation. These are React and I/O plumbing.
- Time zones and daylight saving time. An instant is local milliseconds, and a day is exactly 86,400,000 ms.
- Lenient dayjs parsing. Only the canonical `YYYY-MM-DD` shape is parsed; any other non-empty string is the invalid date.
- `Number(...)`: whitespace, exponents, hex and `Infinity` are not modelled. `String(order)` is modelled only for whole numbers.
- The text of `console.error` diagnostics. They are the `Values.Problem` values an operation returns, except in `ColumnList.ResolvedInitialValue` (below).
- One `Clock.now` stands for both `new Date()` and `now()` within one button press (the code calls `new Date()` again for each action of the press), and for `dayjs()` in the month-offset test.
- `checkConditions`, `groupCards`, `calculateSummary`, `fieldTypes`, `sortByDisplayOrder`, `dateTimeUtils`, `now` and `uuid`. These are parameters because their code is not part of this model. The sort value is an integer, which can stand for any total preorder on the finitely many values a sort sees. Splitting column cards into groups (`groupCards`) is not modelled; only the grouping gate and the header text are.
- The enum values the forms compare against (`descending`, `sum`, `set-value`, `add-days`, the query list) are constants or parameters, because those enum files are not part of this model.
- The choices editor of `EditElementForm`. It is shown under `FIELD_DATA_TYPES.CHOICE`, but the four-type enum defines no `CHOICE`, so as written `FIELD_DATA_TYPES.CHOICE.key` (src/screens/Board/Element/EditElementForm.js:176) throws on every render of a field element. The model assumes a `CHOICE` tag defined outside the four shown; it does not model when the choices editor shows, only adding and removing choices.
- ColumnList.ResolvedInitialValue: the invalid-data-type diagnostic of `now` on a field that is not a date, datetime or text field (a number field, say) is dropped; the entry is the provider's value only.
- The two forms read and write different places. The element form edits a button's `action` (src/screens/Board/Element/EditElementForm.js:205-207) and a menu item's `options.items[i].action` (:233-237). The card form performs a button's `options.actions` (src/screens/Card/EditCardForm.js:159) and a menu item's `actions` (:170). `EditElementForm.ActionInputsMatchCardForm` therefore relates the two only for one and the same action. The sub-path updates `action.*`, `options.items[i].*` and `options.choices[i].label`, the show-condition inputs and `show-in-summary` are not modelled.
- lodash `set` mutates nested objects shared with the previous state. The model is purely functional and does not model that aliasing. Condition updates by index are modelled only for listed indices (the form renders no others).
- ColumnView.SortKey: lodash `get` reads `attributes.field-values.<id>` as a dotted path, so an id containing `.` would be split. The model reads the value by its whole id.
- JsValues.Round: JavaScript numbers are IEEE doubles, but the model uses exact reals. Rounding to the nearest double is not modelled. For example, `Number("2.4999999999999999")` is the double 2.5, which Math.round takes to 3, while the model rounds the exact value to 2.
- DateUtils.AddDaysTo: JavaScript clips Date values to ±8.64e15 ms, and anything beyond is the invalid date. The model's instants are unbounded, so a huge day count such as 1000000000 gives a real date instead of "Invalid Date". ToDayjs of a number is not clipped either.
- DateUtils.ServerStringRoundTrip: the round trip is stated for years 100..9999, because years 0..99 are read as 19xx and larger years are written with more than four digits.
- EditCardForm.ElementsToShow: it only applies `sortByDisplayOrder`, whose code is not part of this model, so it carries no contract beyond `ShownElements`.

## Findings

| source | as written | input that shows it | evidently intended | confidence | as-written member | corrected member |
|---|---|---|---|---|---|---|
| src/utils/dateUtils.js:21-24 | `isMonthOffset` requires the same year and compares month numbers, so an offset never reaches into the previous or next year. | now is 2023-12-15, the date is "2024-01-10", offset 1: the result is false. | Count months across year boundaries, so January is the month after December. | medium; not executed | DateUtils.NextMonthInDecember (about DateUtils.IsMonthOffset) | DateUtils.IsMonthOffsetAcrossYears, with DateUtils.MonthOffsetAcrossYearsMeaning and DateUtils.MonthOffsetTestsAgreeWithinYear |
