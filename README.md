# pop-form collections in Dafny

This project models the three in-memory collections of the pop-form HTML form
library and proves what they promise.

- **FieldGroup** (`FieldGroups.FieldGroup`) is an ordered table from field name
  to element.
  - Adding an element stores it under its own name. A repeated name overwrites
    the old element in place.
  - Lookups of an absent name give null.
  - Writing a value to an absent name does nothing.
  - `__unset` removes the entry.
- **Form** (`Forms.Form`) is a list of fieldsets with a `current` index.
  - Single-field reads and writes reach the current fieldset only.
  - `count` adds up the fieldsets.
  - `getFields`, `toArray`, `isValid`, `getAllErrors` and `reset` walk the
    `array_merge` of every fieldset's table. When two fieldsets hold a field of
    the same name, the later one is the one seen, validated and reset. The
    earlier one is left untouched.
- **Select** (`Selects.Select`) is a select box: a two-level tree of options and
  optgroups, plus one `selected` value.
  - `setValues` appends one child per configuration entry. It marks a new
    option when its KEY loosely equals the selection, except a top-level option
    configured with `value` and `attributes`, which is never marked.
  - `setValue` stores the selection and re-marks every option at both levels.
    An option is marked when its VALUE loosely equals the selection.
  - `resetValue` clears the selection and every mark.

PHP values are the datatype `PhpValues.Value`. PHP 8's loose `==` is written
out as `PhpValues.LooseEquals`. A PHP array with string keys is an
`OrderedMaps.OrderedMap`: its key order plus a map. `array_merge` is
`OrderedMaps.Merge`. Elements are values (`Elements.Element`): a name, a value
and error messages.

An element's own `validate` and `resetValue` are not part of these files. The
form's methods therefore take them as parameters:

- `check` gives pass/fail and the errors recorded;
- `blank` gives the value after a reset.

The constructor's request URI is a parameter too (`requestUri`).

## Model

| member | source | states |
|---|---|---|
| PhpValues.DecimalStringRoundTrip | src/Form.php:104-105 | the decimal text of a fieldset number is an integer string that reads back as that number |
| PhpValues.DecimalStringInjective | src/Form.php:104-105 | different fieldset numbers give different decimal texts |
| PhpValues.LooseEqualsReflexive | src/Element/Select.php:132 | every value loosely equals itself, so an option whose value is the selection is marked |
| PhpValues.LooseEqualsSymmetric | src/Element/Select.php:95 | on scalars, `key == selected` does not depend on the order of the operands |
| PhpValues.IntString | src/Element/Select.php:140 | PHP's integer-to-string text, with a minus sign for a negative number, is an integer string that reads back as the integer |
| PhpValues.IntegerMatchesItsString | src/Element/Select.php:140 | any integer, negative ones included, and its string form are loosely equal, in both orders |
| PhpValues.LooseEquals | src/Element/Select.php:95 | PHP 8 `==` as used at src/Element/Select.php:95, 109, 132 and 140: bools compare by truthiness, null against a string compares with "", an integer and a numeric string compare as numbers. Its properties are `LooseEqualsReflexive`, `LooseEqualsSymmetric` and `IntegerMatchesItsString` |
| Elements.Element.WithValue | src/FieldGroup.php:163 | an element's `setValue`: the value changes and the name and errors stay |
| OrderedMaps.Get | src/FieldGroup.php:129 | a name gives its entry when present and null when absent |
| OrderedMaps.Put | src/FieldGroup.php:77 | `$fields[$k] = $v` sets the entry for `k` to `v` and leaves the other entries. A present key keeps its position; a new key goes last |
| OrderedMaps.PutSpec | src/FieldGroup.php:77 | after the write, `k` reads as `v` and every other name reads as before. The count grows by one iff `k` was absent, and the old key order is a prefix of the new one |
| OrderedMaps.Remove | src/FieldGroup.php:237 | after `unset`, the name is absent and every other name reads as before. The count drops by one iff the name was present. The remaining keys keep their order |
| OrderedMaps.Without | src/FieldGroup.php:237 | the key list after removal holds exactly the other keys |
| OrderedMaps.WithoutKeepsDistinct | src/FieldGroup.php:237 | removing a key leaves no key listed twice |
| OrderedMaps.KeyCountIsSize | src/FieldGroup.php:100-103 | `count()` equals the number of names iteration visits |
| OrderedMaps.PutKeys | src/Form.php:306 | writing a table's entries one by one keeps the old key order as a prefix |
| OrderedMaps.PutKeysAt | src/Form.php:306 | after writing entries one by one, a name is held iff it was held or written. A written name has its new value and any other its old one |
| OrderedMaps.Merge | src/Form.php:306 | `array_merge`: the keys of both sides, the right side's value where both hold a key, the left side's key order as a prefix |
| OrderedMaps.Unseen | src/Form.php:306 | the keys of a list that a table lacks, in list order |
| OrderedMaps.UnseenNothingHeld | src/Form.php:306 | against an empty table every key is new |
| OrderedMaps.PutKeysOrder | src/Form.php:306 | writing distinct keys one by one leaves the old keys in place and appends each new key in writing order |
| OrderedMaps.MergeIntoEmpty | src/Form.php:306 | `array_merge` into an empty array gives the right side back: same keys, order and values |
| OrderedMaps.MergeKeys | src/Form.php:306 | the exact key order of `array_merge($a, $b)`: the keys of `a`, then the keys of `b` that `a` lacks, in `b`'s order |
| OrderedMaps.MergeAll | src/Form.php:301-310 | the merge of all fieldsets' tables, left to right, is a valid table |
| OrderedMaps.LastOwner | src/Form.php:301-310 | the index of the last table holding a name: that table holds it and no later one does |
| OrderedMaps.MergeAllEntries | src/Form.php:301-310 | a name is in the merged view iff some fieldset holds it. Its element is the one from the last fieldset that holds it |
| OrderedMaps.MergeAllPrefix | src/Form.php:301-310 | names from earlier fieldsets come first in the merged view |
| OrderedMaps.MapValues | src/FieldGroup.php:110-119 | a name-to-value table with the same keys in the same order |
| OrderedMaps.MapValuesUnique | src/FieldGroup.php:110-119 | any table with the same key order and each name's value is the one `MapValues` gives, so the fieldset's `toArray` is it |
| OrderedMaps.MapValuesPut | src/FieldGroup.php:115 | reading values commutes with writing one entry |
| OrderedMaps.MapValuesPutKeys | src/Form.php:260 | reading values commutes with writing entries one by one |
| OrderedMaps.MapValuesMerge | src/Form.php:260 | reading values commutes with `array_merge`, so the form's `toArray` is the values of its merged fields |
| FieldGroups.AddEach | src/FieldGroup.php:87-93 | adding elements one by one keeps every element stored under its own name |
| FieldGroups.SetValueAt | src/FieldGroup.php:160-166 | an absent name changes nothing. A present name changes that element's value only, and all keys and their order stay |
| FieldGroups.SetEach | src/FieldGroup.php:174-180 | writing values pair by pair keeps every key and its position |
| FieldGroups.AddEachDistinctNames | src/FieldGroup.php:87-93 | adding distinctly named elements to an empty group lists exactly their names in order, one field per element |
| FieldGroups.AddEachAppend | src/FieldGroup.php:87-93 | adding two lists in turn is adding their concatenation |
| FieldGroups.AddEachLastWins | src/FieldGroup.php:77 | an element not followed by another of the same name is the one `getField` returns |
| FieldGroups.SetThenGetValue | src/FieldGroup.php:148-166 | reading back a value written to a present field gives it; an absent field still reads null |
| FieldGroups.RemoveAfterSet | src/FieldGroup.php:233-239 | writing a field's value just before removing it leaves no trace in the table |
| FieldGroups.FieldGroup.constructor | src/FieldGroup.php:45-50 | a new group holds the given elements, added in order |
| FieldGroups.FieldGroup.AddField | src/FieldGroup.php:75-79 | the table after is `Put` of the element under its name |
| FieldGroups.FieldGroup.AddFields | src/FieldGroup.php:87-93 | the loop gives the same table as `addField` applied to each element in order |
| FieldGroups.FieldGroup.Count | src/FieldGroup.php:100-103 | the count is the number of names iteration visits |
| FieldGroups.FieldGroup.ToArray | src/FieldGroup.php:110-119 | exactly the field names, in insertion order, each with its element's value |
| FieldGroups.FieldGroup.GetField | src/FieldGroup.php:127-130 | the element is found iff the name is listed, and it carries that name; otherwise null |
| FieldGroups.FieldGroup.GetFields | src/FieldGroup.php:137-140 | every element is stored under its own name |
| FieldGroups.FieldGroup.GetFieldValue | src/FieldGroup.php:148-151 | the stored element's value, or null for an absent name |
| FieldGroups.FieldGroup.SetFieldValue | src/FieldGroup.php:160-166 | the table after is `SetValueAt` of the table before |
| FieldGroups.FieldGroup.SetFieldValues | src/FieldGroup.php:174-180 | the loop gives the same table as `setFieldValue` applied to each pair in order |
| FieldGroups.FieldGroup.Has | src/FieldGroup.php:222-225 | true iff the name is listed |
| FieldGroups.FieldGroup.Delete | src/FieldGroup.php:233-239 | the table after is `Remove` of the table before |
| FieldGroups.FieldGroup.SetLegend | src/Form.php:98-99 | the fieldset's legend becomes the given text |
| FieldGroups.FieldGroup.SetAttribute | src/Form.php:110-111 | one node attribute is set and the others stay |
| Forms.TotalCountUpdate | src/Form.php:241-248 | changing one fieldset changes the form's count by the change in that fieldset's count |
| Forms.MergedCountAtMostTotal | src/Form.php:301-310 | the merged view never holds more fields than the fieldsets hold together |
| Forms.MergedCountDisjoint | src/Form.php:301-310 | when no name is in two fieldsets, the merged view holds as many fields as `count()` |
| Forms.MergeCount | src/Form.php:306 | `array_merge` holds at most both sides' entries, and exactly that many when their names are disjoint |
| Forms.UpdateOwnedOn | src/Form.php:419-426 | updating the visited names where they live keeps every table's keys and order |
| Forms.UpdateTable | src/Form.php:374 | updating elements in place keeps every element under its own name, and keeps the keys and their order |
| Forms.UpdateTableAdd | src/Form.php:374 | updating one more name rewrites just that entry |
| Forms.OwnedByStep | src/Form.php:373 | a newly visited name belongs to exactly one fieldset: its last owner |
| Forms.UpdateOwnedStep | src/Form.php:373-377 | visiting one more field changes exactly one entry: that field, in the fieldset it comes from |
| Forms.VisitStep | src/Form.php:373-377 | the field visited next is held by its last owner in the tables as updated so far, and storing its update there gives the tables with that field done too |
| Forms.MergeAllWellKeyed | src/Form.php:301-310 | the merged view stores every field under its own name |
| Forms.ToArrayStep | src/Form.php:259-261 | the values of one more merged fieldset are the values so far merged with that fieldset's values |
| Forms.SetEachStep | src/Form.php:346-348 | one more `setFieldValue` on the current fieldset extends the pairs applied so far by one |
| Forms.UpdateOwnedNone | src/Form.php:369-370 | before the walk, nothing has changed |
| Forms.LastOwnerSameKeys | src/Form.php:373-377 | updating elements in place does not change which fieldset provides a name |
| Forms.MergeAllAfterUpdate | src/Form.php:419-426 | after the walk the merged view shows the same names, each holding the updated form of its old element |
| Forms.ResetThenToArray | src/Form.php:419-426 | after `reset`, `toArray` gives every field the value its element's reset left |
| Forms.Validated | src/Form.php:374 | validating an element keeps its name |
| Forms.Blanked | src/Form.php:423 | resetting an element keeps its name |
| Forms.StripMarker | src/Form.php:407 | `str_replace('[]', '', $name)`: every "[]" is removed, scanning left to right. Its properties are `StripMarkerSuffix` and `StripMarkerPlain` |
| Forms.StripMarkerSuffix | src/Form.php:407 | a trailing "[]" on a field name does not show in its error key |
| Forms.StripMarkerPlain | src/Form.php:407 | a name without "[]" is its own error key |
| Forms.CollectErrors | src/Form.php:401-412 | the error table built field by field is a valid table |
| Forms.CollectErrorsSnoc | src/Form.php:403-410 | visiting one more field adds its errors under its name without "[]" when it has any, and changes nothing otherwise |
| Forms.CollectErrorsKeys | src/Form.php:401-412 | there is an entry for a key iff some visited field with errors has that name once "[]" is removed |
| Forms.CollectErrorsLast | src/Form.php:401-412 | the entry for a key holds the errors of the last visited field reported under it |
| Forms.ReportErrors | src/Form.php:403-410 | the loop over the merged fields builds exactly `CollectErrors` of them |
| Forms.ActionAsWritten | src/Form.php:56-57 | the action expression as written: the request URI when no action is given and a URI exists, else "#". `GivenActionDiscarded` shows what it does to a given action |
| Forms.ResolveAction | src/Form.php:56-57 | a given action is kept; otherwise the request URI is used, and "#" without one |
| Forms.GivenActionDiscarded | src/Form.php:56-57 | as written, any given action becomes "#" |
| Forms.FieldsetId | src/Form.php:104-105 | `<form id>-fieldset-<n>`, or `pop-form-fieldset-<n>` when the form has no id. `FieldsetIdsDistinct` is its property |
| Forms.FieldsetClass | src/Form.php:107-108 | the class text as written: the condition looks at the form's class but the text is built from the form's id. `FieldsetClassIgnoresFormClass` is its property |
| Forms.NewFieldsetAttributes | src/Form.php:104-111 | the `id` and `class` attributes `createFieldset` gives a new fieldset, and no others |
| Forms.FieldsetIdsDistinct | src/Form.php:104-105 | fieldsets created with different numbers under one form id get different ids |
| Forms.FieldsetClassIgnoresFormClass | src/Form.php:107-108 | a fieldset's class takes its text from the form's id, so the form's class never shows in it, and it is "-fieldset" when the form has no id |
| Forms.RemoveAt | src/Form.php:138-140 | removal by position keeps every other fieldset, in order |
| Forms.Clamp | src/Form.php:141-143 | `current` stays if still valid, else becomes the last index, or 0 when no fieldset is left |
| Forms.RemoveBeforeCurrentShifts | src/Form.php:135-145 | removing a fieldset at or before `current` makes `current` designate the fieldset that followed it |
| Forms.AllPassAllKeys | src/Form.php:369-379 | over the whole merged view, the flag is true iff every field passed |
| Forms.KeySetStep | src/Form.php:373 | the walk meets each merged name once |
| Forms.Form.constructor | src/Form.php:54-68 | the method attribute is set, and the action is the corrected `ResolveAction`, not the expression as written (see Findings). With no fields there is no fieldset. Otherwise one fieldset holds the fields, added in order, with no legend and the id and class `createFieldset` gives the first fieldset |
| Forms.Form.SetAttribute | src/Form.php:60-63 | one form attribute is set and the others stay, as the form's attributes are set at construction and may later gain an `id` or `class` |
| Forms.Form.AddFieldset | src/Form.php:122-127 | the fieldset is appended, the earlier ones are unchanged, and `current` moves to the end |
| Forms.Form.CreateFieldset | src/Form.php:95-114 | a new empty fieldset with the legend is appended and made current. Its id is `<form id>-fieldset-<n>` or `pop-form-fieldset-<n>`, with `n` its 1-based number. Its class is derived from the form id. Its attributes are exactly `NewFieldsetAttributes` |
| Forms.Form.RemoveFieldset | src/Form.php:135-145 | a valid position removes exactly that fieldset, the rest keeping their order. An invalid one changes nothing. `current` is clamped |
| Forms.Form.GetFieldset | src/Form.php:152-155 | the current fieldset, or null iff there is none |
| Forms.Form.GetCurrent | src/Form.php:162-165 | a valid index whenever a fieldset exists, else 0 |
| Forms.Form.SetCurrent | src/Form.php:173-180 | an existing index becomes current. One past the end appends a fresh empty fieldset and makes it current. The fresh fieldset has no legend and the id and class `createFieldset` gives it. No other fieldset changes |
| Forms.Form.GetLegend | src/Form.php:187-191 | the current fieldset's legend, or null without one |
| Forms.Form.SetLegend | src/Form.php:199-205 | only the current fieldset's legend changes; all fields stay. Every fieldset keeps its attributes |
| Forms.Form.AddField | src/Form.php:213-220 | with no fieldset, exactly one is created and holds the field. Otherwise only the current fieldset's table changes, by `Put`. A created fieldset has no legend and the id and class of the first fieldset. Every fieldset keeps its legend and attributes |
| Forms.Form.AddFields | src/Form.php:228-234 | the same as `addField` for each element in order: all go to the current fieldset, which the first creates if needed. A created fieldset has no legend and the id and class of the first fieldset. Every fieldset keeps its legend and attributes |
| Forms.Form.AddToCurrent | src/Form.php:230-232 | with a fieldset present, only the current table changes, by adding each element in order. Every fieldset keeps its legend and attributes |
| Forms.Form.Count | src/Form.php:241-248 | the sum of the per-fieldset counts |
| Forms.Form.GetFields | src/Form.php:301-310 | the `array_merge` of every fieldset's table, in order |
| Forms.Form.ToArray | src/Form.php:255-264 | the values of the merged fields (by `MapValuesMerge`, the merge of the per-fieldset `toArray`) |
| Forms.Form.GetField | src/Form.php:291-294 | a lookup in the current fieldset only, null without one |
| Forms.Form.GetFieldValue | src/Form.php:318-321 | the value in the current fieldset only, null without one or for an absent name |
| Forms.Form.SetFieldValue | src/Form.php:330-336 | only the current fieldset changes; without one nothing changes. Every fieldset keeps its legend and attributes |
| Forms.Form.SetFieldValues | src/Form.php:344-350 | the same as `setFieldValue` for each pair in order, in the current fieldset only. Every fieldset keeps its legend and attributes |
| Forms.Form.Has | src/Form.php:526-529 | true iff the current fieldset holds the name with a non-null value |
| Forms.Form.Delete | src/Form.php:537-543 | the field leaves the current fieldset only; the other names keep their order; without a fieldset nothing changes. Every fieldset keeps its legend and attributes |
| Forms.Form.OwnerIndex | src/Form.php:306 | the fieldset a merged field comes from is the last one holding its name |
| Forms.Form.Owner | src/Form.php:306 | the same over all fieldsets |
| Forms.Form.StoreAt | src/Form.php:374 | an element updated in place changes only its own entry in its own fieldset. Every fieldset keeps its legend and attributes |
| Forms.Form.Walk | src/Form.php:367-380 | every merged field is visited once and updated where it lives. The result is true iff every field passed. Every fieldset keeps its legend and attributes |
| Forms.Form.WalkKeys | src/Form.php:373-377 | the loop visits the merged names in order, without a short-circuit. Every fieldset keeps its legend and attributes |
| Forms.Form.VisitOne | src/Form.php:374-376 | one field is checked, then updated in its owning fieldset. Every fieldset keeps its legend and attributes |
| Forms.Form.IsValid | src/Form.php:367-380 | every merged field is validated and records its errors. The form is valid iff every one of them passed. Shadowed fields are untouched. Every fieldset keeps its legend and attributes |
| Forms.Form.GetErrors | src/Form.php:388-394 | the current fieldset's field's errors, or none |
| Forms.Form.GetAllErrors | src/Form.php:401-412 | the error table `CollectErrors` of the merged view, whose entries `CollectErrorsKeys` and `CollectErrorsLast` characterise |
| Forms.Form.Reset | src/Form.php:419-426 | every merged field gets its reset value where it lives; no fieldset is added or removed. Every fieldset keeps its legend and attributes |
| Forms.MergeAllOne | src/Form.php:301-310 | with one fieldset, the merged view is that fieldset's table: same names, values and order |
| Forms.ThreeDistinctFields | src/FieldGroup.php:87-93 | three distinctly named elements make three fields, listed in the order added |
| Forms.ThreeFieldForm | src/Form.php:54-68 | a form built from three distinctly named fields has exactly those three fields in `getFields()`, in that order |
| Selects.Lookup | src/Element/Select.php:75 | `$a[$key]` on a configuration array: an absent key gives null (so `isset` is false), a present key gives the value stored at its first occurrence, and a non-null answer is always a stored value |
| Selects.GroupOption | src/Element/Select.php:85-96 | one grouped option: an entry with `value` and `attributes` takes those, any other its key and value. It is marked iff a selection exists and loosely equals its key. `GroupOptionsMarkedByKey` is its property |
| Selects.GroupOptions | src/Element/Select.php:84-99 | an optgroup holds one option per inner entry |
| Selects.Select.BuildGroup | src/Element/Select.php:84-99 | the inner loop builds exactly `GroupOptions` of the entries against the current selection |
| Selects.NewChild | src/Element/Select.php:74-113 | one top-level entry becomes an attributed option (never marked), an optgroup labelled with its key, or a plain option marked by key. `NewChildrenShape` and `NewChildrenMarks` are its properties |
| Selects.NewChildren | src/Element/Select.php:73-114 | one child per top-level entry |
| Selects.Reflagged | src/Element/Select.php:132-143 | re-marking one option keeps its key, value and attributes, and marks it iff its value loosely equals the selection |
| Selects.ResyncOptions | src/Element/Select.php:138-145 | re-marking an optgroup keeps its number of options |
| Selects.Resync | src/Element/Select.php:130-147 | re-marking keeps the number of children |
| Selects.ClearedOptions | src/Element/Select.php:167-170 | clearing an optgroup keeps its number of options |
| Selects.Cleared | src/Element/Select.php:163-172 | clearing keeps the number of children |
| Selects.ResyncSpec | src/Element/Select.php:125-151 | `setValue(v)` changes only marks. Afterwards every option, top-level or grouped, is marked iff its value loosely equals `v` |
| Selects.SyncedUnique | src/Element/Select.php:125-151 | only one tree of a given shape is marked by value against `v`, so the previous marks cannot leak into the result |
| Selects.ResyncIdempotent | src/Element/Select.php:125-151 | `setValue(v)` twice is `setValue(v)` once |
| Selects.ClearedSpec | src/Element/Select.php:158-176 | after `resetValue` no option anywhere is marked, and `resetValue` twice is once |
| Selects.ResyncIgnoresOldMarks | src/Element/Select.php:125-176 | `resetValue` then `setValue(v)` is `setValue(v)` |
| Selects.GroupOptionsMarkedByKey | src/Element/Select.php:84-99 | each grouped option keeps its entry's key and is marked iff a selection exists and loosely equals that key |
| Selects.NewChildrenShape | src/Element/Select.php:73-114 | an array with `value` and `attributes` becomes one option, another array an optgroup labelled with its key and holding one option per inner entry, anything else a plain option with the entry's key and value |
| Selects.NewChildMarkedByKey | src/Element/Select.php:74-113 | one built child: an option with attributes is never marked, and any other option, grouped or not, is marked iff a selection exists and loosely equals its key |
| Selects.NewChildrenMarks | src/Element/Select.php:73-114 | options are marked by key, except an attributed top-level option, which is never marked |
| Selects.NewChildrenAlreadySynced | src/Element/Select.php:95-140 | when every option's key is its value, building against a non-null selection marks the same options as `setValue` of it |
| Selects.Select.constructor | src/Element/Select.php:41-58 | name and id attributes are set; a non-null selection is stored first, so the options built are marked by it |
| Selects.Select.SetValues | src/Element/Select.php:68-117 | the existing children are kept and one child per entry is appended |
| Selects.Select.SetValue | src/Element/Select.php:125-151 | the selection is stored (also with no children) and the tree becomes `Resync` of the old tree |
| Selects.Select.ResetValue | src/Element/Select.php:158-176 | the selection becomes null and the tree `Cleared` of the old tree |
| Selects.SelectByValue | src/Element/Select.php:125-151 | options `a => 1` and `b => 2`, then `setValue(2)`: only the second is marked |
| Selects.GroupedSelection | src/Element/Select.php:73-151 | building with selection "y" marks the grouped option keyed "y". `setValue(2)` then marks both options whose value is 2, one grouped and one top-level |

## Left out

- Rendering and the DOM node tree are left out: `prepare`, `render`, `__toString`, and the node-child internals. They belong to a node class that is not part of this model. Node attributes are a `map<string, string>`.
- `clearTokens` is left out: it is session I/O.
- `createFromConfig` and the element factory are left out: the factory is not part of this model.
- Select's `parseValues`, the XML-file source of options, and indentation are left out. The options come as a list of key/value entries, and indentation is formatting only.
- Element `validate`, `getErrors` and `resetValue` are not part of this model. They are the parameters `check` and `blank`, which must keep the element's name.
- Forms.Form.constructor: the action is the corrected `ResolveAction` (a given action is kept), not the expression as written, which discards a given action. `ActionAsWritten` and `GivenActionDiscarded` model the written behaviour; see Findings.
- `getAction` and `getMethod` are plain attribute reads and are not modelled separately.
- src/Element/Input/Url.php is left out: it is a constructor wrapper with no logic.
- Forms.Form.SetCurrent: takes a `nat` and requires `i <= count`. For a larger or a negative `i` the source writes a new fieldset at a gap index, and that fieldset also lands at the end of the list. Its PHP evaluation order is unclear.
- Forms.Form.AddFieldset: requires the fieldset not to be in the form already. PHP allows the same object twice, which makes one table appear at two positions.
- Elements are values, so aliasing is not captured: one element object held by two fieldsets, or an option object held elsewhere.
- Forms.Form.Delete: the element gets a null value just before removal. Because elements are values, that write is not visible afterwards.
- Forms.Form.AddFields: the first element goes through `AddField` (which may create the fieldset) and the rest through `AddToCurrent`. This is the same state as the source's loop of `addField` calls.
- Forms.Form.Walk: a merged field is updated in the fieldset that last holds its name, found by index. In the source it is the same object reached through the merged array.
- PhpValues.LooseEquals: covers integer numeric strings only. Floats, leading or trailing whitespace, and exponent forms are left out, and so are integers or integer strings outside PHP's 64-bit int range (PHP compares them as floats, so `"9223372036854775808" == "9223372036854775809"` holds in PHP but not in the model).
- PHP array keys are not canonicalised: an integer-like string key is not turned into an integer, and `array_merge` does not renumber integer keys. Field names are strings throughout.
- Selects.Select.SetValue: assumes an option's `getValue()` returns the value it was built with, its second constructor argument. The Option class is not part of this model.
- Selects.Select.SetValues: assumes an optgroup's `getOptions()` returns its options in the order they were added. The Optgroup class is not part of this model.

## Findings

| source | as written | input that shows it | evidently intended | confidence | as-written member | corrected member |
|---|---|---|---|---|---|---|
| src/Form.php:56-57 | the constructor sets the action to the request URI when no action is given, and to "#" in every other case, so a given action is discarded | `new Form(null, '/login')` gets action "#" | keep a given action; fall back to the request URI, then to "#" | not executed | Forms.GivenActionDiscarded | Forms.ResolveAction |
