# tdesign-react: form instance, grid row and radio group, modelled in Dafny

This project models three pieces of decision logic from the tdesign-react component library and proves properties about them.

- **Form instance** (`src/form/hooks/useInstance.tsx`). This is the mediator a form uses to reach its registered items. The model covers:
  - building the name→item table, where later items with the same name win;
  - choosing which items `validate` calls;
  - turning the per-item validation results into `true` or an error object;
  - `getFirstError`;
  - the dispatch rules of `getFieldValue`, `getFieldsValue`, `setFieldsValue`, `setFields`, `reset`, `clearValidate` and `setValidateMessage`, including which items each one touches and when it throws.

  Items are a sequence of optional records `{name, value, hasValidate}`. The hook never writes an item's fields itself; it calls the item's own methods. So every state-changing operation returns the ordered trace of those calls (`ItemCall(index, op)`). Each loop is kept as a `while` loop and proved against a specification function (`Dispatched`, `Broadcast`/`Select`, `AllValues`, `PickedValues`, `Cleaned`). The error object is an association list in insertion order, which is the order `Object.keys` reports. The in-place post-processing of `validate` (a `delete` or a filter per key) is a loop over that list.
- **Grid row** (`src/grid/Row.tsx`). `calcSize` maps a window width to one of six size classes (`xs` … `xxl`). The five thresholds are inputs: the values the CSS custom properties held. A falsy value (absent or 0) falls back to 768 / 992 / 1200 / 1400 / 1880. `calcRowStyle` turns a gutter (number, array, or per-size table) into margins and a row gap. It is modelled as the same chain of record updates that the source performs with `Object.assign`. `gutter / -2` is exact real division.
- **Radio group** (`src/radio/RadioGroup.tsx`). This covers:
  - `context.inject`: a controlled child is left alone; otherwise `checked` is `internalValue === value`, `disabled` is `child.disabled || group.disabled`, and the injected `onChange` calls the child's handler and then sets the group value;
  - `renderOptions`;
  - the choice between children and options;
  - the class flags and background block that depend on the variant.

  Handlers are data, and firing one yields its list of effects.

Some things the model makes visible:
- `getFieldValue` reads the **first** item with a name.
- `getFormItemsMap` uses the **last** item with that name (`FormInstance.FirstAndLastDiffer`). So do `getFieldsValue`, the setters, and the forms of `reset` and `clearValidate` that take a list of names. `reset()` and `clearValidate()` with no argument reach every non-null item, including nameless ones and ones shadowed by a later item of the same name (`FormInstance.ResetShadowed`).
- `setValidateMessage` differs from the other setters. It has no `?.`, so an unknown name throws. That happens after the calls for the earlier names have already been made (`FormInstance.SetValidateMessages`).
- A field whose rules all passed is kept in the error object with an empty list, so validation does not pass. `getFirstError` then finds no message only when that field is the first key holding a rule list; otherwise it reports the first key's first failed rule (`FormErrors.PassedRulesKeepKey`, `FormErrors.FirstErrorOfAggregate`).
- The resize listener of the grid row stores the size the row already had, so a resize never changes the size class (see Findings).

## Model

| member | source | states |
|---|---|---|
| FormInstance.ItemsMap | src/form/hooks/useInstance.tsx:14-24 | every name in the table is truthy and is bound to an existing non-null item carrying that name |
| FormInstance.ItemsMapLastWins | src/form/hooks/useInstance.tsx:14-24 | a name is in the table iff some non-null item has it as a truthy name; the item it is bound to is the last such item |
| FormInstance.FindFirst | src/form/hooks/useInstance.tsx:90 | `find` returns the least index of a non-null item with that name, or nothing when no item has it |
| FormInstance.GetFieldValue | src/form/hooks/useInstance.tsx:88-92 | a falsy name gives `null`; otherwise the value of the FIRST non-null item with that name; the call throws iff no item has the name |
| FormInstance.FirstAndLastDiffer | src/form/hooks/useInstance.tsx:14-24 | for any two items `i < j` with the same name, `getFieldValue` reads an item at or before `i`, while the table binds the name to an item at or after `j` |
| FormInstance.AllValues | src/form/hooks/useInstance.tsx:100-105 | every name collected by `getFieldsValue(true)` is truthy |
| FormInstance.AllValuesMatchItemsMap | src/form/hooks/useInstance.tsx:99-105 | the item-by-item collection of `getFieldsValue(true)` has exactly the table's names, each with the value of the item the table binds it to |
| FormInstance.PickedValues | src/form/hooks/useInstance.tsx:108-110 | `getFieldsValue(names)` holds exactly the requested names the table knows, each with the mapped item's value |
| FormInstance.GetFieldsValue | src/form/hooks/useInstance.tsx:95-113 | `true` returns `name→value` for every named item (last wins); an array returns the requested known names; any other argument throws |
| FormInstance.Dispatched | src/form/hooks/useInstance.tsx:118-120 | there are no more calls than requests, and each call is on an item the table binds; DispatchedSplit places each request's call |
| FormInstance.DispatchedMembers | src/form/hooks/useInstance.tsx:118-120 | a call is made iff some request names a known item, and it goes to the item the name maps to |
| FormInstance.DispatchedSingle | src/form/hooks/useInstance.tsx:119 | the `?.` call of one request: one call on the mapped item when the name is known, none otherwise |
| FormInstance.DispatchedAppend | src/form/hooks/useInstance.tsx:118-120 | the calls for two batches of requests, one after the other, are the first batch's calls followed by the second's |
| FormInstance.DispatchedSplit | src/form/hooks/useInstance.tsx:118-120 | request `i` contributes its own call (or none, for an unknown name) exactly between the calls of the requests before it and those after it |
| FormInstance.DispatchedCalls | src/form/hooks/useInstance.tsx:118-120 | the calls are exactly those of the known requests, each request's call placed between those of the earlier and the later requests; when all names are known, call `i` is request `i`'s |
| FormInstance.DispatchEach | src/form/hooks/useInstance.tsx:143-145 | the `forEach` over the requested names makes exactly the dispatched calls, in order |
| FormInstance.Select | src/form/hooks/useInstance.tsx:63-68 | there are no more calls than items; each call has the given operation and targets a non-null item the predicate accepts; SelectCalls adds once each and in index order |
| FormInstance.SelectCalls | src/form/hooks/useInstance.tsx:63-68 | a selection calls every non-null item the predicate accepts and no other, once each, in index order |
| FormInstance.Broadcast | src/form/hooks/useInstance.tsx:137-139 | item `i` receives the call iff it is non-null, no call goes elsewhere, and the targets strictly increase, so each non-null item is called once, in index order |
| FormInstance.ForEachItem | src/form/hooks/useInstance.tsx:137-139 | the `forEach` over all refs calls every non-null item, in order |
| FormInstance.SetFieldsValue | src/form/hooks/useInstance.tsx:116-121 | `setValue(fields[key])` reaches the mapped item of every known key and nothing else; unknown keys are ignored |
| FormInstance.SetFieldCalls | src/form/hooks/useInstance.tsx:127-130 | `setField({value, status})` reaches the mapped item of each known field name and nothing else |
| FormInstance.SetFields | src/form/hooks/useInstance.tsx:124-131 | it throws iff the argument is neither absent nor an array; absent means `[]`; `setField({value, status})` reaches the mapped item of every known name |
| FormInstance.Reset | src/form/hooks/useInstance.tsx:134-147 | with no argument every non-null item, named or not, gets `resetField()`; otherwise only the listed known names get it, with `type` defaulting to `'initial'` and `fields` to `[]` |
| FormInstance.ResetShadowed | src/form/hooks/useInstance.tsx:134-147 | an item that is nameless, or followed by an item of the same name, gets `resetField()` from `reset()` but never a call from `reset({fields})`, whatever names are listed |
| FormInstance.ClearValidate | src/form/hooks/useInstance.tsx:150-163 | `undefined` clears every non-null item; an array clears the listed known names; any other argument throws |
| FormInstance.KnownPrefix | src/form/hooks/useInstance.tsx:168-170 | the length of the longest prefix of names that the table knows |
| FormInstance.ReportMessages | src/form/hooks/useInstance.tsx:168-170 | the `forEach` over the keys stops at the first key the table does not know; before it, one `setValidateMessage` call per key, in key order, on the mapped item |
| FormInstance.SetValidateMessages | src/form/hooks/useInstance.tsx:166-171 | it throws iff some key is unknown; the calls made are one per key, in key order, up to the first unknown key |
| FormInstance.NeedValidate | src/form/hooks/useInstance.tsx:57-60 | without an array of fields every name needs validation; an empty array needs none; a listed name needs it |
| FormInstance.ValidateCalls | src/form/hooks/useInstance.tsx:63-68 | every call is `validate(trigger)` on a non-null item that has a validate function |
| FormInstance.ValidateCallsSpec | src/form/hooks/useInstance.tsx:57-68 | `validate(trigger)` is called on exactly the non-null items with a validate function that pass `needValidate` (every item when `fields` is not an array, else membership in `fields`), once each, in order; `trigger` defaults to `'all'` |
| FormInstance.ValidateForm | src/form/hooks/useInstance.tsx:56-85 | the calls are the selected items', and the resolved value is the aggregation of their results, a non-empty proper object when not `true` |
| FormInstance.Submit | src/form/hooks/useInstance.tsx:44-53 | `submit` validates every eligible item and reports the aggregated result with its first error |
| FormErrors.Flatten | src/form/hooks/useInstance.tsx:71 | a result object is in the flattened list iff it is in some item's list |
| FormErrors.FlattenAppend | src/form/hooks/useInstance.tsx:71 | flattening keeps item order: it distributes over concatenation, and one item's list flattens to itself |
| FormErrors.MergeIsObject | src/form/hooks/useInstance.tsx:73 | the merged result never holds a key twice |
| FormErrors.AssignLookup | src/form/hooks/useInstance.tsx:73 | after `Object.assign(target, src)` a key reads as in `src` when `src` has it, else as in `target` |
| FormErrors.MergeAbsent | src/form/hooks/useInstance.tsx:73 | a key is absent from the merge iff no result object has it |
| FormErrors.MergeLastWins | src/form/hooks/useInstance.tsx:73 | under a key the merge holds the value of the last result object that has the key |
| FormErrors.MergeKeys | src/form/hooks/useInstance.tsx:73 | the merged keys are all keys written, deduplicated at their first insertion |
| FormErrors.FirstOccurrenceOrder | src/form/hooks/useInstance.tsx:29 | that deduplication has each key once, exactly the written keys, ordered by first occurrence |
| FormErrors.Failures | src/form/hooks/useInstance.tsx:78 | every rule kept has `result === false`, and no more rules are kept than given |
| FormErrors.FailuresMembers | src/form/hooks/useInstance.tsx:78 | the filter keeps exactly the rules with `result === false` |
| FormErrors.FailuresCons | src/form/hooks/useInstance.tsx:78 | a single rule is kept iff it failed, and a rule in front stays in front |
| FormErrors.FailuresAppend | src/form/hooks/useInstance.tsx:78 | the filter keeps the order of the rules: it distributes over concatenation |
| FormErrors.FailuresFirst | src/form/hooks/useInstance.tsx:78 | the first rule kept is the first rule that failed |
| FormErrors.Cleaned | src/form/hooks/useInstance.tsx:74-80 | every key left holds a list whose rules all failed, and there are no more entries than before |
| FormErrors.CleanedKeys | src/form/hooks/useInstance.tsx:74-80 | cleaning adds no key, and a result without repeated keys stays without repeated keys |
| FormErrors.CleanedLookup | src/form/hooks/useInstance.tsx:74-80 | after cleaning, a `true` key is gone and a rule-list key holds its failed rules only |
| FormErrors.CleanedEmpty | src/form/hooks/useInstance.tsx:81 | the cleaned object is empty iff every merged key was `true` |
| FormErrors.CleanInPlace | src/form/hooks/useInstance.tsx:74-80 | the in-place `delete` / reassign walk over the key snapshot computes the cleaned object |
| FormErrors.Aggregate | src/form/hooks/useInstance.tsx:70-82 | a non-`true` result is a non-empty object without repeated keys, each holding only failed rules |
| FormErrors.AggregateResults | src/form/hooks/useInstance.tsx:72-82 | the `.then` callback resolves to the aggregation, and a non-`true` result is a non-empty object without repeated keys |
| FormErrors.AggregateMeaning | src/form/hooks/useInstance.tsx:73-81 | validation gives `true` iff every merged key is `true`; otherwise each key reads as the cleaned merged entry |
| FormErrors.FirstRulesIndex | src/form/hooks/useInstance.tsx:29 | the first key whose entry is a rule list, or none iff all entries are `true` |
| FormErrors.FirstError | src/form/hooks/useInstance.tsx:27-34 | nothing for `true`; otherwise the message of the first rule under the first key when that key holds a non-empty list, and nothing when it does not |
| FormErrors.FirstErrorOfAggregate | src/form/hooks/useInstance.tsx:27-34 | the first error of `validate`'s result is the first failed rule of the first-inserted rule-list key, or nothing |
| FormErrors.PassedRulesKeepKey | src/form/hooks/useInstance.tsx:74-81 | for any results, a key whose merged rules have no failure stays with an empty list, so validation does not pass; there is no first error when that key is the first holding a rule list |
| GridRow.CalcSize | src/grid/Row.tsx:20-43 | for any thresholds, the result is the largest class whose threshold is at most the width, and `xs` iff the width is below every threshold |
| GridRow.Threshold | src/grid/Row.tsx:21-25 | a threshold is never 0: it is the custom value when that is set and non-zero, else the default |
| GridRow.DefaultsAscend | src/grid/Row.tsx:21-25 | with no custom property set the thresholds are 768 / 992 / 1200 / 1400 / 1880, which ascend |
| GridRow.CalcSizeBand | src/grid/Row.tsx:27-42 | with ascending thresholds the width lies in the band `[threshold, next threshold)` of the class returned |
| GridRow.CalcSizeMonotone | src/grid/Row.tsx:28-40 | a wider window never gives a smaller class |
| GridRow.InitialSize | src/grid/Row.tsx:104 | without a document the initial size is `md`; with one it is the largest class whose threshold `window.innerWidth` reaches, and `xs` iff it reaches none |
| GridRow.UpdateSizeAsWritten | src/grid/Row.tsx:106-111 | the listener as written always keeps the size the row already had |
| GridRow.StaleSizeAfterResize | src/grid/Row.tsx:106-111 | with the default thresholds, a row at `md` stays `md` after widening to 2000, although `calcSize` gives `xxl` |
| GridRow.UpdateSize | src/grid/Row.tsx:106-111 | the corrected listener stores the largest class whose threshold the new width reaches, and keeps the size iff it is already that class |
| GridRow.UpdateSizeTracksWidth | src/grid/Row.tsx:104-111 | after any sequence of two resizes the stored size is the class of the latest width, and widening never lowers it |
| GridRow.WithMargins | src/grid/Row.tsx:48-51 | both margins become the same value `m` with `m * -2 == gutter`; the row gap is untouched |
| GridRow.WithGap | src/grid/Row.tsx:60 | sets the row gap and leaves the margins untouched |
| GridRow.ArrayStyle | src/grid/Row.tsx:52-71 | equal margins; no margins only when `[0]` is not a number; a row gap only when `[1]` is a number or a table |
| GridRow.TableStyle | src/grid/Row.tsx:72-84 | a truthy entry always sets equal margins; a number sets no row gap; an array sets one iff it is non-empty |
| GridRow.CalcRowStyle | src/grid/Row.tsx:45-87 | in every branch `marginLeft` equals `marginRight` |
| GridRow.NumberGutter | src/grid/Row.tsx:47-51 | a numeric gutter gives margins `m` with `m * -2 == gutter` and no row gap |
| GridRow.DefaultGutter | src/grid/Row.tsx:95 | the default gutter 0 gives zero margins and no row gap |
| GridRow.ArrayGutter | src/grid/Row.tsx:52-71 | the margins are set iff `[0]` is a number or a table with the size, and then come from the table entry, else from the number; the same holds for the row gap from `[1]` |
| GridRow.EmptyGutters | src/grid/Row.tsx:45-87 | an empty array, a non-object gutter, or a table with no truthy entry for the size yields an empty style |
| GridRow.TableGutter | src/grid/Row.tsx:72-84 | a truthy number entry sets only the margins; a non-empty array entry sets margins from `[0]` and the row gap from `[1]` (`undefinedpx` when missing); an empty array gives zero margins |
| RadioGroup.Or | src/radio/RadioGroup.tsx:53 | `a \|\| b` is truthy iff one operand is, and is `b` when `a` is falsy |
| RadioGroup.Fire | src/radio/RadioGroup.tsx:54-59 | a non-function does nothing; an injected handler ends by setting the group value to the child's value |
| RadioGroup.Inject | src/radio/RadioGroup.tsx:42-61 | a child whose `checked` is set, to a boolean or to `null`, comes back unchanged; `value` and the other props are always preserved; a child without `checked` gets `checked == (internalValue === value)` |
| RadioGroup.InjectDisabled | src/radio/RadioGroup.tsx:53 | an uncontrolled child is disabled iff it or the group is; a disabled group disables every uncontrolled child |
| RadioGroup.InjectedChange | src/radio/RadioGroup.tsx:54-59 | the injected `onChange` first runs the child's handler (when a function) and then sets the group value |
| RadioGroup.AtMostOneChecked | src/radio/RadioGroup.tsx:44-52 | among uncontrolled children with distinct values at most one is checked, and exactly one iff one of them has the group's value |
| RadioGroup.RenderOption | src/radio/RadioGroup.tsx:86-97 | a string or number option becomes value = key = label = item; an object option supplies value, label and disabled |
| RadioGroup.RenderOptions | src/radio/RadioGroup.tsx:84-98 | order and length are preserved, element by element |
| RadioGroup.Content | src/radio/RadioGroup.tsx:110 | truthy children win over `options`; otherwise one radio per option, in order, each the rendering of that option, and none when `options` is absent |
| RadioGroup.Includes | src/radio/RadioGroup.tsx:65 | `s.includes(t)` iff `t` occurs in `s` at some index |
| RadioGroup.Classes | src/radio/RadioGroup.tsx:104-108 | `__outline` iff the variant is `'outline'` (the default), `--filled` iff it contains `'filled'`, `--primary-filled` iff it is `'primary-filled'` |
| RadioGroup.HasBlock | src/radio/RadioGroup.tsx:79-82 | the background block is rendered iff the variant contains `'filled'` at some index, which is exactly when the group has the `--filled` class |
| RadioGroup.VariantBlocks | src/radio/RadioGroup.tsx:104-108 | the default variant has no block, while `'default-filled'` and `'primary-filled'` have one |

## Left out

- `validate` and `submit` use Promises, and a rejection goes to `console.error`. The model takes the already-resolved per-item results as input (one list per called item), and `flatten` is one-level concatenation.
- DOM work is outside the model (no document exists here):
  - `scrollTo`, `querySelector`, `scrollIntoView`;
  - `preventDefault` and `stopPropagation` in `submit`;
  - the bar measurement (`offsetWidth` / `offsetLeft`) and `useMutationObservable` of the radio group.
- `getCssVarsValue` is not part of this model. The thresholds it reads are inputs.
- GridRow.Threshold: the custom properties are taken to hold numbers. If `getCssVarsValue` returns the property's text, a truthy non-numeric value such as `'768px'` is kept by `||`, and `width >= '768px'` compares against `NaN`, which is false for every width; that case is not modelled.
- The form items' methods (`setValue`, `setField`, `resetField`, `resetValidate`, `setValidateMessage`, `validate`) are not shown. Calls to them are recorded as a trace.
- React state and rendering are outside the model:
  - `useState`, `useEffect` and the registration of the resize listener (its update rule is modelled; see Findings);
  - `classNames`, `createElement`, `cloneElement` for `Col`;
  - `useConfig`, `useDefault`.
  - The group's `internalValue` is an input.
- CSS text: a length is its number, not the string `${x}px`. The row style's spread with `style` is not modelled.
- FormItem: an item without a name and an item named `""` are both modelled as `""`. They differ only for `validate({ fields })` when `fields` contains `""`.
- FormErrors.Lookup: `Object.keys` is insertion order. JavaScript moves integer-like keys to the front; that is not modelled. Prototype keys are also not modelled.
- FormInstance.GetFieldsValue: the result is a finite map, so the key order of the returned object is not modelled.
- FormInstance.Reset: `null` and `undefined` are both JavaScript values, but default parameters replace only `undefined`. The model's `None` means an absent argument or property, and an explicit `null` is not modelled:
  - `reset(null)` throws when destructuring;
  - `reset({ fields: null })` throws at `null.forEach`, where the model makes no calls;
  - `reset({ type: null })` calls `resetField(null)`, where the model passes the initial type;
  - `validate({ trigger: null })` calls `validate(null)`, where `TriggerOf` gives `'all'`;
  - `setFieldsValue(null)` and `setValidateMessage(undefined)` throw in `Object.keys`; `SetFieldsValue` and `SetValidateMessages` take a list of entries, which cannot express either input.
- FormInstance.ItemsMap: the item table is built from `{}`, so it inherits `Object.prototype`, and the model does not capture that. A name such as `constructor` or `toString` looks up an inherited member rather than being unknown. So `setFieldsValue({ constructor: 1 })` throws "…setValue is not a function" (likewise `setFields`, `reset({ fields })` and `setValidateMessage`), and `getFieldsValue(['toString'])` returns `{ toString: undefined }`. Where the model says unknown names are ignored, it means names that are neither registered nor inherited.
- RadioGroup.Scalar: `NaN` and the distinction between `-0` and `0` are not modelled. Strict equality is structural equality of values.
- GridRow.CalcRowStyle: gutter values are reals. Non-numeric table entries and IEEE rounding are not modelled.
- Each core item is modelled as a value passed by value, so aliasing between items and the order in which the host framework registers them are not captured.

## Findings

| source | as written | input that shows it | evidently intended | confidence | as-written member | corrected member |
|---|---|---|---|---|---|---|
| src/grid/Row.tsx:106-111 | `updateSize` computes `currentSize` but calls `setSize(size)`, storing the size the row already had | default thresholds, a row at `md`, window widened to 2000: `calcSize` gives `xxl`, the state stays `md` | `setSize(currentSize)` | high; not executed | GridRow.StaleSizeAfterResize | GridRow.UpdateSizeTracksWidth |
