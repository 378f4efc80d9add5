# Dropdown select: selection logic

A Dafny model of the selection logic of an Angular dropdown widget and of the
demo page that uses it:

- the select coordinator (`CustomSelectComponent`): the stored value (null,
  one option value or an array of them), the open flag, the disabled flag, the
  click on an option that toggles (multiple mode) or replaces and closes
  (single mode), clearing, the rewriting of stored values to the options' own
  values (`highlightSelectedOptions` and `findOptionsByValue`), the
  normaliser `setupValue`, the `displayValue` getter, the `opened`/`closed`
  notifications fired after the panel animation, and the blur handler;
- the option item (`CustomOptionComponent`): its selected and active flags,
  the CSS-class getters that show them (`DisabledClass`, `SelectedClass`,
  `ActiveClass` return exactly the three flags, and the methods' contracts are
  stated through them), and the `selected` output a click fires;
- the demo page (`AppComponent`): the case-insensitive prefix search over its
  users and the id-based `compareWithFn`.

Files:

- `wrappers.dfy` — `Option`.
- `sequences.dfy` — `Filter` (JavaScript's `filter`: a subsequence, sound,
  complete, counts kept), `FirstIndex` (JavaScript's `find`), and
  `IsSubsequence`.
- `select_logic.dfy` — module `SelectLogic`: the pure part of the select.
  `SelectValue`, the event log's `Event`, toggling, the value a click
  produces, the option search, the rewriting of stored values, `setupValue`'s
  normalisation, `displayValue`, the animation and blur notifications.
- `custom_select.dfy` — class `CustomSelect.Select`: the widget's fields and
  methods. Each method's `ensures` gives its whole new state and the events it
  appends to `log`, in terms of the `SelectLogic` functions.
- `custom_option.dfy` — class `CustomOption.OptionItem`.
- `app.dfy` — module `App`: `User`, the prefix filter, `compareWithFn`, and
  class `AppComponent`.

Outputs and callbacks are modelled as one log, `Select.log`, in the order the
code fires them: `selectionChanged` then `onChange` then, in single mode,
`onTouched` from `close`. JavaScript truthiness of an option value is the
widget's `truthy` parameter; `null` is falsy and every array is truthy. Strict
equality `===` is Dafny's `==` on the type parameter `T`; the demo's `User` is
a class, so `==` on users is object identity, as in JavaScript.

Behaviour of the code that a reader of the widget's design might expect to be
otherwise (the model follows the code):

- Toggling in multiple mode uses strict equality (`includes` and `!==`), not
  `compareWith`.
- `writeValue` stores its argument as given. Only `setupValue` wraps a scalar
  into an array, and nothing calls `setupValue`.
- `setupValue` wraps only a truthy scalar: a falsy scalar such as `0` stays a
  bare scalar in multiple mode (`NormaliseKeepsFalsyScalar`).
- `highlightSelectedOptions` rewrites the stored value only. It never sets or
  clears any option's selected flag; option flags change only through the
  option's own methods.
- In single mode, `highlightSelectedOptions` on an empty array stores
  `undefined` (the first element of an empty array); the model stores `Null`.

## Model

| member | source | states |
|---|---|---|
| `Sequences.Filter` | src/app/app.component.ts:64-66 | `filter` keeps a subsequence of its input; every kept element passes the test; every passing element is kept as often as it occurs; the result is shorter exactly when some element fails |
| `Sequences.FirstIndex` | src/app/custom-select/custom-select.component.ts:327 | `find` returns the first position whose element passes, or none when no element passes |
| `SelectLogic.RemoveAll` | src/app/custom-select/custom-select.component.ts:293 | toggle-off drops every occurrence of the value and keeps every other element, with its count, in its order |
| `SelectLogic.Toggle` | src/app/custom-select/custom-select.component.ts:291-296 | a click flips whether the value is selected; an absent value is appended at the end (length one more); a present one is removed, the rest kept in order |
| `SelectLogic.ToggleRestores` | src/app/custom-select/custom-select.component.ts:292-295 | toggle law: two clicks on a value absent from the array restore the array exactly |
| `SelectLogic.ToggleTwicePresent` | src/app/custom-select/custom-select.component.ts:292-295 | two clicks on a present value do not restore the array: every copy is removed and one is put at the end |
| `SelectLogic.SelectionStepAsWritten` | src/app/custom-select/custom-select.component.ts:290-299 | as written, a click in multiple mode throws on null or a bare scalar and toggles an array; single mode stores the option value (a string scalar is not modelled as JavaScript treats it; see Left out) |
| `SelectLogic.SelectionStep` | src/app/custom-select/custom-select.component.ts:290-299 | corrected click: single mode stores the option value; multiple mode toggles, reading null as the empty array; only a bare scalar in multiple mode throws (a string scalar: see Left out) |
| `SelectLogic.ClearedMultipleClickThrowsAsWritten` | src/app/custom-select/custom-select.component.ts:295 | after clearSelection (value null) the first click in multiple mode throws as written, and selects `[v]` once corrected |
| `SelectLogic.SelectionStepCorrectsOnlyNull` | src/app/custom-select/custom-select.component.ts:291-295 | the corrected step differs from the code exactly on a null value in multiple mode |
| `SelectLogic.SingleSelectionReplaces` | src/app/custom-select/custom-select.component.ts:297-299 | in single mode two clicks leave only the second value selected |
| `SelectLogic.MultipleSelectionStaysArray` | src/app/custom-select/custom-select.component.ts:290-296 | in multiple mode a click on a null or array value stores an array |
| `SelectLogic.MultipleClickTwiceRestores` | src/app/custom-select/custom-select.component.ts:290-296 | in multiple mode the first click on an absent value appends it and the second restores the original array |
| `SelectLogic.FindOptionByValue` | src/app/custom-select/custom-select.component.ts:326-333 | finds the first option strictly equal to the value; only when there is none, the first option `compareWith(option, value)` accepts; none exactly when neither exists |
| `SelectLogic.Canonical` | src/app/custom-select/custom-select.component.ts:314-317 | a stored value that is an option stays itself; otherwise it becomes the first option `compareWith` accepts (no earlier option is accepted), or stays itself when there is none |
| `SelectLogic.CanonicalIdempotent` | src/app/custom-select/custom-select.component.ts:314-317 | rewriting a rewritten value changes nothing |
| `SelectLogic.Reconcile` | src/app/custom-select/custom-select.component.ts:312-317 | the rewrite keeps length and order; each element becomes its canonical value, an option or itself |
| `SelectLogic.ReconcileIdempotent` | src/app/custom-select/custom-select.component.ts:312-317 | rewriting the array twice gives what rewriting once gives |
| `SelectLogic.Highlight` | src/app/custom-select/custom-select.component.ts:309-324 | a falsy value is left alone; a truthy one is rewritten and stored as an array in multiple mode, as its first element (never an array) in single mode |
| `SelectLogic.HighlightIdempotent` | src/app/custom-select/custom-select.component.ts:309-324 | highlightSelectedOptions twice stores what it stores once, for any `compareWith` |
| `SelectLogic.HighlightMultipleIsArray` | src/app/custom-select/custom-select.component.ts:319-320 | in multiple mode a truthy value becomes an array with as many elements as it selected |
| `SelectLogic.NormaliseValue` | src/app/custom-select/custom-select.component.ts:279-284 | setupValue never changes what is selected; single mode stores as given; multiple mode never keeps a truthy bare scalar |
| `SelectLogic.NormaliseIdempotent` | src/app/custom-select/custom-select.component.ts:279-284 | normalising twice is normalising once |
| `SelectLogic.NormaliseKeepsFalsyScalar` | src/app/custom-select/custom-select.component.ts:280 | a falsy scalar stays a bare scalar in multiple mode |
| `SelectLogic.DisplayValue` | src/app/custom-select/custom-select.component.ts:142-150 | labels exactly when a formatter is set and the value is an array, one label per element in order; otherwise the value itself |
| `SelectLogic.PanelNotifications` | src/app/custom-select/custom-select.component.ts:265-272 | `opened` only after a void-to-null animation while open, `closed` only after null-to-void while closed, at most one and nothing else |
| `SelectLogic.BlurNotificationsAsWritten` | src/app/custom-select/custom-select.component.ts:173-179 | as written, blur never calls onTouched |
| `SelectLogic.BlurNotifications` | src/app/custom-select/custom-select.component.ts:173-179 | corrected blur calls onTouched exactly when the widget is enabled and closed, and does nothing else |
| `SelectLogic.BlurNeverTouchesAsWritten` | src/app/custom-select/custom-select.component.ts:175 | blurring an enabled, closed widget calls onTouched only in the corrected handler |
| `CustomSelect.Select.constructor` | src/app/custom-select/custom-select.component.ts:97-104 | a new widget holds null, is closed and enabled, has an empty log, and compares with strict equality |
| `CustomSelect.Select.MarkAsTouched` | src/app/custom-select/custom-select.component.ts:173-179 | corrected blur (see Findings; as written the code never calls onTouched): appends onTouched when enabled and closed, and nothing otherwise |
| `CustomSelect.Select.Open` | src/app/custom-select/custom-select.component.ts:181-191 | opening does nothing when disabled and sets the open flag otherwise |
| `CustomSelect.Select.Close` | src/app/custom-select/custom-select.component.ts:193-198 | closing always clears the open flag and then calls onTouched |
| `CustomSelect.Select.WriteValue` | src/app/custom-select/custom-select.component.ts:215-217 | the form's value is stored verbatim, with no emission |
| `CustomSelect.Select.SetDisabledState` | src/app/custom-select/custom-select.component.ts:224-227 | the form sets the disabled flag |
| `CustomSelect.Select.SetCompareWith` | src/app/custom-select/custom-select.component.ts:229-233 | a new `compareWith` re-runs highlightSelectedOptions with it |
| `CustomSelect.Select.SetOptions` | src/app/custom-select/custom-select.component.ts:168-170 | new projected options replace the option list, and the stored value is rewritten against them by highlightSelectedOptions |
| `CustomSelect.Select.ClearSelection` | src/app/custom-select/custom-select.component.ts:256-263 | disabled: nothing changes; otherwise the value becomes null and null goes to `selectionChanged`, then to onChange |
| `CustomSelect.Select.OnPanelAnimationDone` | src/app/custom-select/custom-select.component.ts:265-272 | appends the `opened`/`closed` notifications the animation event and open flag call for |
| `CustomSelect.Select.OnHandleInput` | src/app/custom-select/custom-select.component.ts:274-277 | stores the search text and emits it on `searchChanged` |
| `CustomSelect.Select.SetupValue` | src/app/custom-select/custom-select.component.ts:279-284 | stores the normalised value |
| `CustomSelect.Select.HandleSelection` | src/app/custom-select/custom-select.component.ts:286-307 | disabled: nothing changes and nothing is emitted; otherwise stores the corrected step's value, emits it to `selectionChanged` then onChange, and in single mode closes (open flag false, then onTouched); multiple mode leaves the open flag; a throw changes nothing |
| `CustomSelect.Select.DisplayValue` | src/app/custom-select/custom-select.component.ts:142-150 | the getter on the widget's own value and formatter: labels exactly when a formatter is set and the value is an array, one per element in order; otherwise the value itself |
| `CustomSelect.Select.HighlightSelectedOptions` | src/app/custom-select/custom-select.component.ts:309-324 | stores `Highlight` of the old value: unchanged when falsy, an array of the same length in multiple mode |
| `CustomSelect.ToggleTwice` | src/app/custom-select/custom-select.component.ts:290-296 | on the widget, two clicks on an absent option restore the value, leave the widget open or closed as it was, and log two pairs of emissions |
| `CustomOption.OptionItem.constructor` | src/app/custom-select/custom-option/custom-option.component.ts:31-37 | a new option is neither selected nor active and has emitted nothing |
| `CustomOption.OptionItem.DisabledClass` | src/app/custom-select/custom-option/custom-option.component.ts:38-41 | returns exactly the `disabled` flag |
| `CustomOption.OptionItem.SelectedClass` | src/app/custom-select/custom-option/custom-option.component.ts:63-65 | returns exactly the `isSelected` flag |
| `CustomOption.OptionItem.ActiveClass` | src/app/custom-select/custom-option/custom-option.component.ts:67-71 | returns exactly the `isActive` flag |
| `CustomOption.OptionItem.Select` | src/app/custom-select/custom-option/custom-option.component.ts:43-49 | a disabled option changes nothing and emits nothing; an enabled one shows as selected, then emits itself; the active and disabled flags are untouched |
| `CustomOption.OptionItem.HighlightAsSelected` | src/app/custom-select/custom-option/custom-option.component.ts:72-74 | sets the selected flag, disabled or not, and nothing else |
| `CustomOption.OptionItem.Deselect` | src/app/custom-select/custom-option/custom-option.component.ts:84-86 | clears the selected flag, disabled or not, and nothing else |
| `CustomOption.OptionItem.SetActiveStyle` | src/app/custom-select/custom-option/custom-option.component.ts:78-80 | sets the active flag and nothing else |
| `CustomOption.OptionItem.SetInActiveStyle` | src/app/custom-select/custom-option/custom-option.component.ts:75-77 | clears the active flag and nothing else |
| `CustomOption.HighlightTwice` | src/app/custom-select/custom-option/custom-option.component.ts:72-74 | highlighting twice leaves the option as highlighting once, other flags and emissions untouched |
| `App.User.constructor` | src/app/app.component.ts:11-19 | a user holds the fields it was built with |
| `App.ToLower` | src/app/app.component.ts:65 | lower-casing keeps the length and leaves no upper-case letter |
| `App.ToLowerIdempotent` | src/app/app.component.ts:65 | lower-casing twice is lower-casing once |
| `App.FilterByPrefix` | src/app/app.component.ts:63-67 | the filtered users are a subsequence of the users, each with a lower-cased name starting with the lower-cased query, and every such user is kept as often as it occurs |
| `App.EmptyQueryKeepsAll` | src/app/app.component.ts:64-65 | an empty query keeps every user in order |
| `App.FilterIgnoresQueryCase` | src/app/app.component.ts:65 | a query and its lower-cased form filter alike |
| `App.LongerQueryNarrows` | src/app/app.component.ts:64-66 | extending the query keeps a subsequence of what the shorter query kept |
| `App.CompareWithFn` | src/app/app.component.ts:73-75 | true exactly when both users are null or both have the same id |
| `App.CompareWithFnIsEquivalence` | src/app/app.component.ts:74 | compareWithFn is reflexive, symmetric and transitive |
| `App.StoredUserRewrittenById` | src/app/app.component.ts:38-41 | an initial user that is a different object from every option but shares an id with one is rewritten to an option with that id |
| `App.AppComponent.constructor` | src/app/app.component.ts:42-54 | the filtered list starts as the whole list |
| `App.AppComponent.OnSearchChanged` | src/app/app.component.ts:63-67 | the filtered list becomes the prefix filter of the users; `users` is not modified; an empty query shows every user |

## Findings

| source | as written | input that shows it | evidently intended | confidence | as-written member | corrected member |
|---|---|---|---|---|---|---|
| src/app/custom-select/custom-select.component.ts:295 | in multiple mode a null value reaches `[...currentValue, value]`, and spreading null throws a TypeError | a multiple select with no initial value (null), or one just cleared by clearSelection, and a click on any option (`ClearedMultipleClickThrowsAsWritten`) | an empty selection reads as `[]`, so the click selects `[v]` | high; not executed | `SelectLogic.SelectionStepAsWritten` | `SelectLogic.SelectionStep` |
| src/app/custom-select/custom-select.component.ts:175 | `!this.disabled` negates the signal object, a function and so always truthy, so the blur handler never calls onTouched | blur on an enabled, closed widget (`BlurNeverTouchesAsWritten`) | `!this.disabled()`: onTouched when enabled and closed | high; not executed | `SelectLogic.BlurNotificationsAsWritten` | `SelectLogic.BlurNotifications` |

`Select.HandleSelection` and `Select.MarkAsTouched` use the corrected members.

## Left out

- Angular plumbing: decorators, dependency injection, the value-accessor provider, host bindings and listeners, `markForCheck`, the `label`, `searchable` and `tabIndex` inputs, the unused `optionMap`, the empty `ngOnDestroy`, and `coerceBooleanProperty` (`multiple` is a given boolean).
- The `effect` blocks in the constructor and in `ngAfterContentInit`, and signal change propagation: reactive scheduling. `HighlightSelectedOptions` is a method called explicitly, by `SetOptions` and `SetCompareWith` where the effect at custom-select.component.ts:168-170 would re-run it; the effect that calls `handleSelection` for every option is not modelled. That effect also re-runs highlightSelectedOptions whenever the stored value changes, since the function reads `value()` at custom-select.component.ts:310; in the model `WriteValue`, `HandleSelection`, `ClearSelection` and `SetupValue` store their value without rewriting it, and `HighlightSelectedOptions` must be called after them to get the state the effect would leave.
- `registerOnChange` and `registerOnTouched`: the model logs each call of the onChange and onTouched callbacks, whichever function is registered.
- DOM effects: the deferred focus of the search input in `open`, the host focus in `close`, `scrollIntoView`, `stopPropagation` in `clearSelection`.
- The commented-out keyboard navigation, `console.log`, the animation timings, the overlay and the templates.
- The demo's `FormControl` subscription, `onSelectionChanged`, `displayWithFn` and the sample users.
- Options are their values: `FindOptionByValue` returns the position of the option item rather than the item.
- `SelectLogic.DisplayValue`, `CustomSelect.Select.DisplayValue`: labels are strings; a formatter returning numbers is not modelled.
- `SelectLogic.IsTruthy`: JavaScript truthiness of an option value is a parameter, not JavaScript's coercion rules.
- `App.ToLower`, `App.LongerQueryNarrows`, `App.FilterIgnoresQueryCase`: lower-casing covers ASCII letters only, one character at a time; Unicode case mapping is not modelled. The two lemmas hold under that lower-casing only: JavaScript's `toLowerCase` applies context rules such as the final sigma (`"ΟΔΟΣ"` becomes `"οδος"` but `"ΟΔΟΣΑ"` becomes `"οδοσα"`), so lower-casing a longer query need not extend the lower-cased shorter one.
- `App.User`, `App.CompareWithFn`, `App.CompareWithFnIsEquivalence`: ids are integers, not JavaScript numbers; a NaN id, for which `===` is not reflexive, is not modelled, so the equivalence holds for the model's ids only.
- `SelectLogic.Toggle`: `includes` (SameValueZero) and `!==` differ only on NaN; the model uses one equality.
- `SelectLogic.SelectionStepAsWritten`, `SelectLogic.SelectionStep`, `CustomSelect.Select.HandleSelection`: a bare scalar stored in multiple mode always throws. That is what JavaScript does for an object, for a number and for `false`, but a string differs: a non-empty string that contains the clicked value reaches `currentValue.filter`, which strings lack, so it throws as modelled; a non-empty string that does not contain it is spread, so `'abc'` plus `v` stores `['a', 'b', 'c', v]`; the empty string is falsy, skips the search, and `[...'', v]` stores `[v]`.
- `SelectLogic.Highlight`: in single mode an empty array is stored as null where the code stores `undefined`.
