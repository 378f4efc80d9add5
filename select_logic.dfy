/**
 * The framework-free part of the select widget
 * (src/app/custom-select/custom-select.component.ts): the value it stores,
 * the new value a click on an option produces, the search for the option
 * that matches a stored value, the rewriting of stored values to the
 * options' own values, the label view of the value, and which notifications
 * an animation event or a blur produces.
 */
module SelectLogic {
  import opened Wrappers
  import opened Sequences

  /** `SelectValue<T>`: `null`, one option value, or an array of them. */
  datatype SelectValue<T> = Null | One(item: T) | Many(items: seq<T>)

  /** What a value selects, in order. */
  function Selected<T>(v: SelectValue<T>): seq<T>
  {
    match v
    case Null => []
    case One(x) => [x]
    case Many(xs) => xs
  }

  /**
   * JavaScript truthiness of a stored value: `null` is falsy, an array is
   * truthy even when empty, and a scalar is as truthy as `truthy` says
   * (`0`, `''` and `false` are the falsy scalars of JavaScript).
   */
  predicate IsTruthy<T>(v: SelectValue<T>, truthy: T -> bool)
  {
    match v
    case Null => false
    case One(x) => truthy(x)
    case Many(_) => true
  }

  /**
   * What the widget makes observable, in order: its `selectionChanged` and
   * `searchChanged`, `opened` and `closed` outputs, and calls of the
   * `onChange` and `onTouched` callbacks that the form registered.
   */
  datatype Event<T> =
    | SelectionChanged(value: SelectValue<T>)
    | ChangeCallback(value: SelectValue<T>)
    | TouchedCallback
    | Opened
    | Closed
    | SearchChanged(text: string)

  // ---------------------------------------------------------------------
  // Toggling a value in a multiple selection
  // ---------------------------------------------------------------------

  /** The predicate `v => v !== value` that the toggle-off filter applies. */
  function DiffersFrom<T(==)>(value: T): T -> bool
  {
    x => x != value
  }

  /** Toggle-off: every occurrence of `v` is dropped, the rest keep their order. */
  function RemoveAll<T(==)>(s: seq<T>, v: T): (r: seq<T>)
    ensures v !in r
    ensures IsSubsequence(r, s)
    ensures forall x :: x in s && x != v ==> x in r && multiset(r)[x] == multiset(s)[x]
  {
    Filter(s, DiffersFrom(v))
  }

  /**
   * A click on the option `v` in multiple mode: a present value (strict
   * equality, as `Array.prototype.includes`) is removed, an absent one is
   * appended at the end.
   */
  function Toggle<T(==)>(s: seq<T>, v: T): (r: seq<T>)
    ensures v in r <==> v !in s
    ensures v !in s ==> r == s + [v]
    ensures v in s ==> IsSubsequence(r, s) && |r| < |s|
    ensures v in s ==> forall x :: x in s && x != v ==> x in r && multiset(r)[x] == multiset(s)[x]
  {
    if v in s then
      var i :| 0 <= i < |s| && s[i] == v;
      assert !DiffersFrom(v)(s[i]);
      RemoveAll(s, v)
    else s + [v]
  }

  /** Toggle law: selecting an absent value twice restores the selection exactly. */
  lemma {:induction false} ToggleRestores<T>(s: seq<T>, v: T)
    requires v !in s
    ensures Toggle(Toggle(s, v), v) == s
  {
    assert Toggle(s, v) == s + [v];
    FilterAppend(s, [v], DiffersFrom(v));
    FilterKeepsAll(s, DiffersFrom(v));
    assert Filter([v], DiffersFrom(v)) == [];
  }

  /** Selecting a present value twice moves it, once, to the end. */
  lemma {:induction false} ToggleTwicePresent<T>(s: seq<T>, v: T)
    requires v in s
    ensures Toggle(Toggle(s, v), v) == RemoveAll(s, v) + [v]
  {
  }

  // ---------------------------------------------------------------------
  // The value a click on an option produces (handleSelection)
  // ---------------------------------------------------------------------

  /** A new stored value, or the `TypeError` the click raises before storing anything. */
  datatype Outcome<T> = Stored(value: SelectValue<T>) | Threw

  /**
   * handleSelection's new value as the code is written: in multiple mode a
   * value that is not an array reaches `[...currentValue, value]`, and
   * spreading `null` (or a non-iterable scalar) throws.
   */
  function SelectionStepAsWritten<T(==)>(multiple: bool, current: SelectValue<T>, v: T): (r: Outcome<T>)
    ensures r.Threw? <==> multiple && !current.Many?
    ensures !multiple ==> r == Stored(One(v))
    ensures multiple && current.Many? ==> r.Stored? && r.value.Many? && (v in r.value.items <==> v !in current.items)
  {
    if !multiple then Stored(One(v))
    else match current
      case Many(s) => Stored(Many(Toggle(s, v)))
      case _ => Threw
  }

  /**
   * handleSelection's new value with an empty multiple selection (`null`,
   * the initial value and the value after clearSelection) read as `[]`:
   * the click then selects the option. A bare scalar stored in multiple
   * mode still throws, as in the code.
   */
  function SelectionStep<T(==)>(multiple: bool, current: SelectValue<T>, v: T): (r: Outcome<T>)
    ensures r.Threw? <==> multiple && current.One?
    ensures !multiple ==> r == Stored(One(v))
    ensures multiple && !current.One? ==> r == Stored(Many(Toggle(Selected(current), v)))
  {
    if !multiple then Stored(One(v))
    else match current
      case Null =>
        assert Toggle([], v) == [v];
        Stored(Many([v]))
      case Many(s) => Stored(Many(Toggle(s, v)))
      case One(_) => Threw
  }

  /** The first click of a multiple select after clearSelection throws as written. */
  lemma ClearedMultipleClickThrowsAsWritten<T>(v: T)
    ensures SelectionStepAsWritten(true, Null, v) == Threw
    ensures SelectionStep(true, Null, v) == Stored(Many([v]))
  {
  }

  /** The corrected step differs from the code only on an empty multiple selection. */
  lemma SelectionStepCorrectsOnlyNull<T>(multiple: bool, current: SelectValue<T>, v: T)
    ensures SelectionStep(multiple, current, v) != SelectionStepAsWritten(multiple, current, v)
        <==> multiple && current.Null?
  {
  }

  /** Single mode replaces: after two clicks only the second value is selected. */
  lemma SingleSelectionReplaces<T>(current: SelectValue<T>, a: T, b: T)
    ensures SelectionStep(false, current, a).Stored?
    ensures SelectionStep(false, SelectionStep(false, current, a).value, b) == Stored(One(b))
  {
  }

  /** A multiple selection stays an array (never null, never a bare scalar) after a click. */
  lemma MultipleSelectionStaysArray<T>(current: SelectValue<T>, v: T)
    requires !current.One?
    ensures SelectionStep(true, current, v).Stored? && SelectionStep(true, current, v).value.Many?
  {
  }

  /** Two clicks on a value absent from a multiple selection restore it. */
  lemma {:induction false} MultipleClickTwiceRestores<T>(s: seq<T>, v: T)
    requires v !in s
    ensures SelectionStep(true, Many(s), v) == Stored(Many(s + [v]))
    ensures SelectionStep(true, SelectionStep(true, Many(s), v).value, v) == Stored(Many(s))
  {
    ToggleRestores(s, v);
  }

  // ---------------------------------------------------------------------
  // Finding the option for a stored value (findOptionsByValue)
  // ---------------------------------------------------------------------

  /** The predicate `op => op.value() === value`. */
  function StrictlyEquals<T(==)>(value: T): T -> bool
  {
    o => o == value
  }

  /** The predicate `o => compareWith(o.value(), value)`. */
  function ComparesWith<T>(compareWith: (T, T) -> bool, value: T): T -> bool
  {
    o => compareWith(o, value)
  }

  /**
   * The position of the option that matches `value`: the first option whose
   * value is strictly equal, and only when there is none the first one that
   * `compareWith(optionValue, value)` accepts.
   */
  function FindOptionByValue<T(==)>(options: seq<T>, compareWith: (T, T) -> bool, value: T): (r: Option<nat>)
    ensures value in options ==> r.Some? && r.value < |options| && options[r.value] == value
    ensures value in options ==> forall j :: 0 <= j < r.value ==> options[j] != value
    ensures value !in options && r.Some? ==>
      r.value < |options| && compareWith(options[r.value], value) &&
      forall j :: 0 <= j < r.value ==> !compareWith(options[j], value)
    ensures r.None? <==> value !in options && forall j :: 0 <= j < |options| ==> !compareWith(options[j], value)
  {
    match FirstIndex(options, StrictlyEquals(value))
    case Some(i) => Some(i)
    case None =>
      assert value !in options by {
        forall j | 0 <= j < |options| ensures options[j] != value {
          assert !StrictlyEquals(value)(options[j]);
        }
      }
      FirstIndex(options, ComparesWith(compareWith, value))
  }

  /**
   * The value a stored value is rewritten to: the matching option's own
   * value (the option itself when there is one, else the first option
   * `compareWith` accepts), or the stored value itself when no option matches.
   */
  function Canonical<T(==)>(options: seq<T>, compareWith: (T, T) -> bool, value: T): (r: T)
    ensures value in options ==> r == value
    ensures r in options || r == value
    ensures r != value ==> r in options && compareWith(r, value)
    ensures value !in options ==>
      (r in options <==> exists j :: 0 <= j < |options| && compareWith(options[j], value))
    ensures r != value ==>
      exists j :: 0 <= j < |options| && options[j] == r && (forall k :: 0 <= k < j ==> !compareWith(options[k], value))
  {
    match FindOptionByValue(options, compareWith, value)
    case Some(i) => options[i]
    case None => value
  }

  /** Rewriting is idempotent, whatever `compareWith` is (it is a function, so deterministic). */
  lemma CanonicalIdempotent<T>(options: seq<T>, compareWith: (T, T) -> bool, value: T)
    ensures Canonical(options, compareWith, Canonical(options, compareWith, value))
         == Canonical(options, compareWith, value)
  {
  }

  /** The `map` inside highlightSelectedOptions: every stored value rewritten, order and length kept. */
  function Reconcile<T(==)>(options: seq<T>, compareWith: (T, T) -> bool, values: seq<T>): (r: seq<T>)
    ensures |r| == |values|
    ensures forall i :: 0 <= i < |values| ==> r[i] == Canonical(options, compareWith, values[i])
    ensures forall i :: 0 <= i < |values| ==> r[i] == values[i] || r[i] in options
  {
    seq(|values|, i requires 0 <= i < |values| => Canonical(options, compareWith, values[i]))
  }

  /** Reconciling twice gives what reconciling once gives. */
  lemma ReconcileIdempotent<T>(options: seq<T>, compareWith: (T, T) -> bool, values: seq<T>)
    ensures Reconcile(options, compareWith, Reconcile(options, compareWith, values))
         == Reconcile(options, compareWith, values)
  {
  }

  /**
   * The value highlightSelectedOptions stores: a falsy value is left alone;
   * otherwise its elements (a scalar read as a one-element array) are
   * rewritten and stored as an array in multiple mode or as the first
   * element in single mode (`undefined` for an empty array, read as null).
   */
  function Highlight<T(==)>(multiple: bool, options: seq<T>, compareWith: (T, T) -> bool,
                            truthy: T -> bool, value: SelectValue<T>): (r: SelectValue<T>)
    ensures !IsTruthy(value, truthy) ==> r == value
    ensures IsTruthy(value, truthy) && multiple ==>
      r.Many? && r.items == Reconcile(options, compareWith, Selected(value))
    ensures IsTruthy(value, truthy) && !multiple ==>
      !r.Many? && Selected(r) == Reconcile(options, compareWith, Selected(value))[..if Selected(value) == [] then 0 else 1]
  {
    if !IsTruthy(value, truthy) then value
    else
      var updated := Reconcile(options, compareWith, Selected(value));
      if multiple then Many(updated)
      else if updated == [] then Null
      else One(updated[0])
  }

  /** Highlighting is idempotent. */
  lemma HighlightIdempotent<T>(multiple: bool, options: seq<T>, compareWith: (T, T) -> bool,
                               truthy: T -> bool, value: SelectValue<T>)
    ensures Highlight(multiple, options, compareWith, truthy, Highlight(multiple, options, compareWith, truthy, value))
         == Highlight(multiple, options, compareWith, truthy, value)
  {
  }

  /** After highlighting, a truthy value of a multiple select is an array. */
  lemma HighlightMultipleIsArray<T>(options: seq<T>, compareWith: (T, T) -> bool,
                                        truthy: T -> bool, value: SelectValue<T>)
    requires IsTruthy(value, truthy)
    ensures Highlight(true, options, compareWith, truthy, value).Many?
    ensures |Selected(Highlight(true, options, compareWith, truthy, value))| == |Selected(value)|
  {
  }

  // ---------------------------------------------------------------------
  // setupValue's normalisation
  // ---------------------------------------------------------------------

  /**
   * setupValue: a truthy bare scalar is wrapped into a one-element array in
   * multiple mode; every other value is stored as given.
   */
  function NormaliseValue<T>(multiple: bool, truthy: T -> bool, value: SelectValue<T>): (r: SelectValue<T>)
    ensures Selected(r) == Selected(value)
    ensures !multiple ==> r == value
    ensures multiple ==> !(r.One? && truthy(r.item))
    ensures r.One? ==> r == value
    ensures r.Many? <==> value.Many? || (multiple && value.One? && truthy(value.item))
  {
    if multiple && value.One? && truthy(value.item) then Many([value.item]) else value
  }

  /** Normalising twice is normalising once. */
  lemma NormaliseIdempotent<T>(multiple: bool, truthy: T -> bool, value: SelectValue<T>)
    ensures NormaliseValue(multiple, truthy, NormaliseValue(multiple, truthy, value))
         == NormaliseValue(multiple, truthy, value)
  {
  }

  /** A falsy bare scalar slips through normalisation in multiple mode. */
  lemma NormaliseKeepsFalsyScalar<T>(truthy: T -> bool, x: T)
    requires !truthy(x)
    ensures NormaliseValue(true, truthy, One(x)) == One(x)
  {
  }

  // ---------------------------------------------------------------------
  // displayValue
  // ---------------------------------------------------------------------

  /** What displayValue returns: labels for an array when a formatter is set, else the value. */
  datatype Display<T, L> = Labels(labels: seq<L>) | Raw(value: SelectValue<T>)

  /** The displayValue getter; `displayWith` is the optional formatter input. */
  function DisplayValue<T, L>(value: SelectValue<T>, displayWith: Option<T -> L>): (r: Display<T, L>)
    ensures r.Labels? <==> displayWith.Some? && value.Many?
    ensures r.Labels? ==> |r.labels| == |value.items|
    ensures r.Labels? ==> forall i :: 0 <= i < |value.items| ==> r.labels[i] == displayWith.value(value.items[i])
    ensures r.Raw? ==> r.value == value
  {
    match (displayWith, value)
    case (Some(f), Many(xs)) => Labels(seq(|xs|, i requires 0 <= i < |xs| => f(xs[i])))
    case _ => Raw(value)
  }

  // ---------------------------------------------------------------------
  // onPanelAnimationDone
  // ---------------------------------------------------------------------

  /** An animation event reduced to its two state names; `None` is a null state. */
  datatype AnimationEvent = AnimationEvent(fromState: Option<string>, toState: Option<string>)

  /** The state name of an absent panel. */
  const VoidState: string := "void"

  /**
   * The outputs a finished panel animation fires: `opened` after entering
   * (void to null) while open, `closed` after leaving (null to void) while
   * closed.
   */
  function PanelNotifications<T(==)>(e: AnimationEvent, isOpen: bool): (r: seq<Event<T>>)
    ensures Opened in r <==> e.fromState == Some(VoidState) && e.toState.None? && isOpen
    ensures Closed in r <==> e.fromState.None? && e.toState == Some(VoidState) && !isOpen
    ensures forall ev :: ev in r ==> ev == Opened || ev == Closed
    ensures |r| <= 1
  {
    (if e.fromState == Some(VoidState) && e.toState.None? && isOpen then [Opened] else [])
    + (if e.fromState.None? && e.toState == Some(VoidState) && !isOpen then [Closed] else [])
  }

  // ---------------------------------------------------------------------
  // markAsTouched (the blur handler)
  // ---------------------------------------------------------------------

  /**
   * The blur handler tests `!this.disabled`, and `this.disabled` is the
   * signal itself, a function object; every function object is truthy.
   */
  const DisabledSignalIsTruthy: bool := true

  /** The blur handler as written: whatever the flags, it never calls onTouched. */
  function BlurNotificationsAsWritten<T>(isOpen: bool): (r: seq<Event<T>>)
    ensures r == []
  {
    if !DisabledSignalIsTruthy && !isOpen then [TouchedCallback] else []
  }

  /** The blur handler reading the signal's value: onTouched on leaving an enabled, closed widget. */
  function BlurNotifications<T(==)>(disabled: bool, isOpen: bool): (r: seq<Event<T>>)
    ensures TouchedCallback in r <==> !disabled && !isOpen
    ensures forall ev :: ev in r ==> ev == TouchedCallback
    ensures |r| <= 1
  {
    if !disabled && !isOpen then [TouchedCallback] else []
  }

  /** Leaving an enabled, closed widget marks the form control touched only in the corrected handler. */
  lemma BlurNeverTouchesAsWritten<T>()
    ensures BlurNotificationsAsWritten<T>(false) == []
    ensures BlurNotifications<T>(false, false) == [TouchedCallback]
  {
  }
}
