/**
 * The select widget's state and the methods that change it
 * (`CustomSelectComponent`, src/app/custom-select/custom-select.component.ts).
 * Every output and callback call is appended to `log`; the computations are
 * the functions of SelectLogic.
 */
module CustomSelect {
  import opened Wrappers
  import opened SelectLogic

  class Select<T(==)> {
    /** The `multiple` attribute, read once at construction. */
    const multiple: bool
    /** JavaScript truthiness of an option value. */
    const truthy: T -> bool
    /** The `compareWith` input; strict equality unless the page sets another. */
    var compareWith: (T, T) -> bool
    /** The `displayWith` input: an optional formatter (`null` is `None`). */
    var displayWith: Option<T -> string>
    var disabled: bool
    var value: SelectValue<T>
    var isOpen: bool
    var searchText: string
    /** The values of the projected option items, in their order. */
    var options: seq<T>
    /** Every output emission and callback call so far, oldest first. */
    var log: seq<Event<T>>

    constructor (multiple: bool, truthy: T -> bool, options: seq<T>)
      ensures this.multiple == multiple && this.truthy == truthy && this.options == options
      ensures value == Null && !isOpen && !disabled && searchText == "" && log == []
      ensures displayWith == None
      ensures forall a, b :: compareWith(a, b) <==> a == b
    {
      this.multiple := multiple;
      this.truthy := truthy;
      this.options := options;
      compareWith := (a, b) => a == b;
      displayWith := None;
      disabled := false;
      value := Null;
      isOpen := false;
      searchText := "";
      log := [];
    }

    /** The displayValue getter. */
    function DisplayValue(): (r: Display<T, string>)
      reads this
      ensures r.Labels? <==> displayWith.Some? && value.Many?
      ensures r.Labels? ==> |r.labels| == |value.items|
      ensures r.Labels? ==> forall i :: 0 <= i < |value.items| ==> r.labels[i] == displayWith.value(value.items[i])
      ensures r.Raw? ==> r.value == value
    {
      SelectLogic.DisplayValue(value, displayWith)
    }

    /** The blur handler, reading the disabled flag's value. */
    method MarkAsTouched()
      modifies this`log
      ensures log == old(log) + BlurNotifications(disabled, isOpen)
      ensures !disabled && !isOpen ==> log == old(log) + [TouchedCallback]
      ensures disabled || isOpen ==> log == old(log)
    {
      log := log + BlurNotifications(disabled, isOpen);
    }

    /** A click on the widget opens it, unless it is disabled. */
    method Open()
      modifies this`isOpen
      ensures isOpen == (old(isOpen) || !disabled)
    {
      if disabled {
        return;
      }
      isOpen := true;
    }

    /** Closing always closes and calls onTouched. */
    method Close()
      modifies this`isOpen, this`log
      ensures !isOpen
      ensures log == old(log) + [TouchedCallback]
    {
      isOpen := false;
      log := log + [TouchedCallback];
    }

    /** The form writes a value: stored as given, neither normalised nor announced. */
    method WriteValue(v: SelectValue<T>)
      modifies this`value
      ensures value == v
    {
      value := v;
    }

    /** The form enables or disables the widget. */
    method SetDisabledState(isDisabled: bool)
      modifies this`disabled
      ensures disabled == isDisabled
    {
      disabled := isDisabled;
    }

    /** A new `compareWith` input re-runs the rewriting of the stored value (ngOnChanges). */
    method SetCompareWith(f: (T, T) -> bool)
      modifies this`compareWith, this`value
      ensures compareWith == f
      ensures value == Highlight(multiple, options, f, truthy, old(value))
    {
      compareWith := f;
      HighlightSelectedOptions();
    }

    /**
     * The projected option items change (the `contentChildren` query); the
     * effect that reads them re-runs the rewriting of the stored value.
     */
    method SetOptions(newOptions: seq<T>)
      modifies this`options, this`value
      ensures options == newOptions
      ensures value == Highlight(multiple, newOptions, compareWith, truthy, old(value))
    {
      options := newOptions;
      HighlightSelectedOptions();
    }

    /** The clear button: unless disabled, the value becomes null and null is announced. */
    method ClearSelection()
      modifies this`value, this`log
      ensures old(disabled) ==> value == old(value) && log == old(log)
      ensures !old(disabled) ==> value == Null
      ensures !old(disabled) ==> log == old(log) + [SelectionChanged(Null), ChangeCallback(Null)]
    {
      if disabled {
        return;
      }
      value := Null;
      log := log + [SelectionChanged(value), ChangeCallback(value)];
    }

    /** A finished panel animation fires `opened` or `closed` when the open flag agrees. */
    method OnPanelAnimationDone(e: AnimationEvent)
      modifies this`log
      ensures log == old(log) + PanelNotifications(e, isOpen)
    {
      log := log + PanelNotifications(e, isOpen);
    }

    /** Typing in the search box stores the text and emits it. */
    method OnHandleInput(text: string)
      modifies this`searchText, this`log
      ensures searchText == text
      ensures log == old(log) + [SearchChanged(text)]
    {
      searchText := text;
      log := log + [SearchChanged(searchText)];
    }

    /** setupValue: stores the value, a truthy scalar wrapped into an array in multiple mode. */
    method SetupValue(v: SelectValue<T>)
      modifies this`value
      ensures value == NormaliseValue(multiple, truthy, v)
      ensures multiple ==> !(value.One? && truthy(value.item))
      ensures Selected(value) == Selected(v)
    {
      var stored := v;
      if stored.One? && truthy(stored.item) && multiple {
        stored := Many([stored.item]);
      }
      value := stored;
    }

    /**
     * An option item reports a click (handleSelection). A disabled widget
     * ignores it; otherwise the new value is stored and announced to the
     * `selectionChanged` output and then to onChange, and single mode closes.
     * `threw` reports the TypeError of a bare scalar stored in multiple mode;
     * nothing changes then.
     */
    method HandleSelection(optionValue: T) returns (threw: bool)
      modifies this`value, this`isOpen, this`log
      ensures old(disabled) ==> !threw && value == old(value) && isOpen == old(isOpen) && log == old(log)
      ensures threw <==> !old(disabled) && multiple && old(value).One?
      ensures threw ==> value == old(value) && isOpen == old(isOpen) && log == old(log)
      ensures !old(disabled) && !threw ==> Stored(value) == SelectionStep(multiple, old(value), optionValue)
      ensures !old(disabled) && !threw && multiple ==>
        isOpen == old(isOpen) && log == old(log) + [SelectionChanged(value), ChangeCallback(value)]
      ensures !old(disabled) && !multiple ==>
        value == One(optionValue) && !isOpen &&
        log == old(log) + [SelectionChanged(value), ChangeCallback(value), TouchedCallback]
    {
      if disabled {
        return false;
      }
      var step := SelectionStep(multiple, value, optionValue);
      if step.Threw? {
        return true;
      }
      value := step.value;
      log := log + [SelectionChanged(value), ChangeCallback(value)];
      if !multiple {
        Close();
      }
      return false;
    }

    /**
     * highlightSelectedOptions: a truthy value has each element rewritten to
     * the matching option's own value, and is stored as an array in multiple
     * mode or as its first element in single mode.
     */
    method HighlightSelectedOptions()
      modifies this`value
      ensures value == Highlight(multiple, options, compareWith, truthy, old(value))
      ensures !IsTruthy(old(value), truthy) ==> value == old(value)
      ensures multiple && IsTruthy(old(value), truthy) ==>
        value.Many? && |value.items| == |Selected(old(value))|
    {
      if !IsTruthy(value, truthy) {
        return;
      }
      var updated := Reconcile(options, compareWith, Selected(value));
      if multiple {
        value := Many(updated);
      } else if updated == [] {
        value := Null;
      } else {
        value := One(updated[0]);
      }
    }
  }

  /** Two clicks on an option absent from a multiple selection leave the value as it was. */
  method ToggleTwice<T(==)>(s: Select<T>, optionValue: T)
    requires s.multiple && !s.disabled
    requires s.value.Many? && optionValue !in s.value.items
    modifies s`value, s`isOpen, s`log
    ensures s.value == old(s.value)
    ensures s.isOpen == old(s.isOpen)
    ensures s.log == old(s.log) + [SelectionChanged(Many(old(s.value.items) + [optionValue])),
                                   ChangeCallback(Many(old(s.value.items) + [optionValue])),
                                   SelectionChanged(old(s.value)), ChangeCallback(old(s.value))]
  {
    MultipleClickTwiceRestores(s.value.items, optionValue);
    var threw := s.HandleSelection(optionValue);
    threw := s.HandleSelection(optionValue);
  }
}
