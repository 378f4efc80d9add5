/**
 * One option item of the dropdown (`CustomOptionComponent`,
 * src/app/custom-select/custom-option/custom-option.component.ts): its value,
 * its disabled input, the selected and active flags it shows as CSS classes,
 * and the `selected` output it fires when clicked.
 */
module CustomOption {

  class OptionItem<T> {
    /** The required `value` input. */
    const value: T
    /** The `disabled` input, set by the page. */
    var disabled: bool
    var isSelected: bool
    var isActive: bool
    /** Every emission of the `selected` output so far; each carries the item itself. */
    var selectedEmissions: seq<OptionItem<T>>

    constructor (value: T, disabled: bool)
      ensures this.value == value && this.disabled == disabled
      ensures !isSelected && !isActive && selectedEmissions == []
    {
      this.value := value;
      this.disabled := disabled;
      isSelected := false;
      isActive := false;
      selectedEmissions := [];
    }

    /** The `disabled` CSS class. */
    function DisabledClass(): (r: bool)
      reads this
      ensures r == disabled
    {
      disabled
    }

    /** The `selected` CSS class. */
    function SelectedClass(): (r: bool)
      reads this
      ensures r == isSelected
    {
      isSelected
    }

    /** The `active` CSS class. */
    function ActiveClass(): (r: bool)
      reads this
      ensures r == isActive
    {
      isActive
    }

    /** A click: an enabled item shows as selected and then emits itself; a disabled one does nothing. */
    method Select()
      modifies this`isSelected, this`selectedEmissions
      ensures disabled ==> isSelected == old(isSelected) && selectedEmissions == old(selectedEmissions)
      ensures !disabled ==> SelectedClass() && selectedEmissions == old(selectedEmissions) + [this]
      ensures ActiveClass() == old(ActiveClass()) && DisabledClass() == old(DisabledClass())
    {
      if !disabled {
        HighlightAsSelected();
        selectedEmissions := selectedEmissions + [this];
      }
    }

    /** Shows the item as selected, whether or not it is disabled. */
    method HighlightAsSelected()
      modifies this`isSelected
      ensures SelectedClass()
    {
      isSelected := true;
    }

    /** Clears the selected flag, whether or not the item is disabled. */
    method Deselect()
      modifies this`isSelected
      ensures !SelectedClass()
    {
      isSelected := false;
    }

    /** Shows the item as the keyboard-active one. */
    method SetActiveStyle()
      modifies this`isActive
      ensures ActiveClass()
    {
      isActive := true;
    }

    /** Removes the keyboard-active style. */
    method SetInActiveStyle()
      modifies this`isActive
      ensures !ActiveClass()
    {
      isActive := false;
    }
  }

  /** Highlighting twice leaves the item as highlighting once does; other flags untouched. */
  method HighlightTwice<T>(o: OptionItem<T>)
    modifies o
    ensures o.SelectedClass()
    ensures o.ActiveClass() == old(o.ActiveClass()) && o.DisabledClass() == old(o.DisabledClass())
    ensures o.selectedEmissions == old(o.selectedEmissions)
  {
    o.HighlightAsSelected();
    o.HighlightAsSelected();
  }
}
