/** The select control's state and its event handlers. Each handler is one atomic
    transition of the component's state; the filter effect runs synchronously, right
    after the handler that changed the search text. */
module Control {
  import opened Options
  import opened Filtering
  import opened Choosing
  import opened Search
  import opened SelectedFirst
  import opened Display

  class Select {
    // properties, fixed for the life of the control
    const options: seq<Option>
    const multiple: bool
    const placeholder: Maybe<string>
    const maxSelectedItemsView: Maybe<int>
    const hasOnChange: bool

    // state
    var selection: Selection
    var search: string
    var filtered: seq<Option>
    var isOpen: bool

    /** The payloads `onChange` has been called with, oldest first. */
    var notified: seq<Selection>

    /** The listed options are the filter's result for a non-empty search text, and
        some order of all options for an empty one; without `onChange` the log is
        empty, and with it the latest payload, if any, is the current selection. */
    ghost predicate Valid()
      reads this
    {
      (search != [] ==> filtered == Filter(options, search)) &&
      (search == [] ==> multiset(filtered) == multiset(options)) &&
      (!hasOnChange ==> notified == []) &&
      (hasOnChange && notified != [] ==> notified[|notified| - 1] == selection)
    }

    /** No value repeats among the options, and an array selection repeats no value
        and holds only values of the options. */
    ghost predicate Consistent()
      reads this
    {
      DistinctValues(options) &&
      (selection.Many? ==> DistinctValues(selection.items) && DrawnFrom(selection.items, options))
    }

    constructor (options: seq<Option>, multiple: bool, placeholder: Maybe<string>,
                 maxSelectedItemsView: Maybe<int>, defaultValue: Selection, hasOnChange: bool)
      ensures Valid()
      ensures this.options == options && this.multiple == multiple
      ensures this.placeholder == placeholder && this.maxSelectedItemsView == maxSelectedItemsView
      ensures this.hasOnChange == hasOnChange
      ensures selection == InitialSelection(multiple, defaultValue)
      ensures search == [] && filtered == options && !isOpen && notified == []
    {
      this.options := options;
      this.multiple := multiple;
      this.placeholder := placeholder;
      this.maxSelectedItemsView := maxSelectedItemsView;
      this.hasOnChange := hasOnChange;
      selection := InitialSelection(multiple, defaultValue);
      search := [];
      filtered := options;
      isOpen := false;
      notified := [];
    }

    /** The effect that re-derives the listed options from the search text. */
    method FilterEffect()
      modifies this`filtered
      ensures filtered == Filter(options, search)
    {
      if |search| > 0 {
        filtered := Keep(options, MatchesSearch(search));
      } else {
        filtered := options;
      }
    }

    /** Typing in the search box: the text changes, and the filter effect runs when it
        differs from the previous text. Selection, open state and `onChange` are untouched. */
    method SetSearch(text: string)
      requires Valid()
      modifies this`search, this`filtered
      ensures Valid()
      ensures search == text
      ensures filtered == if text != old(search) then Filter(options, text) else old(filtered)
    {
      var changed := text != search;
      search := text;
      if changed {
        FilterEffect();
      }
    }

    /** A click on the control. Closing changes only the open flag. Opening empties the
        search text and lists the options selected-first; when the search text was not
        already empty, the filter effect then runs and lists the options in their
        original order instead. */
    method ToggleDropdown()
      requires Valid()
      modifies this`isOpen, this`search, this`filtered
      ensures Valid()
      ensures isOpen == !old(isOpen)
      ensures old(isOpen) ==> search == old(search) && filtered == old(filtered)
      ensures !old(isOpen) ==>
                search == [] &&
                filtered == (if old(search) == [] then SortSelected(options, selection) else options)
    {
      var wasOpen := isOpen;
      isOpen := !wasOpen;
      if !wasOpen {
        var previous := search;
        search := [];
        filtered := SortSelected(options, selection);
        if previous != [] {
          FilterEffect();
        } else {
          assert multiset(filtered) == multiset(options) by {
            SortSelectedSpec(options, selection);
          }
        }
      }
    }

    /** A click outside the control closes it and changes nothing else. */
    method OutsideClick()
      requires Valid()
      modifies this`isOpen
      ensures Valid()
      ensures !isOpen
    {
      isOpen := false;
    }

    /** A click on an option. Single mode: the option becomes the selection and the
        dropdown closes. Multiple mode: the option's value is removed if selected, else
        the option is appended; the dropdown stays as it was. `onChange`, when given,
        receives the new selection. A click on a listed option keeps Consistent. */
    method OptionClick(option: Option)
      requires Valid()
      modifies this`selection, this`isOpen, this`notified
      ensures Valid()
      ensures selection == Click(multiple, old(selection), option)
      ensures multiple ==> selection == Many(Toggle(CurrentItems(old(selection)), option)) && isOpen == old(isOpen)
      ensures !multiple ==> selection == One(option) && !isOpen
      ensures notified == old(notified) + (if hasOnChange then [selection] else [])
      ensures old(Consistent()) && option in filtered ==> Consistent()
    {
      ghost var wasConsistent := Consistent();
      ghost var before := selection;
      var newValue: Selection;
      if multiple {
        var current := CurrentItems(selection);
        if HasValue(current, option.value) {
          newValue := Many(Keep(current, OtherValue(option.value)));
        } else {
          newValue := Many(current + [option]);
        }
      } else {
        newValue := One(option);
        isOpen := false;
      }
      selection := newValue;
      if hasOnChange {
        notified := notified + [newValue];
      }
      if wasConsistent && option in filtered && multiple {
        assert option in options by {
          FilterMembers(options, search, option);
          if search == [] {
            assert multiset(filtered)[option] > 0;
          }
        }
        ToggleKeepsDistinct(CurrentItems(before), option);
        ToggleStaysWithin(CurrentItems(before), option, options);
      }
    }

    /** A click on "Select All" / "Deselect All": an array selection as long as the
        option list becomes empty, anything else becomes a copy of all options, whatever
        the search text; `onChange`, when given, receives the new array. When the state
        is Consistent and the selection an array, the selection is emptied exactly when
        every option was selected. */
    method SelectAll()
      requires Valid()
      modifies this`selection, this`notified
      ensures Valid()
      ensures selection == Many(SelectAllResult(old(selection), options))
      ensures notified == old(notified) + (if hasOnChange then [selection] else [])
      ensures old(Consistent()) ==> Consistent()
      ensures old(Consistent()) && old(selection).Many? ==>
        (selection.items == [] <==> forall o :: o in options ==> IsSelected(old(selection), o))
    {
      ghost var wasConsistent := Consistent();
      ghost var before := selection;
      var newValue: seq<Option>;
      if selection.Many? && |selection.items| == |options| {
        newValue := [];
      } else {
        newValue := options;
      }
      selection := Many(newValue);
      if hasOnChange {
        notified := notified + [selection];
      }
      if wasConsistent {
        forall i | 0 <= i < |options| ensures HasValue(options, options[i].value) {
        }
        if before.Many? {
          FullIffAllSelected(before.items, options);
          SelectAllSpec(before, options);
        }
      }
    }
  }
}
