# Searchable select control: a Dafny model

This project models the select control of `customSelect`: a React component that
shows a list of labelled options. The control can run in single or multiple mode and
has a search box, a "Select All / Deselect All" entry and a compact display of the
current selection. The model covers the component's state and the rules it applies:

- The state is the selection (`null`, one option or an array of options), the search
  text, the filtered list of options and the open flag.
- `Control.Select` is a class with these fields. Its methods are the event handlers:
  opening and closing, typing a search text, clicking an option, "Select All", and a
  click outside the control. The properties are constant fields.
- Every call of `onChange` is recorded in the `notified` field, oldest first.
- Everything derived from the state is a function, with lemmas stating what it
  promises: the search filter, membership by value, the selected-first reorder on
  opening, and the display text.

Notes on the model:

- Option labels are called `caption`, because `label` is a reserved word in Dafny.
- Values are `Str` or `Num`. They are compared with strict equality, so a string
  never equals a number.
- Each handler is one atomic step. The filter effect runs synchronously inside the
  handler that changed the search text, and only when the text actually changed.
  React likewise skips an effect whose dependency did not change.
- Opening the dropdown with a non-empty search text lists the options in their
  original order, not selected-first. The reorder is stored first and the filter
  effect then replaces it with the full list. Opening with an empty search text keeps
  the selected-first order. `ToggleDropdown` states both cases, and
  `Scenarios.ReopenAfterSearchRun` shows them on the test options.
- `handleSelectAll` does not check the `multiple` flag. Only the rendering hides the
  entry in single mode, so `SelectAll` has no such precondition.
- The array sort is modelled as a stable insertion sort using the source's
  comparator. `StableReorderUnique` shows that any stable sort by that comparator
  gives the same list.

## Model

| member | source | states |
|---|---|---|
| Control.Select.constructor | src/components/select/Select.tsx:124-132 | initial state: the selection is the default value if given, else `[]` in multiple mode, else null; search text empty; all options listed; closed; `onChange` not called |
| Choosing.InitialSelection | src/components/select/Select.tsx:125-127 | the default value when given, an empty array in multiple mode, null in single mode, and nothing selected without a default |
| Control.Select.FilterEffect | src/components/select/Select.tsx:134-143 | the listed options become the search filter's result for the current search text |
| Control.Select.SetSearch | src/components/select/Select.tsx:256-260 | typing sets the search text; the list is re-filtered only when the text changed; selection, open flag and `onChange` untouched; Valid kept |
| Search.Matches | src/components/select/Select.tsx:137 | the case-insensitive label test; an empty search matches every option, and a match needs a search text no longer than the label; Text.ContainsIff characterises it positionally |
| Search.Filter | src/components/select/Select.tsx:134-143 | the filter effect's list; its own contract: never longer than the options, and every listed entry is one of the options and matches the search; exactness and order are stated by FilterSpec |
| Search.FilterSpec | src/components/select/Select.tsx:134-143 | non-empty search: the list is the options that match, every occurrence kept, in original order (subsequence plus exact multiset count); empty search: the whole option list |
| Search.FilterMembers | src/components/select/Select.tsx:136-138 | an option is listed exactly when it is one of the options and it matches the search (or the search is empty) |
| Search.FilterCaseInsensitive | src/components/select/Select.tsx:137 | searching for the lower-cased text lists the same options as the original text |
| Control.Select.ToggleDropdown | src/components/select/Select.tsx:145-151 | the open flag flips; closing changes nothing else; opening empties the search and lists the options selected-first, or in original order when the search had text (the effect runs); selection and `onChange` untouched |
| Control.Select.OutsideClick | src/hooks/useOutsideClick.ts:8-12 | an outside click closes the dropdown and changes nothing else |
| SelectedFirst.SortSelected | src/components/select/Select.tsx:236-245 | `sortSelected`; its own contract: a permutation of the options; order is stated by SortSelectedSpec and StableReorderUnique |
| SelectedFirst.SortSelectedSpec | src/components/select/Select.tsx:236-245 | the reorder is a permutation of the options, with every selected option before every unselected one, and the original order kept within each group |
| SelectedFirst.SortByIsPartition | src/components/select/Select.tsx:237-244 | the stable sort by the comparator equals the selected options in order followed by the unselected ones in order |
| SelectedFirst.StableReorderUnique | src/components/select/Select.tsx:237-244 | any reorder that puts selected first and keeps both groups' order is the one computed |
| SelectedFirst.ChosenFirstSplits | src/components/select/Select.tsx:241-243 | a list in selected-first order is its selected part followed by the rest |
| Control.Select.OptionClick | src/components/select/Select.tsx:153-178 | new selection as the click rule gives it; multiple mode toggles and leaves the open flag, single mode selects the option and closes; `onChange` receives the new selection; clicking a listed option keeps the selection free of repeated values and drawn from the options |
| Choosing.Click | src/components/select/Select.tsx:156-170 | the new selection of `handleOptionClick`: an array exactly in multiple mode, and the clicked option is selected afterwards unless it was already in the multiple-mode array |
| Choosing.Toggle | src/components/select/Select.tsx:157-166 | the multiple-mode update; its own contract: the clicked value is present afterwards exactly when it was absent before, and the array grows by at most one; details in ToggleSpec and ToggleMembership |
| Choosing.IsSelected | src/components/select/Select.tsx:202-206 | `isSelected`: false for no selection, and for an array selection true exactly when the option's value is among the array's values (Choosing.Values) |
| Choosing.ToggleSpec | src/components/select/Select.tsx:156-166 | a click on a selected value removes every entry with that value and nothing else, keeping order; otherwise the option is appended and the earlier entries are unchanged |
| Choosing.ToggleMembership | src/components/select/Select.tsx:156-166 | after a click, the clicked value is selected exactly when it was not before, and every other value keeps its state |
| Choosing.ToggleKeepsDistinct | src/components/select/Select.tsx:160-166 | a multiple-mode click keeps "no two selected entries share a value" |
| Choosing.KeepDistinct | src/components/select/Select.tsx:165 | removing entries by filter keeps the entries free of repeated values |
| Choosing.ToggleStaysWithin | src/components/select/Select.tsx:156-166 | clicking one of the options keeps the selection drawn from the options |
| Choosing.ToggleTwice | src/components/select/Select.tsx:160-166 | clicking the same unselected option twice gives back the original selection |
| Control.Select.SelectAll | src/components/select/Select.tsx:180-200 | an array selection as long as the full option list becomes `[]`, anything else a copy of all options, whatever the search; `onChange` receives the new array; for a consistent state with an array selection, the selection is emptied exactly when every option was selected (a single-option selection always becomes the full list) |
| Choosing.SelectAllResult | src/components/select/Select.tsx:181-192 | the new array of `handleSelectAll`: either empty or the full option list, and when not empty every option is selected; the exact condition is stated by SelectAllSpec |
| Choosing.SelectAllSpec | src/components/select/Select.tsx:183-192 | the result is empty exactly when the array selection has as many entries as there are options (or there are none); otherwise it is the full option list, with every option selected |
| Choosing.SelectAllTwice | src/components/select/Select.tsx:183-192 | a second "Select All" right after one that selected everything deselects everything |
| Choosing.FullIffAllSelected | src/components/select/Select.tsx:184-185 | for a selection without repeated values drawn from options without repeated values, the length test holds exactly when every option is selected |
| Choosing.ValuesHas | src/components/select/Select.tsx:202-206 | a value is in the set of an array's values exactly when some entry has it |
| Choosing.DistinctValuesCount | src/components/select/Select.tsx:184-185 | an array without repeated values has as many distinct values as entries |
| Display.DisplayPlaceholderOrLabel | src/components/select/Select.tsx:208-233 | null or an empty array shows the placeholder, defaulting to "Select item"; a single selection shows its label |
| Display.DisplayMultiple | src/components/select/Select.tsx:217-230 | with a limit n >= 0 (default 2): at most n entries show all labels joined by ", "; more show the first n joined, then "... +k more" with k the count of the rest; each of the first n labels appears in the text |
| Display.DisplayValue | src/components/select/Select.tsx:208-234 | `getDisplayValue`; its own contract: with a positive limit the first selected label is visible; the full text is stated by DisplayPlaceholderOrLabel, DisplayMultiple and DisplayNegativeLimit |
| Display.FirstLabelShown | src/components/select/Select.tsx:222-229 | with a positive limit the first label is among the shown ones, whether or not the suffix follows |
| Display.DisplayNegativeLimit | src/components/select/Select.tsx:219-229 | with a negative limit n, the labels of the first len + n entries (none if that is not positive) are shown, always followed by "... +k more" with k = len - n, more than the number of entries; each shown label is visible |
| Display.NegativeLimitExample | src/components/select/Select.tsx:219-229 | three entries A, B, C with limit -1 display "A, B... +4 more" |
| Display.MoreSuffixReadsBack | src/components/select/Select.tsx:226-228 | the suffix is "... +", decimal digits, " more", and the digits read back as the count of hidden entries |
| Display.DisplayExamples | src/components/select/Select.tsx:208-234 | "Select item" for nothing selected; "Option 1, Option 2" for those two options; "A, B... +3 more" for five entries labelled A to E with limit 2 |
| Filtering.KeepSpec | src/components/select/Select.tsx:136-138 | `filter` keeps order, keeps every occurrence of an element satisfying the predicate, and nothing else |
| Filtering.KeepMembers | src/components/select/Select.tsx:136-138 | an element is kept exactly when it is present and satisfies the predicate |
| Filtering.KeepLength | src/components/select/Select.tsx:136-138 | `filter` never lengthens the array |
| Filtering.KeepAppend | src/components/select/Select.tsx:165 | filtering a concatenation filters each part |
| Filtering.KeepSplit | src/components/select/Select.tsx:241-243 | filtering with a predicate and with its complement splits the elements between the two |
| Text.ContainsIff | src/components/select/Select.tsx:137 | the `includes` search holds exactly when the needle occurs at some position |
| Text.JoinContainsEach | src/components/select/Select.tsx:225 | every part of a joined string appears in it |
| Text.JoinLength | src/components/select/Select.tsx:225 | a joined string is as long as its parts plus one separator between neighbours |
| Text.NatToStringRoundTrip | src/components/select/Select.tsx:228 | the decimal rendering of the hidden count reads back as that count |
| Text.NatToString | src/components/select/Select.tsx:228 | the rendering of a count is non-empty, all digits, with no leading zero |
| Scenarios.SingleSelectRun | src/components/select/Select.test.tsx:17-37 | single mode on the test options: "Select item" first; after opening and clicking "Option 2", "Option 2" shows, the dropdown is closed and `onChange` got that option once |
| Scenarios.MultipleSelectRun | src/components/select/Select.test.tsx:39-49 | multiple mode: after opening and clicking two options with different values the two labels show joined, the dropdown stays open, and `onChange` was called twice with the whole array |
| Scenarios.SelectAllRun | src/components/select/Select.test.tsx:51-59 | multiple mode: "Select All" selects every option and `onChange` receives the options; a second click deselects all and reports `[]` |
| Scenarios.SearchRun | src/components/select/Select.tsx:134-143 | searching "opt" lists all three test options, "Option 2" lists one, "zzz" lists none (the "No Options" case) |
| Scenarios.SearchExamples | src/components/select/Select.tsx:136-138 | the three searches of SearchRun on the option list alone |
| Scenarios.ReopenAfterSearchRun | src/components/select/Select.tsx:134-151 | with "Option 3" selected, opening lists it first; closing with search text and reopening lists the options in original order |
| Scenarios.ReorderExample | src/components/select/Select.tsx:236-245 | the reorder of the test options with "Option 3" selected puts it first |

## Left out

- Styling and JSX rendering (styled components, arrow, checkboxes). The "No Options" text is only the case of an empty filtered list.
- The rendering wires "Select All" to both the row's click and the checkbox's change. A click on the checkbox itself may therefore run the handler twice. Event bubbling is not part of this model; each click runs `SelectAll` once.
- React's batched and deferred state updates and its effect scheduling. Each handler is one atomic step, and the filter effect runs synchronously when the search text changes.
- The effect re-running when the `options` property changes. The options are constant for the life of the control.
- The DOM `mousedown` listener in `src/hooks/useOutsideClick.ts`. It is modelled only by `OutsideClick`, which closes the dropdown.
- `onChange` is the `notified` log plus the `hasOnChange` flag. The callback's own effects are outside the control.
- Search.Matches: uses ASCII lower-casing (`Text.Lower`) instead of Unicode `toLowerCase`.
- Values: JavaScript numbers are modelled as integers. Non-integer, `NaN` or infinite values, and a non-integer `maxSelectedItemsView`, are not modelled.
- The `toString` of option values used for React keys. The `name` property is unused by the control.
- `src/components/userForm/UserForm.tsx` (form glue with a timed submit and console output) and `src/App.tsx` (a mount point) are not part of this model.
