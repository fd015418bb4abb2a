/** Client runs of the control, on the three options its tests use or on any options,
    proved from the handlers' contracts alone. */
module Scenarios {
  import opened Options
  import opened Text
  import opened Filtering
  import opened Choosing
  import opened Search
  import opened SelectedFirst
  import opened Display
  import opened Control

  function Option1(): Option { Option("Option 1", Num(1)) }
  function Option2(): Option { Option("Option 2", Num(2)) }
  function Option3(): Option { Option("Option 3", Num(3)) }
  function TestOptions(): seq<Option> { [Option1(), Option2(), Option3()] }

  /** Single mode: the placeholder shows first; after opening and clicking "Option 2"
      the control shows "Option 2", is closed, and `onChange` was called once, with
      that option. */
  method SingleSelectRun() returns (before: string, after: string, open: bool, calls: seq<Selection>)
    ensures before == "Select item"
    ensures after == "Option 2" && !open
    ensures calls == [One(Option2())]
  {
    var s := new Select(TestOptions(), false, Absent, Absent, Null, true);
    before := DisplayValue(s.selection, s.placeholder, s.maxSelectedItemsView);
    s.ToggleDropdown();
    s.OptionClick(Option2());
    after := DisplayValue(s.selection, s.placeholder, s.maxSelectedItemsView);
    open := s.isOpen;
    calls := s.notified;
    DisplayExamples();
  }

  /** Multiple mode: after opening and clicking two options with different values,
      the control shows their two labels joined by ", ", stays open, and `onChange`
      was called twice, each time with the whole array. */
  method MultipleSelectRun(options: seq<Option>, a: Option, b: Option)
    returns (shown: string, open: bool, calls: seq<Selection>)
    requires a.value != b.value
    ensures shown == a.caption + ", " + b.caption && open
    ensures calls == [Many([a]), Many([a, b])]
  {
    var s := new Select(options, true, Absent, Absent, Null, true);
    s.ToggleDropdown();
    s.OptionClick(a);
    assert s.selection == Many([a]);
    s.OptionClick(b);
    assert !HasValue([a], b.value);
    assert s.selection == Many([a, b]);
    shown := DisplayValue(s.selection, s.placeholder, s.maxSelectedItemsView);
    assert Captions([a, b]) == [a.caption, b.caption];
    assert [a, b][..SliceEnd(2, 2)] == [a, b];
    assert [a.caption, b.caption][1..] == [b.caption];
    assert Join([a.caption, b.caption], Separator) == a.caption + ", " + b.caption;
    open := s.isOpen;
    calls := s.notified;
  }

  /** Multiple mode: "Select All" selects every option and reports them; a second
      click deselects everything and reports the empty array. */
  method SelectAllRun(options: seq<Option>) returns (first: Selection, second: Selection, calls: seq<Selection>)
    ensures first == Many(options)
    ensures second == Many([])
    ensures calls == [Many(options), Many([])]
  {
    var s := new Select(options, true, Absent, Absent, Null, true);
    s.ToggleDropdown();
    s.SelectAll();
    first := s.selection;
    s.SelectAll();
    second := s.selection;
    calls := s.notified;
  }

  /** Searching "opt" lists all three options; "Option 2" lists only that one; "zzz"
      lists none, which renders "No Options". */
  method SearchRun() returns (all: seq<Option>, one: seq<Option>, none: seq<Option>)
    ensures all == TestOptions()
    ensures one == [Option2()]
    ensures none == []
  {
    var s := new Select(TestOptions(), false, Absent, Absent, Null, false);
    s.ToggleDropdown();
    s.SetSearch("opt");
    all := s.filtered;
    s.SetSearch("Option 2");
    one := s.filtered;
    s.SetSearch("zzz");
    none := s.filtered;
    SearchExamples();
  }

  /** The three searches of SearchRun, on the option list alone. */
  lemma SearchExamples()
    ensures Filter(TestOptions(), "opt") == TestOptions()
    ensures Filter(TestOptions(), "Option 2") == [Option2()]
    ensures Filter(TestOptions(), "zzz") == []
  {
    SearchAll();
    SearchOne();
    SearchNone();
  }

  lemma LowerCaptions()
    ensures Lower(Option1().caption) == "option 1"
    ensures Lower(Option2().caption) == "option 2"
    ensures Lower(Option3().caption) == "option 3"
  {
  }

  lemma SearchAll()
    ensures Filter(TestOptions(), "opt") == TestOptions()
  {
    LowerCaptions();
    assert Lower("opt") == "opt";
    assert "option 1"[..3] == "opt" && "option 2"[..3] == "opt" && "option 3"[..3] == "opt";
    KeepAll(TestOptions(), MatchesSearch("opt"));
  }

  lemma SearchOne()
    ensures Filter(TestOptions(), "Option 2") == [Option2()]
  {
    LowerCaptions();
    assert Lower("Option 2") == "option 2";
    assert StartsWith("option 2", "option 2");
    NotContained("option 1", "option 2");
    NotContained("option 3", "option 2");
  }

  lemma SearchNone()
    ensures Filter(TestOptions(), "zzz") == []
  {
    LowerCaptions();
    assert Lower("zzz") == "zzz";
    ZzzNowhere();
  }

  lemma ZzzNowhere()
    ensures !Contains("option 1", "zzz") && !Contains("option 2", "zzz") && !Contains("option 3", "zzz")
  {
    NotContained("option 1", "zzz");
    NotContained("option 2", "zzz");
    NotContained("option 3", "zzz");
  }

  /** Reopening after a search keeps the original order: with "Option 3" selected,
      opening with an empty search lists it first, but closing with the search text
      "2" and opening again lists the options in their original order, because the
      filter effect runs after the reorder. */
  method ReopenAfterSearchRun() returns (firstOpen: seq<Option>, reopened: seq<Option>)
    ensures firstOpen == [Option3(), Option1(), Option2()]
    ensures reopened == TestOptions()
  {
    var s := new Select(TestOptions(), true, Absent, Absent, Many([Option3()]), false);
    s.ToggleDropdown();
    firstOpen := s.filtered;
    s.SetSearch("2");
    s.ToggleDropdown();
    s.ToggleDropdown();
    reopened := s.filtered;
    ReorderExample();
  }

  /** The selected-first reorder of the test options with "Option 3" selected. */
  lemma ReorderExample()
    ensures SortSelected(TestOptions(), Many([Option3()])) == [Option3(), Option1(), Option2()]
  {
    var sel := Many([Option3()]);
    assert [Option3()][0].value == Option3().value;
    assert IsSelected(sel, Option3());
    assert !IsSelected(sel, Option1()) && !IsSelected(sel, Option2());
    SortByIsPartition(TestOptions(), Selected(sel));
    assert TestOptions() == [Option1()] + [Option2()] + [Option3()];
    KeepAppend([Option1()] + [Option2()], [Option3()], Selected(sel));
    KeepAppend([Option1()], [Option2()], Selected(sel));
    KeepAppend([Option1()] + [Option2()], [Option3()], Unchosen(Selected(sel)));
    KeepAppend([Option1()], [Option2()], Unchosen(Selected(sel)));
  }
}
