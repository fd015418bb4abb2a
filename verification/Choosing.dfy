/** The selection rules of the select control: membership by value, the
    option-click toggle, select-all / deselect-all and the initial selection. */
module Choosing {
  import opened Options
  import opened Filtering

  /** `items.some(item => item.value === v)`. */
  predicate HasValue(items: seq<Option>, v: Value) {
    exists i :: 0 <= i < |items| && items[i].value == v
  }

  /** `isSelected(option)`: membership by value in an array selection, value equality
      with a single selection, and false when nothing is selected. */
  predicate IsSelected(sel: Selection, o: Option): (b: bool)
    ensures sel == Null ==> !b
    ensures sel.Many? ==> (b <==> o.value in Values(sel.items))
  {
    match sel
    case Null => false
    case One(x) => x.value == o.value
    case Many(items) => ValuesHas(items, o.value); HasValue(items, o.value)
  }

  /** No two entries share a value. */
  ghost predicate DistinctValues(items: seq<Option>) {
    forall i, j :: 0 <= i < j < |items| ==> items[i].value != items[j].value
  }

  /** The filter predicate `item => item.value !== v`. */
  function OtherValue(v: Value): Option -> bool {
    (x: Option) => x.value != v
  }

  /** The array a multiple-mode click starts from: the selection if it is an array, else `[]`. */
  function CurrentItems(sel: Selection): seq<Option> {
    if sel.Many? then sel.items else []
  }

  /** The multiple-mode click: remove every entry with the option's value when there
      is one, otherwise append the option. */
  function Toggle(items: seq<Option>, o: Option): (r: seq<Option>)
    ensures HasValue(r, o.value) <==> !HasValue(items, o.value)
    ensures |r| <= |items| + 1
  {
    if HasValue(items, o.value) then
      KeepSatisfies(items, OtherValue(o.value));
      KeepLength(items, OtherValue(o.value));
      Keep(items, OtherValue(o.value))
    else
      assert (items + [o])[|items|] == o;
      items + [o]
  }

  /** The new selection after a click on `o` (`newValue` in `handleOptionClick`). */
  function Click(multiple: bool, sel: Selection, o: Option): (r: Selection)
    ensures multiple <==> r.Many?
    ensures IsSelected(r, o) <==> !(multiple && HasValue(CurrentItems(sel), o.value))
  {
    if multiple then Many(Toggle(CurrentItems(sel), o)) else One(o)
  }

  /** The new selection array after a click on "Select All" / "Deselect All". */
  function SelectAllResult(sel: Selection, options: seq<Option>): (r: seq<Option>)
    ensures r == [] || r == options
    ensures r != [] ==> forall o :: o in options ==> IsSelected(Many(r), o)
  {
    if sel.Many? && |sel.items| == |options| then [] else options
  }

  /** The state the selection starts in: the default value if one is given, else an
      empty array in multiple mode and null in single mode. `Null` stands for an absent
      default, which is falsy like `null`. */
  function InitialSelection(multiple: bool, defaultValue: Selection): (r: Selection)
    ensures defaultValue != Null ==> r == defaultValue
    ensures defaultValue == Null && multiple ==> r == Many([])
    ensures defaultValue == Null && !multiple ==> r == Null
    ensures forall o :: defaultValue == Null ==> !IsSelected(r, o)
  {
    if defaultValue != Null then defaultValue else if multiple then Many([]) else Null
  }

  /** A click on an option that is already selected removes every entry with its value
      and nothing else, in order; a click on an unselected option appends it and leaves
      the earlier entries as they were. */
  lemma ToggleSpec(items: seq<Option>, o: Option)
    ensures HasValue(items, o.value) ==>
      IsSubsequence(Toggle(items, o), items) &&
      !HasValue(Toggle(items, o), o.value) &&
      forall x :: multiset(Toggle(items, o))[x] == if x.value == o.value then 0 else multiset(items)[x]
    ensures !HasValue(items, o.value) ==>
      |Toggle(items, o)| == |items| + 1 &&
      Toggle(items, o)[..|items|] == items && Toggle(items, o)[|items|] == o
  {
    var r := Toggle(items, o);
    if HasValue(items, o.value) {
      KeepSpec(items, OtherValue(o.value));
      KeepMembers(items, OtherValue(o.value));
      forall i | 0 <= i < |r| ensures r[i].value != o.value {
        assert r[i] in r;
      }
    } else {
      assert r == items + [o];
    }
  }

  /** After a click on `o` in multiple mode, `o`'s value is selected exactly when it
      was not before, and every other value keeps its state. */
  lemma ToggleMembership(items: seq<Option>, o: Option, p: Option)
    ensures IsSelected(Many(Toggle(items, o)), p) <==>
      if p.value == o.value then !HasValue(items, o.value) else HasValue(items, p.value)
  {
    var r := Toggle(items, o);
    if HasValue(items, o.value) {
      KeepMembers(items, OtherValue(o.value));
      if p.value != o.value && HasValue(items, p.value) {
        var i :| 0 <= i < |items| && items[i].value == p.value;
        assert items[i] in r;
        var j :| 0 <= j < |r| && r[j] == items[i];
      }
      if HasValue(r, p.value) {
        var j :| 0 <= j < |r| && r[j].value == p.value;
        assert r[j] in r;
        var i :| 0 <= i < |items| && items[i] == r[j];
      }
    } else {
      assert r == items + [o] && r[|items|] == o;
      if HasValue(r, p.value) && p.value != o.value {
        var j :| 0 <= j < |r| && r[j].value == p.value;
        assert j < |items| && items[j] == r[j];
      }
      if HasValue(items, p.value) {
        var i :| 0 <= i < |items| && items[i].value == p.value;
        assert r[i] == items[i];
      }
    }
  }

  /** Keeping some of the entries of an array without repeated values leaves none repeated. */
  lemma {:induction false} KeepDistinct(items: seq<Option>, p: Option -> bool)
    requires DistinctValues(items)
    ensures DistinctValues(Keep(items, p))
  {
    if items != [] {
      var rest := Keep(items[1..], p);
      KeepDistinct(items[1..], p);
      KeepMembers(items[1..], p);
      if p(items[0]) {
        var r := Keep(items, p);
        assert r == [items[0]] + rest;
        forall i, j | 0 <= i < j < |r| ensures r[i].value != r[j].value {
          if i == 0 {
            assert r[j] == rest[j - 1] && r[j] in items[1..];
            var k :| 0 <= k < |items[1..]| && items[1..][k] == r[j];
            assert items[k + 1] == r[j];
          } else {
            assert r[i] == rest[i - 1] && r[j] == rest[j - 1];
          }
        }
      }
    }
  }

  /** A multiple-mode click keeps "no two selected entries share a value". */
  lemma ToggleKeepsDistinct(items: seq<Option>, o: Option)
    requires DistinctValues(items)
    ensures DistinctValues(Toggle(items, o))
  {
    if HasValue(items, o.value) {
      KeepDistinct(items, OtherValue(o.value));
    } else {
      var r := items + [o];
      forall i, j | 0 <= i < j < |r| ensures r[i].value != r[j].value {
        if j == |items| {
          assert r[i] == items[i];
        } else {
          assert r[i] == items[i] && r[j] == items[j];
        }
      }
    }
  }

  /** Every entry's value is the value of one of the options. */
  ghost predicate DrawnFrom(items: seq<Option>, options: seq<Option>) {
    forall i :: 0 <= i < |items| ==> HasValue(options, items[i].value)
  }

  /** A click on one of the options keeps the selection drawn from the options. */
  lemma ToggleStaysWithin(items: seq<Option>, o: Option, options: seq<Option>)
    requires DrawnFrom(items, options) && o in options
    ensures DrawnFrom(Toggle(items, o), options)
  {
    var r := Toggle(items, o);
    var k :| 0 <= k < |options| && options[k] == o;
    if HasValue(items, o.value) {
      KeepMembers(items, OtherValue(o.value));
      forall i | 0 <= i < |r| ensures HasValue(options, r[i].value) {
        assert r[i] in r;
        var j :| 0 <= j < |items| && items[j] == r[i];
      }
    } else {
      forall i | 0 <= i < |r| ensures HasValue(options, r[i].value) {
        if i < |items| {
          assert r[i] == items[i];
        } else {
          assert r[i] == options[k];
        }
      }
    }
  }

  /** Clicking the same unselected option twice gives back the original selection. */
  lemma ToggleTwice(items: seq<Option>, o: Option)
    requires !HasValue(items, o.value)
    ensures Toggle(Toggle(items, o), o) == items
  {
    var once := items + [o];
    assert once[|items|].value == o.value;
    assert Toggle(items, o) == once;
    KeepAppend(items, [o], OtherValue(o.value));
    KeepAll(items, OtherValue(o.value));
    KeepNone([o], OtherValue(o.value));
  }

  /** Select-all empties an array selection as long as the full option list, and
      otherwise selects a copy of the full, unfiltered option list. */
  lemma SelectAllSpec(sel: Selection, options: seq<Option>)
    ensures SelectAllResult(sel, options) == [] <==>
      (sel.Many? && |sel.items| == |options|) || options == []
    ensures !(sel.Many? && |sel.items| == |options|) ==>
      SelectAllResult(sel, options) == options &&
      forall o :: o in options ==> IsSelected(Many(SelectAllResult(sel, options)), o)
  {
    if !(sel.Many? && |sel.items| == |options|) {
      forall o | o in options ensures IsSelected(Many(options), o) {
        var i :| 0 <= i < |options| && options[i] == o;
      }
    }
  }

  /** A second click on "Select All" right after a first one that selected everything
      deselects everything. */
  lemma SelectAllTwice(sel: Selection, options: seq<Option>)
    requires !(sel.Many? && |sel.items| == |options|)
    ensures SelectAllResult(Many(SelectAllResult(sel, options)), options) == []
  {
  }

  /** The values occurring in an array of options. */
  function Values(items: seq<Option>): set<Value> {
    if items == [] then {} else {items[0].value} + Values(items[1..])
  }

  lemma {:induction false} ValuesHas(items: seq<Option>, v: Value)
    ensures v in Values(items) <==> HasValue(items, v)
  {
    if items != [] {
      ValuesHas(items[1..], v);
      if HasValue(items[1..], v) {
        var i :| 0 <= i < |items[1..]| && items[1..][i].value == v;
        assert items[i + 1].value == v;
      }
      if HasValue(items, v) && items[0].value != v {
        var i :| 0 <= i < |items| && items[i].value == v;
        assert items[1..][i - 1].value == v;
      }
    }
  }

  lemma {:induction false} DistinctValuesCount(items: seq<Option>)
    requires DistinctValues(items)
    ensures |Values(items)| == |items|
  {
    if items != [] {
      DistinctValuesCount(items[1..]);
      ValuesHas(items[1..], items[0].value);
    }
  }

  /** The length comparison of select-all is exact: for a selection drawn from the
      options, with no value repeated in either, having as many entries as there are
      options is the same as every option being selected. */
  lemma FullIffAllSelected(items: seq<Option>, options: seq<Option>)
    requires DistinctValues(items) && DistinctValues(options)
    requires DrawnFrom(items, options)
    ensures |items| == |options| <==>
      forall o :: o in options ==> IsSelected(Many(items), o)
  {
    DistinctValuesCount(items);
    DistinctValuesCount(options);
    var vi, vo := Values(items), Values(options);
    assert vi <= vo by {
      forall v | v in vi ensures v in vo {
        ValuesHas(items, v);
        var i :| 0 <= i < |items| && items[i].value == v;
        ValuesHas(options, v);
      }
    }
    if |items| == |options| {
      assert |vo - vi| == 0 by {
        assert |vo| == |vi| + |vo - vi|;
      }
      assert vo == vi;
      forall o | o in options ensures IsSelected(Many(items), o) {
        var k :| 0 <= k < |options| && options[k] == o;
        assert HasValue(options, o.value);
        ValuesHas(options, o.value);
        ValuesHas(items, o.value);
      }
    }
    if forall o :: o in options ==> IsSelected(Many(items), o) {
      forall v | v in vo ensures v in vi {
        ValuesHas(options, v);
        var k :| 0 <= k < |options| && options[k].value == v;
        assert IsSelected(Many(items), options[k]);
        ValuesHas(items, v);
      }
      assert vo == vi;
    }
  }
}
