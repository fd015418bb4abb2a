/** `sortSelected`: the option list reordered on opening so that selected options come
    first. The source sorts a copy with `Array.prototype.sort`, which is stable, using a
    comparator that puts selected before unselected and calls every other pair equal.
    The model sorts with a stable insertion sort by that comparator; since a stable sort
    by a given comparator has only one possible result (StableReorderUnique), this is the
    list any conforming `sort` returns. The sorting lemmas are stated for any
    classification `chosen` of the options; SortSelected instantiates it with
    `isSelected`. */
module SelectedFirst {
  import opened Options
  import opened Choosing
  import opened Filtering

  /** The comparator: -1 when only `a` is chosen, 1 when only `b` is, 0 otherwise. */
  function Compare(chosen: Option -> bool, a: Option, b: Option): int {
    if chosen(a) && !chosen(b) then -1
    else if !chosen(a) && chosen(b) then 1
    else 0
  }

  /** Places `x` in front of the first element it does not sort after. */
  function Insert(chosen: Option -> bool, x: Option, s: seq<Option>): seq<Option> {
    if s == [] || Compare(chosen, x, s[0]) <= 0 then [x] + s
    else [s[0]] + Insert(chosen, x, s[1..])
  }

  /** Stable insertion sort by Compare. */
  function SortBy(s: seq<Option>, chosen: Option -> bool): seq<Option> {
    if s == [] then [] else Insert(chosen, s[0], SortBy(s[1..], chosen))
  }

  function Selected(sel: Selection): Option -> bool {
    (o: Option) => IsSelected(sel, o)
  }

  function Unchosen(chosen: Option -> bool): Option -> bool {
    (o: Option) => !chosen(o)
  }

  /** `sortSelected(options)` for the current selection `sel`. */
  function SortSelected(options: seq<Option>, sel: Selection): (r: seq<Option>)
    ensures multiset(r) == multiset(options)
  {
    SortByIsPartition(options, Selected(sel));
    KeepSplit(options, Selected(sel), Unchosen(Selected(sel)));
    SortBy(options, Selected(sel))
  }

  /** Every chosen option comes before every other one. */
  ghost predicate ChosenFirst(chosen: Option -> bool, s: seq<Option>) {
    forall i, j :: 0 <= i < j < |s| && chosen(s[j]) ==> chosen(s[i])
  }

  /** An unchosen option inserted into chosen-then-unchosen options lands between the
      two groups. */
  lemma {:induction false} InsertUnchosen(chosen: Option -> bool, x: Option, a: seq<Option>, b: seq<Option>)
    requires !chosen(x)
    requires forall i :: 0 <= i < |a| ==> chosen(a[i])
    requires b == [] || !chosen(b[0])
    ensures Insert(chosen, x, a + b) == a + [x] + b
  {
    if a == [] {
      assert a + b == b;
    } else {
      assert (a + b)[0] == a[0] && (a + b)[1..] == a[1..] + b;
      InsertUnchosen(chosen, x, a[1..], b);
      assert [a[0]] + (a[1..] + [x] + b) == a + [x] + b;
    }
  }

  /** Inserting an unchosen option in front of a partitioned rest partitions the whole. */
  lemma {:induction false} PartitionStepUnchosen(chosen: Option -> bool, x: Option, rest: seq<Option>)
    requires !chosen(x)
    ensures Insert(chosen, x, Keep(rest, chosen) + Keep(rest, Unchosen(chosen)))
         == Keep([x] + rest, chosen) + Keep([x] + rest, Unchosen(chosen))
  {
    var a, b := Keep(rest, chosen), Keep(rest, Unchosen(chosen));
    assert ([x] + rest)[1..] == rest;
    assert Keep([x] + rest, chosen) == a;
    assert Keep([x] + rest, Unchosen(chosen)) == [x] + b;
    KeepSatisfies(rest, chosen);
    assert b == [] || !chosen(b[0]) by {
      KeepSatisfies(rest, Unchosen(chosen));
      if b != [] {
        assert Unchosen(chosen)(b[0]);
      }
    }
    InsertUnchosen(chosen, x, a, b);
    assert a + [x] + b == a + ([x] + b);
  }

  /** Inserting a chosen option in front of a partitioned rest partitions the whole. */
  lemma {:induction false} PartitionStepChosen(chosen: Option -> bool, x: Option, rest: seq<Option>)
    requires chosen(x)
    ensures Insert(chosen, x, Keep(rest, chosen) + Keep(rest, Unchosen(chosen)))
         == Keep([x] + rest, chosen) + Keep([x] + rest, Unchosen(chosen))
  {
    var a, b := Keep(rest, chosen), Keep(rest, Unchosen(chosen));
    assert ([x] + rest)[1..] == rest;
    assert Keep([x] + rest, chosen) == [x] + a;
    assert Keep([x] + rest, Unchosen(chosen)) == b;
  }

  /** The sort is the stable partition: the chosen options in their original order,
      then the others in their original order. */
  lemma {:induction false} SortByIsPartition(s: seq<Option>, chosen: Option -> bool)
    ensures SortBy(s, chosen) == Keep(s, chosen) + Keep(s, Unchosen(chosen))
  {
    if s != [] {
      SortByIsPartition(s[1..], chosen);
      assert s == [s[0]] + s[1..];
      if chosen(s[0]) {
        PartitionStepChosen(chosen, s[0], s[1..]);
      } else {
        PartitionStepUnchosen(chosen, s[0], s[1..]);
      }
    }
  }

  /** A list in chosen-first order is its chosen part followed by the rest. */
  lemma {:induction false} ChosenFirstSplits(chosen: Option -> bool, t: seq<Option>)
    requires ChosenFirst(chosen, t)
    ensures t == Keep(t, chosen) + Keep(t, Unchosen(chosen))
  {
    if t != [] {
      if chosen(t[0]) {
        assert ChosenFirst(chosen, t[1..]) by {
          forall i, j | 0 <= i < j < |t[1..]| && chosen(t[1..][j])
            ensures chosen(t[1..][i])
          {
            assert t[1..][j] == t[j + 1] && t[1..][i] == t[i + 1];
          }
        }
        ChosenFirstSplits(chosen, t[1..]);
      } else {
        KeepNone(t, chosen);
        KeepAll(t, Unchosen(chosen));
      }
    }
  }

  /** What the reorder promises: the same options, selected ones first, and the
      original relative order kept within each group. */
  lemma SortSelectedSpec(options: seq<Option>, sel: Selection)
    ensures multiset(SortSelected(options, sel)) == multiset(options)
    ensures ChosenFirst(Selected(sel), SortSelected(options, sel))
    ensures Keep(SortSelected(options, sel), Selected(sel)) == Keep(options, Selected(sel))
    ensures Keep(SortSelected(options, sel), Unselected(sel)) == Keep(options, Unselected(sel))
  {
    var chosen := Selected(sel);
    var a, b := Keep(options, chosen), Keep(options, Unchosen(chosen));
    SortByIsPartition(options, chosen);
    KeepSplit(options, chosen, Unchosen(chosen));
    KeepSatisfies(options, chosen);
    KeepSatisfies(options, Unchosen(chosen));
    var r := a + b;
    forall i, j | 0 <= i < j < |r| && chosen(r[j]) ensures chosen(r[i]) {
      if j < |a| {
        assert r[i] == a[i];
      }
    }
    KeepAppend(a, b, chosen);
    KeepAppend(a, b, Unchosen(chosen));
    KeepAll(a, chosen);
    KeepNone(b, chosen);
    KeepNone(a, Unchosen(chosen));
    KeepAll(b, Unchosen(chosen));
  }

  /** The same classification written as the source's `!isSelected`. */
  function Unselected(sel: Selection): Option -> bool {
    Unchosen(Selected(sel))
  }

  /** Any reorder of the options that puts selected ones first and keeps the relative
      order within each group is the one computed here. */
  lemma StableReorderUnique(options: seq<Option>, sel: Selection, t: seq<Option>)
    requires ChosenFirst(Selected(sel), t)
    requires Keep(t, Selected(sel)) == Keep(options, Selected(sel))
    requires Keep(t, Unselected(sel)) == Keep(options, Unselected(sel))
    ensures t == SortSelected(options, sel)
  {
    ChosenFirstSplits(Selected(sel), t);
    SortByIsPartition(options, Selected(sel));
  }
}
