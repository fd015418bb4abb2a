/** `getDisplayValue`: the text shown in the closed control. */
module Display {
  import opened Options
  import opened Text

  /** `DEFAULT_MAX_SELECTED_VIEW`. */
  const DefaultMaxSelectedView: int := 2

  /** The placeholder used when the `placeholder` property is absent. */
  const DefaultPlaceholder: string := "Select item"

  const Separator: string := ", "

  /** The end index `slice(0, n)` stops at: a negative `n` counts from the end, and
      the index never leaves `0..len`. */
  function SliceEnd(len: nat, n: int): (e: nat)
    ensures e <= len
  {
    if n < 0 then (if len + n < 0 then 0 else len + n) else if n < len then n else len
  }

  /** `items.map(item => item.label)`. */
  function Captions(items: seq<Option>): (r: seq<string>)
    ensures |r| == |items|
    ensures forall i :: 0 <= i < |items| ==> r[i] == items[i].caption
  {
    if items == [] then [] else [items[0].caption] + Captions(items[1..])
  }

  /** The truncation notice for `count` hidden entries. */
  function MoreSuffix(count: nat): string {
    "... +" + NatToString(count) + " more"
  }

  /** The display text for selection `sel` with the given `placeholder` and
      `maxSelectedItemsView` properties. */
  function DisplayValue(sel: Selection, placeholder: Maybe<string>, maxView: Maybe<int>): (r: string)
    ensures sel.Many? && sel.items != [] && OrElse(maxView, DefaultMaxSelectedView) > 0 ==>
              Contains(r, sel.items[0].caption)
  {
    match sel
    case Null => OrElse(placeholder, DefaultPlaceholder)
    case One(o) => o.caption
    case Many(items) =>
      if |items| == 0 then OrElse(placeholder, DefaultPlaceholder)
      else
        var n := OrElse(maxView, DefaultMaxSelectedView);
        var visible := Join(Captions(items[..SliceEnd(|items|, n)]), Separator);
        var remaining := |items| - n;
        FirstLabelShown(items, n, visible, if remaining > 0 then MoreSuffix(remaining) else "");
        if remaining > 0 then visible + MoreSuffix(remaining) else visible
  }

  /** With a positive limit, the first selected label is among the shown ones, whatever
      follows them. */
  lemma FirstLabelShown(items: seq<Option>, n: int, visible: string, suffix: string)
    requires items != [] && visible == Join(Captions(items[..SliceEnd(|items|, n)]), Separator)
    ensures n > 0 ==> Contains(visible + suffix, items[0].caption) && Contains(visible, items[0].caption)
  {
    if n > 0 {
      var shown := Captions(items[..SliceEnd(|items|, n)]);
      assert shown[0] == items[0].caption;
      JoinContainsEach(shown, Separator, 0);
      ContainsPrefix(visible, suffix, items[0].caption);
    }
  }

  /** Nothing selected (null or an empty array) shows the placeholder, which defaults
      to "Select item"; a single selection shows its label. */
  lemma DisplayPlaceholderOrLabel(sel: Selection, placeholder: Maybe<string>, maxView: Maybe<int>)
    ensures sel == Null || sel == Many([]) ==>
      DisplayValue(sel, placeholder, maxView) == (if placeholder.Given? then placeholder.value else "Select item")
    ensures sel.One? ==> DisplayValue(sel, placeholder, maxView) == sel.option.caption
  {
  }

  /** In multiple mode with a non-negative limit n: when at most n entries are
      selected, the display is all their labels joined by ", " with no suffix; when
      more are, it shows the first n labels followed by the count of the others; and
      each of the first n labels is visible in it. */
  lemma {:induction false} DisplayMultiple(items: seq<Option>, placeholder: Maybe<string>, maxView: Maybe<int>)
    requires items != []
    requires OrElse(maxView, DefaultMaxSelectedView) >= 0
    ensures var n := OrElse(maxView, DefaultMaxSelectedView);
      var r := DisplayValue(Many(items), placeholder, maxView);
      (|items| <= n ==> r == Join(Captions(items), Separator)) &&
      (|items| > n ==> r == Join(Captions(items[..n]), Separator) + MoreSuffix(|items| - n)) &&
      (forall k :: 0 <= k < |items| && k < n ==> Contains(r, items[k].caption))
  {
    var n := OrElse(maxView, DefaultMaxSelectedView);
    var r := DisplayValue(Many(items), placeholder, maxView);
    var shown := items[..SliceEnd(|items|, n)];
    assert |items| <= n ==> shown == items;
    var visible := Join(Captions(shown), Separator);
    forall k | 0 <= k < |items| && k < n ensures Contains(r, items[k].caption) {
      assert Captions(shown)[k] == items[k].caption;
      JoinContainsEach(Captions(shown), Separator, k);
      if |items| > n {
        ContainsPrefix(visible, MoreSuffix(|items| - n), items[k].caption);
      }
    }
  }

  /** In multiple mode with a negative limit n, `slice(0, n)` drops the last -n
      entries: the display shows the labels of the first |items| + n entries (none
      when that is not positive), always followed by the suffix, whose count
      |items| - n exceeds the number of entries; each shown label is visible. */
  lemma DisplayNegativeLimit(items: seq<Option>, placeholder: Maybe<string>, maxView: Maybe<int>)
    requires items != []
    requires OrElse(maxView, DefaultMaxSelectedView) < 0
    ensures var n := OrElse(maxView, DefaultMaxSelectedView);
      var kept := if |items| + n < 0 then 0 else |items| + n;
      var r := DisplayValue(Many(items), placeholder, maxView);
      r == Join(Captions(items[..kept]), Separator) + MoreSuffix(|items| - n) &&
      |items| - n > |items| &&
      (forall k :: 0 <= k < kept ==> Contains(r, items[k].caption))
  {
    var n := OrElse(maxView, DefaultMaxSelectedView);
    var kept := if |items| + n < 0 then 0 else |items| + n;
    var shown := items[..kept];
    var visible := Join(Captions(shown), Separator);
    forall k | 0 <= k < kept ensures Contains(visible + MoreSuffix(|items| - n), items[k].caption) {
      assert Captions(shown)[k] == items[k].caption;
      JoinContainsEach(Captions(shown), Separator, k);
      ContainsPrefix(visible, MoreSuffix(|items| - n), items[k].caption);
    }
  }

  /** The number in the truncation notice reads back as the count of hidden entries. */
  lemma MoreSuffixReadsBack(count: nat)
    ensures var s := MoreSuffix(count);
      |s| == |NatToString(count)| + 10 &&
      s[..5] == "... +" && s[|s| - 5..] == " more" &&
      (forall i :: 5 <= i < |s| - 5 ==> IsDigit(s[i])) &&
      DecimalValue(s[5..|s| - 5]) == count
  {
    var s := MoreSuffix(count);
    assert s[5..|s| - 5] == NatToString(count);
    NatToStringRoundTrip(count);
  }

  /** Three display texts: the default placeholder when nothing is selected, the two
      labels "Option 1" and "Option 2" joined, and five selected entries labelled A to
      E cut off after two. */
  lemma DisplayExamples()
    ensures DisplayValue(Null, Absent, Absent) == "Select item"
    ensures DisplayValue(Many([Option("Option 1", Num(1)), Option("Option 2", Num(2))]), Absent, Absent)
         == "Option 1, Option 2"
    ensures DisplayValue(Many([Option("A", Num(1)), Option("B", Num(2)), Option("C", Num(3)),
                               Option("D", Num(4)), Option("E", Num(5))]), Absent, Given(2))
         == "A, B... +3 more"
  {
    var two := [Option("Option 1", Num(1)), Option("Option 2", Num(2))];
    assert Captions(two) == ["Option 1", "Option 2"] && two[..SliceEnd(2, 2)] == two;
    assert Join(["Option 1", "Option 2"], Separator) == "Option 1" + ", " + "Option 2";
    var five := [Option("A", Num(1)), Option("B", Num(2)), Option("C", Num(3)),
                 Option("D", Num(4)), Option("E", Num(5))];
    assert five[..SliceEnd(5, 2)] == [Option("A", Num(1)), Option("B", Num(2))];
    assert Captions(five[..2]) == ["A", "B"];
    assert Join(["A", "B"], Separator) == "A, B";
    assert NatToString(3) == "3";
    assert MoreSuffix(3) == "... +3 more";
  }

  /** A negative limit counts from the end: three entries with limit -1 show the first
      two labels and report four more. */
  lemma NegativeLimitExample()
    ensures DisplayValue(Many([Option("A", Num(1)), Option("B", Num(2)), Option("C", Num(3))]),
                         Absent, Given(-1))
         == "A, B... +4 more"
  {
    var three := [Option("A", Num(1)), Option("B", Num(2)), Option("C", Num(3))];
    assert three[..SliceEnd(3, -1)] == [Option("A", Num(1)), Option("B", Num(2))];
    assert Captions(three[..2]) == ["A", "B"];
    assert Join(["A", "B"], Separator) == "A, B";
    assert NatToString(4) == "4";
    assert MoreSuffix(4) == "... +4 more";
  }
}
