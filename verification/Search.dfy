/** The search filter: the filter effect keeps the options whose lower-cased label
    contains the lower-cased search text, and keeps all options for an empty search. */
module Search {
  import opened Options
  import opened Text
  import opened Filtering

  /** `option.label.toLowerCase().includes(searchValue.toLowerCase())`. */
  predicate Matches(search: string, o: Option): (b: bool)
    ensures search == [] ==> b
    ensures b ==> |search| <= |o.caption|
  {
    ContainsIff(Lower(o.caption), Lower(search));
    Contains(Lower(o.caption), Lower(search))
  }

  function MatchesSearch(search: string): Option -> bool {
    (o: Option) => Matches(search, o)
  }

  /** The list the filter effect stores as `filteredOptions`. */
  function Filter(options: seq<Option>, search: string): (r: seq<Option>)
    ensures |r| <= |options|
    ensures forall i :: 0 <= i < |r| ==> r[i] in options && Matches(search, r[i])
  {
    if |search| > 0 then
      KeepSatisfies(options, MatchesSearch(search));
      KeepMembers(options, MatchesSearch(search));
      KeepLength(options, MatchesSearch(search));
      Keep(options, MatchesSearch(search))
    else
      options
  }

  /** With a non-empty search text the filtered list is exactly the matching options,
      every occurrence of each, in their original order; with an empty search text it
      is the whole option list. */
  lemma FilterSpec(options: seq<Option>, search: string)
    ensures IsSubsequence(Filter(options, search), options)
    ensures forall o :: multiset(Filter(options, search))[o] ==
                        (if search == [] || Matches(search, o) then multiset(options)[o] else 0)
    ensures search == [] ==> Filter(options, search) == options
  {
    if |search| > 0 {
      KeepSpec(options, MatchesSearch(search));
    } else {
      SubsequenceRefl(options);
    }
  }

  /** An option is listed exactly when it is in the options and matches the search. */
  lemma FilterMembers(options: seq<Option>, search: string, o: Option)
    ensures o in Filter(options, search) <==> o in options && (search == [] || Matches(search, o))
  {
    if |search| > 0 {
      KeepMembers(options, MatchesSearch(search));
    }
  }

  /** Lower-casing twice is lower-casing once. */
  lemma LowerIdempotent(s: string)
    ensures Lower(Lower(s)) == Lower(s)
  {
  }

  /** The case of the search text does not matter: searching for its lower-cased form
      lists the same options. */
  lemma {:induction false} FilterCaseInsensitive(options: seq<Option>, search: string)
    ensures Filter(options, Lower(search)) == Filter(options, search)
  {
    LowerIdempotent(search);
    if options != [] && |search| > 0 {
      FilterCaseInsensitive(options[1..], search);
      assert Matches(Lower(search), options[0]) == Matches(search, options[0]);
    }
  }
}
