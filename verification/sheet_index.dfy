/**
  The cheat-sheet index page: the sheets grouped by first category, the
  groups in priority-then-alphabetical order, the category and search
  filters, the choice between the grouped and the filtered view, and the
  entries of the category dropdown.
 */
module SheetIndex {
  import opened Seqs
  import opened Text
  import opened Convert

  /** The categories listed first, in this order. */
  const Priority: seq<string> := ["Programming", "Python", "Database"]
  /** The dropdown entry that switches the category filter off. */
  const AllCategories := "All Categories"

  lemma PriorityNoDuplicates()
    ensures NoDuplicates(Priority)
  {
  }

  // ---------------------------------------------------------------------------
  // Group order
  // ---------------------------------------------------------------------------

  function IsKeyOf(keys: seq<string>): string -> bool
  {
    (k: string) => k in keys
  }

  function NotPriority(): string -> bool
  {
    (k: string) => k !in Priority
  }

  /** The priority categories that have a group, in priority order. */
  function PresentPriorities(keys: seq<string>): (r: seq<string>)
  {
    Filter(IsKeyOf(keys), Priority)
  }

  /** The remaining group keys in the default `sort()` order. */
  function OtherKeys(keys: seq<string>): (r: seq<string>)
  {
    Filter(NotPriority(), SortBy(ByCodeUnits(), keys))
  }

  /** The key order of `sortedGrouped`. */
  function GroupOrder(keys: seq<string>): (r: seq<string>)
  {
    PresentPriorities(keys) + OtherKeys(keys)
  }

  /**
    Reordering keeps the key set and introduces no duplicates; the present
    priority categories come first in their fixed order, then the rest in
    code-unit order.
   */
  lemma GroupOrderIsReordering(keys: seq<string>)
    requires NoDuplicates(keys)
    ensures forall k :: k in GroupOrder(keys) <==> k in keys
    ensures NoDuplicates(GroupOrder(keys))
    ensures GroupOrder(keys)[..|PresentPriorities(keys)|] == Filter(IsKeyOf(keys), Priority)
    ensures forall k :: k in GroupOrder(keys)[|PresentPriorities(keys)|..] <==> k in keys && k !in Priority
    ensures Sorted(ByCodeUnits(), GroupOrder(keys)[|PresentPriorities(keys)|..])
  {
    var pre, rest := PresentPriorities(keys), OtherKeys(keys);
    var sorted := SortBy(ByCodeUnits(), keys);
    MultisetMembers(sorted, keys);
    GroupOrderNoDuplicates(keys);
    CodeUnitOrderTotal();
    SortBySorted(ByCodeUnits(), keys);
    FilterSorted(ByCodeUnits(), NotPriority(), sorted);
    AppendHalves(pre, rest);
  }

  lemma GroupOrderNoDuplicates(keys: seq<string>)
    requires NoDuplicates(keys)
    ensures NoDuplicates(GroupOrder(keys))
  {
    var pre, rest := PresentPriorities(keys), OtherKeys(keys);
    var sorted := SortBy(ByCodeUnits(), keys);
    PriorityNoDuplicates();
    NoDuplicatesSub(Priority, pre);
    NoDuplicatesSub(keys, sorted);
    NoDuplicatesSub(sorted, rest);
    NoDuplicatesAppend(pre, rest);
  }

  // ---------------------------------------------------------------------------
  // The grouped view
  // ---------------------------------------------------------------------------

  /** A sheet as the grouped view shows it: with the `category` of its group added. */
  datatype Card = Card(sheet: Sheet, category: string)

  /** `sheets.map(sheet => ({ ...sheet, category }))` */
  function Tagged(group: seq<Sheet>, key: string): (r: seq<Card>)
    ensures |r| == |group|
  {
    if group == [] then [] else [Card(group[0], key)] + Tagged(group[1..], key)
  }

  lemma {:induction false} TaggedCount(group: seq<Sheet>, key: string, s: Sheet, c: string)
    ensures multiset(Tagged(group, key))[Card(s, c)] == if c == key then multiset(group)[s] else 0
  {
    if group != [] {
      TaggedCount(group[1..], key, s, c);
      MultisetCons(group);
      MultisetCons(Tagged(group, key));
    }
  }

  /** The `flatMap` over the groups taken in the order of ks. */
  function GroupedCards(sheets: seq<Sheet>, ks: seq<string>): (r: seq<Card>)
  {
    if ks == [] then [] else Tagged(GroupOf(sheets, ks[0]), ks[0]) + GroupedCards(sheets, ks[1..])
  }

  lemma {:induction false} GroupedCardsCount(sheets: seq<Sheet>, ks: seq<string>, s: Sheet, c: string)
    requires NoDuplicates(ks)
    ensures multiset(GroupedCards(sheets, ks))[Card(s, c)] ==
      if c in ks && c == FirstCategory(s) then multiset(sheets)[s] else 0
  {
    if ks != [] {
      var k, rest := ks[0], ks[1..];
      assert NoDuplicates(rest) by {
        forall i, j | 0 <= i < j < |rest| ensures rest[i] != rest[j] {
          assert rest[i] == ks[i + 1] && rest[j] == ks[j + 1];
        }
      }
      assert k !in rest by {
        forall i | 0 <= i < |rest| ensures rest[i] != k {
          assert rest[i] == ks[i + 1];
        }
      }
      GroupedCardsCount(sheets, rest, s, c);
      TaggedCount(GroupOf(sheets, k), k, s, c);
      FilterCount(InCategory(k), sheets, s);
      assert c in ks <==> c == k || c in rest;
    }
  }

  /** `Object.entries(groupedCheatSheets).flatMap(...)` */
  function GroupedView(sheets: seq<Sheet>): (r: seq<Card>)
  {
    GroupedCards(sheets, GroupOrder(GroupKeys(sheets)))
  }

  /**
    The grouped view is an exact partition: every sheet is shown under its
    first category as often as it occurs in the input, and under no other.
   */
  lemma GroupedViewPartition(sheets: seq<Sheet>, s: Sheet, c: string)
    ensures multiset(GroupedView(sheets))[Card(s, c)] ==
      if c == FirstCategory(s) then multiset(sheets)[s] else 0
  {
    var keys := GroupKeys(sheets);
    GroupOrderIsReordering(keys);
    GroupedCardsCount(sheets, GroupOrder(keys), s, c);
    if s in sheets {
      var i :| 0 <= i < |sheets| && sheets[i] == s;
      assert FirstCategory(sheets[i]) in keys;
    } else {
      assert multiset(sheets)[s] == 0;
    }
  }

  // ---------------------------------------------------------------------------
  // The filtered view
  // ---------------------------------------------------------------------------

  /** `sheet.categories[0] === selected || sheet.categories.includes(selected)` */
  predicate CategoryMatch(sheet: Sheet, selected: string)
  {
    (|sheet.categories| > 0 && sheet.categories[0] == selected) || selected in sheet.categories
  }

  predicate SearchMatch(sheet: Sheet, term: string)
  {
    || ContainsIgnoringCase(sheet.title, term)
    || ContainsIgnoringCase(sheet.intro, term)
    || (exists i :: 0 <= i < |sheet.tags| && ContainsIgnoringCase(sheet.tags[i], term))
    || (exists i :: 0 <= i < |sheet.categories| && ContainsIgnoringCase(sheet.categories[i], term))
  }

  function ByCategory(selected: string): Sheet -> bool
  {
    (s: Sheet) => CategoryMatch(s, selected)
  }

  function BySearch(term: string): Sheet -> bool
  {
    (s: Sheet) => SearchMatch(s, term)
  }

  /** The category filter, skipped for "All Categories", then the search, skipped when empty. */
  function FilterSheets(sheets: seq<Sheet>, term: string, selected: string): (r: seq<Sheet>)
    ensures multiset(r) <= multiset(sheets)
    ensures forall s :: s in r <==>
      && s in sheets
      && (selected == AllCategories || selected in s.categories)
      && (term == "" || SearchMatch(s, term))
  {
    var byCategory := if selected != AllCategories then Filter(ByCategory(selected), sheets) else sheets;
    var r := if term != "" then Filter(BySearch(term), byCategory) else byCategory;
    assert forall s :: s in byCategory <==> s in sheets && (selected == AllCategories || selected in s.categories);
    assert multiset(byCategory) <= multiset(sheets);
    r
  }

  predicate Passes(s: Sheet, term: string, selected: string)
  {
    (selected == AllCategories || CategoryMatch(s, selected)) && (term == "" || SearchMatch(s, term))
  }

  function PassesAll(term: string, selected: string): Sheet -> bool
  {
    (s: Sheet) => Passes(s, term, selected)
  }

  /** The two filters in a row are one order-preserving filter by both conditions. */
  lemma FilterSheetsOnePass(sheets: seq<Sheet>, term: string, selected: string)
    ensures FilterSheets(sheets, term, selected) == Filter(PassesAll(term, selected), sheets)
  {
    var both := PassesAll(term, selected);
    if selected != AllCategories && term != "" {
      FilterFilter(ByCategory(selected), BySearch(term), both, sheets);
    } else if selected != AllCategories {
      FilterExt(ByCategory(selected), both, sheets);
    } else if term != "" {
      FilterExt(BySearch(term), both, sheets);
    } else {
      assert forall s :: both(s);
    }
  }

  // ---------------------------------------------------------------------------
  // What the page shows
  // ---------------------------------------------------------------------------

  datatype Shown = Grouped(cards: seq<Card>) | Flat(sheets: seq<Sheet>)

  /** `displayGrouped ? ... : filteredCheatSheets` */
  function Display(sheets: seq<Sheet>, term: string, selected: string): (r: Shown)
    ensures r.Grouped? <==> term == "" && selected == AllCategories
    ensures r.Grouped? ==> forall s, c ::
      multiset(r.cards)[Card(s, c)] == if c == FirstCategory(s) then multiset(sheets)[s] else 0
    ensures r.Flat? ==> forall s :: s in r.sheets <==> s in sheets && Passes(s, term, selected)
  {
    if term == "" && selected == AllCategories then
      assert forall s, c ::
        multiset(GroupedView(sheets))[Card(s, c)] == (if c == FirstCategory(s) then multiset(sheets)[s] else 0) by {
        forall s, c ensures multiset(GroupedView(sheets))[Card(s, c)] ==
          (if c == FirstCategory(s) then multiset(sheets)[s] else 0) {
          GroupedViewPartition(sheets, s, c);
        }
      }
      Grouped(GroupedView(sheets))
    else
      Flat(FilterSheets(sheets, term, selected))
  }

  // ---------------------------------------------------------------------------
  // The category dropdown
  // ---------------------------------------------------------------------------

  function IsOther(): string -> bool
  {
    (k: string) => k !in Priority && k != AllCategories
  }

  /** `allCategories`: the fixed head, then the other group keys sorted. */
  function Dropdown(sheets: seq<Sheet>): (r: seq<string>)
    ensures |r| >= 4 && r[..4] == [AllCategories] + Priority
  {
    [AllCategories] + Priority + SortBy(ByCodeUnits(), Filter(IsOther(), GroupOrder(GroupKeys(sheets))))
  }

  /** k is the first category of some sheet and neither a priority name nor "All Categories". */
  predicate OtherCategory(sheets: seq<Sheet>, k: string)
  {
    k != AllCategories && k !in Priority && exists i :: 0 <= i < |sheets| && FirstCategory(sheets[i]) == k
  }

  /** The other categories before sorting: no duplicates, exactly the other first categories. */
  lemma OtherEntries(sheets: seq<Sheet>)
    ensures var others := Filter(IsOther(), GroupOrder(GroupKeys(sheets)));
      NoDuplicates(others) && forall k :: k in others <==> OtherCategory(sheets, k)
  {
    var keys := GroupKeys(sheets);
    GroupOrderIsReordering(keys);
    NoDuplicatesSub(GroupOrder(keys), Filter(IsOther(), GroupOrder(keys)));
  }

  /**
    After the fixed head, the dropdown lists each first category that is not a
    priority name exactly once, in code-unit order.
   */
  lemma DropdownTail(sheets: seq<Sheet>)
    ensures forall k :: k in Dropdown(sheets)[4..] <==> OtherCategory(sheets, k)
    ensures NoDuplicates(Dropdown(sheets)[4..])
    ensures Sorted(ByCodeUnits(), Dropdown(sheets)[4..])
  {
    var others := Filter(IsOther(), GroupOrder(GroupKeys(sheets)));
    OtherEntries(sheets);
    var tail := SortBy(ByCodeUnits(), others);
    assert Dropdown(sheets)[4..] == tail;
    forall k ensures k in tail <==> k in others {
      assert k in tail <==> k in multiset(tail);
      assert k in others <==> k in multiset(others);
    }
    NoDuplicatesSub(others, tail);
    CodeUnitOrderTotal();
    SortBySorted(ByCodeUnits(), others);
  }
}
