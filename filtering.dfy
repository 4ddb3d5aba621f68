/**
 * Which gallery items a category filter shows (script.js:106-117) and which
 * items the `hidden` class leaves visible (script.js:123-127). Items are
 * referred to by their position in the gallery, which is also their
 * identity: every gallery item is a distinct element of the page.
 */
module Filtering {

  /** A gallery item's data: its data-category and what the lightbox shows of it. */
  datatype Item = Item(category: string, title: string, description: string, src: string, alt: string)

  /** The filter value that shows every item. */
  const All: string := "all"

  /** The shouldShow test of filterImages. */
  predicate ShouldShow(category: string, itemCategory: string) {
    category == All || itemCategory == category
  }

  predicate Increasing(s: seq<nat>) {
    forall a, b :: 0 <= a < b < |s| ==> s[a] < s[b]
  }

  function AllPositions(n: nat): (r: seq<nat>)
    ensures |r| == n && forall j :: 0 <= j < n ==> r[j] == j
  {
    seq(n, j => j)
  }

  /** Positions of the items that filtering by category shows, in gallery order. */
  function Matching(items: seq<Item>, category: string): (r: seq<nat>)
    ensures |r| <= |items|
  {
    if items == [] then []
    else
      var n := |items| - 1;
      Matching(items[..n], category) + if ShouldShow(category, items[n].category) then [n] else []
  }

  /** Positions whose `hidden` flag is off, in gallery order: updateVisibleImages. */
  function Unhidden(hidden: seq<bool>): (r: seq<nat>)
    ensures |r| <= |hidden|
  {
    if hidden == [] then []
    else
      var n := |hidden| - 1;
      Unhidden(hidden[..n]) + if hidden[n] then [] else [n]
  }

  /** The number of items before position k that the filter shows: the stagger rank. */
  function ShownBefore(items: seq<Item>, category: string, k: nat): nat
    requires k <= |items|
  {
    |Matching(items[..k], category)|
  }

  lemma ShownBeforeStep(items: seq<Item>, category: string, k: nat)
    requires k < |items|
    ensures ShownBefore(items, category, k + 1)
         == ShownBefore(items, category, k) + if ShouldShow(category, items[k].category) then 1 else 0
  {
    MatchingStep(items, category, k);
  }

  /** One more item extends the filter's result by that item when it is shown. */
  lemma MatchingStep(items: seq<Item>, category: string, k: nat)
    requires k < |items|
    ensures Matching(items[..k + 1], category)
         == Matching(items[..k], category) + if ShouldShow(category, items[k].category) then [k] else []
  {
    assert items[..k + 1][..k] == items[..k];
  }

  /**
   * The filter's result lists gallery positions in increasing order: it keeps
   * the gallery's order and names no item twice.
   */
  lemma {:induction false} MatchingIncreasing(items: seq<Item>, category: string)
    ensures forall j :: 0 <= j < |Matching(items, category)| ==> Matching(items, category)[j] < |items|
    ensures Increasing(Matching(items, category))
  {
    if items != [] {
      MatchingIncreasing(items[..|items| - 1], category);
    }
  }

  /** Exactly the items whose category passes the filter are shown. */
  lemma {:induction false} MatchingMembers(items: seq<Item>, category: string, k: int)
    ensures k in Matching(items, category) <==> 0 <= k < |items| && ShouldShow(category, items[k].category)
  {
    if items != [] {
      var n := |items| - 1;
      MatchingMembers(items[..n], category, k);
    }
  }

  /** Filtering by "all" shows every item, in gallery order. */
  lemma {:induction false} MatchingAll(items: seq<Item>)
    ensures Matching(items, All) == AllPositions(|items|)
  {
    if items != [] {
      MatchingAll(items[..|items| - 1]);
    }
  }

  /** What the filter shows among the first m items is how its whole result begins. */
  lemma {:induction false} MatchingPrefix(items: seq<Item>, category: string, m: nat)
    requires m <= |items|
    ensures Matching(items[..m], category) <= Matching(items, category)
    decreases |items| - m
  {
    if m < |items| {
      var n := |items| - 1;
      assert items[..n][..m] == items[..m];
      MatchingPrefix(items[..n], category, m);
      assert items[..n] == items[..|items| - 1];
    } else {
      assert items[..m] == items;
    }
  }

  /**
   * The stagger rank a shown item receives, the number of shown items before
   * it, is its position in the filtered list.
   */
  lemma StaggerRankIsPosition(items: seq<Item>, category: string, k: nat)
    requires k < |items| && ShouldShow(category, items[k].category)
    ensures var rank := ShownBefore(items, category, k);
      rank < |Matching(items, category)| && Matching(items, category)[rank] == k
  {
    MatchingStep(items, category, k);
    MatchingPrefix(items, category, k + 1);
  }

  /** Flags set to "not shown" for every item make the unhidden items the filter's result. */
  lemma {:induction false} UnhiddenMatching(hidden: seq<bool>, items: seq<Item>, category: string)
    requires |hidden| == |items|
    requires forall j :: 0 <= j < |items| ==> hidden[j] == !ShouldShow(category, items[j].category)
    ensures Unhidden(hidden) == Matching(items, category)
  {
    if items != [] {
      var n := |items| - 1;
      UnhiddenMatching(hidden[..n], items[..n], category);
    }
  }

  /** With no item hidden, every item is visible, in gallery order. */
  lemma {:induction false} UnhiddenNone(hidden: seq<bool>)
    requires forall j :: 0 <= j < |hidden| ==> !hidden[j]
    ensures Unhidden(hidden) == AllPositions(|hidden|)
  {
    if hidden != [] {
      UnhiddenNone(hidden[..|hidden| - 1]);
    }
  }
}
