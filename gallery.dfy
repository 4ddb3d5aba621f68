/**
 * The ExploreMyGallery controller of script.js with the page taken away:
 * the gallery items are a fixed sequence, the filter buttons the sequence of
 * their data-filter values, and the parts of the page the controller writes
 * (the `hidden` class and stagger rank of each item, the `active` class of
 * the buttons and of the lightbox, the body's overflow style, the item shown
 * in the lightbox and the counter text) are fields that its methods update.
 */
module GalleryWidget {
  import opened Wrappers
  import opened Filtering
  import opened Navigation
  import opened CounterText

  /** The value of document.body.style.overflow. */
  datatype Overflow = Unset | Hidden | Auto

  class ExploreMyGallery {
    /** The gallery items, in page order; an item is named by its position here. */
    const items: seq<Item>
    /** The data-filter value of each filter button, in page order. */
    const filters: seq<string>
    /** Whether each gallery item carries the `hidden` class. */
    const hidden: array<bool>
    /** The stagger rank the last filter gave each item it showed; -1 if none yet. */
    const rank: array<int>

    /** Positions of the filter buttons that carry the `active` class. */
    var activeButtons: set<nat>
    /** Positions of the items the lightbox navigates, in gallery order. */
    var visibleImages: seq<nat>
    var currentImageIndex: int
    /** Whether the lightbox carries the `active` class. */
    var active: bool
    var overflow: Overflow
    /** The item whose image, title and description the lightbox shows. */
    var displayed: Option<nat>
    var counterText: string

    /**
     * The controller's invariant: the navigable items are exactly the
     * unhidden ones, and the index never drops below indexOf's -1.
     */
    ghost predicate Valid()
      reads this, hidden
    {
      && hidden.Length == |items|
      && rank.Length == |items|
      && visibleImages == Unhidden(hidden[..])
      && currentImageIndex >= -1
    }

    /** The constructor followed by init(), with no item hidden by the page. */
    constructor (items: seq<Item>, filters: seq<string>, activeButtons: set<nat>, counterText: string)
      ensures Valid() && fresh(hidden) && fresh(rank)
      ensures this.items == items && this.filters == filters && this.activeButtons == activeButtons
      ensures visibleImages == AllPositions(|items|) && currentImageIndex == 0
      ensures forall j :: 0 <= j < |items| ==> !hidden[j] && rank[j] == -1
      ensures !active && overflow == Unset && displayed == None
      ensures this.counterText == if |items| > 0 then Counter(1, |items|) else counterText
    {
      this.items := items;
      this.filters := filters;
      this.activeButtons := activeButtons;
      this.counterText := counterText;
      hidden := new bool[|items|](_ => false);
      rank := new int[|items|](_ => -1);
      visibleImages := AllPositions(|items|);
      currentImageIndex := 0;
      active := false;
      overflow := Unset;
      displayed := None;
      new;
      UnhiddenNone(hidden[..]);
      UpdateImageCounter();
    }

    /**
     * filterImages: marks the first button whose data-filter is category as
     * the only active one, hides every item the category does not show and
     * gives each shown item its stagger rank. With no such button the page
     * query yields null and the method stops with an error (ok is false) once
     * every button has lost its `active` class.
     */
    method FilterImages(category: string) returns (ok: bool)
      requires Valid()
      modifies this`activeButtons, this`visibleImages, hidden, rank
      ensures Valid()
      ensures ok <==> category in filters
      ensures activeButtons == if ok then {IndexOf(filters, category) as nat} else {}
      ensures ok ==> visibleImages == Matching(items, category)
      ensures ok ==> forall k :: 0 <= k < |items| ==> hidden[k] == !ShouldShow(category, items[k].category)
      ensures ok ==> forall k :: 0 <= k < |items| ==>
        rank[k] == if ShouldShow(category, items[k].category) then ShownBefore(items, category, k) else old(rank[k])
      ensures ok ==> forall k :: 0 <= k < |items| && !hidden[k] ==>
        0 <= rank[k] < |visibleImages| && visibleImages[rank[k]] == k
      ensures !ok ==> hidden[..] == old(hidden[..]) && rank[..] == old(rank[..]) && visibleImages == old(visibleImages)
    {
      activeButtons := {};
      var button := IndexOf(filters, category);
      if button == -1 {
        return false;
      }
      activeButtons := {button};
      HideAndRank(category);
      UpdateVisibleImages();
      UnhiddenMatching(hidden[..], items, category);
      forall j | 0 <= j < |items| && !hidden[j]
        ensures 0 <= rank[j] < |visibleImages| && visibleImages[rank[j]] == j
      {
        StaggerRankIsPosition(items, category, j);
      }
      return true;
    }

    /**
     * The forEach of filterImages: hides each item the category does not
     * show and gives each shown item the count of shown items before it.
     */
    method HideAndRank(category: string)
      requires hidden.Length == |items| && rank.Length == |items|
      modifies hidden, rank
      ensures forall k :: 0 <= k < |items| ==> hidden[k] == !ShouldShow(category, items[k].category)
      ensures forall k :: 0 <= k < |items| ==>
        rank[k] == if ShouldShow(category, items[k].category) then ShownBefore(items, category, k) else old(rank[k])
    {
      ghost var before := rank[..];
      var visibleCount := 0;
      var k := 0;
      while k < |items|
        invariant 0 <= k <= |items|
        invariant visibleCount == ShownBefore(items, category, k)
        invariant forall j :: 0 <= j < k ==> hidden[j] == !ShouldShow(category, items[j].category)
        invariant forall j :: 0 <= j < k ==>
          rank[j] == if ShouldShow(category, items[j].category) then ShownBefore(items, category, j) else before[j]
        invariant forall j :: k <= j < |items| ==> rank[j] == before[j]
      {
        ShownBeforeStep(items, category, k);
        if ShouldShow(category, items[k].category) {
          rank[k] := visibleCount;
          hidden[k] := false;
          visibleCount := visibleCount + 1;
        } else {
          hidden[k] := true;
        }
        k := k + 1;
      }
    }

    /** updateVisibleImages: the navigable items become the unhidden ones. */
    method UpdateVisibleImages()
      requires hidden.Length == |items|
      modifies this`visibleImages
      ensures visibleImages == Unhidden(hidden[..])
    {
      visibleImages := Unhidden(hidden[..]);
    }

    /** updateImageCounter: rewritten only while some item is navigable. */
    method UpdateImageCounter()
      requires Valid()
      modifies this`counterText
      ensures counterText == if |visibleImages| > 0 then Counter(currentImageIndex + 1, |visibleImages|) else old(counterText)
    {
      if |visibleImages| > 0 {
        counterText := Counter(currentImageIndex + 1, |visibleImages|);
      }
    }

    /**
     * openLightbox: the index becomes the clicked item's position among the
     * navigable items. A hidden item leaves it at -1 and nothing else changes;
     * a visible one is shown with its counter, the lightbox opens and the page
     * stops scrolling.
     */
    method OpenLightbox(index: nat)
      requires Valid()
      modifies this`currentImageIndex, this`displayed, this`counterText, this`active, this`overflow
      ensures Valid()
      ensures currentImageIndex == IndexOf(visibleImages, index)
      ensures currentImageIndex >= 0 <==> index in visibleImages
      ensures index in visibleImages ==>
        && visibleImages[currentImageIndex] == index
        && displayed == Some(index)
        && counterText == Counter(currentImageIndex + 1, |visibleImages|)
        && active && overflow == Hidden
      ensures index !in visibleImages ==>
        && currentImageIndex == -1
        && displayed == old(displayed) && counterText == old(counterText)
        && active == old(active) && overflow == old(overflow)
    {
      currentImageIndex := IndexOf(visibleImages, index);
      if currentImageIndex == -1 {
        return;
      }
      displayed := Some(visibleImages[currentImageIndex]);
      UpdateImageCounter();
      active := true;
      overflow := Hidden;
    }

    /** closeLightbox: closed and scrollable again, whatever the state before. */
    method CloseLightbox()
      requires Valid()
      modifies this`active, this`overflow
      ensures Valid()
      ensures !active && overflow == Auto
    {
      active := false;
      overflow := Auto;
    }

    /** previousImage: one item back, wrapping from the first to the last. */
    method PreviousImage()
      requires Valid() && |visibleImages| > 0
      modifies this`currentImageIndex, this`displayed, this`counterText
      ensures Valid()
      ensures currentImageIndex == PrevIndex(old(currentImageIndex), |visibleImages|)
      ensures displayed == Some(visibleImages[currentImageIndex])
      ensures counterText == Counter(currentImageIndex + 1, |visibleImages|)
    {
      currentImageIndex := JsRem(currentImageIndex - 1 + |visibleImages|, |visibleImages|);
      UpdateLightboxImage();
    }

    /** nextImage: one item on, wrapping from the last to the first. */
    method NextImage()
      requires Valid() && |visibleImages| > 0
      modifies this`currentImageIndex, this`displayed, this`counterText
      ensures Valid()
      ensures currentImageIndex == NextIndex(old(currentImageIndex), |visibleImages|)
      ensures displayed == Some(visibleImages[currentImageIndex])
      ensures counterText == Counter(currentImageIndex + 1, |visibleImages|)
    {
      currentImageIndex := JsRem(currentImageIndex + 1, |visibleImages|);
      UpdateLightboxImage();
    }

    /** updateLightboxImage, with its 200 ms delay taken as immediate. */
    method UpdateLightboxImage()
      requires Valid() && 0 <= currentImageIndex < |visibleImages|
      modifies this`displayed, this`counterText
      ensures displayed == Some(visibleImages[currentImageIndex])
      ensures counterText == Counter(currentImageIndex + 1, |visibleImages|)
    {
      displayed := Some(visibleImages[currentImageIndex]);
      UpdateImageCounter();
    }

    /** The keydown listener: only an open lightbox reacts, and only to three keys. */
    method KeyDown(key: string)
      requires Valid()
      requires active && key in {"ArrowLeft", "ArrowRight"} ==> |visibleImages| > 0
      modifies this`currentImageIndex, this`displayed, this`counterText, this`active, this`overflow
      ensures Valid()
      ensures !old(active) || KeyCommand(key) == NoCommand ==>
        && currentImageIndex == old(currentImageIndex) && displayed == old(displayed)
        && counterText == old(counterText) && active == old(active) && overflow == old(overflow)
      ensures old(active) && key == "Escape" ==>
        && !active && overflow == Auto
        && currentImageIndex == old(currentImageIndex) && displayed == old(displayed) && counterText == old(counterText)
      ensures old(active) && key == "ArrowLeft" ==>
        && currentImageIndex == PrevIndex(old(currentImageIndex), |visibleImages|)
        && displayed == Some(visibleImages[currentImageIndex])
        && counterText == Counter(currentImageIndex + 1, |visibleImages|)
        && active && overflow == old(overflow)
      ensures old(active) && key == "ArrowRight" ==>
        && currentImageIndex == NextIndex(old(currentImageIndex), |visibleImages|)
        && displayed == Some(visibleImages[currentImageIndex])
        && counterText == Counter(currentImageIndex + 1, |visibleImages|)
        && active && overflow == old(overflow)
    {
      if active {
        match KeyCommand(key)
        case Close => CloseLightbox();
        case Previous => PreviousImage();
        case Next => NextImage();
        case NoCommand =>
      }
    }

    /** A click on the lightbox closes it only when it lands on the backdrop itself. */
    method LightboxClick(onBackdrop: bool)
      requires Valid()
      modifies this`active, this`overflow
      ensures Valid()
      ensures onBackdrop ==> !active && overflow == Auto
      ensures !onBackdrop ==> active == old(active) && overflow == old(overflow)
    {
      if onBackdrop {
        CloseLightbox();
      }
    }

    /**
     * handleSwipe for a touch from startX to endX: a horizontal travel beyond
     * the threshold moves one item, leftwards to the next, rightwards to the
     * previous. Like the source, it does not look at whether the lightbox is open.
     */
    method HandleSwipe(startX: real, endX: real)
      requires Valid()
      requires SwipeDecision(startX, endX) != Ignored ==> |visibleImages| > 0
      modifies this`currentImageIndex, this`displayed, this`counterText
      ensures Valid()
      ensures startX - endX > SwipeThreshold ==>
        currentImageIndex == NextIndex(old(currentImageIndex), |visibleImages|)
        && displayed == Some(visibleImages[currentImageIndex])
        && counterText == Counter(currentImageIndex + 1, |visibleImages|)
      ensures endX - startX > SwipeThreshold ==>
        currentImageIndex == PrevIndex(old(currentImageIndex), |visibleImages|)
        && displayed == Some(visibleImages[currentImageIndex])
        && counterText == Counter(currentImageIndex + 1, |visibleImages|)
      ensures -SwipeThreshold <= startX - endX <= SwipeThreshold ==>
        currentImageIndex == old(currentImageIndex) && displayed == old(displayed) && counterText == old(counterText)
    {
      match SwipeDecision(startX, endX)
      case ToNext => NextImage();
      case ToPrevious => PreviousImage();
      case Ignored =>
    }
  }

  /**
   * Opening an item right after a filter lands on the stagger rank that
   * filter gave it.
   */
  lemma OpenAfterFilter(items: seq<Item>, category: string, k: nat)
    requires k < |items| && ShouldShow(category, items[k].category)
    ensures IndexOf(Matching(items, category), k) == ShownBefore(items, category, k)
  {
    StaggerRankIsPosition(items, category, k);
    MatchingIncreasing(items, category);
    IndexOfIncreasing(Matching(items, category), ShownBefore(items, category, k));
  }

  /** Opening an item the filter hides finds nothing: indexOf gives -1. */
  lemma OpenHiddenAfterFilter(items: seq<Item>, category: string, k: nat)
    requires k < |items| && !ShouldShow(category, items[k].category)
    ensures IndexOf(Matching(items, category), k) == -1
  {
    MatchingMembers(items, category, k);
  }
}
