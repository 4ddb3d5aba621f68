/**
 * Small runs of the controller that show, from the contracts alone, the
 * behaviour of script.js that its callers may not expect.
 */
module Scenarios {
  import opened Wrappers
  import opened Filtering
  import opened Navigation
  import opened GalleryWidget

  /** What filtering a cat and a dog picture by each of their categories gives. */
  lemma TwoItemFilters(cat: Item, dog: Item)
    requires cat.category == "cats" && dog.category == "dogs"
    ensures Matching([cat, dog], "cats") == [0] && Matching([cat, dog], "dogs") == [1]
    ensures IndexOf(["all", "cats", "dogs"], "cats") == 1
    ensures IndexOf(["all", "cats", "dogs"], "dogs") == 2
  {
    assert [cat, dog][..1] == [cat] && [cat][..0] == [];
    assert "all" != "cats" && "all" != "dogs" && "cats" != "dogs";
  }

  /**
   * Filtering does not touch the lightbox: an index left over from before
   * may point past the new list. The next step brings it back into range
   * (see Navigation.NextIndex and Navigation.PrevIndex).
   */
  method FilterKeepsStaleIndex() {
    var cat := Item("cats", "Cat", "A cat", "cat.jpg", "cat");
    var dog := Item("dogs", "Dog", "A dog", "dog.jpg", "dog");
    TwoItemFilters(cat, dog);
    var g := new ExploreMyGallery([cat, dog], ["all", "cats", "dogs"], {0}, "");
    assert g.visibleImages == [0, 1];
    g.OpenLightbox(1);
    assert g.currentImageIndex == 1 && g.active && g.overflow == Hidden;

    var ok := g.FilterImages("cats");
    assert ok && g.activeButtons == {1};
    assert g.visibleImages == [0];
    assert g.currentImageIndex == 1 && g.active && g.displayed == Some(1);
    assert g.currentImageIndex >= |g.visibleImages|;
  }

  /**
   * Clicking an item the filter hides resets the index to -1 but leaves the
   * lightbox as it was.
   */
  method OpenHiddenItem() {
    var cat := Item("cats", "Cat", "A cat", "cat.jpg", "cat");
    var dog := Item("dogs", "Dog", "A dog", "dog.jpg", "dog");
    TwoItemFilters(cat, dog);
    var g := new ExploreMyGallery([cat, dog], ["all", "cats", "dogs"], {0}, "");
    var ok := g.FilterImages("dogs");
    assert ok && g.visibleImages == [1];
    g.OpenLightbox(0);
    assert g.currentImageIndex == -1 && !g.active && g.displayed == None;
  }

  /** A category no button carries stops filterImages with every button inactive. */
  method UnknownCategory() {
    var cat := Item("cats", "Cat", "A cat", "cat.jpg", "cat");
    assert "birds" !in ["all", "cats"];
    var g := new ExploreMyGallery([cat], ["all", "cats"], {0}, "");
    var ok := g.FilterImages("birds");
    assert !ok && g.activeButtons == {} && g.visibleImages == [0];
  }
}
