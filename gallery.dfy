/**
 * The gallery view's state (its `useState` fields) and one method per event
 * handler. Each method changes only the fields its `modifies` clause names.
 */
module Gallery {
  import opened Wrappers
  import opened Catalog
  import opened Filter
  import opened Carousel
  import opened LoadStatus

  class PhotoGallery {
    var selectedCategory: string
    var isFilterOpen: bool
    var loadedImages: set<nat>
    var error: Option<string>
    var images: seq<GalleryImage>
    var query: string
    var carousel: CarouselState

    /** The records are the catalog's, in catalog order, up to their retry counts. */
    ghost predicate Valid()
      reads this`images
    {
      SameEntries(images, GalleryImages)
    }

    /** The records on screen: `filteredImages`. */
    function Filtered(): seq<GalleryImage>
      reads this`images, this`selectedCategory, this`query
    {
      FilterImages(images, selectedCategory, query)
    }

    /** `if (error)`: the full-page error view replaces the gallery for any non-empty message. */
    predicate ShowsErrorView()
      reads this`error
    {
      error.Some? && error.value != ""
    }

    /** The carousel, while open, points at a record on screen (the overlay reads `filteredImages[currentIndex]`). */
    predicate CarouselInRange()
      reads this`carousel, this`images, this`selectedCategory, this`query
    {
      carousel.isOpen ==> carousel.currentIndex < |Filtered()|
    }

    /** The state the view mounts with. */
    constructor ()
      ensures selectedCategory == AllCategories && !isFilterOpen && loadedImages == {}
      ensures error == None && images == GalleryImages && query == "" && carousel == Initial
      ensures Valid() && NoStoredRetries(images) && CarouselInRange()
    {
      selectedCategory := AllCategories;
      isFilterOpen := false;
      loadedImages := {};
      error := None;
      images := GalleryImages;
      query := "";
      carousel := Initial;
      SameEntriesReflexive(GalleryImages);
      CatalogWellFormed();
    }

    /** `handleImageLoad`: the id joins the loaded set, and any error message is cleared. */
    method HandleImageLoad(id: nat)
      modifies this`loadedImages, this`error
      ensures loadedImages == old(loadedImages) + {id}
      ensures id in loadedImages && old(loadedImages) <= loadedImages
      ensures error == None && !ShowsErrorView()
    {
      loadedImages := loadedImages + {id};
      error := None;
    }

    /**
     * `handleImageError`, as written: it computes the next retry count and
     * picks the message from it, but stores nothing, so the records stay
     * as they are.
     */
    method HandleImageError(id: nat)
      modifies this`error
      ensures error == Some(ImageErrorMessage(images, id))
      ensures NoStoredRetries(images) ==> error == Some(TransientMessage(id))
      ensures Valid() && 1 <= id <= |GalleryImages| ==>
        error == Some(TransientMessage(id)) || error == Some(TerminalMessage(id, GalleryImages[id - 1].src))
      ensures ShowsErrorView()
    {
      var image := FindImage(images, id);
      var retryCount := NextRetryCount(image);
      if retryCount <= MaxRetries {
        error := Some(TransientMessage(id));
      } else {
        error := Some(TerminalMessage(id, if image.Some? then image.value.src else "undefined"));
      }
      if NoStoredRetries(images) {
        ErrorIsTransient(images, id);
      }
      MessagesDistinct(id, id, if image.Some? then image.value.src else "undefined");
      if Valid() && 1 <= id <= |GalleryImages| {
        ValidFindsCatalogRecord(images, id);
      }
    }

    /** `handleImageError` as its authors evidently meant it: the new count is written back to the record. */
    method HandleImageErrorCounted(id: nat)
      modifies this`error, this`images
      ensures images == CountError(old(images), id)
      ensures error == Some(ImageErrorMessage(old(images), id))
      ensures old(Valid()) ==> Valid()
      ensures old(Valid()) && 1 <= id <= |GalleryImages| ==>
        error == Some(TransientMessage(id)) || error == Some(TerminalMessage(id, GalleryImages[id - 1].src))
    {
      var image := FindImage(images, id);
      var retryCount := NextRetryCount(image);
      if retryCount <= MaxRetries {
        error := Some(TransientMessage(id));
      } else {
        error := Some(TerminalMessage(id, if image.Some? then image.value.src else "undefined"));
      }
      ghost var before := images;
      if Valid() && 1 <= id <= |GalleryImages| {
        ValidFindsCatalogRecord(images, id);
      }
      images := StoreRetryCount(images, id, retryCount);
      forall i | 0 <= i < |images|
        ensures SameEntry(images[i], before[i])
      {
        StoreRetryCountAt(before, id, retryCount, i);
      }
    }

    /** `handleRetry`: the message and the loaded set are cleared and every record's count becomes 0. */
    method HandleRetry()
      modifies this`error, this`loadedImages, this`images
      ensures error == None && loadedImages == {} && !ShowsErrorView()
      ensures images == ResetRetryCounts(old(images))
      ensures NoStoredRetries(images)
      ensures old(Valid()) ==> Valid()
      ensures Filtered() == ResetRetryCounts(old(Filtered()))
      ensures old(CarouselInRange()) ==> CarouselInRange()
    {
      error := None;
      loadedImages := {};
      FilterCommutesWithReset(images, selectedCategory, query);
      images := ResetRetryCounts(images);
    }

    /** The failure branch of `handleDownload`. */
    method HandleDownloadFailure()
      modifies this`error
      ensures error == Some(DownloadFailedMessage) && ShowsErrorView()
    {
      error := Some(DownloadFailedMessage);
    }

    /** A category button: select it and close the mobile filter drawer. */
    method SelectCategory(category: string)
      modifies this`selectedCategory, this`isFilterOpen
      ensures selectedCategory == category && !isFilterOpen
      ensures Filtered() == FilterImages(images, category, query)
    {
      selectedCategory := category;
      isFilterOpen := false;
    }

    /** The mobile filter button opens or closes the drawer. */
    method ToggleFilter()
      modifies this`isFilterOpen
      ensures isFilterOpen == !old(isFilterOpen)
    {
      isFilterOpen := !isFilterOpen;
    }

    /** Typing in the search box. */
    method SetQuery(q: string)
      modifies this`query
      ensures query == q
      ensures Filtered() == FilterImages(images, selectedCategory, q)
    {
      query := q;
    }

    /** The clear button of the search box: back to every record of the selected category. */
    method ClearSearch()
      modifies this`query
      ensures query == ""
      ensures Filtered() == FilterImages(images, selectedCategory, "")
      ensures old(CarouselInRange()) ==> CarouselInRange()
    {
      ClearingWidens(images, selectedCategory, query);
      query := "";
    }

    /**
     * After a filter change: closes the carousel when its position is no
     * longer on screen, so the overlay never reads past the filtered list
     * and an open carousel always has a picture to step over.
     */
    method KeepCarouselOnScreen()
      modifies this`carousel
      ensures carousel == (if old(carousel).isOpen && old(carousel).currentIndex >= |Filtered()|
        then Close(old(carousel)) else old(carousel))
      ensures CarouselInRange()
      ensures carousel.isOpen ==> |Filtered()| > 0
    {
      if carousel.isOpen && carousel.currentIndex >= |Filtered()| {
        carousel := carousel.(isOpen := false);
      }
    }

    /** A category button that keeps the carousel on screen: `SelectCategory`, then `KeepCarouselOnScreen`. */
    method SelectCategoryGuarded(category: string)
      modifies this`selectedCategory, this`isFilterOpen, this`carousel
      ensures selectedCategory == category && !isFilterOpen
      ensures Filtered() == FilterImages(images, category, query)
      ensures carousel == (if old(carousel).isOpen && old(carousel).currentIndex >= |Filtered()|
        then Close(old(carousel)) else old(carousel))
      ensures CarouselInRange()
    {
      SelectCategory(category);
      KeepCarouselOnScreen();
    }

    /** Typing that keeps the carousel on screen: `SetQuery`, then `KeepCarouselOnScreen`. */
    method SetQueryGuarded(q: string)
      modifies this`query, this`carousel
      ensures query == q
      ensures Filtered() == FilterImages(images, selectedCategory, q)
      ensures carousel == (if old(carousel).isOpen && old(carousel).currentIndex >= |Filtered()|
        then Close(old(carousel)) else old(carousel))
      ensures CarouselInRange()
    {
      SetQuery(q);
      KeepCarouselOnScreen();
    }

    /** A tap on the picture at filtered position `index` (only narrow screens open the carousel). */
    method TapImage(index: nat, isMobile: bool)
      requires index < |Filtered()|
      modifies this`carousel
      ensures carousel == Tap(old(carousel), index, isMobile)
      ensures isMobile ==> carousel == CarouselState(true, index)
      ensures old(CarouselInRange()) ==> CarouselInRange()
    {
      if isMobile {
        carousel := CarouselState(true, index);
      }
    }

    /** `nextImage`. */
    method NextImage()
      requires |Filtered()| > 0
      modifies this`carousel
      ensures carousel == Next(old(carousel), |Filtered()|)
      ensures carousel.currentIndex < |Filtered()| && carousel.isOpen == old(carousel.isOpen)
      ensures CarouselInRange()
    {
      carousel := carousel.(currentIndex := (carousel.currentIndex + 1) % |Filtered()|);
    }

    /** `prevImage`. */
    method PrevImage()
      requires |Filtered()| > 0
      modifies this`carousel
      ensures carousel == Prev(old(carousel), |Filtered()|)
      ensures carousel.currentIndex < |Filtered()| && carousel.isOpen == old(carousel.isOpen)
      ensures CarouselInRange()
    {
      carousel := carousel.(currentIndex := (carousel.currentIndex - 1 + |Filtered()|) % |Filtered()|);
    }

    /** The keydown handler. */
    method HandleKeyPress(key: string)
      requires carousel.isOpen && IsArrow(key) ==> |Filtered()| > 0
      modifies this`carousel
      ensures carousel == KeyPress(old(carousel), key, |Filtered()|)
      ensures !old(carousel.isOpen) ==> carousel == old(carousel)
      ensures old(CarouselInRange()) ==> CarouselInRange()
    {
      if carousel.isOpen {
        if key == "ArrowRight" { NextImage(); }
        if key == "ArrowLeft" { PrevImage(); }
        if key == "Escape" { carousel := carousel.(isOpen := false); }
      }
    }

    /** The close button of the carousel. */
    method CloseCarousel()
      modifies this`carousel
      ensures carousel == Close(old(carousel))
      ensures !carousel.isOpen && carousel.currentIndex == old(carousel.currentIndex)
      ensures CarouselInRange()
    {
      carousel := carousel.(isOpen := false);
    }
  }

  /** The freshly mounted page shows the whole catalog, and image 1 is its first record. */
  lemma MountedCatalog()
    ensures FilterImages(GalleryImages, AllCategories, "") == GalleryImages
    ensures FindImage(GalleryImages, 1) == Some(GalleryImages[0])
    ensures GalleryImages[0].src == "/assets/images/collegetips-team.jpg"
  {
    FilterAllEmptyIsIdentity(GalleryImages);
    FindImageAt(GalleryImages, 1, 0);
  }

  /**
   * In records that are the catalog's up to their counts, every catalog id
   * 1 to 9 is found at its own position, so the error handler's "undefined"
   * path is never taken for them.
   */
  lemma ValidFindsCatalogRecord(images: seq<GalleryImage>, id: nat)
    requires SameEntries(images, GalleryImages) && 1 <= id <= |GalleryImages|
    ensures FindImage(images, id) == Some(images[id - 1])
    ensures images[id - 1].src == GalleryImages[id - 1].src
  {
    CatalogIds();
    assert forall j :: 0 <= j < |images| ==> images[j].id == j + 1 by {
      forall j | 0 <= j < |images|
        ensures images[j].id == j + 1
      {
        assert SameEntry(images[j], GalleryImages[j]);
      }
    }
    FindImageAt(images, id, id - 1);
  }

  /** Filtering ignores retry counts, so a retry never changes which positions are on screen. */
  lemma {:induction false} FilterCommutesWithReset(images: seq<GalleryImage>, selected: string, query: string)
    ensures FilterImages(ResetRetryCounts(images), selected, query) == ResetRetryCounts(FilterImages(images, selected, query))
  {
    if images != [] {
      FilterCommutesWithReset(images[1..], selected, query);
      assert ResetRetryCounts(images)[1..] == ResetRetryCounts(images[1..]);
      assert Matches(ResetRetryCounts(images)[0], selected, query) == Matches(images[0], selected, query);
    }
  }

  /** On a freshly mounted page, four errors on image 1 still show the transient message. */
  method FourErrorsAsWritten() returns (shown: Option<string>)
    ensures shown == Some(TransientMessage(1))
  {
    var g := new PhotoGallery();
    g.HandleImageError(1);
    g.HandleImageError(1);
    g.HandleImageError(1);
    g.HandleImageError(1);
    shown := g.error;
  }

  /**
   * Open the carousel on the sixth picture of the mounted page, then select
   * "Team Vibes", which has three records: the open carousel now points past
   * the filtered list.
   */
  method StrandedCarouselAsWritten() returns (onScreen: bool)
    ensures !onScreen
  {
    var g := new PhotoGallery();
    MountedCatalog();
    CatalogIds();
    g.TapImage(5, true);
    g.SelectCategory("Team Vibes");
    TeamVibesScenario();
    onScreen := g.CarouselInRange();
  }

  /** The same steps with the guarded category button close the carousel instead. */
  method StrandedCarouselGuarded() returns (open: bool, onScreen: bool)
    ensures !open && onScreen
  {
    var g := new PhotoGallery();
    MountedCatalog();
    CatalogIds();
    g.TapImage(5, true);
    g.SelectCategoryGuarded("Team Vibes");
    TeamVibesScenario();
    open := g.carousel.isOpen;
    onScreen := g.CarouselInRange();
  }

  /**
   * With the count written back, the fourth consecutive error on a present,
   * uncounted image shows the terminal message naming its file (for image 1
   * of the catalog, "/assets/images/collegetips-team.jpg").
   */
  method FourErrorsCounted(g: PhotoGallery, id: nat) returns (shown: Option<string>)
    requires FindImage(g.images, id).Some? && FindImage(g.images, id).value.retryCount.GetOr(0) == 0
    modifies g`images, g`error
    ensures shown == Some(TerminalMessage(id, FindImage(old(g.images), id).value.src))
  {
    ghost var start := g.images;
    g.HandleImageErrorCounted(id);
    assert g.images == AfterCountedErrors(start, id, 1);
    g.HandleImageErrorCounted(id);
    assert g.images == AfterCountedErrors(start, id, 2);
    g.HandleImageErrorCounted(id);
    assert g.images == AfterCountedErrors(start, id, 3);
    g.HandleImageErrorCounted(id);
    CountedErrorsEscalate(start, id, 3);
    shown := g.error;
  }
}
