/**
 * The mobile carousel: whether it is open and which position of the
 * filtered list it shows. Positions are indices into the filtered list,
 * not catalog ids.
 */
module Carousel {

  datatype CarouselState = CarouselState(isOpen: bool, currentIndex: nat)

  /** The state the page mounts with. */
  const Initial: CarouselState := CarouselState(false, 0)

  /**
   * `nextImage`: one step forward over a filtered list of length `n`, wrapping
   * from the last position to the first. JavaScript's `% 0` is NaN, so the
   * list must not be empty.
   */
  function Next(c: CarouselState, n: nat): (r: CarouselState)
    requires n > 0
    ensures r.isOpen == c.isOpen
    ensures r.currentIndex < n
    ensures c.currentIndex + 1 < n ==> r.currentIndex == c.currentIndex + 1
    ensures c.currentIndex == n - 1 ==> r.currentIndex == 0
  {
    c.(currentIndex := (c.currentIndex + 1) % n)
  }

  /**
   * `prevImage`: one step back, wrapping from the first position to the last.
   * The numerator `i - 1 + n` is never negative, so JavaScript's `%` and
   * Dafny's agree here.
   */
  function Prev(c: CarouselState, n: nat): (r: CarouselState)
    requires n > 0
    ensures r.isOpen == c.isOpen
    ensures r.currentIndex < n
    ensures 0 < c.currentIndex <= n ==> r.currentIndex == c.currentIndex - 1
    ensures c.currentIndex == 0 ==> r.currentIndex == n - 1
  {
    c.(currentIndex := (c.currentIndex - 1 + n) % n)
  }

  /** Tapping the picture at filtered position `index` on a narrow screen opens the carousel there. */
  function Tap(c: CarouselState, index: nat, isMobile: bool): (r: CarouselState)
    ensures isMobile ==> r.isOpen && r.currentIndex == index
    ensures !isMobile ==> r == c
  {
    if isMobile then CarouselState(true, index) else c
  }

  /** Escape or the close button: the carousel closes and keeps its position. */
  function Close(c: CarouselState): (r: CarouselState)
    ensures !r.isOpen && r.currentIndex == c.currentIndex
  {
    c.(isOpen := false)
  }

  /** The keys for which a step needs a non-empty list. */
  predicate IsArrow(key: string)
  {
    key == "ArrowRight" || key == "ArrowLeft"
  }

  /**
   * The keydown handler: while the carousel is open, ArrowRight steps
   * forward, ArrowLeft steps back and Escape closes; other keys, and every key
   * while it is closed, change nothing.
   */
  function KeyPress(c: CarouselState, key: string, n: nat): (r: CarouselState)
    requires c.isOpen && IsArrow(key) ==> n > 0
    ensures !c.isOpen ==> r == c
    ensures r.isOpen == (c.isOpen && key != "Escape")
    ensures c.currentIndex < n ==> r.currentIndex < n
  {
    if !c.isOpen then c
    else if key == "ArrowRight" then Next(c, n)
    else if key == "ArrowLeft" then Prev(c, n)
    else if key == "Escape" then Close(c)
    else c
  }

  /**
   * While open, the arrows are `next` and `prev`, Escape is close, and any
   * other key does nothing; only the arrows need a non-empty list.
   */
  lemma KeyPressOpen(c: CarouselState, key: string, n: nat)
    requires c.isOpen && (IsArrow(key) ==> n > 0)
    ensures key == "ArrowRight" ==> KeyPress(c, key, n) == Next(c, n)
    ensures key == "ArrowLeft" ==> KeyPress(c, key, n) == Prev(c, n)
    ensures key == "Escape" ==> KeyPress(c, key, n) == Close(c)
    ensures !IsArrow(key) && key != "Escape" ==> KeyPress(c, key, n) == c
  {
  }

  /** Stepping back undoes stepping forward, and the other way round, from any in-range position. */
  lemma PrevNextInverse(c: CarouselState, n: nat)
    requires n > 0 && c.currentIndex < n
    ensures Prev(Next(c, n), n) == c
    ensures Next(Prev(c, n), n) == c
  {
  }

  /** `k` forward steps. */
  function Advance(c: CarouselState, n: nat, k: nat): (r: CarouselState)
    requires n > 0
    ensures r.isOpen == c.isOpen
  {
    if k == 0 then c else Next(Advance(c, n, k - 1), n)
  }

  /**
   * Up to `n` forward steps from position `i` land on `i + k`, wrapped once past
   * the end: the carousel visits the filtered list in order, cyclically.
   */
  lemma {:induction false} AdvanceWraps(c: CarouselState, n: nat, k: nat)
    requires n > 0 && c.currentIndex < n && k <= n
    ensures Advance(c, n, k).currentIndex
      == if c.currentIndex + k < n then c.currentIndex + k else c.currentIndex + k - n
  {
    if k > 0 {
      AdvanceWraps(c, n, k - 1);
    }
  }

  /** After `n` forward steps the carousel is back where it started: every picture is visited once per cycle. */
  lemma FullCycle(c: CarouselState, n: nat)
    requires n > 0 && c.currentIndex < n
    ensures Advance(c, n, n) == c
  {
    AdvanceWraps(c, n, n);
  }
}
