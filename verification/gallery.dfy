/** The image carousel and favourite button of the listing and business detail pages: a
    current-image index moved modulo the number of images, and a favourite flag. */
module Carousel {

  /** `(prev + 1) % n`: the next image, wrapping from the last back to the first. */
  function NextIndex(i: int, n: int): (r: int)
    requires 0 <= i < n
    ensures 0 <= r < n
    ensures r == if i == n - 1 then 0 else i + 1
  {
    (i + 1) % n
  }

  /** `(prev - 1 + n) % n`: the previous image, wrapping from the first to the last. */
  function PrevIndex(i: int, n: int): (r: int)
    requires 0 <= i < n
    ensures 0 <= r < n
    ensures r == if i == 0 then n - 1 else i - 1
  {
    (i - 1 + n) % n
  }

  /** Going back undoes going forward, and going forward undoes going back. */
  lemma NextPrevInverse(i: int, n: int)
    requires 0 <= i < n
    ensures PrevIndex(NextIndex(i, n), n) == i
    ensures NextIndex(PrevIndex(i, n), n) == i
  {
  }

  /** The index after `k` presses of the next button. */
  function NextTimes(i: int, n: int, k: nat): (r: int)
    requires 0 <= i < n
    ensures 0 <= r < n
  {
    if k == 0 then i else NextIndex(NextTimes(i, n, k - 1), n)
  }

  /** Up to one full cycle, `k` presses of the next button advance the index by `k`,
      wrapping once past the last image. */
  lemma {:induction false} NextTimesAdvances(i: int, n: int, k: nat)
    requires 0 <= i < n && k <= n
    ensures NextTimes(i, n, k) == if i + k < n then i + k else i + k - n
  {
    if k > 0 {
      NextTimesAdvances(i, n, k - 1);
    }
  }

  /** Pressing next once per image brings the carousel back to where it started. */
  lemma FullCycleReturns(i: int, n: int)
    requires 0 <= i < n
    ensures NextTimes(i, n, n) == i
  {
    NextTimesAdvances(i, n, n);
  }

  /** The carousel and favourite state of one detail page. */
  class Gallery {
    const count: int
    var current: int
    var favorited: bool

    ghost predicate Valid()
      reads this
    {
      0 <= current < count
    }

    /** The page opens on the first image, not favourited. */
    constructor (imageCount: int)
      requires imageCount > 0
      ensures Valid()
      ensures count == imageCount && current == 0 && !favorited
    {
      count := imageCount;
      current := 0;
      favorited := false;
    }

    /** `nextImage`. */
    method Next()
      requires Valid()
      modifies this
      ensures Valid()
      ensures current == NextIndex(old(current), count) && favorited == old(favorited)
    {
      current := (current + 1) % count;
    }

    /** `prevImage`. */
    method Prev()
      requires Valid()
      modifies this
      ensures Valid()
      ensures current == PrevIndex(old(current), count) && favorited == old(favorited)
    {
      current := (current - 1 + count) % count;
    }

    /** An indicator dot or thumbnail click: `setCurrentImage(idx)` for an image position. */
    method Select(idx: int)
      requires 0 <= idx < count
      modifies this
      ensures Valid()
      ensures current == idx && favorited == old(favorited)
    {
      current := idx;
    }

    /** The heart button: `setIsFavorited(!isFavorited)`. */
    method ToggleFavorite()
      modifies this
      ensures favorited == !old(favorited) && current == old(current)
    {
      favorited := !favorited;
    }

    /** Two clicks on the heart leave the favourite flag as it was. */
    method ToggleFavoriteTwice()
      modifies this
      ensures favorited == old(favorited) && current == old(current)
    {
      ToggleFavorite();
      ToggleFavorite();
    }
  }
}
