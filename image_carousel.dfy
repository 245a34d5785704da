/**
 * The image carousel of an item card: which of the item's images is shown,
 * and how the previous/next arrows and the dots move between them.
 */
module ImageCarousel {
  import opened Common

  lemma {:induction false} MulAtLeast(d: nat, n: nat)
    requires d >= 1
    ensures d * n >= n
  {
    if d > 1 {
      MulAtLeast(d - 1, n);
      assert d * n == (d - 1) * n + n;
    }
  }

  /** Quotient and remainder are the only pair with `0 <= r < n` and `x == q * n + r`. */
  lemma DivModUnique(x: int, n: int, q: int, r: int)
    requires n > 0 && 0 <= r < n && x == q * n + r
    ensures x % n == r && x / n == q
  {
    var q', r' := x / n, x % n;
    if q > q' {
      MulAtLeast(q - q', n);
    } else if q < q' {
      MulAtLeast(q' - q, n);
    }
  }

  /** The slide after `i` among `n`: the last one wraps around to the first. */
  function Next(i: nat, n: nat): (r: nat)
    requires i < n
    ensures r < n
    ensures r == (i + 1) % n
  {
    if i == n - 1 then
      DivModUnique(i + 1, n, 1, 0);
      0
    else
      DivModUnique(i + 1, n, 0, i + 1);
      i + 1
  }

  /** The slide before `i` among `n`: the first one wraps around to the last. */
  function Previous(i: nat, n: nat): (r: nat)
    requires i < n
    ensures r < n
    ensures r == (i + n - 1) % n
  {
    if i == 0 then
      DivModUnique(i + n - 1, n, 0, n - 1);
      n - 1
    else
      DivModUnique(i + n - 1, n, 1, i - 1);
      i - 1
  }

  /** Going back after going forward returns to the same slide, and the other way round. */
  lemma NextPreviousInverse(i: nat, n: nat)
    requires i < n
    ensures Previous(Next(i, n), n) == i
    ensures Next(Previous(i, n), n) == i
  {
  }

  /** The slide reached from `i` by pressing "next" `k` times. */
  function NextTimes(i: nat, n: nat, k: nat): (r: nat)
    requires i < n
    ensures r < n
  {
    if k == 0 then i else Next(NextTimes(i, n, k - 1), n)
  }

  /** Pressing "next" `k` times moves `k` slides on, modulo the number of slides. */
  lemma {:induction false} NextTimesShifts(i: nat, n: nat, k: nat)
    requires i < n
    ensures NextTimes(i, n, k) == (i + k) % n
  {
    if k == 0 {
      DivModUnique(i, n, 0, i);
    } else {
      NextTimesShifts(i, n, k - 1);
      NextOfRemainder(i + k - 1, n);
    }
  }

  /** One step on from the remainder of `x` is the remainder of `x + 1`. */
  lemma NextOfRemainder(x: nat, n: nat)
    requires n > 0
    ensures Next(x % n, n) == (x + 1) % n
  {
    var q, j := x / n, x % n;
    DivModUnique(x, n, q, j);
    if j + 1 < n {
      DivModUnique(x + 1, n, q, j + 1);
    } else {
      DivModUnique(x + 1, n, q + 1, 0);
    }
  }

  /** Pressing "next" once per image comes back to where it started. */
  lemma FullCycle(i: nat, n: nat)
    requires i < n
    ensures NextTimes(i, n, n) == i
  {
    NextTimesShifts(i, n, n);
    DivModUnique(i + n, n, 1, i);
  }

  /** What the carousel draws. */
  datatype Display =
    | Nothing                                          // no images
    | Single(src: Url)                                 // one image, no arrows, dots or counter
    | Slides(src: Url, current: nat, counter: nat, total: nat)  // arrows, dots and "counter/total"

  class Carousel {
    /** The image URLs the carousel was given; fixed for its lifetime. */
    const images: seq<Url>
    /** The `currentIndex` state. */
    var currentIndex: nat

    ghost predicate Valid()
      reads this
    {
      currentIndex == 0 || currentIndex < |images|
    }

    /** The state starts on the first image. */
    constructor (images: seq<Url>)
      ensures this.images == images && currentIndex == 0 && Valid()
    {
      this.images := images;
      currentIndex := 0;
    }

    /** The "›" arrow, drawn only when there are at least two images. */
    method GoToNext()
      requires Valid() && |images| > 1
      modifies this
      ensures Valid() && currentIndex == Next(old(currentIndex), |images|)
    {
      currentIndex := if currentIndex == |images| - 1 then 0 else currentIndex + 1;
    }

    /** The "‹" arrow, drawn only when there are at least two images. */
    method GoToPrevious()
      requires Valid() && |images| > 1
      modifies this
      ensures Valid() && currentIndex == Previous(old(currentIndex), |images|)
    {
      currentIndex := if currentIndex == 0 then |images| - 1 else currentIndex - 1;
    }

    /** The dot of image `index`; there is one per image when there are at least two. */
    method SelectDot(index: nat)
      requires Valid() && |images| > 1 && index < |images|
      modifies this
      ensures Valid() && currentIndex == index
    {
      currentIndex := index;
    }

    /**
     * The rendering: nothing without images, the lone image without any
     * controls, otherwise the current image with the counter
     * `currentIndex + 1` of `images.length`.
     */
    function Render(): (d: Display)
      reads this
      requires Valid()
      ensures d.Nothing? <==> |images| == 0
      ensures d.Single? <==> |images| == 1
      ensures d.Single? ==> d.src == images[0]
      ensures d.Slides? ==> d.current == currentIndex && d.src == images[currentIndex]
      ensures d.Slides? ==> 1 <= d.counter <= d.total == |images| && d.counter == d.current + 1
    {
      if |images| == 0 then Nothing
      else if |images| == 1 then Single(images[0])
      else Slides(images[currentIndex], currentIndex, currentIndex + 1, |images|)
    }
  }
}
