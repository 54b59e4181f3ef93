/**
 * The gallery's lightbox (script.js:9-54): a cursor `currentIndex` into the
 * fixed, ordered list of gallery images, the `src` the lightbox image shows,
 * and whether the lightbox carries the `hidden` class. The DOM is abstracted
 * to those fields; each image is represented by its `src` string.
 */
module Lightbox {

  /** JavaScript's `%` on numbers: the remainder truncated toward zero, so it takes the sign of `a`. */
  function JsRem(a: int, b: int): (r: int)
    requires b > 0
    ensures -b < r < b
    ensures (a - r) % b == 0
    ensures a >= 0 ==> r >= 0
    ensures a < 0 ==> r <= 0
  {
    if a >= 0 then
      ModUnique(a - a % b, b, a / b, 0);
      a % b
    else
      ModUnique(a + (-a) % b, b, -((-a) / b), 0);
      -((-a) % b)
  }

  lemma MulAtLeast(d: int, n: int)
    requires d >= 1 && n > 0
    ensures d * n >= n
  {
    assert d * n == (d - 1) * n + n;
  }

  /** Quotient and remainder are unique: `x % n` is the only `r` in `[0, n)` with `x == q * n + r`. */
  lemma ModUnique(x: int, n: int, q: int, r: int)
    requires n > 0 && 0 <= r < n && x == q * n + r
    ensures x % n == r && x / n == q
  {
    var q0, r0 := x / n, x % n;
    assert x == q0 * n + r0;
    assert (q - q0) * n == r0 - r;
    if q - q0 >= 1 {
      MulAtLeast(q - q0, n);
    } else if q0 - q >= 1 {
      MulAtLeast(q0 - q, n);
    }
  }

  /** The index `showPrev` moves to: `(currentIndex - 1 + images.length) % images.length`. */
  function Prev(i: int, n: int): (r: int)
    requires 0 <= i < n
    ensures 0 <= r < n
    ensures r == if i == 0 then n - 1 else i - 1
  {
    ModUnique(i - 1 + n, n, if i == 0 then 0 else 1, if i == 0 then n - 1 else i - 1);
    JsRem(i - 1 + n, n)
  }

  /** The index `showNext` moves to: `(currentIndex + 1) % images.length`. */
  function Next(i: int, n: int): (r: int)
    requires 0 <= i < n
    ensures 0 <= r < n
    ensures r == if i == n - 1 then 0 else i + 1
  {
    ModUnique(i + 1, n, if i == n - 1 then 1 else 0, if i == n - 1 then 0 else i + 1);
    JsRem(i + 1, n)
  }

  lemma PrevNextInverse(i: int, n: int)
    requires 0 <= i < n
    ensures Prev(Next(i, n), n) == i
    ensures Next(Prev(i, n), n) == i
  {
  }

  /** The index reached from `i` by `k` presses of "next". */
  function NextN(i: int, n: int, k: nat): (r: int)
    requires 0 <= i < n
    ensures 0 <= r < n
  {
    if k == 0 then i else Next(NextN(i, n, k - 1), n)
  }

  /** The index reached from `i` by `k` presses of "previous". */
  function PrevN(i: int, n: int, k: nat): (r: int)
    requires 0 <= i < n
    ensures 0 <= r < n
  {
    if k == 0 then i else Prev(PrevN(i, n, k - 1), n)
  }

  lemma ModSucc(x: int, n: int)
    requires n > 0
    ensures (x + 1) % n == if x % n == n - 1 then 0 else x % n + 1
  {
    var q, r := x / n, x % n;
    if r == n - 1 {
      ModUnique(x + 1, n, q + 1, 0);
    } else {
      ModUnique(x + 1, n, q, r + 1);
    }
  }

  lemma ModPred(x: int, n: int)
    requires n > 0
    ensures (x - 1) % n == if x % n == 0 then n - 1 else x % n - 1
  {
    var q, r := x / n, x % n;
    if r == 0 {
      ModUnique(x - 1, n, q - 1, n - 1);
    } else {
      ModUnique(x - 1, n, q, r - 1);
    }
  }

  /** One press of "next" from the residue of `x` lands on the residue of `x + 1`. */
  lemma NextOfMod(x: int, n: int)
    requires n > 0
    ensures Next(x % n, n) == (x + 1) % n
  {
    ModSucc(x, n);
  }

  /** One press of "previous" from the residue of `x` lands on the residue of `x - 1`. */
  lemma PrevOfMod(x: int, n: int)
    requires n > 0
    ensures Prev(x % n, n) == (x - 1) % n
  {
    ModPred(x, n);
  }

  /** `k` presses of "next" advance the cursor by `k` modulo the number of images. */
  lemma {:induction false} NextNIsShift(i: int, n: int, k: nat)
    requires 0 <= i < n
    ensures NextN(i, n, k) == (i + k) % n
  {
    if k > 0 {
      var x := i + k - 1;
      NextNIsShift(i, n, k - 1);
      assert NextN(i, n, k) == Next(x % n, n);
      NextOfMod(x, n);
    } else {
      ModUnique(i, n, 0, i);
    }
  }

  /** `k` presses of "previous" move the cursor back by `k` modulo the number of images. */
  lemma {:induction false} PrevNIsShift(i: int, n: int, k: nat)
    requires 0 <= i < n
    ensures PrevN(i, n, k) == (i - k) % n
  {
    if k > 0 {
      var x := i - k + 1;
      PrevNIsShift(i, n, k - 1);
      assert PrevN(i, n, k) == Prev(x % n, n);
      PrevOfMod(x, n);
    } else {
      ModUnique(i, n, 0, i);
    }
  }

  /** Going once round the whole gallery, in either direction, returns to the starting image. */
  lemma FullCycle(i: int, n: int)
    requires 0 <= i < n
    ensures NextN(i, n, n) == i
    ensures PrevN(i, n, n) == i
  {
    NextNIsShift(i, n, n);
    ModUnique(i + n, n, 1, i);
    PrevNIsShift(i, n, n);
    ModUnique(i - n, n, -1, i);
  }

  /** `k` presses of "next" followed by `k` presses of "previous" return to the start. */
  lemma {:induction false} NextNThenPrevN(i: int, n: int, k: nat)
    requires 0 <= i < n
    ensures PrevN(NextN(i, n, k), n, k) == i
  {
    NextNIsShift(i, n, k);
    PrevNIsShift(NextN(i, n, k), n, k);
    ModShiftBack(i, k, n);
  }

  lemma ModShiftBack(i: int, k: nat, n: int)
    requires 0 <= i < n
    ensures ((i + k) % n - k) % n == i
  {
    var q, r := (i + k) / n, (i + k) % n;
    ModUnique(r - k, n, -q, i);
  }

  function Abs(x: int): (r: int)
    ensures r >= 0 && (r == x || r == -x)
  {
    if x < 0 then -x else x
  }

  class Viewer {
    /** The `src` of every gallery image, in document order. */
    const images: seq<string>
    var currentIndex: int
    /** The `src` of the lightbox's `<img>`. */
    var src: string
    /** Whether the lightbox carries the `hidden` class. */
    var hidden: bool
    /** The `pageX` at which the last touch began. */
    var touchStartX: int

    /** The shown image is the one the cursor points at. */
    predicate Showing()
      reads this
    {
      0 <= currentIndex < |images| && src == images[currentIndex]
    }

    /**
     * The cursor is an index of `images` (it stays 0 when there are none),
     * and whenever the lightbox is visible it shows the image at the cursor.
     */
    ghost predicate Valid()
      reads this
    {
      && 0 <= currentIndex
      && (currentIndex < |images| || currentIndex == 0)
      && (!hidden ==> Showing())
    }

    /** The page as loaded: cursor at 0, lightbox hidden, `initialSrc` in its `<img>`. */
    constructor (images: seq<string>, initialSrc: string)
      ensures Valid()
      ensures this.images == images && currentIndex == 0 && src == initialSrc
      ensures hidden && touchStartX == 0
    {
      this.images := images;
      currentIndex := 0;
      src := initialSrc;
      hidden := true;
      touchStartX := 0;
    }

    method OpenLightbox(index: int)
      requires Valid()
      requires 0 <= index < |images|
      modifies this`currentIndex, this`src, this`hidden
      ensures Valid() && Showing()
      ensures currentIndex == index && src == images[index] && !hidden
    {
      currentIndex := index;
      src := images[index];
      hidden := false;
    }

    method CloseLightbox()
      requires Valid()
      modifies this`hidden
      ensures Valid()
      ensures hidden
      ensures currentIndex == old(currentIndex) && src == old(src)
    {
      hidden := true;
    }

    method ShowPrev()
      requires Valid()
      requires |images| > 0
      modifies this`currentIndex, this`src
      ensures Valid() && Showing()
      ensures currentIndex == Prev(old(currentIndex), |images|)
      ensures hidden == old(hidden)
    {
      currentIndex := JsRem(currentIndex - 1 + |images|, |images|);
      src := images[currentIndex];
    }

    method ShowNext()
      requires Valid()
      requires |images| > 0
      modifies this`currentIndex, this`src
      ensures Valid() && Showing()
      ensures currentIndex == Next(old(currentIndex), |images|)
      ensures hidden == old(hidden)
    {
      currentIndex := JsRem(currentIndex + 1, |images|);
      src := images[currentIndex];
    }

    /** The window's `keydown` listener. */
    method KeyDown(key: string)
      requires Valid()
      modifies this`currentIndex, this`src, this`hidden
      ensures Valid()
      ensures old(hidden) ==> hidden && currentIndex == old(currentIndex) && src == old(src)
      ensures !old(hidden) && key == "Escape" ==>
                hidden && currentIndex == old(currentIndex) && src == old(src)
      ensures !old(hidden) && key == "ArrowLeft" ==>
                !hidden && Showing() && currentIndex == Prev(old(currentIndex), |images|)
      ensures !old(hidden) && key == "ArrowRight" ==>
                !hidden && Showing() && currentIndex == Next(old(currentIndex), |images|)
      ensures key !in {"Escape", "ArrowLeft", "ArrowRight"} ==>
                hidden == old(hidden) && currentIndex == old(currentIndex) && src == old(src)
    {
      if !hidden {
        if key == "Escape" {
          CloseLightbox();
        }
        if key == "ArrowLeft" {
          ShowPrev();
        }
        if key == "ArrowRight" {
          ShowNext();
        }
      }
    }

    /** The lightbox's `touchstart` listener. */
    method TouchStart(x: int)
      modifies this`touchStartX
      ensures touchStartX == x
    {
      touchStartX := x;
    }

    /** The lightbox's `touchend` listener: a horizontal drag longer than 50 pages the gallery. */
    method TouchEnd(x: int)
      requires Valid()
      requires Abs(x - touchStartX) > 50 ==> |images| > 0
      modifies this`currentIndex, this`src
      ensures Valid() && hidden == old(hidden)
      ensures -50 <= x - touchStartX <= 50 ==> currentIndex == old(currentIndex) && src == old(src)
      ensures x - touchStartX > 50 ==> Showing() && currentIndex == Prev(old(currentIndex), |images|)
      ensures x - touchStartX < -50 ==> Showing() && currentIndex == Next(old(currentIndex), |images|)
    {
      var diff := x - touchStartX;
      if Abs(diff) > 50 {
        if diff > 0 {
          ShowPrev();
        } else {
          ShowNext();
        }
      }
    }
  }
}
