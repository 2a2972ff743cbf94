/**
 * The testimonial carousel: an index over `n > 0` slides, a translate offset and
 * one navigation dot per slide, exactly one of which carries the active class.
 */
module Slider {
  import opened ClassList

  /** The class that marks the dot of the slide on show. */
  const ACTIVE_DOT := "bg-white"

  /** The classes every dot is created with. */
  const DOT_CLASSES: ClassSet :=
    {"w-3", "h-3", "rounded-full", "bg-white/40", "hover:bg-white/60", "transition"}

  /** A positive multiple of `b` is at least `b`. */
  lemma MulAtLeast(d: int, b: int)
    requires d >= 1 && b > 0
    ensures d * b >= b
  {
  }

  /** Division with remainder is unique: `q` and `r` are Dafny's `/` and `%` of `a` by `b`. */
  lemma DivModUnique(a: int, b: int, q: int, r: int)
    requires b > 0 && 0 <= r < b && a == q * b + r
    ensures a / b == q && a % b == r
  {
    var q0, r0 := a / b, a % b;
    assert a == q0 * b + r0;
    assert (q - q0) * b == r0 - r;
    if q > q0 {
      MulAtLeast(q - q0, b);
    } else if q < q0 {
      MulAtLeast(q0 - q, b);
    }
  }

  /**
   * JavaScript's `%` on a positive divisor: the truncated remainder, which takes
   * the sign of the dividend (unlike Dafny's Euclidean `%`).
   */
  function JsRem(a: int, b: int): (r: int)
    requires b > 0
    ensures -b < r < b
    ensures a >= 0 ==> r >= 0
    ensures a <= 0 ==> r <= 0
    ensures (a - r) % b == 0
  {
    if a >= 0 then
      var m := a % b;
      assert a - m == (a / b) * b;
      DivModUnique(a - m, b, a / b, 0);
      m
    else
      var m := (-a) % b;
      assert a + m == (-((-a) / b)) * b;
      DivModUnique(a + m, b, -((-a) / b), 0);
      -m
  }

  /**
   * The index `showSlide(index)` settles on: `(index + n) % n` with JavaScript's `%`.
   * For every index the page passes (at least `-n`) it is the mathematical residue.
   */
  function Normalize(index: int, n: int): (r: int)
    requires n > 0 && index + n >= 0
    ensures 0 <= r < n
    ensures r == index % n
  {
    var r := JsRem(index + n, n);
    var q := (index + n) / n;
    assert index + n == q * n + r;
    assert index == (q - 1) * n + r;
    DivModUnique(index, n, q - 1, r);
    r
  }

  /** The slide `nextSlide` shows after slide `c`: one forward, wrapping from the last slide to the first. */
  function Next(c: int, n: int): (r: int)
    requires 0 <= c < n
    ensures r == if c == n - 1 then 0 else c + 1
  {
    if c == n - 1 then DivModUnique(c + 1, n, 1, 0); Normalize(c + 1, n)
    else DivModUnique(c + 1, n, 0, c + 1); Normalize(c + 1, n)
  }

  /** The slide `prevSlide` shows after slide `c`: one back, wrapping from the first slide to the last. */
  function Prev(c: int, n: int): (r: int)
    requires 0 <= c < n
    ensures r == if c == 0 then n - 1 else c - 1
  {
    if c == 0 then DivModUnique(c - 1, n, -1, n - 1); Normalize(c - 1, n)
    else DivModUnique(c - 1, n, 0, c - 1); Normalize(c - 1, n)
  }

  /** The slide on show after `k` consecutive `nextSlide` steps from slide `c`. */
  function Advance(c: int, k: nat, n: int): (r: int)
    requires 0 <= c < n
    ensures 0 <= r < n
  {
    if k == 0 then c else Next(Advance(c, k - 1, n), n)
  }

  /** Below `-n` the JavaScript expression leaves the range: this is why the index is bounded. */
  lemma BelowRangeGoesNegative(index: int, n: int)
    requires n > 0 && index + n < 0 && index % n != 0
    ensures JsRem(index + n, n) < 0
  {
    var r := JsRem(index + n, n);
    if r == 0 {
      var q := (index + n) / n;
      assert index + n == q * n;
      assert index == (q - 1) * n + 0;
      DivModUnique(index, n, q - 1, 0);
    }
  }

  /** `prevSlide` undoes `nextSlide`, and `nextSlide` undoes `prevSlide`. */
  lemma NextPrevInverse(c: int, n: int)
    requires 0 <= c < n
    ensures Prev(Next(c, n), n) == c
    ensures Next(Prev(c, n), n) == c
  {
  }

  /** Adding one to a number moves its residue one step forward, wrapping at `n`. */
  lemma ModSucc(x: int, n: int)
    requires n > 0
    ensures (x + 1) % n == if x % n == n - 1 then 0 else x % n + 1
  {
    var q, r := x / n, x % n;
    assert x == q * n + r;
    if r == n - 1 {
      assert x + 1 == (q + 1) * n + 0;
      DivModUnique(x + 1, n, q + 1, 0);
    } else {
      DivModUnique(x + 1, n, q, r + 1);
    }
  }

  /** `k` forward steps land on slide `(c + k) mod n`. */
  lemma {:induction false} AdvanceIsModular(c: int, k: nat, n: int)
    requires 0 <= c < n
    ensures Advance(c, k, n) == (c + k) % n
  {
    if k == 0 {
      DivModUnique(c, n, 0, c);
    } else {
      AdvanceIsModular(c, k - 1, n);
      ModSucc(c + k - 1, n);
    }
  }

  /** Stepping forward cycles through every slide: `n` steps return to the start and slide `j` is reached. */
  lemma AdvanceCycles(c: int, j: int, n: int)
    requires 0 <= c < n && 0 <= j < n
    ensures Advance(c, n, n) == c
    ensures Advance(c, (j - c) % n, n) == j
  {
    AdvanceIsModular(c, n, n);
    DivModUnique(c + n, n, 1, c);
    if j >= c {
      DivModUnique(j - c, n, 0, j - c);
      AdvanceIsModular(c, j - c, n);
      DivModUnique(j, n, 0, j);
    } else {
      DivModUnique(j - c, n, -1, j - c + n);
      AdvanceIsModular(c, j - c + n, n);
      DivModUnique(j + n, n, 1, j);
    }
  }

  /**
   * The slider's state inside the page script: `currentIndex`, the translate offset
   * of the strip (`translateX(-offset%)`) and the class lists of the dots.
   */
  class TestimonialSlider {
    const slideCount: nat
    const dots: array<ClassSet>
    var currentIndex: int
    var offsetPercent: int

    /** The shape fixed at setup: one dot per slide. */
    ghost predicate WellFormed()
      reads this
    {
      slideCount > 0 && dots.Length == slideCount
    }

    /** What every handler keeps: the index is in range, the offset follows it, one dot is active. */
    ghost predicate Valid()
      reads this, dots
    {
      WellFormed() &&
      0 <= currentIndex < slideCount &&
      offsetPercent == currentIndex * 100 &&
      forall k :: 0 <= k < dots.Length ==> (ACTIVE_DOT in dots[k] <==> k == currentIndex)
    }

    /**
     * Setup on a page with `slideCount > 0` slides and a dots container holding no
     * buttons yet: one dot is created per slide, then slide 0 is shown.
     */
    constructor (slideCount: nat)
      requires slideCount > 0
      ensures Valid() && fresh(dots)
      ensures this.slideCount == slideCount
      ensures currentIndex == 0 && offsetPercent == 0
      ensures forall k :: 0 <= k < dots.Length ==>
                dots[k] == if k == 0 then DOT_CLASSES + {ACTIVE_DOT} else DOT_CLASSES
    {
      var created := new ClassSet[slideCount];
      var i := 0;
      while i < slideCount
        invariant 0 <= i <= slideCount
        invariant forall k :: 0 <= k < i ==> created[k] == DOT_CLASSES
      {
        created[i] := Add({}, DOT_CLASSES);
        i := i + 1;
      }
      this.slideCount := slideCount;
      dots := created;
      currentIndex := 0;
      offsetPercent := 0;
      new;
      ShowSlide(0);
      forall k | 0 <= k < dots.Length
        ensures dots[k] == if k == 0 then DOT_CLASSES + {ACTIVE_DOT} else DOT_CLASSES
      {
        assert ACTIVE_DOT !in DOT_CLASSES;
        assert dots[k] - {ACTIVE_DOT} == DOT_CLASSES;
      }
    }

    /**
     * `showSlide(index)`: normalises the index, moves the strip, takes the active
     * class off every dot and puts it on the dot of the new slide.
     */
    method ShowSlide(index: int)
      requires WellFormed() && index + slideCount >= 0
      modifies this, dots
      ensures Valid()
      ensures currentIndex == Normalize(index, slideCount)
      ensures forall k :: 0 <= k < dots.Length ==>
                dots[k] - {ACTIVE_DOT} == old(dots[k]) - {ACTIVE_DOT}
    {
      currentIndex := Normalize(index, slideCount);
      offsetPercent := currentIndex * 100;
      var i := 0;
      while i < dots.Length
        invariant 0 <= i <= dots.Length
        invariant forall k :: 0 <= k < i ==> dots[k] == old(dots[k]) - {ACTIVE_DOT}
        invariant forall k :: i <= k < dots.Length ==> dots[k] == old(dots[k])
        invariant currentIndex == Normalize(index, slideCount)
        invariant offsetPercent == currentIndex * 100
      {
        dots[i] := Remove(dots[i], {ACTIVE_DOT});
        i := i + 1;
      }
      dots[currentIndex] := Add(dots[currentIndex], {ACTIVE_DOT});
    }

    /** `nextSlide`, run by the next button and by the autoplay timer. */
    method NextSlide()
      requires Valid()
      modifies this, dots
      ensures Valid()
      ensures currentIndex == Next(old(currentIndex), slideCount)
      ensures forall k :: 0 <= k < dots.Length ==>
                dots[k] - {ACTIVE_DOT} == old(dots[k]) - {ACTIVE_DOT}
    {
      ShowSlide(currentIndex + 1);
    }

    /** `prevSlide`, run by the previous button. */
    method PrevSlide()
      requires Valid()
      modifies this, dots
      ensures Valid()
      ensures currentIndex == Prev(old(currentIndex), slideCount)
      ensures forall k :: 0 <= k < dots.Length ==>
                dots[k] - {ACTIVE_DOT} == old(dots[k]) - {ACTIVE_DOT}
    {
      ShowSlide(currentIndex - 1);
    }

    /** A click on dot `i` shows slide `i`. */
    method ClickDot(i: nat)
      requires Valid() && i < slideCount
      modifies this, dots
      ensures Valid()
      ensures currentIndex == i && offsetPercent == i * 100
      ensures forall k :: 0 <= k < dots.Length ==>
                dots[k] - {ACTIVE_DOT} == old(dots[k]) - {ACTIVE_DOT}
    {
      ShowSlide(i);
    }
  }
}
