/**
 * The picture gallery of the front page: a ring of slides of which the
 * current one is shown. The "next" and "previous" buttons and a ten-second
 * timer move the current index round the ring and then mark exactly that
 * slide as active.
 *
 * The index arithmetic only ever sees a non-negative left operand, so
 * JavaScript's truncating `%` and Dafny's Euclidean `%` agree on it.
 */
module Gallery {

  /** The index after "next": one further round the ring, from the last slide back to the first. */
  function NextIndex(i: int, n: int): (r: int)
    requires 0 <= i < n
    ensures 0 <= r < n
    ensures r == (if i == n - 1 then 0 else i + 1)
  {
    (i + 1) % n
  }

  /** The index after "previous": one back round the ring, from the first slide to the last. */
  function PrevIndex(i: int, n: int): (r: int)
    requires 0 <= i < n
    ensures 0 <= r < n
    ensures r == (if i == 0 then n - 1 else i - 1)
  {
    (i - 1 + n) % n
  }

  /** "Previous" undoes "next". */
  lemma PrevUndoesNext(i: int, n: int)
    requires 0 <= i < n
    ensures PrevIndex(NextIndex(i, n), n) == i
  {
  }

  /** "Next" undoes "previous". */
  lemma NextUndoesPrev(i: int, n: int)
    requires 0 <= i < n
    ensures NextIndex(PrevIndex(i, n), n) == i
  {
  }

  /** The index after `k` presses of "next" (or `k` ticks of the timer). */
  function Advance(i: int, n: int, k: nat): (r: int)
    requires 0 <= i < n
    ensures 0 <= r < n
  {
    if k == 0 then i else NextIndex(Advance(i, n, k - 1), n)
  }

  /** Within one round, `k` steps forward land `k` places further on. */
  lemma {:induction false} AdvanceWithinRound(i: int, n: int, k: nat)
    requires 0 <= i < n && i + k < n
    ensures Advance(i, n, k) == i + k
  {
    if k > 0 {
      AdvanceWithinRound(i, n, k - 1);
    }
  }

  /** Steps forward add up: `a` steps and then `b` steps are `a + b` steps. */
  lemma {:induction false} AdvanceAdds(i: int, n: int, a: nat, b: nat)
    requires 0 <= i < n
    ensures Advance(i, n, a + b) == Advance(Advance(i, n, a), n, b)
  {
    if b > 0 {
      AdvanceAdds(i, n, a, b - 1);
    }
  }

  /** From slide i, `n - i` steps wrap round to the first slide. */
  lemma StepsToFirst(i: int, n: int)
    requires 0 <= i < n
    ensures Advance(i, n, n - i) == 0
  {
    AdvanceWithinRound(i, n, n - i - 1);
  }

  /** After a whole round the slide that was current is back. */
  lemma FullRoundReturns(i: int, n: int)
    requires 0 <= i < n
    ensures Advance(i, n, n) == i
  {
    StepsToFirst(i, n);
    AdvanceAdds(i, n, n - i, i);
    AdvanceWithinRound(0, n, i);
  }

  /** Every slide comes round within one round of the timer. */
  lemma EverySlideComesRound(i: int, n: int, j: int)
    requires 0 <= i < n && 0 <= j < n
    ensures exists k: nat :: k < n && Advance(i, n, k) == j
  {
    if j >= i {
      AdvanceWithinRound(i, n, j - i);
      assert Advance(i, n, j - i) == j;
    } else {
      StepsToFirst(i, n);
      AdvanceAdds(i, n, n - i, j);
      AdvanceWithinRound(0, n, j);
      assert Advance(i, n, n - i + j) == j;
    }
  }

  /** The slides of the gallery, each with its `active` class, and the current index. */
  class Carousel {
    /** `slides[k]`: whether slide k carries the `active` class. */
    const slides: array<bool>
    var currentIndex: int

    ghost predicate Valid()
      reads this
    {
      slides.Length > 0 && 0 <= currentIndex < slides.Length
    }

    /** The page as loaded: the slides as the markup has them, the first one current. */
    constructor (initial: seq<bool>)
      requires |initial| > 0
      ensures Valid()
      ensures slides[..] == initial && currentIndex == 0
      ensures fresh(slides)
    {
      slides := new bool[|initial|](k requires 0 <= k < |initial| => initial[k]);
      currentIndex := 0;
      new;
      assert slides[..] == initial;
    }

    /** `showSlide(index)`: exactly the slide at `index` is active; any other index leaves none active. */
    method ShowSlide(index: int)
      modifies slides
      ensures forall k :: 0 <= k < slides.Length ==> slides[k] == (k == index)
    {
      var i := 0;
      while i < slides.Length
        invariant 0 <= i <= slides.Length
        invariant forall k :: 0 <= k < i ==> slides[k] == (k == index)
      {
        slides[i] := i == index;
        i := i + 1;
      }
    }

    /** The "next" button: one slide further round the ring, shown alone. */
    method Next()
      requires Valid()
      modifies this, slides
      ensures Valid()
      ensures currentIndex == NextIndex(old(currentIndex), slides.Length)
      ensures forall k :: 0 <= k < slides.Length ==> slides[k] == (k == currentIndex)
    {
      currentIndex := (currentIndex + 1) % slides.Length;
      ShowSlide(currentIndex);
    }

    /** The "previous" button: one slide back round the ring, shown alone. */
    method Prev()
      requires Valid()
      modifies this, slides
      ensures Valid()
      ensures currentIndex == PrevIndex(old(currentIndex), slides.Length)
      ensures forall k :: 0 <= k < slides.Length ==> slides[k] == (k == currentIndex)
    {
      currentIndex := (currentIndex - 1 + slides.Length) % slides.Length;
      ShowSlide(currentIndex);
    }

    /** The ten-second timer: the same step as "next". */
    method Tick()
      requires Valid()
      modifies this, slides
      ensures Valid()
      ensures currentIndex == NextIndex(old(currentIndex), slides.Length)
      ensures forall k :: 0 <= k < slides.Length ==> slides[k] == (k == currentIndex)
    {
      currentIndex := (currentIndex + 1) % slides.Length;
      ShowSlide(currentIndex);
    }
  }

  /** "Next" followed by "previous" shows the slide that was current before, and only it. */
  method NextThenPrev(c: Carousel)
    requires c.Valid()
    modifies c, c.slides
    ensures c.Valid() && c.currentIndex == old(c.currentIndex)
    ensures forall k :: 0 <= k < c.slides.Length ==> c.slides[k] == (k == old(c.currentIndex))
  {
    c.Next();
    c.Prev();
    PrevUndoesNext(old(c.currentIndex), c.slides.Length);
  }
}
