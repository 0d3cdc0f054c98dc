/**
 * The banner's rotation: the page's state (slides, currentSlide), the interval tick that
 * advances the index, the reset when the number of slides changes, the dot that selects
 * a slide, and which rendered slide is marked active.
 */
module Slideshow {
  import opened Slides

  /** The placeholder rendered while there are no slides. */
  function Placeholder(basePath: string): Slide {
    Slide(basePath + "/ads/yoga.png", "yoga", "#", "yoga", true)
  }

  /** How many slides and dots are rendered for a given number of slides. */
  function RenderedCount(length: nat): nat {
    if length > 0 then length else 1
  }

  /** The rendered slides: the slides themselves, or the one placeholder when there are none. */
  function Rendered(basePath: string, slides: seq<Slide>): (r: seq<Slide>)
    ensures |r| == RenderedCount(|slides|)
    ensures |slides| > 0 ==> r == slides
    ensures |slides| == 0 ==> r == [Placeholder(basePath)]
  {
    if |slides| > 0 then slides else [Placeholder(basePath)]
  }

  /** For each rendered slide, whether `idx === currentSlide` marks it active. */
  function ActiveMarks(count: nat, current: nat): seq<bool> {
    seq(count, idx => idx == current)
  }

  /** The number of marked entries. */
  function CountMarked(marks: seq<bool>): nat {
    if |marks| == 0 then 0
    else CountMarked(marks[..|marks| - 1]) + (if marks[|marks| - 1] then 1 else 0)
  }

  /** Exactly one rendered slide is active when the index is in range, and none otherwise. */
  lemma {:induction false} ExactlyOneActive(count: nat, current: nat)
    ensures CountMarked(ActiveMarks(count, current)) == if current < count then 1 else 0
  {
    if count > 0 {
      assert ActiveMarks(count, current)[..count - 1] == ActiveMarks(count - 1, current);
      ExactlyOneActive(count - 1, current);
    }
  }

  /** The interval tick: (s + 1) % slides.length; the interval only runs while there are slides. */
  function Advance(current: nat, length: nat): (r: nat)
    ensures length > 0 ==> r < length
    ensures length == 0 ==> r == current
  {
    if length > 0 then (current + 1) % length else current
  }

  /** The index after k ticks. */
  function AdvanceTimes(current: nat, length: nat, k: nat): nat {
    if k == 0 then current else Advance(AdvanceTimes(current, length, k - 1), length)
  }

  /** One tick from an index in range moves to the next index, or from the last back to 0. */
  lemma AdvanceInRange(current: nat, length: nat)
    requires current < length
    ensures Advance(current, length) == if current + 1 < length then current + 1 else 0
  {
  }

  /** Within one round, k ticks move the index k places, wrapping once past the last slide. */
  lemma {:induction false} AdvanceTimesWithinRound(current: nat, length: nat, k: nat)
    requires current < length && k <= length
    ensures AdvanceTimes(current, length, k)
         == if current + k < length then current + k else current + k - length
  {
    if k > 0 {
      AdvanceTimesWithinRound(current, length, k - 1);
      AdvanceInRange(AdvanceTimes(current, length, k - 1), length);
    }
  }

  /** A full round of ticks returns to the starting slide. */
  lemma FullRound(current: nat, length: nat)
    requires current < length
    ensures AdvanceTimes(current, length, length) == current
  {
    AdvanceTimesWithinRound(current, length, length);
  }

  /** Starting from the first slide, fewer ticks than there are slides reach each slide in turn. */
  lemma TicksVisitInOrder(length: nat, k: nat)
    requires k < length
    ensures AdvanceTimes(0, length, k) == k
  {
    AdvanceTimesWithinRound(0, length, k);
  }

  /** a ticks and then b ticks are a + b ticks. */
  lemma {:induction false} AdvanceTimesAdd(current: nat, length: nat, a: nat, b: nat)
    ensures AdvanceTimes(AdvanceTimes(current, length, a), length, b) == AdvanceTimes(current, length, a + b)
  {
    if b > 0 {
      AdvanceTimesAdd(current, length, a, b - 1);
    }
  }

  /** The rotation is periodic: the slide shown after k ticks is shown again length ticks later. */
  lemma RotationPeriodic(current: nat, length: nat, k: nat)
    requires current < length
    ensures AdvanceTimes(current, length, k + length) == AdvanceTimes(current, length, k)
  {
    AdvanceTimesAdd(current, length, length, k);
    FullRound(current, length);
    assert length + k == k + length;
  }

  /** The banner's state in one page session. */
  class Banner {
    var slides: seq<Slide>
    var currentSlide: nat

    /** The index names a rendered slide. */
    ghost predicate Valid()
      reads this
    {
      currentSlide < RenderedCount(|slides|)
    }

    /** useState([]) and useState(0). */
    constructor ()
      ensures Valid()
      ensures slides == [] && currentSlide == 0
    {
      slides := [];
      currentSlide := 0;
    }

    /** One firing of the 4.5-second interval. */
    method Tick()
      requires Valid()
      modifies this
      ensures Valid()
      ensures slides == old(slides)
      ensures currentSlide == Advance(old(currentSlide), |slides|)
    {
      if |slides| > 0 {
        currentSlide := (currentSlide + 1) % |slides|;
      }
    }

    /** setSlides, followed by the effect that resets the index when the length changed. */
    method SetSlides(newSlides: seq<Slide>)
      requires Valid()
      modifies this
      ensures Valid()
      ensures slides == newSlides
      ensures currentSlide == if |newSlides| != |old(slides)| then 0 else old(currentSlide)
    {
      var lengthChanged := |newSlides| != |slides|;
      slides := newSlides;
      if lengthChanged {
        currentSlide := 0;
      }
    }

    /** A click on dot idx; dots exist only for the rendered slides. */
    method Select(idx: nat)
      requires Valid()
      requires idx < RenderedCount(|slides|)
      modifies this
      ensures Valid()
      ensures slides == old(slides) && currentSlide == idx
    {
      currentSlide := idx;
    }

    /** For each rendered slide, whether it is marked active. */
    function Marks(): seq<bool>
      reads this
    {
      ActiveMarks(RenderedCount(|slides|), currentSlide)
    }
  }

  /** In every reachable state of the banner exactly one rendered slide is active. */
  lemma OneActiveInValidState(b: Banner)
    requires b.Valid()
    ensures CountMarked(b.Marks()) == 1
  {
    ExactlyOneActive(RenderedCount(|b.slides|), b.currentSlide);
  }

  /** The dots line up with the rendered slides: one dot per rendered slide, the dot of the
      current slide is the only one marked active, and the current slide is a slide from the
      list when there is one and the placeholder otherwise. */
  lemma RenderedActive(basePath: string, b: Banner)
    requires b.Valid()
    ensures |b.Marks()| == |Rendered(basePath, b.slides)|
    ensures b.Marks()[b.currentSlide]
    ensures forall i :: 0 <= i < |b.Marks()| ==> (b.Marks()[i] <==> i == b.currentSlide)
    ensures Rendered(basePath, b.slides)[b.currentSlide]
            == if |b.slides| > 0 then b.slides[b.currentSlide] else Placeholder(basePath)
  {
  }
}
