/**
 * The onboarding carousel of client/src/components/pages/Welcome.jsx: five
 * slides, a current index moved by next/previous/dot buttons, and the last
 * slide's "complete" button in place of "next".
 */
module Welcome {

  /** A slide as far as navigation is concerned. */
  datatype Slide = Slide(id: nat, isLast: bool)

  const Slides: seq<Slide> := [Slide(1, false), Slide(2, false), Slide(3, false), Slide(4, false), Slide(5, true)]

  /** Only the final slide is marked `isLast`. */
  lemma OnlyFinalSlideIsLast(i: int)
    requires 0 <= i < |Slides|
    ensures Slides[i].isLast <==> i == |Slides| - 1
  {
  }

  class Carousel {
    var currentSlide: int
    var isVisible: bool

    /** The index names an existing slide. */
    predicate Valid()
      reads this
    {
      0 <= currentSlide < |Slides|
    }

    constructor ()
      ensures Valid() && currentSlide == 0 && isVisible
    {
      currentSlide := 0;
      isVisible := true;
    }

    /** The button shown on the right: complete on a slide marked `isLast`, next otherwise. */
    predicate ShowsComplete()
      reads this
      requires Valid()
    {
      Slides[currentSlide].isLast
    }

    /** `disabled={currentSlide === 0}` on the previous button. */
    predicate PrevDisabled()
      reads this
    {
      currentSlide == 0
    }

    /** `nextSlide`: one slide on, unless this is the last one. */
    method NextSlide()
      requires Valid()
      modifies this
      ensures Valid() && isVisible == old(isVisible)
      ensures currentSlide == if old(currentSlide) < |Slides| - 1 then old(currentSlide) + 1 else old(currentSlide)
    {
      if currentSlide < |Slides| - 1 {
        currentSlide := currentSlide + 1;
      }
    }

    /** `prevSlide`: one slide back, unless this is the first one. */
    method PrevSlide()
      requires Valid()
      modifies this
      ensures Valid() && isVisible == old(isVisible)
      ensures currentSlide == if old(currentSlide) > 0 then old(currentSlide) - 1 else old(currentSlide)
      ensures old(PrevDisabled()) ==> currentSlide == old(currentSlide)
    {
      if currentSlide > 0 {
        currentSlide := currentSlide - 1;
      }
    }

    /** `goToSlide(index)`, which the dots call with their own index only. */
    method GoToSlide(index: int)
      requires Valid() && 0 <= index < |Slides|
      modifies this
      ensures Valid() && currentSlide == index && isVisible == old(isVisible)
    {
      currentSlide := index;
    }

    /** `handleComplete`: the carousel hides; the stored flag and the callback run later and are not modelled. */
    method Complete()
      requires Valid()
      modifies this
      ensures Valid() && !isVisible && currentSlide == old(currentSlide)
    {
      isVisible := false;
    }

    /** Complete is offered exactly on the final slide. */
    lemma ShowsCompleteOnFinal()
      requires Valid()
      ensures ShowsComplete() <==> currentSlide == |Slides| - 1
    {
      OnlyFinalSlideIsLast(currentSlide);
    }
  }
}
