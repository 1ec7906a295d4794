/** The guided tour over the japa page (client/src/Components/Layouts/JapaTour.js): six
    steps walked through with a Next button, a short animation between steps, a
    blessing after the last one, the progress dots and label, and the highlight box
    around the element a step points at. The two delayed callbacks of `handleNext`
    (400 ms to the next step, 2000 ms to `onComplete`) are a pending timer that fires
    as a separate event. */
module JapaTour {
  import opened Wrappers
  import opened Text

  /** Where a step's message box is placed. */
  datatype Position = Center | Right | Top | TopLeft

  /** The `position` of each of the six steps, in order. */
  const StepPositions: seq<Position> := [Center, Right, Right, Top, TopLeft, Center]

  /** `tourSteps.length` */
  const StepCount: nat := 6

  /** The callback `handleNext` left behind, if any. */
  datatype Timer = NoTimer | Advance | Finish

  datatype Tour = Tour(step: nat, isAnimating: bool, showBlessing: bool, timer: Timer)

  const InitialTour := Tour(0, false, false, NoTimer)

  /** The states the tour can reach: the step is one of the six, an advance is pending
      only before the last step and a finish only on it, with the blessing shown. */
  predicate Inv(t: Tour)
  {
    t.step < StepCount
    && (t.timer != NoTimer ==> t.isAnimating)
    && (t.timer == Advance ==> t.step < StepCount - 1 && !t.showBlessing)
    && (t.timer == Finish ==> t.step == StepCount - 1 && t.showBlessing)
    && (t.showBlessing ==> t.step == StepCount - 1 && t.isAnimating)
  }

  /** `step === tourSteps.length - 1` */
  predicate IsLastStep(t: Tour)
  {
    t.step == StepCount - 1
  }

  /** handleNext; the button is disabled while animating, so a press then does nothing. */
  function Next(t: Tour): (t': Tour)
    ensures t.isAnimating ==> t' == t
    ensures !t.isAnimating ==> t'.isAnimating && t'.step == t.step
    ensures !t.isAnimating && IsLastStep(t) ==> t'.showBlessing && t'.timer == Finish
    ensures !t.isAnimating && !IsLastStep(t) ==> t'.showBlessing == t.showBlessing && t'.timer == Advance
  {
    if t.isAnimating then t
    else if IsLastStep(t) then t.(isAnimating := true, showBlessing := true, timer := Finish)
    else t.(isAnimating := true, timer := Advance)
  }

  /** The pending callback fires: an advance moves to the next step and ends the
      animation; a finish calls `onComplete` (the second component). */
  function Fire(t: Tour): (r: (Tour, bool))
    ensures t.timer == Advance ==> r.0 == Tour(t.step + 1, false, t.showBlessing, NoTimer) && !r.1
    ensures t.timer == Finish ==> r.0 == t.(timer := NoTimer) && r.1
    ensures t.timer == NoTimer ==> r == (t, false)
  {
    match t.timer
    case NoTimer => (t, false)
    case Advance => (Tour(t.step + 1, false, t.showBlessing, NoTimer), false)
    case Finish => (t.(timer := NoTimer), true)
  }

  /** Both events keep the tour inside its six steps, so `tourSteps[step]` always exists. */
  lemma InvPreserved(t: Tour)
    requires Inv(t)
    ensures Inv(Next(t)) && Inv(Fire(t).0)
    ensures Inv(InitialTour)
  {
  }

  /** n presses of Next, each followed by its timer. */
  function Walk(n: nat): Tour
  {
    if n == 0 then InitialTour else Fire(Next(Walk(n - 1))).0
  }

  /** The walk visits the steps in order, resting on each... */
  lemma {:induction false} WalkVisitsSteps(n: nat)
    requires n < StepCount
    ensures Walk(n) == Tour(n, false, false, NoTimer)
  {
    if n > 0 {
      WalkVisitsSteps(n - 1);
      assert Next(Walk(n - 1)) == Tour(n - 1, true, false, Advance);
    }
  }

  /** ... without calling `onComplete` before the last step... */
  lemma NoEarlyCompletion(k: nat)
    requires k < StepCount - 1
    ensures !Fire(Next(Walk(k))).1
  {
    WalkVisitsSteps(k);
  }

  /** ... and the sixth press shows the blessing and completes the tour, on the last step. */
  lemma WalkCompletes()
    ensures var last := Next(Walk(StepCount - 1));
            last.showBlessing && last.step == StepCount - 1 && Fire(last).1
  {
    WalkVisitsSteps(StepCount - 1);
  }

  /** The classes of dot i: active and completed. */
  function Dot(step: nat, i: nat): (r: (bool, bool))
    ensures r.0 <==> i == step
    ensures r.1 <==> i < step
  {
    (i == step, i < step)
  }

  /** Exactly one dot is active, no dot is both, and the completed ones are those before it. */
  lemma DotsClassify(t: Tour)
    requires Inv(t)
    ensures Dot(t.step, t.step).0
    ensures forall i :: 0 <= i < StepCount && Dot(t.step, i).0 ==> i == t.step
    ensures forall i :: 0 <= i < StepCount ==> !(Dot(t.step, i).0 && Dot(t.step, i).1)
    ensures |set i | 0 <= i < StepCount && Dot(t.step, i).0| == 1
  {
    assert (set i | 0 <= i < StepCount && Dot(t.step, i).0) == {t.step};
  }

  /** `{step + 1}/{tourSteps.length}` */
  function Label(step: nat): string
  {
    NatToString(step + 1) + "/" + NatToString(StepCount)
  }

  /** The label of each step is its one-based number over 6: three characters, "1/6" to
      "6/6". */
  lemma LabelShape(t: Tour)
    requires Inv(t)
    ensures Label(t.step) == [DigitChar(t.step + 1)] + "/6" && |Label(t.step)| == 3
  {
  }

  /** A rectangle the browser reports, in pixels. */
  datatype Rect = Rect(top: real, left: real, width: real, height: real)

  /** The highlight: a zero-size box in the middle of the screen for a centred step or a
      missing element, otherwise the element's rectangle grown by the padding. */
  datatype Highlight = Centered | Around(box: Rect)

  const Padding: real := 20.0

  function HighlightFor(position: Position, target: Option<Rect>): (h: Highlight)
    ensures (position == Center || target.None?) <==> h.Centered?
  {
    if position == Center || target.None? then Centered
    else
      var r := target.value;
      Around(Rect(r.top - Padding, r.left - Padding, r.width + 2.0 * Padding, r.height + 2.0 * Padding))
  }

  /** The first and the last step point at nothing in particular: their box is centred. */
  lemma EndStepsCentred(target: Option<Rect>)
    ensures |StepPositions| == StepCount
    ensures HighlightFor(StepPositions[0], target).Centered? && HighlightFor(StepPositions[StepCount - 1], target).Centered?
  {
  }

  /** The box surrounds the element with 20 px to spare on every side. */
  lemma HighlightSurrounds(position: Position, r: Rect)
    requires position != Center
    ensures var b := HighlightFor(position, Some(r)).box;
            b.top + Padding == r.top && b.left + Padding == r.left
            && b.top + b.height == r.top + r.height + Padding
            && b.left + b.width == r.left + r.width + Padding
  {
  }

  class TourState {
    var step: nat
    var isAnimating: bool
    var showBlessing: bool
    var timer: Timer

    function State(): Tour
      reads this
    {
      Tour(step, isAnimating, showBlessing, timer)
    }

    constructor ()
      ensures State() == InitialTour
    {
      step := 0;
      isAnimating := false;
      showBlessing := false;
      timer := NoTimer;
    }

    /** handleNext */
    method HandleNext()
      modifies this
      ensures State() == Next(old(State()))
    {
      if isAnimating {
        return;
      }
      isAnimating := true;
      if step == StepCount - 1 {
        showBlessing := true;
        timer := Finish;
      } else {
        timer := Advance;
      }
    }

    /** The pending timeout fires; returns whether `onComplete` was called. */
    method TimerFires() returns (completed: bool)
      modifies this
      ensures (State(), completed) == Fire(old(State()))
    {
      completed := false;
      if timer == Advance {
        step := step + 1;
        isAnimating := false;
      } else if timer == Finish {
        completed := true;
      }
      timer := NoTimer;
    }
  }
}
