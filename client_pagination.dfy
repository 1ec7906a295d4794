/** The "show more / show less" paging of the chapter grid, in its two versions:
    client/src/Components/Chapters/Chapters.js reads the chapter list from the shared
    context on every render and keeps only the visible count; client/src/Components/Chapters.js
    copies the list into its own state and resets the count whenever the list changes. */
module Pagination {
  import opened Wrappers

  /** PER_PAGE */
  const PerPage: nat := 6

  function Min(a: nat, b: nat): nat
  {
    if a <= b then a else b
  }

  /** `Math.min(old + PER_PAGE, length)` */
  function More(visible: nat, length: nat): (next: nat)
    ensures next <= length
    ensures visible < length ==> visible < next && next - visible <= PerPage
    ensures next == length || next == visible + PerPage
  {
    Min(visible + PerPage, length)
  }

  /** `allVisible` */
  predicate AllVisible(visible: nat, length: nat)
  {
    visible >= length
  }

  /** The controls are rendered only for more than PER_PAGE chapters. */
  predicate ControlsShown(length: nat)
  {
    length > PerPage
  }

  /** `items.slice(0, visibleCount)` */
  function Shown<T>(items: seq<T>, visible: nat): (s: seq<T>)
    ensures |s| == Min(visible, |items|)
    ensures forall i :: 0 <= i < |s| ==> s[i] == items[i]
  {
    items[..Min(visible, |items|)]
  }

  /** The count after k presses of "Show more". */
  function MoreTimes(visible: nat, length: nat, k: nat): nat
  {
    if k == 0 then visible else More(MoreTimes(visible, length, k - 1), length)
  }

  /** From a count within the list, k presses reveal PER_PAGE·k more chapters, never more
      than the list has. */
  lemma {:induction false} MoreTimesValue(visible: nat, length: nat, k: nat)
    requires visible <= length
    ensures MoreTimes(visible, length, k) == Min(visible + PerPage * k, length)
  {
    if k > 0 {
      MoreTimesValue(visible, length, k - 1);
    }
  }

  /** Pressing "Show more" ⌈(length − visible)/PER_PAGE⌉ times shows every chapter. */
  lemma EventuallyAllVisible(visible: nat, length: nat)
    requires visible <= length
    ensures AllVisible(MoreTimes(visible, length, (length - visible + PerPage - 1) / PerPage), length)
  {
    var k := (length - visible + PerPage - 1) / PerPage;
    MoreTimesValue(visible, length, k);
    assert PerPage * k >= length - visible;
  }

  /** The controls appear exactly when the first page does not already show every chapter. */
  lemma ControlsOnlyWhenPaged(length: nat)
    ensures ControlsShown(length) <==> !AllVisible(PerPage, length)
  {
  }

  /** "Show more" only adds chapters after those already shown. */
  lemma MoreExtendsShown<T>(items: seq<T>, visible: nat)
    ensures Shown(items, visible) <= Shown(items, More(visible, |items|))
  {
  }

  /** The grid of client/src/Components/Chapters/Chapters.js: only the count is state;
      `length` is the length of `chapter || []` at the time of the press. */
  class ChapterGrid {
    var visibleCount: nat

    constructor ()
      ensures visibleCount == PerPage
    {
      visibleCount := PerPage;
    }

    /** showMore */
    method ShowMore(length: nat)
      modifies this
      ensures visibleCount == More(old(visibleCount), length)
    {
      var previous := visibleCount;
      visibleCount := Min(previous + PerPage, length);
    }

    /** showLess */
    method ShowLess()
      modifies this
      ensures visibleCount == PerPage
    {
      visibleCount := PerPage;
    }
  }

  /** The grid of client/src/Components/Chapters.js, which owns a copy of the list. */
  class ChapterList<T> {
    var chapters: seq<T>
    var visibleCount: nat

    /** The count is PER_PAGE after a reset or a collapse, and only "Show more" changes
        it otherwise, to a multiple of PER_PAGE or to the length of the list. */
    predicate Valid()
      reads this
    {
      visibleCount == PerPage
      || (visibleCount <= |chapters| && (visibleCount % PerPage == 0 || visibleCount == |chapters|))
    }

    constructor ()
      ensures Valid() && chapters == [] && visibleCount == PerPage
    {
      chapters := [];
      visibleCount := PerPage;
    }

    /** The effect on a change of the context's list: copy it (or []) and reset the count. */
    method ChaptersChanged(chapter: Option<seq<T>>)
      modifies this
      ensures Valid()
      ensures chapters == (if chapter.Some? then chapter.value else []) && visibleCount == PerPage
    {
      chapters := if chapter.Some? then chapter.value else [];
      visibleCount := PerPage;
    }

    /** showMore */
    method ShowMore()
      requires Valid()
      modifies this
      ensures Valid()
      ensures chapters == old(chapters) && visibleCount == More(old(visibleCount), |chapters|)
    {
      var previous := visibleCount;
      visibleCount := Min(previous + PerPage, |chapters|);
    }

    /** showLess */
    method ShowLess()
      requires Valid()
      modifies this
      ensures Valid()
      ensures chapters == old(chapters) && visibleCount == PerPage
    {
      visibleCount := PerPage;
    }

    function AllChaptersVisible(): (b: bool)
      reads this
      ensures b <==> AllVisible(visibleCount, |chapters|)
    {
      visibleCount >= |chapters|
    }

    /** The cards rendered: never more than the list, and past the first page never
        more than the count. */
    function ShownChapters(): (s: seq<T>)
      reads this
      requires Valid()
      ensures s == Shown(chapters, visibleCount)
      ensures visibleCount != PerPage ==> |s| == visibleCount
    {
      Shown(chapters, visibleCount)
    }
  }
}
