/** The shared data context of the client (client/src/Context/Context.js): its initial
    state and the decisions its loaders take before talking to the server. What the
    reducer does with a dispatched action is not part of this model (the reducer's file
    is not part of it either); a loader is modelled by the request it issues, if any. */
module Context {
  import opened Wrappers
  import opened Text
  import opened JsValues
  import Shlok

  /** The parts of the context state the loaders look at or that the pages read first. */
  datatype ContextState = ContextState(
    DefaultLanguage: string,
    isLoading: bool, isChapterLoading: bool, isSingleLoading: bool, isVersesLoading: bool,
    isError: bool, isVerseLoading: bool, isSlokLoading: bool,
    chapter: Option<seq<Json>>,
    singleChapter: Option<Json>,
    chapterVerses: Option<seq<Shlok.ChapterVerse>>)

  /** `initialState`: English, every loading flag set, no error, empty collections and an
      empty chapter object (whose `chapter_number` is undefined). */
  function InitialContext(): (st: ContextState)
    ensures st.DefaultLanguage == "english" && !st.isError
    ensures st.isLoading && st.isChapterLoading && st.isSingleLoading && st.isVersesLoading
            && st.isVerseLoading && st.isSlokLoading
    ensures st.chapter == Some([]) && st.chapterVerses == Some([]) && st.singleChapter == Some(Undefined)
  {
    ContextState("english", true, true, true, true, false, true, true, Some([]), Some(Undefined), Some([]))
  }

  /** What a loader does: nothing, re-dispatch the chapters already held, or GET a path. */
  datatype LoaderStep = Skip | Redispatch | Get(path: string)

  /** `state.chapter && state.chapter.length > 0` */
  predicate ChaptersHeld(st: ContextState)
  {
    st.chapter.Some? && |st.chapter.value| > 0
  }

  /** fetchChapters: a non-empty list is never fetched again; it is only re-dispatched
      while its loading flag is still set. */
  function FetchChapters(st: ContextState): (step: LoaderStep)
    ensures ChaptersHeld(st) <==> !step.Get?
    ensures step == Redispatch <==> ChaptersHeld(st) && st.isChapterLoading
    ensures step.Get? ==> step.path == "/chapters"
  {
    if ChaptersHeld(st) then (if st.isChapterLoading then Redispatch else Skip)
    else Get("/chapters")
  }

  /** GetSingleChapter(chapterId): skipped when the loaded chapter's number, as a
      string, is the requested id. */
  function GetSingleChapter(st: ContextState, chapterId: string): (step: LoaderStep)
    ensures step.Skip? <==> st.singleChapter.Some? && JsToString(st.singleChapter.value) == chapterId
    ensures !step.Skip? ==> step == Get("/chapter/" + chapterId)
  {
    if st.singleChapter.Some? && JsToString(st.singleChapter.value) == chapterId then Skip
    else Get("/chapter/" + chapterId)
  }

  /** `url.split('/')[0]` */
  function ChapterIdOf(url: string): string
  {
    Split(url, "/")[0]
  }

  /** GetAllVerses(url): skipped when verses are loaded and the first one belongs to the
      chapter named before the first slash. */
  function GetAllVerses(st: ContextState, url: string): (step: LoaderStep)
    ensures step.Skip? <==> (st.chapterVerses.Some? && |st.chapterVerses.value| > 0
                             && JsToString(st.chapterVerses.value[0].chapter_number) == ChapterIdOf(url))
    ensures !step.Skip? ==> step == Get("/chapter/" + url)
  {
    if st.chapterVerses.Some? && |st.chapterVerses.value| > 0
       && JsToString(st.chapterVerses.value[0].chapter_number) == ChapterIdOf(url)
    then Skip
    else Get("/chapter/" + url)
  }

  /** GetVerse(url): always fetched, so a language change is always seen. */
  function GetVerse(st: ContextState, url: string): (step: LoaderStep)
    ensures step == Get("/chapter/" + url)
  {
    Get("/chapter/" + url)
  }

  /** The id in front of a slash is read back as it is, provided it has no slash itself. */
  lemma {:induction false} ChapterIdOfPath(id: string, rest: string)
    requires '/' !in id
    ensures ChapterIdOf(id + "/" + rest) == id
  {
    var s := id + "/" + rest;
    assert OccursAt(s, "/", |id|) by {
      CharOccurs(s, '/', |id|);
    }
    SplitFirst(s, "/");
    var parts := Split(s, "/");
    var head := parts[0];
    assert '/' !in head by {
      forall k | 0 <= k < |head| ensures head[k] != '/' {
        CharOccurs(head, '/', k);
      }
    }
    assert s == head + ['/'] + Join(parts[1..], "/");
    SeparatedInjective(head, Join(parts[1..], "/"), id, rest, '/');
  }

  /** The chapter page asks for `${id}/slok`. Once verses of chapter c (an integer) are
      loaded, that request is skipped exactly when the page is chapter c's own. */
  lemma VersesSkippedOnlyForSameChapter(st: ContextState, c: int, d: int)
    requires st.chapterVerses.Some? && |st.chapterVerses.value| > 0
    requires st.chapterVerses.value[0].chapter_number == Num(c)
    ensures GetAllVerses(st, IntToString(d) + "/slok").Skip? <==> c == d
  {
    IntToStringOnly(d, '/');
    assert IntToString(d) + "/slok" == IntToString(d) + "/" + "slok";
    ChapterIdOfPath(IntToString(d), "slok");
    assert ChapterIdOf(IntToString(d) + "/slok") == IntToString(d);
    assert JsToString(Num(c)) == IntToString(c);
    IntToStringInjective(c, d);
  }

  /** Likewise for the chapter itself with `${id}`. */
  lemma ChapterSkippedOnlyForSameChapter(st: ContextState, c: int, d: int)
    requires st.singleChapter == Some(Num(c))
    ensures GetSingleChapter(st, IntToString(d)).Skip? <==> c == d
  {
    IntToStringInjective(c, d);
  }

  /** The initial state holds nothing, so the first load of each kind is fetched. */
  lemma FirstLoadsFetch(url: string, d: int)
    ensures FetchChapters(InitialContext()).Get?
    ensures GetAllVerses(InitialContext(), url).Get?
    ensures GetSingleChapter(InitialContext(), IntToString(d)).Get?
  {
    IntToStringDigitsOrMinus(d);
  }
}
