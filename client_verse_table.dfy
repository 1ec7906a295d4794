/** The verse grid beside a verse (client/src/Components/Chapters/VerseTable.js): one
    link per verse of the chapter, the "completed" mark of each, the whole-chapter
    indicator and its toggle button. */
module VerseTable {
  import opened Wrappers
  import opened Text
  import opened JsValues
  import opened ProgressMap
  import ProgressRoutes
  import ServerModels
  import ClientRequests
  import Shlok
  import ChapterPage
  import VersePage

  /** `progressMap[v.verse_number]` read as a flag. */
  predicate VerseMarked(m: ProgressMap, v: Shlok.ChapterVerse)
  {
    IsCompleted(m, JsToString(v.verse_number))
  }

  /** isChapterCompleted: false for a missing or empty verse list, otherwise every
      verse is marked. */
  predicate IsChapterCompleted(verses: Option<seq<Shlok.ChapterVerse>>, m: ProgressMap)
  {
    verses.Some? && |verses.value| > 0 && forall i :: 0 <= i < |verses.value| ==> VerseMarked(m, verses.value[i])
  }

  /** The grid and the props of the verse cards read the same flags when every verse
      number is truthy; so the chapter shows completed exactly when every card whose
      state follows its prop does. */
  lemma TableAgreesWithCards(items: seq<Shlok.ChapterVerse>, m: ProgressMap)
    requires forall i :: 0 <= i < |items| ==> Truthy(items[i].verse_number)
    ensures IsChapterCompleted(Some(items), m)
            <==> |items| > 0 && forall i :: 0 <= i < |items| ==> ChapterPage.ShownCompleted(m, items[i])
    ensures forall c: ChapterPage.Cards :: c.items == items && ChapterPage.InSync(c, m) ==>
              (IsChapterCompleted(Some(items), m) <==> |items| > 0 && forall i :: 0 <= i < |items| ==> c.flags[i])
  {
    forall i | 0 <= i < |items| ensures VerseMarked(m, items[i]) == ChapterPage.ShownCompleted(m, items[i]) {
      assert Or(items[i].verse_number, items[i].verse) == items[i].verse_number;
    }
  }

  /** The verses of a chapter as the catalog lists them: one item per catalog verse, in
      catalog order, numbered like it; the numbers are non-zero and distinct. */
  predicate NumberedLikeCatalog(gita: seq<ProgressRoutes.CatalogVerse>, ch: int, items: seq<Shlok.ChapterVerse>)
  {
    var ids := ProgressRoutes.VerseIdsForChapter(gita, Finite(ch));
    |items| == |ids|
    && (forall i :: 0 <= i < |ids| ==> ids[i] != 0 && items[i].verse_number == Num(ids[i]))
    && (forall i, j :: 0 <= i < j < |ids| ==> ids[i] != ids[j])
  }

  /** With the map built from the detail route, the grid shows the chapter completed
      exactly when the store holds every catalog verse of it as completed. */
  lemma TableShowsStoredChapter(gita: seq<ProgressRoutes.CatalogVerse>, docs: seq<ServerModels.ProgressDoc>,
                                userId: nat, ch: int, items: seq<Shlok.ChapterVerse>)
    requires NumberedLikeCatalog(gita, ch, items)
    ensures var ids := ProgressRoutes.VerseIdsForChapter(gita, Finite(ch));
            var m := ProgressOf(SeenDetail(ProgressRoutes.Detail(ch, ProgressRoutes.DetailList(gita, docs, userId, ch))));
            IsChapterCompleted(Some(items), m)
            <==> |ids| > 0 && forall i :: 0 <= i < |ids| ==> ProgressRoutes.StatusOf(docs, userId, ch, ids[i]).completed
  {
    var ids := ProgressRoutes.VerseIdsForChapter(gita, Finite(ch));
    var m := ProgressOf(SeenDetail(ProgressRoutes.Detail(ch, ProgressRoutes.DetailList(gita, docs, userId, ch))));
    forall i | 0 <= i < |ids|
      ensures VerseMarked(m, items[i]) == ProgressRoutes.StatusOf(docs, userId, ch, ids[i]).completed
    {
      ChapterPage.CardShowsStoredState(gita, docs, userId, ch, i, items[i]);
      assert Or(items[i].verse_number, items[i].verse) == items[i].verse_number;
    }
  }

  /** handleToggle: nothing without a callback, otherwise the negation of the current
      indicator. */
  function HandleToggle(hasCallback: bool, verses: Option<seq<Shlok.ChapterVerse>>, m: ProgressMap): (mark: Option<bool>)
    ensures mark.Some? <==> hasCallback
    ensures mark.Some? ==> (mark.value <==> !IsChapterCompleted(verses, m))
  {
    if hasCallback then Some(!IsChapterCompleted(verses, m)) else None
  }

  /** The mark the button asks for, once the server has stored it for every catalog verse
      of the chapter and the page has refetched, flips the indicator. */
  lemma ToggleFlipsTable(gita: seq<ProgressRoutes.CatalogVerse>, docs: seq<ServerModels.ProgressDoc>,
                         userId: nat, ch: int, items: seq<Shlok.ChapterVerse>, nowMs: int)
    requires ServerModels.ProgressKeysUnique(docs)
    requires NumberedLikeCatalog(gita, ch, items) && |items| > 0
    ensures var before := ProgressOf(SeenDetail(ProgressRoutes.Detail(ch, ProgressRoutes.DetailList(gita, docs, userId, ch))));
            var mark := HandleToggle(true, Some(items), before).value;
            var body := ClientRequests.ChapterPayload(Finite(ch), mark);
            var after := ProgressRoutes.UpsertAll(docs, userId, ch, ProgressRoutes.Values(ProgressRoutes.Targets(gita, body)), mark, nowMs);
            var shown := ProgressOf(SeenDetail(ProgressRoutes.Detail(ch, ProgressRoutes.DetailList(gita, after, userId, ch))));
            IsChapterCompleted(Some(items), shown) == !IsChapterCompleted(Some(items), before)
  {
    var ids := ProgressRoutes.VerseIdsForChapter(gita, Finite(ch));
    var before := ProgressOf(SeenDetail(ProgressRoutes.Detail(ch, ProgressRoutes.DetailList(gita, docs, userId, ch))));
    var mark := HandleToggle(true, Some(items), before).value;
    var body := ClientRequests.ChapterPayload(Finite(ch), mark);
    var targets := ProgressRoutes.Values(ProgressRoutes.Targets(gita, body));
    assert targets == ids;
    var after := ProgressRoutes.UpsertAll(docs, userId, ch, targets, mark, nowMs);
    forall i | 0 <= i < |ids| ensures ProgressRoutes.StatusOf(after, userId, ch, ids[i]).completed == mark {
      ProgressRoutes.UpsertAllEffect(docs, userId, ch, targets, mark, nowMs, userId, ch, ids[i]);
    }
    TableShowsStoredChapter(gita, after, userId, ch, items);
  }

  /** As written, the whole-chapter toggle leaves the grid and the cards disagreeing:
      after the mark is stored and the map refetched the grid flips, while every card
      mounted before keeps the flag it started with. */
  lemma AsWrittenCardsMissChapterToggle(gita: seq<ProgressRoutes.CatalogVerse>, docs: seq<ServerModels.ProgressDoc>,
                                        userId: nat, ch: int, items: seq<Shlok.ChapterVerse>, nowMs: int)
    requires ServerModels.ProgressKeysUnique(docs)
    requires NumberedLikeCatalog(gita, ch, items) && |items| > 0
    ensures var before := ProgressOf(SeenDetail(ProgressRoutes.Detail(ch, ProgressRoutes.DetailList(gita, docs, userId, ch))));
            var mark := HandleToggle(true, Some(items), before).value;
            var body := ClientRequests.ChapterPayload(Finite(ch), mark);
            var after := ProgressRoutes.UpsertAll(docs, userId, ch, ProgressRoutes.Values(ProgressRoutes.Targets(gita, body)), mark, nowMs);
            var shown := ProgressOf(SeenDetail(ProgressRoutes.Detail(ch, ProgressRoutes.DetailList(gita, after, userId, ch))));
            var cards := ChapterPage.FollowAsWritten(ChapterPage.Mount(before, items), shown);
            IsChapterCompleted(Some(items), shown) != (forall i :: 0 <= i < |items| ==> cards.flags[i])
  {
    var before := ProgressOf(SeenDetail(ProgressRoutes.Detail(ch, ProgressRoutes.DetailList(gita, docs, userId, ch))));
    var mark := HandleToggle(true, Some(items), before).value;
    var body := ClientRequests.ChapterPayload(Finite(ch), mark);
    var after := ProgressRoutes.UpsertAll(docs, userId, ch, ProgressRoutes.Values(ProgressRoutes.Targets(gita, body)), mark, nowMs);
    var shown := ProgressOf(SeenDetail(ProgressRoutes.Detail(ch, ProgressRoutes.DetailList(gita, after, userId, ch))));
    ToggleFlipsTable(gita, docs, userId, ch, items, nowMs);
    NumberedTruthy(gita, ch, items);
    CardsAfterFlip(items, before, shown);
  }

  /** With cards that take every new prop, the grid and the cards agree after the
      toggle, both showing the flipped state. */
  lemma CorrectedCardsFollowChapterToggle(gita: seq<ProgressRoutes.CatalogVerse>, docs: seq<ServerModels.ProgressDoc>,
                                          userId: nat, ch: int, items: seq<Shlok.ChapterVerse>, nowMs: int)
    requires ServerModels.ProgressKeysUnique(docs)
    requires NumberedLikeCatalog(gita, ch, items) && |items| > 0
    ensures var before := ProgressOf(SeenDetail(ProgressRoutes.Detail(ch, ProgressRoutes.DetailList(gita, docs, userId, ch))));
            var mark := HandleToggle(true, Some(items), before).value;
            var body := ClientRequests.ChapterPayload(Finite(ch), mark);
            var after := ProgressRoutes.UpsertAll(docs, userId, ch, ProgressRoutes.Values(ProgressRoutes.Targets(gita, body)), mark, nowMs);
            var shown := ProgressOf(SeenDetail(ProgressRoutes.Detail(ch, ProgressRoutes.DetailList(gita, after, userId, ch))));
            var cards := ChapterPage.Follow(ChapterPage.Mount(before, items), shown);
            IsChapterCompleted(Some(items), shown) == (forall i :: 0 <= i < |items| ==> cards.flags[i])
            && IsChapterCompleted(Some(items), shown) == !IsChapterCompleted(Some(items), before)
  {
    var before := ProgressOf(SeenDetail(ProgressRoutes.Detail(ch, ProgressRoutes.DetailList(gita, docs, userId, ch))));
    var mark := HandleToggle(true, Some(items), before).value;
    var body := ClientRequests.ChapterPayload(Finite(ch), mark);
    var after := ProgressRoutes.UpsertAll(docs, userId, ch, ProgressRoutes.Values(ProgressRoutes.Targets(gita, body)), mark, nowMs);
    var shown := ProgressOf(SeenDetail(ProgressRoutes.Detail(ch, ProgressRoutes.DetailList(gita, after, userId, ch))));
    ToggleFlipsTable(gita, docs, userId, ch, items, nowMs);
    NumberedTruthy(gita, ch, items);
    CardsAfterFlip(items, before, shown);
  }

  /** When a new map flips the grid, the cards that keep their mount-time flags show the
      old state and the cards that follow their props show the new one. */
  lemma CardsAfterFlip(items: seq<Shlok.ChapterVerse>, before: ProgressMap, shown: ProgressMap)
    requires forall i :: 0 <= i < |items| ==> Truthy(items[i].verse_number)
    requires |items| > 0 && IsChapterCompleted(Some(items), shown) == !IsChapterCompleted(Some(items), before)
    ensures var mounted := ChapterPage.Mount(before, items);
            IsChapterCompleted(Some(items), shown) != (forall i :: 0 <= i < |items| ==> ChapterPage.FollowAsWritten(mounted, shown).flags[i])
            && IsChapterCompleted(Some(items), shown) == (forall i :: 0 <= i < |items| ==> ChapterPage.Follow(mounted, shown).flags[i])
  {
    var mounted := ChapterPage.Mount(before, items);
    var kept, followed := ChapterPage.FollowAsWritten(mounted, shown), ChapterPage.Follow(mounted, shown);
    TableAgreesWithCards(items, before);
    TableAgreesWithCards(items, shown);
    assert kept.items == items && ChapterPage.InSync(kept, before);
    assert followed.items == items && ChapterPage.InSync(followed, shown);
  }

  /** Numbers taken from the catalog are non-zero, hence truthy. */
  lemma NumberedTruthy(gita: seq<ProgressRoutes.CatalogVerse>, ch: int, items: seq<Shlok.ChapterVerse>)
    requires NumberedLikeCatalog(gita, ch, items)
    ensures forall i :: 0 <= i < |items| ==> Truthy(items[i].verse_number)
  {
  }

  /** The link of the verse at position `index` leads to verse index+1. */
  function LinkTarget(id: string, index: nat): (path: string)
    ensures var prefix := "/chapter/" + id + "/slok/"; prefix <= path && Active(path[|prefix|..], index)
  {
    "/chapter/" + id + "/slok/" + NatToString(index + 1)
  }

  /** The link at `index` is highlighted when the route's verse is `String(index + 1)`. */
  predicate Active(sh: string, index: nat)
  {
    sh == NatToString(index + 1)
  }

  /** At most one link is highlighted, and on the page a link leads to it is exactly
      that link. */
  lemma ActiveLinkUnique(sh: string, i: nat, j: nat)
    ensures Active(sh, i) && Active(sh, j) ==> i == j
    ensures Active(NatToString(i + 1), j) <==> i == j
  {
    if Active(sh, i) && Active(sh, j) {
      NatToStringInjective(i + 1, j + 1);
    }
    if Active(NatToString(i + 1), j) {
      NatToStringInjective(i + 1, j + 1);
    }
  }

  /** The verse page a link opens reads its own flag at the key under which the grid
      reads the verse numbered index+1. */
  lemma LinkedPageReadsSameKey(index: nat)
    ensures VersePage.VerseKeyOf(NatToString(index + 1)) == JsToString(Num(index + 1))
  {
    IntToStringToNumber(index + 1);
  }
}
