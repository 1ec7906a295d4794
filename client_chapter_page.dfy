/** The chapter page (client/src/Pages/ChapterPage.js): the progress map of its verses,
    the verse cards with the flag each one keeps, and the whole-chapter toggle.

    A card receives `!!progressMap[...]` as its `isCompleted` prop but reads it only
    once, in `useState(!!initialCompleted)` (client/src/Components/Shlok.js:51); the
    cards are keyed by `item.id`, so a new map does not remount them. As written, a
    card therefore keeps the flag of the map it was mounted on (`FollowAsWritten`);
    the corrected card copies every new prop into its state (`Follow`). */
module ChapterPage {
  import opened Wrappers
  import opened JsValues
  import opened ClientRequests
  import opened ProgressMap
  import ProgressRoutes
  import ServerModels
  import Shlok

  /** The key a verse card's flag is read at: `progressMap[item.verse_number || item.verse]`. */
  function CompletedKey(item: Shlok.ChapterVerse): string
  {
    JsToString(Or(item.verse_number, item.verse))
  }

  /** `!!progressMap[item.verse_number || item.verse]` */
  predicate ShownCompleted(m: ProgressMap, item: Shlok.ChapterVerse)
  {
    IsCompleted(m, CompletedKey(item))
  }

  /** The cards on the page: the verses listed and the `completed` flag each card holds. */
  datatype Cards = Cards(items: seq<Shlok.ChapterVerse>, flags: seq<bool>)

  /** Every card shows what the map holds for its verse. */
  predicate InSync(c: Cards, m: ProgressMap)
  {
    |c.flags| == |c.items| && forall i :: 0 <= i < |c.items| ==> c.flags[i] == ShownCompleted(m, c.items[i])
  }

  /** The cards rendered once the verses are loaded, while the map is m: each starts
      from its prop. */
  function Mount(m: ProgressMap, items: seq<Shlok.ChapterVerse>): (c: Cards)
    ensures c.items == items && InSync(c, m)
  {
    Cards(items, seq(|items|, i requires 0 <= i < |items| => ShownCompleted(m, items[i])))
  }

  /** A new map as the mounted cards see it, as written: the prop changes, the state
      each card shows does not. */
  function FollowAsWritten(c: Cards, m: ProgressMap): (c': Cards)
    ensures c'.flags == c.flags && c'.items == c.items
  {
    c
  }

  /** A new map as the corrected cards see it: each card takes its new prop. */
  function Follow(c: Cards, m: ProgressMap): (c': Cards)
    ensures c'.items == c.items && InSync(c', m)
  {
    Mount(m, c.items)
  }

  /** The prop of a verse card numbered like the catalog, and so the flag of a card
      mounted or brought in line after the reply, is the state the store holds for that
      verse: detail route, map builder and read key fit together. The catalog must not
      list the verse again later in the chapter, and verse 0 is falsy and skipped. */
  lemma CardShowsStoredState(gita: seq<ProgressRoutes.CatalogVerse>, docs: seq<ServerModels.ProgressDoc>,
                             userId: nat, ch: int, i: nat, item: Shlok.ChapterVerse)
    requires var ids := ProgressRoutes.VerseIdsForChapter(gita, Finite(ch));
             i < |ids| && ids[i] != 0 && forall j :: i < j < |ids| ==> ids[j] != ids[i]
    requires item.verse_number == Num(ProgressRoutes.VerseIdsForChapter(gita, Finite(ch))[i])
    ensures var list := ProgressRoutes.DetailList(gita, docs, userId, ch);
            ShownCompleted(ProgressOf(SeenDetail(ProgressRoutes.Detail(ch, list))), item)
              == ProgressRoutes.StatusOf(docs, userId, ch, ProgressRoutes.VerseIdsForChapter(gita, Finite(ch))[i]).completed
    ensures var m := ProgressOf(SeenDetail(ProgressRoutes.Detail(ch, ProgressRoutes.DetailList(gita, docs, userId, ch))));
            forall c: Cards, j :: InSync(c, m) && 0 <= j < |c.items| && c.items[j] == item ==>
              c.flags[j] == ProgressRoutes.StatusOf(docs, userId, ch, ProgressRoutes.VerseIdsForChapter(gita, Finite(ch))[i]).completed
  {
    var list := ProgressRoutes.DetailList(gita, docs, userId, ch);
    var ids := ProgressRoutes.VerseIdsForChapter(gita, Finite(ch));
    assert forall j :: 0 <= j < |list| ==> list[j].verse == ids[j];
    ServerDetailReadsBack(list, i);
  }

  /** On a second visit the verses are still in the context, so the cards mount at once
      on the empty map. When the reply then reports a verse the store holds as
      completed, the card as written still shows it open, although its prop now says
      completed; the corrected card shows it completed. */
  lemma RevisitCardStale(gita: seq<ProgressRoutes.CatalogVerse>, docs: seq<ServerModels.ProgressDoc>,
                         userId: nat, ch: int, i: nat, item: Shlok.ChapterVerse)
    requires var ids := ProgressRoutes.VerseIdsForChapter(gita, Finite(ch));
             i < |ids| && ids[i] != 0 && forall j :: i < j < |ids| ==> ids[j] != ids[i]
    requires item.verse_number == Num(ProgressRoutes.VerseIdsForChapter(gita, Finite(ch))[i])
    requires ProgressRoutes.StatusOf(docs, userId, ch, ProgressRoutes.VerseIdsForChapter(gita, Finite(ch))[i]).completed
    ensures var m := ProgressOf(SeenDetail(ProgressRoutes.Detail(ch, ProgressRoutes.DetailList(gita, docs, userId, ch))));
            var mounted := Mount(map[], [item]);
            !FollowAsWritten(mounted, m).flags[0] && ShownCompleted(m, item) && Follow(mounted, m).flags[0]
  {
    CardShowsStoredState(gita, docs, userId, ch, i, item);
    assert !ShownCompleted(map[], item);
  }

  class ChapterPageState {
    var progressMap: ProgressMap
    var cards: Cards

    /** The first render: an empty map and, while the verses load, no card. */
    constructor ()
      ensures progressMap == map[] && cards == Cards([], [])
    {
      progressMap := map[];
      cards := Cards([], []);
    }

    /** The verse list is rendered: each card mounts with the map as it is now. */
    method ShowVerses(items: seq<Shlok.ChapterVerse>)
      modifies this`cards
      ensures cards == Mount(progressMap, items)
    {
      cards := Mount(progressMap, items);
    }

    /** fetchChapterProgress: the map is replaced and the mounted cards keep their flags. */
    method Refresh(reply: ProgressReply)
      modifies this`progressMap
      ensures progressMap == ProgressOf(reply)
      ensures cards == FollowAsWritten(old(cards), progressMap)
    {
      progressMap := FetchChapterProgress(reply);
    }

    /** The corrected card, which follows its `isCompleted` prop: after a render every
        mounted card shows what the current map gives its verse. */
    method FollowProps()
      modifies this`cards
      ensures cards == Follow(old(cards), progressMap)
    {
      cards := Mount(progressMap, cards.items);
    }

    /** toggleWholeChapter(markComplete): without a user nothing is sent; a request that
        does not reject is followed by a refetch, one that rejects leaves the map. */
    method ToggleWholeChapter(loggedIn: bool, id: string, markComplete: bool, outcome: Outcome, refetched: ProgressReply)
      returns (sent: Option<ProgressRoutes.ChapterBody>)
      modifies this`progressMap
      ensures !loggedIn ==> sent.None? && progressMap == old(progressMap)
      ensures loggedIn ==> sent == Some(ChapterPayload(StringToNumber(id), markComplete))
      ensures loggedIn && !outcome.Threw? ==> progressMap == ProgressOf(refetched)
      ensures loggedIn && outcome.Threw? ==> progressMap == old(progressMap)
      ensures cards == old(cards)
    {
      if !loggedIn {
        return None;
      }
      sent := Some(ChapterPayload(StringToNumber(id), markComplete));
      if !outcome.Threw? {
        Refresh(refetched);
      }
    }
  }
}
