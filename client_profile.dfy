/** The profile page (client/src/Pages/ProfilePage.js) and its earlier variant
    (client/src/Pages/h.js), which share the logic modelled here: the favourites' keys
    and the shared recitation player, the per-chapter detail panels and the summary rows
    they refresh, the overall totals (ProfilePage.js only), the optimistic removal of a
    favourite with its rollback, and the guard of the name editor.

    The page's `chapterDetails` object is keyed by `String(chId)` of an integer chapter
    number; since that string determines the integer, the map is keyed by the integer. */
module Profile {
  import opened Wrappers
  import opened Text
  import opened JsValues
  import opened Percent
  import ProgressRoutes
  import FavouriteRoutes
  import ServerModels
  import AuthRoutes
  import ClientRequests

  // ---------------------------------------------------------------------------
  // Favourite keys and the player

  /** A favourite as the page holds it: the document id, if any, and its two numbers. */
  datatype FavItem = FavItem(id: Option<string>, chapter: Json, verse: Json)

  /** `f._id` is truthy. */
  predicate HasId(f: FavItem)
  {
    f.id.Some? && f.id.value != ""
  }

  /** getFavKey */
  function FavKey(f: FavItem): (k: string)
    ensures HasId(f) ==> |k| >= 3 && k[..3] == "id-"
    ensures !HasId(f) ==> k != [] && k[0] == 'c'
  {
    if HasId(f) then "id-" + f.id.value
    else "c" + JsToString(f.chapter) + "-v" + JsToString(f.verse)
  }

  /** Keys tell favourites with an id apart by that id... */
  lemma IdKeysDistinguish(f: FavItem, g: FavItem)
    requires HasId(f) && HasId(g)
    ensures FavKey(f) == FavKey(g) <==> f.id == g.id
  {
    if FavKey(f) == FavKey(g) {
      assert f.id.value == FavKey(f)[3..] == FavKey(g)[3..] == g.id.value;
    }
  }

  /** ... never give an id key to a favourite without one... */
  lemma IdKeyNotNumberKey(f: FavItem, g: FavItem)
    requires HasId(f) != HasId(g)
    ensures FavKey(f) != FavKey(g)
  {
    assert FavKey(f)[0] != FavKey(g)[0];
  }

  /** ... and tell numbered favourites apart by both numbers. */
  lemma NumberKeysDistinguish(f: FavItem, g: FavItem)
    requires !HasId(f) && !HasId(g)
    requires f.chapter.Num? && f.verse.Num? && g.chapter.Num? && g.verse.Num?
    ensures FavKey(f) == FavKey(g) <==> f.chapter == g.chapter && f.verse == g.verse
  {
    if FavKey(f) == FavKey(g) {
      var a1, b1 := IntToString(f.chapter.n), IntToString(f.verse.n);
      var a2, b2 := IntToString(g.chapter.n), IntToString(g.verse.n);
      assert (a1 + "-") + ['v'] + b1 == (a2 + "-") + ['v'] + b2 by {
        NumberKeyShape(f);
        NumberKeyShape(g);
      }
      assert a1 == a2 && b1 == b2 by {
        NumberPairsInjective(f.chapter.n, f.verse.n, g.chapter.n, g.verse.n);
      }
      IntToStringInjective(f.chapter.n, g.chapter.n);
      IntToStringInjective(f.verse.n, g.verse.n);
    }
  }

  /** The key of a numbered favourite: "c", the chapter, "-v", the verse. */
  lemma NumberKeyShape(f: FavItem)
    requires !HasId(f) && f.chapter.Num? && f.verse.Num?
    ensures FavKey(f)[1..] == (IntToString(f.chapter.n) + "-") + ['v'] + IntToString(f.verse.n)
  {
    var a, b := IntToString(f.chapter.n), IntToString(f.verse.n);
    assert FavKey(f) == "c" + ((a + "-") + ['v'] + b);
  }

  /** "<c>-v<v>" spells its two numbers back. */
  lemma NumberPairsInjective(c1: int, v1: int, c2: int, v2: int)
    requires (IntToString(c1) + "-") + ['v'] + IntToString(v1) == (IntToString(c2) + "-") + ['v'] + IntToString(v2)
    ensures IntToString(c1) == IntToString(c2) && IntToString(v1) == IntToString(v2)
  {
    var a1, a2 := IntToString(c1), IntToString(c2);
    IntToStringOnly(c1, 'v');
    IntToStringOnly(c2, 'v');
    SeparatedInjective(a1 + "-", IntToString(v1), a2 + "-", IntToString(v2), 'v');
    assert a1 == (a1 + "-")[..|a1|];
    assert a2 == (a2 + "-")[..|a2|];
  }

  /** What the page does to its audio element. */
  datatype PlayerAction = Pause | Start(src: string)

  /** togglePlayFavourite: pressing the favourite that is playing pauses it and clears
      the key; any other starts its recitation, which becomes the playing key when
      `play()` resolves (`played`) and clears it when it fails. */
  function AfterPlayPress(playing: Option<string>, f: FavItem, played: bool): (r: (Option<string>, PlayerAction))
    ensures playing == Some(FavKey(f)) ==> r == (None, Pause)
    ensures playing != Some(FavKey(f)) ==>
              r.1 == Start(ClientRequests.RecitationPath(JsToString(f.chapter), JsToString(f.verse)))
              && r.0 == (if played then Some(FavKey(f)) else None)
  {
    var key := FavKey(f);
    if playing == Some(key) then (None, Pause)
    else (if played then Some(key) else None, Start(ClientRequests.RecitationPath(JsToString(f.chapter), JsToString(f.verse))))
  }

  /** A second press on the favourite just started stops it; a press on a favourite with
      another number starts that one's own recitation file. */
  lemma PressTwiceStops(playing: Option<string>, f: FavItem, g: FavItem, played: bool)
    ensures playing != Some(FavKey(f)) ==> AfterPlayPress(AfterPlayPress(playing, f, true).0, f, played) == (None, Pause)
    ensures !HasId(f) && !HasId(g) && f.chapter.Num? && f.verse.Num? && g.chapter.Num? && g.verse.Num?
            && (f.chapter != g.chapter || f.verse != g.verse) ==>
              var r := AfterPlayPress(Some(FavKey(f)), g, played);
              r.1.Start? && r.1 != AfterPlayPress(None, f, played).1
  {
    if !HasId(f) && !HasId(g) && f.chapter.Num? && f.verse.Num? && g.chapter.Num? && g.verse.Num?
       && (f.chapter != g.chapter || f.verse != g.verse) {
      NumberKeysDistinguish(f, g);
      var p1 := ClientRequests.RecitationPath(IntToString(g.chapter.n), IntToString(g.verse.n));
      var p2 := ClientRequests.RecitationPath(IntToString(f.chapter.n), IntToString(f.verse.n));
      if p1 == p2 {
        ClientRequests.RecitationPathOfNumbers(g.chapter.n, g.verse.n, f.chapter.n, f.verse.n);
      }
    }
  }

  // ---------------------------------------------------------------------------
  // Chapter details and the summary rows

  /** The GET /progress/me/chapter/:chId as the page sees it: the `verses` field of a
      reply (absent: None), or a thrown request. */
  datatype DetailFetch = Fetched(verses: Option<seq<ProgressRoutes.VerseStatus>>) | FetchFailed

  /** `verses.filter(v => !!v && !!v.completed).length` */
  function CompletedCount(verses: seq<ProgressRoutes.VerseStatus>): nat
  {
    if verses == [] then 0
    else (if verses[0].completed then 1 else 0) + CompletedCount(verses[1..])
  }

  /** The completed count never exceeds the list and reaches it exactly when every verse
      is completed. */
  lemma {:induction false} CompletedCountBounds(verses: seq<ProgressRoutes.VerseStatus>)
    ensures CompletedCount(verses) <= |verses|
    ensures CompletedCount(verses) == |verses| <==> forall i :: 0 <= i < |verses| ==> verses[i].completed
  {
    if verses != [] {
      CompletedCountBounds(verses[1..]);
      assert forall i :: 1 <= i < |verses| ==> verses[i] == verses[1..][i - 1];
    }
  }

  /** The three numbers computed for a loaded chapter. */
  datatype Stats = Stats(completedCount: nat, totalVerses: nat, percent: nat)

  function StatsOf(verses: seq<ProgressRoutes.VerseStatus>): (s: Stats)
    ensures s.completedCount <= s.totalVerses == |verses|
    ensures s.percent <= 100
    ensures s.totalVerses == 0 ==> s.percent == 0
    ensures s.totalVerses > 0 && s.completedCount == s.totalVerses ==> s.percent == 100
    ensures s.completedCount == 0 ==> s.percent == 0
  {
    CompletedCountBounds(verses);
    var c := CompletedCount(verses);
    PercentBounded(c, |verses|);
    if |verses| > 0 then
      PercentEnds(|verses|);
      Stats(c, |verses|, PercentOrZero(c, |verses|))
    else Stats(c, 0, 0)
  }

  /** `prev.map(c => c.chapter === chId ? { ...c, completedCount, totalVerses, percent } : c)` */
  function RefreshRows(rows: seq<ProgressRoutes.SummaryRow>, chId: int, s: Stats): (r: seq<ProgressRoutes.SummaryRow>)
    ensures |r| == |rows|
    ensures forall i :: 0 <= i < |rows| ==>
              r[i] == if rows[i].chapter == chId
                      then ProgressRoutes.SummaryRow(chId, s.totalVerses, s.completedCount, s.percent)
                      else rows[i]
  {
    if rows == [] then []
    else
      var head := if rows[0].chapter == chId
                  then ProgressRoutes.SummaryRow(chId, s.totalVerses, s.completedCount, s.percent)
                  else rows[0];
      [head] + RefreshRows(rows[1..], chId, s)
  }

  /** The page's state that the handlers modelled here change. */
  datatype ProfileView = ProfileView(summary: seq<ProgressRoutes.SummaryRow>,
                                     chapterDetails: map<int, seq<ProgressRoutes.VerseStatus>>,
                                     favourites: seq<FavItem>, playing: Option<string>)

  /** loadChapterDetail(chId) with the answer its request gets: an open chapter (any
      array, even an empty one, is truthy) is closed without a request; otherwise the
      verses are stored, [] for a missing field, and that chapter's summary rows get the
      new numbers; a failed request stores []. The second component tells whether a
      request was made. */
  function AfterDetailPress(st: ProfileView, chId: int, reply: DetailFetch): (r: (ProfileView, bool))
    ensures chId in st.chapterDetails ==>
              !r.1 && r.0 == st.(chapterDetails := map k | k in st.chapterDetails && k != chId :: st.chapterDetails[k])
    ensures chId !in st.chapterDetails ==> r.1 && chId in r.0.chapterDetails
    ensures chId !in st.chapterDetails && reply.FetchFailed? ==>
              r.0 == st.(chapterDetails := st.chapterDetails[chId := []])
    ensures chId !in st.chapterDetails && reply.Fetched? ==>
              var verses := if reply.verses.Some? then reply.verses.value else [];
              r.0 == st.(chapterDetails := st.chapterDetails[chId := verses],
                         summary := RefreshRows(st.summary, chId, StatsOf(verses)))
  {
    if chId in st.chapterDetails then
      (st.(chapterDetails := map k | k in st.chapterDetails && k != chId :: st.chapterDetails[k]), false)
    else if reply.FetchFailed? then
      (st.(chapterDetails := st.chapterDetails[chId := []]), true)
    else
      var verses := if reply.verses.Some? then reply.verses.value else [];
      (st.(chapterDetails := st.chapterDetails[chId := verses],
           summary := RefreshRows(st.summary, chId, StatsOf(verses))), true)
  }

  /** Opening and then closing a chapter leaves the other panels as they were, whatever
      the first answer was. */
  lemma OpenThenCloseRestores(st: ProfileView, chId: int, first: DetailFetch, second: DetailFetch)
    requires chId !in st.chapterDetails
    ensures var shown := AfterDetailPress(st, chId, first).0;
            var closed := AfterDetailPress(shown, chId, second);
            !closed.1 && closed.0.chapterDetails == st.chapterDetails
            && closed.0.favourites == st.favourites && closed.0.playing == st.playing
  {
    var shown := AfterDetailPress(st, chId, first).0;
    var closed := AfterDetailPress(shown, chId, second).0;
    assert closed.chapterDetails.Keys == st.chapterDetails.Keys;
  }

  /** A chapter loaded from the server's detail route gets the numbers of the catalog's
      verses of that chapter: total is their number, and the count is the number
      the store holds as completed (here: at most the total, all of them exactly when
      every one is completed). */
  lemma ServerDetailStats(gita: seq<ProgressRoutes.CatalogVerse>, docs: seq<ServerModels.ProgressDoc>,
                          userId: nat, ch: int)
    ensures var ids := ProgressRoutes.VerseIdsForChapter(gita, Finite(ch));
            var s := StatsOf(ProgressRoutes.DetailList(gita, docs, userId, ch));
            s.totalVerses == |ids|
            && (s.completedCount == |ids| <==>
                  forall i :: 0 <= i < |ids| ==> ProgressRoutes.StatusOf(docs, userId, ch, ids[i]).completed)
  {
    var ids := ProgressRoutes.VerseIdsForChapter(gita, Finite(ch));
    var list := ProgressRoutes.DetailList(gita, docs, userId, ch);
    assert |list| == |ids|;
    CompletedCountBounds(list);
    assert forall i :: 0 <= i < |ids| ==> list[i] == ProgressRoutes.StatusOf(docs, userId, ch, ids[i]);
  }

  // ---------------------------------------------------------------------------
  // Overall totals (ProfilePage.js)

  /** `summary.reduce((acc, ch) => acc + (ch.completedCount || 0), 0)` */
  function TotalCompleted(rows: seq<ProgressRoutes.SummaryRow>): (n: nat)
    ensures forall i :: 0 <= i < |rows| ==> rows[i].completedCount <= n
    ensures n == 0 <==> forall i :: 0 <= i < |rows| ==> rows[i].completedCount == 0
  {
    if rows == [] then 0
    else
      assert forall i :: 1 <= i < |rows| ==> rows[1..][i - 1] == rows[i];
      rows[0].completedCount + TotalCompleted(rows[1..])
  }

  /** `summary.reduce((acc, ch) => acc + (ch.totalVerses || 0), 0)` */
  function TotalVerses(rows: seq<ProgressRoutes.SummaryRow>): (n: nat)
    ensures forall i :: 0 <= i < |rows| ==> rows[i].totalVerses <= n
    ensures n == 0 <==> forall i :: 0 <= i < |rows| ==> rows[i].totalVerses == 0
  {
    if rows == [] then 0
    else
      assert forall i :: 1 <= i < |rows| ==> rows[1..][i - 1] == rows[i];
      rows[0].totalVerses + TotalVerses(rows[1..])
  }

  /** `totalVerses ? Math.round((totalCompleted / totalVerses) * 100) : 0` */
  function OverallProgress(rows: seq<ProgressRoutes.SummaryRow>): (p: nat)
    ensures TotalCompleted(rows) <= TotalVerses(rows) ==> p <= 100
    ensures TotalVerses(rows) == 0 ==> p == 0
  {
    var done, total := TotalCompleted(rows), TotalVerses(rows);
    assert done <= total ==> PercentOrZero(done, total) <= 100 by {
      if done <= total { PercentBounded(done, total); }
    }
    PercentOrZero(done, total)
  }

  /** Rows that never report more completed verses than verses give an overall count
      within the total and an overall percent of at most 100. */
  lemma {:induction false} OverallBounded(rows: seq<ProgressRoutes.SummaryRow>)
    requires forall i :: 0 <= i < |rows| ==> rows[i].completedCount <= rows[i].totalVerses
    ensures TotalCompleted(rows) <= TotalVerses(rows)
    ensures OverallProgress(rows) <= 100
  {
    if rows != [] {
      assert forall i :: 0 <= i < |rows[1..]| ==> rows[1..][i] == rows[i + 1];
      OverallBounded(rows[1..]);
    }
    PercentBounded(TotalCompleted(rows), TotalVerses(rows));
  }

  /** Refreshing the one row of a chapter replaces its numbers in both totals. */
  lemma {:induction false} RefreshAdjustsTotals(rows: seq<ProgressRoutes.SummaryRow>, chId: int, s: Stats, j: nat)
    requires j < |rows| && rows[j].chapter == chId
    requires forall i :: 0 <= i < |rows| && i != j ==> rows[i].chapter != chId
    ensures TotalCompleted(RefreshRows(rows, chId, s)) + rows[j].completedCount == TotalCompleted(rows) + s.completedCount
    ensures TotalVerses(RefreshRows(rows, chId, s)) + rows[j].totalVerses == TotalVerses(rows) + s.totalVerses
  {
    var r := RefreshRows(rows, chId, s);
    assert r[1..] == RefreshRows(rows[1..], chId, s);
    if j == 0 {
      RefreshLeavesOthers(rows[1..], chId, s);
    } else {
      RefreshAdjustsTotals(rows[1..], chId, s, j - 1);
    }
  }

  /** A refresh of a chapter without a row changes neither total. */
  lemma {:induction false} RefreshLeavesOthers(rows: seq<ProgressRoutes.SummaryRow>, chId: int, s: Stats)
    requires forall i :: 0 <= i < |rows| ==> rows[i].chapter != chId
    ensures RefreshRows(rows, chId, s) == rows
    ensures TotalCompleted(RefreshRows(rows, chId, s)) == TotalCompleted(rows)
  {
    if rows != [] {
      RefreshLeavesOthers(rows[1..], chId, s);
    }
  }

  // ---------------------------------------------------------------------------
  // Removing a favourite

  /** `Number(x.chapter) === Number(chapter) && Number(x.verse) === Number(verse)` */
  predicate Removed(x: FavItem, chapter: Json, verse: Json)
  {
    StrictEq(ToNumber(x.chapter), ToNumber(chapter)) && StrictEq(ToNumber(x.verse), ToNumber(verse))
  }

  /** `Array.prototype.filter` with the negation of `drop`. */
  function FilterOut(favs: seq<FavItem>, drop: FavItem -> bool): (r: seq<FavItem>)
    ensures |r| <= |favs|
  {
    if favs == [] then []
    else (if drop(favs[0]) then [] else [favs[0]]) + FilterOut(favs[1..], drop)
  }

  /** removeFavouriteLocally: the `filter` that drops the matching entries. */
  function RemoveMatching(favs: seq<FavItem>, chapter: Json, verse: Json): (r: seq<FavItem>)
    ensures |r| <= |favs|
  {
    FilterOut(favs, x => Removed(x, chapter, verse))
  }

  /** An entry stays exactly when it was there and is not dropped... */
  lemma {:induction false} FilterOutMembers(favs: seq<FavItem>, drop: FavItem -> bool, x: FavItem)
    ensures x in FilterOut(favs, drop) <==> x in favs && !drop(x)
  {
    if favs != [] {
      FilterOutMembers(favs[1..], drop, x);
      assert x in favs <==> x == favs[0] || x in favs[1..] by {
        assert favs == [favs[0]] + favs[1..];
      }
    }
  }

  /** ... the filter works entry by entry, so it keeps the order of what it keeps... */
  lemma {:induction false} FilterOutAppend(a: seq<FavItem>, b: seq<FavItem>, drop: FavItem -> bool)
    ensures FilterOut(a + b, drop) == FilterOut(a, drop) + FilterOut(b, drop)
  {
    if a == [] {
      assert a + b == b;
    } else {
      var h := if drop(a[0]) then [] else [a[0]];
      calc {
        FilterOut(a + b, drop);
        { assert (a + b)[0] == a[0] && (a + b)[1..] == a[1..] + b; }
        h + FilterOut(a[1..] + b, drop);
        { FilterOutAppend(a[1..], b, drop); }
        h + (FilterOut(a[1..], drop) + FilterOut(b, drop));
        (h + FilterOut(a[1..], drop)) + FilterOut(b, drop);
        FilterOut(a, drop) + FilterOut(b, drop);
      }
    }
  }

  /** ... and a list with nothing to drop comes back unchanged. */
  lemma {:induction false} FilterOutNothing(favs: seq<FavItem>, drop: FavItem -> bool)
    requires forall i :: 0 <= i < |favs| ==> !drop(favs[i])
    ensures FilterOut(favs, drop) == favs
  {
    if favs != [] {
      var rest := favs[1..];
      forall i | 0 <= i < |rest|
        ensures !drop(rest[i])
      {
        assert rest[i] == favs[i + 1];
      }
      FilterOutNothing(rest, drop);
      assert !drop(favs[0]);
      assert FilterOut(favs, drop) == [favs[0]] + rest;
    }
  }

  /** An entry stays exactly when it was there and does not match. */
  lemma RemoveMatchingMembers(favs: seq<FavItem>, chapter: Json, verse: Json, x: FavItem)
    ensures x in RemoveMatching(favs, chapter, verse) <==> x in favs && !Removed(x, chapter, verse)
  {
    FilterOutMembers(favs, y => Removed(y, chapter, verse), x);
  }

  /** The removal keeps the order of the entries it keeps. */
  lemma RemoveKeepsOrder(a: seq<FavItem>, b: seq<FavItem>, chapter: Json, verse: Json)
    ensures RemoveMatching(a + b, chapter, verse) == RemoveMatching(a, chapter, verse) + RemoveMatching(b, chapter, verse)
  {
    FilterOutAppend(a, b, x => Removed(x, chapter, verse));
  }

  /** A list without a match is left unchanged, and the pressed entry itself goes when
      its numbers are numbers. */
  lemma RemoveNothingElse(favs: seq<FavItem>, f: FavItem)
    ensures (forall i :: 0 <= i < |favs| ==> !Removed(favs[i], f.chapter, f.verse)) ==>
              RemoveMatching(favs, f.chapter, f.verse) == favs
    ensures ToNumber(f.chapter).Finite? && ToNumber(f.verse).Finite? ==> f !in RemoveMatching(favs, f.chapter, f.verse)
  {
    RemoveMatchingMembers(favs, f.chapter, f.verse, f);
    if forall i :: 0 <= i < |favs| ==> !Removed(favs[i], f.chapter, f.verse) {
      FilterOutNothing(favs, x => Removed(x, f.chapter, f.verse));
    }
  }

  /** The list the page holds for a user's favourites, as the list route sent it. */
  function ItemsOf(list: seq<ServerModels.FavouriteDoc>, ids: seq<Option<string>>): (items: seq<FavItem>)
    requires |ids| == |list|
    ensures |items| == |list|
    ensures forall i :: 0 <= i < |list| ==> items[i] == FavItem(ids[i], Num(list[i].chapter), Num(list[i].verse))
  {
    seq(|list|, i requires 0 <= i < |list| => FavItem(ids[i], Num(list[i].chapter), Num(list[i].verse)))
  }

  /** An entry showing (chapter, verse). */
  predicate Shows(items: seq<FavItem>, chapter: int, verse: int)
  {
    exists i :: 0 <= i < |items| && items[i].chapter == Num(chapter) && items[i].verse == Num(verse)
  }

  /** After the optimistic removal of a favourite the user holds, the page shows exactly
      the verses the server keeps as favourites once its toggle has run. */
  lemma RemovalAgreesWithServer(docs: seq<ServerModels.FavouriteDoc>, user: nat, ids: seq<Option<string>>,
                                c: int, v: int, nowMs: int, c2: int, v2: int)
    requires ServerModels.FavouriteKeysUnique(docs) && FavouriteRoutes.IsFavourite(docs, user, c, v)
    requires |ids| == |FavouriteRoutes.ListMine(docs, user)|
    ensures Shows(RemoveMatching(ItemsOf(FavouriteRoutes.ListMine(docs, user), ids), Num(c), Num(v)), c2, v2)
            <==> FavouriteRoutes.IsFavourite(FavouriteRoutes.Toggle(docs, user, c, v, nowMs), user, c2, v2)
  {
    var items := ItemsOf(FavouriteRoutes.ListMine(docs, user), ids);
    var keep := (c2, v2) != (c, v) && FavouriteRoutes.IsFavourite(docs, user, c2, v2);
    assert Shows(RemoveMatching(items, Num(c), Num(v)), c2, v2) <==> keep by {
      ShownAfterRemoval(docs, user, ids, c, v, c2, v2);
    }
    assert FavouriteRoutes.IsFavourite(FavouriteRoutes.Toggle(docs, user, c, v, nowMs), user, c2, v2) <==> keep by {
      FavouriteRoutes.ToggleFlips(docs, user, c, v, nowMs);
      if (c2, v2) != (c, v) {
        FavouriteRoutes.ToggleOtherKey(docs, user, c, v, nowMs, user, c2, v2);
      }
    }
  }

  /** The list after the removal shows every other favourite of the user and nothing else. */
  lemma ShownAfterRemoval(docs: seq<ServerModels.FavouriteDoc>, user: nat, ids: seq<Option<string>>,
                          c: int, v: int, c2: int, v2: int)
    requires |ids| == |FavouriteRoutes.ListMine(docs, user)|
    ensures Shows(RemoveMatching(ItemsOf(FavouriteRoutes.ListMine(docs, user), ids), Num(c), Num(v)), c2, v2)
            <==> (c2, v2) != (c, v) && FavouriteRoutes.IsFavourite(docs, user, c2, v2)
  {
    if Shows(RemoveMatching(ItemsOf(FavouriteRoutes.ListMine(docs, user), ids), Num(c), Num(v)), c2, v2) {
      ShownIsKept(docs, user, ids, c, v, c2, v2);
    }
    if (c2, v2) != (c, v) && FavouriteRoutes.IsFavourite(docs, user, c2, v2) {
      KeptIsShown(docs, user, ids, c, v, c2, v2);
    }
  }

  lemma ShownIsKept(docs: seq<ServerModels.FavouriteDoc>, user: nat, ids: seq<Option<string>>,
                    c: int, v: int, c2: int, v2: int)
    requires |ids| == |FavouriteRoutes.ListMine(docs, user)|
    requires Shows(RemoveMatching(ItemsOf(FavouriteRoutes.ListMine(docs, user), ids), Num(c), Num(v)), c2, v2)
    ensures (c2, v2) != (c, v) && FavouriteRoutes.IsFavourite(docs, user, c2, v2)
  {
    var list := FavouriteRoutes.ListMine(docs, user);
    var items := ItemsOf(list, ids);
    var r := RemoveMatching(items, Num(c), Num(v));
    var i :| 0 <= i < |r| && r[i].chapter == Num(c2) && r[i].verse == Num(v2);
    RemoveMatchingMembers(items, Num(c), Num(v), r[i]);
    assert r[i] in items && !Removed(r[i], Num(c), Num(v));
    var j :| 0 <= j < |items| && items[j] == r[i];
    assert list[j] in list;
    ListedIsFavourite(docs, user, list[j]);
  }

  lemma KeptIsShown(docs: seq<ServerModels.FavouriteDoc>, user: nat, ids: seq<Option<string>>,
                    c: int, v: int, c2: int, v2: int)
    requires |ids| == |FavouriteRoutes.ListMine(docs, user)|
    requires (c2, v2) != (c, v) && FavouriteRoutes.IsFavourite(docs, user, c2, v2)
    ensures Shows(RemoveMatching(ItemsOf(FavouriteRoutes.ListMine(docs, user), ids), Num(c), Num(v)), c2, v2)
  {
    var list := FavouriteRoutes.ListMine(docs, user);
    var items := ItemsOf(list, ids);
    var j := FavouriteIsListed(docs, user, c2, v2);
    var x := items[j];
    assert x == FavItem(ids[j], Num(c2), Num(v2));
    assert !Removed(x, Num(c), Num(v));
    RemoveMatchingMembers(items, Num(c), Num(v), x);
    var r := RemoveMatching(items, Num(c), Num(v));
    assert x in r;
    var i :| 0 <= i < |r| && r[i] == x;
  }

  /** One of the user's favourites is on the user's list, at some position. */
  lemma FavouriteIsListed(docs: seq<ServerModels.FavouriteDoc>, user: nat, c: int, v: int) returns (j: nat)
    requires FavouriteRoutes.IsFavourite(docs, user, c, v)
    ensures j < |FavouriteRoutes.ListMine(docs, user)|
    ensures FavouriteRoutes.ListMine(docs, user)[j].chapter == c && FavouriteRoutes.ListMine(docs, user)[j].verse == v
  {
    var list := FavouriteRoutes.ListMine(docs, user);
    var k :| 0 <= k < |docs| && ServerModels.SameFavouriteKey(docs[k], user, c, v);
    assert docs[k] in docs;
    assert docs[k] in list;
    j :| 0 <= j < |list| && list[j] == docs[k];
  }

  /** A document on the user's list is one of the user's favourites. */
  lemma ListedIsFavourite(docs: seq<ServerModels.FavouriteDoc>, user: nat, d: ServerModels.FavouriteDoc)
    requires d in FavouriteRoutes.ListMine(docs, user)
    ensures FavouriteRoutes.IsFavourite(docs, user, d.chapter, d.verse)
  {
    assert d in docs && d.user == user;
    var k :| 0 <= k < |docs| && docs[k] == d;
    assert ServerModels.SameFavouriteKey(docs[k], user, d.chapter, d.verse);
  }

  // ---------------------------------------------------------------------------
  // The name editor

  /** saveName: a draft whose trimmed `.length` is below two sends nothing; otherwise
      PATCH /auth/me carries the trimmed draft. The length counts UTF-16 code units. */
  function NameRequest(draft: string): (body: Option<AuthRoutes.PatchBody>)
    ensures body.Some? <==> Utf16Length(Trim(draft)) >= 2
    ensures body.Some? ==> body.value == AuthRoutes.PatchBody(Str(Trim(draft)), Undefined)
  {
    if draft == "" || Utf16Length(Trim(draft)) < 2 then None
    else Some(AuthRoutes.PatchBody(Str(Trim(draft)), Undefined))
  }

  /** Two characters are always enough, and so is a single character outside the Basic
      Multilingual Plane (an emoji), which JavaScript counts as two; any other single
      character is refused. */
  lemma NameLengthInCodeUnits(draft: string)
    ensures |Trim(draft)| >= 2 ==> NameRequest(draft).Some?
    ensures |Trim(draft)| == 1 ==> (NameRequest(draft).Some? <==> Astral(Trim(draft)[0]))
    ensures |Trim(draft)| == 0 ==> NameRequest(draft).None?
  {
    var t := Trim(draft);
    if |t| == 1 {
      assert t[1..] == [];
    }
  }

  /** Every name the editor sends is one the server accepts as it is and stores, leaving
      the avatar alone. */
  lemma NameStoredAsSent(draft: string, u: ServerModels.User)
    requires Utf16Length(Trim(draft)) >= 2
    ensures NameRequest(draft).Some?
    ensures AuthRoutes.TrimmedField(NameRequest(draft).value.displayName) == Some(Trim(draft))
    ensures var stored := AuthRoutes.ApplyPatch(u, NameRequest(draft).value);
            stored.displayName == Some(Trim(draft)) && stored.avatarUrl == u.avatarUrl
  {
    var body := AuthRoutes.PatchBody(Str(Trim(draft)), Undefined);
    assert NameRequest(draft) == Some(body);
    TrimmedFieldOfTrim(draft);
    assert Trim(draft) != "";
    assert AuthRoutes.TrimmedField(Undefined) == None;
  }

  /** The server's field filter applied to a trimmed string keeps it whole, unless it is
      empty. */
  lemma TrimmedFieldOfTrim(s: string)
    ensures AuthRoutes.TrimmedField(Str(Trim(s))) == if Trim(s) == "" then None else Some(Trim(s))
  {
    TrimIdempotent(s);
  }

  // ---------------------------------------------------------------------------
  // The page's state

  class ProfilePage {
    var summary: seq<ProgressRoutes.SummaryRow>
    var chapterDetails: map<int, seq<ProgressRoutes.VerseStatus>>
    var favourites: seq<FavItem>
    var playing: Option<string>

    function State(): ProfileView
      reads this
    {
      ProfileView(summary, chapterDetails, favourites, playing)
    }

    constructor ()
      ensures State() == ProfileView([], map[], [], None)
    {
      summary := [];
      chapterDetails := map[];
      favourites := [];
      playing := None;
    }

    /** loadChapterDetail */
    method LoadChapterDetail(chId: int, reply: DetailFetch) returns (requested: bool)
      modifies this
      ensures (State(), requested) == AfterDetailPress(old(State()), chId, reply)
    {
      if chId in chapterDetails {
        chapterDetails := map k | k in chapterDetails && k != chId :: chapterDetails[k];
        return false;
      }
      requested := true;
      if reply.FetchFailed? {
        chapterDetails := chapterDetails[chId := []];
        return;
      }
      var verses := if reply.verses.Some? then reply.verses.value else [];
      chapterDetails := chapterDetails[chId := verses];
      summary := RefreshRows(summary, chId, StatsOf(verses));
    }

    /** togglePlayFavourite */
    method TogglePlayFavourite(f: FavItem, played: bool) returns (action: PlayerAction)
      modifies this
      ensures (playing, action) == AfterPlayPress(old(playing), f, played)
      ensures summary == old(summary) && chapterDetails == old(chapterDetails) && favourites == old(favourites)
    {
      var key := FavKey(f);
      if playing == Some(key) {
        playing := None;
        return Pause;
      }
      action := Start(ClientRequests.RecitationPath(JsToString(f.chapter), JsToString(f.verse)));
      playing := if played then Some(key) else None;
    }

    /** The remove button: the entry goes at once (`pending`), its recitation stops if it
        was playing, the toggle is posted, and a thrown request brings the list back. */
    method RemoveFavourite(f: FavItem, outcome: ClientRequests.Outcome)
      returns (sent: FavouriteRoutes.ToggleBody, pending: seq<FavItem>)
      modifies this
      ensures pending == RemoveMatching(old(favourites), f.chapter, f.verse)
      ensures sent == ClientRequests.FavouritePayload(ToNumber(f.chapter), ToNumber(f.verse))
      ensures favourites == if outcome.Threw? then old(favourites) else pending
      ensures playing == if old(playing) == Some(FavKey(f)) then None else old(playing)
      ensures summary == old(summary) && chapterDetails == old(chapterDetails)
    {
      var prev := favourites;
      pending := RemoveMatching(prev, f.chapter, f.verse);
      if playing == Some(FavKey(f)) {
        playing := None;
      }
      sent := ClientRequests.FavouritePayload(ToNumber(f.chapter), ToNumber(f.verse));
      favourites := if outcome.Threw? then prev else pending;
    }

    /** The audio element's `ended` and `error` listeners: the recitation is over, so no
        favourite is playing any more. */
    method AudioEnded()
      modifies this
      ensures playing == None
      ensures summary == old(summary) && chapterDetails == old(chapterDetails) && favourites == old(favourites)
    {
      playing := None;
    }
  }

  /** Once a recitation has ended or failed, a press on any favourite starts a recitation
      again instead of pausing. */
  lemma PressAfterEndStarts(f: FavItem, played: bool)
    ensures AfterPlayPress(None, f, played).1.Start?
    ensures AfterPlayPress(None, f, played).0 == (if played then Some(FavKey(f)) else None)
  {
  }
}
