/** The reading-progress routes of server/routes/progressRoutes.js over the progress
    collection: a map from (user, chapter, verse) to (completed, completedAt), kept as
    the sequence of its documents, with single and bulk upserts, the per-chapter detail
    over the bundled verse catalog, and the per-chapter summary with its percent. */
module ProgressRoutes {
  import opened Wrappers
  import opened Text
  import opened JsValues
  import opened ServerModels
  import opened Percent
  import opened IntSets

  /** One entry of the bundled verse catalog (the server's gita.json, read once at start;
      if it cannot be read the catalog is empty). */
  datatype CatalogVerse = CatalogVerse(chapter: int, verse: int)

  // ---------------------------------------------------------------------------
  // The catalog

  /** verseIdsForChapter: the verse numbers of the catalog entries of a chapter, in
      catalog order (none for NaN, which equals nothing). */
  function VerseIdsForChapter(gita: seq<CatalogVerse>, chapter: JsNum): (ids: seq<int>)
    ensures |ids| <= |gita|
    ensures chapter.NaN? ==> ids == []
  {
    if gita == [] then []
    else
      var last := gita[|gita| - 1];
      VerseIdsForChapter(gita[..|gita| - 1], chapter)
        + (if StrictEq(Finite(last.chapter), chapter) then [last.verse] else [])
  }

  /** The number of catalog entries of a chapter (the summary's `totalVerses`). */
  function CatalogCount(gita: seq<CatalogVerse>, chapter: int): nat
  {
    if gita == [] then 0
    else CatalogCount(gita[..|gita| - 1], chapter) + (if gita[|gita| - 1].chapter == chapter then 1 else 0)
  }

  function CatalogChapters(gita: seq<CatalogVerse>): set<int>
  {
    set i | 0 <= i < |gita| :: gita[i].chapter
  }

  /** The verses listed for a chapter are exactly the catalog's verses of that chapter,
      as many as the catalog has entries for it. */
  lemma {:induction false} VerseIdsForChapterSpec(gita: seq<CatalogVerse>, chapter: int)
    ensures |VerseIdsForChapter(gita, Finite(chapter))| == CatalogCount(gita, chapter)
    ensures forall v :: v in VerseIdsForChapter(gita, Finite(chapter)) <==>
                        exists i :: 0 <= i < |gita| && gita[i] == CatalogVerse(chapter, v)
  {
    if gita != [] {
      var init := gita[..|gita| - 1];
      VerseIdsForChapterSpec(init, chapter);
      forall v ensures v in VerseIdsForChapter(gita, Finite(chapter)) <==>
                       exists i :: 0 <= i < |gita| && gita[i] == CatalogVerse(chapter, v) {
        if v in VerseIdsForChapter(init, Finite(chapter)) {
          var i :| 0 <= i < |init| && init[i] == CatalogVerse(chapter, v);
          assert gita[i] == CatalogVerse(chapter, v);
        }
        if exists i :: 0 <= i < |gita| && gita[i] == CatalogVerse(chapter, v) {
          var i :| 0 <= i < |gita| && gita[i] == CatalogVerse(chapter, v);
          if i < |init| {
            assert init[i] == gita[i];
          }
        }
      }
    }
  }

  /** A chapter has catalog entries exactly when it is one of the catalog's chapters. */
  lemma {:induction false} CatalogCountPositive(gita: seq<CatalogVerse>, chapter: int)
    ensures CatalogCount(gita, chapter) > 0 <==> chapter in CatalogChapters(gita)
  {
    if gita != [] {
      var init := gita[..|gita| - 1];
      CatalogCountPositive(init, chapter);
      assert CatalogChapters(gita) == CatalogChapters(init) + {gita[|gita| - 1].chapter} by {
        forall c | c in CatalogChapters(gita) ensures c in CatalogChapters(init) + {gita[|gita| - 1].chapter} {
          var i :| 0 <= i < |gita| && gita[i].chapter == c;
          if i < |init| { assert init[i] == gita[i]; }
        }
        forall c | c in CatalogChapters(init) ensures c in CatalogChapters(gita) {
          var i :| 0 <= i < |init| && init[i].chapter == c;
          assert gita[i] == init[i];
        }
      }
    }
  }

  // ---------------------------------------------------------------------------
  // The progress collection as a map

  /** The document for a key, if there is one. */
  function FindProgress(docs: seq<ProgressDoc>, userId: nat, chapter: int, verse: int): (r: Option<nat>)
    ensures r.Some? ==> r.value < |docs| && SameProgressKey(docs[r.value], userId, chapter, verse)
    ensures r.None? ==> forall i :: 0 <= i < |docs| ==> !SameProgressKey(docs[i], userId, chapter, verse)
  {
    if docs == [] then None
    else if SameProgressKey(docs[|docs| - 1], userId, chapter, verse) then Some(|docs| - 1)
    else FindProgress(docs[..|docs| - 1], userId, chapter, verse)
  }

  /** The stored state for a key: the map view of the collection. */
  function StateOf(docs: seq<ProgressDoc>, userId: nat, chapter: int, verse: int): Option<ProgressDoc>
  {
    match FindProgress(docs, userId, chapter, verse)
    case Some(i) => Some(docs[i])
    case None => None
  }

  /** `$set: { completed, completedAt: completed ? now : null }` */
  function SetState(d: ProgressDoc, completed: bool, nowMs: int): ProgressDoc
  {
    d.(completed := Flag(completed), completedAt := if completed then Some(nowMs) else None)
  }

  /** An upsert of one key: update the document if there is one, insert it otherwise. */
  function Upsert(docs: seq<ProgressDoc>, userId: nat, chapter: int, verse: int, completed: bool, nowMs: int): (r: seq<ProgressDoc>)
    ensures |docs| <= |r| <= |docs| + 1
    ensures forall i :: 0 <= i < |docs| && !SameProgressKey(docs[i], userId, chapter, verse) ==> r[i] == docs[i]
  {
    match FindProgress(docs, userId, chapter, verse)
    case Some(i) => docs[i := SetState(docs[i], completed, nowMs)]
    case None => docs + [SetState(NewProgress(userId, chapter, verse), completed, nowMs)]
  }

  /** The state an upsert leaves under its key. */
  function Written(userId: nat, chapter: int, verse: int, completed: bool, nowMs: int): ProgressDoc
  {
    ProgressDoc(userId, chapter, verse, Flag(completed), if completed then Some(nowMs) else None)
  }

  /** An upsert keeps the unique index. */
  lemma UpsertValid(docs: seq<ProgressDoc>, userId: nat, chapter: int, verse: int, completed: bool, nowMs: int)
    requires ProgressKeysUnique(docs)
    ensures ProgressKeysUnique(Upsert(docs, userId, chapter, verse, completed, nowMs))
  {
  }

  /** After an upsert its key holds the written state and every other key holds what it
      held before. */
  lemma {:induction false} UpsertEffect(docs: seq<ProgressDoc>, userId: nat, chapter: int, verse: int, completed: bool, nowMs: int,
                                        u: nat, c: int, v: int)
    ensures var after := Upsert(docs, userId, chapter, verse, completed, nowMs);
            StateOf(after, u, c, v) == if (u, c, v) == (userId, chapter, verse)
                                       then Some(Written(userId, chapter, verse, completed, nowMs))
                                       else StateOf(docs, u, c, v)
  {
    var after := Upsert(docs, userId, chapter, verse, completed, nowMs);
    match FindProgress(docs, userId, chapter, verse)
    case Some(i) =>
      if (u, c, v) == (userId, chapter, verse) {
        FindAfterUpdate(docs, i, SetState(docs[i], completed, nowMs), u, c, v);
      } else {
        FindAfterUpdate(docs, i, SetState(docs[i], completed, nowMs), u, c, v);
      }
    case None =>
      FindAfterAppend(docs, SetState(NewProgress(userId, chapter, verse), completed, nowMs), u, c, v);
  }

  /** Replacing a document by one with the same key moves no key. */
  lemma {:induction false} FindAfterUpdate(docs: seq<ProgressDoc>, i: nat, d: ProgressDoc, u: nat, c: int, v: int)
    requires i < |docs| && d.userId == docs[i].userId && d.chapter == docs[i].chapter && d.verse == docs[i].verse
    ensures FindProgress(docs[i := d], u, c, v) == FindProgress(docs, u, c, v)
    decreases |docs|
  {
    if docs != [] && i < |docs| - 1 {
      assert docs[i := d][..|docs| - 1] == docs[..|docs| - 1][i := d];
      FindAfterUpdate(docs[..|docs| - 1], i, d, u, c, v);
    } else if docs != [] {
      assert docs[i := d][..|docs| - 1] == docs[..|docs| - 1];
    }
  }

  lemma FindAfterAppend(docs: seq<ProgressDoc>, d: ProgressDoc, u: nat, c: int, v: int)
    ensures FindProgress(docs + [d], u, c, v) ==
              if SameProgressKey(d, u, c, v) then Some(|docs|) else FindProgress(docs, u, c, v)
  {
    assert (docs + [d])[..|docs|] == docs;
  }

  /** Replaying the same upsert at the same time changes nothing more; at any later time
      the key still holds the same `completed`. */
  lemma {:induction false} UpsertIdempotent(docs: seq<ProgressDoc>, userId: nat, chapter: int, verse: int, completed: bool,
                                            nowMs: int, laterMs: int)
    ensures var once := Upsert(docs, userId, chapter, verse, completed, nowMs);
            Upsert(once, userId, chapter, verse, completed, nowMs) == once
            && StateOf(Upsert(once, userId, chapter, verse, completed, laterMs), userId, chapter, verse).Some?
            && StateOf(Upsert(once, userId, chapter, verse, completed, laterMs), userId, chapter, verse).value.completed
               == Flag(completed)
  {
    var once := Upsert(docs, userId, chapter, verse, completed, nowMs);
    UpsertEffect(docs, userId, chapter, verse, completed, nowMs, userId, chapter, verse);
    UpsertEffect(once, userId, chapter, verse, completed, laterMs, userId, chapter, verse);
    var i := FindProgress(once, userId, chapter, verse).value;
    assert once[i] == Written(userId, chapter, verse, completed, nowMs);
    assert once[i := SetState(once[i], completed, nowMs)] == once;
  }

  /** The bulk write: one upsert per target verse, in order. */
  function UpsertAll(docs: seq<ProgressDoc>, userId: nat, chapter: int, targets: seq<int>, completed: bool, nowMs: int): (r: seq<ProgressDoc>)
    decreases |targets|
    ensures |docs| <= |r| <= |docs| + |targets|
  {
    if targets == [] then docs
    else Upsert(UpsertAll(docs, userId, chapter, targets[..|targets| - 1], completed, nowMs),
                userId, chapter, targets[|targets| - 1], completed, nowMs)
  }

  /** After the bulk write every target verse holds the written state, every other key
      holds what it held before, and the unique index still holds. */
  lemma {:induction false} UpsertAllEffect(docs: seq<ProgressDoc>, userId: nat, chapter: int, targets: seq<int>, completed: bool,
                                           nowMs: int, u: nat, c: int, v: int)
    requires ProgressKeysUnique(docs)
    ensures ProgressKeysUnique(UpsertAll(docs, userId, chapter, targets, completed, nowMs))
    ensures StateOf(UpsertAll(docs, userId, chapter, targets, completed, nowMs), u, c, v)
            == if u == userId && c == chapter && v in targets
               then Some(Written(userId, chapter, v, completed, nowMs))
               else StateOf(docs, u, c, v)
    decreases |targets|
  {
    if targets != [] {
      var init := targets[..|targets| - 1];
      var t := targets[|targets| - 1];
      UpsertAllEffect(docs, userId, chapter, init, completed, nowMs, u, c, v);
      var mid := UpsertAll(docs, userId, chapter, init, completed, nowMs);
      UpsertAllStep(docs, userId, chapter, targets, completed, nowMs);
      UpsertValid(mid, userId, chapter, t, completed, nowMs);
      UpsertEffect(mid, userId, chapter, t, completed, nowMs, u, c, v);
      LastSplit(targets, v);
    }
  }

  lemma UpsertAllStep(docs: seq<ProgressDoc>, userId: nat, chapter: int, targets: seq<int>, completed: bool, nowMs: int)
    requires targets != []
    ensures UpsertAll(docs, userId, chapter, targets, completed, nowMs)
            == Upsert(UpsertAll(docs, userId, chapter, targets[..|targets| - 1], completed, nowMs),
                      userId, chapter, targets[|targets| - 1], completed, nowMs)
  {
  }

  lemma LastSplit(xs: seq<int>, v: int)
    requires xs != []
    ensures v in xs <==> v in xs[..|xs| - 1] || v == xs[|xs| - 1]
  {
    assert xs == xs[..|xs| - 1] + [xs[|xs| - 1]];
  }

  // ---------------------------------------------------------------------------
  // POST /me/verse

  datatype VerseBody = VerseBody(chapter: Json, verse: Json, completed: Json)

  datatype VerseReply = VerseSaved(chapter: int, verse: int, completed: bool, completedAt: Option<int>)
                      | VerseFailed(status: nat, message: string)

  /** The checks before the write: a falsy chapter or verse (0 included) or a `completed`
      that is not a boolean is refused with 400; a chapter or verse that is not a number
      fails the cast of the query (500). None: the write goes ahead. */
  function VerseCheck(body: VerseBody): (r: Option<VerseReply>)
    ensures r.None? <==> (Truthy(body.chapter) && Truthy(body.verse) && body.completed.Bool?
                         && ToNumber(body.chapter).Finite? && ToNumber(body.verse).Finite?)
    ensures r.Some? ==> r.value.VerseFailed? && r.value.status in {400, 500}
  {
    if !Truthy(body.chapter) || !Truthy(body.verse) || !body.completed.Bool? then
      Some(VerseFailed(400, "chapter, verse, and completed (boolean) are required"))
    else if ToNumber(body.chapter).NaN? || ToNumber(body.verse).NaN? then Some(VerseFailed(500, "Server error"))
    else None
  }

  /** POST /me/verse for the user the session middleware resolved. */
  method SetVerse(store: ProgressStore, actor: User, body: VerseBody, nowMs: int) returns (reply: VerseReply)
    requires store.Valid()
    modifies store
    ensures store.Valid()
    ensures VerseCheck(body).Some? ==> reply == VerseCheck(body).value && store.docs == old(store.docs)
    ensures VerseCheck(body).None? ==>
              var ch := ToNumber(body.chapter).value;
              var v := ToNumber(body.verse).value;
              var c := body.completed.b;
              store.docs == Upsert(old(store.docs), actor.id, ch, v, c, nowMs)
              && reply == VerseSaved(ch, v, c, if c then Some(nowMs) else None)
  {
    var rejected := VerseCheck(body);
    if rejected.Some? {
      return rejected.value;
    }
    var ch := ToNumber(body.chapter).value;
    var v := ToNumber(body.verse).value;
    var c := body.completed.b;
    UpsertValid(store.docs, actor.id, ch, v, c, nowMs);
    store.docs := Upsert(store.docs, actor.id, ch, v, c, nowMs);
    reply := VerseSaved(ch, v, c, if c then Some(nowMs) else None);
  }

  // ---------------------------------------------------------------------------
  // POST /me/chapter

  datatype ChapterBody = ChapterBody(chapterId: Json, verseIds: Json, completed: Json)

  datatype ChapterReply = ChapterSaved(chapterId: int, completed: bool, affected: nat)
                        | ChapterFailed(status: nat, message: string)

  /** The verses to write: the request's `verseIds` when it is a non-empty array,
      otherwise the catalog's verses of the chapter. */
  function Targets(gita: seq<CatalogVerse>, body: ChapterBody): seq<JsNum>
  {
    if body.verseIds.Arr? && |body.verseIds.items| > 0 then
      seq(|body.verseIds.items|, i requires 0 <= i < |body.verseIds.items| => ToNumber(body.verseIds.items[i]))
    else
      var ids := VerseIdsForChapter(gita, ToNumber(body.chapterId));
      seq(|ids|, i requires 0 <= i < |ids| => Finite(ids[i]))
  }

  predicate AllFinite(ns: seq<JsNum>)
  {
    forall i :: 0 <= i < |ns| ==> ns[i].Finite?
  }

  function Values(ns: seq<JsNum>): (vs: seq<int>)
    requires AllFinite(ns)
    ensures |vs| == |ns| && forall i :: 0 <= i < |ns| ==> vs[i] == ns[i].value
  {
    seq(|ns|, i requires 0 <= i < |ns| => ns[i].value)
  }

  /** The checks before the bulk write, in order: chapter id and boolean, a non-empty
      target list, then the numeric casts of the chapter and of every target. */
  function ChapterCheck(gita: seq<CatalogVerse>, body: ChapterBody): (r: Option<ChapterReply>)
    ensures r.None? <==> (Truthy(body.chapterId) && body.completed.Bool? && |Targets(gita, body)| > 0
                         && ToNumber(body.chapterId).Finite? && AllFinite(Targets(gita, body)))
  {
    if !Truthy(body.chapterId) || !body.completed.Bool? then
      Some(ChapterFailed(400, "chapterId and completed (boolean) are required"))
    else if |Targets(gita, body)| == 0 then Some(ChapterFailed(400, "No verses found for given chapter"))
    else if ToNumber(body.chapterId).NaN? || !AllFinite(Targets(gita, body)) then Some(ChapterFailed(500, "Server error"))
    else None
  }

  /** An empty `verseIds` array falls back to the catalog, and a chapter the catalog does
      not know is then refused. */
  lemma UnknownChapterRefused(gita: seq<CatalogVerse>, body: ChapterBody)
    requires Truthy(body.chapterId) && body.completed.Bool?
    requires !(body.verseIds.Arr? && |body.verseIds.items| > 0)
    requires ToNumber(body.chapterId).Finite? && ToNumber(body.chapterId).value !in CatalogChapters(gita)
    ensures ChapterCheck(gita, body) == Some(ChapterFailed(400, "No verses found for given chapter"))
  {
    VerseIdsForChapterSpec(gita, ToNumber(body.chapterId).value);
    CatalogCountPositive(gita, ToNumber(body.chapterId).value);
  }

  /** POST /me/chapter for the user the session middleware resolved. */
  method SetChapter(store: ProgressStore, gita: seq<CatalogVerse>, actor: User, body: ChapterBody, nowMs: int)
    returns (reply: ChapterReply)
    requires store.Valid()
    modifies store
    ensures store.Valid()
    ensures ChapterCheck(gita, body).Some? ==> reply == ChapterCheck(gita, body).value && store.docs == old(store.docs)
    ensures ChapterCheck(gita, body).None? ==>
              var targets := Values(Targets(gita, body));
              var ch := ToNumber(body.chapterId).value;
              store.docs == UpsertAll(old(store.docs), actor.id, ch, targets, body.completed.b, nowMs)
              && reply == ChapterSaved(ch, body.completed.b, |targets|)
  {
    var rejected := ChapterCheck(gita, body);
    if rejected.Some? {
      return rejected.value;
    }
    var targets := Values(Targets(gita, body));
    var ch := ToNumber(body.chapterId).value;
    var completed := body.completed.b;
    var after := BulkUpsert(store.docs, actor.id, ch, targets, completed, nowMs);
    store.docs := after;
    reply := ChapterSaved(ch, completed, |targets|);
  }

  /** The bulk write: one upsert per target, in order. */
  method BulkUpsert(docs: seq<ProgressDoc>, userId: nat, ch: int, targets: seq<int>, completed: bool, nowMs: int)
    returns (after: seq<ProgressDoc>)
    requires ProgressKeysUnique(docs)
    ensures after == UpsertAll(docs, userId, ch, targets, completed, nowMs)
    ensures ProgressKeysUnique(after)
  {
    after := docs;
    var i := 0;
    while i < |targets|
      invariant 0 <= i <= |targets|
      invariant after == UpsertAll(docs, userId, ch, targets[..i], completed, nowMs)
      invariant ProgressKeysUnique(after)
    {
      assert targets[..i + 1][..i] == targets[..i];
      UpsertValid(after, userId, ch, targets[i], completed, nowMs);
      after := Upsert(after, userId, ch, targets[i], completed, nowMs);
      i := i + 1;
    }
    assert targets[..i] == targets;
  }

  // ---------------------------------------------------------------------------
  // GET /me/chapter/:chapterId

  datatype VerseStatus = VerseStatus(verse: int, completed: bool, completedAt: Option<int>)

  datatype DetailReply = Detail(chapter: int, verses: seq<VerseStatus>) | DetailFailed(status: nat, message: string)

  /** `!!d.completed` */
  predicate CompletedTruthy(c: Completed)
  {
    match c
    case Flag(b) => b
    case Text(s) => s != ""
  }

  /** The status reported for a verse number, read from the map view of the collection. */
  function StatusOf(docs: seq<ProgressDoc>, userId: nat, chapter: int, verse: int): (s: VerseStatus)
    ensures s.verse == verse
    ensures StateOf(docs, userId, chapter, verse).None? ==> !s.completed && s.completedAt.None?
  {
    match StateOf(docs, userId, chapter, verse)
    case Some(d) => VerseStatus(verse, CompletedTruthy(d.completed), d.completedAt)
    case None => VerseStatus(verse, false, None)
  }

  /** The `byVerse` dictionary after the loop over the first documents. */
  function ByVerse(docs: seq<ProgressDoc>, userId: nat, chapter: int): map<int, (bool, Option<int>)>
  {
    if docs == [] then map[]
    else
      var d := docs[|docs| - 1];
      var m := ByVerse(docs[..|docs| - 1], userId, chapter);
      if d.userId == userId && d.chapter == chapter then m[d.verse := (CompletedTruthy(d.completed), d.completedAt)] else m
  }

  /** The dictionary the loop builds is the map view of the collection for that user and
      chapter: the last document of a key wins, and there is only one. */
  lemma {:induction false} ByVerseIsState(docs: seq<ProgressDoc>, userId: nat, chapter: int, verse: int)
    ensures verse in ByVerse(docs, userId, chapter) <==> StateOf(docs, userId, chapter, verse).Some?
    ensures verse in ByVerse(docs, userId, chapter) ==>
              var d := StateOf(docs, userId, chapter, verse).value;
              ByVerse(docs, userId, chapter)[verse] == (CompletedTruthy(d.completed), d.completedAt)
  {
    if docs != [] {
      ByVerseIsState(docs[..|docs| - 1], userId, chapter, verse);
    }
  }

  /** The list of the detail route, in catalog order. */
  function DetailList(gita: seq<CatalogVerse>, docs: seq<ProgressDoc>, userId: nat, chapter: int): (list: seq<VerseStatus>)
    ensures |list| == CatalogCount(gita, chapter)
    ensures forall i :: 0 <= i < |list| ==> CatalogVerse(chapter, list[i].verse) in gita
  {
    var ids := VerseIdsForChapter(gita, Finite(chapter));
    VerseIdsForChapterSpec(gita, chapter);
    seq(|ids|, i requires 0 <= i < |ids| => StatusOf(docs, userId, chapter, ids[i]))
  }

  /** GET /me/chapter/:chapterId for the user the session middleware resolved; the
      chapter parameter is the path text. */
  method ChapterDetail(store: ProgressStore, gita: seq<CatalogVerse>, actor: User, chapterParam: string)
    returns (reply: DetailReply)
    ensures StringToNumber(chapterParam).NaN? ==> reply == DetailFailed(500, "Server error")
    ensures StringToNumber(chapterParam).Finite? ==>
              var ch := StringToNumber(chapterParam).value;
              reply == Detail(ch, DetailList(gita, store.docs, actor.id, ch))
  {
    var chapterId := StringToNumber(chapterParam);
    if chapterId.NaN? {
      return DetailFailed(500, "Server error");
    }
    var ch := chapterId.value;
    var verseNums := VerseIdsForChapter(gita, chapterId);
    var byVerse := CollectByVerse(store.docs, actor.id, ch);
    var list := StatusList(store.docs, actor.id, ch, verseNums, byVerse);
    assert list == DetailList(gita, store.docs, actor.id, ch) by {
      var expected := DetailList(gita, store.docs, actor.id, ch);
      assert verseNums == VerseIdsForChapter(gita, Finite(ch));
      assert |expected| == |list|;
      forall j | 0 <= j < |list| ensures list[j] == expected[j] {
        assert expected[j] == StatusOf(store.docs, actor.id, ch, verseNums[j]);
      }
    }
    reply := Detail(ch, list);
  }

  /** The first loop of the detail route: the user's documents of the chapter, by verse. */
  method CollectByVerse(docs: seq<ProgressDoc>, userId: nat, ch: int) returns (byVerse: map<int, (bool, Option<int>)>)
    ensures byVerse == ByVerse(docs, userId, ch)
  {
    byVerse := map[];
    var i := 0;
    while i < |docs|
      invariant 0 <= i <= |docs|
      invariant byVerse == ByVerse(docs[..i], userId, ch)
    {
      assert docs[..i + 1][..i] == docs[..i];
      var d := docs[i];
      if d.userId == userId && d.chapter == ch {
        byVerse := byVerse[d.verse := (CompletedTruthy(d.completed), d.completedAt)];
      }
      i := i + 1;
    }
    assert docs[..i] == docs;
  }

  /** The second loop: one status per catalog verse, read from the dictionary. */
  method StatusList(docs: seq<ProgressDoc>, userId: nat, ch: int, verseNums: seq<int>,
                    byVerse: map<int, (bool, Option<int>)>) returns (list: seq<VerseStatus>)
    requires byVerse == ByVerse(docs, userId, ch)
    ensures |list| == |verseNums|
    ensures forall j :: 0 <= j < |list| ==> list[j] == StatusOf(docs, userId, ch, verseNums[j])
  {
    list := [];
    var k := 0;
    while k < |verseNums|
      invariant 0 <= k <= |verseNums|
      invariant |list| == k
      invariant forall j :: 0 <= j < k ==> list[j] == StatusOf(docs, userId, ch, verseNums[j])
    {
      var v := verseNums[k];
      ByVerseIsState(docs, userId, ch, v);
      var status := if v in byVerse then VerseStatus(v, byVerse[v].0, byVerse[v].1) else VerseStatus(v, false, None);
      list := list + [status];
      k := k + 1;
    }
  }

  /** The detail lists exactly the catalog verses of the chapter, in catalog order; a verse
      without a document is reported not completed with no completion time. */
  lemma DetailListShape(gita: seq<CatalogVerse>, docs: seq<ProgressDoc>, userId: nat, chapter: int)
    ensures var list := DetailList(gita, docs, userId, chapter);
            var ids := VerseIdsForChapter(gita, Finite(chapter));
            |list| == |ids| == CatalogCount(gita, chapter)
            && (forall i :: 0 <= i < |list| ==> list[i].verse == ids[i])
            && (forall i :: 0 <= i < |list| && StateOf(docs, userId, chapter, ids[i]).None? ==>
                  !list[i].completed && list[i].completedAt.None?)
  {
    VerseIdsForChapterSpec(gita, chapter);
  }

  /** After marking a verse, the detail of its chapter reports its new state. */
  lemma {:induction false} DetailAfterSetVerse(gita: seq<CatalogVerse>, docs: seq<ProgressDoc>, userId: nat, chapter: int,
                                               verse: int, completed: bool, nowMs: int, i: nat)
    requires i < |VerseIdsForChapter(gita, Finite(chapter))| && VerseIdsForChapter(gita, Finite(chapter))[i] == verse
    ensures DetailList(gita, Upsert(docs, userId, chapter, verse, completed, nowMs), userId, chapter)[i]
            == VerseStatus(verse, completed, if completed then Some(nowMs) else None)
  {
    UpsertEffect(docs, userId, chapter, verse, completed, nowMs, userId, chapter, verse);
  }

  // ---------------------------------------------------------------------------
  // GET /me

  /** A document the summary counts: the user's, and completed as true or "true". */
  predicate CountsAsCompleted(d: ProgressDoc, userId: nat)
  {
    d.userId == userId && (d.completed == Flag(true) || d.completed == Text("true"))
  }

  /** The aggregation's count for one chapter. */
  function CompletedCount(docs: seq<ProgressDoc>, userId: nat, chapter: int): nat
  {
    if docs == [] then 0
    else
      var d := docs[|docs| - 1];
      CompletedCount(docs[..|docs| - 1], userId, chapter)
        + (if CountsAsCompleted(d, userId) && d.chapter == chapter then 1 else 0)
  }

  function CompletedChapters(docs: seq<ProgressDoc>, userId: nat): set<int>
  {
    set i | 0 <= i < |docs| && CountsAsCompleted(docs[i], userId) :: docs[i].chapter
  }

  /** The aggregation pipeline ($match then $group by chapter) as its result: one count
      per chapter that has at least one counted document. */
  function Aggregate(docs: seq<ProgressDoc>, userId: nat): (m: map<int, nat>)
    ensures forall c :: c in m <==> CompletedCount(docs, userId, c) > 0
  {
    CompletedChaptersArePositive(docs, userId);
    map c | c in CompletedChapters(docs, userId) :: CompletedCount(docs, userId, c)
  }

  lemma {:induction false} CompletedCountPositive(docs: seq<ProgressDoc>, userId: nat, chapter: int)
    ensures CompletedCount(docs, userId, chapter) > 0 <==> chapter in CompletedChapters(docs, userId)
  {
    if docs != [] {
      var init := docs[..|docs| - 1];
      CompletedCountPositive(init, userId, chapter);
      if chapter in CompletedChapters(docs, userId) {
        var i :| 0 <= i < |docs| && CountsAsCompleted(docs[i], userId) && docs[i].chapter == chapter;
        if i < |init| { assert init[i] == docs[i]; }
      }
      if chapter in CompletedChapters(init, userId) {
        var i :| 0 <= i < |init| && CountsAsCompleted(init[i], userId) && init[i].chapter == chapter;
        assert docs[i] == init[i];
      }
    }
  }

  lemma CompletedChaptersArePositive(docs: seq<ProgressDoc>, userId: nat)
    ensures forall c :: c in CompletedChapters(docs, userId) <==> CompletedCount(docs, userId, c) > 0
  {
    forall c ensures c in CompletedChapters(docs, userId) <==> CompletedCount(docs, userId, c) > 0 {
      CompletedCountPositive(docs, userId, c);
    }
  }

  datatype SummaryRow = SummaryRow(chapter: int, totalVerses: nat, completedCount: nat, percent: nat)

  /** The row the summary reports for a chapter. */
  function RowFor(gita: seq<CatalogVerse>, docs: seq<ProgressDoc>, userId: nat, chapter: int): SummaryRow
  {
    var total := CatalogCount(gita, chapter);
    var done := CompletedCount(docs, userId, chapter);
    SummaryRow(chapter, total, done, PercentOrZero(done, total))
  }

  /** The `chapters` dictionary after the catalog loop over the first entries. */
  function Totals(gita: seq<CatalogVerse>): (t: map<int, nat>)
    ensures forall c :: c in t <==> CatalogCount(gita, c) > 0
  {
    CatalogChaptersArePositive(gita);
    map c | c in CatalogChapters(gita) :: CatalogCount(gita, c)
  }

  lemma CatalogChaptersArePositive(gita: seq<CatalogVerse>)
    ensures forall c :: c in CatalogChapters(gita) <==> CatalogCount(gita, c) > 0
  {
    forall c ensures c in CatalogChapters(gita) <==> CatalogCount(gita, c) > 0 {
      CatalogCountPositive(gita, c);
    }
  }

  lemma TotalsStep(gita: seq<CatalogVerse>, i: nat)
    requires i < |gita|
    ensures var t := Totals(gita[..i]);
            var c := gita[i].chapter;
            Totals(gita[..i + 1]) == t[c := (if c in t then t[c] else 0) + 1]
  {
    var pre, post := gita[..i], gita[..i + 1];
    assert post[..|post| - 1] == pre;
    var c := gita[i].chapter;
    assert CatalogChapters(post) == CatalogChapters(pre) + {c} by {
      forall x | x in CatalogChapters(post) ensures x in CatalogChapters(pre) + {c} {
        var j :| 0 <= j < |post| && post[j].chapter == x;
        if j < i { assert pre[j] == post[j]; }
      }
      forall x | x in CatalogChapters(pre) ensures x in CatalogChapters(post) {
        var j :| 0 <= j < |pre| && pre[j].chapter == x;
        assert post[j] == pre[j];
      }
    }
    CatalogCountPositive(pre, c);
  }

  /** The catalog loop of the summary: `totalVerses` per catalog chapter. */
  method CountCatalog(gita: seq<CatalogVerse>) returns (totals: map<int, nat>)
    ensures totals == Totals(gita)
  {
    totals := map[];
    var i := 0;
    while i < |gita|
      invariant 0 <= i <= |gita|
      invariant totals == Totals(gita[..i])
    {
      TotalsStep(gita, i);
      var c := gita[i].chapter;
      totals := totals[c := (if c in totals then totals[c] else 0) + 1];
      i := i + 1;
    }
    assert gita[..i] == gita;
  }

  /** The aggregation loop of the summary: every aggregated chapter gets its count, and a
      chapter the catalog does not have gets `totalVerses` 0. */
  method MergeCounts(totals: map<int, nat>, agg: map<int, nat>) returns (chapters: map<int, (nat, nat)>)
    ensures chapters.Keys == totals.Keys + agg.Keys
    ensures forall c :: c in chapters ==>
              chapters[c] == ((if c in totals then totals[c] else 0), (if c in agg then agg[c] else 0))
  {
    chapters := map c | c in totals :: (totals[c], 0);
    var pending := agg.Keys;
    while pending != {}
      invariant pending <= agg.Keys
      invariant chapters.Keys == totals.Keys + (agg.Keys - pending)
      invariant forall k :: k in chapters ==> chapters[k].0 == (if k in totals then totals[k] else 0)
      invariant forall k :: k in chapters ==> chapters[k].1 == (if k in agg && k !in pending then agg[k] else 0)
      decreases pending
    {
      HasElement(pending);
      var c :| c in pending;
      var total: nat := if c in chapters then chapters[c].0 else 0;
      chapters := chapters[c := (total, agg[c])];
      pending := pending - {c};
    }
  }

  /** The row for one entry of the `chapters` dictionary. */
  function RowOf(c: int, entry: (nat, nat)): SummaryRow
  {
    SummaryRow(c, entry.0, entry.1, PercentOrZero(entry.1, entry.0))
  }

  /** Some row reports chapter c. */
  predicate Listed(rows: seq<SummaryRow>, c: int)
  {
    exists j :: 0 <= j < |rows| && rows[j].chapter == c
  }

  lemma ListedAppend(rows: seq<SummaryRow>, row: SummaryRow, c: int)
    ensures Listed(rows + [row], c) <==> Listed(rows, c) || row.chapter == c
  {
    var next := rows + [row];
    if Listed(rows, c) {
      var j :| 0 <= j < |rows| && rows[j].chapter == c;
      assert next[j].chapter == c;
    }
    if row.chapter == c {
      assert next[|rows|].chapter == c;
    }
    if Listed(next, c) {
      var j :| 0 <= j < |next| && next[j].chapter == c;
      if j < |rows| { assert rows[j].chapter == c; }
    }
  }

  /** `Object.values(chapters).sort((a, b) => a.chapter - b.chapter)` with the percent added. */
  method SortRows(chapters: map<int, (nat, nat)>) returns (rows: seq<SummaryRow>)
    ensures forall i, j :: 0 <= i < j < |rows| ==> rows[i].chapter < rows[j].chapter
    ensures forall i :: 0 <= i < |rows| ==> rows[i].chapter in chapters && rows[i] == RowOf(rows[i].chapter, chapters[rows[i].chapter])
    ensures forall c :: c in chapters <==> Listed(rows, c)
  {
    rows := [];
    var left := chapters.Keys;
    while left != {}
      invariant left <= chapters.Keys
      invariant forall j, k :: 0 <= j < k < |rows| ==> rows[j].chapter < rows[k].chapter
      invariant forall j, c :: 0 <= j < |rows| && c in left ==> rows[j].chapter < c
      invariant forall c :: c in chapters.Keys - left <==> Listed(rows, c)
      invariant forall j :: 0 <= j < |rows| ==> rows[j].chapter in chapters && rows[j] == RowOf(rows[j].chapter, chapters[rows[j].chapter])
      decreases left
    {
      MinExists(left);
      var m :| m in left && forall x :: x in left ==> m <= x;
      var row := RowOf(m, chapters[m]);
      forall c ensures Listed(rows + [row], c) <==> Listed(rows, c) || m == c {
        ListedAppend(rows, row, c);
      }
      rows := rows + [row];
      left := left - {m};
    }
  }

  /** GET /me: one row per chapter of the catalog or of the user's counted documents,
      sorted by chapter. Reads the store and changes nothing. */
  method Summary(store: ProgressStore, gita: seq<CatalogVerse>, actor: User) returns (rows: seq<SummaryRow>)
    ensures forall i, j :: 0 <= i < j < |rows| ==> rows[i].chapter < rows[j].chapter
    ensures forall i :: 0 <= i < |rows| ==> rows[i] == RowFor(gita, store.docs, actor.id, rows[i].chapter)
    ensures forall c :: c in CatalogChapters(gita) + CompletedChapters(store.docs, actor.id) <==> Listed(rows, c)
  {
    var agg := Aggregate(store.docs, actor.id);
    var totals := CountCatalog(gita);
    var chapters := MergeCounts(totals, agg);
    rows := SortRows(chapters);
    SummaryRowsCorrect(gita, store.docs, actor.id, chapters, rows);
  }

  lemma SummaryRowsCorrect(gita: seq<CatalogVerse>, docs: seq<ProgressDoc>, userId: nat,
                           chapters: map<int, (nat, nat)>, rows: seq<SummaryRow>)
    requires chapters.Keys == Totals(gita).Keys + Aggregate(docs, userId).Keys
    requires forall c :: c in chapters ==>
               chapters[c] == ((if c in Totals(gita) then Totals(gita)[c] else 0),
                               (if c in Aggregate(docs, userId) then Aggregate(docs, userId)[c] else 0))
    requires forall i :: 0 <= i < |rows| ==> rows[i].chapter in chapters && rows[i] == RowOf(rows[i].chapter, chapters[rows[i].chapter])
    requires forall c :: c in chapters <==> Listed(rows, c)
    ensures forall i :: 0 <= i < |rows| ==> rows[i] == RowFor(gita, docs, userId, rows[i].chapter)
    ensures forall c :: c in CatalogChapters(gita) + CompletedChapters(docs, userId) <==> Listed(rows, c)
  {
    assert chapters.Keys == CatalogChapters(gita) + CompletedChapters(docs, userId);
    forall i | 0 <= i < |rows| ensures rows[i] == RowFor(gita, docs, userId, rows[i].chapter) {
      var c := rows[i].chapter;
      CatalogCountPositive(gita, c);
      CompletedCountPositive(docs, userId, c);
      assert chapters[c] == (CatalogCount(gita, c), CompletedCount(docs, userId, c));
    }
  }

  /** A chapter known only from the user's documents reports no verses and 0 percent; a
      catalog chapter reports at most 100 percent while its count does not exceed its
      verses. */
  lemma SummaryRowBounds(gita: seq<CatalogVerse>, docs: seq<ProgressDoc>, userId: nat, chapter: int)
    ensures chapter !in CatalogChapters(gita) ==>
              RowFor(gita, docs, userId, chapter).totalVerses == 0 && RowFor(gita, docs, userId, chapter).percent == 0
    ensures CompletedCount(docs, userId, chapter) <= CatalogCount(gita, chapter) ==>
              RowFor(gita, docs, userId, chapter).percent <= 100
  {
    CatalogCountPositive(gita, chapter);
    if CompletedCount(docs, userId, chapter) <= CatalogCount(gita, chapter) {
      PercentBounded(CompletedCount(docs, userId, chapter), CatalogCount(gita, chapter));
    }
  }
}
