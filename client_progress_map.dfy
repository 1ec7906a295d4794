/** The per-verse progress map that the verse page and the chapter page build from
    GET /progress/me/chapter/:id (client/src/Pages/VersePage.js,
    client/src/Pages/ChapterPage.js). The map is a JavaScript object, whose property
    keys are strings; after a rollback a key can be present with the value undefined,
    which is the `None` of the stored option. */
module ProgressMap {
  import opened Wrappers
  import opened Text
  import opened JsValues
  import ProgressRoutes

  /** One element of the reply's verse array: the four fields a verse number is looked
      for in, and the completion flag. A missing field is `Undefined`. */
  datatype VerseEntry = VerseEntry(verse: Json, verse_number: Json, verseNumber: Json, index: Json, completed: Json)

  type ProgressMap = map<string, Option<bool>>

  /** The key an entry is stored under, `map[Number(verseNum)]` with
      `verseNum = v.verse || v.verse_number || v.verseNumber || v.index`; None when
      verseNum is undefined and the entry is skipped. */
  function EntryKey(e: VerseEntry): (k: Option<string>)
    ensures k.None? <==> Or(Or(Or(e.verse, e.verse_number), e.verseNumber), e.index).Undefined?
  {
    var n := Or(Or(Or(e.verse, e.verse_number), e.verseNumber), e.index);
    if n.Undefined? then None else Some(NumToString(ToNumber(n)))
  }

  /** The object the forEach leaves behind: entries are applied in order, a later entry
      with the same key overwriting an earlier one. */
  function MapOf(entries: seq<VerseEntry>): ProgressMap
  {
    if entries == [] then map[]
    else
      var m := MapOf(entries[..|entries| - 1]);
      var e := entries[|entries| - 1];
      match EntryKey(e)
      case None => m
      case Some(k) => m[k := Some(Truthy(e.completed))]
  }

  /** Some entry is stored under key k. */
  predicate Keyed(entries: seq<VerseEntry>, k: string)
  {
    exists i :: 0 <= i < |entries| && EntryKey(entries[i]) == Some(k)
  }

  /** Entry i is the last one stored under its key. */
  predicate LastFor(entries: seq<VerseEntry>, i: nat, k: string)
  {
    i < |entries| && EntryKey(entries[i]) == Some(k)
    && forall j :: i < j < |entries| ==> EntryKey(entries[j]) != Some(k)
  }

  lemma KeyedAppend(entries: seq<VerseEntry>, e: VerseEntry, k: string)
    ensures Keyed(entries + [e], k) <==> Keyed(entries, k) || EntryKey(e) == Some(k)
  {
    var all := entries + [e];
    if Keyed(all, k) && EntryKey(e) != Some(k) {
      var i :| 0 <= i < |all| && EntryKey(all[i]) == Some(k);
      assert i < |entries| && all[i] == entries[i];
    }
    if Keyed(entries, k) {
      var i :| 0 <= i < |entries| && EntryKey(entries[i]) == Some(k);
      assert all[i] == entries[i];
    }
    if EntryKey(e) == Some(k) {
      assert all[|entries|] == e;
    }
  }

  /** The map's keys are exactly the keys of the entries that were not skipped, and
      every stored value is a boolean (never undefined). */
  lemma {:induction false} MapOfKeys(entries: seq<VerseEntry>, k: string)
    ensures k in MapOf(entries) <==> Keyed(entries, k)
    ensures k in MapOf(entries) ==> MapOf(entries)[k].Some?
    decreases |entries|
  {
    if entries != [] {
      var init, e := entries[..|entries| - 1], entries[|entries| - 1];
      assert entries == init + [e];
      MapOfKeys(init, k);
      KeyedAppend(init, e, k);
    }
  }

  /** The value under a key is `!!completed` of the last entry stored under it. */
  lemma {:induction false} MapOfLast(entries: seq<VerseEntry>, i: nat, k: string)
    requires LastFor(entries, i, k)
    ensures k in MapOf(entries) && MapOf(entries)[k] == Some(Truthy(entries[i].completed))
    decreases |entries|
  {
    var init, e := entries[..|entries| - 1], entries[|entries| - 1];
    if i < |entries| - 1 {
      assert EntryKey(e) != Some(k);
      assert LastFor(init, i, k) by {
        forall j | i < j < |init| ensures EntryKey(init[j]) != Some(k) {
          assert init[j] == entries[j];
        }
      }
      MapOfLast(init, i, k);
      assert MapOf(entries)[k] == MapOf(init)[k];
    } else {
      assert EntryKey(e) == Some(k);
      assert MapOf(entries) == MapOf(init)[k := Some(Truthy(e.completed))];
    }
  }

  /** GET /progress/me/chapter/:id as the page sees it: the reply's `ok` and its two
      candidate verse arrays (None: the field is absent), or a rejected request. */
  datatype ProgressReply = Replied(ok: Json, verses: Option<seq<VerseEntry>>, chapterVerses: Option<seq<VerseEntry>>)
                         | Threw

  /** `res.data.verses || res.data.chapterVerses || []`: an array, even an empty one,
      is truthy. */
  function VersesArr(reply: ProgressReply): (entries: seq<VerseEntry>)
    requires reply.Replied?
    ensures reply.verses.Some? ==> entries == reply.verses.value
    ensures reply.verses.None? && reply.chapterVerses.Some? ==> entries == reply.chapterVerses.value
    ensures reply.verses.None? && reply.chapterVerses.None? ==> entries == []
  {
    if reply.verses.Some? then reply.verses.value
    else if reply.chapterVerses.Some? then reply.chapterVerses.value
    else []
  }

  /** The map `fetchChapterProgress` stores: built from the reply's verses when the reply
      is ok, empty for a reply that is not ok and for a failed request. */
  function ProgressOf(reply: ProgressReply): (m: ProgressMap)
    ensures !(reply.Replied? && Truthy(reply.ok)) ==> m == map[]
  {
    if reply.Replied? && Truthy(reply.ok) then MapOf(VersesArr(reply)) else map[]
  }

  /** fetchChapterProgress: the forEach over the verse array that fills the object. */
  method FetchChapterProgress(reply: ProgressReply) returns (m: ProgressMap)
    ensures m == ProgressOf(reply)
    ensures reply.Replied? && Truthy(reply.ok) ==> forall k :: k in m <==> Keyed(VersesArr(reply), k)
  {
    if reply.Threw? || !Truthy(reply.ok) {
      return map[];
    }
    var versesArr := VersesArr(reply);
    m := map[];
    var i := 0;
    while i < |versesArr|
      invariant 0 <= i <= |versesArr|
      invariant m == MapOf(versesArr[..i])
    {
      var v := versesArr[i];
      assert versesArr[..i + 1][..i] == versesArr[..i];
      var verseNum := Or(Or(Or(v.verse, v.verse_number), v.verseNumber), v.index);
      if !verseNum.Undefined? {
        m := m[NumToString(ToNumber(verseNum)) := Some(Truthy(v.completed))];
      }
      i := i + 1;
    }
    assert versesArr[..i] == versesArr;
    forall k ensures k in m <==> Keyed(versesArr, k) {
      MapOfKeys(versesArr, k);
    }
  }

  /** `progressMap[key]`: the stored value, or undefined for an absent key. */
  function Read(m: ProgressMap, key: string): (r: Option<bool>)
    ensures key !in m ==> r.None?
    ensures key in m ==> r == m[key]
  {
    if key in m then m[key] else None
  }

  /** `!!(progressMap[key] || false)`: only a stored true counts. */
  predicate IsCompleted(m: ProgressMap, key: string)
  {
    Read(m, key) == Some(true)
  }

  /** How the chapter detail reply of ProgressRoutes reads on the client: each entry
      carries `verse` and `completed`, and nothing else the builder looks at. */
  function DetailEntries(list: seq<ProgressRoutes.VerseStatus>): (entries: seq<VerseEntry>)
    ensures |entries| == |list|
    ensures forall i :: 0 <= i < |list| ==>
              entries[i] == VerseEntry(Num(list[i].verse), Undefined, Undefined, Undefined, Bool(list[i].completed))
  {
    seq(|list|, i requires 0 <= i < |list| =>
      VerseEntry(Num(list[i].verse), Undefined, Undefined, Undefined, Bool(list[i].completed)))
  }

  /** Reading the map built from the server's detail reply at the decimal spelling of a
      listed verse gives that verse's completion state. Verse 0 is falsy and its entry
      is skipped. */
  lemma ServerDetailReadsBack(list: seq<ProgressRoutes.VerseStatus>, i: nat)
    requires i < |list| && list[i].verse != 0
    requires forall j :: i < j < |list| ==> list[j].verse != list[i].verse
    ensures IsCompleted(MapOf(DetailEntries(list)), IntToString(list[i].verse)) == list[i].completed
  {
    var entries := DetailEntries(list);
    var k := IntToString(list[i].verse);
    forall j | i < j < |entries| ensures EntryKey(entries[j]) != Some(k) {
      if list[j].verse == 0 {
        assert EntryKey(entries[j]).None?;
      } else {
        assert EntryKey(entries[j]) == Some(IntToString(list[j].verse));
        IntToStringInjective(list[j].verse, list[i].verse);
      }
    }
    assert LastFor(entries, i, k);
    MapOfLast(entries, i, k);
  }

  /** How the page receives the detail route's answer: `{ ok: true, chapter, verses }`
      with status 200, or an error status, which makes the request reject. */
  function SeenDetail(d: ProgressRoutes.DetailReply): (r: ProgressReply)
    ensures d.Detail? ==> r.Replied? && Truthy(r.ok) && VersesArr(r) == DetailEntries(d.verses)
    ensures d.DetailFailed? ==> r.Threw?
  {
    match d
    case Detail(_, verses) => Replied(Bool(true), Some(DetailEntries(verses)), None)
    case DetailFailed(_, _) => Threw
  }
}
