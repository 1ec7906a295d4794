/** The verse page (client/src/Pages/VersePage.js): the word-by-word meanings parsed
    from the verse text, the recitation URL, the per-verse progress toggle with its
    optimistic update and rollback, and the favourite toggle. */
module VersePage {
  import opened Wrappers
  import opened Text
  import opened JsValues
  import opened ClientRequests
  import opened ProgressMap
  import ProgressRoutes
  import FavouriteRoutes
  import ServerModels

  /** The verse object from the context: `{}` before one is loaded, otherwise its
      chapter and verse numbers and the `word_meanings` text (a missing or null text
      is "" here, which is what `|| ""` makes of it). */
  datatype Verse = NoVerse | Verse(chapter_number: Json, verse_number: Json, word_meanings: string)

  // ---------------------------------------------------------------------------
  // Word meanings

  /** One row of the meanings table; `meaning` is undefined when the piece has no dash. */
  datatype WordMeaning = WordMeaning(id: string, word: string, meaning: Option<string>)

  /** `{ id: `${index + 1}`, word: sentence.split("—")[0], meaning: sentence.split("—")[1] }` */
  function ParseSentence(sentence: string, index: nat): (w: WordMeaning)
    ensures w.id == NatToString(index + 1)
  {
    var parts := Split(sentence, "—");
    WordMeaning(NatToString(index + 1), parts[0], if |parts| > 1 then Some(parts[1]) else None)
  }

  /** The pieces of the meanings text: `"; "`-separated sentences, or none at all. */
  function Sentences(v: Verse): (s: seq<string>)
    ensures v.NoVerse? || v.word_meanings == "" ==> s == []
  {
    if v.NoVerse? || v.word_meanings == "" then [] else Split(v.word_meanings, "; ")
  }

  /** The effect that fills the meanings table. */
  function WordMeanings(v: Verse): (rows: seq<WordMeaning>)
    ensures |rows| == |Sentences(v)|
    ensures forall i :: 0 <= i < |rows| ==> rows[i] == ParseSentence(Sentences(v)[i], i)
  {
    var sentences := Sentences(v);
    seq(|sentences|, i requires 0 <= i < |sentences| => ParseSentence(sentences[i], i))
  }

  /** The row ids are "1", "2", ... in order, so no two rows share one. */
  lemma WordMeaningIds(v: Verse, i: nat, j: nat)
    requires i < |WordMeanings(v)| && j < |WordMeanings(v)| && i != j
    ensures WordMeanings(v)[i].id == NatToString(i + 1)
    ensures WordMeanings(v)[i].id != WordMeanings(v)[j].id
  {
    if WordMeanings(v)[i].id == WordMeanings(v)[j].id {
      NatToStringInjective(i + 1, j + 1);
    }
  }

  /** p is where s starts. */
  predicate IsPrefix(p: string, s: string)
  {
    |p| <= |s| && s[..|p|] == p
  }

  /** A row's word is the text before the first dash and holds no dash; the meaning is
      present exactly when the piece has a dash, and then the text after that dash
      starts with it. */
  lemma ParseSentenceShape(sentence: string, index: nat)
    ensures var w := ParseSentence(sentence, index);
            !Contains(w.word, "—")
            && (w.meaning.None? <==> !Contains(sentence, "—"))
            && (w.meaning.None? ==> w.word == sentence)
            && (w.meaning.Some? ==>
                  |w.word| < |sentence| && sentence[|w.word|] == '—' && IsPrefix(w.meaning.value, sentence[|w.word| + 1..]))
  {
    var parts := Split(sentence, "—");
    if Contains(sentence, "—") {
      SplitFirst(sentence, "—");
      var rest := Join(parts[1..], "—");
      assert sentence == parts[0] + "—" + rest;
      JoinPrefix(parts[1..], "—");
      assert sentence[|parts[0]| + 1..] == rest;
    } else {
      SplitAbsent(sentence, "—");
    }
  }

  /** The first piece is where the text of the join starts. */
  lemma JoinPrefix(parts: seq<string>, sep: string)
    requires |parts| >= 1
    ensures IsPrefix(parts[0], Join(parts, sep))
  {
  }

  /** A dash occurs at most once in s. */
  predicate AtMostOneDash(s: string)
  {
    forall a, b :: 0 <= a < b < |s| && s[a] == '—' ==> s[b] != '—'
  }

  /** The piece a row was parsed from, written back: word, dash, meaning. */
  function Unparse(w: WordMeaning): string
  {
    if w.meaning.Some? then w.word + "—" + w.meaning.value else w.word
  }

  /** With at most one dash per piece nothing is lost: the row gives its piece back. */
  lemma ParseSentenceRoundTrip(sentence: string, index: nat)
    requires AtMostOneDash(sentence)
    ensures Unparse(ParseSentence(sentence, index)) == sentence
  {
    var parts := Split(sentence, "—");
    if Contains(sentence, "—") {
      SplitFirst(sentence, "—");
      var i := |parts[0]|;
      var rest := sentence[i + 1..];
      assert sentence[i] == '—';
      forall k: nat | k <= |rest| ensures !OccursAt(rest, "—", k) {
        CharOccurs(rest, '—', k);
        if k < |rest| {
          assert rest[k] == sentence[i + 1 + k];
        }
      }
      SplitAbsent(rest, "—");
      assert parts[1..] == [rest];
      assert sentence == parts[0] + "—" + rest;
    } else {
      SplitAbsent(sentence, "—");
    }
  }

  /** Every row written back as its piece. */
  function UnparseAll(rows: seq<WordMeaning>): (pieces: seq<string>)
    ensures |pieces| == |rows| && forall i :: 0 <= i < |rows| ==> pieces[i] == Unparse(rows[i])
  {
    seq(|rows|, i requires 0 <= i < |rows| => Unparse(rows[i]))
  }

  /** Reassembling every row and joining with "; " gives back the meanings text, when
      no piece has two dashes. */
  lemma WordMeaningsRoundTrip(v: Verse)
    requires v.Verse? && v.word_meanings != ""
    requires forall s :: s in Sentences(v) ==> AtMostOneDash(s)
    ensures Join(UnparseAll(WordMeanings(v)), "; ") == v.word_meanings
  {
    var rows := WordMeanings(v);
    var sentences := Sentences(v);
    var back := UnparseAll(rows);
    forall i | 0 <= i < |rows| ensures back[i] == sentences[i] {
      assert sentences[i] in sentences;
      ParseSentenceRoundTrip(sentences[i], i);
    }
    assert back == sentences;
    SplitJoin(v.word_meanings, "; ");
  }

  // ---------------------------------------------------------------------------
  // Recitation audio

  /** `x != null`: neither null nor undefined. */
  predicate NotNullish(j: Json)
  {
    !j.Undefined? && !j.Null?
  }

  /** `audioUrl`: the loaded verse's numbers when both are present, else the route
      parameters when both are non-empty, else null. */
  function AudioUrl(v: Verse, id: string, sh: string): (url: Option<string>)
    ensures url.Some? <==> (v.Verse? && NotNullish(v.chapter_number) && NotNullish(v.verse_number)) || (id != "" && sh != "")
  {
    if v.Verse? && NotNullish(v.chapter_number) && NotNullish(v.verse_number) then
      Some(RecitationPath(JsToString(v.chapter_number), JsToString(v.verse_number)))
    else if id != "" && sh != "" then Some(RecitationPath(id, sh))
    else None
  }

  /** Once the verse for the route is loaded, the URL does not change: its numbers
      spell the route parameters. */
  lemma AudioUrlStableOnLoad(c: int, n: int, meanings: string)
    ensures AudioUrl(Verse(Num(c), Num(n), meanings), IntToString(c), IntToString(n))
            == AudioUrl(NoVerse, IntToString(c), IntToString(n))
  {
    IntToStringDigitsOrMinus(c);
    IntToStringDigitsOrMinus(n);
  }

  // ---------------------------------------------------------------------------
  // The favourites list read back

  /** `favs.some(f => Number(f.chapter) === Number(id) && Number(f.verse) === Number(sh))` */
  predicate AnyMatches(favs: seq<ServerModels.FavouriteDoc>, id: string, sh: string)
  {
    exists i :: 0 <= i < |favs| && Matches(favs[i], id, sh)
  }

  predicate Matches(f: ServerModels.FavouriteDoc, id: string, sh: string)
  {
    StrictEq(Finite(f.chapter), StringToNumber(id)) && StrictEq(Finite(f.verse), StringToNumber(sh))
  }

  /** The page's check against the server's list of the user's favourites (GET
      /favourites/me) is the server's own membership of the verse. */
  lemma FoundIsServerMembership(docs: seq<ServerModels.FavouriteDoc>, user: nat, id: string, sh: string, c: int, v: int)
    requires StringToNumber(id) == Finite(c) && StringToNumber(sh) == Finite(v)
    ensures AnyMatches(FavouriteRoutes.ListMine(docs, user), id, sh) <==> FavouriteRoutes.IsFavourite(docs, user, c, v)
  {
    var list := FavouriteRoutes.ListMine(docs, user);
    if AnyMatches(list, id, sh) {
      var i :| 0 <= i < |list| && Matches(list[i], id, sh);
      assert list[i] in list;
      var j :| 0 <= j < |docs| && docs[j] == list[i];
      assert ServerModels.SameFavouriteKey(docs[j], user, c, v);
    }
    if FavouriteRoutes.IsFavourite(docs, user, c, v) {
      var j :| 0 <= j < |docs| && ServerModels.SameFavouriteKey(docs[j], user, c, v);
      assert docs[j] in list;
      var i :| 0 <= i < |list| && list[i] == docs[j];
      assert Matches(list[i], id, sh);
    }
  }

  /** Starting from the state read from the server, a successful toggle leaves the
      page showing the server's new membership. */
  lemma ToggleAgreesWithServer(docs: seq<ServerModels.FavouriteDoc>, user: nat, id: string, sh: string,
                               c: int, v: int, nowMs: int)
    requires ServerModels.FavouriteKeysUnique(docs)
    requires StringToNumber(id) == Finite(c) && StringToNumber(sh) == Finite(v)
    ensures !AnyMatches(FavouriteRoutes.ListMine(docs, user), id, sh)
            == FavouriteRoutes.IsFavourite(FavouriteRoutes.Toggle(docs, user, c, v, nowMs), user, c, v)
  {
    FoundIsServerMembership(docs, user, id, sh, c, v);
    FavouriteRoutes.ToggleFlips(docs, user, c, v, nowMs);
  }

  /** GET /favourites/me as the page sees it. */
  datatype FavsReply = FavsOk(favourites: seq<ServerModels.FavouriteDoc>) | FavsNotOk | FavsThrew

  // ---------------------------------------------------------------------------
  // The page's state

  /** The key `progressMap[Number(sh)]` reads and writes. */
  function VerseKeyOf(sh: string): string
  {
    NumToString(StringToNumber(sh))
  }

  /** A rollback puts back the value read before the optimistic write (possibly
      undefined): every key then reads as it did before the toggle. */
  lemma RollbackRestoresReads(m: ProgressMap, key: string, mark: bool, k: string)
    ensures Read(m[key := Some(mark)][key := Read(m, key)], k) == Read(m, k)
    ensures IsCompleted(m[key := Some(mark)], key) == mark
  {
  }

  class VersePageState {
    var progressMap: ProgressMap
    var isFavourite: bool
    var isPlaying: bool

    constructor ()
      ensures progressMap == map[] && !isFavourite && !isPlaying
    {
      progressMap := map[];
      isFavourite := false;
      isPlaying := false;
    }

    /** `currentCompleted` */
    function CurrentCompleted(sh: string): (b: bool)
      reads this
      ensures b <==> Read(progressMap, VerseKeyOf(sh)) == Some(true)
    {
      IsCompleted(progressMap, VerseKeyOf(sh))
    }

    /** fetchChapterProgress */
    method Refresh(reply: ProgressReply)
      modifies this
      ensures progressMap == ProgressOf(reply)
      ensures isFavourite == old(isFavourite) && isPlaying == old(isPlaying)
    {
      progressMap := FetchChapterProgress(reply);
    }

    /** toggleVerse(mark). `outcome` is how POST /progress/me/verse ended and `refetched`
        the reply of the refetch that follows a success. Returns the request sent (None:
        no request) and the map shown while it is pending. */
    method ToggleVerse(loggedIn: bool, id: string, sh: string, mark: bool, outcome: Outcome, refetched: ProgressReply)
      returns (sent: Option<ProgressRoutes.VerseBody>, pending: ProgressMap)
      modifies this
      ensures !loggedIn ==> sent.None? && progressMap == old(progressMap)
      ensures loggedIn ==> sent == Some(VersePayload(StringToNumber(id), StringToNumber(sh), mark))
                           && pending == old(progressMap)[VerseKeyOf(sh) := Some(mark)]
      ensures loggedIn && outcome.Succeeded? ==> progressMap == ProgressOf(refetched)
      ensures loggedIn && !outcome.Succeeded? ==>
                progressMap == old(progressMap)[VerseKeyOf(sh) := Read(old(progressMap), VerseKeyOf(sh))]
      ensures isFavourite == old(isFavourite) && isPlaying == old(isPlaying)
    {
      pending := progressMap;
      if !loggedIn {
        return None, pending;
      }
      var key := VerseKeyOf(sh);
      var m0 := progressMap;
      var prev := Read(m0, key);
      pending := m0[key := Some(mark)];
      sent := Some(VersePayload(StringToNumber(id), StringToNumber(sh), mark));
      if outcome.Succeeded? {
        var fetched := FetchChapterProgress(refetched);
        progressMap := fetched;
        assert progressMap == ProgressOf(refetched);
      } else {
        progressMap := m0[key := prev];
        assert progressMap == old(progressMap)[VerseKeyOf(sh) := Read(old(progressMap), VerseKeyOf(sh))];
      }
    }

    /** toggleWholeChapter(markComplete): without a user nothing is sent; otherwise
        any reply that is not a rejection is followed by a refetch, and a rejection
        leaves the map alone. */
    method ToggleWholeChapter(loggedIn: bool, id: string, markComplete: bool, outcome: Outcome, refetched: ProgressReply)
      returns (sent: Option<ProgressRoutes.ChapterBody>)
      modifies this
      ensures !loggedIn ==> sent.None? && progressMap == old(progressMap)
      ensures loggedIn ==> sent == Some(ChapterPayload(StringToNumber(id), markComplete))
      ensures loggedIn && !outcome.Threw? ==> progressMap == ProgressOf(refetched)
      ensures loggedIn && outcome.Threw? ==> progressMap == old(progressMap)
      ensures isFavourite == old(isFavourite) && isPlaying == old(isPlaying)
    {
      if !loggedIn {
        return None;
      }
      sent := Some(ChapterPayload(StringToNumber(id), markComplete));
      if !outcome.Threw? {
        Refresh(refetched);
      }
    }

    /** fetchFav: an ok reply sets the flag from the list, a reply that is not ok
        leaves it, a failed request clears it. */
    method FetchFav(id: string, sh: string, reply: FavsReply)
      modifies this
      ensures reply.FavsOk? ==> isFavourite == AnyMatches(reply.favourites, id, sh)
      ensures reply.FavsNotOk? ==> isFavourite == old(isFavourite)
      ensures reply.FavsThrew? ==> !isFavourite
      ensures progressMap == old(progressMap) && isPlaying == old(isPlaying)
    {
      match reply
      case FavsOk(favs) => isFavourite := AnyMatches(favs, id, sh);
      case FavsNotOk =>
      case FavsThrew => isFavourite := false;
    }

    /** toggleFavourite: flip at once, put the old value back unless the request
        succeeded. */
    method ToggleFavourite(loggedIn: bool, id: string, sh: string, outcome: Outcome)
      returns (sent: Option<FavouriteRoutes.ToggleBody>, pending: bool)
      modifies this
      ensures !loggedIn ==> sent.None? && isFavourite == old(isFavourite)
      ensures loggedIn ==> sent == Some(FavouritePayload(StringToNumber(id), StringToNumber(sh)))
                           && pending == !old(isFavourite)
      ensures loggedIn ==> isFavourite == if outcome.Succeeded? then !old(isFavourite) else old(isFavourite)
      ensures progressMap == old(progressMap) && isPlaying == old(isPlaying)
    {
      pending := isFavourite;
      if !loggedIn {
        return None, pending;
      }
      var prev := isFavourite;
      isFavourite := !prev;
      pending := isFavourite;
      sent := Some(FavouritePayload(StringToNumber(id), StringToNumber(sh)));
      if !outcome.Succeeded? {
        isFavourite := prev;
      }
    }

    /** togglePlay: nothing without an audio element; pausing always succeeds, and a
        play() that rejects leaves the flag as it was. */
    method TogglePlay(hasAudio: bool, playRejected: bool)
      modifies this
      ensures !hasAudio ==> isPlaying == old(isPlaying)
      ensures hasAudio && old(isPlaying) ==> !isPlaying
      ensures hasAudio && !old(isPlaying) ==> isPlaying == !playRejected
      ensures progressMap == old(progressMap) && isFavourite == old(isFavourite)
    {
      if !hasAudio {
        return;
      }
      if isPlaying {
        isPlaying := false;
      } else if !playRejected {
        isPlaying := true;
      }
    }

    /** handleAudioEnded */
    method AudioEnded()
      modifies this
      ensures !isPlaying
      ensures progressMap == old(progressMap) && isFavourite == old(isFavourite)
    {
      isPlaying := false;
    }
  }
}
