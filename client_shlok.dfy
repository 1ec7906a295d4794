/** One verse card of a chapter listing (client/src/Components/Shlok.js and its later
    copy client/src/Components/Chapters/Shlok.js): the translation shown for the chosen
    language, the recitation file, the play button and the "completed" toggle with its
    optimistic update and rollback. The two files keep the same state and take the same
    decisions; the first one looks for the translation with a for-loop and the second
    with `Array.prototype.find`, and both forms are modelled and proved to agree. */
module Shlok {
  import opened Wrappers
  import Text
  import opened JsValues
  import opened ClientRequests
  import ProgressRoutes
  import VersePage

  /** One element of `translations`; a missing field is `Undefined`. */
  datatype Translation = Translation(author_name: Json, description: Json)

  /** A verse as the chapter listing receives it: the numbers, and the translations
      array (None: the field is absent). */
  datatype ChapterVerse = ChapterVerse(chapter_number: Json, verse_number: Json, verse: Json,
                                       translations: Option<seq<Translation>>)

  const EnglishAuthor := "Swami Adidevananda"
  const HindiAuthor := "Swami Tejomayananda"

  /** The translation the language asks for: Adidevananda's for "english", Tejomayananda's
      for "hindi", none for any other language. */
  predicate Preferred(language: string, t: Translation)
  {
    (language == "english" && t.author_name == Str(EnglishAuthor))
    || (language == "hindi" && t.author_name == Str(HindiAuthor))
  }

  /** The index `arr.find(...)` stops at: the first preferred translation. */
  function FirstPreferred(language: string, arr: seq<Translation>): (r: Option<nat>)
    ensures r.Some? ==> r.value < |arr| && Preferred(language, arr[r.value])
                        && forall j :: 0 <= j < r.value ==> !Preferred(language, arr[j])
    ensures r.None? ==> forall j :: 0 <= j < |arr| ==> !Preferred(language, arr[j])
  {
    if arr == [] then None
    else if Preferred(language, arr[0]) then Some(0)
    else match FirstPreferred(language, arr[1..])
      case None => None
      case Some(k) => Some(k + 1)
  }

  /** `translations || []` */
  function ArrOf(translations: Option<seq<Translation>>): seq<Translation>
  {
    if translations.Some? then translations.value else []
  }

  /** `arr[0]?.description || ""`: the first description if it is truthy, else "". */
  function Fallback(arr: seq<Translation>): (d: Json)
    ensures arr != [] && Truthy(arr[0].description) ==> d == arr[0].description
    ensures !(arr != [] && Truthy(arr[0].description)) ==> d == Str("")
  {
    if arr != [] && Truthy(arr[0].description) then arr[0].description else Str("")
  }

  /** `desc` of Chapters/Shlok.js: the preferred translation's description as it is
      (even when it is missing), otherwise the fallback. */
  function Desc(language: string, translations: Option<seq<Translation>>): (d: Json)
    ensures var arr := ArrOf(translations);
            (exists i :: 0 <= i < |arr| && Preferred(language, arr[i])) ==>
              exists i :: 0 <= i < |arr| && Preferred(language, arr[i]) && d == arr[i].description
                          && forall j :: 0 <= j < i ==> !Preferred(language, arr[j])
    ensures var arr := ArrOf(translations);
            (forall i :: 0 <= i < |arr| ==> !Preferred(language, arr[i])) ==> d == Fallback(arr)
  {
    var arr := ArrOf(translations);
    match FirstPreferred(language, arr)
    case Some(i) => arr[i].description
    case None => Fallback(arr)
  }

  /** A language with no preferred author shows the first description, or "". */
  lemma OtherLanguageFallsBack(language: string, translations: Option<seq<Translation>>)
    requires language != "english" && language != "hindi"
    ensures Desc(language, translations) == Fallback(ArrOf(translations))
  {
  }

  /** `description(arr)` of Components/Shlok.js: a for-loop returning at the first
      preferred translation; it shows the same text as `desc`. */
  method Description(language: string, translations: Option<seq<Translation>>) returns (d: Json)
    ensures d == Desc(language, translations)
  {
    var arr := ArrOf(translations);
    var i := 0;
    while i < |arr|
      invariant 0 <= i <= |arr|
      invariant forall j :: 0 <= j < i ==> !Preferred(language, arr[j])
    {
      if language == "english" && arr[i].author_name == Str(EnglishAuthor) {
        return arr[i].description;
      } else if language == "hindi" && arr[i].author_name == Str(HindiAuthor) {
        return arr[i].description;
      }
      i := i + 1;
    }
    return Fallback(arr);
  }

  /** `audioUrl`: only when both numbers are truthy. */
  function AudioUrl(cv: ChapterVerse): (url: Option<string>)
    ensures url.Some? <==> Truthy(cv.chapter_number) && Truthy(cv.verse_number)
  {
    if Truthy(cv.chapter_number) && Truthy(cv.verse_number) then
      Some(RecitationPath(JsToString(cv.chapter_number), JsToString(cv.verse_number)))
    else None
  }

  /** Two cards with integer numbers play the same file only when they show the same
      verse. */
  lemma AudioUrlIdentifiesVerse(c1: int, v1: int, c2: int, v2: int, t1: Option<seq<Translation>>, t2: Option<seq<Translation>>)
    requires c1 != 0 && v1 != 0 && c2 != 0 && v2 != 0
    requires AudioUrl(ChapterVerse(Num(c1), Num(v1), Undefined, t1)) == AudioUrl(ChapterVerse(Num(c2), Num(v2), Undefined, t2))
    ensures c1 == c2 && v1 == v2
  {
    RecitationPathOfNumbers(c1, v1, c2, v2);
  }

  /** Where the card has a recitation, the verse page shows the same one for that verse. */
  lemma AudioUrlAgreesWithVersePage(cv: ChapterVerse, words: string, id: string, sh: string)
    requires AudioUrl(cv).Some?
    ensures VersePage.AudioUrl(VersePage.Verse(cv.chapter_number, cv.verse_number, words), id, sh) == AudioUrl(cv)
  {
  }

  /** A card with non-zero integer numbers sends a progress update the server accepts. */
  lemma CardPayloadAccepted(cv: ChapterVerse, mark: bool)
    requires cv.chapter_number.Num? && cv.chapter_number.n != 0
    requires cv.verse_number.Num? && cv.verse_number.n != 0
    ensures ProgressRoutes.VerseCheck(VersePayload(ToNumber(cv.chapter_number), ToNumber(cv.verse_number), mark)).None?
  {
    VersePayloadAccepted(ToNumber(cv.chapter_number), ToNumber(cv.verse_number), mark);
  }

  class ShlokState {
    var completed: bool
    var isPlaying: bool

    /** `useState(!!initialCompleted)`, not playing. */
    constructor (initialCompleted: bool)
      ensures completed == initialCompleted && !isPlaying
    {
      completed := initialCompleted;
      isPlaying := false;
    }

    /** togglePlay: nothing without an audio element; otherwise the flag flips (the
        promise play() returns is not awaited). */
    method TogglePlay(hasAudio: bool)
      modifies this
      ensures isPlaying == if hasAudio then !old(isPlaying) else old(isPlaying)
      ensures completed == old(completed)
    {
      if !hasAudio {
        return;
      }
      isPlaying := !isPlaying;
    }

    /** handleAudioEnded */
    method AudioEnded()
      modifies this
      ensures !isPlaying && completed == old(completed)
    {
      isPlaying := false;
    }

    /** toggleVerseProgress(mark). Returns the request sent (None: no request), the
        flag shown while it is pending, and whether `onProgressChange` was called. */
    method ToggleVerseProgress(loggedIn: bool, cv: ChapterVerse, mark: bool, hasCallback: bool, outcome: Outcome)
      returns (sent: Option<ProgressRoutes.VerseBody>, pending: bool, notified: bool)
      modifies this
      ensures !loggedIn ==> sent.None? && !notified && completed == old(completed)
      ensures loggedIn ==> sent == Some(VersePayload(ToNumber(cv.chapter_number), ToNumber(cv.verse_number), mark))
                           && pending == mark
      ensures loggedIn ==> completed == if outcome.Succeeded? then mark else old(completed)
      ensures notified <==> loggedIn && outcome.Succeeded? && hasCallback
      ensures isPlaying == old(isPlaying)
    {
      pending := completed;
      if !loggedIn {
        return None, pending, false;
      }
      var prev := completed;
      pending := mark;
      sent := Some(VersePayload(ToNumber(cv.chapter_number), ToNumber(cv.verse_number), mark));
      if outcome.Succeeded? {
        completed := mark;
        notified := hasCallback;
      } else {
        completed := prev;
        notified := false;
      }
    }
  }
}
