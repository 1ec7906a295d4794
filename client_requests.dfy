/** What the client pages put on the wire and how they read the answer back. The
    pages compute `Number(x)` for the numeric fields of a request; JSON.stringify
    writes NaN as null, so that is what the server receives. */
module ClientRequests {
  import Text
  import opened JsValues
  import ProgressRoutes
  import FavouriteRoutes

  /** How a request the page awaits ends: a 2xx reply with a truthy `ok`, a 2xx reply
      without it, or a rejected promise (network failure or an error status). */
  datatype Outcome = Succeeded | NotOk | Threw

  /** The JSON text of a number computed with Number(x). */
  function WireNumber(n: JsNum): (j: Json)
    ensures n.Finite? ==> j == Num(n.value)
    ensures n.NaN? ==> j == Null
  {
    match n
    case Finite(v) => Num(v)
    case NaN => Null
  }

  /** `{ chapter: Number(c), verse: Number(v), completed: !!mark }` for POST /progress/me/verse. */
  function VersePayload(chapter: JsNum, verse: JsNum, mark: bool): (b: ProgressRoutes.VerseBody)
    ensures !b.chapter.Undefined? && !b.verse.Undefined? && b.completed == Bool(mark)
  {
    ProgressRoutes.VerseBody(WireNumber(chapter), WireNumber(verse), Bool(mark))
  }

  /** The server goes on to write exactly when both numbers are finite and non-zero. */
  lemma VersePayloadAccepted(chapter: JsNum, verse: JsNum, mark: bool)
    ensures ProgressRoutes.VerseCheck(VersePayload(chapter, verse, mark)).None?
            <==> chapter.Finite? && chapter.value != 0 && verse.Finite? && verse.value != 0
  {
    WireNumberReads(chapter);
    WireNumberReads(verse);
  }

  /** A number on the wire is truthy exactly when it is finite and non-zero, and the
      server's Number() reads a finite one back unchanged. */
  lemma WireNumberReads(n: JsNum)
    ensures Truthy(WireNumber(n)) <==> n.Finite? && n.value != 0
    ensures n.Finite? ==> ToNumber(WireNumber(n)) == n
  {
  }

  /** `{ chapterId: Number(id), completed: !!mark }` for POST /progress/me/chapter; no
      `verseIds`, so the server falls back to its catalog. */
  function ChapterPayload(chapter: JsNum, mark: bool): (b: ProgressRoutes.ChapterBody)
    ensures !b.chapterId.Undefined? && b.verseIds.Undefined? && b.completed == Bool(mark)
  {
    ProgressRoutes.ChapterBody(WireNumber(chapter), Undefined, Bool(mark))
  }

  /** The server goes on to write exactly when the number is finite, non-zero and one of
      the catalog's chapters. */
  lemma ChapterPayloadAccepted(gita: seq<ProgressRoutes.CatalogVerse>, chapter: JsNum, mark: bool)
    ensures ProgressRoutes.ChapterCheck(gita, ChapterPayload(chapter, mark)).None?
            <==> chapter.Finite? && chapter.value != 0 && chapter.value in ProgressRoutes.CatalogChapters(gita)
  {
    WireNumberReads(chapter);
    if chapter.Finite? {
      ProgressRoutes.VerseIdsForChapterSpec(gita, chapter.value);
      ProgressRoutes.CatalogCountPositive(gita, chapter.value);
    }
  }

  /** `{ chapter: Number(c), verse: Number(v) }` for POST /favourites/toggle. */
  function FavouritePayload(chapter: JsNum, verse: JsNum): (b: FavouriteRoutes.ToggleBody)
    ensures !b.chapter.Undefined? && !b.verse.Undefined?
  {
    FavouriteRoutes.ToggleBody(WireNumber(chapter), WireNumber(verse))
  }

  /** Both fields are always present, so the toggle is never refused with 400; a NaN
      arrives as null, which the server's own Number(null) turns into 0. */
  lemma FavouritePayloadReadsAs(chapter: JsNum, verse: JsNum)
    ensures var body := FavouritePayload(chapter, verse);
            !body.chapter.Undefined? && !body.verse.Undefined?
            && ToNumber(body.chapter) == Finite(if chapter.Finite? then chapter.value else 0)
            && ToNumber(body.verse) == Finite(if verse.Finite? then verse.value else 0)
  {
  }

  /** `/verse_recitation/${chapter}/${verse}.mp3`, the recitation file of one verse. */
  function RecitationPath(chapter: string, verse: string): (p: string)
    ensures |p| >= 23 && p[..18] == "/verse_recitation/" && p[|p| - 4..] == ".mp3"
  {
    "/verse_recitation/" + chapter + "/" + verse + ".mp3"
  }

  /** A chapter part without a slash determines both parts from the path. */
  lemma RecitationPathInjective(c1: string, v1: string, c2: string, v2: string)
    requires '/' !in c1 && '/' !in c2
    requires RecitationPath(c1, v1) == RecitationPath(c2, v2)
    ensures c1 == c2 && v1 == v2
  {
    var p, q := RecitationPath(c1, v1), "/verse_recitation/";
    var m1, m2 := c1 + "/" + v1, c2 + "/" + v2;
    assert p == q + m1 + ".mp3" && p == q + m2 + ".mp3";
    assert m1 == p[|q|..|p| - 4] == m2;
    Text.SeparatedInjective(c1, v1, c2, v2, '/');
  }

  /** Distinct integer (chapter, verse) pairs have distinct recitation files. */
  lemma RecitationPathOfNumbers(c1: int, v1: int, c2: int, v2: int)
    requires RecitationPath(Text.IntToString(c1), Text.IntToString(v1)) == RecitationPath(Text.IntToString(c2), Text.IntToString(v2))
    ensures c1 == c2 && v1 == v2
  {
    IntToStringOnly(c1, '/');
    IntToStringOnly(c2, '/');
    RecitationPathInjective(Text.IntToString(c1), Text.IntToString(v1), Text.IntToString(c2), Text.IntToString(v2));
    IntToStringInjective(c1, c2);
    IntToStringInjective(v1, v2);
  }
}
