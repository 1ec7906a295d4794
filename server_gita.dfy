/** The verse catalog proxy (server/routes/gitaRoutes.js): four read routes answered
    from a 24-hour in-memory cache or else from the upstream API, and the random
    verse picker behind the verse of the day. */
module GitaRoutes {
  import opened Wrappers
  import opened JsValues

  const CACHE_DURATION := 24 * 60 * 60 * 1000

  /** One cache slot: the upstream response body and the clock time it was stored. */
  datatype CacheEntry = CacheEntry(data: Json, timestamp: int)

  /** `isCacheValid(entry)` at clock time nowMs: a slot is usable when it exists, holds
      a truthy body and is younger than 24 hours. */
  predicate IsCacheValid(entry: Option<CacheEntry>, nowMs: int)
  {
    entry.Some? && Truthy(entry.value.data) && nowMs - entry.value.timestamp < CACHE_DURATION
  }

  /** The upstream request as seen by the route: its body, or a failure. */
  datatype Fetched = FetchOk(data: Json) | FetchError

  datatype GitaReply = Served(data: Json) | GitaFailed(status: nat, error: string)

  /** The decision shared by the four cache-or-fetch routes: the reply, and the slot to
      write back (None: the cache is left alone). The route reads the clock twice, once in
      the validity check and again after the upstream answer to stamp the new slot; both
      readings are taken here as the one instant nowMs. */
  datatype Outcome = Outcome(reply: GitaReply, write: Option<CacheEntry>)

  function Resolve(entry: Option<CacheEntry>, nowMs: int, fetched: Fetched): (o: Outcome)
    ensures IsCacheValid(entry, nowMs) ==> o == Outcome(Served(entry.value.data), None)
    ensures !IsCacheValid(entry, nowMs) && fetched.FetchOk? ==>
              o == Outcome(Served(fetched.data), Some(CacheEntry(fetched.data, nowMs)))
    ensures !IsCacheValid(entry, nowMs) && fetched.FetchError? ==>
              o == Outcome(GitaFailed(500, "Something went wrong"), None)
  {
    if IsCacheValid(entry, nowMs) then Outcome(Served(entry.value.data), None)
    else if fetched.FetchOk? then Outcome(Served(fetched.data), Some(CacheEntry(fetched.data, nowMs)))
    else Outcome(GitaFailed(500, "Something went wrong"), None)
  }

  /** A truthy body stored at time t is served from the cache, whatever upstream would
      say, until 24 hours have passed; from then on the upstream answer is used. */
  lemma CacheLifetime(data: Json, t: int, nowMs: int, fetched: Fetched)
    requires Truthy(data) && t <= nowMs
    ensures nowMs < t + CACHE_DURATION ==> Resolve(Some(CacheEntry(data, t)), nowMs, fetched).reply == Served(data)
    ensures nowMs >= t + CACHE_DURATION && fetched.FetchOk? ==>
              Resolve(Some(CacheEntry(data, t)), nowMs, fetched).reply == Served(fetched.data)
  {
  }

  /** A falsy body (null, "", 0, false) is never served from the cache. */
  lemma FalsyBodyRefetched(data: Json, t: int, nowMs: int, fetched: Fetched)
    requires !Truthy(data)
    ensures Resolve(Some(CacheEntry(data, t)), nowMs, fetched).reply
            == (if fetched.FetchOk? then Served(fetched.data) else GitaFailed(500, "Something went wrong"))
  {
  }

  /** The cache key of one verse: `${ch}-${sl}`. */
  function VerseKey(ch: string, sl: string): (k: string)
    ensures |k| == |ch| + 1 + |sl| && k[|ch|] == '-'
  {
    ch + "-" + sl
  }

  /** Chapter parameters without a dash give distinct verses distinct keys. */
  lemma VerseKeyInjective(ch1: string, sl1: string, ch2: string, sl2: string)
    requires '-' !in ch1 && '-' !in ch2
    requires VerseKey(ch1, sl1) == VerseKey(ch2, sl2)
    ensures ch1 == ch2 && sl1 == sl2
  {
    var k := VerseKey(ch1, sl1);
    if |ch1| != |ch2| {
      assert false;
    }
    assert ch1 == k[..|ch1|] == ch2;
    assert sl1 == k[|ch1| + 1..] == sl2;
  }

  /** With a dash inside the chapter parameter two different requests share a slot. */
  lemma VerseKeyCollision()
    ensures VerseKey("1-2", "3") == VerseKey("1", "2-3")
  {
  }

  /** `memoryCache`: the chapter list slot and three dictionaries of slots keyed by the
      route parameters. */
  class GitaCache {
    var chapters: CacheEntry
    var chapterDetails: map<string, CacheEntry>
    var chapterVerses: map<string, CacheEntry>
    var verseDetails: map<string, CacheEntry>

    /** The start-up state: an empty chapter list slot and no other slot. */
    constructor ()
      ensures chapters == CacheEntry(Null, 0)
      ensures chapterDetails == map[] && chapterVerses == map[] && verseDetails == map[]
    {
      chapters := CacheEntry(Null, 0);
      chapterDetails := map[];
      chapterVerses := map[];
      verseDetails := map[];
    }

    /** GET /chapters */
    method GetChapters(nowMs: int, fetched: Fetched) returns (reply: GitaReply)
      modifies this
      ensures var o := Resolve(Some(old(chapters)), nowMs, fetched);
              reply == o.reply && chapters == (if o.write.Some? then o.write.value else old(chapters))
      ensures chapterDetails == old(chapterDetails) && chapterVerses == old(chapterVerses)
              && verseDetails == old(verseDetails)
    {
      var o := Resolve(Some(chapters), nowMs, fetched);
      if o.write.Some? {
        chapters := o.write.value;
      }
      reply := o.reply;
    }

    /** GET /chapter/:ch */
    method GetChapter(ch: string, nowMs: int, fetched: Fetched) returns (reply: GitaReply)
      modifies this
      ensures var o := Resolve(Lookup(old(chapterDetails), ch), nowMs, fetched);
              reply == o.reply
              && chapterDetails == (if o.write.Some? then old(chapterDetails)[ch := o.write.value] else old(chapterDetails))
      ensures chapters == old(chapters) && chapterVerses == old(chapterVerses) && verseDetails == old(verseDetails)
    {
      var o := Resolve(Lookup(chapterDetails, ch), nowMs, fetched);
      if o.write.Some? {
        chapterDetails := chapterDetails[ch := o.write.value];
      }
      reply := o.reply;
    }

    /** GET /chapter/:ch/slok */
    method GetChapterVerses(ch: string, nowMs: int, fetched: Fetched) returns (reply: GitaReply)
      modifies this
      ensures var o := Resolve(Lookup(old(chapterVerses), ch), nowMs, fetched);
              reply == o.reply
              && chapterVerses == (if o.write.Some? then old(chapterVerses)[ch := o.write.value] else old(chapterVerses))
      ensures chapters == old(chapters) && chapterDetails == old(chapterDetails) && verseDetails == old(verseDetails)
    {
      var o := Resolve(Lookup(chapterVerses, ch), nowMs, fetched);
      if o.write.Some? {
        chapterVerses := chapterVerses[ch := o.write.value];
      }
      reply := o.reply;
    }

    /** GET /chapter/:ch/slok/:sl */
    method GetVerse(ch: string, sl: string, nowMs: int, fetched: Fetched) returns (reply: GitaReply)
      modifies this
      ensures var key := VerseKey(ch, sl);
              var o := Resolve(Lookup(old(verseDetails), key), nowMs, fetched);
              reply == o.reply
              && verseDetails == (if o.write.Some? then old(verseDetails)[key := o.write.value] else old(verseDetails))
      ensures chapters == old(chapters) && chapterDetails == old(chapterDetails) && chapterVerses == old(chapterVerses)
    {
      var key := VerseKey(ch, sl);
      var o := Resolve(Lookup(verseDetails, key), nowMs, fetched);
      if o.write.Some? {
        verseDetails := verseDetails[key := o.write.value];
      }
      reply := o.reply;
    }
  }

  /** `memoryCache.x[key]`: the slot, or undefined. */
  function Lookup(m: map<string, CacheEntry>, key: string): (r: Option<CacheEntry>)
    ensures r.Some? <==> key in m
    ensures r.Some? ==> r.value == m[key]
  {
    if key in m then Some(m[key]) else None
  }

  /** A second request for the same slot within 24 hours of a successful truthy fetch
      does not depend on upstream. */
  lemma SecondRequestHitsCache(m: map<string, CacheEntry>, key: string, data: Json, t: int, later: int,
                               first: Fetched, second: Fetched)
    requires first == FetchOk(data) && Truthy(data)
    requires !IsCacheValid(Lookup(m, key), t)
    requires t <= later < t + CACHE_DURATION
    ensures var o := Resolve(Lookup(m, key), t, first);
            o.write.Some?
            && Resolve(Lookup(m[key := o.write.value], key), later, second).reply == Served(data)
  {
  }

  // ---------------------------------------------------------------------------
  // getRandomVerse

  /** Verses per chapter, chapters 1 to 18. */
  const SLOK_COUNT: seq<nat> := [47, 72, 43, 42, 29, 47, 30, 28, 34, 42, 55, 20, 35, 27, 20, 24, 28, 78]

  function FloorTimes(r: real, k: nat): (i: int)
    requires 0.0 <= r < 1.0 && k > 0
    ensures 0 <= i < k
  {
    var x := r * (k as real);
    assert 0.0 <= x < k as real;
    x.Floor
  }

  /** The picker as written: `Math.floor(Math.random() * 17) + 1` for the chapter and
      `Math.floor(Math.random() * slokcount[ch - 1]) + 1` for the verse, where r1 and
      r2 are the two values Math.random returned. */
  function RandomVerseAsWritten(r1: real, r2: real): (cv: (int, int))
    requires 0.0 <= r1 < 1.0 && 0.0 <= r2 < 1.0
    ensures 1 <= cv.0 <= 17 && 1 <= cv.1 <= SLOK_COUNT[cv.0 - 1]
  {
    var ch := FloorTimes(r1, 17) + 1;
    (ch, FloorTimes(r2, SLOK_COUNT[ch - 1]) + 1)
  }

  /** Chapter 18, the longest chapter, can never be the verse of the day. */
  lemma ChapterEighteenNeverDrawn(r1: real, r2: real)
    requires 0.0 <= r1 < 1.0 && 0.0 <= r2 < 1.0
    ensures RandomVerseAsWritten(r1, r2).0 != 18
  {
  }

  /** The picker with the multiplier the table has entries for. */
  function RandomVerse(r1: real, r2: real): (cv: (int, int))
    requires 0.0 <= r1 < 1.0 && 0.0 <= r2 < 1.0
    ensures 1 <= cv.0 <= |SLOK_COUNT| && 1 <= cv.1 <= SLOK_COUNT[cv.0 - 1]
  {
    var ch := FloorTimes(r1, |SLOK_COUNT|) + 1;
    (ch, FloorTimes(r2, SLOK_COUNT[ch - 1]) + 1)
  }

  lemma FloorHits(j: nat, k: nat)
    requires j < k
    ensures 0.0 <= (j as real) / (k as real) < 1.0
    ensures FloorTimes((j as real) / (k as real), k) == j
  {
    var r := (j as real) / (k as real);
    assert r * (k as real) == j as real;
  }

  /** Every verse of every chapter can be drawn by the corrected picker. */
  lemma EveryVerseReachable(chapter: nat, verse: nat)
    requires 1 <= chapter <= |SLOK_COUNT| && 1 <= verse <= SLOK_COUNT[chapter - 1]
    ensures exists r1: real, r2: real :: 0.0 <= r1 < 1.0 && 0.0 <= r2 < 1.0 && RandomVerse(r1, r2) == (chapter, verse)
  {
    var r1 := ((chapter - 1) as real) / (|SLOK_COUNT| as real);
    var r2 := ((verse - 1) as real) / (SLOK_COUNT[chapter - 1] as real);
    FloorHits(chapter - 1, |SLOK_COUNT|);
    FloorHits(verse - 1, SLOK_COUNT[chapter - 1]);
    assert RandomVerse(r1, r2) == (chapter, verse);
  }
}
