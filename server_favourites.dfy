/** The favourites routes (server/routes/favourites.js): a per-user set of
    (chapter, verse) pairs that the toggle route flips and the list route
    returns newest first. */
module FavouriteRoutes {
  import opened Wrappers
  import opened JsValues
  import opened ServerModels

  // ---------------------------------------------------------------------------
  // The collection as a set of keys

  /** `Favourite.findOne({ user, chapter, verse })`: the position of the matching
      document, if any. */
  function FindFavourite(docs: seq<FavouriteDoc>, user: nat, chapter: int, verse: int): (r: Option<nat>)
    ensures r.Some? ==> r.value < |docs| && SameFavouriteKey(docs[r.value], user, chapter, verse)
    ensures r.None? ==> forall i :: 0 <= i < |docs| ==> !SameFavouriteKey(docs[i], user, chapter, verse)
  {
    if docs == [] then None
    else if SameFavouriteKey(docs[|docs| - 1], user, chapter, verse) then Some(|docs| - 1)
    else FindFavourite(docs[..|docs| - 1], user, chapter, verse)
  }

  /** The user has marked (chapter, verse) as a favourite. */
  predicate IsFavourite(docs: seq<FavouriteDoc>, user: nat, chapter: int, verse: int)
  {
    exists i :: 0 <= i < |docs| && SameFavouriteKey(docs[i], user, chapter, verse)
  }

  /** The collection after one toggle that ran without interference: the matching
      document is deleted, or a new one stamped nowMs is inserted. */
  function Toggle(docs: seq<FavouriteDoc>, user: nat, chapter: int, verse: int, nowMs: int): (r: seq<FavouriteDoc>)
    ensures |r| == if IsFavourite(docs, user, chapter, verse) then |docs| - 1 else |docs| + 1
  {
    match FindFavourite(docs, user, chapter, verse)
    case Some(i) => docs[..i] + docs[i + 1..]
    case None => docs + [FavouriteDoc(user, chapter, verse, nowMs)]
  }

  /** Documents with another key are neither lost nor added by a toggle. */
  lemma ToggleKeepsOthers(docs: seq<FavouriteDoc>, user: nat, chapter: int, verse: int, nowMs: int, d: FavouriteDoc)
    requires !SameFavouriteKey(d, user, chapter, verse)
    ensures d in Toggle(docs, user, chapter, verse, nowMs) <==> d in docs
  {
    match FindFavourite(docs, user, chapter, verse)
    case Some(i) =>
      assert docs == docs[..i] + [docs[i]] + docs[i + 1..];
    case None =>
  }

  /** A toggle flips the membership of its own key, given the unique index. */
  lemma ToggleFlips(docs: seq<FavouriteDoc>, user: nat, chapter: int, verse: int, nowMs: int)
    requires FavouriteKeysUnique(docs)
    ensures IsFavourite(Toggle(docs, user, chapter, verse, nowMs), user, chapter, verse)
            <==> !IsFavourite(docs, user, chapter, verse)
  {
    var after := Toggle(docs, user, chapter, verse, nowMs);
    match FindFavourite(docs, user, chapter, verse)
    case Some(i) =>
      assert IsFavourite(docs, user, chapter, verse);
      forall j | 0 <= j < |after| ensures !SameFavouriteKey(after[j], user, chapter, verse) {
        if j < i {
          assert after[j] == docs[j];
        } else {
          assert after[j] == docs[j + 1];
        }
      }
    case None =>
      assert SameFavouriteKey(after[|docs|], user, chapter, verse);
  }

  /** A toggle keeps the unique index on (user, chapter, verse). */
  lemma ToggleValid(docs: seq<FavouriteDoc>, user: nat, chapter: int, verse: int, nowMs: int)
    requires FavouriteKeysUnique(docs)
    ensures FavouriteKeysUnique(Toggle(docs, user, chapter, verse, nowMs))
  {
    var after := Toggle(docs, user, chapter, verse, nowMs);
    match FindFavourite(docs, user, chapter, verse)
    case Some(i) =>
      forall a, b | 0 <= a < b < |after|
        ensures !SameFavouriteKey(after[b], after[a].user, after[a].chapter, after[a].verse)
      {
        var a', b' := if a < i then a else a + 1, if b < i then b else b + 1;
        assert after[a] == docs[a'] && after[b] == docs[b'];
      }
    case None =>
  }

  /** A key other than the toggled one keeps its membership. */
  lemma ToggleOtherKey(docs: seq<FavouriteDoc>, user: nat, chapter: int, verse: int, nowMs: int,
                       user': nat, chapter': int, verse': int)
    requires (user', chapter', verse') != (user, chapter, verse)
    ensures IsFavourite(Toggle(docs, user, chapter, verse, nowMs), user', chapter', verse')
            <==> IsFavourite(docs, user', chapter', verse')
  {
    var after := Toggle(docs, user, chapter, verse, nowMs);
    if IsFavourite(docs, user', chapter', verse') {
      var i :| 0 <= i < |docs| && SameFavouriteKey(docs[i], user', chapter', verse');
      ToggleKeepsOthers(docs, user, chapter, verse, nowMs, docs[i]);
      var j :| 0 <= j < |after| && after[j] == docs[i];
      assert SameFavouriteKey(after[j], user', chapter', verse');
    }
    if IsFavourite(after, user', chapter', verse') {
      var j :| 0 <= j < |after| && SameFavouriteKey(after[j], user', chapter', verse');
      ToggleKeepsOthers(docs, user, chapter, verse, nowMs, after[j]);
      var i :| 0 <= i < |docs| && docs[i] == after[j];
      assert SameFavouriteKey(docs[i], user', chapter', verse');
    }
  }

  /** Two successive toggles of the same key restore every key's membership (the
      re-inserted document carries the later time). */
  lemma {:induction false} ToggleTwice(docs: seq<FavouriteDoc>, user: nat, chapter: int, verse: int, t1: int, t2: int,
                                       user': nat, chapter': int, verse': int)
    requires FavouriteKeysUnique(docs)
    ensures IsFavourite(Toggle(Toggle(docs, user, chapter, verse, t1), user, chapter, verse, t2), user', chapter', verse')
            <==> IsFavourite(docs, user', chapter', verse')
  {
    var once := Toggle(docs, user, chapter, verse, t1);
    ToggleValid(docs, user, chapter, verse, t1);
    if (user', chapter', verse') == (user, chapter, verse) {
      ToggleFlips(docs, user, chapter, verse, t1);
      ToggleFlips(once, user, chapter, verse, t2);
    } else {
      ToggleOtherKey(docs, user, chapter, verse, t1, user', chapter', verse');
      ToggleOtherKey(once, user, chapter, verse, t2, user', chapter', verse');
    }
  }

  // ---------------------------------------------------------------------------
  // POST /toggle

  /** The request body; an absent field is `Undefined`. */
  datatype ToggleBody = ToggleBody(chapter: Json, verse: Json)

  datatype ToggleReply = Toggled(favourite: bool, item: Option<FavouriteDoc>)
                       | ToggleFailed(status: nat, message: string)

  /** POST /toggle for the user the session middleware resolved. `raced` says whether,
      when the key was absent, a concurrent request inserted it between the lookup and
      the insert, so that the insert fails on the unique index (error 11000). A chapter
      or verse that converts to NaN fails the query's cast (500). */
  method ToggleFavourite(store: FavouriteStore, actor: User, body: ToggleBody, nowMs: int, raced: bool)
    returns (reply: ToggleReply)
    requires store.Valid()
    modifies store
    ensures store.Valid()
    ensures body.chapter.Undefined? || body.verse.Undefined? ==>
              reply == ToggleFailed(400, "Missing chapter or verse") && store.docs == old(store.docs)
    ensures !body.chapter.Undefined? && !body.verse.Undefined?
            && (ToNumber(body.chapter).NaN? || ToNumber(body.verse).NaN?) ==>
              reply == ToggleFailed(500, "Server error") && store.docs == old(store.docs)
    ensures !body.chapter.Undefined? && !body.verse.Undefined?
            && ToNumber(body.chapter).Finite? && ToNumber(body.verse).Finite? ==>
              var ch := ToNumber(body.chapter).value;
              var v := ToNumber(body.verse).value;
              store.docs == Toggle(old(store.docs), actor.id, ch, v, nowMs)
              && (IsFavourite(old(store.docs), actor.id, ch, v) ==> reply == Toggled(false, None))
              && (!IsFavourite(old(store.docs), actor.id, ch, v) ==>
                    reply == Toggled(true, if raced then None else Some(FavouriteDoc(actor.id, ch, v, nowMs))))
  {
    if body.chapter.Undefined? || body.verse.Undefined? {
      return ToggleFailed(400, "Missing chapter or verse");
    }
    var chapter, verse := ToNumber(body.chapter), ToNumber(body.verse);
    if chapter.NaN? || verse.NaN? {
      return ToggleFailed(500, "Server error");
    }
    var ch, v := chapter.value, verse.value;
    ToggleValid(store.docs, actor.id, ch, v, nowMs);
    var existing := FindFavourite(store.docs, actor.id, ch, v);
    if existing.Some? {
      var i := existing.value;
      store.docs := store.docs[..i] + store.docs[i + 1..];
      reply := Toggled(false, None);
    } else {
      var item := FavouriteDoc(actor.id, ch, v, nowMs);
      store.docs := store.docs + [item];
      reply := if raced then Toggled(true, None) else Toggled(true, Some(item));
    }
  }

  /** The reply of a successful toggle tells the new membership of the key. */
  lemma ToggleReplyIsMembership(docs: seq<FavouriteDoc>, user: nat, chapter: int, verse: int, nowMs: int)
    requires FavouriteKeysUnique(docs)
    ensures IsFavourite(Toggle(docs, user, chapter, verse, nowMs), user, chapter, verse)
            == !IsFavourite(docs, user, chapter, verse)
  {
    ToggleFlips(docs, user, chapter, verse, nowMs);
  }

  // ---------------------------------------------------------------------------
  // GET /me

  /** `Favourite.find({ user })` in collection order. */
  function Mine(docs: seq<FavouriteDoc>, user: nat): (r: seq<FavouriteDoc>)
    ensures forall d :: d in r <==> d in docs && d.user == user
  {
    if docs == [] then []
    else
      var rest := Mine(docs[..|docs| - 1], user);
      assert docs == docs[..|docs| - 1] + [docs[|docs| - 1]];
      if docs[|docs| - 1].user == user then rest + [docs[|docs| - 1]] else rest
  }

  /** `.sort('-createdAt')`: newest first. */
  predicate NewestFirst(s: seq<FavouriteDoc>)
  {
    forall i, j :: 0 <= i < j < |s| ==> s[i].createdAt >= s[j].createdAt
  }

  function InsertByDate(d: FavouriteDoc, s: seq<FavouriteDoc>): (r: seq<FavouriteDoc>)
    requires NewestFirst(s)
    ensures NewestFirst(r) && multiset(r) == multiset(s) + multiset{d}
    ensures |r| == |s| + 1 && (r[0] == d || (s != [] && r[0] == s[0]))
  {
    if s == [] || d.createdAt >= s[0].createdAt then
      PrependNewest(d, s);
      [d] + s
    else
      DropNewest(s);
      var tail := InsertByDate(d, s[1..]);
      InsertBehind(d, s, tail);
      [s[0]] + tail
  }

  /** An older document goes behind the head, into the sorted tail. */
  lemma InsertBehind(d: FavouriteDoc, s: seq<FavouriteDoc>, tail: seq<FavouriteDoc>)
    requires s != [] && NewestFirst(s) && d.createdAt < s[0].createdAt
    requires NewestFirst(tail) && multiset(tail) == multiset(s[1..]) + multiset{d}
    requires |tail| == |s| && (tail[0] == d || (s[1..] != [] && tail[0] == s[1..][0]))
    ensures NewestFirst([s[0]] + tail) && multiset([s[0]] + tail) == multiset(s) + multiset{d}
  {
    assert s == [s[0]] + s[1..];
    assert s[0].createdAt >= tail[0].createdAt by {
      if tail[0] != d {
        assert tail[0] == s[1];
      }
    }
    PrependNewest(s[0], tail);
    assert multiset(s) == multiset{s[0]} + multiset(s[1..]);
  }

  /** A document no older than the head of a sorted list can go in front of it. */
  lemma PrependNewest(d: FavouriteDoc, s: seq<FavouriteDoc>)
    requires NewestFirst(s) && (s == [] || d.createdAt >= s[0].createdAt)
    ensures NewestFirst([d] + s)
  {
    forall i, j | 0 <= i < j < |[d] + s| ensures ([d] + s)[i].createdAt >= ([d] + s)[j].createdAt {
      if i > 0 {
        assert ([d] + s)[i] == s[i - 1] && ([d] + s)[j] == s[j - 1];
      } else if j > 1 {
        assert s[0].createdAt >= s[j - 1].createdAt;
      }
    }
  }

  /** The tail of a sorted list is sorted. */
  lemma DropNewest(s: seq<FavouriteDoc>)
    requires s != [] && NewestFirst(s)
    ensures NewestFirst(s[1..])
  {
    forall i, j | 0 <= i < j < |s[1..]| ensures s[1..][i].createdAt >= s[1..][j].createdAt {
      assert s[1..][i] == s[i + 1] && s[1..][j] == s[j + 1];
    }
  }

  function SortNewestFirst(s: seq<FavouriteDoc>): (r: seq<FavouriteDoc>)
    ensures NewestFirst(r) && multiset(r) == multiset(s)
  {
    if s == [] then []
    else
      assert s == [s[0]] + s[1..];
      InsertByDate(s[0], SortNewestFirst(s[1..]))
  }

  /** GET /me: exactly the actor's favourites, newest first. */
  function ListMine(docs: seq<FavouriteDoc>, user: nat): (r: seq<FavouriteDoc>)
    ensures NewestFirst(r)
    ensures multiset(r) == multiset(Mine(docs, user))
    ensures forall d :: d in r <==> d in docs && d.user == user
  {
    var r := SortNewestFirst(Mine(docs, user));
    assert forall d :: d in r <==> d in Mine(docs, user) by {
      forall d ensures d in r <==> d in Mine(docs, user) {
        assert d in r <==> d in multiset(r);
        assert d in Mine(docs, user) <==> d in multiset(Mine(docs, user));
      }
    }
    r
  }
}
