/** The japa counter routes (server/routes/japaCountRoutes.js): a per-user tally that
    only ever grows by a positive amount. */
module JapaRoutes {
  import opened JsValues
  import opened ServerModels

  /** `typeof count === 'number' && count > 0`. A JSON body cannot carry NaN. */
  predicate ValidCount(count: Json)
  {
    count.Num? && count.n > 0
  }

  /** The user collection after an update of user `id` by `count`: only that user's
      tally changes, and only for a valid count. */
  function AddJapa(users: seq<User>, id: nat, count: Json): (r: seq<User>)
    ensures |r| == |users|
    ensures forall i :: 0 <= i < |users| && i != id ==> r[i] == users[i]
    ensures id < |users| && ValidCount(count) ==>
              r[id] == users[id].(japaCount := users[id].japaCount + count.n)
    ensures !(id < |users| && ValidCount(count)) ==> r == users
    ensures forall i :: 0 <= i < |users| ==> r[i].japaCount >= users[i].japaCount
  {
    if id < |users| && ValidCount(count) then
      users[id := users[id].(japaCount := users[id].japaCount + count.n)]
    else users
  }

  datatype JapaReply = JapaTotal(japaCount: int) | JapaFailed(status: nat, message: string)

  /** PUT /update-japa for the user the session middleware resolved. */
  method UpdateJapa(users: Users, actor: User, count: Json) returns (reply: JapaReply)
    requires users.Valid()
    modifies users
    ensures users.Valid()
    ensures users.all == AddJapa(old(users.all), actor.id, count)
    ensures !ValidCount(count) ==> reply == JapaFailed(400, "Invalid count provided.")
    ensures ValidCount(count) && actor.id >= |old(users.all)| ==> reply == JapaFailed(404, "User not found.")
    ensures ValidCount(count) && actor.id < |old(users.all)| ==>
              reply == JapaTotal(old(users.all)[actor.id].japaCount + count.n)
              && reply.japaCount == users.all[actor.id].japaCount
  {
    if !ValidCount(count) {
      return JapaFailed(400, "Invalid count provided.");
    }
    if actor.id >= |users.all| {
      return JapaFailed(404, "User not found.");
    }
    var u := users.all[actor.id];
    var updated := u.(japaCount := u.japaCount + count.n);
    users.all := users.all[actor.id := updated];
    reply := JapaTotal(updated.japaCount);
  }

  /** GET /me: the stored tally (`japaCount || 0`, which for a stored number is the
      number itself). */
  function GetJapa(users: seq<User>, actor: User): (r: JapaReply)
    ensures r.JapaFailed? <==> actor.id >= |users|
    ensures r.JapaFailed? ==> r == JapaFailed(404, "User not found.")
    ensures r.JapaTotal? ==> r.japaCount == users[actor.id].japaCount
  {
    if actor.id < |users| then JapaTotal(users[actor.id].japaCount) else JapaFailed(404, "User not found.")
  }

  /** A new user reads 0. */
  lemma NewUserReadsZero(users: seq<User>, email: string)
    ensures GetJapa(users + [NewUser(|users|, email)], NewUser(|users|, email)) == JapaTotal(0)
  {
  }

  /** What GET reports after a successful update is the total the update returned, and
      two updates add up. */
  lemma {:induction false} UpdatesAccumulate(users: seq<User>, actor: User, a: Json, b: Json)
    requires actor.id < |users| && ValidCount(a) && ValidCount(b)
    ensures GetJapa(AddJapa(AddJapa(users, actor.id, a), actor.id, b), actor)
            == JapaTotal(users[actor.id].japaCount + a.n + b.n)
  {
    var once := AddJapa(users, actor.id, a);
    assert once[actor.id].japaCount == users[actor.id].japaCount + a.n;
  }

  /** A rejected count leaves every tally as it was. */
  lemma InvalidCountChangesNothing(users: seq<User>, id: nat, count: Json)
    requires !ValidCount(count)
    ensures AddJapa(users, id, count) == users
  {
  }
}
