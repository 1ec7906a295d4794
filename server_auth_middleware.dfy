/** The session middleware guarding the progress, favourites and japa routes
    (server/middleware/auth.js): resolve the session cookie to a stored user or
    reject the request. */
module AuthMiddleware {
  import opened Wrappers
  import opened Crypto
  import opened ServerModels

  const JWT_SECRET := "change_this_secret"

  /** Either the request is answered with 401 and this message, or `req.user` is set to
      the stored user and the next handler runs. */
  datatype AuthDecision = Reject(message: string) | Accept(user: User)

  /** The decision for a request carrying the `session` cookie `cookie` (None when the
      request has no such cookie) at clock time nowMs. */
  function Authenticate(users: seq<User>, cookie: Option<Token>, nowMs: int): (d: AuthDecision)
    ensures d.Reject? ==> d.message in {"Not authenticated", "Invalid token", "User not found"}
    ensures d.Reject? && d.message == "Not authenticated" <==> cookie.None? || !TokenPresent(cookie.value)
    ensures d.Reject? && d.message == "Invalid token"
            <==> cookie.Some? && TokenPresent(cookie.value) && Verify(cookie.value, JWT_SECRET, nowMs).None?
    ensures d.Accept? <==> cookie.Some? && TokenPresent(cookie.value)
                           && Verify(cookie.value, JWT_SECRET, nowMs).Some?
                           && Verify(cookie.value, JWT_SECRET, nowMs).value < |users|
    ensures d.Accept? ==> d.user == users[Verify(cookie.value, JWT_SECRET, nowMs).value]
  {
    if cookie.None? || !TokenPresent(cookie.value) then Reject("Not authenticated")
    else
      var sub := Verify(cookie.value, JWT_SECRET, nowMs);
      if sub.None? then Reject("Invalid token")
      else if sub.value >= |users| then Reject("User not found")
      else Accept(users[sub.value])
  }

  /** A token signed for a stored user is accepted, as that user, until it expires. */
  lemma {:induction false} FreshSessionAccepted(users: seq<User>, id: nat, signedMs: int, lifetimeSeconds: nat, nowMs: int)
    requires UsersValid(users) && id < |users|
    requires signedMs <= nowMs < (signedMs / 1000 + lifetimeSeconds) * 1000
    ensures Authenticate(users, Some(Sign(id, JWT_SECRET, signedMs, lifetimeSeconds)), nowMs) == Accept(users[id])
    ensures users[id].id == id
  {
    SignedTokenLifetime(id, JWT_SECRET, signedMs, lifetimeSeconds, nowMs);
  }

  /** Once its lifetime has elapsed the same token is refused as invalid. */
  lemma {:induction false} ExpiredSessionRejected(users: seq<User>, id: nat, signedMs: int, lifetimeSeconds: nat, nowMs: int)
    requires (signedMs / 1000 + lifetimeSeconds) * 1000 <= nowMs
    ensures Authenticate(users, Some(Sign(id, JWT_SECRET, signedMs, lifetimeSeconds)), nowMs) == Reject("Invalid token")
  {
    DivBelow(nowMs, signedMs / 1000 + lifetimeSeconds);
  }
}
