/** The two cryptographic services the server relies on, reduced to what the
    routes depend on: a bcrypt digest that matches exactly its own plaintext,
    and a signed session token (a JSON Web Token) whose `sub` claim names a user
    and whose `exp` claim bounds its lifetime. */
module Crypto {
  import opened Wrappers

  /** A bcrypt digest. The model keeps the plaintext inside it, so comparison is exact;
      cost factor and salt are not modelled. */
  datatype Digest = Bcrypt(plain: string)

  /** bcrypt.hash(text, 10) */
  function Hash(text: string): (d: Digest)
    ensures Compare(text, d)
    ensures forall other :: Compare(other, d) ==> other == text
  {
    Bcrypt(text)
  }

  /** bcrypt.compare(candidate, digest) */
  predicate Compare(candidate: string, d: Digest)
  {
    d.plain == candidate
  }

  /** An idealised bcrypt: a candidate matches the digest of x exactly when it is x. */
  lemma CompareHash(x: string, candidate: string)
    ensures Compare(candidate, Hash(x)) <==> candidate == x
  {
  }

  /** A session token as the cookie carries it: either a well-formed signed JWT or
      some other text (a tampered or foreign cookie). */
  datatype Token = Jwt(sub: nat, exp: int, key: string) | Garbled(text: string)

  /** The cookie value is falsy only when it is the empty string. */
  predicate TokenPresent(t: Token)
  {
    !(t.Garbled? && t.text == "")
  }

  /** jwt.sign({ sub }, secret, { expiresIn }) at clock time nowMs: `exp` is the current
      time in whole seconds plus the lifetime in seconds. */
  function Sign(sub: nat, secret: string, nowMs: int, lifetimeSeconds: int): (t: Token)
    ensures t.Jwt? && t.sub == sub && t.key == secret
    ensures nowMs < t.exp * 1000 <==> lifetimeSeconds > 0
  {
    Jwt(sub, nowMs / 1000 + lifetimeSeconds, secret)
  }

  /** jwt.verify(token, secret) at clock time nowMs: the subject, or None when the
      signature does not check or the token has expired (the library rejects once the
      current time in seconds reaches `exp`). */
  function Verify(t: Token, secret: string, nowMs: int): (sub: Option<nat>)
    ensures sub.Some? ==> t.Jwt? && t.key == secret && sub.value == t.sub && nowMs < t.exp * 1000
    ensures t.Garbled? ==> sub.None?
  {
    if t.Jwt? && t.key == secret && nowMs / 1000 < t.exp then Some(t.sub) else None
  }

  /** A token verifies with the key it was signed with, from the moment it is signed
      until its lifetime has elapsed, and never afterwards. */
  lemma {:induction false} SignedTokenLifetime(sub: nat, secret: string, signedMs: int, lifetimeSeconds: nat, nowMs: int)
    requires signedMs <= nowMs
    ensures Verify(Sign(sub, secret, signedMs, lifetimeSeconds), secret, nowMs) == Some(sub)
            <==> nowMs < (signedMs / 1000 + lifetimeSeconds) * 1000
  {
    var e := signedMs / 1000 + lifetimeSeconds;
    assert nowMs / 1000 < e <==> nowMs < e * 1000 by { DivBelow(nowMs, e); }
  }

  lemma DivBelow(x: int, e: int)
    ensures x / 1000 < e <==> x < e * 1000
  {
  }

  /** A token signed with some other key never verifies. */
  lemma ForeignKeyRejected(sub: nat, other: string, secret: string, signedMs: int, lifetimeSeconds: int, nowMs: int)
    requires other != secret
    ensures Verify(Sign(sub, other, signedMs, lifetimeSeconds), secret, nowMs).None?
  {
  }
}
