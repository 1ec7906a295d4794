/** The four Mongoose models of the server, each with its defaults and the
    uniqueness its indexes enforce, and one in-memory collection per model.
    A document's `_id` is its position in its collection: documents are only ever
    appended (users, OTP records) or the collection is keyed by a composite
    unique index (progress, favourites). */
module ServerModels {
  import opened Wrappers
  import opened Crypto

  // ---------------------------------------------------------------------------
  // server/models/userSchema.js

  /** A user document. `phone` and `email` are unique among the users that have one;
      `displayName` and `avatarUrl` are optional; `japaCount` defaults to 0. */
  datatype User = User(id: nat, phone: Option<string>, email: Option<string>,
                       displayName: Option<string>, avatarUrl: Option<string>, japaCount: int)

  /** `User.create({ email })`: every field but the email takes its default. */
  function NewUser(id: nat, email: string): User
  {
    User(id, None, Some(email), None, None, 0)
  }

  /** The unique sparse indexes on `email` and `phone`, and `_id` as position. */
  ghost predicate UsersValid(users: seq<User>)
  {
    (forall i :: 0 <= i < |users| ==> users[i].id == i)
    && (forall i, j :: 0 <= i < j < |users| && users[i].email.Some? ==> users[i].email != users[j].email)
    && (forall i, j :: 0 <= i < j < |users| && users[i].phone.Some? ==> users[i].phone != users[j].phone)
  }

  /** `User.findOne({ email })`: the index of the user with that email, if any. */
  function FindByEmail(users: seq<User>, email: string): (r: Option<nat>)
    ensures r.Some? ==> r.value < |users| && users[r.value].email == Some(email)
    ensures r.None? ==> forall i :: 0 <= i < |users| ==> users[i].email != Some(email)
  {
    if users == [] then None
    else if users[|users| - 1].email == Some(email) then Some(|users| - 1)
    else FindByEmail(users[..|users| - 1], email)
  }

  class Users {
    var all: seq<User>

    ghost predicate Valid()
      reads this
    {
      UsersValid(all)
    }

    constructor ()
      ensures Valid() && all == []
    {
      all := [];
    }
  }

  // ---------------------------------------------------------------------------
  // server/models/otpSchema.js

  /** The schema's enum for `otpType` admits only "email". */
  datatype OtpType = EmailOtp

  /** A one-time-password record. `used` starts false; `attemptsLeft` is the budget of
      wrong guesses (the schema's default of 5 is never used, since send-otp always
      passes it); `expiresAt` is a clock time in milliseconds. */
  datatype OtpRecord = OtpRecord(deliveryTarget: string, otpHash: Digest, otpType: OtpType,
                                 attemptsLeft: int, expiresAt: int, used: bool)

  /** `new OTP({ deliveryTarget, otpHash, otpType, attemptsLeft, expiresAt })`: `used`
      takes its default. */
  function NewOtp(target: string, hash: Digest, attempts: int, expiresAt: int): OtpRecord
  {
    OtpRecord(target, hash, EmailOtp, attempts, expiresAt, false)
  }

  /** Mongoose's `required` on a string refuses the empty string. */
  predicate OtpRequiredPresent(r: OtpRecord)
  {
    r.deliveryTarget != ""
  }

  class Otps {
    var records: seq<OtpRecord>

    ghost predicate Valid()
      reads this
    {
      forall i :: 0 <= i < |records| ==> OtpRequiredPresent(records[i])
    }

    constructor ()
      ensures Valid() && records == []
    {
      records := [];
    }
  }

  // ---------------------------------------------------------------------------
  // server/models/progressSchema.js

  /** What a stored `completed` field holds. The schema casts writes to a boolean,
      but the summary also counts documents that hold the string "true". */
  datatype Completed = Flag(b: bool) | Text(s: string)

  /** One reading-progress document: `completed` defaults to false and `completedAt`
      (a clock time) is optional. */
  datatype ProgressDoc = ProgressDoc(userId: nat, chapter: int, verse: int,
                                     completed: Completed, completedAt: Option<int>)

  /** A freshly inserted document before its update is applied. */
  function NewProgress(userId: nat, chapter: int, verse: int): ProgressDoc
  {
    ProgressDoc(userId, chapter, verse, Flag(false), None)
  }

  predicate SameProgressKey(d: ProgressDoc, userId: nat, chapter: int, verse: int)
  {
    d.userId == userId && d.chapter == chapter && d.verse == verse
  }

  /** The unique index on (userId, chapter, verse). */
  predicate ProgressKeysUnique(docs: seq<ProgressDoc>)
  {
    forall i, j :: 0 <= i < j < |docs| ==>
      !SameProgressKey(docs[j], docs[i].userId, docs[i].chapter, docs[i].verse)
  }

  class ProgressStore {
    var docs: seq<ProgressDoc>

    ghost predicate Valid()
      reads this
    {
      ProgressKeysUnique(docs)
    }

    constructor ()
      ensures Valid() && docs == []
    {
      docs := [];
    }
  }

  // ---------------------------------------------------------------------------
  // server/models/Favourite.js

  /** A favourite is present or absent: the schema has no status field. `createdAt`
      defaults to the insertion time. */
  datatype FavouriteDoc = FavouriteDoc(user: nat, chapter: int, verse: int, createdAt: int)

  predicate SameFavouriteKey(d: FavouriteDoc, user: nat, chapter: int, verse: int)
  {
    d.user == user && d.chapter == chapter && d.verse == verse
  }

  /** The unique index on (user, chapter, verse). */
  predicate FavouriteKeysUnique(docs: seq<FavouriteDoc>)
  {
    forall i, j :: 0 <= i < j < |docs| ==>
      !SameFavouriteKey(docs[j], docs[i].user, docs[i].chapter, docs[i].verse)
  }

  class FavouriteStore {
    var docs: seq<FavouriteDoc>

    ghost predicate Valid()
      reads this
    {
      FavouriteKeysUnique(docs)
    }

    constructor ()
      ensures Valid() && docs == []
    {
      docs := [];
    }
  }
}
