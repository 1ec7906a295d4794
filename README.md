# A verified model of the Gita reading companion

This project models the core of a Bhagavad Gita reading application. It has two parts: an Express server
backed by MongoDB, and a React client.

## What is modelled

**Server.**
- **Mongoose models.** The user, one-time-password, progress and favourite models: their defaults, required
  fields and unique indexes. Each collection is an in-memory sequence.
- **E-mail login** (`server/routes/authRoutes.js`):
  - code generation;
  - the send and verify routes, with their ordered rejection checks;
  - the attempt budget and single use of a code;
  - the cookie lifetime parser;
  - GET and PATCH `/me`, and logout.
- **Session middleware.** It resolves a session cookie to a stored user.
- **Reading-progress routes:**
  - verse lookup in the bundled catalog;
  - the per-chapter summary and its rounded percent;
  - the per-chapter detail;
  - the single-verse and whole-chapter upserts.
- **Favourites toggle and list.**
- **Japa counter.**
- **Verse-catalog proxy**, with its 24-hour cache and its random verse of the day.

**Client.**
- **The two sign-in forms.**
  - The card has a mm:ss countdown, e-mail and code validators, expiry and resend timers, and two steps.
  - The pop-up modal has a looser address check and a reset on close.
- **Verse page:**
  - the word-by-word meanings parser;
  - the recitation URL;
  - the progress map built from the server's reply;
  - the progress and favourite toggles, with optimistic update and rollback.
- **Chapter page, the two verse-card components and the verse grid**, with the same optimistic toggles. A verse
  card reads its completion prop only when it mounts; the model keeps that as written and beside it a card that
  follows the prop.
- **Chapter-list paging**, in both of its versions.
- **Japa counter page and its guided tour.** The save is modelled as written and corrected.
- **Loader guards** of the shared context.
- **Profile page:**
  - the favourites' keys and player;
  - the chapter detail panels and summary refresh;
  - the overall totals;
  - optimistic favourite removal;
  - the name editor's guard.

## How the model is built

**Pure and stateful code.** Pure code becomes functions with lemmas. Code that mutates state becomes
classes whose methods are proved to end in the state a specification function describes.

**The mutable stores.** Each of these is a class:
- the route handlers' collections;
- the server's cache;
- each component's React state.

**The outside world.** It enters as parameters:
- the clock, as a number in milliseconds;
- the value `crypto.randomInt` or `Math.random` returned;
- the upstream API's answer;
- the outcome of each HTTP request the client sends;
- the content of `localStorage`.

**Cryptography.**
- bcrypt is ideal: a digest matches exactly its own plaintext.
- A JSON Web Token is a record of its subject, expiry and signing key. It verifies under the right key
  before its expiry.

**JavaScript values** are a `Json` datatype with JavaScript truthiness, `Number(x)` and `String(x)`.
Numbers are integers, plus NaN.

**The verse grid.** `client/src/Pages/ChapterPage.js` and `client/src/Pages/VersePage.js` import
`../Components/VerseTable`, a file that is not part of this model. The grid is modelled from
`client/src/Components/Chapters/VerseTable.js`, whose props (`singleChapter`, `progressMap`,
`onToggleChapterComplete`) are the ones both pages pass. The lemmas that tie the grid's indicator to the
cards and the server (`VerseTable.ToggleFlipsTable`, `VerseTable.AsWrittenCardsMissChapterToggle` and the
stale-card finding) rest on that file's `isChapterCompleted`.

## Reusing one definition across modules

Shared definitions let client and server properties be stated together. Examples:
- the client's save request is accepted by the server's validation;
- the profile's name editor sends what the server stores;
- the verse page's favourite flag equals the server's membership.

## Model

| member | source | states |
|---|---|---|
| Text.DigitRoundTrip | server/routes/authRoutes.js:23 | a decimal digit's character reads back as the digit |
| Text.NatToStringShape | server/routes/authRoutes.js:23 | `toString()` of a natural number is a non-empty digit string with no leading zero unless the number is 0 |
| Text.NatToStringRoundTrip | server/routes/authRoutes.js:23 | the decimal spelling of n reads back as n |
| Text.NatToStringInjective | server/routes/authRoutes.js:23 | distinct numbers are spelled differently |
| Text.NatToStringLength | server/routes/authRoutes.js:22-23 | the spelling of n has at most k digits exactly when n < 10^k |
| Text.NatToString | server/routes/authRoutes.js:23 | the canonical decimal spelling; its properties are NatToStringShape and NatToStringRoundTrip |
| Text.DecimalBound | server/routes/authRoutes.js:22-23 | a k-digit string reads as a value below 10^k |
| Text.DigitStringsEqual | server/routes/authRoutes.js:23 | two digit strings of equal length and equal value are the same string |
| Text.PadStart | server/routes/authRoutes.js:23 | `padStart(len, pad)` ends with the original string, is as long as `len` or the string, and is `pad` before it |
| Text.LeadingZeros | server/routes/authRoutes.js:23 | zeros padded in front of a digit string do not change its value |
| Text.AllZeros | server/routes/authRoutes.js:23 | a string of zeros reads as 0 |
| Text.TrimStart | server/routes/authRoutes.js:206-210 | the result is a suffix that starts with no whitespace, and only whitespace was removed |
| Text.TrimEnd | server/routes/authRoutes.js:206-210 | the result is a prefix that ends with no whitespace, and only whitespace was removed |
| Text.Trim | server/routes/authRoutes.js:206-210 | never longer than its input and never ending in whitespace |
| Text.TrimBounds | server/routes/authRoutes.js:206-210 | `trim()` is a slice of the input with only whitespace on either side of it |
| Text.TrimEdges | server/routes/authRoutes.js:206-210 | a non-empty trimmed string begins and ends with a non-whitespace character |
| Text.TrimIdempotent | server/routes/authRoutes.js:206-210 | trimming twice is trimming once |
| Text.TrimEmptyIff | server/routes/authRoutes.js:206-210 | `trim()` leaves the empty string exactly when the string is all whitespace |
| Text.Utf16Length | client/src/Pages/ProfilePage.js:177 | `.length` is at least the number of characters and at most twice it; equal to it without astral characters and above it with one |
| Text.IndexOfFrom | client/src/Context/Context.js:97 | the first position at or after `from` where the separator occurs, or -1 when there is none |
| Text.IndexOf | client/src/Context/Context.js:97 | the first occurrence of the separator, or -1 exactly when it does not occur |
| Text.Split | client/src/Context/Context.js:97 | `split(sep)` yields at least one piece |
| Text.SplitJoin | client/src/Context/Context.js:97 | joining the pieces of a split with the separator gives the original string back |
| Text.SplitPiecesFree | client/src/Context/Context.js:97 | no piece of a split contains the separator |
| Text.SplitHead | client/src/Context/Context.js:97 | `split(sep)[0]` is everything before the first separator, or the whole string without one |
| Text.SplitAbsent | client/src/Pages/VersePage.js:80-84 | a string without the separator splits into itself alone |
| Text.SplitFirst | client/src/Pages/VersePage.js:80-84 | with a separator present, the first piece, the separator and the rest rebuild the string |
| Text.SeparatedInjective | client/src/Context/Context.js:97 | two strings split at a character that the first parts lack have equal parts when they are equal |
| JsValues.Or | client/src/Pages/VersePage.js:110-111 | `a || b` is one of its operands: the first when it is truthy, and truthy exactly when either operand is |
| JsValues.StringToNumber | server/routes/progressRoutes.js:108 | `Number(s)` of a string: surrounding whitespace ignored, the empty string 0, a signed digit run its value, anything else NaN |
| JsValues.StrictEq | server/routes/progressRoutes.js:22 | `===` on numbers: equal finite values only, so NaN equals nothing |
| JsValues.IntToStringDigitsOrMinus | server/routes/progressRoutes.js:22-23 | `String(i)` is the digits of the absolute value of i, with a leading minus exactly for a negative i |
| JsValues.IntToStringToNumber | server/routes/progressRoutes.js:22-23 | `Number(String(i))` is i |
| JsValues.IntToStringInjective | client/src/Context/Context.js:78 | different integers never compare equal after `String(...)` |
| JsValues.IntToStringOnly | client/src/Context/Context.js:97 | the spelling of an integer holds no character other than digits and the minus sign, so no slash |
| JsValues.Truthy | server/routes/gitaRoutes.js:17 | `!!x`: undefined, null, false, 0 and "" are falsy, everything else truthy; its partner is TruthyAsNumber |
| JsValues.TruthyAsNumber | server/routes/progressRoutes.js:140 | a boolean, a number or null is truthy exactly when `Number()` of it is not 0 |
| JsValues.JsToString | client/src/Pages/ProfilePage.js:82 | `String()` of a string is the string itself |
| JsValues.NestedArrayString | client/src/Pages/ProfilePage.js:82 | a nested array is flattened into the join: `String([[1, 2], 3])` is "1,2,3" |
| JsValues.NumberStringRoundTrip | client/src/Pages/VersePage.js:113 | `Number(String(n))` is n for every integer n |
| JsValues.ToNumber | server/routes/favourites.js:26-27 | every falsy value but undefined reads as 0, and a number reads as itself |
| JsValues.NumberKeyAgreement | client/src/Pages/VersePage.js:113 | `map[Number(x)]` and `map[x]` name the same key when x is a number |
| JsValues.StringKeyAgreement | client/src/Pages/VersePage.js:113 | the same when x is the decimal spelling of an integer |
| Crypto.Compare | server/routes/authRoutes.js:104 | `bcrypt.compare(candidate, digest)` of an ideal digest: true exactly for the digest's own plaintext |
| Crypto.Sign | server/routes/authRoutes.js:119 | `jwt.sign` gives a token of the subject under the secret, which is still valid at signing time exactly when the lifetime is positive |
| Crypto.CompareHash | server/routes/authRoutes.js:43-104 | a candidate matches the digest of a code exactly when it is that code |
| Crypto.Hash | server/routes/authRoutes.js:43 | the digest matches its own plaintext and no other |
| Crypto.Verify | server/middleware/auth.js:12-16 | a subject only for a token signed with the same key before its `exp`, and then the token's own; other text never verifies |
| Crypto.SignedTokenLifetime | server/routes/authRoutes.js:119 | a signed token verifies, with its own subject, exactly until its lifetime in whole seconds has elapsed |
| Crypto.DivBelow | server/middleware/auth.js:13 | a time in whole seconds is below a second count exactly when the time in ms is below that many thousand |
| Crypto.ForeignKeyRejected | server/middleware/auth.js:12-16 | a token signed with another key never verifies |
| ServerModels.NewUser | server/models/userSchema.js:4-13 | `User.create({ email })`: the email set, no phone, name or avatar, and the japa count at its default 0 |
| ServerModels.NewOtp | server/models/otpSchema.js:4-12 | `new OTP({...})`: the given fields, the only `otpType` "email", and `used` at its default false |
| ServerModels.NewProgress | server/models/progressSchema.js:5-11 | an upserted document before its `$set`: `completed` at its default false and no `completedAt` |
| ServerModels.FindByEmail | server/routes/authRoutes.js:115 | the index found holds a user with the email; no index means no user has it |
| ServerModels.Users.constructor | server/models/userSchema.js:4-17 | an empty collection satisfies the unique email and phone indexes |
| ServerModels.Otps.constructor | server/models/otpSchema.js:4-14 | an empty collection of records satisfies the schema's required fields |
| ServerModels.ProgressStore.constructor | server/models/progressSchema.js:5-14 | an empty store satisfies the unique (userId, chapter, verse) index |
| ServerModels.FavouriteStore.constructor | server/models/Favourite.js:4-12 | an empty store satisfies the unique (user, chapter, verse) index |
| AuthMiddleware.Authenticate | server/middleware/auth.js:6-22 | three rejections ("Not authenticated" with no cookie, "Invalid token" when verification fails, "User not found"), each exactly in its case, and acceptance exactly when all pass, with the stored user |
| AuthMiddleware.FreshSessionAccepted | server/middleware/auth.js:8-22 | a token signed for a stored user is accepted as that user until it expires |
| AuthMiddleware.ExpiredSessionRejected | server/middleware/auth.js:12-16 | once its lifetime has elapsed the same token is refused as invalid |
| JapaRoutes.ValidCount | server/routes/japaCountRoutes.js:13 | the accepted count: a JSON number greater than zero |
| JapaRoutes.AddJapa | server/routes/japaCountRoutes.js:13-23 | only the actor's tally changes, by exactly the count and only for a positive number; no tally ever decreases |
| JapaRoutes.UpdateJapa | server/routes/japaCountRoutes.js:9-39 | 400 for an invalid count and 404 for a missing user, both writing nothing; otherwise the store is incremented and the new total returned |
| JapaRoutes.GetJapa | server/routes/japaCountRoutes.js:44-58 | 404 exactly for a missing user, otherwise the stored tally |
| JapaRoutes.NewUserReadsZero | server/models/userSchema.js:10-13 | a newly created user reads 0 |
| JapaRoutes.UpdatesAccumulate | server/routes/japaCountRoutes.js:21-53 | two valid updates add up in what GET reports |
| JapaRoutes.InvalidCountChangesNothing | server/routes/japaCountRoutes.js:13-15 | a rejected count leaves every tally as it was |
| AuthRoutes.DrawableLengths | server/routes/authRoutes.js:22-23 | `crypto.randomInt(0, 10 ** length)` stays below its 2^48 range limit exactly for lengths up to 14 |
| AuthRoutes.CastToString | server/models/otpSchema.js:6 | the `String` cast of `deliveryTarget`: strings kept, numbers and booleans spelled out, anything else refused |
| AuthRoutes.GenerateNumericOtp | server/routes/authRoutes.js:21-25 | for a length up to 14, the longest whose range `crypto.randomInt` accepts, the code is exactly `length` decimal digits (one digit for length 0) and reads back as the random draw |
| AuthRoutes.GenerateNumericOtpOnto | server/routes/authRoutes.js:21-25 | for a length from 1 to 14, every string of `length` digits is the code of the draw it spells: generation reaches every code |
| AuthRoutes.GenerateNumericOtpInjective | server/routes/authRoutes.js:21-25 | for a length up to 14, different draws give different codes |
| AuthRoutes.ParseDuration | server/routes/authRoutes.js:152-165 | "<n>s", "<n>m", "<n>h", "<n>d" give n·1000, n·60000, n·3600000, n·86400000 ms |
| AuthRoutes.ParseJwtExpiryMs | server/routes/authRoutes.js:149-166 | the cookie lifetime is always a whole number of seconds, in milliseconds |
| AuthRoutes.DefaultExpiry | server/routes/authRoutes.js:13 | the default "7d" gives 604800000 ms, the token lifetime of seven days |
| AuthRoutes.ParseUnitless | server/routes/authRoutes.js:150-154 | a number and a unit-less integer string both count seconds (×1000) |
| AuthRoutes.LastCharIsDigit | server/routes/authRoutes.js:152-154 | an integer's spelling ends in a digit, so it never matches the unit pattern |
| AuthRoutes.ParseFallback | server/routes/authRoutes.js:151-155 | a non-number that is no duration and no numeric string gives seven days |
| AuthRoutes.SendOtpCheck | server/routes/authRoutes.js:30-40 | the request goes ahead exactly when there is no truthy phone and a truthy email that casts to a string; otherwise a 400 failure |
| AuthRoutes.CastTargetPresent | server/models/otpSchema.js:6 | the target send-otp stores is non-empty, as the required `deliveryTarget` demands |
| AuthRoutes.AppendKeepsPresent | server/routes/authRoutes.js:48-55 | saving a record with its required fields keeps every stored record valid |
| AuthRoutes.SendOtp | server/routes/authRoutes.js:28-80 | refused requests change nothing; otherwise exactly one record is appended with the drawn code's digest, 5 attempts, expiry now + 10 min, unused, and its id (and the code in dev mode) is returned |
| AuthRoutes.LatestFor | server/routes/authRoutes.js:89-90 | the index is the last record for the target, or none exists |
| AuthRoutes.FindOtp | server/routes/authRoutes.js:89-90 | the record looked up is by id when one is given, otherwise the newest for the target |
| AuthRoutes.CheckOtpAccepts | server/routes/authRoutes.js:86-109 | a code is accepted exactly when it is present, the record exists, is unused, has attempts left, has not expired (strictly before now) and the digest matches |
| AuthRoutes.CheckOtp | server/routes/authRoutes.js:86-108 | the code is compared only once it is present and a string and the record exists, is unused, has attempts left and has not expired; a wrong code is one that does not match and a correct one is one that does |
| AuthRoutes.FailureReply | server/routes/authRoutes.js:86-108 | 429 exactly for the exhausted budget, 500 exactly for the non-string code, 400 for the rest |
| AuthRoutes.FindOrCreate | server/routes/authRoutes.js:114-116 | the index names a user with this email, in the collection returned |
| AuthRoutes.FindOrCreateValid | server/routes/authRoutes.js:114-116 | an existing user is reused with nothing written; otherwise exactly one user is appended; the unique-email invariant is kept |
| AuthRoutes.VerifyOtp | server/routes/authRoutes.js:83-145 | the reply and the record follow the check sequence; only a correct code marks the record used, finds or creates the user and returns a token whose subject is that user |
| AuthRoutes.UsedOnce | server/routes/authRoutes.js:94-112 | after a success every later attempt is refused as already used |
| AuthRoutes.WrongCodeSpendsOne | server/routes/authRoutes.js:105-108 | a wrong code lowers the budget by exactly one, never below 0, and leaves `used` false |
| AuthRoutes.AtMostOneSuccess | server/routes/authRoutes.js:94-112 | over any series of attempts a record is accepted at most once, and never when already used |
| AuthRoutes.ReplayMonotone | server/routes/authRoutes.js:97-112 | attempts never raise the budget, never clear `used`, and never change target or digest |
| AuthRoutes.WrongGuessesSpendBudget | server/routes/authRoutes.js:105-108 | k wrong guesses in time spend exactly k attempts and change nothing else |
| AuthRoutes.BudgetExhausted | server/routes/authRoutes.js:97-98 | after five wrong guesses even the right code is refused with "Too many failed attempts" |
| AuthRoutes.IssuedCodeVerifies | server/routes/authRoutes.js:42-112 | the code just sent is accepted up to and including expiry ten minutes later |
| AuthRoutes.IssuedCodeExpires | server/routes/authRoutes.js:100-101 | after the ten minutes the right code is refused as expired |
| AuthRoutes.VerifiedSessionAuthenticates | server/routes/authRoutes.js:114-119 | within the token lifetime the issued session passes the middleware as the user found or created |
| AuthRoutes.GetMeAgreesWithMiddleware | server/routes/authRoutes.js:169-183 | GET /me reports no user exactly when the middleware would refuse, and otherwise the same user |
| AuthRoutes.GetMe | server/routes/authRoutes.js:169-183 | without a cookie there is no user, and a user reported is one that is stored |
| AuthRoutes.PatchTarget | server/routes/authRoutes.js:190-225 | a target is always the index of a stored user (the decision cases are stated by PatchAgreesWithMiddleware) |
| AuthRoutes.PatchAgreesWithMiddleware | server/routes/authRoutes.js:192-225 | in the source's order: 401 "Not authenticated" exactly when the middleware rejects a missing token, 401 "Invalid token" exactly when it rejects the token; past those, 400 exactly when neither field is a string with something besides whitespace; then 404 exactly when the middleware finds no user; otherwise the target is the token's subject, the very user the middleware accepts |
| AuthRoutes.TrimmedField | server/routes/authRoutes.js:206-211 | a field gives a value exactly when it is a string that is not all whitespace, and the value is that string trimmed: non-empty and no longer than the string |
| AuthRoutes.ApplyPatch | server/routes/authRoutes.js:217-221 | `$set` changes only displayName and avatarUrl |
| AuthRoutes.PatchMe | server/routes/authRoutes.js:190-227 | on every failure of PatchTarget the reply is that failure and nothing is written; on a target only that user is replaced, by ApplyPatch of its old value, and the reply carries the updated user |
| AuthRoutes.PatchShape | server/routes/authRoutes.js:205-221 | each given field (a string not all whitespace) is stored as exactly that string trimmed, non-empty and with no whitespace at either end; a field not given keeps its stored value; id, email, phone and japa count are untouched; the same patch again changes nothing |
| AuthRoutes.LogoutEndsSession | server/routes/authRoutes.js:235-242 | after logout GET /me reports no user and the middleware refuses with "Not authenticated" |
| AuthRoutes.Logout | server/routes/authRoutes.js:235-242 | with the cookie cleared GET /me reports no user, whoever asks and whenever |
| Percent.PercentOrZero | server/routes/progressRoutes.js:88-90 | `totalVerses ? Math.round(completed / total * 100) : 0`: zero for an empty total, otherwise the rounded percent |
| Percent.RoundedPercent | server/routes/progressRoutes.js:88 | the percent is the integer nearest to 100·c/t, a half rounded up, as Math.round gives it |
| Percent.PercentBounded | server/routes/progressRoutes.js:87-89 | a count within the total gives at most 100 |
| Percent.PercentEnds | server/routes/progressRoutes.js:88 | all completed is 100, none is 0 |
| Percent.PercentMonotone | server/routes/progressRoutes.js:88 | more completed verses never give a lower percent |
| Percent.MulMono | server/routes/progressRoutes.js:88 | multiplying by a natural number keeps order |
| IntSets.HasElement | server/routes/progressRoutes.js:77-81 | a set with a positive size has an element, so the merge loop can take one |
| IntSets.MinExists | server/routes/progressRoutes.js:83-84 | a non-empty set of chapters has a least one, so the sort can take it first |
| IntSets.LeastOf | server/routes/progressRoutes.js:83-84 | the least element returned is in the set and below every other |
| ProgressRoutes.VerseIdsForChapter | server/routes/progressRoutes.js:20-24 | `verseIdsForChapter`: no more ids than catalog entries, and none for a NaN chapter (its properties are VerseIdsForChapterSpec) |
| ProgressRoutes.ByVerse | server/routes/progressRoutes.js:112-118 | the `byVerse` dictionary the forEach builds (its properties are ByVerseIsState) |
| ProgressRoutes.StatusOf | server/routes/progressRoutes.js:120-124 | the status of one verse number: that number, and not completed with no date when no document exists |
| ProgressRoutes.VerseIdsForChapterSpec | server/routes/progressRoutes.js:20-24 | the verses listed are exactly the catalog's verses of the chapter, as many as its entries |
| ProgressRoutes.CatalogCountPositive | server/routes/progressRoutes.js:71-75 | a chapter has catalog entries exactly when it is one of the catalog's chapters |
| ProgressRoutes.FindProgress | server/routes/progressRoutes.js:152 | the position found holds the key; no position means no document has it |
| ProgressRoutes.Upsert | server/routes/progressRoutes.js:146-152 | at most one document is added, and no document of another key changes |
| ProgressRoutes.UpsertValid | server/models/progressSchema.js:14 | an upsert keeps the unique (userId, chapter, verse) index |
| ProgressRoutes.UpsertEffect | server/routes/progressRoutes.js:146-152 | afterwards exactly the written key holds the new state (completedAt now or none) and every other key holds what it held |
| ProgressRoutes.FindAfterUpdate | server/routes/progressRoutes.js:152 | updating a document in place moves no key |
| ProgressRoutes.FindAfterAppend | server/routes/progressRoutes.js:150-152 | inserting finds the new document for its own key and changes no other lookup |
| ProgressRoutes.UpsertIdempotent | server/routes/progressRoutes.js:146-152 | replaying the same upsert changes nothing; a later replay keeps the same `completed` |
| ProgressRoutes.UpsertAllEffect | server/routes/progressRoutes.js:194-207 | after the bulk write every target holds the written state, every other key what it held, and the index stays unique |
| ProgressRoutes.UpsertAll | server/routes/progressRoutes.js:194-207 | at most one document is added per target |
| ProgressRoutes.UpsertAllStep | server/routes/progressRoutes.js:194-207 | the bulk write is the writes of all but the last target followed by the last |
| ProgressRoutes.LastSplit | server/routes/progressRoutes.js:194 | a verse is a target exactly when it is among the earlier targets or is the last |
| ProgressRoutes.VerseCheck | server/routes/progressRoutes.js:140-144 | the write goes ahead exactly for a truthy chapter and verse (0 refused), a boolean `completed` and numeric values; otherwise 400, or 500 for a failed cast |
| ProgressRoutes.SetVerse | server/routes/progressRoutes.js:134-167 | a refused request writes nothing; otherwise the key is upserted and the reply echoes it with completedAt now or null |
| ProgressRoutes.Values | server/routes/progressRoutes.js:187 | the numbers of the targets, position by position |
| ProgressRoutes.ChapterCheck | server/routes/progressRoutes.js:179-192 | the write goes ahead exactly for a truthy chapter id, a boolean and a non-empty list of numeric targets; otherwise 400 with its message, or 500 for a failed cast |
| ProgressRoutes.UnknownChapterRefused | server/routes/progressRoutes.js:185-192 | without usable `verseIds` a chapter the catalog lacks gets "No verses found for given chapter" |
| ProgressRoutes.SetChapter | server/routes/progressRoutes.js:173-219 | a refused request writes nothing; otherwise every target is upserted in order and `affected` is the number of targets, duplicates included |
| ProgressRoutes.BulkUpsert | server/routes/progressRoutes.js:194-207 | the loop's result is the bulk write of all targets, and the index stays unique |
| ProgressRoutes.ByVerseIsState | server/routes/progressRoutes.js:111-118 | the dictionary has a verse exactly when a document of the user and chapter has it, with that document's `!!completed` and time |
| ProgressRoutes.ChapterDetail | server/routes/progressRoutes.js:104-131 | a non-numeric chapter gives 500; otherwise the reply is the chapter's detail list |
| ProgressRoutes.CollectByVerse | server/routes/progressRoutes.js:111-118 | the first loop builds the dictionary of the user's documents of the chapter |
| ProgressRoutes.StatusList | server/routes/progressRoutes.js:120-124 | one status per catalog verse, in order, read from the dictionary |
| ProgressRoutes.DetailList | server/routes/progressRoutes.js:120-124 | one status per catalog verse of the chapter, each for a verse the catalog lists in that chapter |
| ProgressRoutes.DetailListShape | server/routes/progressRoutes.js:108-124 | exactly the catalog verses of the chapter in catalog order; a verse without a document is not completed and has no time |
| ProgressRoutes.DetailAfterSetVerse | server/routes/progressRoutes.js:120-152 | after marking a verse its chapter's detail reports the new state |
| ProgressRoutes.CompletedCountPositive | server/routes/progressRoutes.js:55-66 | a chapter has a positive count exactly when the user has a counted document in it |
| ProgressRoutes.Aggregate | server/routes/progressRoutes.js:55-66 | a chapter has a group exactly when the user has a counted document in it |
| ProgressRoutes.TotalsStep | server/routes/progressRoutes.js:71-75 | one more catalog entry adds one to its chapter's total, creating the entry if needed |
| ProgressRoutes.Totals | server/routes/progressRoutes.js:70-75 | a chapter has an entry exactly when the catalog has a verse of it |
| ProgressRoutes.CountCatalog | server/routes/progressRoutes.js:70-75 | the catalog loop gives each catalog chapter its number of entries |
| ProgressRoutes.MergeCounts | server/routes/progressRoutes.js:77-81 | every catalog or aggregated chapter gets its total (0 when not in the catalog) and its count (0 when not aggregated) |
| ProgressRoutes.ListedAppend | server/routes/progressRoutes.js:83-90 | a chapter is listed after adding a row exactly when it was listed or the row is its |
| ProgressRoutes.SortRows | server/routes/progressRoutes.js:83-90 | rows in strictly ascending chapter order, one per dictionary entry, each with its percent |
| ProgressRoutes.Summary | server/routes/progressRoutes.js:44-99 | one row for each chapter of the catalog or of the user's counted documents, ascending, each with its total, its count and its rounded percent |
| ProgressRoutes.SummaryRowsCorrect | server/routes/progressRoutes.js:70-90 | rows built from the merged dictionary are the summary's rows for exactly the right chapters |
| ProgressRoutes.SummaryRowBounds | server/routes/progressRoutes.js:79-89 | a chapter known only from records reports total 0 and percent 0; a count within the total gives at most 100 |
| FavouriteRoutes.FindFavourite | server/routes/favourites.js:24-28 | the position found holds the key; no position means no document has it |
| FavouriteRoutes.Toggle | server/routes/favourites.js:24-41 | the collection shrinks by one document when the key was a favourite and grows by one otherwise |
| FavouriteRoutes.ToggleKeepsOthers | server/routes/favourites.js:30-40 | documents with another key are neither lost nor added |
| FavouriteRoutes.ToggleFlips | server/routes/favourites.js:30-40 | the toggled key is a favourite afterwards exactly when it was not before |
| FavouriteRoutes.ToggleValid | server/models/Favourite.js:12 | a toggle keeps the unique (user, chapter, verse) index |
| FavouriteRoutes.ToggleOtherKey | server/routes/favourites.js:30-40 | every other key keeps its membership |
| FavouriteRoutes.ToggleTwice | server/routes/favourites.js:30-40 | two toggles of one key restore every key's membership |
| FavouriteRoutes.ToggleFavourite | server/routes/favourites.js:17-49 | 400 for a missing field and 500 for a NaN, both writing nothing; otherwise the store is toggled and the reply says false after a removal, true (with the item unless a concurrent insert won, error 11000) after an insert; the unique index is kept |
| FavouriteRoutes.ToggleReplyIsMembership | server/routes/favourites.js:33-40 | the reply's `favourite` is the key's membership after the toggle |
| FavouriteRoutes.Mine | server/routes/favourites.js:9 | exactly the documents of the user |
| FavouriteRoutes.InsertByDate | server/routes/favourites.js:9 | inserting into a newest-first list keeps it sorted and adds exactly the one document |
| FavouriteRoutes.InsertBehind | server/routes/favourites.js:9 | an older document inserted into the tail keeps the whole list sorted and a permutation |
| FavouriteRoutes.PrependNewest | server/routes/favourites.js:9 | a document no older than the head can go in front |
| FavouriteRoutes.DropNewest | server/routes/favourites.js:9 | the tail of a sorted list is sorted |
| FavouriteRoutes.SortNewestFirst | server/routes/favourites.js:9 | the result is newest first and a permutation of the input |
| FavouriteRoutes.ListMine | server/routes/favourites.js:7-15 | GET /me lists exactly the actor's favourites, each as often as stored, newest first |
| GitaRoutes.Resolve | server/routes/gitaRoutes.js:17-80 | a valid slot is served with nothing written; otherwise a fetched body is served and stored with the current time, and a failed fetch gives 500 with no write |
| GitaRoutes.IsCacheValid | server/routes/gitaRoutes.js:16-20 | a slot is usable when it exists, holds a truthy body and is younger than 24 hours; its partners are CacheLifetime and FalsyBodyRefetched |
| GitaRoutes.CacheLifetime | server/routes/gitaRoutes.js:7-21 | a truthy body is served from the cache for exactly 24 hours after it was stored, then refetched |
| GitaRoutes.FalsyBodyRefetched | server/routes/gitaRoutes.js:18 | a falsy body is never served from the cache |
| GitaRoutes.VerseKey | server/routes/gitaRoutes.js:134 | the key is the chapter, a dash at its length, and the verse |
| GitaRoutes.VerseKeyInjective | server/routes/gitaRoutes.js:134 | chapter parameters without a dash give different verses different keys |
| GitaRoutes.VerseKeyCollision | server/routes/gitaRoutes.js:134 | with a dash in the chapter parameter two different requests share a slot |
| GitaRoutes.GitaCache.constructor | server/routes/gitaRoutes.js:9-14 | the start-up cache: an empty chapter-list slot at time 0 and no other slot |
| GitaRoutes.GitaCache.GetChapters | server/routes/gitaRoutes.js:61-80 | the reply and the chapter-list slot follow Resolve; the other slots are untouched |
| GitaRoutes.GitaCache.GetChapter | server/routes/gitaRoutes.js:83-104 | the reply and the slot of `ch` follow Resolve; every other slot is untouched |
| GitaRoutes.GitaCache.GetChapterVerses | server/routes/gitaRoutes.js:107-128 | the reply and the slot of `ch` follow Resolve; every other slot is untouched |
| GitaRoutes.GitaCache.GetVerse | server/routes/gitaRoutes.js:131-155 | the reply and the slot under `${ch}-${sl}` follow Resolve; every other slot is untouched |
| GitaRoutes.Lookup | server/routes/gitaRoutes.js:86 | the slot exactly when the key is present |
| GitaRoutes.SecondRequestHitsCache | server/routes/gitaRoutes.js:86-98 | a second request within 24 hours of a truthy fetch is served the same body without fetching |
| GitaRoutes.FloorTimes | server/routes/gitaRoutes.js:36-37 | `Math.floor(r * k)` lies in [0, k) |
| GitaRoutes.RandomVerseAsWritten | server/routes/gitaRoutes.js:35-37 | the drawn chapter is 1 to 17 and the verse exists in it |
| GitaRoutes.ChapterEighteenNeverDrawn | server/routes/gitaRoutes.js:36 | chapter 18 is never drawn |
| GitaRoutes.RandomVerse | server/routes/gitaRoutes.js:35-37 | with the multiplier 18 the drawn chapter is 1 to 18 and the verse exists in it |
| GitaRoutes.FloorHits | server/routes/gitaRoutes.js:36-37 | `Math.floor((j/k) * k)` is j |
| GitaRoutes.EveryVerseReachable | server/routes/gitaRoutes.js:35-37 | every verse of every chapter can be drawn by the corrected picker |
| AuthCard.PaddedValue | client/src/Components/AuthCard.js:137 | a number padded with zeros to two places still reads as that number |
| AuthCard.FormatSeconds | client/src/Components/AuthCard.js:133-138 | "00:00" for a count that is not positive; otherwise at least five characters with the colon third from the end |
| AuthCard.FormatSecondsRoundTrip | client/src/Components/AuthCard.js:133-138 | for a positive count `formatSeconds` yields "m…m:ss" (digits, a colon, two digits below 60) that reads back as the same number of seconds |
| AuthCard.MinutesSecondsRead | client/src/Components/AuthCard.js:135-137 | minutes and a seconds part below 60, each padded to two digits and joined by a colon, read back as minutes·60 + seconds |
| AuthCard.PaddedTwoDigits | client/src/Components/AuthCard.js:137 | a number below 100 padded to two places has exactly two characters |
| AuthCard.FormatSecondsWidth | client/src/Components/AuthCard.js:133-138 | the display is always five characters wide below 100 minutes |
| AuthCard.FormatSecondsInjective | client/src/Components/AuthCard.js:133-138 | two different positive counts below 100 minutes never show the same display |
| AuthCard.AtIndex | client/src/Components/AuthCard.js:213 | the position of the first '@', or the length when there is none |
| AuthCard.EmailValidIff | client/src/Components/AuthCard.js:210-214 | the scanning validator accepts exactly the strings the regular expression `^[^\s@]+@[^\s@]+\.[^\s@]+$` describes |
| AuthCard.IsEmailValid | client/src/Components/AuthCard.js:210-214 | an accepted address has at least five characters and an '@', and does not start with it |
| AuthCard.IsOtpValid | client/src/Components/AuthCard.js:216-219 | exactly six ASCII digits; its partner is IssuedCodePassesClientCheck |
| AuthCard.PatternScans | client/src/Components/AuthCard.js:213 | a string of the pattern's shape is accepted by the scan |
| AuthCard.ScanMatchesPattern | client/src/Components/AuthCard.js:213 | a string the scan accepts has the pattern's shape |
| AuthCard.IssuedCodePassesClientCheck | client/src/Components/AuthCard.js:216-219 | every code the server draws passes the six-digit check |
| AuthCard.ValidEmailAcceptedByServer | client/src/Components/AuthCard.js:222-233 | an address the client lets through passes the server's send-otp checks |
| AuthCard.ValidCodeReachesComparison | client/src/Components/AuthCard.js:263-275 | a code the client lets through passes the server's "otp required" and string checks |
| AuthCard.TicksAgree | client/src/Components/Layouts/AuthCard.js:150-151 | the tick of AuthCard.js (`t <= 1 ? 0 : t - 1`) and the tick of Layouts/AuthCard.js (`prev > 0 ? prev - 1 : 0`) are the same function |
| AuthCard.Tick | client/src/Components/AuthCard.js:173-186 | a positive count goes down by one, but not below 0; a non-positive count stays as it is (the interval is not started for it) |
| AuthCard.CountdownValue | client/src/Components/AuthCard.js:172-201 | after k seconds a countdown from t shows t − k, or 0 once k ≥ t |
| AuthCard.Countdown | client/src/Components/AuthCard.js:172-201 | a timer started at a non-negative count stays between 0 and that count; one at or below 0 does not move |
| AuthCard.ResendAfterCooldown | client/src/Components/AuthCard.js:170 | resend becomes possible exactly ten seconds after the cooldown starts |
| AuthCard.TtlFromServer | client/src/Components/AuthCard.js:244-245 | the first truthy TTL field is used if it is a number, otherwise 600 s; 600 s when no field is truthy |
| AuthCard.CountdownMatchesServerExpiry | client/src/Components/AuthCard.js:162 | the 600 s default is the server's 10-minute record lifetime |
| AuthCard.SendGuard | client/src/Components/AuthCard.js:224-231 | no error exactly for a valid address; "Email is required" for the empty one |
| AuthCard.VerifyGuard | client/src/Components/AuthCard.js:265-272 | no error exactly for a six-digit code; "Enter the OTP" for the empty one |
| AuthCard.HandleSendOtp | client/src/Components/AuthCard.js:222-260 | an invalid address only sets the field error; a valid one clears it; the code step is reached exactly on a successful send, which stores the otpId and starts the cooldown |
| AuthCard.HandleVerifyOtp | client/src/Components/AuthCard.js:263-310 | an invalid code only sets the field error; the card is verified exactly after a successful reply; a refusal shows the server message or "Invalid OTP"; step, code and otpId are kept |
| AuthCard.HandleResend | client/src/Components/AuthCard.js:313-336 | nothing during the cooldown; otherwise the code field and its error are cleared, and a successful send stores the new otpId and restarts the cooldown while a failed one keeps the old code and countdown |
| AuthCard.Back | client/src/Components/AuthCard.js:445 | back to the e-mail step with the code field and its error cleared; the address, otpId and cooldown are kept |
| AuthCard.OnEmailChange | client/src/Components/AuthCard.js:341-344 | typing sets the address and clears its error |
| AuthCard.OnOtpChange | client/src/Components/AuthCard.js:345-348 | typing sets the code and clears its error |
| AuthCard.TickCardNCooldown | client/src/Components/AuthCard.js:188-201 | k seconds of ticks count the cooldown down as `Countdown` says and touch neither the otpId nor the step |
| AuthCard.TickCard | client/src/Components/AuthCard.js:172-201 | one second: each positive timer goes down by one, the others stay, and nothing else in the card changes |
| AuthCard.ResendLockedAfterSend | client/src/Components/AuthCard.js:313-314 | after a successful send, resend does nothing for ten seconds and resets the code field from then on |
| AuthCard.FreshCountdown | client/src/Components/AuthCard.js:244-246 | a successful send whose reply has no TTL field starts the countdown at 600 s |
| AuthCard.FreshCountdownDisplay | client/src/Components/AuthCard.js:338 | that countdown is displayed as "10:00" |
| AuthCard.TenMinutesDisplay | client/src/Components/AuthCard.js:133-138 | 600 seconds are displayed as "10:00" |
| AuthCard.CardForm.constructor | client/src/Components/AuthCard.js:146-165 | the hooks' initial values: e-mail step, empty fields and errors, both countdowns at 0 |
| AuthCard.CardForm.SendCode | client/src/Components/AuthCard.js:222-260 | the fields end as `HandleSendOtp` says |
| AuthCard.CardForm.VerifyCode | client/src/Components/AuthCard.js:263-310 | the fields end as `HandleVerifyOtp` says |
| AuthCard.CardForm.ResendCode | client/src/Components/AuthCard.js:313-336 | the fields end as `HandleResend` says |
| AuthCard.CardForm.GoBack | client/src/Components/AuthCard.js:445 | the fields end as `Back` says |
| AuthCard.CardForm.EmailChanged | client/src/Components/AuthCard.js:341-344 | the fields end as `OnEmailChange` says |
| AuthCard.CardForm.OtpChanged | client/src/Components/AuthCard.js:345-348 | the fields end as `OnOtpChange` says |
| AuthCard.CardForm.Second | client/src/Components/AuthCard.js:172-201 | one second of both intervals, as `TickCard` says |
| AuthModal.ModalEmailOk | client/src/Components/AuthModal.js:80 | the modal's address check: non-empty and containing an '@' |
| AuthModal.HasAt | client/src/Components/AuthModal.js:80 | an '@' at some position means `includes("@")` holds |
| AuthModal.CardCheckIsStricter | client/src/Components/AuthModal.js:80 | every address the card's regular expression accepts passes the modal's `includes("@")` check |
| AuthModal.ModalEmailAcceptedByServer | client/src/Components/AuthModal.js:79-90 | an address the modal lets through passes the server's send-otp checks |
| AuthModal.SendOtp | client/src/Components/AuthModal.js:79-104 | an address that is empty or lacks '@' changes nothing; an ok reply stores the otpId and the dev code and moves to the code step; a failure only ends the request |
| AuthModal.VerifyOtp | client/src/Components/AuthModal.js:107-131 | verified exactly after an ok reply to a non-empty code; the step, code and address are kept |
| AuthModal.Back | client/src/Components/AuthModal.js:177 | back to the e-mail step with an empty code; name, address and otpId are kept |
| AuthModal.Close | client/src/Components/AuthModal.js:133-142 | every form field returns to its initial value, the request flags are left |
| AuthModal.CloseIdempotent | client/src/Components/AuthModal.js:133-142 | closing twice is closing once, and a closed form is on the e-mail step with nothing typed |
| AuthModal.ClosedFormSendsNothing | client/src/Components/AuthModal.js:80-82 | a just-closed form makes no send request |
| AuthModal.ModalForm.constructor | client/src/Components/AuthModal.js:68-75 | the hooks' initial values |
| AuthModal.ModalForm.HandleSend | client/src/Components/AuthModal.js:79-104 | the fields end as `SendOtp` says |
| AuthModal.ModalForm.HandleVerify | client/src/Components/AuthModal.js:107-131 | the fields end as `VerifyOtp` says |
| AuthModal.ModalForm.GoBack | client/src/Components/AuthModal.js:177 | the fields end as `Back` says |
| AuthModal.ModalForm.CloseForm | client/src/Components/AuthModal.js:133-142 | the fields end as `Close` says |
| ProgressMap.MapOf | client/src/Pages/VersePage.js:107-114 | the object the forEach builds, later entries of a key overwriting earlier ones (its properties are MapOfKeys and MapOfLast) |
| ProgressMap.IsCompleted | client/src/Components/Chapters/VerseTable.js:23 | `progressMap[key]` read as a flag: only a stored true counts |
| ProgressMap.EntryKey | client/src/Pages/VersePage.js:110-113 | an entry is skipped exactly when verse, verse_number, verseNumber and index are all falsy and the last is undefined; otherwise it is stored under the key `Number(...)` gives |
| ProgressMap.MapOfKeys | client/src/Pages/VersePage.js:107-115 | the object's keys are exactly the keys of the entries not skipped, and no stored value is undefined |
| ProgressMap.MapOfLast | client/src/Pages/VersePage.js:109-114 | the value under a key is `!!completed` of the last entry stored under it |
| ProgressMap.VersesArr | client/src/Pages/VersePage.js:108 | `verses`, else `chapterVerses`, else the empty array |
| ProgressMap.ProgressOf | client/src/Pages/VersePage.js:101-122 | a reply that is not ok and a failed request both give the empty map |
| ProgressMap.FetchChapterProgress | client/src/Pages/VersePage.js:101-122 | the loop builds the map `ProgressOf` specifies, whose keys for an ok reply are exactly those of the entries not skipped |
| ProgressMap.Read | client/src/Pages/VersePage.js:136 | an absent key reads as undefined, a present one as its stored value |
| ProgressMap.DetailEntries | server/routes/progressRoutes.js:120-124 | one entry per listed verse, carrying its number and completion flag |
| ProgressMap.ServerDetailReadsBack | server/routes/progressRoutes.js:104-131 | reading the map built from the server's detail reply at a listed verse gives that verse's completion state, for every verse other than 0 |
| ProgressMap.SeenDetail | server/routes/progressRoutes.js:126-130 | a detail reply reaches the page as an ok reply carrying its verses; an error status as a failed request |
| VersePage.ParseSentence | client/src/Pages/VersePage.js:81-85 | the row id is the one-based position |
| VersePage.Sentences | client/src/Pages/VersePage.js:79-80 | no verse or empty meanings give no pieces |
| VersePage.WordMeanings | client/src/Pages/VersePage.js:77-90 | one row per "; "-separated piece, row i parsed from piece i |
| VersePage.WordMeaningIds | client/src/Pages/VersePage.js:82 | row i has id i + 1, and no two rows share an id |
| VersePage.ParseSentenceShape | client/src/Pages/VersePage.js:83-84 | the word holds no dash; the meaning is present exactly when the piece has a dash, and then the word is followed by the dash and the meaning |
| VersePage.ParseSentenceRoundTrip | client/src/Pages/VersePage.js:83-84 | for a piece with at most one dash, word, dash and meaning give the piece back |
| VersePage.UnparseAll | client/src/Pages/VersePage.js:81-85 | every row written back, in order |
| VersePage.WordMeaningsRoundTrip | client/src/Pages/VersePage.js:79-85 | the rows, written back and joined with "; ", are the meanings text, when no piece has two dashes |
| VersePage.AudioUrl | client/src/Pages/VersePage.js:43-48 | a URL exactly when the loaded verse has both numbers or both route parameters are non-empty |
| VersePage.AudioUrlStableOnLoad | client/src/Pages/VersePage.js:43-48 | once the verse of the route is loaded the URL is the one built from the route |
| VersePage.FoundIsServerMembership | client/src/Pages/VersePage.js:206-213 | the page's `favs.some(...)` over GET /favourites/me holds exactly when the server stores the verse as the user's favourite |
| VersePage.ToggleAgreesWithServer | client/src/Pages/VersePage.js:230-249 | the flipped flag shown after a successful toggle is the server's new membership |
| VersePage.RollbackRestoresReads | client/src/Pages/VersePage.js:135-160 | after the optimistic write and its rollback every key reads as before; during it the verse reads as the mark |
| VersePage.VersePageState.constructor | client/src/Pages/VersePage.js:41-203 | empty map, not a favourite, not playing |
| VersePage.VersePageState.CurrentCompleted | client/src/Pages/VersePage.js:199-200 | the verse counts as completed exactly when true is stored under its key |
| VersePage.VersePageState.Refresh | client/src/Pages/VersePage.js:101-122 | the map becomes `ProgressOf(reply)`; the other fields are kept |
| VersePage.VersePageState.ToggleVerse | client/src/Pages/VersePage.js:125-166 | no user: nothing sent, map kept; otherwise the body sent, the optimistic map, then the refetched map on success or the rolled-back map |
| VersePage.VersePageState.ToggleWholeChapter | client/src/Pages/VersePage.js:169-195 | no user: nothing sent; otherwise the body sent, and a refetch unless the request rejected |
| VersePage.VersePageState.FetchFav | client/src/Pages/VersePage.js:206-223 | an ok reply sets the flag from the list, a reply that is not ok keeps it, a failed request clears it |
| VersePage.VersePageState.ToggleFavourite | client/src/Pages/VersePage.js:228-256 | no user: nothing sent; otherwise the body sent, the flag flipped at once and kept only on success |
| VersePage.VersePageState.TogglePlay | client/src/Pages/VersePage.js:50-65 | no audio element: nothing; pause always; a play that rejects leaves the flag |
| VersePage.VersePageState.AudioEnded | client/src/Pages/VersePage.js:67 | playback has stopped |
| ChapterPage.CardShowsStoredState | client/src/Pages/ChapterPage.js:66-87 | the prop a verse card numbered like the catalog receives is the completion state the server stores for that verse, read through the detail route, the map builder and the card's read key; every card mounted on that map, or brought in line with it, shows that state |
| ChapterPage.Mount | client/src/Components/Shlok.js:51 | cards mounted on a map show, verse by verse, the state the map gives each of them |
| ChapterPage.FollowAsWritten | client/src/Components/Shlok.js:51 | as written a mounted card keeps its flag whatever new prop it is given |
| ChapterPage.Follow | client/src/Components/Shlok.js:51 | the corrected card keeps its verse and shows the state the new map gives it |
| ChapterPage.RevisitCardStale | client/src/Pages/ChapterPage.js:221-226 | a card mounted before the progress reply keeps showing a verse the server stores as completed as not completed, although its prop says completed; the corrected card shows it completed |
| ChapterPage.ChapterPageState.constructor | client/src/Pages/ChapterPage.js:25 | the map starts empty and no card is mounted |
| ChapterPage.ChapterPageState.ShowVerses | client/src/Pages/ChapterPage.js:221-226 | the cards are mounted on the map as it is at that render |
| ChapterPage.ChapterPageState.Refresh | client/src/Pages/ChapterPage.js:66-87 | the map becomes `ProgressOf(reply)` and the mounted cards keep the flags they had, as written |
| ChapterPage.ChapterPageState.FollowProps | client/src/Components/Shlok.js:51 | the corrected cards: every mounted card shows what the current map gives its verse |
| ChapterPage.ChapterPageState.ToggleWholeChapter | client/src/Pages/ChapterPage.js:90-112 | no user: nothing sent, map kept; otherwise the body sent, a refetch unless the request rejected, and the map kept when it rejected; the mounted cards are untouched |
| Shlok.FirstPreferred | client/src/Components/Chapters/Shlok.js:43-46 | the index `find` stops at: a preferred translation with none before it, or none when no translation is preferred |
| Shlok.Fallback | client/src/Components/Chapters/Shlok.js:48 | the first description when it is truthy, otherwise "" |
| Shlok.Desc | client/src/Components/Chapters/Shlok.js:40-49 | the description of the first preferred translation (as it is, even when missing), otherwise the fallback |
| Shlok.OtherLanguageFallsBack | client/src/Components/Chapters/Shlok.js:43-48 | a language other than english and hindi always shows the fallback |
| Shlok.Description | client/src/Components/Shlok.js:75-100 | the for-loop of the first copy returns the same text as the `find` of the second |
| Shlok.AudioUrl | client/src/Components/Chapters/Shlok.js:14-16 | a recitation URL exactly when both numbers are truthy |
| Shlok.AudioUrlIdentifiesVerse | client/src/Components/Shlok.js:34-37 | two cards with non-zero integer numbers play the same file only for the same verse |
| Shlok.AudioUrlAgreesWithVersePage | client/src/Pages/VersePage.js:43-48 | where the card has a recitation, the verse page of that verse plays the same file |
| Shlok.CardPayloadAccepted | client/src/Components/Chapters/Shlok.js:64-68 | a card with non-zero integer numbers sends a body the server's verse route accepts |
| Shlok.ShlokState.constructor | client/src/Components/Chapters/Shlok.js:19-21 | the flag starts from `!!initialCompleted`, not playing |
| Shlok.ShlokState.TogglePlay | client/src/Components/Chapters/Shlok.js:25-33 | nothing without an audio element, otherwise the playing flag flips |
| Shlok.ShlokState.AudioEnded | client/src/Components/Chapters/Shlok.js:35-37 | playback has stopped |
| Shlok.ShlokState.ToggleVerseProgress | client/src/Components/Chapters/Shlok.js:52-85 | no user: nothing sent; otherwise the body sent, the mark shown at once, kept on success and rolled back otherwise; the parent is notified exactly after a success when it gave a callback |
| VerseTable.IsChapterCompleted | client/src/Components/Chapters/VerseTable.js:21-24 | false for a missing or empty verse list, otherwise every verse marked in the map |
| VerseTable.LinkTarget | client/src/Components/Chapters/VerseTable.js:57 | the link of position `index` is `/chapter/<id>/slok/` followed by the verse key that highlights that position |
| VerseTable.Active | client/src/Components/Chapters/VerseTable.js:59 | the link of position `index` is highlighted when the route's verse is `String(index + 1)` |
| VerseTable.TableAgreesWithCards | client/src/Components/Chapters/VerseTable.js:21-24 | with truthy verse numbers the grid shows the chapter complete exactly when every card prop shows its verse complete, and so exactly when every card in line with the map does |
| VerseTable.TableShowsStoredChapter | client/src/Components/Chapters/VerseTable.js:21-24 | with the map from the detail route the chapter shows complete exactly when the server stores every catalog verse of it as completed |
| VerseTable.HandleToggle | client/src/Components/Chapters/VerseTable.js:26-30 | nothing without a callback, otherwise the negation of the indicator |
| VerseTable.ToggleFlipsTable | client/src/Components/Chapters/VerseTable.js:21-30 | once the server has stored the mark the button asks for and the page has refetched, the indicator is flipped |
| VerseTable.AsWrittenCardsMissChapterToggle | client/src/Pages/ChapterPage.js:90-112 | after a whole-chapter toggle and its refetch the indicator flips, but the cards as written, still showing their mount flags, disagree with it |
| VerseTable.CorrectedCardsFollowChapterToggle | client/src/Pages/ChapterPage.js:90-112 | the corrected cards agree with the flipped indicator after the same toggle |
| VerseTable.CardsAfterFlip | client/src/Components/Chapters/VerseTable.js:21-24 | when a new map flips the indicator, cards kept from the old map disagree with it and cards brought in line agree |
| VerseTable.ActiveLinkUnique | client/src/Components/Chapters/VerseTable.js:57-59 | at most one link is highlighted, and on the page a link leads to it is exactly that link |
| VerseTable.LinkedPageReadsSameKey | client/src/Components/Chapters/VerseTable.js:53-57 | the verse page a link opens reads its flag at the key the grid reads for that verse |
| ClientRequests.WireNumber | client/src/Pages/VersePage.js:141-145 | a finite `Number(x)` travels as that number, NaN as null |
| ClientRequests.VersePayload | client/src/Pages/VersePage.js:141-145 | both numbers are always present and `completed` is the boolean mark |
| ClientRequests.VersePayloadAccepted | client/src/Pages/VersePage.js:141-148 | the verse body the pages send is accepted by the server exactly when both numbers are finite and non-zero |
| ClientRequests.ChapterPayload | client/src/Pages/VersePage.js:179-183 | the chapter is always present, no verse list is sent, and `completed` is the mark |
| ClientRequests.WireNumberReads | client/src/Pages/VersePage.js:141-145 | a number on the wire is truthy exactly when finite and non-zero, and the server reads a finite one back unchanged |
| ClientRequests.ChapterPayloadAccepted | client/src/Pages/VersePage.js:179-183 | the chapter body is accepted exactly when its number is finite, non-zero and a chapter of the catalog |
| ClientRequests.FavouritePayload | client/src/Pages/VersePage.js:239-243 | both fields are always present |
| ClientRequests.FavouritePayloadReadsAs | client/src/Pages/VersePage.js:239-243 | both fields are always present, so the toggle is never refused with 400; a NaN arrives as null and is read as 0 |
| ClientRequests.RecitationPath | client/src/Pages/VersePage.js:45-47 | always an .mp3 file under /verse_recitation/ |
| ClientRequests.RecitationPathInjective | client/src/Pages/VersePage.js:45-47 | a chapter part without a slash determines both parts from the recitation path |
| ClientRequests.RecitationPathOfNumbers | client/src/Pages/VersePage.js:45-47 | different integer (chapter, verse) pairs have different recitation files |
| Context.InitialContext | client/src/Context/Context.js:12-29 | English, every loading flag set, no error, empty lists and an empty chapter object |
| Context.FetchChapters | client/src/Context/Context.js:42-58 | a held non-empty list is never fetched again and is re-dispatched exactly while its loading flag is set; otherwise GET /chapters |
| Context.GetSingleChapter | client/src/Context/Context.js:73-92 | skipped exactly when the loaded chapter's number, as a string, is the requested id; otherwise GET /chapter/:id |
| Context.GetAllVerses | client/src/Context/Context.js:96-116 | skipped exactly when verses are loaded and the first one's chapter number, as a string, is the id before the first slash; otherwise GET /chapter/:url |
| Context.GetVerse | client/src/Context/Context.js:119-128 | always fetched |
| Context.ChapterIdOfPath | client/src/Context/Context.js:97 | the id in front of a slash is read back as it is, when it has no slash itself |
| Context.VersesSkippedOnlyForSameChapter | client/src/Context/Context.js:100-106 | with chapter c's verses loaded, the chapter page's request for `${d}/slok` is skipped exactly when c = d |
| Context.ChapterSkippedOnlyForSameChapter | client/src/Context/Context.js:75-82 | with chapter c loaded, the request for chapter d is skipped exactly when c = d |
| Context.FirstLoadsFetch | client/src/Context/Context.js:12-29 | from the initial state the first load of each kind is fetched |
| JapaTour.Next | client/src/Components/Layouts/JapaTour.js:193-207 | a press while animating does nothing (the button is disabled); otherwise the animation starts on the same step, and the last step shows the blessing and leaves a finish pending while an earlier one leaves an advance pending |
| JapaTour.Fire | client/src/Components/Layouts/JapaTour.js:198-205 | an advance moves one step on and ends the animation; a finish calls `onComplete`; nothing pending changes nothing |
| JapaTour.InvPreserved | client/src/Components/Layouts/JapaTour.js:193-210 | both events keep the tour within its six steps, so `tourSteps[step]` always exists |
| JapaTour.WalkVisitsSteps | client/src/Components/Layouts/JapaTour.js:193-207 | n presses, each followed by its timer, rest on step n with nothing pending, for every step |
| JapaTour.NoEarlyCompletion | client/src/Components/Layouts/JapaTour.js:196-205 | `onComplete` is not called before the last step |
| JapaTour.WalkCompletes | client/src/Components/Layouts/JapaTour.js:196-200 | the sixth press shows the blessing on the last step and its timer completes the tour |
| JapaTour.Dot | client/src/Components/Layouts/JapaTour.js:277 | dot i is active exactly when it is the step and completed exactly when it is before it |
| JapaTour.DotsClassify | client/src/Components/Layouts/JapaTour.js:273-279 | exactly one dot is active, none is both, and the completed ones precede it |
| JapaTour.LabelShape | client/src/Components/Layouts/JapaTour.js:282 | the label is the one-based step over 6, three characters |
| JapaTour.HighlightFor | client/src/Components/Layouts/JapaTour.js:82-116 | a centred step or a missing element gives the zero-size centred box, anything else a box around the element |
| JapaTour.EndStepsCentred | client/src/Components/Layouts/JapaTour.js:15-62 | the first and the last step are centred |
| JapaTour.HighlightSurrounds | client/src/Components/Layouts/JapaTour.js:106-115 | the box surrounds the element with 20 px to spare on every side |
| JapaTour.TourState.constructor | client/src/Components/Layouts/JapaTour.js:8-12 | step 0, not animating, no blessing, nothing pending |
| JapaTour.TourState.HandleNext | client/src/Components/Layouts/JapaTour.js:193-207 | the fields end as `Next` says |
| JapaTour.TourState.TimerFires | client/src/Components/Layouts/JapaTour.js:198-205 | the fields and the completion end as `Fire` says |
| JapaPage.SaveAllowed | client/src/Pages/JapaPage.js:89-101 | handleSave goes on only for a signed-in user, a positive count and no save in flight |
| JapaPage.Initial | client/src/Pages/JapaPage.js:38-57 | counter 0, nothing open or saving; the tour opens exactly when the stored flag is absent or empty |
| JapaPage.AfterTourComplete | client/src/Pages/JapaPage.js:59-62 | the tour closes and the flag stored stops it opening on a later visit |
| JapaPage.AfterClick | client/src/Pages/JapaPage.js:74-76 | exactly one more, nothing else changes |
| JapaPage.AfterReset | client/src/Pages/JapaPage.js:78-82 | the confirmation opens only for a positive count; the count is kept |
| JapaPage.AfterConfirmReset | client/src/Pages/JapaPage.js:84-87 | the counter goes to 0 and the confirmation closes |
| JapaPage.AfterCancelReset | client/src/Pages/JapaPage.js:127 | the confirmation closes, nothing else changes |
| JapaPage.SaveSentAsWritten | client/src/Pages/JapaPage.js:89-107 | without a user, with a count of 0 or during a save nothing is sent; otherwise the count is sent and the counter keeps showing it |
| JapaPage.SaveAnsweredAsWritten | client/src/Pages/JapaPage.js:109-120 | a success sets the counter to 0, anything else leaves it |
| JapaPage.SaveSent | client/src/Pages/JapaPage.js:89-107 | the same guards; the count is sent and moved out of the counter into the request in flight |
| JapaPage.SaveAnswered | client/src/Pages/JapaPage.js:109-120 | a success keeps the taps made meanwhile, anything else puts the taps sent back |
| JapaPage.SentCountAccepted | client/src/Pages/JapaPage.js:89-107 | a request is sent exactly when the guards pass, and its count is one the server accepts |
| JapaPage.CorrectedKeepsEveryTap | client/src/Pages/JapaPage.js:74-120 | under every event of the corrected page each tap is saved, discarded by a reset, in flight or on the counter |
| JapaPage.AsWrittenLosesTapsDuringSave | client/src/Pages/JapaPage.js:109-112 | as written, a success with taps made during the save drops those taps |
| JapaPage.LostTapExample | client/src/Pages/JapaPage.js:109-112 | three taps, Save, a fourth tap and a success: 3 is sent and the counter shows 0 as written, 1 when corrected |
| JapaPage.CorrectedAgreesWhenIdle | client/src/Pages/JapaPage.js:89-120 | with nothing done during the save both versions end on the same count |
| JapaPage.SaveAddsToTotal | server/routes/japaCountRoutes.js:21 | a successful save adds exactly the taps sent to the stored total |
| JapaPage.JapaPageState.constructor | client/src/Pages/JapaPage.js:38-57 | the fields start as `Initial` says |
| JapaPage.JapaPageState.HandleTourComplete | client/src/Pages/JapaPage.js:59-62 | the fields and the stored flag end as `AfterTourComplete` says |
| JapaPage.JapaPageState.HandleClick | client/src/Pages/JapaPage.js:74-76 | the fields end as `AfterClick` says |
| JapaPage.JapaPageState.HandleReset | client/src/Pages/JapaPage.js:78-82 | the fields end as `AfterReset` says |
| JapaPage.JapaPageState.ConfirmReset | client/src/Pages/JapaPage.js:84-87 | the fields end as `AfterConfirmReset` says |
| JapaPage.JapaPageState.CancelReset | client/src/Pages/JapaPage.js:127 | the fields end as `AfterCancelReset` says |
| JapaPage.JapaPageState.BeginSave | client/src/Pages/JapaPage.js:89-107 | the fields and the request end as the corrected `SaveSent` says |
| JapaPage.JapaPageState.BeginSaveAsWritten | client/src/Pages/JapaPage.js:89-107 | the fields and the request end as `SaveSentAsWritten` says: the counter still shows the taps sent |
| JapaPage.JapaPageState.FinishSave | client/src/Pages/JapaPage.js:109-120 | the fields end as the corrected `SaveAnswered` says |
| JapaPage.JapaPageState.FinishSaveAsWritten | client/src/Pages/JapaPage.js:109-120 | the fields end as `SaveAnsweredAsWritten` says: a success sets the counter to 0 |
| Pagination.AllVisible | client/src/Components/Chapters.js:43 | `allVisible`: the count reaches the length |
| Pagination.ControlsShown | client/src/Components/Chapters.js:111 | the controls render only for more than six chapters |
| Pagination.More | client/src/Components/Chapters.js:23-26 | never past the list; from within the list at least one and at most six more; the new count is the length or six more |
| Pagination.Shown | client/src/Components/Chapters.js:80 | the first min(count, length) chapters, in order |
| Pagination.MoreTimesValue | client/src/Components/Chapters.js:23-26 | k presses from a count within the list show min(count + 6k, length) |
| Pagination.EventuallyAllVisible | client/src/Components/Chapters.js:43 | ⌈(length − count)/6⌉ presses show every chapter |
| Pagination.MoreExtendsShown | client/src/Components/Chapters.js:80 | "Show more" keeps the chapters already shown at the front |
| Pagination.ChapterGrid.constructor | client/src/Components/Chapters/Chapters.js:53 | six chapters shown at first |
| Pagination.ChapterGrid.ShowMore | client/src/Components/Chapters/Chapters.js:61-72 | the count becomes `More` of the old count and the current list length |
| Pagination.ChapterGrid.ShowLess | client/src/Components/Chapters/Chapters.js:74-78 | back to six |
| Pagination.ChapterList.constructor | client/src/Components/Chapters.js:11-12 | an empty list and a count of six |
| Pagination.ChapterList.ChaptersChanged | client/src/Components/Chapters.js:16-20 | the list is copied from the context (or []) and the count reset to six |
| Pagination.ChapterList.ShowMore | client/src/Components/Chapters.js:23-34 | the list is kept and the count becomes `More`; the count stays six, a multiple of six or the length |
| Pagination.ChapterList.ShowLess | client/src/Components/Chapters.js:37-41 | the list is kept and the count is six |
| Pagination.ChapterList.AllChaptersVisible | client/src/Components/Chapters.js:43 | `allVisible` is the count reaching the length |
| Pagination.ChapterList.ShownChapters | client/src/Components/Chapters.js:80 | the chapters rendered, exactly as many as the count once past the first page |
| Pagination.ControlsOnlyWhenPaged | client/src/Components/Chapters.js:111 | the show more / show less controls appear exactly when the first page of six does not already show every chapter |
| Profile.CompletedCount | client/src/Pages/ProfilePage.js:163 | the number of completed verses (its bounds are CompletedCountBounds) |
| Profile.IdKeysDistinguish | client/src/Pages/ProfilePage.js:82 | favourites with an id get the same key exactly when their ids are equal |
| Profile.FavKey | client/src/Pages/ProfilePage.js:82 | an id key starts with "id-" and a number key with 'c', so the two families never meet |
| Profile.IdKeyNotNumberKey | client/src/Pages/ProfilePage.js:82 | an id key never equals a number key |
| Profile.NumberKeysDistinguish | client/src/Pages/ProfilePage.js:82 | favourites without an id get the same key exactly when both numbers are equal |
| Profile.NumberKeyShape | client/src/Pages/ProfilePage.js:82 | the key of a numbered favourite is "c", the chapter, "-v", the verse |
| Profile.NumberPairsInjective | client/src/Pages/ProfilePage.js:82 | "chapter-vverse" spells its two numbers back |
| Profile.AfterPlayPress | client/src/Pages/ProfilePage.js:84-119 | pressing the playing favourite pauses it and clears the key; any other starts its recitation file and becomes the playing key exactly when `play()` resolves |
| Profile.PressTwiceStops | client/src/Pages/ProfilePage.js:84-119 | a second press on the favourite just started stops it; a favourite with other numbers starts another file |
| Profile.CompletedCountBounds | client/src/Pages/ProfilePage.js:163 | the completed count is at most the list and equals it exactly when every verse is completed |
| Profile.StatsOf | client/src/Pages/ProfilePage.js:163-165 | total is the list length, count within it, percent 0 to 100: 0 for an empty list or none completed, 100 for all |
| Profile.RefreshRows | client/src/Pages/ProfilePage.js:166-168 | the row of the chapter gets the new numbers, every other row is kept, in order |
| Profile.AfterDetailPress | client/src/Pages/ProfilePage.js:148-173 | an open chapter closes with no request; otherwise a request, the verses stored ([] for a missing field or a failed request), and on a reply the chapter's summary rows refreshed |
| Profile.OpenThenCloseRestores | client/src/Pages/ProfilePage.js:148-156 | opening and closing a chapter leaves the other panels, the favourites and the player as they were |
| Profile.ServerDetailStats | server/routes/progressRoutes.js:104-131 | a chapter loaded from the detail route gets the catalog's verse count as total, and its count reaches it exactly when the store holds every verse completed |
| Profile.OverallBounded | client/src/Pages/ProfilePage.js:348-350 | rows with counts within their totals give an overall count within the total and a percent of at most 100 |
| Profile.TotalCompleted | client/src/Pages/ProfilePage.js:348 | never below any chapter's count, and 0 exactly when every chapter's count is 0 |
| Profile.TotalVerses | client/src/Pages/ProfilePage.js:349 | never below any chapter's verse total, and 0 exactly when every total is 0 |
| Profile.OverallProgress | client/src/Pages/ProfilePage.js:350 | 0 when there are no verses, and at most 100 whenever the completed total is within the verse total |
| Profile.RefreshAdjustsTotals | client/src/Pages/ProfilePage.js:166-168 | refreshing the one row of a chapter swaps its numbers in both totals |
| Profile.RefreshLeavesOthers | client/src/Pages/ProfilePage.js:166-168 | a refresh of a chapter without a row changes nothing |
| Profile.FilterOut | client/src/Pages/ProfilePage.js:314-316 | the filter never makes the list longer |
| Profile.RemoveMatching | client/src/Pages/ProfilePage.js:313-317 | the removal never makes the list longer |
| Profile.FilterOutMembers | client/src/Pages/ProfilePage.js:314-316 | an entry stays exactly when it was there and is not dropped |
| Profile.FilterOutAppend | client/src/Pages/ProfilePage.js:314-316 | the filter works entry by entry and keeps the order |
| Profile.FilterOutNothing | client/src/Pages/ProfilePage.js:314-316 | a list with nothing to drop comes back unchanged |
| Profile.RemoveMatchingMembers | client/src/Pages/ProfilePage.js:313-317 | an entry stays exactly when it was there and does not match both numbers |
| Profile.RemoveKeepsOrder | client/src/Pages/ProfilePage.js:313-317 | the removal keeps the order of what it keeps |
| Profile.RemoveNothingElse | client/src/Pages/ProfilePage.js:313-317 | a list without a match is unchanged, and the pressed entry goes when its numbers are numbers |
| Profile.ItemsOf | server/routes/favourites.js:7-15 | one entry per document of the list, with its numbers |
| Profile.RemovalAgreesWithServer | client/src/Pages/ProfilePage.js:753-770 | after the optimistic removal the page shows exactly what the server holds as favourites once its toggle has run |
| Profile.ShownAfterRemoval | client/src/Pages/ProfilePage.js:313-317 | the list after the removal shows every other favourite of the user and nothing else |
| Profile.ShownIsKept | client/src/Pages/ProfilePage.js:313-317 | what the list shows after the removal is another favourite of the user |
| Profile.KeptIsShown | client/src/Pages/ProfilePage.js:313-317 | every other favourite of the user is still shown |
| Profile.FavouriteIsListed | server/routes/favourites.js:7-15 | a favourite of the user is on the user's list |
| Profile.ListedIsFavourite | server/routes/favourites.js:7-15 | a document on the user's list is one of the user's favourites |
| Profile.NameRequest | client/src/Pages/ProfilePage.js:176-183 | a request exactly for a draft whose trimmed `.length`, counted in UTF-16 code units, is at least two, carrying the trimmed draft |
| Profile.NameLengthInCodeUnits | client/src/Pages/ProfilePage.js:177 | two characters always suffice; a single character suffices exactly when it lies outside the Basic Multilingual Plane; an empty draft never does |
| Profile.NameStoredAsSent | server/routes/authRoutes.js:205-211 | every name the editor sends is stored as sent, and the avatar is left alone |
| Profile.TrimmedFieldOfTrim | server/routes/authRoutes.js:206-207 | the server's filter keeps a trimmed string whole unless it is empty |
| Profile.ProfilePage.constructor | client/src/Pages/ProfilePage.js:32-44 | empty summary, no open chapter, no favourites, nothing playing |
| Profile.ProfilePage.LoadChapterDetail | client/src/Pages/ProfilePage.js:148-173 | the state and the request end as `AfterDetailPress` says |
| Profile.ProfilePage.TogglePlayFavourite | client/src/Pages/ProfilePage.js:84-119 | the playing key and the player action are those of `AfterPlayPress`; nothing else changes |
| Profile.ProfilePage.RemoveFavourite | client/src/Pages/ProfilePage.js:753-770 | the list shown at once, the body sent, the list kept unless the request rejects, when it is put back, and the recitation stopped if it was this one |
| Profile.ProfilePage.AudioEnded | client/src/Pages/ProfilePage.js:54-66 | after the `ended` or `error` event nothing is playing; nothing else changes |
| Profile.PressAfterEndStarts | client/src/Pages/ProfilePage.js:84-119 | once playback has ended a press on any favourite starts its recitation rather than pausing |

## Left out

### Configuration
- AuthRoutes.GenerateNumericOtp: requires a length of at most 14. `crypto.randomInt` throws a RangeError for a range of 2^48 or more, and `10 ** length` reaches it from length 15 on. The throw, which send-otp would answer with a 500, is not modelled, because `OTP_LENGTH` is fixed at 6. `AuthRoutes.DrawableLengths` proves where the limit lies.
- Environment settings: `JWT_SECRET`, `JWT_EXPIRES_IN`, `OTP_TTL_MINUTES`, `OTP_LENGTH` and `OTP_ATTEMPTS` are fixed at their defaults. `DEV_SHOW_OTP` is a parameter of send-otp. The cookie flags that depend on `NODE_ENV` do not affect the reply and are not modelled.

### Numbers
- Fractional numbers, exponents, hexadecimal literals and Infinity. `Number(x)` is modelled on integer strings and gives NaN for everything else. Every numeric field in the system is a chapter number, a verse number, a count or a time in milliseconds.
- `Math.random` returns a real number in [0, 1). The only arithmetic the model does on it is the floor of a product.
- Percent.RoundedPercent: the percent is computed exactly, while the source rounds the double-precision value of `(c / t) * 100`. The two differ where the exact value is a half that the double lands just below: for c = 23 and t = 40 the double is 57.49999999999999, so `Math.round` gives 57 where the model gives 58. The same holds for `PercentOrZero` and every percent built on it.

- JSON objects inside a body. The `Json` datatype has no object variant, so a field that carries an object where a number or string belongs cannot be written down. For example, `{ chapter: {} }` on the verse route passes the truthiness guard, `Number({})` is NaN, and the cast error ends in a 500.

### Cryptography and randomness
- bcrypt's cost factor and salt, and JWT's signature algorithm. Both services are ideal: a digest matches exactly its own plaintext, and a token verifies under its own key before its `exp`.
- `crypto.randomInt` is the drawn value, passed in as a parameter.

### Persistence
- Mongo's aggregation pipeline, `bulkWrite` and `ObjectId` normalisation. Each collection is a sequence, and a document's id is its position.
- The TTL index on OTP records. Record expiry is modelled by the `expiresAt` check alone, because the verify route checks expiry itself. Background deletion is not modelled.
- The `/slok` verse-of-the-day route and its date pruning (`server/routes/gitaRoutes.js:158-188`). It is persistence plumbing around the random picker, which is modelled.
- The order Mongo gives documents with equal `createdAt` on the favourites list. The model proves the list is newest first and holds exactly the user's favourites. It does not fix an order among ties.

### I/O
- Sending e-mail and SMS. The reply of send-otp does not depend on the outcome, which is why the outcome is not a parameter.
- HTTP itself. Each client request is represented by its body and the outcome it gets: a reply, a non-ok reply, or a thrown error.

### Concurrency
- Interleavings of concurrent requests. The duplicate-key race of the favourites toggle is modelled only through its sequential outcome (error 11000 reports success). On progress, concurrent writes simply end with the last write winning.

### Timers
- `setInterval` and `setTimeout` are discrete events: a tick of the countdown, or the firing of the tour's pending callback. Their durations are not modelled.
- GitaRoutes.Resolve: the cache routes read the clock twice, once in the validity check and once to stamp the slot they store after the upstream answer. The model takes both readings as the one instant `nowMs`, so a stored slot carries the time of the check rather than the slightly later time of the answer.

### Browser effects
- Toasts, navigation, scrolling, DOM measurement, styling and animations.
- The JapaTour message box placement, which uses floating-point viewport geometry. The highlight box around the target is modelled.
- The `open` prop of the sign-in modal. Rendering nothing while the modal is closed is presentation only.
- The shared context's `isdarkMode` flag, read from `localStorage`. It is presentation only.
- Audio playback beyond the play flag: the position bar that `timeupdate` feeds and `ended` resets, and the
  failure toast of the `error` listener.

### Reducer and loading flags
- The shared context's reducer. `client/src/Context/Reducer` is not part of this model, so a loader is represented by the request it issues or skips.
- Loading flags that a handler sets and clears within one request (`sending`, `verifying`, `isLoading`). A handler's effect is the state after its answer arrives. The exception is the japa page's save, whose two halves are separate events because the counter stays usable in between.

### Component-specific choices
- `word_meanings` text that is not a string: it is read as "".
- The profile page's `chapterDetails` is keyed by the integer chapter number rather than by its string.
- h.js has no overall totals, and the same helpers model its remaining logic.
- `Profile.AfterPlayPress`: the early return when the page has no audio element is not modelled. The element is taken to exist, as it always does once the page has rendered.
- `Shlok.ShlokState.TogglePlay`: whether the element exists is a parameter, not part of the page state.

## Findings

| source | as written | input that shows it | evidently intended | confidence | as-written member | corrected member |
|---|---|---|---|---|---|---|
| server/routes/gitaRoutes.js:36 | the chapter of the random verse is `Math.floor(Math.random() * 17) + 1`, although the verse-count table has 18 entries | any draw: the chapter is at most 17, so none of the 78 verses of chapter 18 is ever the verse of the day | `Math.random() * 18`, so that every chapter can be drawn | not executed; high | GitaRoutes.ChapterEighteenNeverDrawn | GitaRoutes.EveryVerseReachable |
| client/src/Pages/JapaPage.js:109-112 | a successful save calls `setCount(0)`. The counter button stays enabled while the save is in flight, so taps made meanwhile are wiped without being sent | three taps, Save, a fourth tap, then a successful answer: the server adds 3 and the counter shows 0 | subtract only the count that was sent, keeping the taps made meanwhile | not executed; medium | JapaPage.LostTapExample | JapaPage.CorrectedKeepsEveryTap |
| client/src/Components/Shlok.js:51 | each verse card copies its `isCompleted` prop into state once, with `useState(!!initialCompleted)`, and never follows later props; the page keys the cards by `item.id`, so a new progress map does not remount them | a whole-chapter toggle: the page refetches and the chapter indicator flips, but every card keeps the flag it was mounted with; likewise, cards mounted before the progress reply show stored completed verses as not completed | the card follows its prop, for example through an effect on `initialCompleted` | not executed; high | VerseTable.AsWrittenCardsMissChapterToggle | VerseTable.CorrectedCardsFollowChapterToggle |
