# Request handlers of a token-authenticated media service

This project models `lib/handlers.js`, the request handlers of a small
Node.js HTTP service. The service keeps three collections:

- **users**, keyed by a 10-character phone number;
- **tokens**, keyed by a 20-character random id and valid for one hour;
- **media**, keyed by a 20-character random id, each record owned by a user
  and listed in that user's `mediaLinks`.

Three dispatchers (`users`, `tokens`, `media`) route `post`, `get`, `put`
and `delete` to one handler each and answer 405 to any other method.

The model has two layers:

- **Module `Spec`** states every handler as a pure function from the store
  (`State`), the request and the environment to the new store and the
  response (`Outcome`).
- **Class `Handlers.Server`** holds the three collections as fields, with
  one method per handler. Each method follows the source's callback chain
  step by step (read, check, write). It is proved to produce exactly the
  new store and response that the `Spec` function describes.

The cascade of the user delete is a loop method, `Handlers.DeleteEach`. It
keeps the source's counter and error flag and is proved against the
recursive `Spec.CascadeDelete`.

What the handlers promise is proved as lemmas about the `Spec` functions:

- `TokenProperties`: issuing, verifying, extending and revoking tokens.
- `UserProperties`: registration, update, read, and the delete with its
  cascade.
- `MediaProperties`: creating, listing, updating and deleting media.
- `Integrity`: the link relation between users and media records, and
  which handlers keep it.

Module `Coercion` models JavaScript's `==` between two hash results, each a
string or `false`: `false` equals any string whose numeric value is zero,
such as `""` or `"0"`. Token issue compares hashes this way.

Module `Validate` models the input checks every handler opens with. A text
field is accepted when it is a string whose JavaScript `trim()` has the
required length; the accepted value is the trimmed text.

Everything outside the handlers is a parameter of type `Env`:

- the current time `now`;
- the password hash, as a function that may fail (`None` stands for `false`);
- the fresh random id;
- whether the URL's host resolves in DNS;
- the persistence faults (`Faults`).

The file store is modelled by the three maps. A create fails when its key
exists or on the create fault. An update or delete fails when its key is
missing or on the matching fault. A read succeeds exactly when its key is
present, except that the media listing can also fail for the ids in
`readFails`.

The store is assumed to start empty; how the file store is created is not
part of this model.

Some behaviours of the code are worth stating outright, because the model
keeps them:

- The user delete removes the user row before it deletes the linked
  records (lib/handlers.js:216-229).
- Creating media reads the token to find its owner but never calls
  `verifyToken`, so an expired token still creates media
  (lib/handlers.js:461-465).
- Creating media answers 403 when the token or its user is missing
  (lib/handlers.js:526, 532).
- Each "not found" keeps the code the handler gives it: 404 for a user or
  token read, 400 for most others, and 500 for a media record whose owner
  is gone.

## Model

| member | source | states |
|---|---|---|
| Validate.Trim | lib/handlers.js:62 | `trim()` keeps an infix of the string, removes only white space, and leaves a result that neither starts nor ends with white space |
| Validate.TrimIdempotent | lib/handlers.js:62 | trimming twice is trimming once |
| Validate.TrimmedIsFixed | lib/handlers.js:62 | a string without white space at either end is unchanged by `trim()` |
| Validate.TrimUnique | lib/handlers.js:62 | `trim()` is the only infix with white space all around it and non-white ends |
| Validate.PaddedTrim | lib/handlers.js:62 | white space added before and after a string, in any amounts, does not change its trim |
| Validate.PaddingIgnored | lib/handlers.js:62-65 | white space added before and after a field changes neither whether it is accepted nor the accepted value |
| Validate.AcceptedTextIsTrimmed | lib/handlers.js:62-65 | every accepted field is already trimmed, non-empty or of the exact length |
| Spec.CascadeDelete | lib/handlers.js:221-239 | the cascade deletes only from the collection, keeps the surviving records unchanged, and counts at most one failure per id |
| Spec.IndexOf | lib/handlers.js:674 | `indexOf` gives the first position of the id, or -1 exactly when the id is absent |
| Handlers.DeleteEach | lib/handlers.js:221-240 | the loop of one delete per linked id, with its counter and error flag, leaves the collection the cascade describes and reports once: 200 when no delete failed, 500 otherwise |
| Handlers.Server.UsersPost | lib/handlers.js:60-107 | registration leaves the store and answers as `Spec.UsersPost` describes |
| Handlers.Server.UsersGet | lib/handlers.js:111-138 | a user read changes nothing and answers as `Spec.UsersGet` describes |
| Handlers.Server.UsersPut | lib/handlers.js:142-199 | a user update leaves the store and answers as `Spec.UsersPut` describes |
| Handlers.Server.UsersDelete | lib/handlers.js:203-261 | a user delete as written, with the cascade against 'mediaLinks', leaves the store and answers as `Spec.UsersDelete` describes |
| Handlers.Server.UsersDeleteCascadingMedia | lib/handlers.js:203-261 | a user delete whose cascade targets 'media' leaves the store and answers as `Spec.UsersDeleteCascadingMedia` describes |
| Handlers.Server.TokensPost | lib/handlers.js:279-330 | issuing a token leaves the store and answers as `Spec.TokensPost` describes |
| Handlers.Server.TokensGet | lib/handlers.js:335-350 | a token read changes nothing and answers as `Spec.TokensGet` describes |
| Handlers.Server.TokensPut | lib/handlers.js:355-384 | extending a token leaves the store and answers as `Spec.TokensPut` describes |
| Handlers.Server.TokensDelete | lib/handlers.js:390-412 | revoking a token leaves the store and answers as `Spec.TokensDelete` describes |
| Handlers.Server.MediaPost | lib/handlers.js:448-538 | creating media leaves the store and answers as `Spec.MediaPost` describes |
| Handlers.Server.MediaGet | lib/handlers.js:545-589 | the loop that reads every listed id changes nothing and answers as `Spec.MediaGet` describes: 400 when there is no media or a read fails, otherwise 200 with every record |
| Handlers.Server.MediaPut | lib/handlers.js:594-645 | updating media leaves the store and answers as `Spec.MediaPut` describes |
| Handlers.Server.MediaDelete | lib/handlers.js:651-708 | deleting media leaves the store and answers as `Spec.MediaDelete` describes |
| Handlers.Server.Users | lib/handlers.js:45-52 | the users dispatcher runs the handler named by the method, and answers 405 with the store unchanged to any other method |
| Handlers.Server.Tokens | lib/handlers.js:264-271 | the tokens dispatcher runs the handler named by the method, and answers 405 with the store unchanged to any other method |
| Handlers.Server.MediaRoute | lib/handlers.js:432-439 | the media dispatcher runs the handler named by the method, and answers 405 with the store unchanged to any other method |
| TokenProperties.TokensPostIssuesOneToken | lib/handlers.js:279-330 | a token is issued exactly when the credentials are well formed, the user exists, the password's hash equals the stored one under JavaScript's `==` and the create succeeds; the token is the only change, expires an hour from now and copies the phone and first name; otherwise the store is unchanged with 400 or 500 |
| TokenProperties.TokensPostRejectsBadCredentials | lib/handlers.js:319-325 | an unknown phone, or a hash that is not `==` to the stored one, is a 400 that creates nothing |
| TokenProperties.FailedHashMatchesZeroHash | lib/handlers.js:296-315 | when the hash helper fails (`false`) and the stored hash is a string worth zero, such as the empty string a user update can store, `==` holds and a token is issued |
| Coercion.LooseEqualsIsExactOffZero | lib/handlers.js:296 | `==` between hash results is symmetric, holds between equal values, and is exact equality unless one side is `false` and the other a string worth zero, in which case it holds |
| Coercion.NonZeroDigitsAreNotZero | lib/handlers.js:296 | a string of digits with a non-zero digit is not worth zero, so it is never `==` to `false` |
| Coercion.FalseEqualsEmptyAndZero | lib/handlers.js:296 | `false` is `==` to the empty string and to `"0"` |
| TokenProperties.IssuedTokenVerifies | lib/handlers.js:297-315 | a freshly issued token verifies for its owner at the time of issue |
| Spec.VerifyToken | lib/handlers.js:415-429 | a token verifies for a phone exactly when a token with that id is stored, was issued for that phone and expires strictly after now |
| TokenProperties.UserHandlersNeedOwnToken | lib/handlers.js:111-259 | user read, delete (as written and with the cascade against 'media') and an update that supplies a field to change answer 403 and change nothing when the header's token does not verify for the phone in the request |
| TokenProperties.MediaHandlersNeedOwnerToken | lib/handlers.js:594-708 | media delete, and a media update that supplies a URL or description, answer 403 and change nothing when the header's token does not verify for the record's owner |
| TokenProperties.MissingHeaderNeverVerifies | lib/handlers.js:117-119 | without a string token header, no phone is ever verified |
| TokenProperties.TokenIdsKeepLength | lib/handlers.js:264-412 | the token handlers keep every stored token id 20 characters long, the premise under which a missing header never verifies |
| TokenProperties.TokensPutExtendsOnlyLiveTokens | lib/handlers.js:355-384 | an extend succeeds exactly when `extend` is true, the token exists and is unexpired and the update succeeds; it then sets only the expiry to an hour from now; an unknown or expired token is a 400 with the store unchanged |
| TokenProperties.ExtendedTokenVerifies | lib/handlers.js:362-369 | right after an extend the token verifies for its owner |
| TokenProperties.TokensPutNeverShortens | lib/handlers.js:362-366 | an extend never moves an expiry earlier and keeps every expiry within an hour of the current time |
| TokenProperties.TokenHandlersKeepExpiryBound | lib/handlers.js:297-313 | issuing and revoking keep every expiry within an hour of the current time |
| TokenProperties.TokensGetReturnsStoredToken | lib/handlers.js:335-350 | a token read answers 200 exactly when the query names a well-formed stored id, with that token as the body; 400 for a malformed id and 404 for an unknown one |
| TokenProperties.TokensDeleteRemovesOnlyThatToken | lib/handlers.js:390-412 | a revoke of a stored id answers 200 unless the delete fails, and removes exactly the named token; an unknown id is a 400 for delete and a 404 for read; every other outcome leaves the store unchanged |
| UserProperties.UsersPostValidatesAndNeverOverwrites | lib/handlers.js:60-107 | registration succeeds exactly with all five fields valid, an unused phone, a usable hash and a successful create; it stores the trimmed values and no media links; a taken phone is a 400 that overwrites nothing |
| UserProperties.UsersPutChangesOnlySuppliedFields | lib/handlers.js:142-199 | an update changes only the caller's own record, and in it only the supplied names and the re-hashed password; nothing to update is a 400 and a token that does not verify is a 403; a verified update of a stored user answers 200 unless the write fails |
| UserProperties.UsersGetNeedsOwnToken | lib/handlers.js:111-138 | a read succeeds exactly with a token verified for that phone and a stored user; a verified phone with no stored user is a 404 |
| UserProperties.CascadeKeepsOthers | lib/handlers.js:226-229 | records not listed for the deleted user survive the cascade unchanged |
| UserProperties.CascadeCleanRemovesAll | lib/handlers.js:229-236 | when the cascade counts no failure, every listed record is gone |
| UserProperties.CascadeFaultReported | lib/handlers.js:230-238 | a failed delete at any position of the list is counted |
| UserProperties.CascadeDeletesExactly | lib/handlers.js:221-236 | over distinct, stored ids without faults, the cascade deletes exactly the listed records and counts no failure |
| UserProperties.CascadeOnEmptyCollection | lib/handlers.js:229-238 | against a collection with nothing stored, every delete of the cascade fails |
| UserProperties.UsersDeleteRowFirst | lib/handlers.js:216-247 | the user row is deleted before the cascade; a failed row delete is a 500 with nothing changed; with links, the answer is 200 exactly when the cascade counted no failure |
| UserProperties.UsersDeleteAlwaysFailsWithLinks | lib/handlers.js:229-238 | as written, deleting a user with at least one media link always answers 500 and leaves every media record in place |
| UserProperties.UsersDeleteCascadingMediaReports | lib/handlers.js:216-240 | with the cascade against 'media', a 200 means every linked record is gone, any cascade fault is reported as 500, and unlinked records stay unchanged |
| MediaProperties.SpliceFirstOccurrence | lib/handlers.js:674-678 | `splice` at the position `indexOf` finds removes one occurrence of the id, the first, and keeps the other ids in order; in a list without duplicates the id is then gone |
| MediaProperties.MediaPostAppendsLink | lib/handlers.js:448-538 | media is created exactly when URL and description are non-empty, the token's user exists, the host resolves and both writes succeed; the id becomes the last element of the owner's links, the owner's other fields, every other user and every token stay as they were |
| MediaProperties.MediaPostUnresolvedHostChangesNothing | lib/handlers.js:476-518 | a host that does not resolve changes nothing and is a 400 |
| MediaProperties.MediaPostIgnoresExpiry | lib/handlers.js:458-532 | creation does not depend on the token's expiry; a missing token or token user is a 403 |
| MediaProperties.MediaPostPartialFailureLeavesRecord | lib/handlers.js:494-510 | when the user update fails, the answer is never 200 and users and tokens are unchanged; when every earlier check and the create succeed, the answer is 500 and the store holds exactly the new record (fresh id, the token's phone and first name, the accepted url and description) in addition to every earlier record, with no link to it |
| MediaProperties.MediaGetAllOrNothing | lib/handlers.js:545-589 | the listing is 200 with every record exactly when there is media and every read succeeds, and 400 otherwise |
| MediaProperties.MediaPutChangesOnlyUrlAndDescription | lib/handlers.js:594-645 | only the owner can update, only URL and description change, each only when supplied, and the URL is stored without a DNS check |
| MediaProperties.MediaDeleteUnlinks | lib/handlers.js:651-708 | only the owner can delete; on success the record is gone and the first occurrence of its id is spliced out of the owner's links; an unlisted id is a 500 after the record is already deleted; the owner's delete of a listed record answers 200 unless one of the two writes fails |
| Integrity.UsersPostKeepsConsistent | lib/handlers.js:60-107 | registration keeps the link relation |
| Integrity.UsersPutKeepsConsistent | lib/handlers.js:142-199 | a user update keeps the link relation |
| Integrity.TokenHandlersKeepConsistent | lib/handlers.js:264-412 | the token handlers keep the link relation |
| Integrity.MediaPostKeepsConsistent | lib/handlers.js:448-538 | creating media keeps the link relation when the user update succeeds |
| Integrity.MediaPutKeepsConsistent | lib/handlers.js:594-645 | updating media keeps the link relation |
| Integrity.MediaDeleteKeepsConsistent | lib/handlers.js:651-708 | deleting media keeps the link relation when the user update succeeds |
| Integrity.UsersDeleteCascadingMediaKeepsConsistent | lib/handlers.js:203-261 | a user delete whose cascade targets 'media' keeps the link relation when no cascade delete fails |
| Integrity.UsersDeleteCascadingMediaSucceeds | lib/handlers.js:216-240 | on a consistent store without faults, a user delete whose cascade targets 'media' answers 200 and removes exactly the user and the records it lists |
| Integrity.MediaPostOutcome | lib/handlers.js:448-538 | when the user update cannot fail, media create either changes nothing or stores the new record under the fresh id and appends that id to its owner's links |
| Integrity.MediaPutKeepsOwners | lib/handlers.js:594-645 | updating media keeps the users, the set of record ids and every record's owner |
| Integrity.TokenHandlersTouchOnlyTokens | lib/handlers.js:264-412 | the token handlers change neither users nor media |
| Integrity.UsersDeleteLeavesOrphans | lib/handlers.js:229 | as written, deleting a user with media answers 500 and leaves records whose owner no longer exists |
| Integrity.ScenarioShowsOrphan | lib/handlers.js:229 | for one user with one media record and a live token, the delete as written answers 500 and orphans the record, while the cascade against 'media' answers 200 and removes both |
| Integrity.ScenarioCorrected | lib/handlers.js:229 | for the same store and request, the delete with the cascade against 'media' answers 200 and leaves no user and no media record |

## Left out

- Error message texts: every error body is the single value `ErrorBody`.
- String lengths: the model counts characters, while JavaScript counts UTF-16 code units. The two differ only for characters outside the Basic Multilingual Plane.
- URL parsing and DNS: whether the host resolves is the parameter `hostResolves`. The exception the source throws for a URL without a host name is not modelled.
- Concurrency: the callbacks of the cascade and of the listing may run in any order and at the same time as other requests. The model runs them in list order, one request at a time.
- Handlers.Server.MediaGet: in the source, every failed read calls the callback with 400, so a listing may answer more than once. The model answers once, with 400.
- Listing failure: `_data.list` failing (lib/handlers.js:554-555) is not modelled; the listing of media ids always succeeds, and only an empty store answers 400 there.
- Read faults: only the media listing models reads that fail for a stored key. Every other read succeeds exactly when its key is present.
- Clock: the one read of the clock in token issue (lib/handlers.js:300), the two reads in token extend (lib/handlers.js:363, 365) and the one in `verifyToken` (lib/handlers.js:420) all use the single value `now`.
- Coercion.ToNumberIsZero: rounds a decimal literal exactly at the underflow threshold. ECMAScript lets an engine round a literal of more than 20 significant digits as if the digits after the 20th were changed, so such a literal near 2^-1075 may convert differently.
- Hashing, random ids and the file store are parameters or maps. `config.js` is not part of this model.
- `exampleError`, `ping` and `notFound` are not part of this model.
- The dispatcher `Handlers.Server.Users` routes `delete` to the handler as written, `UsersDelete`. The corrected `UsersDeleteCascadingMedia` sits next to it.

## Findings

| source | as written | input that shows it | evidently intended | confidence | as-written member | corrected member |
|---|---|---|---|---|---|---|
| lib/handlers.js:229 | the user-delete cascade deletes each linked id from the 'mediaLinks' collection, which no handler writes, so every delete fails | a user with one media record and a live token sends `DELETE users?phone=<phone>`: the answer is 500, the user is gone and the media record stays, owned by no user | delete the linked records from the 'media' collection, where media create stores them | not executed | Integrity.UsersDeleteLeavesOrphans | Integrity.UsersDeleteCascadingMediaKeepsConsistent |
