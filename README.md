# Notes backend — a Dafny model of its services

This project models the service layer of a NestJS notes backend with Google login:

- **Users** (`users.dfy`): `UsersService`, the user collection. It supports lookup by email, by Google id and by id, insertion, and partial update (`findByIdAndUpdate` with `new: true`).
- **Auth** (`auth.dfy`): `AuthService`.
  - `validateOAuthUser` reconciles a Google profile with the user collection. It creates a user for an unseen email, links the Google id to an email-matched user that has none, and otherwise keeps the user.
  - `login` builds `{ access_token, user }` around a signed `{ email, sub }` payload.
- **ExceptionFilter** (`exception_filter.dfy`): `GlobalExceptionFilter.catch`. It turns any exception into an HTTP status and a `{ statusCode, message, error }` body.
- **Notes** (`notes.dfy`): `NotesService`, the note collection.
  - Create stores a note for the caller.
  - The paginated, newest-first listing covers the caller's own notes only.
  - Read, update and delete are guarded by the "absent → 404, someone else's → 403" ownership check.
- **Common** (`common.dfy`): `Option`, `Result` and the id type.

Each MongoDB collection is a class holding a `map` from id to document plus the next id to hand out.

- Reads are functions of the class and writes are methods that modify it.
- Ids come from this counter, so a later document always has a larger id. The model takes two choices from this, both listed under "## Left out":
  - sorting on `createdAt: -1` is modelled as descending id;
  - `findOne` is modelled as returning the matching document with the smallest id.
- `validateOAuthUser` is specified by the pure decision `Decide` and its write `Applied`. The lemmas about reconciliation are stated over those.

## Model

| member | source | states |
|---|---|---|
| Users.FromData | src/users/users.service.ts:18-21 | a created user carries the id the store assigns and every given field: email, names, picture and Google id |
| Users.Patch | src/users/users.service.ts:28 | the merge `findByIdAndUpdate` performs never changes the user's id |
| Users.GoogleIdOnly | src/auth/auth.service.ts:27 | the patch `{ googleId }` changes exactly the Google id of any user |
| Users.PatchWritesOnlyPresentFields | src/users/users.service.ts:27-29 | each present field of the update takes the patch's value and each absent one keeps the stored value. The id never changes, an empty patch changes nothing, and applying a patch twice equals applying it once. |
| Users.FirstMatch | src/users/users.service.ts:10-16 | the result is the smallest matching key in the range, or none when no key in the range matches |
| Users.FindOne | src/users/users.service.ts:10-16 | `findOne(filter)` returns a stored matching user with no matching user before it, and returns none exactly when no user matches |
| Users.FindOneIsFirstMatch | src/users/users.service.ts:10-16 | when `k` is the smallest matching key, `findOne` returns the user stored under `k` |
| Users.UsersService.FindOneByEmail | src/users/users.service.ts:10-12 | returns the earliest stored user with exactly that email, or none exactly when no user has it |
| Users.UsersService.FindOneByGoogleId | src/users/users.service.ts:14-16 | returns the earliest stored user with exactly that Google id, or none exactly when no user has it |
| Users.UsersService.CreateUser | src/users/users.service.ts:18-21 | inserts one user under a fresh id, leaves every stored user unchanged, and keeps the store well formed |
| Users.UsersService.FindOneById | src/users/users.service.ts:23-25 | returns a user exactly when the id is stored, and that user carries the id |
| Users.UsersService.UpdateUser | src/users/users.service.ts:27-29 | on a stored id, writes the patched user and returns it; on a missing id, returns none and writes nothing |
| Auth.Decide | src/auth/auth.service.ts:9-31 | the profile is rejected exactly when it has no email, or no photo while its email is unseen. A new user is built from the profile under the next id only for an unseen email. Otherwise the earliest email match is linked (Google id set) when it has no Google id, and kept unchanged when it has one. |
| Auth.ValidateOAuthUser | src/auth/auth.service.ts:9-31 | returns the decided user or error, and leaves the store in the state `Applied` and `NextIdAfter` describe |
| Auth.ReconcileWritesAtMostOnce | src/auth/auth.service.ts:14-28 | reconciliation changes at most one user and no other. Keeping a user or rejecting a profile writes nothing, and an email already on file never adds a user. |
| Auth.ReconcileKeepsTableWellFormed | src/auth/auth.service.ts:14-28 | after reconciliation every user is still stored under its own id, and every id is below the next id |
| Auth.ReconcileIdempotent | src/auth/auth.service.ts:14-30 | reconciling the same profile (non-empty Google id) a second time keeps the user the first call returned and writes nothing |
| Auth.ReconcileEmptyGoogleIdRelinks | src/auth/auth.service.ts:25-27 | with an empty Google id, a second reconciliation of a profile that created or linked a user links the same user again: the write leaves the table unchanged. A user kept for its own Google id is kept again. |
| Auth.ReconcileKeepsEmailsUnique | src/auth/auth.service.ts:14-24 | if no two users share an email before reconciliation, none do after it |
| Auth.Login | src/auth/auth.service.ts:33-44 | the token is signed over the email the response shows and the user's id, and the response shows the user's email, names and picture |
| Auth.LoginHidesGoogleId | src/auth/auth.service.ts:33-44 | the login response does not depend on the Google id |
| Auth.LoginAfterReconcile | src/auth/auth.service.ts:33-44 | after reconciliation, the token is signed over the profile's email and the id the user is stored under, and the response shows that user's public fields |
| Auth.FirstLoginOnEmptyStore | src/auth/auth.service.ts:9-44 | a first login on an empty store creates user 0 from the profile, and its token is signed over that email and id 0 |
| ExceptionFilter.OrElse | src/common/filters/global-exeption.filter.ts:20-21 | `field \|\| fallback` is the field's own value or the fallback, a present truthy field is never overridden, and a truthy fallback always gives a truthy result |
| ExceptionFilter.Catch | src/common/filters/global-exeption.filter.ts:7-42 | body status equals reply status. An HTTP exception keeps its status and takes its string response or its truthy message/error fields. An object response never yields a falsy message or error. A duplicate key (11000) gives 409 "Duplicate entry"/"Conflict". Anything else gives 500 with the default texts. |
| ExceptionFilter.StatusSources | src/common/filters/global-exeption.filter.ts:11-32 | only an HTTP exception or a duplicate-key error leaves 500, and outside HTTP exceptions 409 arises exactly from a duplicate key |
| Notes.Skip | src/notes/notes.service.ts:20-21 | skip is `(page - 1) * limit` with the defaults page 1 and limit 10, and no page means skip 0 |
| Notes.CeilDiv | src/notes/notes.service.ts:31 | `pages` is the ceiling of `total / limit`: `(pages - 1) * limit < total <= pages * limit` |
| Notes.Owned | src/notes/notes.service.ts:25 | the notes `countDocuments({ owner })` counts are stored notes, and, once every stored id is below a bound, they are exactly the owner's notes below that bound |
| Notes.OwnedNewestFirstHoldsOwned | src/notes/notes.service.ts:24 | the listing `OwnedNewestFirst` (`find({ owner }).sort({ createdAt: -1 })`) holds only the owner's stored notes, and all of them |
| Notes.OwnedNewestFirstDescending | src/notes/notes.service.ts:24 | the listing `OwnedNewestFirst` is strictly newest first |
| Notes.OwnedNewestFirstCount | src/notes/notes.service.ts:23-25 | the listing `OwnedNewestFirst` is exactly as long as `countDocuments({ owner })` |
| Notes.CreatedNoteComesFirst | src/notes/notes.service.ts:11-24 | a note just created heads its owner's newest-first listing, in front of all earlier notes |
| Notes.Window | src/notes/notes.service.ts:24 | `.skip(s).limit(l)` yields the `min(l, n - s)` ids that follow the first `s` (none when `s >= n`) |
| Notes.PagingReachesEveryPosition | src/notes/notes.service.ts:19-32 | every position of the listing appears on exactly the page its index says, and that page is within `pages` |
| Notes.SecondPageOfTwelve | src/notes/notes.service.ts:19-32 | with 12 notes, page 2 of limit 5 holds 5 notes, and the response says total 12 and 3 pages |
| Notes.Updated | src/notes/notes.service.ts:60 | an update never changes a note's id or owner |
| Notes.UpdateWritesOnlyPresentFields | src/notes/notes.service.ts:60 | present fields replace and absent fields stay. An empty update changes nothing, and the update is idempotent. |
| Notes.AsException | src/notes/notes.service.ts:38-44 | every refusal is thrown as an HTTP exception with an object response: 404 for an absent note, 403 for another user's note |
| Notes.RefusalReplies | src/notes/notes.service.ts:38-44 | through the filter, an absent note answers 404 "Note not found"/"Not Found", and another user's note answers 403 with the operation's message and "Forbidden" |
| Notes.NotesService.Create | src/notes/notes.service.ts:11-17 | fails, writing nothing, exactly when the title or content is empty. Otherwise stores one new note for the caller under an id newer than every stored note, with the given fields and tags defaulting to none. |
| Notes.NotesService.Authorize | src/notes/notes.service.ts:35-44 | NotFound exactly when the id is absent, Forbidden exactly when another user owns it, and the note exactly when the caller owns it |
| Notes.NotesService.FindOne | src/notes/notes.service.ts:35-47 | returns the caller's note exactly when the caller owns it; otherwise NotFound if it is absent, else Forbidden (access) |
| Notes.NotesService.FindAll | src/notes/notes.service.ts:19-33 | returns the caller's stored notes, newest first, from position `skip` of the listing, at most `limit` of them and exactly as many as remain. `total` counts all the caller's notes and `pages` is its ceiling over `limit`. |
| Notes.NotesService.Update | src/notes/notes.service.ts:49-61 | a refusal is NotFound or Forbidden (update) and writes nothing. Only the owner's update writes the updated note under its id, keeping its id and owner; other notes are unchanged. |
| Notes.NotesService.Remove | src/notes/notes.service.ts:63-75 | a refusal is NotFound or Forbidden (delete) and removes nothing. Only the owner's delete removes exactly that note and returns it. |

## Left out

- Database I/O and the asynchrony of Promises are not modelled. Each service call is one atomic step on the in-memory map. As a result, the two queries `findAll` runs in parallel see the same state. So do the ownership check and the write in `update` and `remove`, so a note deleted between them (where the source would return `null`) cannot occur.
- MongoDB ObjectIds are modelled as natural numbers from a counter. A malformed id string (a `CastError` from `findById`) is not modelled; it is not an HTTP exception, so the filter would answer 500.
- Timestamps (`createdAt`, `updatedAt`, the body's `timestamp`) and `console.error` are not modelled. Creation order stands for `createdAt`.
- Notes.NotesService.FindAll: requires page ≥ 1 and limit ≥ 1. The source does not check these. What MongoDB does with a negative skip or a zero or negative limit, and `Math.ceil` on a division by zero, are not modelled.
- The request validation layer (the ValidationPipe in front of the services) is not modelled. A create with an empty title is modelled as the schema's rejection at save time, not as the 400 the pipe answers first. An update may set an empty title or content, as `findByIdAndUpdate` runs no validators.
- Users.UsersService.CreateUser: the user schema is not part of this model, so a user document's required fields and a unique index on email are not modelled. Creation always succeeds.
- The JWT itself (signing key, expiry, verification, the JWT guard) is not part of this model. `login` takes the signer as a function parameter.
- The Passport Google strategy, the controllers, the module wiring and the bootstrap are not modelled. The profile is taken as the datatype `Profile`.
- Auth.Decide: a profile without emails or photos throws a TypeError in the source. This is modelled as the error results `NoEmail` and `NoPhoto`. Photos are only read when a user is created.
- The response bodies of `NotFoundException` and `ForbiddenException` are modelled as `{ message, error }` with the status's label. The framework code that builds them is not part of this model.
- Users.FindOne: MongoDB's `findOne` without a sort returns the first match in natural order, which MongoDB does not promise to be id or insertion order. The model fixes it as the match with the smallest id. The "earliest" clauses of `FindOneByEmail`, `FindOneByGoogleId` and `Decide`, and `ReconcileIdempotent`, rest on this choice. When at most one stored user matches, the answers do not depend on it.
- Notes.OwnedNewestFirst: sorting on `createdAt: -1` is modelled as descending id. Notes created in the same millisecond tie on `createdAt`, and their relative order in the source is not defined. The model orders them by creation.
- Auth.ReconcileIdempotent: covers a profile with a non-empty Google id only. With an empty Google id, `!user.googleId` stays true, so every later login links the user again. `ReconcileEmptyGoogleIdRelinks` states that case.
- Auth.LoginAfterReconcile: `sub` is the user's `_id`. The model identifies it with the stored id and does not model the `id`/`_id` virtual distinction.
