# Pocket backend: verified model of its long-lived state

This project models the parts of the Pocket backend whose guarantees only show over whole runs, and proves
them with Dafny 4.11. `dafny verify dfyconfig.toml` checks everything.

- **Accounts** (`Identity*.dfy`, `PlainAccounts.dfy`): users, sessions, reset tokens and login attempts are four
  tables; every call is one atomic step `Do...` on them, and `IdentityService.Service` carries the calls out
  statement by statement on fields. A run is a list of calls. `PlainAccounts` is the store a reader has in mind,
  without ciphertext, blind index or hash strings, and `IdentityRefinement` shows that the two cannot be told apart.
- **Overlapping account calls** (`IdentityOverlap.dfy`, `OverlapThrottle.dfy`, `ResetOverlap.dfy`): logins and the
  transactions that issue reset tokens, taken apart into their statements, run against every other call.
- **Effects** (`IdentityEffects.dfy`, `CatalogEffects.dfy`, the `...Effect` predicates of `VenueModel.dfy` and
  `Billing.dfy`): for each call, which reply exactly when, and every row and column before and after, in literal limits
  and without the statements that the steps are made of. The methods of the service classes ensure them.
- **Login throttle** (`Throttle.dfy`, `Windows.dfy`): a timed automaton in which the gate and the recording of a
  failure are separate steps and calls overlap. `IdentityThrottle` maps serial account runs onto it, and
  `OverlapThrottle` overlapping ones.
- **Catalog** (`CatalogModel.dfy`, `CatalogOrder.dfy`, `CatalogListing.dfy`, `CatalogMenu.dfy`,
  `CatalogService.dfy`, `Sequences.dfy`): the reorder transaction that commits on a row count, the listing
  sorted by three keys, item counts, and the separation of venues.
- **Printers and parsers** (`PasswordHash.dfy`, `DataProtector.dfy`, `Base64.dfy`, `Text.dfy`): the Argon2id hash
  string and the framed, unpadded base64url ciphertext (sections 3.2, 4 and 5 of RFC 4648).
- **Slugs** (`Slug.dfy`), **venue settings with two writers** (`VenueModel.dfy`, `VenueService.dfy`) and
  **subscriptions** (`Billing.dfy`).

## Reading the model

PostgreSQL is the heap: a table is a map or a sequence of rows, and one statement or committed transaction is one
step. There is one clock that never goes back; the expiry times that Go computes and the times the database
compares with come from it. Times are whole microseconds.

Randomness is a parameter of the call (`Draw`): ids, tokens, salts and nonces are arbitrary, and a collision takes
the error path that the table's unique index causes. Only the lemmas that follow one reset token, and those on
overlapping requests, assume that a drawn hash was never issued before (`IdentityResets.Legal`, `ResetOverlap.Enabled`).

Cryptography is a parameter too. `DataProtector.Aead.Lawful` says that opening undoes sealing, `PasswordHash.Lawful`
that Argon2id returns a digest of the requested length, and `IdentityModel.Env.Lawful` adds that the keyed lookup is
injective on valid addresses and that a rune takes at least one byte. `Env.Implemented` ties the four operations
`encrypt`, `decrypt`, `hashPassword` and `verify` to the functions of `DataProtector` and `PasswordHash`. E-mail and
IP parsing, Unicode case tables, `json.Valid` and the cast to `jsonb` are opaque functions.

Strings that hold user content in the identity module are byte strings (`Bytes`), as in Go; elsewhere strings are
sequences of runes, and `Text.ByteLength` gives Go's `len`.

## What the code does not do

Some properties one would expect are false of the code. The model keeps the code as it is, and states exactly when
they hold.

- A registered user can log in exactly when the password has at most 128 **bytes** (and the pair is not blocked):
  registration counts runes, login counts bytes (`IdentityAccess.RegisteredUserLogsIn`,
  `IdentityAccess.LongPasswordNeverLogsIn`).
- A generated slug meets the table's CHECK exactly when the seven-character cut of its suffix does not end in a dash;
  otherwise a valid venue is refused as invalid input (`Slug.UniqueSlugMeetsCheck`, `VenueModel.CreateNeedsAGoodToken`,
  `Slug.SomeTokenFailsTheCheck`).
- The one-minute reset cooldown holds when the token TTL is at least a minute and fails for every shorter one, while
  the constructor only asks for a positive TTL (`IdentityResets.CooldownRate`, `IdentityResets.ShortTtlDefeatsCooldown`).
- A session need not rest on the present password: a login checks the password before its transaction. Its session
  outlives the password exactly when the user's password was reset or changed in between, the last time to one that
  the login's does not match, and no password change was made from that session since
  (`IdentityOverlap.OverlappingSessionsExactly`, `IdentityOverlap.StraddlingLoginAuthenticates`).
- Requests for a reset that overlap leave several unused tokens, up to as many as overlap
  (`ResetOverlap.UnusedBound`, `ResetOverlap.UnusedBoundReached`).
- The number of venues is checked when a plan is taken and never again; only creating a venue can exceed the limit
  (`Billing.OnlyCreationExceedsLimit`, `Billing.VenuesStayWithinLimit`).
- Five failures are not the most a row can count: overlapping calls reach 4 + 2k, serial ones 6, and 15 minutes can
  hold 8 failures (`Throttle.InterleavedBound`, `OverlapThrottle.OverlappingLoginsBound`, `Throttle.SlidingWindowBound`
  and their `...Reached` partners).

## Model

| member | source | states |
|---|---|---|
| `Throttle.RowInvariant` | internal/modules/identity/persistence.go:170-193 | in every reachable row, whatever overlaps, a block is set exactly from the fifth failure of the window on and ends 15 minutes after the latest failure |
| `Throttle.InterleavedBound` | internal/modules/identity/persistence.go:138-193 | with at most k calls for a pair past the gate at once, no run stores more than 4 + 2k failures for it |
| `Throttle.InterleavedBoundReached` | internal/modules/identity/persistence.go:138-193 | for every k >= 1 a legal run stores exactly 4 + 2k failures, using the non-strict edge of window and block |
| `Throttle.SlidingWindowBound` | internal/modules/identity/service.go:124-149 | with calls one at a time, any half-open 15 minutes hold at most 8 failures between two successful logins |
| `Throttle.SlidingWindowBoundReached` | internal/modules/identity/service.go:124-149 | a legal serial run puts 8 failures into one half-open 15 minutes |
| `Throttle.PairBoundedStep` | internal/modules/identity/persistence.go:170-193 | each gate, failure, success or pause keeps the four-phase bound behind 4 + 2k |
| `Throttle.PairSerialStep` | internal/modules/identity/persistence.go:170-193 | each serial step keeps: nine consecutive failures span a full window |
| `IdentityThrottle.SerialLoginBounds` | internal/modules/identity/service.go:116-175 | after any serial run of all calls, a row counts at most 6 failures, is blocked exactly from the fifth on, and 15 minutes hold at most 8 |
| `IdentityThrottle.RunMirrored` | internal/modules/identity/service.go:116-175 | the login-attempt table of a serial run is that of an automaton run with at most one call in flight |
| `IdentityThrottle.BlockedLoginChangesNothing` | internal/modules/identity/service.go:124-130 | against a row with a block, a well-formed login is refused without any change exactly before the block ends |
| `IdentityThrottle.BlockHolds` | internal/modules/identity/persistence.go:138-151 | no sequence of calls changes a blocked row before the block ends |
| `IdentityThrottle.BlockRefusesLogins` | internal/modules/identity/service.go:118-130 | in every continuation before the block ends, every well-formed login for the pair fails and changes nothing |
| `IdentityRefinement.EncryptedStoreRefinesPlain` | internal/modules/identity/service.go:63-243 | every serial run of all calls gives the replies of the plain store, e-mails stay unique, and each row's lookup is that of its decrypted e-mail |
| `IdentityRefinement.StepAgrees` | internal/modules/identity/persistence.go:42-129 | every single call keeps the correspondence of rows and accounts and gives equal replies |
| `IdentityRefinement.RegisterAgrees` | internal/modules/identity/service.go:63-114 | registration refines its plaintext counterpart, conflict and rollback included |
| `IdentityRefinement.LoginAgrees` | internal/modules/identity/service.go:116-175 | login through index, hash string and decryption refines login by e-mail and password |
| `IdentityRefinement.UpdateProfileAgrees` | internal/modules/identity/service.go:206-243 | re-encrypting a profile refines replacing its fields |
| `IdentityRefinement.ChangeEmailAgrees` | internal/modules/identity/account.go:16-68 | changing ciphertext and lookup refines changing the e-mail under the uniqueness of e-mails |
| `IdentityRefinement.ChangePasswordAgrees` | internal/modules/identity/password_change.go:13-65 | a password change refines replacing the account's password |
| `IdentityRefinement.ResetPasswordAgrees` | internal/modules/identity/password_reset.go:82-132 | a reset refines replacing the account's password |
| `IdentityRefinement.RequestResetAgrees` | internal/modules/identity/password_reset.go:18-71 | a reset request by blind index refines one by e-mail |
| `IdentityRefinement.FindAgrees` | internal/modules/identity/persistence.go:112-129 | the lookup finds exactly the live account that has the e-mail |
| `IdentityRefinement.NewRowStands` | internal/modules/identity/persistence.go:42-110 | decrypting a freshly encrypted registration gives it back, an empty phone going through NULL |
| `IdentityRefinement.NewProfileStands` | internal/modules/identity/persistence.go:66-110 | the same for an encrypted profile update |
| `IdentityAccess.LoginSucceedsExactlyWhen` | internal/modules/identity/service.go:116-175 | a login to a live account succeeds if and only if it is well-formed, not blocked, the password is accepted and the token is new, and it returns that account |
| `IdentityAccess.RegisteredUserLogsIn` | internal/modules/identity/validation.go:23-26 | from every reachable state, registration then login succeeds if and only if the password has at most 128 bytes and the pair is not blocked |
| `IdentityAccess.LongPasswordNeverLogsIn` | internal/modules/identity/service.go:116-120 | a 65-rune password of 130 bytes passes registration's check and fails every login |
| `IdentitySessions.LiveSessionsMatchCurrentPassword` | internal/modules/identity/service.go:177-204 | in every state of a serial run, a token that authenticates was opened with, or kept by ChangePassword under, a password that verifies against the user's present hash |
| `IdentitySessions.StepGrounded` | internal/modules/identity/password_change.go:37-54 | every call keeps, for all sessions that are not revoked: exactly those in the stale set rest on a password that no longer verifies; a password change takes the session it is made from out of the set, and no call adds one |
| `IdentitySessions.CutForever` | internal/modules/identity/service.go:177-194 | a revoked session never authenticates again, in any continuation |
| `IdentitySessions.StepEvolvesSessions` | internal/modules/identity/service.go:245-254 | no call drops a session, changes its owner or expiry, or redates a revocation |
| `IdentitySessions.ResetEndsAllSessions` | internal/modules/identity/password_reset.go:113-127 | after a reset, none of the user's sessions works in any continuation, and every session of another user is as it was and authenticates as before |
| `IdentitySessions.ChangePasswordEndsOtherSessions` | internal/modules/identity/password_change.go:48-54 | after a password change, the user's sessions but the one it was made from never work again; that one and those of other users are as they were and authenticate as before |
| `IdentityOverlap.OverlappingSessionsExactly` | internal/modules/identity/service.go:136-169 | over any legal run in which a login checks its password and later opens a session: a token of it that authenticates in the end rests on a password that no longer verifies if and only if, in between, resets or changes of that user succeeded, the last of them to a password the login does not match, and no ChangePassword was made from the session since |
| `IdentityOverlap.OutdatedExactly` | internal/modules/identity/service.go:140-155 | the password of an accepted login fails against the present hash if and only if its user was given passwords since the check and it fails against the last of these |
| `IdentityOverlap.HashIsLastSet` | internal/modules/identity/password_reset.go:113-115 | over any events a user's hash is the one stored by the latest reset or change, or the one from before |
| `IdentityOverlap.LiveUnlessStale` | internal/modules/identity/service.go:177-204 | over any interleaving, a token that authenticates rests on a password that verifies today if and only if its session is not in the stale set |
| `IdentityOverlap.StraddlingLoginAuthenticates` | internal/modules/identity/service.go:140-163 | a legal run from empty tables (register, enter, check, change the password, finish) ends with a token that authenticates though its password no longer verifies, for every valid registration and every change to a password it does not match |
| `IdentityOverlap.LoginIsCheckThenFinish` | internal/modules/identity/service.go:116-175 | gate, check and finish put together are the serial login in every case |
| `OverlapThrottle.OverlappingLoginsBound` | internal/modules/identity/service.go:124-149 | with at most k logins for a pair past the gate at once, no run of account calls stores more than 4 + 2k failures for it, and a block is set exactly from the fifth on |
| `OverlapThrottle.OverlappingLoginsBoundReached` | internal/modules/identity/service.go:124-149 | for every k >= 1, logins from empty tables reach 4 + 2k |
| `OverlapThrottle.EventsMirrored` | internal/modules/identity/persistence.go:138-193 | a run of overlapping logins and other calls is a run of the automaton with the same rows and the same logins in flight |
| `IdentityResets.RunKeepsOneUnused` | internal/modules/identity/password_reset.go:57-66 | after any run each user has at most one unused reset token; no assumption on the drawn tokens, since a repeated hash rolls back |
| `ResetOverlap.UnusedBound` | internal/modules/identity/password_reset.go:32-71 | with issuing transactions overlapping, at most k of a user's in flight at once, the user never has more than k unused tokens |
| `ResetOverlap.UnusedBoundReached` | internal/modules/identity/password_reset.go:32-71 | k overlapping requests of a user without tokens leave exactly k unused ones |
| `ResetOverlap.NextBounded` | internal/modules/identity/password_reset.go:57-71 | each statement keeps: what the i-th open transaction leaves unused, and the i transactions up to it, fit into k |
| `ResetOverlap.IssueIsSupersedeThenCommit` | internal/modules/identity/password_reset.go:32-71 | done at one instant, the statements are the atomic issue |
| `IdentityResets.StepEvolvesResets` | internal/modules/identity/password_reset.go:57-121 | only a request adds a token and uses up its predecessors; `used_at`, once set, never changes |
| `IdentityResets.RedeemedAtMostOnce` | internal/modules/identity/password_reset.go:100-121 | over any legal run each token yields at most one successful reset |
| `IdentityResets.ResetKillsTokens` | internal/modules/identity/password_reset.go:116-121 | after a successful reset no token issued to the user before it is ever redeemed |
| `IdentityResets.ChangePasswordKillsTokens` | internal/modules/identity/password_change.go:55-60 | the same after a successful password change |
| `IdentityResets.NewTokenSupersedes` | internal/modules/identity/password_reset.go:57-66 | once a newer token is issued, the user's earlier ones are never redeemed |
| `IdentityResets.RedeemedWithinTtl` | internal/modules/identity/password_reset.go:63-111 | over any run, a token is only ever redeemed in the half-open TTL after it was issued |
| `IdentityResets.CooldownRate` | internal/modules/identity/password_reset.go:38-50 | with a TTL of at least a minute, any half-open n minutes see at most n tokens per user unless one was consumed or deleted in between |
| `IdentityResets.IssuesExactlyWhen` | internal/modules/identity/password_reset.go:38-50 | a request of a found user with a fresh token issues if and only if each unused token of that user has expired or is at least a minute old |
| `IdentityResets.MinuteApartBothIssue` | internal/modules/identity/password_reset.go:38-66 | two requests a minute or more apart both issue, however long the tokens live |
| `IdentityResets.ShortTtlDefeatsCooldown` | internal/modules/identity/service.go:48-50 | with any positive TTL under a minute, two tokens are issued within one minute |
| `IdentityModel.StepConsistent` | migrations/000004_secure_auth.up.sql:6-8 | every call keeps lookups unique, foreign keys intact and the clock monotone |
| `IdentityModel.RunConsistent` | migrations/000004_secure_auth.up.sql:6-8 | so does every run |
| `IdentityModel.FindUser` | internal/modules/identity/persistence.go:112-129 | returns a live row with that lookup whenever there is one |
| `IdentityEffects.RegisteredAsGiven` | internal/modules/identity/service.go:64-113 | a registered user has the trimmed first name, last name and phone and the normalised e-mail of the input, and authenticating with the new token gives that very user |
| `IdentityEffects.RegisterDoes` | internal/modules/identity/service.go:63-114 | registration succeeds exactly within the literal limits on name, e-mail, password and phone, with a free id, index entry and token hash; it then adds one live customer row that decrypts to the input and one session, and nothing else |
| `IdentityEffects.LoginDoes` | internal/modules/identity/service.go:116-175 | in every case which reply and which rows: refusals change nothing, a failure counts in a 15-minute window and blocks for 15 minutes from the fifth on, a success clears that pair and adds one session |
| `IdentityEffects.AuthenticateDoes` | internal/modules/identity/service.go:177-204 | exactly an unrevoked session of an active user, strictly before it expires, is answered, with what the row decrypts to |
| `IdentityEffects.LogoutDoes` | internal/modules/identity/service.go:245-254 | that session is revoked now unless it was; every other one stays |
| `IdentityEffects.UpdateProfileDoes` | internal/modules/identity/service.go:206-243 | exactly when it succeeds; then only that row changes, in three columns, to the trimmed input |
| `IdentityEffects.ChangeEmailDoes` | internal/modules/identity/account.go:16-68 | exactly when it succeeds; then only the e-mail and the index entry of that row change |
| `IdentityEffects.ResetPasswordDoes` | internal/modules/identity/password_reset.go:82-132 | exactly when it succeeds; then the password matches the new hash, the owner's unused tokens are used, the owner's unrevoked sessions are revoked, and no row of anybody else changes |
| `IdentityEffects.ChangePasswordDoes` | internal/modules/identity/password_change.go:13-65 | exactly when it succeeds; then the same, but for the session it was made from |
| `IdentityEffects.OthersStayLoggedIn` | internal/modules/identity/password_reset.go:122-125 | after a reset or password change, every token of another user's session authenticates with the same answer as before |
| `IdentityEffects.OwnSessionStays` | internal/modules/identity/password_change.go:48-54 | so does the session that the password was changed from |
| `IdentityEffects.RequestResetDoes` | internal/modules/identity/password_reset.go:18-71 | exactly when a token is issued, and that only older unused tokens of that user are used up |
| `IdentityService.Service.Register` | internal/modules/identity/service.go:63-114 | exactly one of: an error that leaves every table alone, each under its own condition, or one new live customer row that decrypts to the trimmed input, and one session of it; index and foreign keys kept |
| `IdentityService.Service.InsertAccount` | internal/modules/identity/service.go:81-113 | the user row and its first session are inserted together or not at all; a taken id or lookup is an e-mail conflict |
| `IdentityService.Service.Login` | internal/modules/identity/service.go:116-175 | refused without a change when malformed or blocked, otherwise checked against the row the index finds or the dummy hash; index and foreign keys survive |
| `IdentityService.Service.Verify` | internal/modules/identity/service.go:136-175 | from the password check on: exactly one failure recorded for the pair, or its failures forgotten and one session opened |
| `IdentityService.Service.OpenSession` | internal/modules/identity/service.go:155-168 | clears the row and inserts the session together, or changes nothing |
| `IdentityService.Service.Authenticate` | internal/modules/identity/service.go:177-204 | the user of a live session of a live user, or unauthorized |
| `IdentityService.Service.UpdateProfile` | internal/modules/identity/service.go:206-243 | only the three profile columns of a live user change, and the reply is read back from the new row |
| `IdentityService.Service.Logout` | internal/modules/identity/service.go:245-254 | revokes the session of the token unless it is revoked already |
| `IdentityService.Service.LoginBlocked` | internal/modules/identity/persistence.go:138-151 | true exactly when the row's block ends strictly later than now |
| `IdentityService.Service.RecordFailure` | internal/modules/identity/persistence.go:170-193 | upserts the row of the automaton's failure step and no other |
| `IdentityService.Service.CreateSession` | internal/modules/identity/persistence.go:153-168 | inserts an unrevoked session with its expiry, or refuses a used token hash |
| `IdentityService.Service.FindUserByLookup` | internal/modules/identity/persistence.go:112-129 | finds the row that the unique index determines |
| `IdentityService.Service.LoadUser` | internal/modules/identity/account.go:118-141 | the decrypted profile of a live user, or unauthorized |
| `IdentityService.Service.IssueToken` | internal/modules/identity/password_reset.go:32-71 | the issuing transaction: cooldown, superseding, insert, rollback on a used hash |
| `IdentityService.Service.RequestPasswordReset` | internal/modules/identity/password_reset.go:18-80 | issues exactly when no live token is less than a minute old; a token whose mail fails is taken back and nothing else |
| `IdentityService.Service.ResetPassword` | internal/modules/identity/password_reset.go:82-132 | redeems exactly an unused, unexpired token: the owner's hash, tokens and sessions change as stated row by row, and nobody else's; otherwise nothing changes |
| `IdentityService.Service.ChangePassword` | internal/modules/identity/password_change.go:13-65 | with the right current password: the user's hash, tokens and sessions but the given one change as stated row by row, and nobody else's; otherwise nothing changes |
| `IdentityService.Service.ChangeEmail` | internal/modules/identity/account.go:16-68 | e-mail and lookup of the live user change together, unless another row that is not deleted holds the lookup |
| `PasswordHash.HashRoundTrip` | internal/security/password.go:24-71 | every password verifies against its own hash string, for every salt |
| `PasswordHash.VerifyAgainstFreshHash` | internal/security/password.go:41-71 | a fresh hash accepts a candidate exactly when both have one digest under its salt |
| `PasswordHash.ParseUndoesRender` | internal/security/password.go:30-66 | parsing reads back costs, salt and digest of every hash string within the limits, and refuses those outside |
| `PasswordHash.AcceptedExactlyWithinLimits` | internal/security/password.go:56-67 | a printed string is accepted exactly for 8 to 256 MiB, 1 to 10 passes, 1 to 16 lanes and 16 to 64 bytes of salt and digest |
| `PasswordHash.HashStringLooksLikeThis` | internal/security/password.go:14-39 | the string reads $argon2id$v=19$m=65536,t=3,p=4$ and the two base64 fields |
| `PasswordHash.Parse` | internal/security/password.go:45-66 | whatever text is accepted, memory, iterations, parallelism and lengths are within the limits |
| `PasswordHash.ScansBack` | internal/security/password.go:49-54 | a printed number followed by a non-digit is scanned back exactly, signed or not |
| `Text.ByteLengthIsEncodedLength` | internal/modules/identity/password_reset.go:83 | the length that the checks use is the number of bytes in UTF-8 |
| `Base64.RoundTrip` | internal/security/data.go:51-64 | decoding undoes encoding for every byte string, in both alphabets |
| `Base64.EncodingIsCanonical` | internal/security/password.go:59-66 | a text is the encoding of b if and only if it decodes to b, has only digits and zero spare bits |
| `Base64.FullGroupIsBigEndian` | internal/security/data.go:51 | three bytes are one 24-bit number in four digits (section 4 of RFC 4648) |
| `Base64.ShortGroupsAreBigEndian` | internal/security/password.go:36-37 | a last group of one or two bytes is filled up with zero bits and not padded |
| `Base64.EncodedGroupByGroup` | internal/security/data.go:51 | a text is encoded group by group |
| `Base64.EncodedDigitByDigit` | internal/security/data.go:51 | and digit by digit |
| `Base64.AlphabetsAreTheTables` | internal/security/data.go:51 | the digits are those of tables 1 and 2 of RFC 4648 |
| `DataProtector.RoundTrip` | internal/security/data.go:46-73 | decrypting an encrypted value gives it back, for every byte string, nonce and field |
| `DataProtector.BytesRoundTrip` | internal/security/data.go:54-85 | the framing of nonce and sealed bytes is undone |
| `DataProtector.FramedLikeThis` | internal/security/data.go:54-85 | a 12-byte nonce in front of the sealed value; anything shorter than 28 bytes is refused |
| `Slug.SlugIsEmptyOrInGrammar` | internal/modules/venues/service.go:230-234 | every slug is empty or in the grammar of the table's CHECK |
| `Slug.SlugKeepsWordChars` | internal/modules/venues/service.go:230-234 | letters and digits of the whole lowered input survive in order, when no white space has one as its lower case; those of the trimmed input do in any case |
| `Slug.SlugOfWords` | internal/modules/venues/service.go:230-234 | the slug of words separated, preceded and followed by any other characters is the words joined by single dashes |
| `Slug.SplitsIntoWords` | internal/modules/venues/service.go:230-234 | every text with a letter or digit is made of such words and gaps, so that this determines every slug |
| `Slug.SlugFixedPoints` | internal/modules/venues/service.go:230-234 | slugify leaves a text alone if and only if it is empty or in the grammar |
| `Slug.SlugIsIdempotent` | internal/modules/venues/service.go:230-234 | slugify is idempotent |
| `Slug.GrammarIsWellFormed` | migrations/000001_identity_and_venues.up.sql:50 | the CHECK's regular expression is the same as: word characters and single dashes, none at an end |
| `Slug.UniqueSlugMeetsCheck` | internal/modules/venues/service.go:211-228 | a generated slug meets the CHECK if and only if the cut of its suffix does not end in a dash |
| `Slug.UniqueSlugBeginsWithTheName` | internal/modules/venues/service.go:211-228 | a generated slug is the slug of the name, or "venue" if that is empty, a dash, and the first 7 characters of the token's slug at most |
| `Slug.UniqueSlugFails` | internal/modules/venues/service.go:224-226 | generation fails if and only if the token has no letter or digit |
| `Slug.SomeTokenFailsTheCheck` | internal/modules/venues/service.go:221-223 | a 43-character token that encodes 32 random bytes fails the CHECK |
| `VenueModel.CreateNeedsAGoodToken` | internal/modules/venues/service.go:50-98 | with everything else in order, creation is refused as invalid input if and only if the cut ends in a dash |
| `VenueModel.RunKeepsSlugs` | migrations/000001_identity_and_venues.up.sql:50 | stored slugs are in the grammar and unique after every run |
| `VenueModel.GetReadsLatestPlan` | internal/modules/floorplan/service.go:27-60 | over any interleaving the owner reads the last saved plan, else the one given at creation, else the empty array |
| `VenueModel.WritersKeepApart` | internal/modules/venues/service.go:110-117 | a save changes no other key, an update never changes the plan, neither drops a key |
| `VenueModel.UpdateAndSaveCommute` | internal/modules/floorplan/service.go:49-52 | an update and a save commute, for any owners and venues, and do not affect each other's outcome |
| `VenueModel.CreateDoes` | internal/modules/venues/service.go:50-98 | which reply exactly when; a success adds one venue whose profile is the trimmed input with the documented defaults, under that slug |
| `VenueModel.UpdateDoes` | internal/modules/venues/service.go:100-130 | which reply exactly when; a success stores the trimmed input with its defaults, merges the settings and changes nothing else |
| `VenueModel.DeleteDoes` | internal/modules/venues/service.go:132-144 | succeeds exactly for the owner's venue, which is closed and nobody's afterwards |
| `VenueModel.SaveDoes` | internal/modules/floorplan/service.go:42-60 | succeeds exactly for the owner, with valid JSON that can be cast; then the plan is what is read, and nothing else changes |
| `VenueService.Database.Create` | internal/modules/venues/service.go:50-98 | adds exactly one venue with the trimmed profile and its defaults, under a slug of the name that meets the CHECK and that no other venue has, or reports the one obstacle and changes nothing |
| `VenueService.Database.Update` | internal/modules/venues/service.go:100-130 | stores the trimmed profile with its defaults in the owner's venue; settings take each given key but the plan's and keep the rest; slug, owner and every other row stay |
| `VenueService.Database.Delete` | internal/modules/venues/service.go:132-144 | succeeds exactly for the owner's venue, which is nobody's afterwards; no other row changes |
| `VenueService.Database.Save` | internal/modules/floorplan/service.go:42-60 | succeeds exactly for the owner with valid JSON that can be cast; reading then gives the saved plan, and no other key or row has changed |
| `VenueService.Database.Get` | internal/modules/floorplan/service.go:27-40 | the plan of the latest successful save in the history of calls, else the one given at creation, else the empty array; for the owner only |
| `CatalogOrder.CheckOrder` | internal/modules/catalog/reorder.go:64-80 | the loop over the seen set accepts exactly 1 to 500 ids that are not blank and pairwise distinct after trimming |
| `CatalogOrder.CommitExactlyWhenAllNamed` | internal/modules/catalog/reorder.go:44-62 | for distinct ids the row count equals the id count if and only if every id names its own row in scope |
| `CatalogOrder.CommitIsExact` | internal/modules/catalog/reorder.go:22-26 | a commit numbers each named row by the position of its id and touches no other row |
| `CatalogMenu.MenuFollowsTheChosenOrders` | internal/modules/catalog/reorder.go:15-62 | however category and item reorders of a venue interleave, committed or not, and whatever other venues do: if the last committed category order names all categories and the last committed order of each non-empty category names all its live items, every possible listing is the item orders joined in category order |
| `CatalogMenu.CategoriesFollow` | internal/modules/catalog/reorder.go:15-27 | over any such interleaving the categories stand in the order committed last |
| `CatalogMenu.ItemsFollow` | internal/modules/catalog/reorder.go:29-42 | over any such interleaving the live items of a category stand in the order committed last for it |
| `CatalogMenu.MenuIsJoinedOrders` | internal/modules/catalog/menu_items.go:23-25 | the three-key sort has exactly that one answer once categories and items are numbered |
| `CatalogMenu.CategoriesReordered` | internal/modules/catalog/reorder.go:15-27 | a committed reorder of all categories numbers them by position |
| `CatalogMenu.ItemsReordered` | internal/modules/catalog/reorder.go:29-42 | a committed reorder of all live items of a category numbers them by position |
| `CatalogMenu.ItemsOrderSurvives` | internal/modules/catalog/reorder.go:36-41 | reordering one category leaves the order of every other one alone |
| `CatalogModel.StepKeepsIntegrity` | migrations/000002_catalog_floor_and_reservations.up.sql:20 | every call keeps ids distinct and every item, deleted or not, in a category of its own venue |
| `CatalogListing.ItemCountsConserved` | internal/modules/catalog/categories.go:18-24 | after any run, the item counts of a venue's category listing add up to the length of its menu listing |
| `CatalogListing.OtherVenuesUntouched` | internal/modules/catalog/menu_items.go:109-120 | a run of calls for other venues leaves a venue's categories and items as they are |
| `CatalogService.ShownCountsAddUp` | internal/modules/catalog/categories.go:18-24 | after any run, the item counts that ListCategories shows add up to the number of items that ListMenuItems shows |
| `CatalogService.CategoriesShownAsChosen` | internal/modules/catalog/reorder.go:15-27 | after reorders in any interleaving, ListCategories shows exactly the order committed last, if that one names all |
| `CatalogService.ItemsShownAsChosen` | internal/modules/catalog/reorder.go:15-62 | and ListMenuItems shows exactly the chosen item orders, joined |
| `CatalogEffects.CategoriesListedInOrder` | internal/modules/catalog/categories.go:24 | categories are listed by sort order, equal ones by creation |
| `CatalogEffects.ItemsListedInOrder` | internal/modules/catalog/menu_items.go:25 | items are listed by the order of their categories, then their own, equal ones by creation |
| `CatalogEffects.DeletedIsOffTheMenu` | internal/modules/catalog/menu_items.go:131-146 | a deleted item is off the menu, and every other item stays on it as it was |
| `CatalogEffects.UpdatedIsOnTheMenu` | internal/modules/catalog/menu_items.go:99-129 | an updated item is on the menu under its new fields, and every other item stays on it as it was |
| `CatalogEffects.CreateCategoryDoes` | internal/modules/catalog/categories.go:41-58 | which reply exactly when; a success appends that one row |
| `CatalogEffects.UpdateCategoryDoes` | internal/modules/catalog/categories.go:60-82 | which reply exactly when; a success changes name, order and flag of that one row |
| `CatalogEffects.DeleteCategoryDoes` | internal/modules/catalog/categories.go:84-96 | which reply exactly when; a success takes out that one row |
| `CatalogEffects.CreateItemDoes` | internal/modules/catalog/menu_items.go:42-97 | which reply exactly when; a success appends that one row, trimmed and with the default currency |
| `CatalogEffects.UpdateItemDoes` | internal/modules/catalog/menu_items.go:99-129 | which reply exactly when; a success writes the given fields on that one live row |
| `CatalogEffects.DeleteItemDoes` | internal/modules/catalog/menu_items.go:131-146 | succeeds exactly for a live item of the owner's venue, which is deleted and unavailable afterwards |
| `CatalogEffects.ReorderCategoriesDoes` | internal/modules/catalog/reorder.go:15-27 | which reply exactly when; a success changes nothing but the sort order of the named rows |
| `CatalogEffects.ReorderItemsDoes` | internal/modules/catalog/reorder.go:29-42 | the same for the live items of a category |
| `CatalogService.Service.ListCategories` | internal/modules/catalog/categories.go:14-39 | row by row, a listing sorted by sort order and creation time: id, name, order and flag of each row, and the number of its live items |
| `CatalogService.Service.CreateCategory` | internal/modules/catalog/categories.go:41-58 | appends one category to a venue its owner calls for; rows keep distinct ids and items keep a category of their own venue |
| `CatalogService.Service.UpdateCategory` | internal/modules/catalog/categories.go:60-82 | changes the one row with that id in that venue, and keeps the same integrity |
| `CatalogService.Service.DeleteCategory` | internal/modules/catalog/categories.go:84-96 | deletes the row unless an item refers to it |
| `CatalogService.Service.ListMenuItems` | internal/modules/catalog/menu_items.go:19-40 | row by row, a listing of the live items sorted by the three keys: the columns of each row and the name of its category |
| `CatalogService.Service.CreateMenuItem` | internal/modules/catalog/menu_items.go:42-97 | appends one item, with its external image, whose category belongs to the venue, or changes nothing |
| `CatalogService.Service.UpdateMenuItem` | internal/modules/catalog/menu_items.go:99-129 | changes the one live item with that id, whose new category must belong to the venue |
| `CatalogService.Service.DeleteMenuItem` | internal/modules/catalog/menu_items.go:131-146 | marks the live row deleted and unavailable |
| `CatalogService.Service.ReorderCategories` | internal/modules/catalog/reorder.go:15-62 | renumbers in place and restores the rows when the count does not match |
| `CatalogService.Service.ReorderMenuItems` | internal/modules/catalog/reorder.go:29-62 | the same for the live items of one category |
| `Billing.OneCurrentSubscription` | internal/modules/billing/subscriptions.go:36-90 | after any serial run an owner's rows are the n successful upserts in order, n - 1 of them cancelled, and the subscription read back is the last one |
| `Billing.SuccessesRespectLimits` | internal/modules/billing/subscriptions.go:46-52 | at every success of a run that also creates and deletes venues, the row is that of the requested plan and cycle, and the owner's live venues, counted from the rows, are at most 1 for start and 3 for business |
| `Billing.OnlyCreationExceedsLimit` | internal/modules/venues/service.go:50-98 | the one step that takes the count above the limit of the current subscription is a creation by the owner when the count equals the limit |
| `Billing.VenuesStayWithinLimit` | internal/modules/billing/subscriptions.go:36-91 | in every state of a run the count is at most the limit of the current subscription plus the venues created since it was taken |
| `Billing.CountStep` | internal/modules/billing/subscriptions.go:46-49 | the count grows by one on a successful creation, shrinks by one on a successful deletion, and is unchanged by every other call |
| `Billing.UpsertKeepsOneCurrent` | migrations/000003_orders_payments_and_feedback.up.sql:190-191 | an upsert never leaves two current rows for an owner |
| `Billing.UpsertDoes` | internal/modules/billing/subscriptions.go:36-104 | which reply exactly when, the limits being 1, 3 and none by plan name; a success cancels the owner's current rows and appends a 14-day trial of the requested plan and cycle |
| `Billing.Service.UpsertSubscription` | internal/modules/billing/subscriptions.go:36-91 | counts the owner's live venues in the venues table; within the limit the current row is cancelled and one trialing row appended, the only current one afterwards; otherwise nothing changes |
| `Billing.Service.GetSubscription` | internal/modules/billing/subscriptions.go:18-34 | the owner's latest current row, or none if there is none |

## Left out

- HTTP handlers, cookies, CORS, configuration, the connection pool, logging and SMTP: transport and I/O.
- The inside of AES-GCM, HMAC, SHA-256, Argon2id and the random source: parameters with the laws named above.
- Failures of the database, the random source or the commit itself: no step models a lost connection.
- Malformed UUIDs, which PostgreSQL refuses with an error of its own: an unknown id stands for them.
- Overlapping calls other than logins and reset requests: the other account calls, catalog, venues and subscriptions are run call by call; the two halves of a reset request (commit, then mail) are separate calls.
- Row locks: where transactions overlap they only rule out interleavings, and the bounds hold without them.
- IdentityResets.RunKeepsOneUnused: issuing transactions are atomic here; ResetOverlap gives the bound for those that overlap.
- ResetOverlap.UnusedBound: the issuing transactions of one user overlap; those of other users touch other rows and stay atomic.
- IdentitySessions.LiveSessionsMatchCurrentPassword: serial runs only; IdentityOverlap says exactly what overlapping logins add.
- IdentityResets.CooldownRate: needs a TTL of at least a minute; the shorter ones are covered by ShortTtlDefeatsCooldown.
- Capabilities in replies, avatars, user agents and IP addresses of sessions, locales of reset mails: stored or shown, never read by these steps.
- Changes of `status`, `deleted_at` and `account_role` by other modules: the fields are in the rows and every check reads them, but no call here writes them.
- Images of menu items beyond the one URL given at creation, tax rates and free-form attributes; the price and text fields of a listing are carried along without further claims.
- The calendar behind a subscription's period end: a parameter.
- Ordering, workforce, feedback, reporting and payment listings: single statements that would only add easy members.
