# Message-App server core in Dafny

A model of the server side of Message-App, an anonymous-feedback application built on Next.js and
MongoDB:

- People register with a username, an email and a password.
- They verify the account with a six-digit code sent by email, then sign in.
- They receive messages through a public page and can switch receiving on and off.

The model covers:

- the nine API handlers of the eight route files that do this (sign-up, verify-code, sign-in,
  send-message, accept-messages POST and GET, get-messages, check-username-unique,
  get-user-by-username);
- the user schema and the constraints it puts on the collection;
- the zod rules of the sign-up and message forms;
- the route guard in `middleware.ts`.

## How the model is laid out

- `UserModel` (user_model.dfy): the records and the store.
  - The stored user record `User`, the message record `Message` and the store `Db`.
  - The store invariant `Valid`. It states the schema's required validators, the trimming setter
    on `username`, the unique indexes on `username` and `email`, distinct ids, and messages
    addressed to existing users.
  - `FindOne`, mongoose's `findOne`: the first record in natural order that a filter selects.
    Values in a username filter go through the schema's `trim`, as mongoose casts them.
  - `SaveAccepted`: what `save()` checks before it writes.
  - bcrypt is an ideal salted hash (`Hash`, `Matches`).
- Each handler is a function from the store and the request to an `Api.Outcome`: the HTTP status
  and JSON body, plus the store afterwards for the handlers that write.
  - The read-only handlers get only the users (or the store), so they cannot change anything.
  - The clock, the drawn code, bcrypt's salt and the email-format verdict are parameters
    (`SignUp.Env`).
  - Whether the verification email went out is a boolean argument.
  - The session is `Option<nat>`, the signed-in user's id.
- `Server.Store` (store.dfy) is a class that holds the collections. Its four methods change them in
  place: sign-up, verify-code, send-message and the accept-messages POST. Each method is proved to
  give exactly the handler function's answer and leave exactly its store, and to keep `Valid`.
- `Text` models the JavaScript string operations the code relies on: `trim`, `length` in UTF-16
  code units, `startsWith`, `join` and `toString` of a number.
- `SignUpSchema` and `MessageSchema` give the form rules: the checks in declaration order, each
  with its message.
- `Middleware` has the guard's rules in order (`Decide`), the matcher configuration (`Matched`) and
  their composition (`Handle`).
- `Scenarios` holds properties that span several handlers.

## Two field-name mismatches, and how the model resolves them

- **The code expiry.**
  - The schema declares the path `verifiCodeExpiryDate` (src/models/User.model.ts:10, :40).
  - Sign-up writes `verifyCodeExpiryDate` (src/app/api/sign-up/route.ts:54, :83), and
    verify-code reads it (src/app/api/verify-code/route.ts:34).
  - The model has one field, `User.verifyCodeExpiry`, in milliseconds. The handlers read and
    write it.
- **The messages.**
  - Send-message pushes onto `user.messages` (src/app/api/send-message/route.ts:57), but the
    schema declares `message` (src/models/User.model.ts:54).
  - Get-messages joins a separate `messages` collection on `receiverId` and `senderId`.
  - The model has one message table, `Db.messages`. Send-message appends to it without a sender,
    because the handler records none.

What the code does as written with these paths is set out under "## Findings". Each finding's
as-written behaviour is proved alongside the corrected one.

## Where the code behaves differently from what one would expect

The model follows the code in each case:

- **Inbox order and anonymous messages.** The inbox is returned in table order with no sort.
  - The `$unwind` of the sender lookup drops every message whose sender is not a user.
  - That includes every message send-message stores, so an anonymous message is never listed
    (`Scenarios.SentMessageNeverListed`).
  - An inbox listed newest first, with anonymous messages included, would be the expected behaviour.
- **No record for the session id.** A POST to accept-messages answers 401, not success.
- **Empty content.** Send-message does not check content length. The `required` validator of the
  message schema's `content` (src/models/Message.model.ts:9-12) still rejects the empty string
  at save time. The model answers that case with the handler's catch: 500 "Error sending
  message." (`SendMessage.EmptyContentRefused`).
- **The sign-up route does not apply `signUpSchema`.** Only the form and the username check apply
  the zod rules. The schemas are therefore modelled as predicates. Check-username-unique applies
  `usernameValidation`.
- **Redirect loop.** The route guard sends an unverified user who has an id from `/dashboard` to
  `/verify`, and from `/verify` back to `/dashboard` (`Middleware.UnverifiedRedirectLoop`).

## Model

| member | source | states |
|---|---|---|
| UserModel.HashMatchesExactly | src/app/api/sign-in/route.ts:43 | a bcrypt digest matches the password it was made from and no other, whatever the salt |
| UserModel.EmptyIsValid | src/models/User.model.ts:16-55 | the empty collection satisfies every schema constraint |
| UserModel.FindOne | src/app/api/verify-code/route.ts:15 | findOne returns the first record the filter selects: every earlier record is not selected, and it returns None exactly when no record is selected |
| UserModel.FindOneByKey | src/models/User.model.ts:17-26 | on a store with the unique indexes, a filter on id, username or email finds exactly the record it selects |
| UserModel.InsertKeepsValid | src/app/api/sign-up/route.ts:61 | saving a new record that passes the validators and both unique indexes, under a fresh id, keeps every constraint |
| UserModel.ReplaceKeepsValid | src/app/api/sign-up/route.ts:87 | saving a rewritten record that passes the validators and indexes, under its id, keeps every constraint |
| UserModel.UpdateFlagsKeepsValid | src/app/api/verify-code/route.ts:39-40 | changing only `isVerified`/`isAcceptingMessages` of a record keeps every constraint |
| UserModel.AppendMessageKeepsValid | src/app/api/send-message/route.ts:57-58 | adding a message under a fresh id for an existing user keeps every constraint |
| UserModel.MessagesFor | src/app/api/get-messages/route.ts:39-43 | the messages picked for a user are messages of the table addressed to that user |
| UserModel.MessagesForAppend | src/app/api/send-message/route.ts:57 | after an append, a user's messages are the old ones plus the new one exactly when it is addressed to them |
| UserModel.NoMessagesForFreshId | src/app/api/sign-up/route.ts:57 | the id a new record receives has no messages, so a new account starts with an empty message list (via `UserModel.NoMessagesForUnusedId`: an id no record has is addressed by no message) |
| Text.TrimStartShape | src/models/User.model.ts:20 | trimStart removes a leading run of whitespace and leaves a suffix that does not start with whitespace |
| Text.TrimEndShape | src/models/User.model.ts:20 | trimEnd removes a trailing run of whitespace and leaves a prefix that does not end with whitespace |
| Text.TrimShape | src/models/User.model.ts:20 | trim's result has no whitespace at either end and is a contiguous slice of the input |
| Text.TrimmedIsFixpoint | src/models/User.model.ts:20 | trimming a string with no whitespace at its ends changes nothing |
| Text.TrimIdempotent | src/models/User.model.ts:20 | trim is idempotent, so a stored username is a fixpoint of the setter |
| Text.TrimWithoutWhitespace | src/schemas/signUp.schema.ts:7-10 | a string without whitespace is its own trim |
| Text.Utf16Len | src/schemas/signUp.schema.ts:5-6 | the JavaScript length lies between the number of code points and twice that |
| Text.Utf16LenConcat | src/schemas/message.schema.ts:6-7 | the JavaScript length of a concatenation is the sum of the lengths |
| Text.Utf16LenOfBmp | src/schemas/signUp.schema.ts:5-6 | for Basic Multilingual Plane text the JavaScript length equals the number of characters |
| Text.Decimal | src/app/api/sign-up/route.ts:37 | `toString` of a non-negative integer is a non-empty string of decimal digits with no leading zero (built from `DigitChar`; `Pow10` bounds the digit count in the lemmas below) |
| Text.JoinWithAppend | src/app/api/check-username-unique/route.ts:36 | joining one more message puts the separator between the join so far and that message, so two messages are joined as the first, ", ", the second |
| Text.DecimalLength | src/app/api/sign-up/route.ts:37 | a number with k digits prints as k characters |
| Text.DecimalRoundTrip | src/app/api/sign-up/route.ts:37 | reading back the printed number gives the number |
| Text.DecimalInjective | src/app/api/sign-up/route.ts:37 | two numbers print alike only if they are equal |
| SignUpSchema.UsernameRule | src/schemas/signUp.schema.ts:3-10 | a username passes exactly when it has 2 to 20 characters, each an ASCII letter, digit or underscore |
| SignUpSchema.ValidUsernameIsTrimmed | src/schemas/signUp.schema.ts:7-10 | an accepted username has no whitespace, so the schema's trim leaves it as it is |
| SignUpSchema.UsernameIssuesReported | src/schemas/signUp.schema.ts:5-10 | each failed check contributes its own message and only then; a failing username gets one or two messages |
| SignUpSchema.PatternImpliesLength | src/schemas/signUp.schema.ts:19-22 | the password pattern's `{8,20}` implies the min and max checks, so a password the pattern accepts passes |
| SignUpSchema.PasswordRule | src/schemas/signUp.schema.ts:16-24 | a password passes exactly when it has 8 to 20 characters from the allowed class, with a lower-case letter, an upper-case letter, a digit and a special character |
| MessageSchema.ContentRule | src/schemas/message.schema.ts:4-7 | empty content gets exactly the "empty" message, content over 200 units exactly the "too long" message, and every length 1..200 passes |
| MessageSchema.OnlyLengthMatters | src/schemas/message.schema.ts:4-7 | contents of the same length get the same messages, whatever their characters |
| MessageSchema.BmpContentRule | src/schemas/message.schema.ts:6-7 | for Basic Multilingual Plane text the limits are 1 and 200 characters |
| SignUp.IssuedCode | src/app/api/sign-up/route.ts:37 | the issued code is six decimal digits that read back as the drawn number |
| SignUp.Register | src/app/api/sign-up/route.ts:17-88 | up to the email send: either an answer among the two 400s and the save failure, or a saved valid store, with messages untouched, holding the registration |
| SignUp.Post | src/app/api/sign-up/route.ts:9-139 | statuses 201/400/500; refusals and failed saves leave the store; 201 and the email-failure 500 both leave the registration in the store |
| SignUp.VerifiedUsernameRefused | src/app/api/sign-up/route.ts:17-32 | a verified holder of the trimmed username gives 400 "Username already exists" and no change, whatever the email |
| SignUp.FreeUsernameNotRefused | src/app/api/sign-up/route.ts:17-32 | without a verified holder the username check never refuses |
| SignUp.NewEmailCreatesRecord | src/app/api/sign-up/route.ts:44-61 | a new email adds exactly one record (fresh id, trimmed username, email, hash, issued code, expiry one hour on, unverified, accepting, no messages), keeps the others, and answers 201, or 500 if the email failed |
| SignUp.NewEmailPost | src/app/api/sign-up/route.ts:44-61 | for a new email the outcome is the store with the new record appended under the next id |
| SignUp.NewEmailSaves | src/app/api/sign-up/route.ts:49-61 | for a new email with a free username the save is accepted |
| SignUp.VerifiedEmailRefused | src/app/api/sign-up/route.ts:64-74 | a verified holder of the email gives 400 "User with this email already exists." and no change |
| SignUp.UnverifiedEmailRewritten | src/app/api/sign-up/route.ts:76-88 | an unverified holder of the email has only username, code, expiry and password rewritten; id, email, flags, other records and messages stay; nothing is added |
| SignUp.RewriteSaves | src/app/api/sign-up/route.ts:80-87 | the rewritten record passes the save and replaces the old one in place |
| SignUp.DuplicateUsernameFailsSave | src/app/api/sign-up/route.ts:126-138 | a new email whose username another unverified record holds breaks the unique index: 500 "Error registering user", no change |
| SignUp.BlankUsernameFailsSave | src/models/User.model.ts:17-21 | a username that trims to "" fails the required validator: no change, a 400 or 500 answer |
| SignUp.EmailSendDoesNotAffectStore | src/app/api/sign-up/route.ts:94-115 | the email outcome does not change the store; a send that would give 201 gives the 500 email failure when it fails |
| SignUp.NewRecordAsWrittenRejected | src/app/api/sign-up/route.ts:54 | as written the expiry path is dropped by the strict schema (`UserModel.Kept`, the declared paths a document keeps) and the required paths are not all present |
| SignUp.AsWrittenNewEmailFails | src/app/api/sign-up/route.ts:44-61 | as written (`SignUp.PostAsWritten`) a sign-up with an email no record holds and a username no verified record holds answers 500 "Error registering user" and leaves the store as it was |
| SignUp.NewRecordPathsAccepted | src/models/User.model.ts:40-43 | with the declared spelling every required path is present |
| SignUp.AsWrittenRewriteKeepsOldExpiry | src/app/api/sign-up/route.ts:83 | as written (`SignUp.RewrittenAsWritten`, assigning through `UserModel.WriteDate`, which ignores an undeclared path) a rewrite issues the new code but keeps the old expiry, where the corrected rewrite sets now plus one hour |
| VerifyCode.Respond | src/app/api/verify-code/route.ts:30-76 | once the record is found, the answer is 200 exactly when the code matches and has not expired; the store stays valid |
| VerifyCode.Post | src/app/api/verify-code/route.ts:15-76 | statuses 200/400/404; 404 exactly when no record has the trimmed username; only a 200 writes, setting `isVerified` of a record with that username, matching code and unexpired code |
| VerifyCode.UnknownUserNotFound | src/app/api/verify-code/route.ts:15-28 | an unknown username gives 404 "User not found" and no change |
| VerifyCode.MatchVerifies | src/app/api/verify-code/route.ts:37-50 | the matching unexpired code gives 200 "Account verified" and sets only that record's `isVerified` |
| VerifyCode.ExpiredRejectsAnyCode | src/app/api/verify-code/route.ts:53-64 | at or after the expiry any code gives 400 with the "expired" message and no change |
| VerifyCode.BoundaryIsExpired | src/app/api/verify-code/route.ts:34 | at the very instant of expiry the correct code is refused as expired |
| VerifyCode.MismatchRejected | src/app/api/verify-code/route.ts:67-75 | a wrong code before expiry gives 400 "Invalid verification code" and no change |
| VerifyCode.VerifyIdempotent | src/app/api/verify-code/route.ts:37-50 | a second identical successful request answers 200 again and leaves the store as the first left it |
| VerifyCode.PostAsWritten | src/app/api/verify-code/route.ts:34 | the handler reading the expiry through the undeclared path keeps the store valid |
| VerifyCode.AsWrittenCodeNeverExpires | src/app/api/verify-code/route.ts:34 | as written (reading through `UserModel.ReadDate`, undefined at an undeclared path) the correct code is accepted at any time after its expiry, where the corrected handler answers "expired" |
| SignIn.Post | src/app/api/sign-in/route.ts:11-70 | statuses 200/401; 401 carries no user; 200 carries the identity of a verified record the identifier selects and whose hash the password matches, and no message |
| SignIn.IdentifierSelectsEitherKey | src/app/api/sign-in/route.ts:12-14 | the lookup selects a record by email or by trimmed username |
| SignIn.UnknownIdentifierRefused | src/app/api/sign-in/route.ts:17-27 | no selected record gives 401 "Invalid credentials." |
| SignIn.UnverifiedRefusedWhateverPassword | src/app/api/sign-in/route.ts:30-40 | an unverified record gives 401 "Please verify your email to login." and the same answer for every password |
| SignIn.WrongPasswordLooksUnknown | src/app/api/sign-in/route.ts:46-56 | a wrong password for a verified record gets exactly the answer of an unknown identifier |
| SignIn.CorrectPasswordSignsIn | src/app/api/sign-in/route.ts:58-70 | the right password for a verified record answers 200, no message, with that record's identity (`SignIn.Identity`: its id, username, email and both flags) |
| SignIn.SignInByEmail | src/app/api/sign-in/route.ts:12-14 | on a valid store a verified record signs in by its email when no earlier record has that text as username |
| SendMessage.Post | src/app/api/send-message/route.ts:13-67 | statuses 200/401/403/404/500; users never change; only a 200 writes, and it needs a session, non-empty content and an accepting holder of the trimmed username, for whom it adds one message without sender |
| SendMessage.NoSessionRefused | src/app/api/send-message/route.ts:13-23 | without a session: 401 and no change |
| SendMessage.UnknownRecipient | src/app/api/send-message/route.ts:29-40 | an unknown recipient: 404 "User not found." and no change |
| SendMessage.RecipientNotAccepting | src/app/api/send-message/route.ts:43-51 | a recipient not accepting messages: 403 and no change |
| SendMessage.Delivered | src/app/api/send-message/route.ts:54-58 | to an accepting recipient exactly one message (fresh id, recipient, no sender, content, clock) is added, nothing else changes, and the recipient's messages grow by it |
| SendMessage.StoreAfterPost | src/app/api/send-message/route.ts:27-67 | after any request the store is unchanged or has exactly one new message for the recipient found |
| SendMessage.LongContentDelivered | src/app/api/send-message/route.ts:54 | content over the form's 200-unit limit is still delivered |
| SendMessage.EmptyContentRefused | src/models/Message.model.ts:9-12 | empty content fails the required validator: 500 "Error sending message." and no change |
| SendMessage.PostAsWritten | src/app/api/send-message/route.ts:57 | the handler pushing onto the undeclared list keeps the store valid |
| SendMessage.AsWrittenNeverDelivers | src/app/api/send-message/route.ts:57 | as written no request changes the store or answers 200 |
| AcceptMessages.Post | src/app/api/accept-messages/route.ts:9-79 | statuses 200/401; 200 exactly when a record has the session id; then only that record's flag becomes the value and the answer carries the updated record; 401 leaves the store |
| AcceptMessages.Get | src/app/api/accept-messages/route.ts:82-131 | 401 exactly without a session; with a session, 404 exactly when no record has its id; 200 carries the flag of the record with the session id |
| AcceptMessages.PostSetsFlag | src/app/api/accept-messages/route.ts:34-38 | POST v sets the session user's flag to v, returns the updated record and changes nothing else |
| AcceptMessages.GetCurrentFlag | src/app/api/accept-messages/route.ts:106-131 | on a valid store GET answers 200 with the session user's current flag |
| AcceptMessages.UnknownSessionUser | src/app/api/accept-messages/route.ts:41-51 | a session id no record has: POST 401 "Failed to update…", GET 404, no change |
| AcceptMessages.NoSessionRefused | src/app/api/accept-messages/route.ts:15-25 | without a session POST and GET answer 401 "Unauthorized" and nothing changes |
| AcceptMessages.PostIdempotent | src/app/api/accept-messages/route.ts:34-38 | posting the same value twice leaves the store as posting it once |
| AcceptMessages.GetAfterPost | src/app/api/accept-messages/route.ts:106-131 | GET right after a successful POST v answers v |
| AcceptMessages.ToggleTwiceRestores | src/app/api/accept-messages/route.ts:34-38 | switching the flag and switching it back restores the store |
| GetMessages.UsersWithId | src/app/api/get-messages/route.ts:46-51 | the sender lookup yields only users of the collection with that id |
| GetMessages.Lookup | src/app/api/get-messages/route.ts:46-51 | a message's sender lookup yields users whose id is its sender id, none without one |
| GetMessages.Unwind | src/app/api/get-messages/route.ts:53-62 | unwinding gives one projected entry per sender found, with that sender's username |
| GetMessages.Get | src/app/api/get-messages/route.ts:8-93 | statuses 200/401/404; 401 exactly without a session; 404 exactly when no record has the id; every entry returned projects a message addressed to the session user, named with its sender's username |
| GetMessages.JoinSound | src/app/api/get-messages/route.ts:45-62 | every entry of the join describes one of the joined messages |
| GetMessages.InboxSound | src/app/api/get-messages/route.ts:34-43 | every inbox entry comes from a message addressed to the user |
| GetMessages.JoinConcat | src/app/api/get-messages/route.ts:39-44 | the join (`GetMessages.Join`, the inner pipeline over the user's messages) keeps table order: joining two lists joins each in turn |
| GetMessages.InboxComplete | src/app/api/get-messages/route.ts:32-73 | every message to the user whose sender is a user appears, projected with that sender's username |
| GetMessages.FindOneAt | src/app/api/get-messages/route.ts:34-36 | a user with the id is found at some position |
| GetMessages.MessagesForContains | src/app/api/get-messages/route.ts:39-43 | a message addressed to the user is among the messages picked for them |
| GetMessages.UsersWithIdContains | src/app/api/get-messages/route.ts:46-51 | the sender lookup finds the user with the sender id |
| GetMessages.JoinContains | src/app/api/get-messages/route.ts:45-62 | a message with a resolvable sender yields its entry in the join |
| GetMessages.NoSenderDropped | src/app/api/get-messages/route.ts:53-55 | messages without a sender id yield no entries |
| GetMessages.AnonymousMessageInvisible | src/app/api/get-messages/route.ts:53-55 | appending a message without a sender leaves every user's inbox unchanged |
| GetMessages.AnonymousAppendKeepsAnswer | src/app/api/get-messages/route.ts:53-55 | appending a message without a sender changes no get-messages answer |
| CheckUsernameUnique.Get | src/app/api/check-username-unique/route.ts:16-75 | statuses 200/400; 200 "Username is available" exactly when the parameter is present, passes the username rule and no verified user holds it |
| CheckUsernameUnique.InvalidNameReported | src/app/api/check-username-unique/route.ts:27-43 | an invalid name gives 400 with the rule's messages joined by ", ", of which there is at least one; a name failing two checks gets the first message, ", " and the second |
| CheckUsernameUnique.TakenIffVerifiedHolder | src/app/api/check-username-unique/route.ts:48-64 | a valid name is reported taken exactly when a verified user holds it, and available otherwise |
| CheckUsernameUnique.UnverifiedHolderLeavesNameAvailable | src/app/api/check-username-unique/route.ts:67-75 | a name held only by unverified users is reported available |
| GetUserByUsername.Get | src/app/api/get-user-by-username/route.ts:4-37 | statuses 200/404; 404 exactly when the parameter is absent or no record has the trimmed username; 200 carries the id of such a record |
| GetUserByUsername.HolderFound | src/app/api/get-user-by-username/route.ts:28-37 | the holder of the username, verified or not, is found with its id |
| GetUserByUsername.NoHolderNotFound | src/app/api/get-user-by-username/route.ts:16-26 | no holder gives 404 "Could Not Find User." |
| Middleware.Decide | src/middleware.ts:14-39 | a redirect goes to one of three pages; to the dashboard exactly for a user with an id on an auth page; to verify only for an unverified user with an id on the dashboard; otherwise the dashboard is reached only verified |
| Middleware.DashboardIsNotAuthPage | src/middleware.ts:17-20 | a dashboard path is none of the auth pages |
| Middleware.SignedInLeavesAuthPages | src/middleware.ts:14-23 | a user with an id on sign-in, sign-up, verify or "/" goes to the dashboard, verified or not |
| Middleware.DashboardNeedsId | src/middleware.ts:26-28 | without a user id the dashboard redirects to sign-in, before the verified rule |
| Middleware.UnverifiedSentToVerify | src/middleware.ts:31-37 | an unverified user with an id is sent from the dashboard to verify |
| Middleware.OtherwiseNext | src/middleware.ts:39 | every other request continues |
| Middleware.UnverifiedRedirectLoop | src/middleware.ts:14-37 | an unverified user with an id is bounced from dashboard to verify and from verify to dashboard |
| Middleware.PrefixMatching | src/middleware.ts:17-20 | the auth pages match by prefix ("/sign-in-x" redirects), "/" only exactly |
| Middleware.MatchedPathsAreGuarded | src/middleware.ts:4-6 | every path the matcher (`Middleware.Matched`) admits is one the rules look at, so `Middleware.Handle` runs the rules only where they can apply |
| Middleware.PrefixBeyondMatcher | src/middleware.ts:4-6 | "/sign-in-x" would be redirected by the rules, but `Middleware.Handle` lets it through because the matcher does not run the guard there |
| Server.Store.PostSignUp | src/app/api/sign-up/route.ts:9-139 | the in-place sign-up answers and leaves the store exactly as `SignUp.Post` says, and keeps the constraints |
| Server.Store.PostVerifyCode | src/app/api/verify-code/route.ts:4-89 | the in-place verification answers and leaves the store exactly as `VerifyCode.Post` says, and keeps the constraints |
| Server.Store.PostSendMessage | src/app/api/send-message/route.ts:6-78 | the in-place send answers and leaves the store exactly as `SendMessage.Post` says, and keeps the constraints |
| Server.Store.PostAcceptMessages | src/app/api/accept-messages/route.ts:9-79 | the in-place flag update answers and leaves the store exactly as `AcceptMessages.Post` says, and keeps the constraints |
| Scenarios.RegisterVerifySignIn | src/app/api/verify-code/route.ts:31-50 | a new registration verified with the mailed code within the hour signs in by email, even when the email failed |
| Scenarios.VerifyThenSignIn | src/app/api/verify-code/route.ts:37-50 | the record just appended verifies with its code and then signs in |
| Scenarios.SignInAfterVerify | src/app/api/sign-in/route.ts:30-70 | once verified, a record signs in by email with its password |
| Scenarios.CodeUsedTooLate | src/app/api/sign-up/route.ts:40-41 | the mailed code used an hour or more after registration is refused as expired |
| Scenarios.SentMessageNeverListed | src/app/api/get-messages/route.ts:53-55 | a message sent through send-message changes no user's get-messages answer |
| Scenarios.CheckAgreesWithSignUp | src/app/api/check-username-unique/route.ts:48-51 | a name reported taken is refused by sign-up; a name reported available is not refused for its username |

## Left out

- Database connection (src/lib/dbConnect.ts): the store is always available.
- Email delivery through Resend or SMTP, and the email template. Sign-up receives only whether the
  send succeeded. A failure always carries the helper's one failure message.
- NextAuth and the session: the session is an input, the signed-in user's id, or a user record
  for the route guard.
  - A session user without an `_id`, or with one that is not a valid object id, is not modelled
    in the handlers.
- bcrypt: ideal. Its 72-byte truncation of long passwords is not modelled.
- The random code, the clock and bcrypt's salt are parameters. The clock is an integer number of
  milliseconds.
  - `setHours(getHours() + 1)` is taken as exactly 3,600,000 ms, so daylight-saving transitions
    are not modelled.
- The email format checks (the schema's `match` regular expression and zod's `.email()`): the
  verdict is the parameter `emailFormatOk`. Regular-expression semantics are not modelled.
- Request bodies are assumed to have the fields the handler destructures, as strings (a boolean
  for accept-messages); missing or differently typed JSON values are not modelled.
- The `catch` branches that answer 500 for failures other than the validators and unique indexes
  are not modelled. These are failures the model cannot produce: a dropped connection, an
  unparsable body, and the like.
  - The messages concerned: "Error verifying code", "Something went wrong while signing in…",
    "Error getting messages.", "Error checking if username is unique", "Failed to find user
    message acceptance status.", the 500 of accept-messages POST and the 500 "Could Not Find User."
    of get-user-by-username (src/app/api/get-user-by-username/route.ts:38-48).
- The matcher is modelled on exact paths. Next.js's normalisation of trailing slashes and locale
  prefixes is not modelled.
- Concurrency: each request is one atomic transition, so last-writer-wins races between requests
  are not modelled.
- suggest-messages (a hosted language-model call) and delete-message are not part of this model.
- The `console.log` output of the handlers is not modelled.
- VerifyCode.PostAsWritten: its own contract states only that the store stays valid. Its behaviour
  is stated by `VerifyCode.AsWrittenCodeNeverExpires`.
- SendMessage.PostAsWritten: its own contract states only that the store stays valid. Its behaviour
  is stated by `SendMessage.AsWrittenNeverDelivers`.
- SendMessage.Post: empty content is answered 500 rather than stored. This follows the message
  schema's required validator, not the handler alone.

## Findings

| source | as written | input that shows it | evidently intended | confidence | as-written member | corrected member |
|---|---|---|---|---|---|---|
| src/app/api/sign-up/route.ts:54 | the new record gets its expiry under `verifyCodeExpiryDate`, a path the schema does not declare; the strict schema drops it, the required validator on `verifiCodeExpiryDate` fails, `save()` throws and the catch answers 500 "Error registering user" | any sign-up with an email no record holds | the record is stored with an expiry one hour ahead and the answer is 201 | not executed; mongoose's default strict mode assumed | SignUp.AsWrittenNewEmailFails | SignUp.NewEmailCreatesRecord |
| src/app/api/sign-up/route.ts:83 | re-registering an unverified email assigns the expiry to the undeclared path, so the record keeps its old expiry while it gets a new code | re-registering an unverified email more than an hour after its first code was issued: the new code is already expired | the new code expires one hour after re-registration | not executed | SignUp.AsWrittenRewriteKeepsOldExpiry | SignUp.UnverifiedEmailRewritten |
| src/app/api/verify-code/route.ts:34 | the expiry is read through the undeclared path, `new Date(undefined)` is an invalid date and `>=` against it is false, so no code ever counts as expired | the correct code sent any time at or after the stored expiry | answered 400 "Verification code expired, Please sign up again to get a new code." | not executed | VerifyCode.AsWrittenCodeNeverExpires | VerifyCode.ExpiredRejectsAnyCode |
| src/app/api/send-message/route.ts:57 | the handler pushes onto `user.messages`, which the schema does not declare (it declares `message`); the value is undefined, the push throws and the catch answers 500 "Error sending message." | any send with a session to an existing user who accepts messages | the message is stored for the recipient and the answer is 200 "Message sent successfully." | not executed | SendMessage.AsWrittenNeverDelivers | SendMessage.Delivered |
