# Dentistimo user management, modelled in Dafny

This project models the credential lifecycle of the Dentistimo user-management
service. The service listens on MQTT topics and handles five kinds of request:

- registration of patients (`User`) and dentists (`Dentist`);
- login, which returns a signed session token;
- a reset code sent by email, followed by the password reset that uses it;
- a profile update authenticated by the session token;
- token verification for the other Dentistimo services.

The store is the class `Store.Database`. It holds two collections, `users` and
`dentists`, as sequences in natural order. Each collection has a unique index
on `email`, which every write keeps (`Database.Valid`). A handler is a method
on the database or a function of the collections. It returns the MQTT
publishes it makes, in order, and the emails it sends.

Foreign code is represented by the function-valued fields of
`Accounts.Primitives`: `hash` (bcrypt), `sign` and `verify` (jsonwebtoken),
and `emailValid` (email-validator). A password matches a digest exactly when
it hashes to it. Lemmas about tokens assume `IdealSigning`: a signed token
verifies to its claims, and any token that verifies is the signature of those
claims. `Math.random()` is a sequence of draws in [0, 1). A payload that is not
JSON is `None`. An absent or `null` field is `None`. `userCode` keeps its JSON
type, so that the handler's loose `!=` can be modelled.

The repository holds two versions of some handlers, and both are modelled:

- **Token verification.** The dispatcher wires in src/helpers/verifyJWT.js
  (`VerifyJwt`). The newer src/helpers/JWTHandler.js is `JwtHandler`; its
  `signJWT` is used by registration and the newer login.
- **Login.** The wired src/login.js is `Login`. The newer src/loginHandler.js
  is `LoginHandler`.
- **Password reset.** src/resetPassword.js (wired) and
  src/resetPasswordHandler.js differ, apart from logging, only in the path of
  the mail helper they import. `ResetPassword` models both; its rows cite the wired file.
  `ResetPassword.ResetPassword` also stands for
  src/resetPasswordHandler.js:14-86, and `ResetPassword.SendEmailCode` for
  src/resetPasswordHandler.js:88-148.
- **Registration.** The dispatcher imports it from src/register.js, which is
  not part of this model. `Registration` models src/registrationHandler.js,
  with the id generator in helpers/generateId.js.

Login and both token verifications only read the store. Three other
handlers (registration, reset and profile update) check their fields in a
fixed order. The first failed check publishes one error text and changes
nothing. Some failures throw before publishing anything; those return no reply
and no change. On success such a handler inserts or rewrites exactly one
document and publishes its success replies. Send-code has no field check and no
error text: it always publishes the same neutral message, and writes a fresh
code only into the account the email finds, if any. What one request does to the store
and the replies is stated, per writing handler, by a predicate over the
collections before and after (`Registration.RegisterOutcome`,
`ResetPassword.ResetOutcome`, `ResetPassword.SendCodeOutcome`,
`ModifyUser.ModifyOutcome`); the handler method and `Dispatch.HandleRequest`
both ensure it.

## Model

| member | source | states |
|---|---|---|
| Js.NumberToString | src/helpers/JWTHandler.js:71 | `id.toString()` is a non-empty string of digits with no leading zero (unless the id is 0) |
| Js.NumberToStringRoundTrip | src/helpers/JWTHandler.js:71 | reading the decimal text of an id back gives the id |
| Js.NumberToStringInjective | src/helpers/JWTHandler.js:71 | two ids with the same audience text are the same id |
| Js.CastToId | src/helpers/findUser.js:15-17 | restricted to canonical digit audiences (see Left out): the ODM cast of an audience to a numeric id succeeds exactly for a non-empty string of digits |
| Js.CastToIdOfNumberToString | src/helpers/findUser.js:15-17 | the audience `signJWT` writes casts back to the account's id |
| Js.ToNumber | src/resetPassword.js:34 | `Number(s)` of a string of digits (the empty string included) is the value the digits spell, never negative; other strings are NaN in this model (see Left out) |
| Js.LooseEquals | src/resetPassword.js:34 | a missing stored code equals only `undefined` and `null`; a stored string equals the same string; a stored digit string equals exactly the number it spells, and `true` or `false` exactly when it spells 1 or 0; any other stored string equals only itself |
| Messages.Present | src/registrationHandler.js:109-112 | `JSON.stringify` keeps exactly the fields whose value is defined, and invents none |
| Messages.PresentAppend | src/registrationHandler.js:109-112 | dropping undefined fields keeps the order of the rest: the fields of a concatenation are those of each part, in order |
| Messages.PresentSingle | src/registrationHandler.js:109-112 | a single field is kept, with its value, exactly when it is defined |
| Messages.StringifyCarries | src/registrationHandler.js:109-112 | a defined field appears in the stringified object with its value; an undefined one whose key no other field uses leaves the key out |
| Messages.StringifyReports | src/registrationHandler.js:109-112 | with distinct keys, every field is reported faithfully: present with its value when defined, absent when undefined |
| Messages.StringifyKeysWithin | src/registrationHandler.js:116-123 | a stringified reply has no key beyond the fields it is built from |
| Store.FindIndex | src/helpers/findUser.js:15-17 | `findOne` gives the first matching document in natural order; null exactly when nothing matches |
| Store.FindOne | src/helpers/findUser.js:34-36 | a found document matches the filter and belongs to the collection; not found is a null result, never an error |
| Store.AppendFreshId | helpers/generateId.js:18-25 | appending a document whose id no document holds keeps the ids unique |
| Store.Database.constructor | src/models/dentist.js:3-11 | an empty store satisfies the unique email index |
| Store.Database.Insert | src/registrationHandler.js:101 | `save` of a new document appends it to its collection unless its email is taken; the other collection and the unique index are kept |
| Store.Database.Replace | src/resetPassword.js:55-65 | an update rewrites one document unless its new email is held by another; nothing else changes |
| FindUser.EmailKind | src/helpers/findUser.js:26-38 | an email lookup goes to Dentist exactly for the four dentist topics; every other topic goes to User |
| FindUser.RoleKind | src/helpers/findUser.js:12-21 | an id lookup goes to User exactly for role 'User'; any other role, unknown strings included, goes to Dentist |
| FindUser.FindUserByEmail | src/helpers/findUser.js:26-39 | a result has the requested email and comes from the routed collection; null exactly when no document there has the email |
| FindUser.FindUserById | src/helpers/findUser.js:12-21 | a result has the requested id and comes from the role's collection; null exactly when none has it |
| FindUser.EmailLookupIgnoresOtherKind | src/helpers/findUser.js:34-36 | the two collections are separate email namespaces: changing the unrouted one never changes a lookup |
| FindUser.FindByEmailUnique | src/helpers/findUser.js:34-36 | under the unique index the lookup finds the one document holding the email |
| GenerateId.Candidate | helpers/generateId.js:9 | a drawn id lies in 10^(length-1) <= id < 10^length |
| GenerateId.DecimalLength | helpers/generateId.js:9 | a number in 10^(length-1) .. 10^length - 1 written in decimal has exactly `length` digits |
| GenerateId.CandidateLength | helpers/generateId.js:9 | every drawn id, written as its token audience text, has exactly `length` digits |
| GenerateId.ScaledDraw | helpers/generateId.js:9 | a draw in [0, 1) scaled by a positive width stays in [0, width) |
| GenerateId.ScaledDrawFloor | helpers/generateId.js:9 | `Math.floor(r * width)` is one of 0 .. width - 1 |
| GenerateId.IdKind | helpers/generateId.js:13-17 | the id must be fresh in Dentist (by `dentistId`) exactly when `isDentist`, otherwise in User (by `userId`) |
| GenerateId.GenerateUniqueUserId | helpers/generateId.js:7-26 | the result is the first drawn candidate that no document of the selected collection holds; it lies in the length's range; there is no result exactly when every draw collides |
| JwtHandler.VerifyToken | src/helpers/JWTHandler.js:14 | an absent token verifies to nothing; a present one gives exactly what `jwt.verify` gives for it |
| JwtHandler.TopicRole | src/helpers/JWTHandler.js:60-86 | the role is 'Dentist' exactly for the register and login dentist topics, and 'User' for every other topic or none |
| JwtHandler.SignedClaims | src/helpers/JWTHandler.js:57-87 | the claims carry the account's email and names, the topic's role, the issuer 'Dentistimo-User-Management', lifetime 360000 and an audience that is the decimal text of the account's id (`toString()`), which casts back to the id |
| JwtHandler.SignJWT | src/helpers/JWTHandler.js:57-90 | with an ideal signature the returned token verifies to exactly the claims built for the account and topic |
| JwtHandler.SignJWTVerifies | src/helpers/JWTHandler.js:57-90 | a token from `signJWT` verifies to the account's email and names, the topic's role, the issuer 'Dentistimo-User-Management', lifetime 360000, and an audience that is the decimal text of the account's id and casts back to it |
| JwtHandler.HandleVerifyIdTokenRequest | src/helpers/JWTHandler.js:8-55 | a malformed payload publishes nothing; otherwise exactly one reply on the response topic, Authorized with the audience and role when the token verifies with role User or Dentist, and Unauthorized for every other role or failure |
| JwtHandler.VerifySignedToken | src/helpers/JWTHandler.js:14-38 | round trip: a request carrying a `signJWT` token is answered Authorized with the account's id text and the topic's role |
| VerifyJwt.HandleVerifyIdTokenRequest | src/helpers/verifyJWT.js:6-34 | a malformed payload publishes nothing; otherwise exactly one reply on the response topic: `{"status":"Authorized"}` when the token verifies and its role equals the requested role, and Unauthorized otherwise |
| VerifyJwt.AuthorizedWithoutId | src/helpers/verifyJWT.js:16-19 | once `JSON.stringify` drops the undefined `ID`, the Authorized reply is exactly `{"status":"Authorized"}`: its only key is the status |
| VerifyJwt.VerifySignedTokenWithRole | src/helpers/verifyJWT.js:14-19 | round trip: a request carrying a `signJWT` token is answered `{"status":"Authorized"}` exactly when it names the role the token was signed with, and Unauthorized otherwise; no id is ever returned |
| Login.CheckCredentials | src/login.js:20-50 | missing email or password gives 'All fields are required'; on a login topic, an unknown email or a wrong password gives 'User name or password incorrect'; acceptance exactly when the fields are present, the topic is a login topic and the routed account has a hash the password matches, and then it is that account; nothing is published exactly for a non-login topic or an account without a hash |
| Login.LoginClaims | src/login.js:53-65 | the claims (this branch, and the dentist branch at lines 105-117) carry the account's email and names, role User on the user topic and Dentist otherwise, the issuer, lifetime 3600 and an audience that is the decimal text of the id (`toString()`, lines 63 and 115), which casts back to the id |
| Login.LoginReply | src/login.js:68-77 | the success payload (and the dentist payload at lines 120-130) is an object holding the signed token under `IdToken` and the account's id under `userId` or `dentistId` |
| Login.Login | src/login.js:11-136 | a malformed payload publishes nothing; a missing field publishes exactly 'All fields are required' on the login error topic; at most one reply, either an error text on the login error topic or the success object on the request's own topic; a non-login topic, or a found account with no stored hash, publishes nothing once the fields are present |
| Login.CredentialsAccepted | src/login.js:20-50 | present fields, a login topic and a routed account whose hash the password matches are accepted, with that account |
| Login.LoginReplyProfile | src/login.js:68-77 | the success payload (and the dentist payload at lines 120-130) holds `firstName`, `lastName` and `email` with the account's values when defined and leaves each key out when undefined; the dentist payload does the same for `officeId` |
| Login.LoginEnumerationResistant | src/login.js:32-50 | an unknown email and a wrong password get the identical reply on the same topic |
| Login.LoginSuccess | src/login.js:68-77 | present fields, a login topic and a routed account whose hash the password matches: the answer is exactly one success payload for that account on the topic's own reply topic, with no password key |
| Login.LoginReplyHidesPassword | src/login.js:68-77 | the user payload's keys lie within `IdToken`, `firstName`, `lastName`, `email`, `userId`; the dentist payload's (lines 120-130) within `IdToken`, `firstName`, `lastName`, `email`, `officeId`, `dentistId`; neither has a password key |
| Login.LoginTokenVerifies | src/login.js:53-65 | the token verifies to the topic's role, the decimal text of the account's id as audience and lifetime 3600 |
| LoginHandler.Login | src/loginHandler.js:11-108 | the same replies as the wired login, with the newer token and payload: nothing for a malformed payload, exactly 'All fields are required' for a missing field, nothing for a found account with no stored hash, at most one reply |
| LoginHandler.LoginReplyProfile | src/loginHandler.js:53-66 | the success payload (and the dentist payload at lines 92-102) holds `firstName`, `lastName` and `email` with the account's values when defined and leaves each key out when undefined; the dentist payload does the same for `officeId` |
| LoginHandler.LoginToken | src/loginHandler.js:51 | on both login topics, with an ideal signature, the token verifies to the claims `signJWT` builds for the account and that topic (the user branch passes no topic and gets the same claims) |
| LoginHandler.LoginReply | src/loginHandler.js:53-66 | the success payload (and the dentist payload at lines 92-102) is an object holding the token under `idToken` and the account's id under `userId` or `dentistId` |
| LoginHandler.LoginSuccess | src/loginHandler.js:50-66 | present fields, a login topic and a routed account whose hash the password matches: the answer is exactly one success payload for that account on the topic's own reply topic, with no password key |
| LoginHandler.LoginEnumerationResistant | src/loginHandler.js:31-49 | an unknown email and a wrong password get the identical reply on the same topic |
| LoginHandler.LoginTokenRole | src/loginHandler.js:51 | the user branch's token has role User, the dentist branch's role Dentist, with the account's id as audience and lifetime 360000 |
| LoginHandler.LoginReplyHidesPassword | src/loginHandler.js:53-102 | the user payload's keys lie within `idToken`, `firstName`, `lastName`, `email`, `userId`; the dentist payload's within `idToken`, `firstName`, `lastName`, `email`, `officeId`, `dentistId`; neither has a password key |
| Registration.RegistrationError | src/registrationHandler.js:30-74 | each error text is given exactly when its check is the first to fail, in the handler's order: office (dentist topic only), presence, email syntax, confirmation, length (8 passes, 7 fails), then 'Email is already in use' when the routed collection holds the email; no error exactly when every check passes and the email is free |
| Registration.NewAccount | src/registrationHandler.js:80-99 | the new document has the drawn id, the password's hash, no code, the request's names and email, and the office only on the dentist topic |
| Registration.RegistrationReplies | src/registrationHandler.js:103-136 | the dentist topic publishes the office and dentist id on the add-dentist topic, then the reply on its own topic; the user topic publishes one reply; the last reply holds status 'success' and the `signJWT` token of the new account |
| Registration.RegisterUser | src/registrationHandler.js:14-140 | `RegisterOutcome`: an error publishes one text on the register error topic and changes nothing; no free id or a taken email publishes nothing; otherwise exactly one new account (with the password's hash and a fresh id) is appended to the routed collection, the other collection is untouched, and the success replies go out; the unique email index and unique ids are kept |
| Registration.RegistrationCheckCoversInsert | src/registrationHandler.js:69-101 | on the registration topics a request that passes every check is always inserted |
| Registration.RegistrationRepliesProfile | src/registrationHandler.js:103-136 | the last reply holds the new account's `firstName`, `lastName` and `email` when defined and leaves each key out when undefined; on the dentist topic both replies do the same for `officeId` |
| Registration.RegistrationRepliesHidePassword | src/registrationHandler.js:106-136 | on the dentist topic the add-dentist message's keys lie within `officeId`, `dentistId` and the reply's within `status`, `firstName`, `lastName`, `email`, `officeId`, `idToken`; on the user topic the reply's within `status`, `firstName`, `lastName`, `email`, `idToken`; no reply has a password key |
| ResetPassword.CodeDigit | src/resetPassword.js:123 | each draw gives one decimal digit |
| ResetPassword.CodeOf | src/resetPassword.js:121-124 | a code has one digit per draw, in draw order |
| ResetPassword.GenerateCode | src/resetPassword.js:121-124 | the loop builds the code of the first six draws: six decimal digits |
| ResetPassword.IssuedCodeMatches | src/resetPassword.js:34 | a stored code is matched exactly by the same string, the number its digits spell, or `true`/`false` when that number is 1/0 |
| ResetPassword.ResetWithoutIssuedCode | src/resetPassword.js:34 | an account with no code is matched exactly by an absent or null `userCode` |
| ResetPassword.ResetReply | src/resetPassword.js:79-88 | the success reply goes to the request's reset topic: 'Reset successful' for dentists, the JSON status text for users |
| ResetPassword.AfterReset | src/resetPassword.js:55-77 | a reset stores the new hash, clears the code, and keeps id, names, email and office |
| ResetPassword.OwnEmailNotHeldByOther | src/resetPassword.js:55-65 | rewriting a document without changing its email never breaks the unique index |
| ResetPassword.ResetPassword | src/resetPassword.js:14-93 | `ResetOutcome`: unknown email, then code mismatch (loose `!=`), then a short password, then a topic that is not a reset topic each give their error and no change; a missing new password gives nothing; success rewrites only the found account (new hash, no code) and replies per kind |
| ResetPassword.CodeReplyTopic | src/resetPassword.js:107-147 | the send-code answer goes to the dentist reply topic exactly for the dentist send-code topic, and to the user reply topic for every other topic |
| ResetPassword.CodeKind | src/resetPassword.js:135-142 | the code is written to Dentist exactly for the dentist send-code topic, and to User otherwise |
| ResetPassword.SendEmailCode | src/resetPassword.js:95-155 | `SendCodeOutcome`: the same neutral reply whether or not the email is known; an unknown email sends no mail and changes nothing; a known one gets the six-digit code by mail, and only that document's code changes |
| ResetPassword.CodeStoredOnFoundAccount | src/resetPassword.js:105-142 | on the send-code topics the code is written to the document the lookup found |
| ModifyUser.VerifyIdToken | src/modifyUser.js:132-141 | verification succeeds exactly when the token verifies, and the user id is the audience |
| ModifyUser.SignedTokenLocatesAccount | src/modifyUser.js:38-41 | a `signJWT` token leads to the collection of its topic's kind and to the account's own id |
| ModifyUser.ComparePasswords | src/modifyUser.js:143-147 | no answer when either argument is missing; a match exactly when the password hashes to the stored digest |
| ModifyUser.UpdatedAccount | src/modifyUser.js:80-98 | the update writes names, email and password from the request (absent values included), the office for dentists; id and code are untouched |
| ModifyUser.NewDigest | src/modifyUser.js:70-75 | a new hash exists exactly when a non-empty new password is given, and that password matches it |
| ModifyUser.ModifyReply | src/modifyUser.js:116-125 | the success reply goes to the modify topic keyed by the token, with status 'Update successful' and the updated email |
| ModifyUser.ModifyReplyProfile | src/modifyUser.js:116-125 | the success reply holds the updated account's `firstName`, `lastName`, `email` and `officeId` when defined and leaves each key out when undefined |
| ModifyUser.ModifyReplyHidesPassword | src/modifyUser.js:116-125 | the success reply's keys lie within `updateStatus`, `firstName`, `lastName`, `email`, `officeId`: never a password |
| ModifyUser.ModifyUser | src/modifyUser.js:10-130 | `ModifyOutcome`: a missing token gives 'idToken is required'; a failed verification or uncastable audience gives nothing; then unknown account, short new password, and wrong old password each give their error and no change; success rewrites only that account; every reply topic is keyed by the token |
| Dispatch.Route | src/index.js:124-151 | each subscribed topic maps to exactly one handler; any other topic maps to none |
| Dispatch.SubscribedTopicsDistinct | src/index.js:77-87 | no topic is subscribed twice |
| Dispatch.HandlerTopicIndex | src/index.js:77-87 | for each handler, a position in the subscription list whose topic the switch hands to that handler |
| Dispatch.SubscriptionsMatchSwitch | src/index.js:77-87 | the nine subscribed topics are distinct, each is served by the switch, and every handler is reached by some subscribed topic |
| Dispatch.HandleRequest | src/index.js:124-151 | an unknown topic publishes nothing; only the send-code handler mails; login and verification change nothing and reply as their functions say; each writing route meets its handler's outcome predicate; a send-code request is always answered on the user reply topic |
| Dispatch.SendEmailCodeServesUsersOnly | src/index.js:142-143 | the send-code topic carries no kind, so the lookup, the stored code and the answer all use the User collection |

## Left out

- MQTT connection, subscription and publishing; the ODM connection; mail transport. Publishes and mails are returned as lists.
- The opossum circuit breaker around `handleRequest`. Only its settings (75%, 30000 ms, 7500 ms) are recorded, as `Dispatch` constants.
- Concurrency: handlers the dispatcher does not await, the unawaited `user.save()` in the reset, and interleaved requests. Each request runs to completion against one store.
- Token expiry and the clock. `verify` is any function, so an expired token is one it rejects.
- bcrypt salts. The model uses one deterministic `hash` per password.
- Non-string JSON values for string fields (a number as a password, say), and arrays or objects as fields. Fields are strings or absent, `officeId` is an integer, and only `userCode` keeps its JSON type.
- An explicit JSON `null` is treated the same as an absent field.
- `parseInt` of a draw small enough to print in exponent notation. Such a draw gives the digit `Math.floor` would not give.
- Floating-point rounding in the id draw. Draws are exact reals.
- Password length is counted in characters, not UTF-16 code units.
- Schema validation on save, such as the required fields and `minlength` of src/models/dentist.js:3-11.
- ModifyUser.ModifyUser: writes absent request fields as absent, which clears them. Whether the ODM clears or keeps an undefined value in an update depends on its version.
- ModifyUser.ModifyUser: the 'Update failed' branch is left out. `updateResult.save()` runs before the null check, so a null result throws first, and in a single-request store the document just found always exists.
- ResetPassword.SendEmailCode: the upsert of a code for an email missing from the written collection is left out. On every topic routed to this handler, the written collection is the one the lookup searched.
- ResetPassword.SendEmailCode: the error branch of its catch is left out. The catch names a `requestId` that is out of scope there, so it throws instead of publishing.
- ResetPassword.SendEmailCode: requires six draws, one per code digit.
- GenerateId.GenerateUniqueUserId: the source retries without bound. The model consumes a finite sequence of draws, and no result stands for a run still retrying. It also requires `length >= 1`, as registration's `length` of 10 meets.
- src/models/user.js is not part of this model. The User collection is given the same unique email index and `code` field as the dentist schema.
- src/register.js, which the dispatcher imports for registration, is not part of this model. src/registrationHandler.js is modelled instead.
- The generator src/helpers/generateId.js, which src/registrationHandler.js imports, is not part of this model. helpers/generateId.js is modelled instead.
- Log output, and the payload logging done before parsing.
- Js.ToNumber: only digit strings and the empty string are read as numbers. JavaScript's `Number` also reads signs, surrounding blanks, hexadecimal and exponent forms; the stored value it is applied to is always a code of six digits, so those forms never reach it.
- Js.CastToId: only canonical digit audiences are cast. The ODM's Number cast also accepts signed, blank-padded and exponent forms, and casts the empty string to null; tokens of this service always carry the decimal text of an id.
- ModifyUser.ModifyUser: for a verified token whose audience is the empty string, the source looks up a null id and publishes 'User not found', and for a non-canonical number form (' 12', '1e1') it looks up that number; the model publishes nothing and changes nothing for both. No token the service signs has such an audience.
- One `id` field stands for both `userId` and `dentistId`, so `signJWT` called on a document of the other kind (the `toString()` of an undefined id at src/helpers/JWTHandler.js:71 or 84 throws) is not modelled. No caller in the service passes a document of the other kind.
