# Cleaning-service booking backend: a verified model

This project models the logic of a small Express/MongoDB backend for booking a
cleaning service. Users sign up and log in with JWT sessions, reset forgotten
passwords through an e-mailed one-time token, and create and manage bookings
that belong to them. The HTTP layer, the database and the mail transport are
not modelled. What is modelled is the decision logic of each handler and the
store write it makes:

- **Authentication** (`Auth`, routes/auth.js). The class `AuthStore` holds the
  user documents in a `map<Id, User>`. Its methods `Signup`, `Login`,
  `ForgotPassword` and `ResetPassword` are the four routes. Each method is an
  early-return chain of checks followed by at most one write, and each returns
  the status code and message the route sends. Passwords are stored only as
  `PasswordHash` values. Reset tokens are stored only as `Digest` values with
  an expiry. A ghost `outbox` records the reset e-mails sent. A ghost `issued`
  set records every reset digest ever handed out.
- **Session guard** (`Guard`, middleware/authMiddleware.js). `Protect` maps an
  optional `Authorization` header, the token verifier and the user map to one
  of three 401 rejections, or to `Next(user)`. `Next` carries the stored user
  without the password hash, which is what gets attached to the request.
- **Booking schema** (`BookingModel`, models/Booking.js). `New` builds a
  document the way the schema's setters and defaults do. `Conforms` is what
  validation on `save()` accepts.
- **Booking routes** (`Bookings`, routes/bookings.js). The class
  `BookingStore` holds the bookings in a `map<Id, Booking>`. It has one method
  per route: `Create`, `ListOwn`, `Get`, `UpdateStatus`, `PutById` and `Cancel`.
- **String built-ins** (`Text`). Models of JavaScript's `split`, `startsWith`,
  `trim` and `toLowerCase`, which the guard and the schema depend on.

Crypto and other outside inputs become plain parameters or symbolic terms:

- bcrypt (the `bcryptjs` package) is `PwHash(password, salt)` and `PwVerify`.
  The key bcrypt derives from a password is modelled exactly: the password's
  UTF-8 bytes and a zero byte, repeated cyclically to 72 bytes. So passwords
  that agree on their first 72 UTF-8 bytes are interchangeable. The cipher on
  top of that key is a free constructor. The random salt is a parameter.
- SHA-256 is `Sha`, a free constructor (symbolic crypto), so two digests are
  equal exactly when their inputs are.
- `crypto.randomBytes` is the `raw` parameter of `ForgotPassword`. Its
  randomness is modelled as freshness: `Sha(raw)` must not be in `issued`.
- `jwt.sign` is the store's injected function `sign: Id -> string`.
- `jwt.verify` (with the server secret, at the time of the request) is the
  `verify: string -> Option<Id>` parameter of `Protect`.
- `Date.now()` is the `now` parameter.
- Whether `sendEmail` succeeds is the `delivered` parameter.

Consequences of the code that the model makes explicit:

- Emails are matched exactly as given by `User.findOne({ email })`. The User
  model is not part of this model, so `EmailsUnique` is about exact equality.
  Sequential signup keeps it.
- The guard only reads. The user it attaches holds every stored field except
  the password, because `.select('-password')` removes only that one. So the
  reset-token digest and its expiry are attached too. `PasswordNeverAttached`
  and `ProtectIgnoresPasswords` state what is excluded.
- `PUT /:id` checks neither the owner nor the status. `PutById` does the same,
  and `StrangerOverwritesStatus` shows another user writing an arbitrary
  status through it.
- In forgot-password, the new reset token is saved before the mail is sent.
  So when sending fails, `ForgotPassword` returns 500 with the token already
  stored. That 500 is also the one reply that tells a registered email apart
  from an unknown one.

## Model

| member | source | states |
|---|---|---|
| `Crypto.Utf8` | routes/auth.js:35 | `Buffer.from(password, 'utf8')`, the first step of bcrypt's key derivation: at least one byte per character, and no zero byte for a string without NUL; `Utf8Append` and `Utf8Injective` give its round-trip properties |
| `Crypto.BcryptKey` | routes/auth.js:35 | the 72 bytes of key material bcryptjs derives from a password (its UTF-8 bytes and a zero byte, repeated cyclically); `BcryptTruncates` and `BcryptDistinguishesShort` say which passwords share a key |
| `Crypto.PwHash` | routes/auth.js:35 | `bcrypt.hash(password, salt)`: the hash keeps its salt and the 72-byte key (also line 165); `PwVerifyHash` states that compare accepts the hashed password |
| `Crypto.PwVerify` | routes/auth.js:67 | `bcrypt.compare`: rehash the candidate under the stored salt; `PwVerifyHash` states exactly which candidates it accepts, and that it accepts the original password |
| `Crypto.Sha` | routes/auth.js:96 | `createHash('sha256')...digest('hex')` on the raw reset token, deterministic so that reset-password (line 154) can look the user up by it; `ShaInjective` |
| `Crypto.ShaInjective` | routes/auth.js:154-157 | two raw tokens have the same digest exactly when they are equal, so a lookup by the digest of a token matches only what was stored for that token |
| `Crypto.Utf8CharDecodes` | routes/auth.js:35 | the UTF-8 encoding of a character announces its own length in its lead byte and decodes back to the character |
| `Crypto.Utf8Append` | routes/auth.js:35 | the UTF-8 encoding of a concatenation is the concatenation of the encodings |
| `Crypto.Utf8Injective` | routes/auth.js:35 | different strings have different UTF-8 encodings |
| `Crypto.PwVerifyHash` | routes/auth.js:67 | bcrypt's compare accepts a candidate exactly when it derives the same 72-byte key as the password the hash was made from, under any salt; and it always accepts that password |
| `Crypto.BcryptTruncates` | routes/auth.js:67 | once a password's UTF-8 form reaches 72 bytes, whatever follows is ignored: the hash of `p + y` accepts `p + x` |
| `Crypto.BcryptDistinguishesShort` | routes/auth.js:67 | for passwords under 72 UTF-8 bytes without a NUL character, the hash of one accepts exactly that one |
| `Auth.AuthStore.Signup` | routes/auth.js:23-47 | a missing email or password gives 400 "Please provide email and password" and an email already stored gives 400 "Email already registered", both with the store unchanged; otherwise exactly one user is added under the next id, holding `PwHash(password, salt)` and no reset fields, and the reply is 201 with `{id, email}` and the token `sign(id)` (signToken, lines 12-16); the store invariant (unique emails, unique reset digests, paired reset fields) is kept |
| `Auth.AuthStore.Login` | routes/auth.js:59-72 | reads only; missing fields give 400 "Please provide email and password"; an unknown email and a wrong password both give the same 400 "Invalid credentials"; matching credentials give 200 "Logged in" with the user's `{id, email}` and `sign(id)` |
| `Auth.AuthStore.ForgotPassword` | routes/auth.js:84-136 | a missing email gives 400; an unknown email gives the generic 200 message with nothing changed; a registered one changes only that user: the reset digest becomes `Sha(raw)` and the expiry `now + 3600000`, the earlier token of that user then matches nobody, and a mail with the raw token goes to the user's address; the reply is the same generic 200 when delivery succeeds, and 500 (with the token already saved) when it fails |
| `Auth.AuthStore.ResetPassword` | routes/auth.js:148-170 | a missing password gives 400 before any lookup; if no user has digest `Sha(raw)` with expiry strictly after `now`, the reply is 400 "Invalid or expired token" with nothing changed; otherwise that user alone gets `PwHash(new, salt)` with both reset fields cleared, and afterwards no user holds `Sha(raw)` |
| `Auth.AddUserKeepsValid` | routes/auth.js:30-39 | storing a user whose email is not yet registered, with no reset fields, under the next id keeps the store invariant, and that id was free |
| `Auth.SetResetKeepsValid` | routes/auth.js:94-100 | giving one user a never-issued reset digest with an expiry keeps the store invariant, and the digest that user held before is then held by nobody |
| `Auth.ClearResetKeepsValid` | routes/auth.js:164-168 | replacing one user's password and clearing both reset fields keeps the store invariant, and the digest that user held is then held by nobody |
| `Auth.Registered` | routes/auth.js:30 | `User.findOne({ email })` finds a user (also lines 64 and 89); the check partnering it is `Signup`'s contract, which keeps emails unique |
| `Auth.ResetMatches` | routes/auth.js:156-159 | the reset query: the stored digest is the request token's digest and the expiry is strictly after `now`; `ResetPassword` and `SecondRequestSupersedesFirst` state what follows from it |
| `Auth.AuthStore.SignupThenLogin` | routes/auth.js:23-72 | on any valid store: signing up with an unregistered email and then logging in with the same credentials gives 201 and then 200, both naming the new id and `sign(id)`; a registered email is refused with "Email already registered" and nothing changes |
| `Auth.PasswordResetFlow` | routes/auth.js:84-170 | on a new store, signup, then forgot-password, then a reset within the hour succeeds; after it, the old password is refused with "Invalid credentials" (when the two passwords derive different bcrypt keys, as `BcryptDistinguishesShort` gives for short ones), the new one is accepted, and replaying the token fails |
| `Auth.SecondRequestSupersedesFirst` | routes/auth.js:94-100 | after two forgot-password requests, the first token is refused, the second is refused once its hour is over, and the second is accepted inside the hour |
| `Guard.WithoutPassword` | middleware/authMiddleware.js:16 | `findById(id).select('-password')`: the stored user with every field but the password hash; `PasswordNeverAttached` states that the hash never reaches the result |
| `Guard.PasswordNeverAttached` | middleware/authMiddleware.js:16 | the attached user does not depend on the stored password hash |
| `Guard.ProtectIgnoresPasswords` | middleware/authMiddleware.js:5-24 | changing any user's stored password hash changes nothing the guard decides or attaches |
| `Guard.BearerToken` | middleware/authMiddleware.js:12 | `split(' ')[1]` of a header starting with "Bearer "; `BearerTokenIsSecondField` and `BearerTokenOf` say which text that is |
| `Guard.Protect` | middleware/authMiddleware.js:5-24 | an absent header, or one not starting with "Bearer ", gives 401 "Not authorized, token missing"; otherwise the second space-separated field goes to `verify`; a failed verification gives 401 "Not authorized"; an id not in the store gives 401 "User not found"; otherwise `Next` carries that stored user without the password; every rejection is a 401 |
| `Guard.BearerTokenIsSecondField` | middleware/authMiddleware.js:12 | the token checked is the header's text after "Bearer " up to the next space |
| `Guard.BearerTokenOf` | middleware/authMiddleware.js:12-13 | a header "Bearer " + t, where t has no space, hands exactly t to verification |
| `Guard.ProtectBindsUser` | middleware/authMiddleware.js:13-19 | whenever the guard lets a request through, the header had the Bearer form, the verified id is in the store, and the attached user is that id's record |
| `Guard.SignedTokenAuthorizes` | middleware/authMiddleware.js:12-19 | a token `sign(id)` that `verify` maps back to `id` and that has no space authorizes exactly user `id` when stored, and is refused with "User not found" otherwise |
| `Guard.BareTokenRefused` | middleware/authMiddleware.js:8-10 | a token sent without the "Bearer " prefix is refused as missing |
| `Text.StartsWith` | middleware/authMiddleware.js:8 | `startsWith`: the prefix is the start of the string; `BareTokenRefused` and `SignedTokenAuthorizes` use it |
| `Text.Split` | middleware/authMiddleware.js:12 | `split(' ')` gives at least one field, at least two when the separator occurs; no field contains the separator; joining the fields gives back the string |
| `Text.SplitJoin` | middleware/authMiddleware.js:12 | splitting the join of separator-free fields gives back those fields |
| `Text.Trim` | models/Booking.js:8-10 | the trimmed string has no white space at either end and is a middle part of the input, with only white space cut away on both sides |
| `Text.TrimEmpty` | models/Booking.js:8-10 | trimming leaves nothing exactly when the string is all white space |
| `Text.TrimIdempotent` | models/Booking.js:8-10 | trimming twice is trimming once |
| `Text.Lower` | routes/bookings.js:46 | `toLowerCase` keeps the length and maps every character through the ASCII-letter mapping (also models/Booking.js:10) |
| `Text.LowerIsLowerCase` | models/Booking.js:10 | the lower-cased string has no upper-case letter, and lower-casing again changes nothing |
| `Text.LowerTrimCommute` | models/Booking.js:10 | lower-casing and trimming commute, so the order of the email setters does not matter |
| `BookingModel.New` | models/Booking.js:4-43 | a new document keeps the owner, has status "pending" and `createdAt = now`, has trimmed names, and has a trimmed lower-case email; the other fields are kept as given |
| `BookingModel.Conforms` | models/Booking.js:5-37 | what validation on `save()` accepts: non-empty required strings, room counts in [1, 4], the two enums, a price, and a status in its enum; `NewConforms` and `StatusChangeConforms` characterize it |
| `BookingModel.NewConforms` | models/Booking.js:5-31 | a new document passes validation exactly when: names and email are not all white space, bedrooms and bathrooms are given and in [1, 4], service type and frequency are given and in their enums, and a price is given |
| `BookingModel.StatusChangeConforms` | models/Booking.js:33-37 | changing the status of a valid document keeps it valid exactly when the new status is pending, done or cancelled |
| `Bookings.Draft` | routes/bookings.js:51-63 | the document POST / builds: owned by the caller, "pending", created now, trimmed names, trimmed lower-case email, the other fields as given; a zero or absent scheduled date is not stored, and `phone` is not kept |
| `Bookings.InsertNewestFirst` | routes/bookings.js:84 | putting an entry into a newest-first list adds exactly that entry (as multisets), keeps the order newest first, and keeps ids distinct |
| `Bookings.BookingStore.Create` | routes/bookings.js:16-72 | checks in order: names and email present (400), then service type and frequency present (400), then the caller's email equals the lower-cased email (403); a document that fails validation gives 500; any failure saves nothing; success adds exactly one booking, the `Draft` of the request (so a zero or absent scheduled date is not stored), owned by the caller, and returns 201 with it; the store stays all-valid |
| `Bookings.BookingStore.Insert` | routes/bookings.js:67 | `save()` of a valid new document stores it under a fresh id and changes nothing else, keeping the store all-valid |
| `Bookings.BookingStore.ListOwn` | routes/bookings.js:79-85 | reads only; returns every booking whose owner is the caller and no other, each once, with its stored value, ordered by `createdAt` descending, which is also the order of the index `{user: 1, createdAt: -1}` (models/Booking.js:46) |
| `Bookings.BookingStore.Get` | routes/bookings.js:101-113 | reads only; an unknown id gives 404, another user's booking gives 403, and only the owner receives the booking |
| `Bookings.BookingStore.UpdateStatus` | routes/bookings.js:123-146 | checks existence (404), then ownership (403), then that the status is pending, done or cancelled (400); success changes only that booking's status and keeps the store all-valid |
| `Bookings.BookingStore.PutById` | routes/bookings.js:151-169 | only an unknown id is refused (404); for any caller, the booking's status becomes the given value, with no ownership check and no enum check |
| `Bookings.BookingStore.Cancel` | routes/bookings.js:177-194 | unknown id gives 404; a non-owner gets 403; the owner's booking gets status "cancelled" and nothing else changes; cancelling an already cancelled booking leaves the store as it was |
| `Bookings.StrangerOverwritesStatus` | routes/bookings.js:123-169 | after an owner creates a booking, another user is refused by `PUT /:id/status` but can set any status through `PUT /:id` |

## Left out

- server.js (bootstrapping, CORS, `listen`, and the `/api/auth/me` echo of `req.user`), config/db.js and the mail transport in utils/sendEmail.js: these are framework wiring and I/O. A sent mail is a ghost `Mail` entry in `outbox`.
- The HTML body of the reset mail and all console logging.
- The User model is not part of this model. Emails are stored and compared verbatim, and case-insensitive uniqueness is not claimed.
- Concurrency: the handlers run one at a time, so signup's check-then-insert race does not arise.
- Store, signing and casting failures, and the 500 replies they cause, are not modelled: the store never fails. Two 500 paths are modelled because they follow from modelled state: a failed mail delivery in forgot-password, and a booking that fails schema validation on save.
- JWT internals: the 7-day expiry, the `iat` claim and the signature are inside `sign` and `verify`. So two logins by the same user give the same token in the model.
- Request bodies are modelled with string and integer fields only. Other JSON values are not modelled. Examples are `false` and `0`, which the `!field` checks also treat as missing, and query-operator objects such as `{"$ne": null}`, which pass those checks and go into `User.findOne` as a query.
- The bcrypt cipher, SHA-256 and `randomBytes`. Hashes are symbolic, and the freshness of a random token is an assumption of `ForgotPassword`. That token's 64-hex-character format is not modelled.
- Numbers are modelled as integers. Fractional `Number` values and Mongoose's casting of strings to numbers or dates are not modelled.
- Crypto.PwVerifyHash: the key derivation is that of hash version 2a, which bcryptjs 2.x generates. Strings are sequences of Unicode scalar values, so lone UTF-16 surrogates in a password are not modelled. Collisions of the cipher itself are not modelled.
- `toLowerCase` is modelled on ASCII letters only. `trim` uses the full set of JavaScript white-space characters.
- Bookings.BookingStore.PutById: a request without a `status` is not modelled. What the update does then depends on Mongoose's update semantics.
- Validation is not re-run when `save()` follows a status change in `UpdateStatus` and `Cancel`. The status written there is always an enum value.
- Bookings.BookingStore.ListOwn: it does not fix the order of bookings with equal `createdAt`, because the query's sort does not either.
- The `phone` field of a booking request is read but not stored, since the schema does not declare it.
