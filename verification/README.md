# Authentication handlers with one-time passcodes

This project models the authentication blueprint of a small Flask backend
(`controllers/auth_controller.py`). The blueprint has five handlers:

- registration, which adds a user and issues a one-time passcode (OTP);
- password login;
- profile lookup;
- requesting a fresh OTP;
- verifying an OTP, which trades it for an access token.

Each handler is a short chain of guards that ends in an HTTP status, a JSON
body and a change to the database.

The database is a value `Store.Db`. It holds the users table, the OTP table
and the next primary key of each. `.query.filter_by(...).first()` is
`Store.FindFirst`: the index of the first row that satisfies the filter.
`db.session.delete(row)` is `Store.RemoveAt`. `generate_otp` is
`Store.IssueOtp`: it appends one OTP row for the given user, and the code and
expiry it picks are inputs. Primary keys come from counters that start at 1.
`Store.Consistent` is the invariant the handlers keep:

- primary keys are distinct and below the next key;
- usernames are unique, and so are e-mails;
- every OTP row belongs to an existing user.

`Handlers` gives each handler as a function from the store before the request
to the response and the store after it. The guards run in the source's order
and the messages are the source's. A request field is `None` when the JSON
body lacks it. A field counts as given only when it is present and non-empty,
which is Python's truthiness of a string. Time is an integer clock reading,
and an OTP is expired when `expiresAt < now`. `set_password` is a
`hash: string -> string` argument and `check_password` is a
`check: (string, string) -> bool` argument. A token is modelled only by the
user id it was minted for.

Three handlers change the database: register, request-otp and verify-otp.
In `AuthController`, the class `AuthStore` holds the two tables as sequence
fields, and these three handlers are methods on it. Each method adds or
deletes rows step by step, as the controller does. Each is proved to produce
exactly the response and store that the matching `Handlers` function gives,
and to keep `Consistent`. Login and profile only read, so they are functions
over the store. `Properties` holds lemmas about sequences of requests.

One point differs from what the OTP flow is meant to guarantee, and the
model follows the code. The flow is meant to accept a given e-mail and code
at most once. The code guarantees this per OTP row, not per code. Nothing
stops `generate_otp` from giving one user the same code
twice, and then each of the two rows is accepted once
(`Properties.SameCodeVerifiesOncePerRow`). Single use therefore holds when no
second row carries the same user and code (`Properties.VerifySingleUse`). In
general, each verification that matches a row uses up exactly one of them
(`Properties.VerifyConsumesOneRecord`).

## Model

| member | source | states |
|---|---|---|
| `Store.FindFirst` | controllers/auth_controller.py:110 | `.first()`: the result is an index whose element satisfies the filter, no earlier element does, and None means no element does |
| `Store.UserWithUsername` | controllers/auth_controller.py:25 | the username lookup finds a row with that username, and finds none exactly when no user has it |
| `Store.UserWithEmail` | controllers/auth_controller.py:56 | the e-mail lookup yields the first user with that e-mail, and nothing exactly when no user has it |
| `Store.UserWithId` | controllers/auth_controller.py:69 | the primary-key lookup finds a user with that id, and finds none exactly when no user has it |
| `Store.OtpFor` | controllers/auth_controller.py:114 | the OTP lookup yields the first row with that user id and code, and nothing exactly when no such row exists |
| `Store.RemoveAt` | controllers/auth_controller.py:124 | deleting a row removes exactly that row: the others stay, in order, and the multiset loses just the deleted row |
| `Store.CountMatching` | controllers/auth_controller.py:114 | the number of rows with a given user id and code is zero exactly when the lookup would find none |
| `Store.CountAfterRemoveAt` | controllers/auth_controller.py:119-120 | deleting a row lowers the count of its (user, code) pair by one and leaves every other pair's count alone |
| `Store.IssueOtp` | controllers/auth_controller.py:93 | issuing keeps every existing OTP row and the users, and appends one row with a fresh id, the given user, code and expiry |
| `Store.IssueOtpCounts` | controllers/auth_controller.py:93 | issuing adds exactly one row for the user's (id, code) pair and none for any other pair |
| `Store.IssueOtpKeepsConsistent` | controllers/auth_controller.py:38 | issuing an OTP for an existing user keeps the store consistent |
| `Handlers.Register` | controllers/auth_controller.py:16-45 | a missing or empty field gives 400 "All fields are required"; a taken username gives "Username already exists", even if the e-mail is also taken; a taken e-mail alone gives "Email already exists"; in these three cases the store is unchanged; status 201 occurs exactly when every field is given and both are free, and then exactly one user with the given username and e-mail and the next id is added, and one OTP for that id is issued |
| `Handlers.Login` | controllers/auth_controller.py:48-62 | a missing e-mail or password gives 400; an unknown e-mail gives 401; otherwise 200 with a token for the first user with that e-mail if the password check holds, and 401 if it does not; the result is only a response, so the store cannot change |
| `Handlers.Profile` | controllers/auth_controller.py:67-78 | an unknown id gives 404 "User not found"; a known id gives 200 with that user's id, username and e-mail |
| `Handlers.RequestOtp` | controllers/auth_controller.py:81-98 | a missing e-mail gives 400, and an unknown one gives 404, both with the store unchanged; otherwise 200 and exactly one OTP issued for the first user with that e-mail; no existing OTP row is ever removed, and the users never change |
| `Handlers.VerifyOtp` | controllers/auth_controller.py:102-129 | the checks apply in order: a missing e-mail or code gives 400; an unknown e-mail gives 404; no row for the user and code gives 400 "Invalid OTP"; the store is unchanged on all three; otherwise exactly the first matching row is deleted, and the response is 400 "OTP expired" if its expiry is strictly before now, else 200 with a token for that user (expiry equal to now is accepted); users are never changed |
| `Handlers.RegisterKeepsConsistent` | controllers/auth_controller.py:25-35 | registration keeps ids, usernames and e-mails unique and every OTP owned by an existing user |
| `Handlers.RequestOtpKeepsConsistent` | controllers/auth_controller.py:88-93 | requesting an OTP keeps the store consistent |
| `Handlers.VerifyOtpKeepsConsistent` | controllers/auth_controller.py:118-125 | verification keeps the store consistent, including distinct OTP ids after a deletion |
| `AuthController.AuthStore.GenerateOtp` | controllers/auth_controller.py:38 | for an existing user, the tables become those of issuing one OTP, the given code is returned, and consistency is kept |
| `AuthController.AuthStore.Register` | controllers/auth_controller.py:16-45 | the guards run in order, then the user row is added and an OTP is generated; response and new tables are exactly those of `Handlers.Register`, and consistency is kept |
| `AuthController.AuthStore.RequestOtp` | controllers/auth_controller.py:81-98 | response and new tables are exactly those of `Handlers.RequestOtp`, and consistency is kept |
| `AuthController.AuthStore.VerifyOtp` | controllers/auth_controller.py:102-129 | the matched row is deleted on both the expired and the accepted path; response and new tables are exactly those of `Handlers.VerifyOtp`, and consistency is kept |
| `Properties.VerifyConsumesOneRecord` | controllers/auth_controller.py:114-125 | once the user is found, the verification ends in success or "OTP expired" exactly when a row for (user, code) exists, and then one such row is gone; otherwise it gives "Invalid OTP" and nothing changes |
| `Properties.VerifySingleUse` | controllers/auth_controller.py:114-125 | after a verification that succeeded or found the code expired, repeating it at any time gives "Invalid OTP", provided no other row for that user carried the same code |
| `Properties.RequestOtpKeepsEarlierCodes` | controllers/auth_controller.py:93 | a code that would be accepted is still accepted, with the same token, after any request-otp |
| `Properties.RegisterThenLogin` | controllers/auth_controller.py:31-60 | after a successful registration, login with the same e-mail and password returns a token for the new user's id, provided the password check accepts the stored hash |
| `Properties.RegisterRequestVerifyTwice` | controllers/auth_controller.py:31-129 | from a consistent store, this sequence gives 201, 200, a token for the new user, then "Invalid OTP": register, request a second, different code, verify it before it expires, verify it again |
| `Properties.SameCodeVerifiesOncePerRow` | controllers/auth_controller.py:114-125 | if the registration code and a requested code coincide, the same (e-mail, code) verifies successfully twice, once per row |

## Left out

- `controllers/notes_controller.py` (the notes handlers) is not part of this model. It is plain create/read/update/delete on the notes table with no logic of its own.
- Generating the code: `config/otp_utility.py` is not part of this model. The code and expiry are inputs, and nothing is claimed about their format, their lifetime or their randomness.
- Password hashing: `models.auth` is not part of this model. Hashing and checking are function arguments, and nothing links them except the hypothesis of `Properties.RegisterThenLogin`.
- Access tokens: a token is only the user id it names. The model leaves out minting, signing and expiry. It also leaves out how `@jwt_required` rejects a missing or invalid token. `Handlers.Profile` receives a token that has already been accepted.
- Sending e-mail and the debug print of the code are I/O. So is a delivery failure raised after the commit, which would leave the new user and their OTP stored behind an error response.
- Requests and clock: HTTP and JSON framing, and request bodies that are not JSON objects or whose fields are not strings, are left out. The clock is an integer parameter in place of `datetime.utcnow()`.
- Each handler is one atomic step. Concurrent requests, so two verifications racing on one code, are not modelled.
- Database behaviour beyond the handlers is left out. That covers column constraints of the models, storage failures and the reuse of deleted row ids. Usernames and e-mails are unique because of the register checks, which the model proves.
