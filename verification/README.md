# Credential lifecycle of the Notes Management System user model

This project models the two static methods of the backend's Mongoose user model,
`userSchema.statics.signup` and `userSchema.statics.login`. It proves what they promise
about the users collection.

**Signup** runs a short-circuiting chain of checks:

1. all four fields are present;
2. the email has a valid format;
3. the password equals its confirmation;
4. the password is strong;
5. the confirmation is strong;
6. no user already has the email.

It then hashes both password fields with one bcrypt salt and inserts a document.

**Login** runs three steps:

1. it checks that the email and password are present;
2. it looks the user up by email;
3. it compares the password with bcrypt against the stored `password` hash.

The files are:

- `wrappers.dfy`: `Option` and `Result`. A thrown `Error(message)` becomes `Err(message)`.
- `collaborators.dfy`: the libraries the model calls, `validator` and `bcrypt`. They are
  passed in as function values (`Validator`, `Bcrypt`). The one property of bcrypt that
  the model relies on is `CompareAcceptsOwnHash`: a plaintext matches every hash made
  from it.
- `user_model.dfy`: the schema (`User`), and the collection as an immutable map from
  email to user (`Store`). It also holds `signup` and `login` as pure functions.
  `WellKeyed` is the uniqueness invariant: every record sits under its own email.
- `user_model_properties.dfy`: properties that relate checks to their order, or several
  calls to each other. It includes histories of requests (`Run`).
- `as_written.dfy`: `signup` as line 67 is actually written (see Findings).

Modelling choices:

- JavaScript's `!x` on a request field is modelled as "the string is empty". A missing
  (`undefined`) field is treated the same way.
- The salt from `bcrypt.genSalt(10)` is an input to `Signup`.
- `Login` has no collection output, so it cannot change the collection.

As the code does, both password fields are hashed and stored, the confirmation's
strength is checked a second time, and login reports `Incorrect email` and
`Incorrect password` as distinct errors.

## Model

| member | source | states |
|---|---|---|
| UserModel.FindOne | backend/models/userModel.js:54 | On a well-keyed collection, the lookup by email finds a record exactly when some record's email field equals the email, and the record found carries that email. |
| UserModel.FailedCheck | backend/models/userModel.js:35-58 | The chain reports nothing exactly when every check passes. It reports a check that fails, and every check earlier in source order passes. The second strength check (on the confirmation) is never the one reported. |
| UserModel.Signup | backend/models/userModel.js:28-72 | Signup fails exactly when some check fails. On failure it returns the message of the first failing check and leaves the collection unchanged. On success the email was absent before, and exactly one record is added, under that email. Every other record is unchanged and the size grows by one. The new record's password is `hash(password, salt)` and its stored confirmation hash equals it. One record per email is preserved. |
| UserModel.Login | backend/models/userModel.js:75-91 | Login fails with "All fields must be filled" exactly when the email or password is empty. Otherwise it fails with "Incorrect email" exactly when the collection has no entry for the email, which on a well-keyed collection means no record has that email field. Otherwise it fails with "Incorrect password" exactly when compare rejects the stored hash. It succeeds exactly otherwise, and returns the stored record for that email. |
| UserModelProperties.FirstFailingCheckIsReported | backend/models/userModel.js:35-58 | Converse of FailedCheck: a failing check whose earlier checks all pass is the one reported. So the error is exactly the first failure in the fixed order. |
| UserModelProperties.MissingFieldReportedFirst | backend/models/userModel.js:35-37 | If any of the four fields is empty, signup fails with "All fields must be filled", whatever else holds, and the collection is unchanged. |
| UserModelProperties.MismatchRejected | backend/models/userModel.js:42-44 | For a complete form with a valid email, differing password and confirmation fail with "Passwords not match", whatever their strength, and the collection is unchanged. |
| UserModelProperties.TakenEmailRejected | backend/models/userModel.js:54-58 | If some record already carries the email and the form passes every validation, signup fails with "Email already in use" and the collection is unchanged. |
| UserModelProperties.LoginAfterSignup | backend/models/userModel.js:60-68 | Assumes bcrypt's compare accepts every hash of the plaintext. Then a successful signup followed by a login with the same email and password returns the created record. |
| UserModelProperties.SecondSignupSameEmail | backend/models/userModel.js:54-58 | After a successful signup, a second signup with the same email fails and changes nothing, whatever its other fields and salt. If the second form is otherwise valid, the error is "Email already in use". |
| UserModelProperties.RunPreservesWellKeyed | backend/models/userModel.js:12-16 | Across any sequence of signups and logins, every record stays under its own email, so no email has two records. |
| UserModelProperties.RunKeepsRecords | backend/models/userModel.js:64-69 | No sequence of signups and logins removes or alters an existing record. |
| UserModelProperties.LoginSucceedsAfterAnyHistory | backend/models/userModel.js:80-90 | Once a signup has succeeded, a login with its email and password succeeds after any later requests. It returns the record that signup created. |
| AsWritten.SignupAsWritten | backend/models/userModel.js:64-69 | With line 67 as written, signup never changes the collection. It rejects the forms the corrected signup rejects, with the same messages. Every form the corrected signup accepts fails with "hash is not defined". |
| AsWritten.RunAsWrittenKeepsStore | backend/models/userModel.js:67 | With line 67 as written, no sequence of requests adds a user. |
| AsWritten.AsWrittenNoLoginEverSucceeds | backend/models/userModel.js:80-83 | With line 67 as written, starting from an empty collection, every complete login fails with "Incorrect email", whatever requests came before. |
| AsWritten.AsWrittenLosesValidSignup | backend/models/userModel.js:61-67 | Concrete input ("Ada", "ada@example.com", "Str0ng!Pass" twice): the corrected signup creates the account and a login with it succeeds. The signup as written throws and leaves the collection empty. |

## Left out

- HTTP routing, request logging and the MongoDB connection (`backend/server.js`): plumbing with no logic.
- The signup hook in `frontend/src/hooks/useSignup.js`: network and UI state. It sends extra fields that the backend signup ignores.
- How `validator.isEmail`, `validator.isStrongPassword`, `bcrypt.hash` and `bcrypt.compare` work: they are not visible. They are function parameters, and only compare-accepts-own-hash is assumed.
- The random salt of `bcrypt.genSalt` and its cost factor of 10: the salt is an input.
- Mongoose specifics: document ids, the schema's `required` enforcement at insert, `async`/`await`, and exceptions as a mechanism. Errors are `Err(message)` values.
- The unique index on email: it is modelled by keying the collection on email, not by an index that rejects a duplicate insert.
- Concurrency: two simultaneous signups for one email can both pass `findOne` before either `create`. The model serves requests one at a time.
- Hash output properties. Never equal to the plaintext: nothing checks this. Never empty: only the schema's `required` validator (userModel.js lines 17-24) would catch an empty hash at `create`, and that enforcement is left out above.
- Request fields are assumed to be strings. Non-string JSON values are outside the model, including a numeric `0` (for which `!x` holds) and query-operator objects passed to `login` that would reach `findOne` as operators.

## Findings

| source | as written | input that shows it | evidently intended | confidence | as-written member | corrected member |
|---|---|---|---|---|---|---|
| backend/models/userModel.js:67 | `password: hash` reads an identifier that is never declared, so building the document throws a ReferenceError before `create`. No user is ever inserted, and starting from an empty collection no login can ever succeed. | `signup("Ada", "ada@example.com", "Str0ng!Pass", "Str0ng!Pass")` on an empty collection, with validators that accept it | `password: hashPassword`, the hash computed at line 61 | high; not executed | AsWritten.SignupAsWritten | UserModel.Signup |
