/** The user model: the user schema and its two static methods, `signup` and `login`,
    over an immutable users collection. */
module UserModel {
  import opened Wrappers
  import opened Collaborators

  /** A user document. All four schema fields are required strings; after a signup the
      two password fields hold bcrypt hashes, never plaintext. */
  datatype User = User(name: string, email: string, password: string, confirmPassword: string)

  /** The users collection, indexed by email (the schema declares email unique). */
  type Store = map<string, User>

  /** Every record sits under its own email, so no email has two records. */
  predicate WellKeyed(store: Store)
  {
    forall e :: e in store ==> store[e].email == e
  }

  /** JavaScript's `!x` on a request field: the field is missing or the empty string. */
  predicate Missing(s: string)
  {
    s == ""
  }

  /** `findOne({ email })`: the record whose email field equals `email`, if any. */
  function FindOne(store: Store, email: string): (found: Option<User>)
    ensures WellKeyed(store) ==>
              (found.Some? <==> exists u :: u in store.Values && u.email == email)
    ensures WellKeyed(store) && found.Some? ==> found.value.email == email
    ensures found.Some? ==> found.value in store.Values
  {
    if email in store then Some(store[email]) else None
  }

  // ---------------------------------------------------------------------------------
  // signup
  // ---------------------------------------------------------------------------------

  /** The four arguments of `signup`. */
  datatype SignupForm = SignupForm(name: string, email: string, password: string, confirmPassword: string)

  /** The checks `signup` makes before it writes, one per `throw`. */
  datatype SignupCheck =
    | AllFieldsFilled
    | EmailValid
    | PasswordsMatch
    | PasswordStrong
    | ConfirmPasswordStrong
    | EmailUnused

  /** The position of each check in the order the source runs them. */
  function Rank(c: SignupCheck): nat
  {
    match c
    case AllFieldsFilled => 0
    case EmailValid => 1
    case PasswordsMatch => 2
    case PasswordStrong => 3
    case ConfirmPasswordStrong => 4
    case EmailUnused => 5
  }

  /** What each check demands of the form and the collection, taken on its own. */
  predicate Passes(c: SignupCheck, store: Store, v: Validator, f: SignupForm)
  {
    match c
    case AllFieldsFilled =>
      !Missing(f.email) && !Missing(f.password) && !Missing(f.confirmPassword) && !Missing(f.name)
    case EmailValid => v.isEmail(f.email)
    case PasswordsMatch => f.password == f.confirmPassword
    case PasswordStrong => v.isStrongPassword(f.password)
    case ConfirmPasswordStrong => v.isStrongPassword(f.confirmPassword)
    case EmailUnused => FindOne(store, f.email).None?
  }

  /** The message `signup` throws when a check fails. */
  function SignupMessage(c: SignupCheck): string
  {
    match c
    case AllFieldsFilled => "All fields must be filled"
    case EmailValid => "Email not valid"
    case PasswordsMatch => "Passwords not match"
    case PasswordStrong => "Password not strong enough"
    case ConfirmPasswordStrong => "Password not strong enough"
    case EmailUnused => "Email already in use"
  }

  /** The short-circuiting validation chain of `signup`: the check that throws, or None
      when the chain falls through to hashing. The reported check is the first one, in
      source order, that does not pass; the second strength check is never it. */
  function FailedCheck(store: Store, v: Validator, f: SignupForm): (failed: Option<SignupCheck>)
    ensures failed.None? <==> forall c :: Passes(c, store, v, f)
    ensures failed.Some? ==> !Passes(failed.value, store, v, f)
    ensures failed.Some? ==> forall c :: Rank(c) < Rank(failed.value) ==> Passes(c, store, v, f)
    ensures failed != Some(ConfirmPasswordStrong)
  {
    if Missing(f.email) || Missing(f.password) || Missing(f.confirmPassword) || Missing(f.name) then
      assert !Passes(AllFieldsFilled, store, v, f);
      Some(AllFieldsFilled)
    else if !v.isEmail(f.email) then
      assert !Passes(EmailValid, store, v, f);
      Some(EmailValid)
    else if f.password != f.confirmPassword then
      assert !Passes(PasswordsMatch, store, v, f);
      Some(PasswordsMatch)
    else if !v.isStrongPassword(f.password) then
      assert !Passes(PasswordStrong, store, v, f);
      Some(PasswordStrong)
    else if !v.isStrongPassword(f.confirmPassword) then
      Some(ConfirmPasswordStrong)
    else if FindOne(store, f.email).Some? then
      assert !Passes(EmailUnused, store, v, f);
      Some(EmailUnused)
    else
      None
  }

  /** `userSchema.statics.signup`: validate, reject a taken email, hash both password
      fields with one salt, and insert the new document. Returns the result and the
      collection afterwards. */
  function Signup(store: Store, v: Validator, b: Bcrypt, salt: Salt, f: SignupForm)
    : (out: (Result<User, string>, Store))
    // Failure: the message of the first failing check, and nothing written.
    ensures out.0.Err? <==> exists c :: !Passes(c, store, v, f)
    ensures out.0.Err? ==> out.1 == store
    ensures out.0.Err? ==> FailedCheck(store, v, f).Some?
                           && out.0.error == SignupMessage(FailedCheck(store, v, f).value)
    // Success: exactly one new record, under the new email, holding hashes of the password.
    ensures out.0.Ok? ==> f.email !in store
    ensures out.0.Ok? ==> out.1.Keys == store.Keys + {f.email} && |out.1| == |store| + 1
    ensures out.0.Ok? ==> out.1[f.email] == out.0.value
    ensures out.0.Ok? ==> forall e :: e in store ==> out.1[e] == store[e]
    ensures out.0.Ok? ==> out.0.value.name == f.name && out.0.value.email == f.email
    ensures out.0.Ok? ==> out.0.value.password == b.hash(f.password, salt)
    ensures out.0.Ok? ==> out.0.value.confirmPassword == out.0.value.password
    // The collection keeps one record per email.
    ensures WellKeyed(store) ==> WellKeyed(out.1)
  {
    match FailedCheck(store, v, f)
    case Some(c) => (Err(SignupMessage(c)), store)
    case None =>
      var hashPassword := b.hash(f.password, salt);
      var hashConfirmPassword := b.hash(f.confirmPassword, salt);
      // Deviation from userModel.js:67, which reads `password: hash` with `hash` never
      // declared: the stored password is `hashPassword`, the value line 61 computes.
      // The code as written is modelled in module AsWritten.
      var user := User(f.name, f.email, hashPassword, hashConfirmPassword);
      (Ok(user), store[f.email := user])
  }

  // ---------------------------------------------------------------------------------
  // login
  // ---------------------------------------------------------------------------------

  /** The checks `login` makes, one per `throw`. */
  datatype LoginCheck = LoginFieldsFilled | EmailKnown | PasswordMatches

  /** The message `login` throws when a check fails. */
  function LoginMessage(c: LoginCheck): string
  {
    match c
    case LoginFieldsFilled => "All fields must be filled"
    case EmailKnown => "Incorrect email"
    case PasswordMatches => "Incorrect password"
  }

  /** `userSchema.statics.login`: presence check, lookup by email, bcrypt comparison
      against the stored `password` field. It returns no collection: a login writes nothing. */
  function Login(store: Store, b: Bcrypt, email: string, password: string): (r: Result<User, string>)
    ensures r == Err(LoginMessage(LoginFieldsFilled)) <==> Missing(email) || Missing(password)
    ensures r == Err(LoginMessage(EmailKnown)) <==>
              !Missing(email) && !Missing(password) && email !in store
    ensures r == Err(LoginMessage(PasswordMatches)) <==>
              !Missing(email) && !Missing(password) && email in store
              && !b.compare(password, store[email].password)
    ensures r.Ok? <==>
              !Missing(email) && !Missing(password) && email in store
              && b.compare(password, store[email].password)
    ensures r.Ok? ==> r.value in store.Values && r.value == store[email]
    ensures r.Ok? && WellKeyed(store) ==> r.value.email == email
    // On a well-keyed collection the lookup is by the email field, as `findOne` does it.
    ensures WellKeyed(store) && !Missing(email) && !Missing(password) ==>
              (r == Err(LoginMessage(EmailKnown)) <==> !exists u :: u in store.Values && u.email == email)
  {
    if Missing(email) || Missing(password) then
      Err(LoginMessage(LoginFieldsFilled))
    else
      match FindOne(store, email)
      case None => Err(LoginMessage(EmailKnown))
      case Some(user) =>
        if !b.compare(password, user.password) then Err(LoginMessage(PasswordMatches))
        else Ok(user)
  }
}
