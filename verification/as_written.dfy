/** `signup` exactly as userModel.js:64-69 is written. Line 67 stores `password: hash`, but
    no `hash` is declared anywhere in the file (line 61 names the hash `hashPassword`), so
    building the document throws a ReferenceError before `create` runs. This module keeps
    that behaviour apart from the corrected `UserModel.Signup` and shows what it costs. */
module AsWritten {
  import opened Wrappers
  import opened Collaborators
  import opened UserModel
  import opened UserModelProperties

  /** The message of the ReferenceError thrown by evaluating the undeclared `hash`. */
  const ReferenceErrorMessage := "hash is not defined"

  /** `signup` as written: the same validation chain, then a throw where the insert should be.
      It rejects exactly the forms the corrected signup rejects, with the same messages,
      and every form the corrected signup accepts with the ReferenceError instead. */
  function SignupAsWritten(store: Store, v: Validator, b: Bcrypt, salt: Salt, f: SignupForm)
    : (out: (Result<User, string>, Store))
    ensures out.1 == store
    ensures Signup(store, v, b, salt, f).0.Err? ==> out == Signup(store, v, b, salt, f)
    ensures Signup(store, v, b, salt, f).0.Ok? ==> out.0 == Err(ReferenceErrorMessage)
  {
    match FailedCheck(store, v, f)
    case Some(c) => (Err(SignupMessage(c)), store)
    case None =>
      // Lines 60-62 compute the salt and both hashes; line 67 then reads the undeclared
      // `hash`, and the throw discards them.
      (Err(ReferenceErrorMessage), store)
  }

  /** The collection after one request, with `signup` as written. */
  function StepAsWritten(store: Store, v: Validator, b: Bcrypt, call: Call): Store
  {
    match call
    case SignupCall(f, salt) => SignupAsWritten(store, v, b, salt, f).1
    case LoginCall(_, _) => store
  }

  /** The collection after a sequence of requests, with `signup` as written. */
  function RunAsWritten(store: Store, v: Validator, b: Bcrypt, calls: seq<Call>): Store
    decreases |calls|
  {
    if |calls| == 0 then store else RunAsWritten(StepAsWritten(store, v, b, calls[0]), v, b, calls[1..])
  }

  /** As written, no history of requests ever adds a user. */
  lemma {:induction false} RunAsWrittenKeepsStore(store: Store, v: Validator, b: Bcrypt, calls: seq<Call>)
    ensures RunAsWritten(store, v, b, calls) == store
    decreases |calls|
  {
    if |calls| > 0 {
      RunAsWrittenKeepsStore(StepAsWritten(store, v, b, calls[0]), v, b, calls[1..]);
    }
  }

  /** As written, starting from an empty collection, every complete login fails with
      "Incorrect email", whatever requests came before: no account can ever log in. */
  lemma AsWrittenNoLoginEverSucceeds(v: Validator, b: Bcrypt, calls: seq<Call>,
                                     email: string, password: string)
    requires !Missing(email) && !Missing(password)
    ensures Login(RunAsWritten(map[], v, b, calls), b, email, password) == Err("Incorrect email")
  {
  }

  /** A concrete input on which the two versions part: for Ada's form, validators that
      accept its email and password, and any bcrypt that keeps its contract, the corrected
      signup creates the account and a login with the same credentials succeeds, while the
      signup as written throws and leaves the collection empty. */
  lemma AsWrittenLosesValidSignup(b: Bcrypt, salt: Salt)
    requires CompareAcceptsOwnHash(b)
    ensures var v := Validator(s => s == "ada@example.com", s => s == "Str0ng!Pass");
            var f := SignupForm("Ada", "ada@example.com", "Str0ng!Pass", "Str0ng!Pass");
            && Signup(map[], v, b, salt, f).0.Ok?
            && Login(Signup(map[], v, b, salt, f).1, b, f.email, f.password).Ok?
            && SignupAsWritten(map[], v, b, salt, f) == (Err(ReferenceErrorMessage), map[])
  {
  }
}
