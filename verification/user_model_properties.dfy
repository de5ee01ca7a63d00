/** Properties of `signup` and `login` that relate a call to the order of its checks,
    or several calls to each other. */
module UserModelProperties {
  import opened Wrappers
  import opened Collaborators
  import opened UserModel

  /** The converse of FailedCheck's contract: whichever check fails while every earlier
      one passes is the one reported. Together they make the report exactly "the first
      failing check in source order". */
  lemma FirstFailingCheckIsReported(store: Store, v: Validator, f: SignupForm, c: SignupCheck)
    requires !Passes(c, store, v, f)
    requires forall d :: Rank(d) < Rank(c) ==> Passes(d, store, v, f)
    ensures FailedCheck(store, v, f) == Some(c)
  {
  }

  /** A missing field is reported before anything else is looked at, and nothing is written. */
  lemma MissingFieldReportedFirst(store: Store, v: Validator, b: Bcrypt, salt: Salt, f: SignupForm)
    requires Missing(f.name) || Missing(f.email) || Missing(f.password) || Missing(f.confirmPassword)
    ensures Signup(store, v, b, salt, f) == (Err("All fields must be filled"), store)
  {
  }

  /** Differing password and confirmation, on a complete form with a valid email, are
      reported as a mismatch whatever their strength, and nothing is written. */
  lemma MismatchRejected(store: Store, v: Validator, b: Bcrypt, salt: Salt, f: SignupForm)
    requires Passes(AllFieldsFilled, store, v, f) && v.isEmail(f.email)
    requires f.password != f.confirmPassword
    ensures Signup(store, v, b, salt, f) == (Err("Passwords not match"), store)
  {
  }

  /** A form that passes every validation is rejected when some record already carries
      its email, and nothing is written. */
  lemma TakenEmailRejected(store: Store, v: Validator, b: Bcrypt, salt: Salt, f: SignupForm, u: User)
    requires WellKeyed(store)
    requires u in store.Values && u.email == f.email
    requires forall c :: c != EmailUnused ==> Passes(c, store, v, f)
    ensures Signup(store, v, b, salt, f) == (Err("Email already in use"), store)
  {
  }

  /** Logging in with the email and password of a signup that just succeeded returns the
      record it created. */
  lemma LoginAfterSignup(store: Store, v: Validator, b: Bcrypt, salt: Salt, f: SignupForm)
    requires CompareAcceptsOwnHash(b)
    requires Signup(store, v, b, salt, f).0.Ok?
    ensures Login(Signup(store, v, b, salt, f).1, b, f.email, f.password)
            == Signup(store, v, b, salt, f).0
  {
  }

  /** A second signup with an email that a first signup has just taken fails, whatever its
      other fields and salt, and leaves the single record for that email in place. When
      the second form is otherwise valid, the reason given is the taken email. */
  lemma SecondSignupSameEmail(store: Store, v: Validator, b: Bcrypt, salt: Salt, f: SignupForm,
                              salt': Salt, g: SignupForm)
    requires Signup(store, v, b, salt, f).0.Ok?
    requires g.email == f.email
    ensures Signup(Signup(store, v, b, salt, f).1, v, b, salt', g).0.Err?
    ensures Signup(Signup(store, v, b, salt, f).1, v, b, salt', g).1 == Signup(store, v, b, salt, f).1
    ensures (forall c :: c != EmailUnused ==> Passes(c, Signup(store, v, b, salt, f).1, v, g)) ==>
              Signup(Signup(store, v, b, salt, f).1, v, b, salt', g).0 == Err("Email already in use")
  {
  }

  // ---------------------------------------------------------------------------------
  // Histories: the collection as it evolves over a sequence of requests
  // ---------------------------------------------------------------------------------

  /** One request to the user model, with the salt `genSalt` produced for a signup. */
  datatype Call = SignupCall(form: SignupForm, salt: Salt) | LoginCall(email: string, password: string)

  /** The collection after one request; a login leaves it as it was. */
  function Step(store: Store, v: Validator, b: Bcrypt, call: Call): Store
  {
    match call
    case SignupCall(f, salt) => Signup(store, v, b, salt, f).1
    case LoginCall(_, _) => store
  }

  /** The collection after a sequence of requests, served one at a time. */
  function Run(store: Store, v: Validator, b: Bcrypt, calls: seq<Call>): Store
    decreases |calls|
  {
    if |calls| == 0 then store else Run(Step(store, v, b, calls[0]), v, b, calls[1..])
  }

  /** One record per email holds over every history. */
  lemma {:induction false} RunPreservesWellKeyed(store: Store, v: Validator, b: Bcrypt, calls: seq<Call>)
    requires WellKeyed(store)
    ensures WellKeyed(Run(store, v, b, calls))
    decreases |calls|
  {
    if |calls| > 0 {
      RunPreservesWellKeyed(Step(store, v, b, calls[0]), v, b, calls[1..]);
    }
  }

  /** No request removes or alters a record: every history only adds new emails. */
  lemma {:induction false} RunKeepsRecords(store: Store, v: Validator, b: Bcrypt, calls: seq<Call>)
    ensures forall e :: e in store ==> e in Run(store, v, b, calls) && Run(store, v, b, calls)[e] == store[e]
    decreases |calls|
  {
    if |calls| > 0 {
      RunKeepsRecords(Step(store, v, b, calls[0]), v, b, calls[1..]);
    }
  }

  /** Once a signup has succeeded, logging in with its email and password succeeds after
      any later history of requests, and returns the record that signup created. */
  lemma LoginSucceedsAfterAnyHistory(store: Store, v: Validator, b: Bcrypt, salt: Salt,
                                     f: SignupForm, calls: seq<Call>)
    requires CompareAcceptsOwnHash(b)
    requires Signup(store, v, b, salt, f).0.Ok?
    ensures Login(Run(Signup(store, v, b, salt, f).1, v, b, calls), b, f.email, f.password)
            == Signup(store, v, b, salt, f).0
  {
    var after := Signup(store, v, b, salt, f).1;
    RunKeepsRecords(after, v, b, calls);
    assert b.compare(f.password, b.hash(f.password, salt));
  }
}
