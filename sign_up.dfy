/**
 * POST /api/sign-up: registration. A verified holder of the username refuses the request; then the
 * email decides between creating a record, refusing (a verified holder of the email) and rewriting
 * the unverified record that holds the email. The record is saved before the verification email is
 * sent, so a failed send still leaves it in the store.
 */
module SignUp {
  import opened Common
  import opened Text
  import opened UserModel
  import opened Api

  const UsernameExists := "Username already exists"
  const EmailExists := "User with this email already exists."
  const RegisterError := "Error registering user"
  const EmailNotSent := "Error sending verification email"
  const Registered := "User registered successfully. Please verify your email."

  /** One hour, the lifetime of a verification code, in milliseconds. */
  const HourMs: int := 3_600_000

  /** What the handler takes from outside the store: the clock (`new Date()`), the number drawn for
      the code (`Math.floor(100000 + Math.random() * 900000)`), bcrypt's salt, the verdict of the
      schema's email `match` validator on the email. Whether the verification email went out is a
      separate argument of `Post`, since the send happens after the save. */
  datatype Env = Env(now: int, code: nat, salt: nat, emailFormatOk: bool)

  /** The range `Math.floor(100000 + Math.random() * 900000)` draws from. */
  predicate CodeInRange(code: nat) {
    100000 <= code <= 999999
  }

  /** The code as stored and mailed, `.toString()` of the number: six decimal digits that read back
      as the number. */
  function IssuedCode(code: nat): (s: string)
    requires CodeInRange(code)
    ensures |s| == 6 && forall i :: 0 <= i < 6 ==> IsDigit(s[i])
    ensures ParseDecimal(s) == code
  {
    assert Pow10(5) == 100000 && Pow10(6) == 1000000;
    DecimalLength(code, 6);
    DecimalRoundTrip(code);
    Decimal(code)
  }

  /** The expiry set one hour after the request. */
  function IssuedExpiry(now: int): int {
    now + HourMs
  }

  /** The store holds an unverified record for this registration: the trimmed username, the email,
      the hash of the password, the issued code and expiry. */
  predicate HoldsRegistration(db: Db, username: string, email: string, password: string, env: Env)
    requires CodeInRange(env.code)
  {
    exists i :: 0 <= i < |db.users| && Registers(db.users[i], username, email, password, env)
  }

  /** The record carries this registration. */
  predicate Registers(u: User, username: string, email: string, password: string, env: Env)
    requires CodeInRange(env.code)
  {
    u.username == Trim(username) && u.email == email && u.password == Hash(password, env.salt) &&
    u.verifyCode == IssuedCode(env.code) && u.verifyCodeExpiry == IssuedExpiry(env.now) && !u.isVerified
  }

  /** How the part of the handler before the email send ends: with an answer and no write, or
      with the store as `save()` left it. */
  datatype Stage = Answered(response: Response) | Saved(db: Db)

  /** Everything up to the email send: the two lookups, the record built or rewritten, and the
      save, which the schema validators or a unique index may reject. */
  function Register(db: Db, username: string, email: string, password: string, env: Env): (st: Stage)
    requires Valid(db) && CodeInRange(env.code)
    ensures st.Saved? ==> Valid(st.db) && st.db.messages == db.messages
    ensures st.Saved? ==> HoldsRegistration(st.db, username, email, password, env)
    ensures st.Answered? ==> st.response in {Failure(400, UsernameExists), Failure(400, EmailExists), Failure(500, RegisterError)}
  {
    if FindOne(db.users, ByVerifiedUsername(username)).Some? then
      Answered(Failure(400, UsernameExists))
    else
      match FindOne(db.users, ByEmail(email))
      case None =>
        var u := NewRecord(db, username, email, password, env);
        if SaveAccepted(db.users, u, |db.users|, env.emailFormatOk) then
          InsertKeepsValid(db, u, env.emailFormatOk);
          var db' := db.(users := db.users + [u], nextId := db.nextId + 1);
          assert Registers(u, username, email, password, env);
          assert db'.users[|db.users|] == u;
          Saved(db')
        else
          Answered(Failure(500, RegisterError))
      case Some(i) =>
        if db.users[i].isVerified then
          Answered(Failure(400, EmailExists))
        else
          var u := Rewritten(db.users[i], username, password, env);
          if SaveAccepted(db.users, u, i, env.emailFormatOk) then
            ReplaceKeepsValid(db, i, u, env.emailFormatOk);
            var db' := db.(users := db.users[i := u]);
            assert Registers(u, username, email, password, env);
            assert db'.users[i] == u;
            Saved(db')
          else
            Answered(Failure(500, RegisterError))
  }

  /** The handler: the answer and the store after it. Once the record is saved, the answer depends
      on the email send only. */
  function Post(db: Db, username: string, email: string, password: string, env: Env, emailSent: bool): (o: Outcome)
    requires Valid(db) && CodeInRange(env.code)
    ensures Valid(o.db)
    ensures o.db.messages == db.messages
    ensures o.response.status in {201, 400, 500}
    ensures o.response.success <==> o.response.status == 201
    // A refusal, or a save the schema or an index rejects, leaves the store as it was.
    ensures o.response.status == 400 || o.response == Failure(500, RegisterError) ==> o.db == db
    // Otherwise the registration is in the store, whether or not the email went out.
    ensures o.response.status == 201 || o.response == Failure(500, EmailNotSent) ==>
              HoldsRegistration(o.db, username, email, password, env)
  {
    match Register(db, username, email, password, env)
    case Answered(r) => Outcome(r, db)
    case Saved(db') =>
      if emailSent then Outcome(Success(201, Registered, NoPayload), db')
      else Outcome(Failure(500, EmailNotSent), db')
  }

  /** A verified holder of the username refuses the request with 400 before the email is looked
      at: the store is unchanged, whatever the email and password. */
  lemma VerifiedUsernameRefused(db: Db, username: string, email: string, password: string, env: Env, emailSent: bool, j: nat)
    requires Valid(db) && CodeInRange(env.code)
    requires j < |db.users| && db.users[j].username == Trim(username) && db.users[j].isVerified
    ensures Post(db, username, email, password, env, emailSent) == Outcome(Failure(400, UsernameExists), db)
  {
    assert Selects(ByVerifiedUsername(username), db.users[j]);
  }

  /** No verified holder of the username. */
  predicate NoVerifiedHolder(db: Db, username: string) {
    forall j :: 0 <= j < |db.users| ==> !(db.users[j].username == Trim(username) && db.users[j].isVerified)
  }

  /** Without a verified holder of the username the request is never refused for the username. */
  lemma FreeUsernameNotRefused(db: Db, username: string, email: string, password: string, env: Env, emailSent: bool)
    requires Valid(db) && CodeInRange(env.code) && NoVerifiedHolder(db, username)
    ensures Post(db, username, email, password, env, emailSent).response != Failure(400, UsernameExists)
  {
    assert FindOne(db.users, ByVerifiedUsername(username)).None?;
    var st := Register(db, username, email, password, env);
    assert st.Answered? ==> st.response != Failure(400, UsernameExists);
  }

  /** A new email with a free, non-blank username and a well-formed email adds exactly one record:
      a fresh id, the trimmed username, the password's hash, the issued code and expiry, unverified
      and accepting messages, with no messages. The answer is 201, or 500 if the email failed. */
  lemma NewEmailCreatesRecord(db: Db, username: string, email: string, password: string, env: Env, emailSent: bool)
    requires Valid(db) && CodeInRange(env.code)
    requires forall j :: 0 <= j < |db.users| ==> db.users[j].email != email && db.users[j].username != Trim(username)
    requires Trim(username) != "" && email != "" && env.emailFormatOk
    ensures var o := Post(db, username, email, password, env, emailSent);
      && |o.db.users| == |db.users| + 1 && o.db.users[..|db.users|] == db.users
      && (var u := o.db.users[|db.users|];
          && u.id == db.nextId && u.username == Trim(username) && u.email == email
          && u.password == Hash(password, env.salt)
          && u.verifyCode == Decimal(env.code) && u.verifyCodeExpiry == env.now + HourMs
          && !u.isVerified && u.isAcceptingMessages)
      && o.db.messages == db.messages && o.db.nextId == db.nextId + 1
      && MessagesFor(o.db.messages, db.nextId) == []
      && o.response == (if emailSent then Success(201, Registered, NoPayload) else Failure(500, EmailNotSent))
  {
    NoMessagesForFreshId(db);
    NewEmailPost(db, username, email, password, env, emailSent);
  }

  /** The whole outcome for a new email: the new record appended under the next id. */
  lemma NewEmailPost(db: Db, username: string, email: string, password: string, env: Env, emailSent: bool)
    requires Valid(db) && CodeInRange(env.code)
    requires forall j :: 0 <= j < |db.users| ==> db.users[j].email != email && db.users[j].username != Trim(username)
    requires Trim(username) != "" && email != "" && env.emailFormatOk
    ensures Post(db, username, email, password, env, emailSent) ==
            Outcome(if emailSent then Success(201, Registered, NoPayload) else Failure(500, EmailNotSent),
                    db.(users := db.users + [NewRecord(db, username, email, password, env)], nextId := db.nextId + 1))
  {
    NewEmailSaves(db, username, email, password, env);
  }

  /** The record sign-up builds for an email no record holds. */
  function NewRecord(db: Db, username: string, email: string, password: string, env: Env): User
    requires CodeInRange(env.code)
  {
    User(db.nextId, Trim(username), email, Hash(password, env.salt), IssuedCode(env.code),
         IssuedExpiry(env.now), DefaultIsVerified, DefaultIsAcceptingMessages)
  }

  lemma NewEmailSaves(db: Db, username: string, email: string, password: string, env: Env)
    requires Valid(db) && CodeInRange(env.code)
    requires forall j :: 0 <= j < |db.users| ==> db.users[j].email != email && db.users[j].username != Trim(username)
    requires Trim(username) != "" && email != "" && env.emailFormatOk
    ensures Register(db, username, email, password, env) ==
            Saved(db.(users := db.users + [NewRecord(db, username, email, password, env)], nextId := db.nextId + 1))
  {
    TrimShape(username);
    assert FindOne(db.users, ByVerifiedUsername(username)).None?;
    assert FindOne(db.users, ByEmail(email)).None?;
    assert SaveAccepted(db.users, NewRecord(db, username, email, password, env), |db.users|, env.emailFormatOk);
  }

  /** A verified holder of the email refuses the request with 400 and the store is unchanged. */
  lemma VerifiedEmailRefused(db: Db, username: string, email: string, password: string, env: Env, emailSent: bool, i: nat)
    requires Valid(db) && CodeInRange(env.code) && NoVerifiedHolder(db, username)
    requires i < |db.users| && db.users[i].email == email && db.users[i].isVerified
    ensures Post(db, username, email, password, env, emailSent) == Outcome(Failure(400, EmailExists), db)
  {
    FindOneByKey(db, ByEmail(email), i);
  }

  /** An unverified holder of the email is rewritten in place: username, code, expiry and password
      change; id, email, verified and accepting flags stay; no other record changes and none is
      added; messages are untouched. */
  lemma UnverifiedEmailRewritten(db: Db, username: string, email: string, password: string, env: Env, emailSent: bool, i: nat)
    requires Valid(db) && CodeInRange(env.code) && NoVerifiedHolder(db, username)
    requires i < |db.users| && db.users[i].email == email && !db.users[i].isVerified
    requires forall j :: 0 <= j < |db.users| && j != i ==> db.users[j].username != Trim(username)
    requires Trim(username) != "" && env.emailFormatOk
    ensures var o := Post(db, username, email, password, env, emailSent);
      && |o.db.users| == |db.users|
      && o.db.users[i].id == db.users[i].id
      && o.db.users[i].email == db.users[i].email
      && o.db.users[i].isVerified == db.users[i].isVerified
      && o.db.users[i].isAcceptingMessages == db.users[i].isAcceptingMessages
      && o.db.users[i].username == Trim(username)
      && o.db.users[i].verifyCode == Decimal(env.code)
      && o.db.users[i].verifyCodeExpiry == env.now + HourMs
      && o.db.users[i].password == Hash(password, env.salt)
      && (forall j :: 0 <= j < |db.users| && j != i ==> o.db.users[j] == db.users[j])
      && o.db.messages == db.messages && o.db.nextId == db.nextId
      && o.response == (if emailSent then Success(201, Registered, NoPayload) else Failure(500, EmailNotSent))
  {
    RewriteSaves(db, username, email, password, env, i);
  }

  /** The unverified record at i as sign-up rewrites it. */
  function Rewritten(u: User, username: string, password: string, env: Env): User
    requires CodeInRange(env.code)
  {
    u.(username := Trim(username), verifyCode := IssuedCode(env.code),
       verifyCodeExpiry := IssuedExpiry(env.now), password := Hash(password, env.salt))
  }

  lemma RewriteSaves(db: Db, username: string, email: string, password: string, env: Env, i: nat)
    requires Valid(db) && CodeInRange(env.code) && NoVerifiedHolder(db, username)
    requires i < |db.users| && db.users[i].email == email && !db.users[i].isVerified
    requires forall j :: 0 <= j < |db.users| && j != i ==> db.users[j].username != Trim(username)
    requires Trim(username) != "" && env.emailFormatOk
    ensures Register(db, username, email, password, env) ==
            Saved(db.(users := db.users[i := Rewritten(db.users[i], username, password, env)]))
  {
    TrimShape(username);
    assert FindOne(db.users, ByVerifiedUsername(username)).None?;
    FindOneByKey(db, ByEmail(email), i);
    assert SaveAccepted(db.users, Rewritten(db.users[i], username, password, env), i, env.emailFormatOk);
  }

  /** A new email whose username is already held by another (unverified) record breaks the unique
      index: the save fails, the answer is 500 "Error registering user" and nothing changes. */
  lemma DuplicateUsernameFailsSave(db: Db, username: string, email: string, password: string, env: Env, emailSent: bool, j: nat)
    requires Valid(db) && CodeInRange(env.code)
    requires forall k :: 0 <= k < |db.users| ==> db.users[k].email != email
    requires j < |db.users| && db.users[j].username == Trim(username)
    requires !db.users[j].isVerified
    ensures Post(db, username, email, password, env, emailSent) == Outcome(Failure(500, RegisterError), db)
  {
    forall k | 0 <= k < |db.users|
      ensures !Selects(ByVerifiedUsername(username), db.users[k])
    {
      if k != j {
        assert db.users[k].username != db.users[j].username;
      }
    }
    assert FindOne(db.users, ByVerifiedUsername(username)).None?;
    assert FindOne(db.users, ByEmail(email)).None?;
    assert Register(db, username, email, password, env) == Answered(Failure(500, RegisterError));
  }

  /** A username that is blank once trimmed fails the required validator: 500 and no change. */
  lemma BlankUsernameFailsSave(db: Db, username: string, email: string, password: string, env: Env, emailSent: bool)
    requires Valid(db) && CodeInRange(env.code)
    requires Trim(username) == ""
    ensures var o := Post(db, username, email, password, env, emailSent);
      o.db == db && o.response.status in {400, 500}
  {
    var st := Register(db, username, email, password, env);
    assert st.Answered?;
  }

  /** The email send decides only between 201 and 500: the store after the request is the same
      either way. */
  lemma EmailSendDoesNotAffectStore(db: Db, username: string, email: string, password: string, env: Env)
    requires Valid(db) && CodeInRange(env.code)
    ensures Post(db, username, email, password, env, false).db == Post(db, username, email, password, env, true).db
    ensures Post(db, username, email, password, env, true).response.status == 201 <==>
            Post(db, username, email, password, env, false).response == Failure(500, EmailNotSent)
  {
  }

  // ---------------------------------------------------------------- the expiry path as written

  /** The paths the handler gives a new document: the expiry under the undeclared spelling. */
  const NewRecordPathsAsWritten: set<string> :=
    {"username", "email", "password", "verifyCode", ExpiryPathAsWritten, "isVerified",
     "isAcceptingMessages", "message"}

  /** The paths of the record this model builds: every declared path. */
  const NewRecordPaths: set<string> := DeclaredPaths

  /** As written a new record loses its expiry to the strict schema and fails the required
      validator, so every registration with a new email answers 500 "Error registering user". */
  lemma NewRecordAsWrittenRejected()
    ensures ExpiryPathAsWritten !in Kept(NewRecordPathsAsWritten)
    ensures !RequiredPresent(NewRecordPathsAsWritten)
  {
    assert "verifiCodeExpiryDate" in RequiredPaths;
  }

  /** With the declared spelling the record passes the required validators. */
  lemma NewRecordPathsAccepted()
    ensures RequiredPresent(NewRecordPaths)
  {
  }

  /** The unverified record as the handler rewrites it: the expiry assignment names an undeclared
      path, so the stored expiry is kept. */
  function RewrittenAsWritten(u: User, username: string, password: string, env: Env): User
    requires CodeInRange(env.code)
  {
    u.(username := Trim(username), verifyCode := IssuedCode(env.code),
       verifyCodeExpiry := WriteDate(ExpiryPathAsWritten, u.verifyCodeExpiry, IssuedExpiry(env.now)),
       password := Hash(password, env.salt))
  }

  /** As written a re-registration issues a new code but keeps the old expiry, which the new code
      was meant to replace. */
  lemma AsWrittenRewriteKeepsOldExpiry(u: User, username: string, password: string, env: Env)
    requires CodeInRange(env.code)
    ensures RewrittenAsWritten(u, username, password, env).verifyCodeExpiry == u.verifyCodeExpiry
    ensures Rewritten(u, username, password, env).verifyCodeExpiry == env.now + HourMs
    ensures RewrittenAsWritten(u, username, password, env).verifyCode == Rewritten(u, username, password, env).verifyCode
  {
    assert ExpiryPathAsWritten !in DeclaredPaths;
  }

  /** Registration up to the email send as written: a new record carries the expiry under the
      undeclared path, so `save()` also needs every required path to survive the strict schema; a
      rewrite assigns the expiry through the undeclared path. */
  function RegisterAsWritten(db: Db, username: string, email: string, password: string, env: Env): Stage
    requires CodeInRange(env.code)
  {
    if FindOne(db.users, ByVerifiedUsername(username)).Some? then
      Answered(Failure(400, UsernameExists))
    else
      match FindOne(db.users, ByEmail(email))
      case None =>
        var u := NewRecord(db, username, email, password, env);
        if RequiredPresent(NewRecordPathsAsWritten) && SaveAccepted(db.users, u, |db.users|, env.emailFormatOk) then
          Saved(db.(users := db.users + [u], nextId := db.nextId + 1))
        else
          Answered(Failure(500, RegisterError))
      case Some(i) =>
        if db.users[i].isVerified then
          Answered(Failure(400, EmailExists))
        else
          var u := RewrittenAsWritten(db.users[i], username, password, env);
          if SaveAccepted(db.users, u, i, env.emailFormatOk) then Saved(db.(users := db.users[i := u]))
          else Answered(Failure(500, RegisterError))
  }

  /** The handler as written. */
  function PostAsWritten(db: Db, username: string, email: string, password: string, env: Env, emailSent: bool): Outcome
    requires CodeInRange(env.code)
  {
    match RegisterAsWritten(db, username, email, password, env)
    case Answered(r) => Outcome(r, db)
    case Saved(db') =>
      if emailSent then Outcome(Success(201, Registered, NoPayload), db')
      else Outcome(Failure(500, EmailNotSent), db')
  }

  /** As written every sign-up with an email no record holds, and a username no verified record
      holds, answers 500 "Error registering user" and leaves the store as it was. */
  lemma AsWrittenNewEmailFails(db: Db, username: string, email: string, password: string, env: Env, emailSent: bool)
    requires CodeInRange(env.code) && NoVerifiedHolder(db, username)
    requires forall j :: 0 <= j < |db.users| ==> db.users[j].email != email
    ensures PostAsWritten(db, username, email, password, env, emailSent) == Outcome(Failure(500, RegisterError), db)
  {
    NewRecordAsWrittenRejected();
    assert FindOne(db.users, ByVerifiedUsername(username)).None?;
    assert FindOne(db.users, ByEmail(email)).None?;
  }
}
