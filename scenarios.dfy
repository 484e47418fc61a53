/**
 * Properties that span several handlers: a registration followed by verification and sign-in,
 * a code used too late, a message sent through the form and the inbox that never shows it, and
 * the availability check against the registration it advises.
 */
module Scenarios {
  import opened Common
  import opened Text
  import opened UserModel
  import opened Api
  import SignUp
  import VerifyCode
  import SignIn
  import SendMessage
  import GetMessages
  import CheckUsernameUnique
  import SignUpSchema

  /** A new registration, verified with the mailed code within the hour, can sign in by email,
      even when the verification email failed to go out. */
  lemma RegisterVerifySignIn(db: Db, username: string, email: string, password: string,
                             env: SignUp.Env, emailSent: bool, later: int)
    requires Valid(db) && SignUp.CodeInRange(env.code)
    requires forall j :: 0 <= j < |db.users| ==> db.users[j].email != email && db.users[j].username != Trim(username)
    requires forall j :: 0 <= j < |db.users| ==> db.users[j].username != Trim(email)
    requires Trim(username) != "" && email != "" && env.emailFormatOk
    requires env.now <= later < env.now + SignUp.HourMs
    ensures var registered := SignUp.Post(db, username, email, password, env, emailSent);
      var verified := VerifyCode.Post(registered.db, username, Decimal(env.code), later);
      && verified.response == Success(200, VerifyCode.Verified, NoPayload)
      && SignIn.Post(verified.db.users, email, password).status == 200
  {
    var u := SignUp.NewRecord(db, username, email, password, env);
    SignUp.NewEmailPost(db, username, email, password, env, emailSent);
    VerifyThenSignIn(db, u, username, email, password, later, env.salt);
  }

  /** The second half: the record just appended is verified with its code, then signs in. */
  lemma VerifyThenSignIn(db: Db, u: User, username: string, email: string, password: string, later: int, salt: nat)
    requires Valid(db.(users := db.users + [u], nextId := db.nextId + 1))
    requires u.username == Trim(username) && u.email == email && u.password == Hash(password, salt)
    requires later < u.verifyCodeExpiry
    requires forall j :: 0 <= j < |db.users| ==> db.users[j].username != Trim(email)
    ensures var db1 := db.(users := db.users + [u], nextId := db.nextId + 1);
      var verified := VerifyCode.Post(db1, username, u.verifyCode, later);
      && verified.response == Success(200, VerifyCode.Verified, NoPayload)
      && SignIn.Post(verified.db.users, email, password).status == 200
  {
    var n := |db.users|;
    var db1 := db.(users := db.users + [u], nextId := db.nextId + 1);
    assert db1.users[n] == u;
    VerifyCode.MatchVerifies(db1, username, later, n);
    SignInAfterVerify(db1, n, email, password, salt);
  }

  lemma SignInAfterVerify(db: Db, n: nat, email: string, password: string, salt: nat)
    requires Valid(db) && n < |db.users| && db.users[n].email == email
    requires db.users[n].password == Hash(password, salt)
    requires forall j :: 0 <= j < n ==> db.users[j].username != Trim(email)
    ensures SignIn.Post(db.users[n := db.users[n].(isVerified := true)], email, password).status == 200
  {
    var db2 := db.(users := db.users[n := db.users[n].(isVerified := true)]);
    UpdateFlagsKeepsValid(db, n, true, db.users[n].isAcceptingMessages);
    SignIn.SignInByEmail(db2, n, password, salt);
  }

  /** The mailed code used at or after the expiry an hour later is refused. */
  lemma CodeUsedTooLate(db: Db, username: string, email: string, password: string,
                        env: SignUp.Env, emailSent: bool, later: int)
    requires Valid(db) && SignUp.CodeInRange(env.code)
    requires forall j :: 0 <= j < |db.users| ==> db.users[j].email != email && db.users[j].username != Trim(username)
    requires Trim(username) != "" && email != "" && env.emailFormatOk
    requires later >= env.now + SignUp.HourMs
    ensures var registered := SignUp.Post(db, username, email, password, env, emailSent);
      VerifyCode.Post(registered.db, username, Decimal(env.code), later) ==
        Outcome(Failure(400, VerifyCode.Expired), registered.db)
  {
    SignUp.NewEmailCreatesRecord(db, username, email, password, env, emailSent);
    var registered := SignUp.Post(db, username, email, password, env, emailSent);
    VerifyCode.ExpiredRejectsAnyCode(registered.db, username, Decimal(env.code), later, |db.users|);
  }

  /** A message sent through send-message records no sender, so no inbox ever lists it: every
      user's get-messages answer is the same before and after the send. */
  lemma SentMessageNeverListed(db: Db, sender: nat, username: string, content: string, now: int, reader: Session)
    requires Valid(db)
    ensures var sent := SendMessage.Post(db, Some(sender), username, content, now);
      GetMessages.Get(sent.db, reader) == GetMessages.Get(db, reader)
  {
    SendMessage.StoreAfterPost(db, Some(sender), username, content, now);
    var found := FindOne(db.users, ByUsername(username));
    if found.Some? {
      var m := SendMessage.NewMessage(db, db.users[found.value], content, now);
      GetMessages.AnonymousAppendKeepsAnswer(db, m, db.nextId + 1, reader);
    }
  }

  /** The availability check agrees with the registration it advises: a name reported taken is
      refused by sign-up before the email is looked at, and a name reported available is not
      refused for its username. */
  lemma CheckAgreesWithSignUp(db: Db, username: string, email: string, password: string,
                              env: SignUp.Env, emailSent: bool)
    requires Valid(db) && SignUp.CodeInRange(env.code) && SignUpSchema.UsernameValid(username)
    ensures CheckUsernameUnique.Get(db.users, Some(username)) == Failure(400, CheckUsernameUnique.Taken) ==>
              SignUp.Post(db, username, email, password, env, emailSent) == Outcome(Failure(400, SignUp.UsernameExists), db)
    ensures CheckUsernameUnique.Get(db.users, Some(username)).status == 200 ==>
              SignUp.Post(db, username, email, password, env, emailSent).response != Failure(400, SignUp.UsernameExists)
  {
    SignUpSchema.ValidUsernameIsTrimmed(username);
    CheckUsernameUnique.TakenIffVerifiedHolder(db.users, username);
    if exists j :: 0 <= j < |db.users| && db.users[j].username == username && db.users[j].isVerified {
      var j :| 0 <= j < |db.users| && db.users[j].username == username && db.users[j].isVerified;
      SignUp.VerifiedUsernameRefused(db, username, email, password, env, emailSent, j);
    } else {
      SignUp.FreeUsernameNotRefused(db, username, email, password, env, emailSent);
    }
  }
}
