/**
 * The server's state: the users and messages collections held in one object, and the four
 * handlers that write to them as methods that update it in place. Each method is proved to leave
 * exactly the store, and give exactly the answer, of the handler's transition function, and to
 * keep the schema's constraints.
 */
module Server {
  import opened Common
  import opened Text
  import opened UserModel
  import opened Api
  import SignUp
  import VerifyCode
  import SendMessage
  import AcceptMessages

  class Store {
    var users: seq<User>
    var messages: seq<Message>
    var nextId: nat

    /** The store's contents as a value. */
    function Snapshot(): Db
      reads this
    {
      Db(users, messages, nextId)
    }

    /** The schema's constraints hold of the contents. */
    ghost predicate Valid()
      reads this
    {
      UserModel.Valid(Snapshot())
    }

    /** An empty database. */
    constructor ()
      ensures Valid() && users == [] && messages == [] && nextId == 0
    {
      users, messages, nextId := [], [], 0;
    }

    /** POST /api/sign-up. */
    method PostSignUp(username: string, email: string, password: string, env: SignUp.Env, emailSent: bool)
      returns (r: Response)
      requires Valid() && SignUp.CodeInRange(env.code)
      modifies this
      ensures Valid()
      ensures Outcome(r, Snapshot()) == SignUp.Post(old(Snapshot()), username, email, password, env, emailSent)
    {
      ghost var before := Snapshot();
      var verifiedHolder := FindOne(users, ByVerifiedUsername(username));
      if verifiedHolder.Some? {
        return Failure(400, SignUp.UsernameExists);
      }
      var byEmail := FindOne(users, ByEmail(email));
      var code := SignUp.IssuedCode(env.code);
      var expiry := SignUp.IssuedExpiry(env.now);
      if byEmail.None? {
        var u := User(nextId, Trim(username), email, Hash(password, env.salt), code, expiry,
                      DefaultIsVerified, DefaultIsAcceptingMessages);
        if !SaveAccepted(users, u, |users|, env.emailFormatOk) {
          return Failure(500, SignUp.RegisterError);
        }
        InsertKeepsValid(Snapshot(), u, env.emailFormatOk);
        users := users + [u];
        nextId := nextId + 1;
      } else {
        var i := byEmail.value;
        if users[i].isVerified {
          return Failure(400, SignUp.EmailExists);
        }
        var u := users[i];
        u := u.(username := Trim(username));
        u := u.(verifyCode := code);
        u := u.(verifyCodeExpiry := expiry);
        u := u.(password := Hash(password, env.salt));
        assert u == SignUp.Rewritten(users[i], username, password, env);
        if !SaveAccepted(users, u, i, env.emailFormatOk) {
          return Failure(500, SignUp.RegisterError);
        }
        ReplaceKeepsValid(Snapshot(), i, u, env.emailFormatOk);
        users := users[i := u];
      }
      assert SignUp.Register(before, username, email, password, env) == SignUp.Saved(Snapshot());
      if !emailSent {
        return Failure(500, SignUp.EmailNotSent);
      }
      return Success(201, SignUp.Registered, NoPayload);
    }

    /** POST /api/verify-code. */
    method PostVerifyCode(username: string, verifyCode: string, now: int) returns (r: Response)
      requires Valid()
      modifies this
      ensures Valid()
      ensures Outcome(r, Snapshot()) == VerifyCode.Post(old(Snapshot()), username, verifyCode, now)
    {
      var found := FindOne(users, ByUsername(username));
      if found.None? {
        return Failure(404, VerifyCode.NotFound);
      }
      var i := found.value;
      var isCodeValid := users[i].verifyCode == verifyCode;
      var isCodeExpired := VerifyCode.CodeExpired(now, users[i].verifyCodeExpiry);
      if isCodeValid && !isCodeExpired {
        UpdateFlagsKeepsValid(Snapshot(), i, true, users[i].isAcceptingMessages);
        users := users[i := users[i].(isVerified := true)];
        return Success(200, VerifyCode.Verified, NoPayload);
      } else if isCodeExpired {
        return Failure(400, VerifyCode.Expired);
      }
      return Failure(400, VerifyCode.Invalid);
    }

    /** POST /api/send-message. */
    method PostSendMessage(session: Session, username: string, content: string, now: int) returns (r: Response)
      requires Valid()
      modifies this
      ensures Valid()
      ensures Outcome(r, Snapshot()) == SendMessage.Post(old(Snapshot()), session, username, content, now)
    {
      if session.None? {
        return Failure(401, SendMessage.SignInFirst);
      }
      var found := FindOne(users, ByUsername(username));
      if found.None? {
        return Failure(404, SendMessage.NotFound);
      }
      var u := users[found.value];
      if !u.isAcceptingMessages {
        return Failure(403, SendMessage.NotAccepting);
      }
      if content == "" {
        return Failure(500, SendMessage.SendError);
      }
      var m := Message(nextId, u.id, None, content, now);
      ghost var before := Snapshot();
      assert m == SendMessage.NewMessage(before, u, content, now);
      assert SendMessage.Post(before, session, username, content, now) ==
             Outcome(Success(200, SendMessage.Sent, NoPayload), before.(messages := messages + [m], nextId := nextId + 1));
      messages := messages + [m];
      nextId := nextId + 1;
      return Success(200, SendMessage.Sent, NoPayload);
    }

    /** POST /api/accept-messages. */
    method PostAcceptMessages(session: Session, flag: bool) returns (r: Response)
      requires Valid()
      modifies this
      ensures Valid()
      ensures Outcome(r, Snapshot()) == AcceptMessages.Post(old(Snapshot()), session, flag)
    {
      if session.None? {
        return Failure(401, AcceptMessages.Unauthorized);
      }
      var found := FindOne(users, ById(session.value));
      if found.None? {
        return Failure(401, AcceptMessages.UpdateFailed);
      }
      var i := found.value;
      UpdateFlagsKeepsValid(Snapshot(), i, users[i].isVerified, flag);
      users := users[i := users[i].(isAcceptingMessages := flag)];
      return Success(200, AcceptMessages.Updated, UpdatedUser(users[i]));
    }
  }
}
