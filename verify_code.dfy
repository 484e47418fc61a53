/**
 * POST /api/verify-code: the account-verification step. The record is looked up by username; a
 * matching code that has not expired marks it verified, and every other case only answers.
 * `isVerified` is never consulted, so verifying again succeeds again.
 */
module VerifyCode {
  import opened Common
  import opened Text
  import opened UserModel
  import opened Api

  const NotFound := "User not found"
  const Verified := "Account verified"
  const Expired := "Verification code expired, Please sign up again to get a new code."
  const Invalid := "Invalid verification code"

  /** `new Date() >= new Date(expiry)`: the instant of expiry itself is already too late. */
  predicate CodeExpired(now: int, expiry: int) {
    now >= expiry
  }

  /** The decision once record i is found, given whether its code counts as expired. */
  function Respond(db: Db, i: nat, verifyCode: string, expired: bool): (o: Outcome)
    requires Valid(db) && i < |db.users|
    ensures Valid(o.db)
    ensures o.response.status == 200 <==> verifyCode == db.users[i].verifyCode && !expired
  {
    if verifyCode == db.users[i].verifyCode && !expired then
      UpdateFlagsKeepsValid(db, i, true, db.users[i].isAcceptingMessages);
      Outcome(Success(200, Verified, NoPayload),
              db.(users := db.users[i := db.users[i].(isVerified := true)]))
    else if expired then
      Outcome(Failure(400, Expired), db)
    else
      Outcome(Failure(400, Invalid), db)
  }

  /** The handler. Only a 200 writes, and then only the found record's `isVerified`. */
  function Post(db: Db, username: string, verifyCode: string, now: int): (o: Outcome)
    requires Valid(db)
    ensures Valid(o.db)
    ensures o.response.status in {200, 400, 404}
    ensures o.response.success <==> o.response.status == 200
    ensures o.response.status != 200 ==> o.db == db
    ensures o.db.messages == db.messages && o.db.nextId == db.nextId && |o.db.users| == |db.users|
    ensures o.response.status == 404 <==> forall j :: 0 <= j < |db.users| ==> db.users[j].username != Trim(username)
    ensures o.response.status == 200 ==>
              exists i :: 0 <= i < |db.users| && db.users[i].username == Trim(username) &&
                db.users[i].verifyCode == verifyCode && !CodeExpired(now, db.users[i].verifyCodeExpiry) &&
                o.db.users == db.users[i := db.users[i].(isVerified := true)]
  {
    match FindOne(db.users, ByUsername(username))
    case None => Outcome(Failure(404, NotFound), db)
    case Some(i) => Respond(db, i, verifyCode, CodeExpired(now, db.users[i].verifyCodeExpiry))
  }

  /** An unknown username is answered 404 and nothing changes. */
  lemma UnknownUserNotFound(db: Db, username: string, verifyCode: string, now: int)
    requires Valid(db)
    requires forall j :: 0 <= j < |db.users| ==> db.users[j].username != Trim(username)
    ensures Post(db, username, verifyCode, now) == Outcome(Failure(404, NotFound), db)
  {
  }

  /** The matching, unexpired code verifies record i and changes nothing else. */
  lemma MatchVerifies(db: Db, username: string, now: int, i: nat)
    requires Valid(db) && i < |db.users| && db.users[i].username == Trim(username)
    requires now < db.users[i].verifyCodeExpiry
    ensures Post(db, username, db.users[i].verifyCode, now) ==
            Outcome(Success(200, Verified, NoPayload), db.(users := db.users[i := db.users[i].(isVerified := true)]))
  {
    FindOneByKey(db, ByUsername(username), i);
  }

  /** An expired code is refused with the "expired" message whether or not it matches. */
  lemma ExpiredRejectsAnyCode(db: Db, username: string, verifyCode: string, now: int, i: nat)
    requires Valid(db) && i < |db.users| && db.users[i].username == Trim(username)
    requires now >= db.users[i].verifyCodeExpiry
    ensures Post(db, username, verifyCode, now) == Outcome(Failure(400, Expired), db)
  {
    FindOneByKey(db, ByUsername(username), i);
  }

  /** At the very instant of expiry the correct code is already refused. */
  lemma BoundaryIsExpired(db: Db, username: string, i: nat)
    requires Valid(db) && i < |db.users| && db.users[i].username == Trim(username)
    ensures Post(db, username, db.users[i].verifyCode, db.users[i].verifyCodeExpiry) ==
            Outcome(Failure(400, Expired), db)
  {
    ExpiredRejectsAnyCode(db, username, db.users[i].verifyCode, db.users[i].verifyCodeExpiry, i);
  }

  /** A wrong code before expiry is refused as invalid. */
  lemma MismatchRejected(db: Db, username: string, verifyCode: string, now: int, i: nat)
    requires Valid(db) && i < |db.users| && db.users[i].username == Trim(username)
    requires verifyCode != db.users[i].verifyCode && now < db.users[i].verifyCodeExpiry
    ensures Post(db, username, verifyCode, now) == Outcome(Failure(400, Invalid), db)
  {
    FindOneByKey(db, ByUsername(username), i);
  }

  /** Verifying is idempotent: a second identical request answers 200 again and leaves the store
      as the first one left it. */
  lemma VerifyIdempotent(db: Db, username: string, verifyCode: string, now: int)
    requires Valid(db)
    requires Post(db, username, verifyCode, now).response.status == 200
    ensures var db1 := Post(db, username, verifyCode, now).db;
      Post(db1, username, verifyCode, now) == Outcome(Success(200, Verified, NoPayload), db1)
  {
    var i :| 0 <= i < |db.users| && db.users[i].username == Trim(username) &&
             db.users[i].verifyCode == verifyCode && !CodeExpired(now, db.users[i].verifyCodeExpiry) &&
             Post(db, username, verifyCode, now).db.users == db.users[i := db.users[i].(isVerified := true)];
    var db1 := Post(db, username, verifyCode, now).db;
    assert db1.users[i] == db.users[i].(isVerified := true);
    MatchVerifies(db1, username, now, i);
    assert db1.users[i := db1.users[i].(isVerified := true)] == db1.users;
  }

  // ---------------------------------------------------------------- the expiry path as written

  /** `new Date() >= new Date(value)` where the value read may be undefined: `new Date(undefined)`
      is an invalid date, and a comparison with it is false. */
  predicate ExpiredAsWritten(now: int, read: Option<int>) {
    match read
    case None => false
    case Some(expiry) => now >= expiry
  }

  /** The handler as written, reading the expiry through the undeclared path. */
  function PostAsWritten(db: Db, username: string, verifyCode: string, now: int): (o: Outcome)
    requires Valid(db)
    ensures Valid(o.db)
  {
    match FindOne(db.users, ByUsername(username))
    case None => Outcome(Failure(404, NotFound), db)
    case Some(i) =>
      Respond(db, i, verifyCode, ExpiredAsWritten(now, ReadDate(ExpiryPathAsWritten, db.users[i].verifyCodeExpiry)))
  }

  /** As written a code never expires: the correct code is accepted an arbitrary time after its
      expiry, where the handler meant to refuse it. */
  lemma AsWrittenCodeNeverExpires(db: Db, username: string, now: int, i: nat)
    requires Valid(db) && i < |db.users| && db.users[i].username == Trim(username)
    requires now >= db.users[i].verifyCodeExpiry
    ensures PostAsWritten(db, username, db.users[i].verifyCode, now).response.status == 200
    ensures Post(db, username, db.users[i].verifyCode, now).response == Failure(400, Expired)
  {
    FindOneByKey(db, ByUsername(username), i);
    assert ReadDate(ExpiryPathAsWritten, db.users[i].verifyCodeExpiry).None?;
    ExpiredRejectsAnyCode(db, username, db.users[i].verifyCode, now, i);
  }
}
