/**
 * /api/accept-messages: the session user's "accepting messages" switch. POST sets it to the value
 * in the body (`findOneAndUpdate` by id, returning the new document); GET reads it.
 */
module AcceptMessages {
  import opened Common
  import opened UserModel
  import opened Api

  const Unauthorized := "Unauthorized"
  const UpdateFailed := "Failed to update status of user accepting messages."
  const Updated := "Message acceptance status updated successfully."
  const ReadFailed := "Error while getting user message acceptance status."
  const Found := "User message acceptance status found successfully."

  /** POST. Only the session user's flag changes; the answer carries the updated document. A
      session whose id no record has is refused with 401, like a missing session. */
  function Post(db: Db, session: Session, flag: bool): (o: Outcome)
    requires Valid(db)
    ensures Valid(o.db)
    ensures o.db.messages == db.messages && o.db.nextId == db.nextId && |o.db.users| == |db.users|
    ensures o.response.status in {200, 401}
    ensures o.response.success <==> o.response.status == 200
    ensures o.response.status == 401 ==> o.db == db
    ensures o.response.status == 200 <==> session.Some? && HasUser(db.users, session.value)
    // The record with the session id gets the new flag; every other record stays as it was.
    ensures o.response.status == 200 ==>
              forall j :: 0 <= j < |db.users| ==>
                o.db.users[j] == if db.users[j].id == session.value then db.users[j].(isAcceptingMessages := flag)
                                 else db.users[j]
    // The answer carries that record as updated.
    ensures o.response.status == 200 ==>
              && o.response.payload.UpdatedUser?
              && o.response.payload.user.id == session.value
              && o.response.payload.user.isAcceptingMessages == flag
              && forall j :: 0 <= j < |o.db.users| && o.db.users[j].id == session.value ==>
                   o.db.users[j] == o.response.payload.user
  {
    if session.None? then
      Outcome(Failure(401, Unauthorized), db)
    else
      match FindOne(db.users, ById(session.value))
      case None => Outcome(Failure(401, UpdateFailed), db)
      case Some(i) =>
        var u := db.users[i].(isAcceptingMessages := flag);
        UpdateFlagsKeepsValid(db, i, db.users[i].isVerified, flag);
        var db' := db.(users := db.users[i := u]);
        assert forall j :: 0 <= j < |db.users| && j != i ==> db.users[j].id != session.value;
        Outcome(Success(200, Updated, UpdatedUser(u)), db')
  }

  /** GET: the session user's current flag. */
  function Get(users: seq<User>, session: Session): (r: Response)
    ensures r.status in {200, 401, 404}
    ensures r.success <==> r.status == 200
    ensures r.status == 401 <==> session.None?
    ensures session.Some? ==> (r.status == 404 <==> !HasUser(users, session.value))
    ensures r.status == 200 ==>
              r.message == Some(Found) &&
              exists i :: 0 <= i < |users| && users[i].id == session.value &&
                r.payload == AcceptanceStatus(users[i].isAcceptingMessages)
  {
    if session.None? then Failure(401, Unauthorized)
    else
      match FindOne(users, ById(session.value))
      case None => Failure(404, ReadFailed)
      case Some(i) => Success(200, Found, AcceptanceStatus(users[i].isAcceptingMessages))
  }

  /** POST v changes the session user's flag to v and nothing else. */
  lemma PostSetsFlag(db: Db, flag: bool, i: nat)
    requires Valid(db) && i < |db.users|
    ensures var o := Post(db, Some(db.users[i].id), flag);
      && o.response == Success(200, Updated, UpdatedUser(db.users[i].(isAcceptingMessages := flag)))
      && o.db == db.(users := db.users[i := db.users[i].(isAcceptingMessages := flag)])
  {
    FindOneByKey(db, ById(db.users[i].id), i);
  }

  /** On a valid store GET answers the session user's current flag. */
  lemma GetCurrentFlag(db: Db, i: nat)
    requires Valid(db) && i < |db.users|
    ensures Get(db.users, Some(db.users[i].id)) == Success(200, Found, AcceptanceStatus(db.users[i].isAcceptingMessages))
  {
    FindOneByKey(db, ById(db.users[i].id), i);
  }

  /** A session id no record has: POST answers 401, GET answers 404; neither changes anything. */
  lemma UnknownSessionUser(db: Db, id: nat, flag: bool)
    requires Valid(db) && !HasUser(db.users, id)
    ensures Post(db, Some(id), flag) == Outcome(Failure(401, UpdateFailed), db)
    ensures Get(db.users, Some(id)) == Failure(404, ReadFailed)
  {
  }

  /** Without a session both are refused with 401 and nothing changes. */
  lemma NoSessionRefused(db: Db, flag: bool)
    requires Valid(db)
    ensures Post(db, None, flag) == Outcome(Failure(401, Unauthorized), db)
    ensures Get(db.users, None) == Failure(401, Unauthorized)
  {
  }

  /** POST is idempotent: posting the same value twice leaves the store as posting it once. */
  lemma PostIdempotent(db: Db, session: Session, flag: bool)
    requires Valid(db)
    ensures var once := Post(db, session, flag);
      Post(once.db, session, flag).db == once.db
  {
    var once := Post(db, session, flag);
    var twice := Post(once.db, session, flag);
    if twice.response.status == 200 {
      assert once.response.status == 200;
      assert forall j :: 0 <= j < |once.db.users| ==> twice.db.users[j] == once.db.users[j];
    }
  }

  /** GET right after a successful POST v answers v. */
  lemma GetAfterPost(db: Db, session: Session, flag: bool)
    requires Valid(db)
    requires Post(db, session, flag).response.status == 200
    ensures Get(Post(db, session, flag).db.users, session) == Success(200, Found, AcceptanceStatus(flag))
  {
    var o := Post(db, session, flag);
    var i := FindOne(o.db.users, ById(session.value)).value;
  }

  /** Switching the flag off and back to its old value restores the store. */
  lemma ToggleTwiceRestores(db: Db, i: nat)
    requires Valid(db) && i < |db.users|
    ensures var id := db.users[i].id;
      var off := Post(db, Some(id), !db.users[i].isAcceptingMessages);
      Post(off.db, Some(id), db.users[i].isAcceptingMessages).db == db
  {
    var id := db.users[i].id;
    var off := Post(db, Some(id), !db.users[i].isAcceptingMessages);
    var on := Post(off.db, Some(id), db.users[i].isAcceptingMessages);
    FindOneByKey(db, ById(id), i);
    assert off.response.status == 200;
    assert off.db.users[i].id == id;
    FindOneByKey(off.db, ById(id), i);
    assert on.response.status == 200;
    assert forall j :: 0 <= j < |db.users| ==> on.db.users[j] == db.users[j];
  }
}
