/**
 * POST /api/send-message: an anonymous message to a user by username. A session is required, the
 * recipient must exist and accept messages; then one message, with no sender recorded, is added
 * for the recipient. The content is not length-checked here; the message schema's required
 * validator still refuses the empty string at save time.
 */
module SendMessage {
  import opened Common
  import opened Text
  import opened UserModel
  import opened Api

  const SignInFirst := "Please Sign In to send message."
  const NotFound := "User not found."
  const NotAccepting := "User is not accepting messages."
  const SendError := "Error sending message."
  const Sent := "Message sent successfully."

  /** The message added for recipient u: a fresh id, no sender, the content and the clock. */
  function NewMessage(db: Db, u: User, content: string, now: int): Message {
    Message(db.nextId, u.id, None, content, now)
  }

  /** The handler. Users never change; only a 200 writes, and then it adds one message. */
  function Post(db: Db, session: Session, username: string, content: string, now: int): (o: Outcome)
    requires Valid(db)
    ensures Valid(o.db)
    ensures o.db.users == db.users
    ensures o.response.status in {200, 401, 403, 404, 500}
    ensures o.response.success <==> o.response.status == 200
    ensures o.response.status != 200 ==> o.db == db
    ensures o.response.status == 200 ==>
              session.Some? && content != "" &&
              o.db.nextId == db.nextId + 1 &&
              exists i :: 0 <= i < |db.users| && db.users[i].username == Trim(username) &&
                db.users[i].isAcceptingMessages &&
                o.db.messages == db.messages + [Message(db.nextId, db.users[i].id, None, content, now)]
  {
    if session.None? then
      Outcome(Failure(401, SignInFirst), db)
    else
      match FindOne(db.users, ByUsername(username))
      case None => Outcome(Failure(404, NotFound), db)
      case Some(i) =>
        var u := db.users[i];
        if !u.isAcceptingMessages then
          Outcome(Failure(403, NotAccepting), db)
        else if content == "" then
          Outcome(Failure(500, SendError), db)      // the required validator of `content`
        else
          var m := NewMessage(db, u, content, now);
          assert HasUser(db.users, m.receiverId) by { assert db.users[i].id == m.receiverId; }
          AppendMessageKeepsValid(db, m);
          Outcome(Success(200, Sent, NoPayload), db.(messages := db.messages + [m], nextId := db.nextId + 1))
  }

  /** Without a session nothing is stored. */
  lemma NoSessionRefused(db: Db, username: string, content: string, now: int)
    requires Valid(db)
    ensures Post(db, None, username, content, now) == Outcome(Failure(401, SignInFirst), db)
  {
  }

  /** An unknown recipient is answered 404 and nothing is stored. */
  lemma UnknownRecipient(db: Db, sender: nat, username: string, content: string, now: int)
    requires Valid(db)
    requires forall j :: 0 <= j < |db.users| ==> db.users[j].username != Trim(username)
    ensures Post(db, Some(sender), username, content, now) == Outcome(Failure(404, NotFound), db)
  {
  }

  /** A recipient who does not accept messages is answered 403 and the message count stays. */
  lemma RecipientNotAccepting(db: Db, sender: nat, username: string, content: string, now: int, i: nat)
    requires Valid(db) && i < |db.users| && db.users[i].username == Trim(username)
    requires !db.users[i].isAcceptingMessages
    ensures Post(db, Some(sender), username, content, now) == Outcome(Failure(403, NotAccepting), db)
  {
    FindOneByKey(db, ByUsername(username), i);
  }

  /** To an accepting recipient, non-empty content of any length is delivered: exactly one message
      is added, addressed to the recipient, with that content, the clock and no sender, and the
      recipient's inbox grows by that message. */
  lemma Delivered(db: Db, sender: nat, username: string, content: string, now: int, i: nat)
    requires Valid(db) && i < |db.users| && db.users[i].username == Trim(username)
    requires db.users[i].isAcceptingMessages && content != ""
    ensures var o := Post(db, Some(sender), username, content, now);
      && o.response == Success(200, Sent, NoPayload)
      && o.db == db.(messages := db.messages + [Message(db.nextId, db.users[i].id, None, content, now)],
                     nextId := db.nextId + 1)
      && MessagesFor(o.db.messages, db.users[i].id) ==
           MessagesFor(db.messages, db.users[i].id) + [Message(db.nextId, db.users[i].id, None, content, now)]
  {
    FindOneByKey(db, ByUsername(username), i);
    MessagesForAppend(db.messages, Message(db.nextId, db.users[i].id, None, content, now), db.users[i].id);
  }

  /** The store after any request: unchanged, or with one message for the recipient the lookup
      found, without a sender. */
  lemma StoreAfterPost(db: Db, session: Session, username: string, content: string, now: int)
    requires Valid(db)
    ensures var o := Post(db, session, username, content, now);
      || o.db == db
      || (&& FindOne(db.users, ByUsername(username)).Some?
          && o.db == db.(messages := db.messages + [NewMessage(db, db.users[FindOne(db.users, ByUsername(username)).value], content, now)],
                         nextId := db.nextId + 1))
  {
  }

  /** Content over the message form's 200-unit limit is still delivered: only the form checks it. */
  lemma LongContentDelivered(db: Db, sender: nat, username: string, content: string, now: int, i: nat)
    requires Valid(db) && i < |db.users| && db.users[i].username == Trim(username)
    requires db.users[i].isAcceptingMessages && Utf16Len(content) > 200
    ensures Post(db, Some(sender), username, content, now).response.status == 200
  {
    FindOneByKey(db, ByUsername(username), i);
  }

  /** Empty content reaches the save and is refused by the required validator: 500, nothing stored. */
  lemma EmptyContentRefused(db: Db, sender: nat, username: string, now: int, i: nat)
    requires Valid(db) && i < |db.users| && db.users[i].username == Trim(username)
    requires db.users[i].isAcceptingMessages
    ensures Post(db, Some(sender), username, "", now) == Outcome(Failure(500, SendError), db)
  {
    FindOneByKey(db, ByUsername(username), i);
  }

  // ---------------------------------------------------------------- the message list as written

  /** The list the handler pushes onto; the schema declares it as `message`. */
  const ListPathAsWritten := "messages"

  /** The handler as written: pushing onto a path the document does not have throws, and the
      catch answers 500. */
  function PostAsWritten(db: Db, session: Session, username: string, content: string, now: int): (o: Outcome)
    requires Valid(db)
    ensures Valid(o.db)
  {
    if session.None? then
      Outcome(Failure(401, SignInFirst), db)
    else
      match FindOne(db.users, ByUsername(username))
      case None => Outcome(Failure(404, NotFound), db)
      case Some(i) =>
        if !db.users[i].isAcceptingMessages then Outcome(Failure(403, NotAccepting), db)
        else if ListPathAsWritten !in DeclaredPaths || content == "" then Outcome(Failure(500, SendError), db)
        else Post(db, session, username, content, now)
  }

  /** As written no message is ever delivered: the store never changes and a recipient who accepts
      messages gets 500 where the handler meant 200. */
  lemma AsWrittenNeverDelivers(db: Db, session: Session, username: string, content: string, now: int)
    requires Valid(db)
    ensures PostAsWritten(db, session, username, content, now).db == db
    ensures PostAsWritten(db, session, username, content, now).response.status != 200
  {
    assert ListPathAsWritten !in DeclaredPaths;
  }
}
