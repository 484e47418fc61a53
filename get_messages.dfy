/**
 * GET /api/get-messages: the session user's inbox. The aggregation matches the user by id, looks
 * up the messages addressed to them in table order (no sort), looks up each message's sender by
 * id, unwinds that lookup (a message whose sender resolves to no user disappears) and projects
 * `{ _id, content, createdAt, sender }` with the sender's username.
 */
module GetMessages {
  import opened Common
  import opened UserModel
  import opened Api

  const Unauthorized := "Unauthorized"
  const NotFound := "User not found."

  /** The users whose id is `id`, in natural order. */
  function UsersWithId(users: seq<User>, id: nat): (r: seq<User>)
    ensures forall k :: 0 <= k < |r| ==> r[k] in users && r[k].id == id
  {
    if users == [] then []
    else (if users[0].id == id then [users[0]] else []) + UsersWithId(users[1..], id)
  }

  /** The inner `$lookup` of the sender: a message without a sender id finds nobody. */
  function Lookup(users: seq<User>, senderId: Option<nat>): (r: seq<User>)
    ensures forall k :: 0 <= k < |r| ==> r[k] in users && senderId == Some(r[k].id)
  {
    match senderId
    case None => []
    case Some(id) => UsersWithId(users, id)
  }

  /** `$unwind` then `$project`: one entry per sender found, none when none was found. */
  function Unwind(m: Message, senders: seq<User>): (r: seq<Entry>)
    ensures |r| == |senders|
    ensures forall k :: 0 <= k < |r| ==> r[k] == Entry(m.id, m.content, m.createdAt, senders[k].username)
  {
    if senders == [] then [] else [Entry(m.id, m.content, m.createdAt, senders[0].username)] + Unwind(m, senders[1..])
  }

  /** The inner pipeline over a list of messages, in order. */
  function Join(users: seq<User>, ms: seq<Message>): seq<Entry> {
    if ms == [] then [] else Unwind(ms[0], Lookup(users, ms[0].senderId)) + Join(users, ms[1..])
  }

  /** The entry e is the projection of message m with the username of a user whose id is m's sender. */
  predicate Describes(e: Entry, m: Message, users: seq<User>) {
    && e.id == m.id && e.content == m.content && e.createdAt == m.createdAt
    && m.senderId.Some?
    && exists j :: 0 <= j < |users| && users[j].id == m.senderId.value && users[j].username == e.sender
  }

  /** The handler. On success the body is `{ success: true, messages }` with no `message` field. */
  function Get(db: Db, session: Session): (r: Response)
    ensures r.status in {200, 401, 404}
    ensures r.success <==> r.status == 200
    ensures r.status == 401 <==> session.None?
    ensures r.status == 404 <==> session.Some? && !HasUser(db.users, session.value)
    ensures r.status == 200 ==> r.message == None && r.payload.Inbox?
    // Soundness: every entry is the projection of a message addressed to the session user.
    ensures r.status == 200 ==>
              forall e :: e in r.payload.messages ==>
                exists k :: 0 <= k < |db.messages| && db.messages[k].receiverId == session.value &&
                  Describes(e, db.messages[k], db.users)
  {
    if session.None? then Failure(401, Unauthorized)
    else
      match FindOne(db.users, ById(session.value))
      case None => Failure(404, NotFound)
      case Some(_) =>
        InboxSound(db.users, db.messages, session.value);
        Response(200, true, None, Inbox(Join(db.users, MessagesFor(db.messages, session.value))))
  }

  /** Every entry of the join describes one of the messages joined. */
  lemma {:induction false} JoinSound(users: seq<User>, ms: seq<Message>, e: Entry)
    requires e in Join(users, ms)
    ensures exists k :: 0 <= k < |ms| && Describes(e, ms[k], users)
  {
    var head := Unwind(ms[0], Lookup(users, ms[0].senderId));
    if e in head {
      var k :| 0 <= k < |head| && head[k] == e;
      var s := Lookup(users, ms[0].senderId)[k];
      var j :| 0 <= j < |users| && users[j] == s;
      assert Describes(e, ms[0], users);
    } else {
      JoinSound(users, ms[1..], e);
      var k :| 0 <= k < |ms[1..]| && Describes(e, ms[1..][k], users);
      assert ms[k + 1] == ms[1..][k];
    }
  }

  lemma InboxSound(users: seq<User>, messages: seq<Message>, id: nat)
    ensures forall e :: e in Join(users, MessagesFor(messages, id)) ==>
              exists k :: 0 <= k < |messages| && messages[k].receiverId == id && Describes(e, messages[k], users)
  {
    var ms := MessagesFor(messages, id);
    forall e | e in Join(users, ms)
      ensures exists k :: 0 <= k < |messages| && messages[k].receiverId == id && Describes(e, messages[k], users)
    {
      JoinSound(users, ms, e);
      var k :| 0 <= k < |ms| && Describes(e, ms[k], users);
      var n :| 0 <= n < |messages| && messages[n] == ms[k];
    }
  }

  /** The join keeps the order of the messages: joining two lists joins each in turn. */
  lemma {:induction false} JoinConcat(users: seq<User>, a: seq<Message>, b: seq<Message>)
    ensures Join(users, a + b) == Join(users, a) + Join(users, b)
  {
    if a == [] {
      assert a + b == b;
    } else {
      assert (a + b)[0] == a[0];
      assert (a + b)[1..] == a[1..] + b;
      JoinConcat(users, a[1..], b);
    }
  }

  /** A message of the session user whose sender is a user appears in the inbox, projected with that
      user's username. */
  lemma InboxComplete(db: Db, id: nat, k: nat, j: nat)
    requires k < |db.messages| && db.messages[k].receiverId == id
    requires j < |db.users| && db.messages[k].senderId == Some(db.users[j].id)
    requires HasUser(db.users, id)
    ensures Get(db, Some(id)).payload.Inbox?
    ensures var m := db.messages[k];
      Entry(m.id, m.content, m.createdAt, db.users[j].username) in Get(db, Some(id)).payload.messages
  {
    var m := db.messages[k];
    MessagesForContains(db.messages, id, k);
    JoinContains(db.users, MessagesFor(db.messages, id), m, j);
    assert Selects(ById(id), db.users[FindOneAt(db.users, id)]);
  }

  /** The position of a record with this id. */
  function FindOneAt(users: seq<User>, id: nat): (i: nat)
    requires HasUser(users, id)
    ensures i < |users| && users[i].id == id
  {
    if users[0].id == id then 0
    else
      assert HasUser(users[1..], id) by {
        var i :| 0 <= i < |users| && users[i].id == id;
        assert users[1..][i - 1] == users[i];
      }
      1 + FindOneAt(users[1..], id)
  }

  lemma {:induction false} MessagesForContains(messages: seq<Message>, id: nat, k: nat)
    requires k < |messages| && messages[k].receiverId == id
    ensures messages[k] in MessagesFor(messages, id)
  {
    if k > 0 {
      MessagesForContains(messages[1..], id, k - 1);
    }
  }

  lemma {:induction false} UsersWithIdContains(users: seq<User>, j: nat)
    requires j < |users|
    ensures users[j] in UsersWithId(users, users[j].id)
  {
    if j > 0 {
      UsersWithIdContains(users[1..], j - 1);
      assert users[1..][j - 1] == users[j];
    }
  }

  lemma {:induction false} JoinContains(users: seq<User>, ms: seq<Message>, m: Message, j: nat)
    requires m in ms && j < |users| && m.senderId == Some(users[j].id)
    ensures Entry(m.id, m.content, m.createdAt, users[j].username) in Join(users, ms)
  {
    if ms[0] == m {
      UsersWithIdContains(users, j);
      var senders := Lookup(users, m.senderId);
      var n :| 0 <= n < |senders| && senders[n] == users[j];
      assert Unwind(m, senders)[n] == Entry(m.id, m.content, m.createdAt, users[j].username);
    } else {
      JoinContains(users, ms[1..], m, j);
    }
  }

  /** Messages without a sender id contribute nothing: this is every message send-message stores. */
  lemma {:induction false} NoSenderDropped(users: seq<User>, ms: seq<Message>)
    requires forall k :: 0 <= k < |ms| ==> ms[k].senderId.None?
    ensures Join(users, ms) == []
  {
    if ms != [] {
      NoSenderDropped(users, ms[1..]);
    }
  }

  /** Appending a message without a sender leaves every inbox as it was. */
  lemma AnonymousMessageInvisible(db: Db, m: Message, id: nat)
    requires m.senderId.None?
    ensures Join(db.users, MessagesFor(db.messages + [m], id)) == Join(db.users, MessagesFor(db.messages, id))
  {
    MessagesForAppend(db.messages, m, id);
    var extra := if m.receiverId == id then [m] else [];
    JoinConcat(db.users, MessagesFor(db.messages, id), extra);
    NoSenderDropped(db.users, extra);
  }

  /** Hence appending a message without a sender changes no get-messages answer. */
  lemma AnonymousAppendKeepsAnswer(db: Db, m: Message, nextId: nat, reader: Session)
    requires m.senderId.None?
    ensures Get(db.(messages := db.messages + [m], nextId := nextId), reader) == Get(db, reader)
  {
    if reader.Some? {
      AnonymousMessageInvisible(db, m, reader.value);
    }
  }
}
