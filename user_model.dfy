/**
 * The user record of the schema, the message record the inbox query joins, and the store that
 * holds both, with the constraints the schema declares (required fields, the trimmed username,
 * two unique indexes) stated as the store invariant `Valid`.
 *
 * The two places where the handlers name a path the schema does not declare are resolved here:
 * the code expiry is one field, `verifyCodeExpiry`, and messages are one table, `Db.messages`,
 * whose records carry a receiver id and an optional sender id.
 */
module UserModel {
  import opened Common
  import opened Text

  // ---------------------------------------------------------------- password hashing

  /** An ideal salted password hash: what `bcrypt.hash(password, salt)` yields. */
  datatype Digest = Digest(salt: nat, secret: string)

  function Hash(password: string, salt: nat): Digest {
    Digest(salt, password)
  }

  /** `bcrypt.compare(password, digest)`. */
  predicate Matches(password: string, digest: Digest) {
    digest.secret == password
  }

  /** A digest matches the password it was made from and no other, whatever the salt. */
  lemma HashMatchesExactly(password: string, candidate: string, salt: nat)
    ensures Matches(candidate, Hash(password, salt)) <==> candidate == password
  {
  }

  // ---------------------------------------------------------------- records

  /** One document of the users collection. Dates are milliseconds since the epoch. */
  datatype User = User(
    id: nat,
    username: string,
    email: string,
    password: Digest,
    verifyCode: string,
    verifyCodeExpiry: int,
    isVerified: bool,
    isAcceptingMessages: bool)

  /** One document of the messages collection: `senderId` is absent when no sender was recorded. */
  datatype Message = Message(id: nat, receiverId: nat, senderId: Option<nat>, content: string, createdAt: int)

  /** The whole store; `nextId` stands for the object-id generator: every id in use is below it. */
  datatype Db = Db(users: seq<User>, messages: seq<Message>, nextId: nat)

  /** The schema defaults: a new account is unverified and accepts messages. */
  const DefaultIsVerified: bool := false
  const DefaultIsAcceptingMessages: bool := true

  // ---------------------------------------------------------------- the schema's constraints

  /** The required validators (a string path fails on "") and the `trim` setter on username, whose
      result neither starts nor ends with whitespace. */
  predicate WellFormed(u: User) {
    u.username != "" && Trimmed(u.username) && u.email != "" && u.verifyCode != ""
  }

  /** The unique index on username. */
  predicate UniqueUsernames(users: seq<User>) {
    forall i, j :: 0 <= i < j < |users| ==> users[i].username != users[j].username
  }

  /** The unique index on email. */
  predicate UniqueEmails(users: seq<User>) {
    forall i, j :: 0 <= i < j < |users| ==> users[i].email != users[j].email
  }

  predicate UniqueUserIds(users: seq<User>) {
    forall i, j :: 0 <= i < j < |users| ==> users[i].id != users[j].id
  }

  predicate UniqueMessageIds(messages: seq<Message>) {
    forall i, j :: 0 <= i < j < |messages| ==> messages[i].id != messages[j].id
  }

  /** Some record has this id. */
  predicate HasUser(users: seq<User>, id: nat) {
    exists i :: 0 <= i < |users| && users[i].id == id
  }

  /** The store invariant: every record satisfies the schema, both unique indexes hold, ids are
      distinct and issued by the generator, and every message is addressed to an existing user. */
  predicate Valid(db: Db) {
    && (forall i :: 0 <= i < |db.users| ==> WellFormed(db.users[i]) && db.users[i].id < db.nextId)
    && UniqueUsernames(db.users)
    && UniqueEmails(db.users)
    && UniqueUserIds(db.users)
    && UniqueMessageIds(db.messages)
    && (forall k :: 0 <= k < |db.messages| ==>
          db.messages[k].id < db.nextId && HasUser(db.users, db.messages[k].receiverId))
  }

  /** The empty store the application starts from. */
  lemma EmptyIsValid(nextId: nat)
    ensures Valid(Db([], [], nextId))
  {
  }

  // ---------------------------------------------------------------- findOne

  /** The filter documents the handlers pass to findOne. Values for the username path are cast
      through the schema's `trim` setter, as mongoose does for query filters. */
  datatype Query =
    | ById(id: nat)
    | ByUsername(username: string)
    | ByVerifiedUsername(username: string)
    | ByEmail(email: string)
    | ByIdentifier(identifier: string)   // { $or: [ { email }, { username } ] }

  predicate Selects(q: Query, u: User) {
    match q
    case ById(id) => u.id == id
    case ByUsername(name) => u.username == Trim(name)
    case ByVerifiedUsername(name) => u.username == Trim(name) && u.isVerified
    case ByEmail(email) => u.email == email
    case ByIdentifier(s) => u.email == s || u.username == Trim(s)
  }

  /** `findOne(filter)`: the first record, in natural order, that the filter selects. */
  function FindOne(users: seq<User>, q: Query): (r: Option<nat>)
    ensures r.Some? ==> r.value < |users| && Selects(q, users[r.value])
    ensures r.Some? ==> forall j :: 0 <= j < r.value ==> !Selects(q, users[j])
    ensures r.None? <==> forall j :: 0 <= j < |users| ==> !Selects(q, users[j])
  {
    if users == [] then None
    else if Selects(q, users[0]) then Some(0)
    else match FindOne(users[1..], q)
      case None => None
      case Some(i) => Some(i + 1)
  }

  /** A filter on a unique key: it selects at most one record of a valid store. */
  predicate KeyQuery(q: Query) {
    q.ById? || q.ByUsername? || q.ByVerifiedUsername? || q.ByEmail?
  }

  /** On a valid store a key filter finds exactly the record it selects. */
  lemma FindOneByKey(db: Db, q: Query, i: nat)
    requires Valid(db) && KeyQuery(q)
    requires i < |db.users| && Selects(q, db.users[i])
    ensures FindOne(db.users, q) == Some(i)
  {
    var r := FindOne(db.users, q);
    assert r.Some?;
  }

  // ---------------------------------------------------------------- save()

  /** What `save()` checks before it writes `u` at position `at` (|users| for a new record): the
      schema validators (required paths, the email `match` validator, whose outcome
      `emailFormatOk` stands for), then the two unique indexes against every other record. */
  predicate SaveAccepted(users: seq<User>, u: User, at: nat, emailFormatOk: bool) {
    && WellFormed(u)
    && emailFormatOk
    && (forall j :: 0 <= j < |users| && j != at ==>
          users[j].username != u.username && users[j].email != u.email)
  }

  /** Inserting an accepted record under a fresh id keeps the store valid. */
  lemma InsertKeepsValid(db: Db, u: User, emailFormatOk: bool)
    requires Valid(db)
    requires SaveAccepted(db.users, u, |db.users|, emailFormatOk) && u.id == db.nextId
    ensures Valid(db.(users := db.users + [u], nextId := db.nextId + 1))
  {
    var users' := db.users + [u];
    var n := |db.users|;
    assert forall i :: 0 <= i < n ==> users'[i] == db.users[i];
    assert users'[n] == u;
    assert UniqueUsernames(users') by {
      forall i, j | 0 <= i < j < |users'| ensures users'[i].username != users'[j].username {
        if j == n { assert i != n; }
      }
    }
    assert UniqueEmails(users') by {
      forall i, j | 0 <= i < j < |users'| ensures users'[i].email != users'[j].email {
        if j == n { assert i != n; }
      }
    }
    assert UniqueUserIds(users');
    forall k | 0 <= k < |db.messages|
      ensures HasUser(users', db.messages[k].receiverId)
    {
      var i :| 0 <= i < |db.users| && db.users[i].id == db.messages[k].receiverId;
      assert users'[i].id == db.messages[k].receiverId;
    }
  }

  /** Rewriting record i with an accepted record under the same id keeps the store valid. */
  lemma ReplaceKeepsValid(db: Db, i: nat, u: User, emailFormatOk: bool)
    requires Valid(db) && i < |db.users|
    requires SaveAccepted(db.users, u, i, emailFormatOk) && u.id == db.users[i].id
    ensures Valid(db.(users := db.users[i := u]))
  {
    var db' := db.(users := db.users[i := u]);
    forall k | 0 <= k < |db'.messages|
      ensures HasUser(db'.users, db'.messages[k].receiverId)
    {
      var j :| 0 <= j < |db.users| && db.users[j].id == db.messages[k].receiverId;
      assert db'.users[j].id == db.users[j].id;
    }
  }

  /** Changing only flags of a record (verified, accepting messages) keeps the store valid. */
  lemma UpdateFlagsKeepsValid(db: Db, i: nat, verified: bool, accepting: bool)
    requires Valid(db) && i < |db.users|
    ensures Valid(db.(users := db.users[i := db.users[i].(isVerified := verified, isAcceptingMessages := accepting)]))
  {
    ReplaceKeepsValid(db, i, db.users[i].(isVerified := verified, isAcceptingMessages := accepting), true);
  }

  /** Appending a message under a fresh id, addressed to an existing user, keeps the store valid. */
  lemma AppendMessageKeepsValid(db: Db, m: Message)
    requires Valid(db) && m.id == db.nextId && HasUser(db.users, m.receiverId)
    ensures Valid(db.(messages := db.messages + [m], nextId := db.nextId + 1))
  {
  }

  /** The messages addressed to a user, in table order. */
  function MessagesFor(messages: seq<Message>, id: nat): (r: seq<Message>)
    ensures forall k :: 0 <= k < |r| ==> r[k] in messages && r[k].receiverId == id
  {
    if messages == [] then []
    else (if messages[0].receiverId == id then [messages[0]] else []) + MessagesFor(messages[1..], id)
  }

  /** Filtering distributes over an append. */
  lemma {:induction false} MessagesForAppend(messages: seq<Message>, m: Message, id: nat)
    ensures MessagesFor(messages + [m], id) == MessagesFor(messages, id) + (if m.receiverId == id then [m] else [])
  {
    if messages == [] {
      assert messages + [m] == [m];
    } else {
      assert (messages + [m])[1..] == messages[1..] + [m];
      MessagesForAppend(messages[1..], m, id);
    }
  }

  /** No message of a valid store is addressed to the id the generator hands out next, so a new
      record starts with an empty message list. */
  lemma {:induction false} NoMessagesForFreshId(db: Db)
    requires Valid(db)
    ensures MessagesFor(db.messages, db.nextId) == []
  {
    NoMessagesForUnusedId(db.users, db.messages, db.nextId);
  }

  lemma {:induction false} NoMessagesForUnusedId(users: seq<User>, messages: seq<Message>, id: nat)
    requires !HasUser(users, id)
    requires forall k :: 0 <= k < |messages| ==> HasUser(users, messages[k].receiverId)
    ensures MessagesFor(messages, id) == []
  {
    if messages != [] {
      assert HasUser(users, messages[0].receiverId);
      NoMessagesForUnusedId(users, messages[1..], id);
    }
  }

  // ---------------------------------------------------------------- schema paths

  /** The paths `userSchema` declares. The expiry path is spelled `verifiCodeExpiryDate`; this
      model's `verifyCodeExpiry` field stands for it. The message list is declared as `message`. */
  const DeclaredPaths: set<string> :=
    {"username", "email", "password", "verifyCode", "verifiCodeExpiryDate", "isVerified",
     "isAcceptingMessages", "message"}

  /** The paths with a required validator (or a default that fills them). */
  const RequiredPaths: set<string> :=
    {"username", "email", "password", "verifyCode", "verifiCodeExpiryDate", "isVerified",
     "isAcceptingMessages"}

  /** A strict schema keeps of the paths a document is given only those it declares. */
  function Kept(given: set<string>): (k: set<string>)
    ensures k <= given && k <= DeclaredPaths
    ensures forall p :: p in given && p in DeclaredPaths ==> p in k
  {
    given * DeclaredPaths
  }

  /** `save()` passes the required validators: every required path survived the cast. */
  predicate RequiredPresent(given: set<string>) {
    RequiredPaths <= Kept(given)
  }

  /** The expiry path as the sign-up and verify-code handlers spell it: not a declared path. */
  const ExpiryPathAsWritten := "verifyCodeExpiryDate"

  /** Assigning a date path of a document: a strict document ignores a path it does not declare. */
  function WriteDate(path: string, stored: int, value: int): (r: int)
    ensures path in DeclaredPaths ==> r == value
    ensures path !in DeclaredPaths ==> r == stored
  {
    if path in DeclaredPaths then value else stored
  }

  /** Reading a date path of a document: the stored value at a declared path, undefined (None) at
      a path the schema does not declare. */
  function ReadDate(path: string, stored: int): (r: Option<int>)
    ensures r.Some? <==> path in DeclaredPaths
  {
    if path in DeclaredPaths then Some(stored) else None
  }
}
