/**
 * POST /api/sign-in: the credential check behind the sign-in form. The identifier is matched
 * against email or username; then, in this order, a missing record, an unverified record and a
 * wrong password are refused. The store is only read.
 */
module SignIn {
  import opened Common
  import opened Text
  import opened UserModel
  import opened Api

  const InvalidCredentials := "Invalid credentials."
  const NotVerified := "Please verify your email to login."

  /** The identity the handler returns on success. */
  function Identity(u: User): (p: Payload)
    ensures p.SignedInUser? && p.id == u.id && p.username == u.username && p.email == u.email
    ensures p.isVerified == u.isVerified && p.isAcceptingMessages == u.isAcceptingMessages
  {
    SignedInUser(u.id, u.username, u.email, u.isVerified, u.isAcceptingMessages)
  }

  /** The handler. 200 comes only with the identity of a verified record that the identifier
      selects and whose hash the password matches; every other case is 401 and carries no user. */
  function Post(users: seq<User>, identifier: string, password: string): (r: Response)
    ensures r.status in {200, 401}
    ensures r.success <==> r.status == 200
    ensures r.status == 401 ==> r.payload == NoPayload
    ensures r.status == 200 ==>
              r.message == None && r.payload.SignedInUser? && r.payload.isVerified &&
              exists i :: 0 <= i < |users| && Selects(ByIdentifier(identifier), users[i]) &&
                users[i].isVerified && Matches(password, users[i].password) &&
                r.payload == Identity(users[i])
  {
    match FindOne(users, ByIdentifier(identifier))
    case None => Failure(401, InvalidCredentials)
    case Some(i) =>
      var u := users[i];
      if !u.isVerified then Failure(401, NotVerified)
      else if !Matches(password, u.password) then Failure(401, InvalidCredentials)
      else Response(200, true, None, Identity(u))
  }

  /** The lookup selects a record by either key: the email, or the username the setter trims. */
  lemma IdentifierSelectsEitherKey(identifier: string, u: User)
    ensures Selects(ByIdentifier(identifier), u) <==> u.email == identifier || u.username == Trim(identifier)
  {
  }

  /** No record is selected: 401 "Invalid credentials.". */
  lemma UnknownIdentifierRefused(users: seq<User>, identifier: string, password: string)
    requires forall j :: 0 <= j < |users| ==> users[j].email != identifier && users[j].username != Trim(identifier)
    ensures Post(users, identifier, password) == Failure(401, InvalidCredentials)
  {
  }

  /** An unverified record is refused before the password is compared, so the answer is the same
      whatever the password. */
  lemma UnverifiedRefusedWhateverPassword(users: seq<User>, identifier: string, password: string, other: string)
    requires FindOne(users, ByIdentifier(identifier)).Some?
    requires !users[FindOne(users, ByIdentifier(identifier)).value].isVerified
    ensures Post(users, identifier, password) == Failure(401, NotVerified)
    ensures Post(users, identifier, other) == Post(users, identifier, password)
  {
  }

  /** A wrong password for a verified record gets exactly the answer an unknown identifier gets,
      so the response does not reveal that the account exists. */
  lemma WrongPasswordLooksUnknown(users: seq<User>, identifier: string, password: string)
    requires FindOne(users, ByIdentifier(identifier)).Some?
    requires var u := users[FindOne(users, ByIdentifier(identifier)).value];
      u.isVerified && !Matches(password, u.password)
    ensures Post(users, identifier, password) == Post([], identifier, password)
  {
  }

  /** The right password for a verified record signs in with that record's identity. */
  lemma CorrectPasswordSignsIn(users: seq<User>, identifier: string, password: string, salt: nat)
    requires FindOne(users, ByIdentifier(identifier)).Some?
    requires var u := users[FindOne(users, ByIdentifier(identifier)).value];
      u.isVerified && u.password == Hash(password, salt)
    ensures var u := users[FindOne(users, ByIdentifier(identifier)).value];
      Post(users, identifier, password) == Response(200, true, None, Identity(u))
  {
    HashMatchesExactly(password, password, salt);
  }

  /** On a valid store a verified record signs in by its email with its password. */
  lemma SignInByEmail(db: Db, i: nat, password: string, salt: nat)
    requires Valid(db) && i < |db.users| && db.users[i].isVerified
    requires db.users[i].password == Hash(password, salt)
    requires forall j :: 0 <= j < i ==> db.users[j].username != Trim(db.users[i].email)
    ensures Post(db.users, db.users[i].email, password) == Response(200, true, None, Identity(db.users[i]))
  {
    var r := FindOne(db.users, ByIdentifier(db.users[i].email));
    assert Selects(ByIdentifier(db.users[i].email), db.users[i]);
    assert r.Some?;
  }
}
