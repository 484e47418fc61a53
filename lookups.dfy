/**
 * GET /api/check-username-unique: the sign-up form's availability check. The query parameter is
 * validated with the username rule; a valid name is taken exactly when a verified user holds it.
 */
module CheckUsernameUnique {
  import opened Common
  import opened Text
  import opened UserModel
  import opened Api
  import opened SignUpSchema

  /** zod's message for a parameter that is absent (`searchParams.get` gives null). */
  const ExpectedString := "Expected string, received null"
  const Taken := "Username is already taken"
  const Available := "Username is available"

  /** The handler; `param` is the `username` query parameter, None when it is absent. */
  function Get(users: seq<User>, param: Option<string>): (r: Response)
    ensures r.status in {200, 400}
    ensures r.success <==> r.status == 200
    ensures r.status == 200 ==> r == Success(200, Available, NoPayload)
    ensures r.status == 200 <==>
              param.Some? && UsernameValid(param.value) &&
              forall j :: 0 <= j < |users| ==> !(users[j].username == param.value && users[j].isVerified)
  {
    match param
    case None => Failure(400, ExpectedString)
    case Some(s) =>
      if !UsernameValid(s) then
        Failure(400, JoinWith(UsernameIssues(s), ", "))
      else
        ValidUsernameIsTrimmed(s);
        if FindOne(users, ByVerifiedUsername(s)).Some? then Failure(400, Taken)
        else Success(200, Available, NoPayload)
  }

  /** An invalid name is answered 400 with the rule's messages joined by ", "; there is always at
      least one of them. */
  lemma InvalidNameReported(users: seq<User>, s: string)
    requires !UsernameValid(s)
    ensures Get(users, Some(s)) == Failure(400, JoinWith(UsernameIssues(s), ", "))
    ensures UsernameIssues(s) != []
    // A name failing two checks gets both messages, separated by ", ".
    ensures |UsernameIssues(s)| == 2 ==>
              Get(users, Some(s)).message == Some(UsernameIssues(s)[0] + ", " + UsernameIssues(s)[1])
  {
    var issues := UsernameIssues(s);
    if |issues| == 2 {
      JoinWithAppend([issues[0]], issues[1], ", ");
      assert [issues[0]] + [issues[1]] == issues;
    }
  }

  /** A valid name is reported taken exactly when a verified user holds it. */
  lemma TakenIffVerifiedHolder(users: seq<User>, s: string)
    requires UsernameValid(s)
    ensures Get(users, Some(s)) == Failure(400, Taken) <==>
              exists j :: 0 <= j < |users| && users[j].username == s && users[j].isVerified
    ensures Get(users, Some(s)) == Failure(400, Taken) || Get(users, Some(s)) == Success(200, Available, NoPayload)
  {
    ValidUsernameIsTrimmed(s);
    var r := Get(users, Some(s));
    if FindOne(users, ByVerifiedUsername(s)).Some? {
      assert r == Failure(400, Taken);
    } else {
      assert r == Success(200, Available, NoPayload);
      assert forall j :: 0 <= j < |users| ==> !Selects(ByVerifiedUsername(s), users[j]);
    }
  }

  /** A name held only by unverified users is available. */
  lemma UnverifiedHolderLeavesNameAvailable(users: seq<User>, s: string)
    requires UsernameValid(s)
    requires forall j :: 0 <= j < |users| && users[j].username == s ==> !users[j].isVerified
    ensures Get(users, Some(s)) == Success(200, Available, NoPayload)
  {
    TakenIffVerifiedHolder(users, s);
  }
}

/**
 * GET /api/get-user-by-username: the id of the user with a username, for the public message page.
 * No session is needed and unverified users are found as well.
 */
module GetUserByUsername {
  import opened Common
  import opened Text
  import opened UserModel
  import opened Api

  const NotFound := "Could Not Find User."
  const Found := "User Found."

  /** The handler. An absent parameter filters on null, which no stored username equals. */
  function Get(users: seq<User>, param: Option<string>): (r: Response)
    ensures r.status in {200, 404}
    ensures r.success <==> r.status == 200
    ensures r.status == 404 ==> r == Failure(404, NotFound)
    ensures r.status == 200 ==>
              param.Some? && r.message == Some(Found) && r.payload.FoundUser? &&
              exists i :: 0 <= i < |users| && users[i].username == Trim(param.value) && users[i].id == r.payload.userId
    ensures r.status == 404 <==>
              param.None? || forall j :: 0 <= j < |users| ==> users[j].username != Trim(param.value)
  {
    match param
    case None => Failure(404, NotFound)
    case Some(s) =>
      match FindOne(users, ByUsername(s))
      case None => Failure(404, NotFound)
      case Some(i) => Success(200, Found, FoundUser(users[i].id))
  }

  /** On a valid store the holder of the username is found, verified or not. */
  lemma HolderFound(db: Db, s: string, i: nat)
    requires Valid(db) && i < |db.users| && db.users[i].username == Trim(s)
    ensures Get(db.users, Some(s)) == Success(200, Found, FoundUser(db.users[i].id))
  {
    FindOneByKey(db, ByUsername(s), i);
  }

  /** No record has the trimmed username: 404. */
  lemma NoHolderNotFound(users: seq<User>, s: string)
    requires forall j :: 0 <= j < |users| ==> users[j].username != Trim(s)
    ensures Get(users, Some(s)) == Failure(404, NotFound)
  {
  }
}
