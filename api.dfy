/**
 * What a handler answers: the HTTP status and the JSON body `{ success, message, ... }`, and, for
 * a handler that writes, the store it leaves behind.
 */
module Api {
  import opened Common
  import opened UserModel

  /** One entry of the inbox that get-messages returns: `{ _id, content, createdAt, sender }`. */
  datatype Entry = Entry(id: nat, content: string, createdAt: int, sender: string)

  /** The body fields beyond `success` and `message`. */
  datatype Payload =
    | NoPayload
    | SignedInUser(id: nat, username: string, email: string, isVerified: bool, isAcceptingMessages: bool)
    | UpdatedUser(user: User)
    | AcceptanceStatus(isAcceptingMessages: bool)
    | Inbox(messages: seq<Entry>)
    | FoundUser(userId: nat)

  /** `Response.json(body, { status })`. A body without a `message` field has `message == None`. */
  datatype Response = Response(status: nat, success: bool, message: Option<string>, payload: Payload)

  /** A failure body `{ success: false, message }`. */
  function Failure(status: nat, message: string): Response {
    Response(status, false, Some(message), NoPayload)
  }

  /** A success body `{ success: true, message, ... }`. */
  function Success(status: nat, message: string, payload: Payload): Response {
    Response(status, true, Some(message), payload)
  }

  /** The answer of a handler that may write, with the store after the request. */
  datatype Outcome = Outcome(response: Response, db: Db)

  /** The caller's session: the id of the signed-in user, if any. */
  type Session = Option<nat>
}
