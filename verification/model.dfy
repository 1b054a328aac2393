/**
 The document store behind the item and comment routes, the caller
 identity the token middleware attaches, the handler outcomes and the
 live events. The store is three collections keyed by document id; a
 Mongoose `findById` is a map lookup, `save` an insert, `deleteOne` a
 removal.
 */
module Model {
  import opened Js

  type UserId = string
  type ItemId = string
  type CommentId = string

  /** A registered user; the routes here only read users. */
  datatype User = User(name: string, email: string, phone: Option<string>)

  /**
   A lost/found report. `kind` is the document's `type` field; `user` is
   the owner's id.
   */
  datatype Item = Item(
    name: string,
    location: string,
    description: Option<string>,
    kind: string,
    date: string,
    user: UserId,
    phone: Option<string>,
    image: Option<string>)

  /** A remark on an item; `createdAt` is the timestamp set when it is saved. */
  datatype Comment = Comment(itemId: ItemId, userId: UserId, text: string, createdAt: int)

  datatype Store = Store(
    users: map<UserId, User>,
    items: map<ItemId, Item>,
    comments: map<CommentId, Comment>)

  /**
   Who is calling. `Anonymous` stands for every request whose bearer token
   the token middleware rejects (absent, malformed, expired or forged);
   `Authenticated(id)` for the identity it attaches as `req.user.id`.
   */
  datatype Caller = Anonymous | Authenticated(id: UserId)

  /** How a handler ends: its JSON body on success, or the error status it sends. */
  datatype Outcome<+T> =
    | Ok(value: T)
    | ValidationError   // 400
    | Unauthorized      // 401, taken to be what the token middleware sends
    | Forbidden         // 403
    | NotFound          // 404
    | InternalError     // 500, a handler that threw

  /** A live event broadcast to every connected client. */
  datatype Event = NewComment(itemId: ItemId, text: string, userId: UserId)

  /** What a handler produces: its outcome, the store after it and the events it emitted. */
  datatype Reply<+T> = Reply(outcome: Outcome<T>, store: Store, events: seq<Event>)

  /** A reply that leaves the store as it was and emits nothing. */
  function Reject<T>(s: Store, o: Outcome<T>): Reply<T>
  {
    Reply(o, s, [])
  }

  /** The HTTP status a handler answers with; `success` is 201 for creations, 200 otherwise. */
  function Status<T>(o: Outcome<T>, success: int): int
  {
    match o
    case Ok(_) => success
    case ValidationError => 400
    case Unauthorized => 401
    case Forbidden => 403
    case NotFound => 404
    case InternalError => 500
  }

  /** A user reference resolved by `populate`: the user's record, or null when it is gone. */
  function Lookup(users: map<UserId, User>, id: UserId): Option<User>
  {
    if id in users then Some(users[id]) else None
  }
}
