# Lost-and-found backend: the item and comment routes as a state machine

This project models the request handlers of a lost-and-found listings
backend (an Express application over a MongoDB document store with a
Socket.IO live channel). Users post lost/found items, comment on items and
look up how to contact an item's owner. The model covers the decision logic
of the two route modules, `routes/items.js` and `routes/commentRoutes.js`:

- which caller may do what (a 401 for a rejected token, ownership-gated
  deletes, "not found" reported before "not owner");
- validation and default filling on item creation, trim-based rejection of
  blank comments;
- what each handler reads and writes in the store, and the `newComment`
  live event emitted after a comment is saved;
- the comment listing, newest first, and the contact lookup's phone
  fallback.

The store is three maps from document id to record (users, items,
comments). Each handler is a pure function from the store, the caller and
the request's inputs to a `Reply`: the outcome (`Ok(body)`,
`ValidationError`, `Unauthorized`, `Forbidden`, `NotFound` or
`InternalError`), the store afterwards and the events broadcast. `Server`
strings the handlers together into a state machine whose state is the store
plus the log of broadcast events, and proves properties over every request
and over runs of requests.

Files:

- `js.dfy` (module `Js`): optional values, JavaScript truthiness of strings,
  `a || b`, and `String.prototype.trim` with its whitespace set.
- `model.dfy` (module `Model`): users, items, comments, the store, callers,
  outcomes, events, HTTP status codes.
- `item_routes.dfy` (module `ItemRoutes`): create, list mine, list all, get
  one, delete and contact owner, with lemmas relating them.
- `comment_routes.dfy` (module `CommentRoutes`): create-and-broadcast,
  delete, and the newest-first listing, with lemmas relating them.
- `server.dfy` (module `Server`): the request dispatcher, the store
  invariant it keeps, and properties over runs.

Inputs the code takes from its environment are parameters: the caller
identity the token middleware attaches (`Caller`), the id the store assigns
to a new document (required to be fresh, as MongoDB's id generator
guarantees), the clock (`now` as an ISO string for item dates, an integer
timestamp for a comment's `createdAt`) and the file name multer gave an
uploaded image.

Facts about the code that the model follows:

- there is no update (PUT) route for items;
- `GET /items/:id` sits behind the token middleware (routes/items.js:68);
- creating an item emits no live event (routes/items.js:38-39);
- creating a comment does not check that the item exists
  (routes/commentRoutes.js:74-78);
- a request without a `text` field makes `text.trim()` throw, so the
  comment route answers 500 rather than 400 (routes/commentRoutes.js:72, 90-92);
- a contact lookup on an item whose owner document is gone dereferences a
  null owner, so it answers 500 (routes/items.js:100, 103, 107-108).

## Model

| member | source | states |
|---|---|---|
| ItemRoutes.CreateItem | routes/items.js:18-39 | An unauthenticated caller gets 401. A missing or empty name, location or type gets a validation error and nothing is stored. Otherwise exactly one item is added under the fresh id, owned by the caller. Its date is the sent date, or `now` when none was sent. Its phone is the sent phone, or null when it is empty. Its image is the uploaded file name, or null. Name, location, type and description are copied. No event is emitted. |
| ItemRoutes.ListMine | routes/items.js:47-50 | 401 without a token. Otherwise the answer holds exactly the stored items whose owner is the caller, as stored. The store is unchanged. |
| ItemRoutes.ListAll | routes/items.js:58-61 | Public. The answer holds every stored item with its stored fields. The owner reference is replaced by the owner's id and name, or by null when the owner document is gone, so an orphaned item shows no owner id. The store is unchanged. |
| ItemRoutes.GetItem | routes/items.js:68-72 | 401 without a token, NotFound for an unknown id, otherwise the stored item. The store is unchanged. |
| ItemRoutes.DeleteItem | routes/items.js:79-87 | 401 without a token. An unknown id is NotFound before ownership is compared. Any caller who is not the owner gets Forbidden and the store is unchanged. The owner's delete removes exactly that item; comments that reference it stay. |
| ItemRoutes.ContactOwner | routes/items.js:94-108 | 401 without a token, NotFound for an unknown id, 500 when the owner document is gone. Otherwise the owner's name and email are returned. The phone is the item's phone when it is truthy, else the owner's profile phone. |
| ItemRoutes.CreateThenGet | routes/items.js:27-72 | After a successful create, get-by-id of the new id returns the created item, owned by the creator, to any signed-in caller. |
| ItemRoutes.CreateThenDeleteRestores | routes/items.js:81-86 | Creating an item and then deleting it as its owner succeeds and gives back the original store. |
| ItemRoutes.DeleteThenGetNotFound | routes/items.js:70-86 | After the owner deletes an item, get-by-id answers NotFound. |
| ItemRoutes.CreateShowsInMineOnly | routes/items.js:49 | A new item appears in its creator's "mine" list, and every other user's "mine" list is what it was. |
| ItemRoutes.CreateThenContact | routes/items.js:34-100 | After a create by a known user, the contact lookup on the new item answers the phone sent with the form when it was truthy. Otherwise it answers the creator's profile phone. The creator's name and email come with it. |
| ItemRoutes.MineAndAllAgree | routes/items.js:49-60 | Every item in a user's "mine" list is in the public list with the same fields. There it is populated with that user, or null when the user document is gone. Every public item whose owner is populated is in that owner's "mine" list. |
| ItemRoutes.ContactPhoneFallbackExample | routes/items.js:100 | With no phone on the item, the owner's profile phone 555-1000 is returned. With 555-2000 on the item, that phone is returned. |
| CommentRoutes.CreateComment | routes/commentRoutes.js:69-89 | 401 without a token. A missing text answers 500. A text that is empty or all whitespace is a validation error: nothing is stored and nothing is emitted. Otherwise exactly one comment is added under the fresh id, with the caller as author, the path's item id and the text unchanged. Whether the item exists is not checked. Exactly one `newComment {itemId, text, userId}` event is emitted, and only in this case. |
| CommentRoutes.DeleteComment | routes/commentRoutes.js:110-119 | 401 without a token. An unknown id is NotFound before ownership is compared. A caller who is not the author gets Forbidden and the store is unchanged. The author's delete removes exactly that comment and nothing else. |
| CommentRoutes.ListComments | routes/commentRoutes.js:97-102 | Public. The answer lists every stored comment on the item exactly once, and no other comment. Each entry shows the stored fields, with the author reference replaced by the author's id, name and email, or by null when the author document is gone. Entries are ordered by `createdAt`, newest first. |
| CommentRoutes.InsertionPoint | routes/commentRoutes.js:101 | In a newest-first listing, the place for a comment comes after every strictly newer entry and before every entry that is not newer. |
| CommentRoutes.ListingUniqueWithoutTies | routes/commentRoutes.js:99-101 | When no two comments on the item share a timestamp, any two correct listings are the same sequence. |
| CommentRoutes.NewCommentListedFirst | routes/commentRoutes.js:74-101 | A comment posted later than every comment already on the item comes first in every listing of that item. It shows the posted text, time and item, and the poster as author, or null when the poster has no user document. |
| CommentRoutes.ThreeCommentsListedNewestFirst | routes/commentRoutes.js:99-101 | Comments C1, C2, C3 posted on an item in that time order, by the same or by different users, are listed as [C3, C2, C1]. |
| CommentRoutes.CreateThenDeleteCommentRestores | routes/commentRoutes.js:74-118 | Posting a comment and then deleting it as its author succeeds and gives back the original store. |
| Js.TrimEmptyIffBlank | routes/commentRoutes.js:72 | `text.trim()` is empty exactly when every character of the text is ECMAScript whitespace. |
| Js.Trim | routes/commentRoutes.js:72 | `trim` returns a contiguous slice of its input. Only whitespace lies outside the slice, and the slice neither starts nor ends with whitespace. |
| Js.Or | routes/items.js:100 | `a || b` on optional strings is one of its operands. It is truthy exactly when either operand is. A truthy `a` gives `a` and a falsy `a` gives `b`, so `"" || null` is null. |
| Server.Step | index.js:111-114 | Each request appends to the live-event log, by at most one event, and never rewrites earlier events. It answers with one of 200, 201, 400, 401, 403, 404 or 500. |
| Server.AnonymousChangesNothing | routes/items.js:18 | A request the token middleware rejects changes neither the store nor the event log, and is answered 401. |
| Server.StepPreservesWellFormed | routes/items.js:23-34 | Every request keeps the store well formed. Each comment's text is not blank. Each item has a non-empty name, location, type and date. Each item's phone is null or non-empty. |
| Server.RecordsNeverRewritten | routes/items.js:18-110 | No request changes a record that stays in the store: users, items and comments are only added or removed, so owner references never change. |
| Server.OnlyOwnersRemove | routes/items.js:83-86 | A record that disappears in a request was removed by a delete request for that id whose caller is the record's stored owner. |
| Server.EventIffCommentSaved | routes/commentRoutes.js:80-87 | A request broadcasts an event exactly when it saved a new comment. The event carries that comment's item id, text and author, and the author is the caller. |
| Server.RunPreservesWellFormed | routes/commentRoutes.js:72-80 | Over any run of requests from a well-formed store, the store stays well formed. |
| Server.RunExtendsLog | routes/commentRoutes.js:83-87 | Over any run, the event log only grows, keeping its earlier events, and gains at most one event per comment post. |

## Left out

- index.js: the Express and CORS setup, the HTTP and Socket.IO servers, the connect/disconnect logging, the MongoDB connection and `listen`. They are I/O plumbing with no decisions. `Server.Step` stands for the route mounting.
- Token verification: its middleware is not part of this model. Answering 401 for every rejected token, whether absent, malformed or invalid, is an assumption, since the status that middleware sends cannot be read here. `Caller.Anonymous` stands for every rejected token, and `Authenticated(id)` for the identity the middleware attaches.
- Live delivery: `io.emit` is an append to the event log. Which sockets are connected, and delivery to each, are not modelled; every event goes to all connections.
- Multer's disk storage and its `Date.now()`-based file names: filesystem I/O. The upload is only an optional file name, and a file stored before a validation error is not tracked.
- The 500 answers caused by a store call that throws, such as a malformed id failing to cast to an ObjectId or a lost connection, and the `console.error` logging. Only the two 500s that follow from the handler's own logic are modelled: a missing comment text and a missing owner.
- Mongoose schema casting and validation (the `type` enum, `date` cast to a Date), and the `_id` and `__v` fields of listed documents (the model keys them by id instead). The schema files are not part of this model. Dates are kept as the strings the handler passes.
- ItemRoutes.ListMine, ItemRoutes.ListAll: answer maps from id to item, so the store's natural order of the JSON array is not modelled. The source sorts neither list.
- CommentRoutes.ListComments: comments with equal `createdAt` may come in any order, as the source's sort leaves ties unspecified. It is a method over an immutable store, so "the store is unchanged" holds by construction. For the same reason `Server.Step` has no comment-listing request.
- CommentRoutes.CreateComment: a `text` field that is present but not a string, such as a JSON number, is not modelled. In the source it also makes `trim` throw.
- The live channel's binding: routes/commentRoutes.js:64 imports `io` from index.js, but index.js exports nothing. It declares `io` at index.js:87 and only hands it to `app.set("io", io)` at index.js:104, so as written the module link fails before any route is served. The model assumes `io` is the Socket.IO server created there.
- Concurrency: each request is handled atomically. In the source every handler awaits the store between its read and its write (routes/items.js:81 and 86; routes/commentRoutes.js:112 and 118, 80 and 83), so requests can interleave. Two interleaved owner deletes of one record both answer 200 there, while in the model the second answers NotFound.
- ItemRoutes.CreateItem: the form fields are strings or absent. A JSON request body bypasses multer, so fields can be other JSON values: `name: 0` is falsy and answers 400, and `name: 42` is stored by Mongoose's cast as "42". Non-string fields are not modelled.
- The commented-out earlier versions at the top of routes/commentRoutes.js and index.js are dead code.
