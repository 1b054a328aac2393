/**
 The backend as a state machine: the document store together with the
 log of live events broadcast so far, advanced one HTTP request at a time
 by the item and comment handlers. Properties here range over every
 request, and over runs of requests.
 */
module Server {
  import opened Js
  import opened Model
  import ItemRoutes
  import CommentRoutes

  /**
   The requests the routes answer. Ids a creation assigns and the clock
   readings it uses travel with the request. Listing an item's comments
   is left out here: it is a method that only reads the store.
   */
  datatype Request =
    | PostItem(caller: Caller, form: ItemRoutes.ItemForm, file: Option<string>, now: string, newItemId: ItemId)
    | ListMine(caller: Caller)
    | ListAll
    | GetItem(caller: Caller, itemId: ItemId)
    | DeleteItem(caller: Caller, itemId: ItemId)
    | ContactOwner(caller: Caller, itemId: ItemId)
    | PostComment(caller: Caller, itemId: ItemId, text: Option<string>, at: int, newCommentId: CommentId)
    | DeleteComment(caller: Caller, commentId: CommentId)

  /** The durable store and every live event broadcast so far, oldest first. */
  datatype State = State(store: Store, log: seq<Event>)

  /** The ids a creation request carries are fresh, as the store's id generator guarantees. */
  predicate Admissible(s: Store, req: Request)
  {
    match req
    case PostItem(_, _, _, _, id) => id !in s.items
    case PostComment(_, _, _, _, id) => id !in s.comments
    case _ => true
  }

  /** What one request does: the handler's store, its events appended to the log, and its HTTP status. */
  function Step(st: State, req: Request): (r: (State, int))
    requires Admissible(st.store, req)
    ensures |r.0.log| == |st.log| || |r.0.log| == |st.log| + 1
    ensures r.0.log[..|st.log|] == st.log
    ensures r.1 in {200, 201, 400, 401, 403, 404, 500}
  {
    match req
    case PostItem(caller, form, file, now, id) =>
      var rep := ItemRoutes.CreateItem(st.store, caller, form, file, now, id);
      (State(rep.store, st.log + rep.events), Status(rep.outcome, 201))
    case ListMine(caller) =>
      var rep := ItemRoutes.ListMine(st.store, caller);
      (State(rep.store, st.log + rep.events), Status(rep.outcome, 200))
    case ListAll =>
      var rep := ItemRoutes.ListAll(st.store);
      (State(rep.store, st.log + rep.events), Status(rep.outcome, 200))
    case GetItem(caller, id) =>
      var rep := ItemRoutes.GetItem(st.store, caller, id);
      (State(rep.store, st.log + rep.events), Status(rep.outcome, 200))
    case DeleteItem(caller, id) =>
      var rep := ItemRoutes.DeleteItem(st.store, caller, id);
      (State(rep.store, st.log + rep.events), Status(rep.outcome, 200))
    case ContactOwner(caller, id) =>
      var rep := ItemRoutes.ContactOwner(st.store, caller, id);
      (State(rep.store, st.log + rep.events), Status(rep.outcome, 200))
    case PostComment(caller, itemId, text, at, id) =>
      var rep := CommentRoutes.CreateComment(st.store, caller, itemId, text, at, id);
      (State(rep.store, st.log + rep.events), Status(rep.outcome, 201))
    case DeleteComment(caller, id) =>
      var rep := CommentRoutes.DeleteComment(st.store, caller, id);
      (State(rep.store, st.log + rep.events), Status(rep.outcome, 200))
  }

  /** The caller a request carries; `ListAll` is public and has none. */
  function CallerOf(req: Request): Option<Caller>
  {
    match req
    case ListAll => None
    case PostItem(c, _, _, _, _) => Some(c)
    case ListMine(c) => Some(c)
    case GetItem(c, _) => Some(c)
    case DeleteItem(c, _) => Some(c)
    case ContactOwner(c, _) => Some(c)
    case PostComment(c, _, _, _, _) => Some(c)
    case DeleteComment(c, _) => Some(c)
  }

  /**
   What the handlers guarantee of every stored record: a comment's text is
   not blank, an item has a truthy name, location, type and date, and an
   item's phone is either null or a non-empty string.
   */
  predicate WellFormed(s: Store)
  {
    && (forall id :: id in s.comments ==> !Blank(s.comments[id].text))
    && (forall id :: id in s.items ==>
          && s.items[id].name != [] && s.items[id].location != [] && s.items[id].kind != []
          && s.items[id].date != [] && s.items[id].phone != Some([]))
  }

  /** A request from a caller the token middleware rejects changes nothing and is answered 401. */
  lemma AnonymousChangesNothing(st: State, req: Request)
    requires Admissible(st.store, req) && CallerOf(req) == Some(Anonymous)
    ensures Step(st, req).0 == st
    ensures Step(st, req).1 == 401
  {
  }

  /** Every request keeps the store well formed, provided the clock's ISO timestamp is non-empty. */
  lemma StepPreservesWellFormed(st: State, req: Request)
    requires Admissible(st.store, req) && WellFormed(st.store)
    requires req.PostItem? ==> req.now != []
    ensures WellFormed(Step(st, req).0.store)
  {
  }

  /**
   No request rewrites a stored record: whatever survives a request is
   unchanged, users included. In particular owner references never change.
   */
  lemma RecordsNeverRewritten(st: State, req: Request)
    requires Admissible(st.store, req)
    ensures
      var s, s' := st.store, Step(st, req).0.store;
      && s'.users == s.users
      && (forall id :: id in s.items && id in s'.items ==> s'.items[id] == s.items[id])
      && (forall id :: id in s.comments && id in s'.comments ==> s'.comments[id] == s.comments[id])
  {
  }

  /**
   Only an owner removes: a record that disappears was deleted by a request
   whose caller is the record's stored owner.
   */
  lemma OnlyOwnersRemove(st: State, req: Request)
    requires Admissible(st.store, req)
    ensures
      var s, s' := st.store, Step(st, req).0.store;
      && (forall id :: id in s.items && id !in s'.items ==>
            req == DeleteItem(Authenticated(s.items[id].user), id))
      && (forall id :: id in s.comments && id !in s'.comments ==>
            req == DeleteComment(Authenticated(s.comments[id].userId), id))
  {
  }

  /**
   A request broadcasts an event exactly when it saved a comment, and the
   event carries the saved comment's item, text and author. Nothing else
   ever reaches the live channel.
   */
  lemma EventIffCommentSaved(st: State, req: Request)
    requires Admissible(st.store, req)
    ensures
      var st' := Step(st, req).0;
      (|st'.log| == |st.log| + 1) <==> (req.PostComment? && req.newCommentId in st'.store.comments)
    ensures
      var st' := Step(st, req).0;
      |st'.log| == |st.log| + 1 ==>
        var c := st'.store.comments[req.newCommentId];
        && req.newCommentId !in st.store.comments
        && st'.log[|st.log|] == NewComment(c.itemId, c.text, c.userId)
        && req.caller == Authenticated(c.userId) && c.itemId == req.itemId
  {
  }

  // ---------------------------------------------------------------------
  // Runs of requests
  // ---------------------------------------------------------------------

  /** Every request of the run finds its fresh ids fresh when it is handled. */
  predicate AdmissibleRun(st: State, reqs: seq<Request>)
    decreases |reqs|
  {
    reqs == [] || (Admissible(st.store, reqs[0]) && AdmissibleRun(Step(st, reqs[0]).0, reqs[1..]))
  }

  /** The state after handling `reqs` in order. */
  function Run(st: State, reqs: seq<Request>): State
    requires AdmissibleRun(st, reqs)
    decreases |reqs|
  {
    if reqs == [] then st else Run(Step(st, reqs[0]).0, reqs[1..])
  }

  /** The number of requests in `reqs` that post a comment. */
  function CommentPosts(reqs: seq<Request>): nat
  {
    if reqs == [] then 0 else (if reqs[0].PostComment? then 1 else 0) + CommentPosts(reqs[1..])
  }

  /** Well-formedness holds after any run that starts from a well-formed store. */
  lemma {:induction false} RunPreservesWellFormed(st: State, reqs: seq<Request>)
    requires AdmissibleRun(st, reqs) && WellFormed(st.store)
    requires forall k :: 0 <= k < |reqs| && reqs[k].PostItem? ==> reqs[k].now != []
    ensures WellFormed(Run(st, reqs).store)
    decreases |reqs|
  {
    if reqs != [] {
      StepPreservesWellFormed(st, reqs[0]);
      var st' := Step(st, reqs[0]).0;
      assert forall k :: 0 <= k < |reqs[1..]| ==> reqs[1..][k] == reqs[k + 1];
      RunPreservesWellFormed(st', reqs[1..]);
    }
  }

  /**
   The event log only grows, never by more than one event per comment
   post: what was broadcast stays broadcast.
   */
  lemma {:induction false} RunExtendsLog(st: State, reqs: seq<Request>)
    requires AdmissibleRun(st, reqs)
    ensures |st.log| <= |Run(st, reqs).log| <= |st.log| + CommentPosts(reqs)
    ensures Run(st, reqs).log[..|st.log|] == st.log
    decreases |reqs|
  {
    if reqs != [] {
      var st' := Step(st, reqs[0]).0;
      EventIffCommentSaved(st, reqs[0]);
      RunExtendsLog(st', reqs[1..]);
      assert Run(st, reqs).log[..|st'.log|] == st'.log;
      assert st'.log[..|st.log|] == st.log;
    }
  }
}
