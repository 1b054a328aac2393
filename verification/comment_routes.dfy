/**
 The comment routes (`routes/commentRoutes.js`): post a comment on an item
 and broadcast it, list an item's comments newest first, and delete a
 comment as its author.
 */
module CommentRoutes {
  import opened Js
  import opened Model

  /** A comment author as `populate("userId", "name email")` resolves it: the user's id, name and email. */
  datatype Author = Author(id: UserId, name: string, email: string)

  /**
   One entry of a comment listing: the stored comment's fields, with the
   `userId` reference replaced by the populated author, or null when that
   user document is gone.
   */
  datatype ListedComment = ListedComment(id: CommentId, itemId: ItemId, userId: Option<Author>, text: string, createdAt: int)

  /**
   POST /item/:itemId — add a comment and broadcast it. `text` is the body's
   `text` field (None when absent, which makes `text.trim()` throw and the
   handler answer 500); `now` is the save timestamp and `newId` the id the
   store assigns. The item id is taken as given: nothing checks that such an
   item exists. The `newComment` event is emitted only once the save is done.
   */
  function CreateComment(s: Store, caller: Caller, itemId: ItemId, text: Option<string>, now: int, newId: CommentId)
    : (r: Reply<(CommentId, Comment)>)
    requires newId !in s.comments
    ensures caller.Anonymous? ==> r.outcome == Unauthorized
    ensures caller.Authenticated? && text.None? ==> r.outcome == InternalError
    ensures caller.Authenticated? && text.Some? && Blank(text.value) ==> r.outcome == ValidationError
    ensures r.outcome.Ok? <==> caller.Authenticated? && text.Some? && !Blank(text.value)
    ensures !r.outcome.Ok? ==> r.store == s && r.events == []
    ensures r.outcome.Ok? ==>
      var c := r.outcome.value.1;
      && r.outcome.value.0 == newId
      && c.userId == caller.id && c.itemId == itemId && c.text == text.value && c.createdAt == now
      && r.store == s.(comments := s.comments[newId := c])
      && r.events == [NewComment(itemId, text.value, caller.id)]
  {
    match caller
    case Anonymous => Reject(s, Unauthorized)
    case Authenticated(uid) =>
      match text
      case None => Reject(s, InternalError)
      case Some(t) =>
        if TrimsToEmpty(t) then Reject(s, ValidationError)
        else
          var c := Comment(itemId, uid, t, now);
          var saved := s.(comments := s.comments[newId := c]);
          Reply(Ok((newId, c)), saved, [NewComment(itemId, t, uid)])
  }

  /**
   DELETE /:commentId — the author removes a comment. A missing comment is
   reported before ownership is compared.
   */
  function DeleteComment(s: Store, caller: Caller, id: CommentId): (r: Reply<()>)
    ensures r.events == []
    ensures caller.Anonymous? ==> r.outcome == Unauthorized
    ensures caller.Authenticated? && id !in s.comments ==> r.outcome == NotFound
    ensures caller.Authenticated? && id in s.comments && s.comments[id].userId != caller.id ==> r.outcome == Forbidden
    ensures r.outcome.Ok? <==> caller.Authenticated? && id in s.comments && s.comments[id].userId == caller.id
    ensures !r.outcome.Ok? ==> r.store == s
    ensures r.outcome.Ok? ==>
      && r.store == s.(comments := s.comments - {id})
  {
    match caller
    case Anonymous => Reject(s, Unauthorized)
    case Authenticated(uid) =>
      if id !in s.comments then Reject(s, NotFound)
      else if s.comments[id].userId != uid then Reject(s, Forbidden)
      else Reply(Ok(()), s.(comments := s.comments - {id}), [])
  }

  // ---------------------------------------------------------------------
  // Listing: GET /item/:itemId
  // ---------------------------------------------------------------------

  /** The ids of the stored comments that reference `itemId`. */
  function CommentsOn(s: Store, itemId: ItemId): set<CommentId>
  {
    set id | id in s.comments && s.comments[id].itemId == itemId
  }

  /** The listing entry for a stored comment, with its author resolved. */
  function Entry(s: Store, id: CommentId): ListedComment
    requires id in s.comments
  {
    var c := s.comments[id];
    var author := match Lookup(s.users, c.userId)
                  case Some(u) => Some(Author(c.userId, u.name, u.email))
                  case None => None;
    ListedComment(id, c.itemId, author, c.text, c.createdAt)
  }

  function Ids(r: seq<ListedComment>): set<CommentId>
  {
    set k | 0 <= k < |r| :: r[k].id
  }

  predicate DistinctIds(r: seq<ListedComment>)
  {
    forall i, j :: 0 <= i < j < |r| ==> r[i].id != r[j].id
  }

  /** Ordered by `createdAt` descending: `.sort({ createdAt: -1 })`. */
  predicate NewestFirst(r: seq<ListedComment>)
  {
    forall i, j :: 0 <= i < j < |r| ==> r[i].createdAt >= r[j].createdAt
  }

  /**
   `r` is a correct answer to the listing of `itemId`: each stored comment
   on that item exactly once, each as stored and with its author resolved,
   newest first. Comments with equal timestamps may come in any order.
   */
  predicate IsListing(s: Store, itemId: ItemId, r: seq<ListedComment>)
  {
    && (forall k :: 0 <= k < |r| ==> r[k].id in s.comments && r[k] == Entry(s, r[k].id))
    && Ids(r) == CommentsOn(s, itemId)
    && DistinctIds(r)
    && NewestFirst(r)
  }

  /**
   Where `e` goes in a newest-first sequence: after every strictly newer
   entry and before every entry that is not newer.
   */
  function InsertionPoint(r: seq<ListedComment>, e: ListedComment): (k: nat)
    requires NewestFirst(r)
    ensures k <= |r|
    ensures forall i :: 0 <= i < k ==> r[i].createdAt > e.createdAt
    ensures forall i :: k <= i < |r| ==> r[i].createdAt <= e.createdAt
  {
    if r == [] || e.createdAt >= r[0].createdAt then 0
    else 1 + InsertionPoint(r[1..], e)
  }

  /** Where each entry of `r` lands when `e` is spliced in at position `k`. */
  lemma SpliceIndices(r: seq<ListedComment>, e: ListedComment, k: nat)
    requires k <= |r|
    ensures |r[..k] + [e] + r[k..]| == |r| + 1
    ensures forall i :: 0 <= i < k ==> (r[..k] + [e] + r[k..])[i] == r[i]
    ensures (r[..k] + [e] + r[k..])[k] == e
    ensures forall i :: k < i <= |r| ==> (r[..k] + [e] + r[k..])[i] == r[i - 1]
  {
  }

  /** Splicing `e` in at its insertion point keeps the sequence newest first. */
  lemma SpliceKeepsNewestFirst(r: seq<ListedComment>, e: ListedComment, k: nat)
    requires NewestFirst(r) && k == InsertionPoint(r, e)
    ensures NewestFirst(r[..k] + [e] + r[k..])
  {
  }

  /** Splicing `e` in adds exactly its id. */
  lemma SpliceIds(r: seq<ListedComment>, e: ListedComment, k: nat)
    requires k <= |r|
    ensures Ids(r[..k] + [e] + r[k..]) == Ids(r) + {e.id}
    ensures e.id !in Ids(r) && DistinctIds(r) ==> DistinctIds(r[..k] + [e] + r[k..])
  {
    var r' := r[..k] + [e] + r[k..];
    SpliceIndices(r, e, k);
    forall id | id in Ids(r) + {e.id}
      ensures id in Ids(r')
    {
      if id == e.id {
        assert r'[k].id == id;
      } else {
        var j :| 0 <= j < |r| && r[j].id == id;
        if j < k { assert r'[j].id == id; } else { assert r'[j + 1].id == id; }
      }
    }
    forall id | id in Ids(r')
      ensures id in Ids(r) + {e.id}
    {
      var j :| 0 <= j < |r'| && r'[j].id == id;
      if j < k { assert r[j].id == id; } else if j > k { assert r[j - 1].id == id; }
    }
    if e.id !in Ids(r) && DistinctIds(r) {
      forall i, j | 0 <= i < j < |r'|
        ensures r'[i].id != r'[j].id
      {
        if i == k { assert r[j - 1].id in Ids(r); }
        else if j == k { assert r[i].id in Ids(r); }
      }
    }
  }

  /**
   GET /item/:itemId — the comments on an item, newest first, with authors
   resolved; public. Only reads the store.
   */
  method ListComments(s: Store, itemId: ItemId) returns (r: seq<ListedComment>)
    ensures IsListing(s, itemId, r)
  {
    var pending := CommentsOn(s, itemId);
    r := [];
    while pending != {}
      invariant pending <= CommentsOn(s, itemId)
      invariant Ids(r) == CommentsOn(s, itemId) - pending
      invariant forall k :: 0 <= k < |r| ==> r[k].id in s.comments && r[k] == Entry(s, r[k].id)
      invariant DistinctIds(r)
      invariant NewestFirst(r)
      decreases pending
    {
      var id :| id in pending;
      var e := Entry(s, id);
      var k := InsertionPoint(r, e);
      SpliceKeepsNewestFirst(r, e, k);
      SpliceIds(r, e, k);
      SpliceIndices(r, e, k);
      r := r[..k] + [e] + r[k..];
      pending := pending - {id};
    }
  }

  // ---------------------------------------------------------------------
  // Properties relating the comment handlers
  // ---------------------------------------------------------------------

  /** Strictly decreasing `createdAt`: what newest-first becomes when no two timestamps tie. */
  predicate StrictlyNewestFirst(r: seq<ListedComment>)
  {
    forall i, j :: 0 <= i < j < |r| ==> r[i].createdAt > r[j].createdAt
  }

  /** A non-empty sequence lists its head's id. */
  lemma HeadIdListed(r: seq<ListedComment>)
    ensures |r| > 0 ==> r[0].id in Ids(r)
  {
  }

  /** Dropping the head of a sequence without repeated ids drops exactly the head's id. */
  lemma IdsOfTail(r: seq<ListedComment>)
    requires |r| > 0 && DistinctIds(r)
    ensures Ids(r[1..]) == Ids(r) - {r[0].id}
  {
  }

  /** Two strictly newest-first sequences over the same ids, agreeing on what each id names, start alike. */
  lemma SameHead(r1: seq<ListedComment>, r2: seq<ListedComment>)
    requires |r1| > 0
    requires StrictlyNewestFirst(r1) && StrictlyNewestFirst(r2)
    requires Ids(r1) == Ids(r2)
    requires forall i, j :: 0 <= i < |r1| && 0 <= j < |r2| && r1[i].id == r2[j].id ==> r1[i] == r2[j]
    ensures |r2| > 0 && r1[0] == r2[0]
  {
    assert r1[0].id in Ids(r2);
    var j :| 0 <= j < |r2| && r2[j].id == r1[0].id;
    assert r2[0].id in Ids(r1);
    var i :| 0 <= i < |r1| && r1[i].id == r2[0].id;
    assert r1[i] == r2[0] && r1[0] == r2[j];
    assert j == 0;
  }

  /** Two strictly newest-first sequences that agree on which entry each id names are equal. */
  lemma {:induction false} StrictOrderDetermined(r1: seq<ListedComment>, r2: seq<ListedComment>)
    requires StrictlyNewestFirst(r1) && StrictlyNewestFirst(r2)
    requires DistinctIds(r1) && DistinctIds(r2)
    requires Ids(r1) == Ids(r2)
    requires forall i, j :: 0 <= i < |r1| && 0 <= j < |r2| && r1[i].id == r2[j].id ==> r1[i] == r2[j]
    ensures r1 == r2
    decreases |r1|
  {
    if r1 == [] {
      HeadIdListed(r2);
    } else {
      SameHead(r1, r2);
      var t1, t2 := r1[1..], r2[1..];
      IdsOfTail(r1);
      IdsOfTail(r2);
      forall i, j | 0 <= i < |t1| && 0 <= j < |t2| && t1[i].id == t2[j].id
        ensures t1[i] == t2[j]
      {
        assert r1[i + 1] == t1[i] && r2[j + 1] == t2[j];
      }
      StrictOrderDetermined(t1, t2);
      assert r1 == [r1[0]] + t1 && r2 == [r2[0]] + t2;
    }
  }

  /** No two comments on `itemId` share a timestamp. */
  predicate NoTies(s: Store, itemId: ItemId)
  {
    forall a, b :: a in CommentsOn(s, itemId) && b in CommentsOn(s, itemId) && a != b ==>
      s.comments[a].createdAt != s.comments[b].createdAt
  }

  /** Without ties a correct listing is strictly newest first. */
  lemma ListingStrictWithoutTies(s: Store, itemId: ItemId, r: seq<ListedComment>)
    requires NoTies(s, itemId) && IsListing(s, itemId, r)
    ensures StrictlyNewestFirst(r)
  {
  }

  /**
   When no two comments on an item share a timestamp, the listing is fully
   determined: any two correct answers are the same sequence.
   */
  lemma ListingUniqueWithoutTies(s: Store, itemId: ItemId, r1: seq<ListedComment>, r2: seq<ListedComment>)
    requires NoTies(s, itemId)
    requires IsListing(s, itemId, r1) && IsListing(s, itemId, r2)
    ensures r1 == r2
  {
    ListingStrictWithoutTies(s, itemId, r1);
    ListingStrictWithoutTies(s, itemId, r2);
    StrictOrderDetermined(r1, r2);
  }

  /** A successful post stores exactly the new comment, under its new id. */
  lemma PostedStore(s: Store, caller: UserId, itemId: ItemId, text: string, now: int, newId: CommentId)
    requires newId !in s.comments && !Blank(text)
    ensures CreateComment(s, Authenticated(caller), itemId, Some(text), now, newId).store
         == s.(comments := s.comments[newId := Comment(itemId, caller, text, now)])
  {
  }

  /** Storing a comment under a fresh id adds that id to the comments on its item and no other. */
  lemma CommentsOnInsert(s: Store, itemId: ItemId, newId: CommentId, c: Comment)
    requires newId !in s.comments
    ensures c.itemId == itemId ==> CommentsOn(s.(comments := s.comments[newId := c]), itemId) == CommentsOn(s, itemId) + {newId}
    ensures c.itemId != itemId ==> CommentsOn(s.(comments := s.comments[newId := c]), itemId) == CommentsOn(s, itemId)
  {
  }

  /**
   A comment posted later than every comment already on the item heads
   every listing of that item.
   */
  lemma NewCommentListedFirst(s: Store, caller: UserId, itemId: ItemId, text: string, now: int, newId: CommentId, r: seq<ListedComment>)
    requires newId !in s.comments && !Blank(text)
    requires forall id :: id in CommentsOn(s, itemId) ==> s.comments[id].createdAt < now
    requires IsListing(CreateComment(s, Authenticated(caller), itemId, Some(text), now, newId).store, itemId, r)
    ensures |r| > 0 && r[0].id == newId
    ensures r[0].itemId == itemId && r[0].text == text && r[0].createdAt == now
    ensures r[0].userId == if caller in s.users then Some(Author(caller, s.users[caller].name, s.users[caller].email)) else None
  {
    var c := Comment(itemId, caller, text, now);
    var s' := s.(comments := s.comments[newId := c]);
    PostedStore(s, caller, itemId, text, now, newId);
    CommentsOnInsert(s, itemId, newId, c);
    assert newId in Ids(r);
    var k :| 0 <= k < |r| && r[k].id == newId;
    assert r[0].id in Ids(r);
    assert k == 0;
  }

  /** Three comments on one item with increasing timestamps, listed in reverse, form a correct listing. */
  lemma ReversedTripleIsListing(s: Store, itemId: ItemId, a: CommentId, b: CommentId, c: CommentId)
    requires CommentsOn(s, itemId) == {a, b, c}
    requires a != b && b != c && a != c
    requires s.comments[a].createdAt < s.comments[b].createdAt < s.comments[c].createdAt
    ensures IsListing(s, itemId, [Entry(s, c), Entry(s, b), Entry(s, a)])
    ensures NoTies(s, itemId)
  {
    var expected := [Entry(s, c), Entry(s, b), Entry(s, a)];
    assert Ids(expected) == {a, b, c} by {
      assert expected[0].id == c && expected[1].id == b && expected[2].id == a;
    }
  }

  /** The same three comments stored directly under their ids are listed in reverse order. */
  lemma ThreeStoredListedNewestFirst(
    s: Store, itemId: ItemId, c0: Comment, c1: Comment, c2: Comment,
    id0: CommentId, id1: CommentId, id2: CommentId, r: seq<ListedComment>)
    requires CommentsOn(s, itemId) == {}
    requires c0.itemId == itemId && c1.itemId == itemId && c2.itemId == itemId
    requires c0.createdAt < c1.createdAt < c2.createdAt
    requires id0 !in s.comments && id1 !in s.comments && id2 !in s.comments
    requires id0 != id1 && id1 != id2 && id0 != id2
    requires IsListing(s.(comments := s.comments[id0 := c0][id1 := c1][id2 := c2]), itemId, r)
    ensures |r| == 3 && r[0].id == id2 && r[1].id == id1 && r[2].id == id0
  {
    var s1 := s.(comments := s.comments[id0 := c0]);
    var s2 := s1.(comments := s1.comments[id1 := c1]);
    var s3 := s2.(comments := s2.comments[id2 := c2]);
    CommentsOnInsert(s, itemId, id0, c0);
    CommentsOnInsert(s1, itemId, id1, c1);
    CommentsOnInsert(s2, itemId, id2, c2);
    assert s3 == s.(comments := s.comments[id0 := c0][id1 := c1][id2 := c2]);
    ReversedTripleIsListing(s3, itemId, id0, id1, id2);
    ListingUniqueWithoutTies(s3, itemId, r, [Entry(s3, id2), Entry(s3, id1), Entry(s3, id0)]);
  }

  /**
   Three comments posted on an item in time order, each by any user, are
   listed in reverse: the last one first.
   */
  lemma ThreeCommentsListedNewestFirst(
    s0: Store, s1: Store, s2: Store, s3: Store, u0: UserId, u1: UserId, u2: UserId, itemId: ItemId,
    text0: string, text1: string, text2: string,
    time0: int, time1: int, time2: int,
    id0: CommentId, id1: CommentId, id2: CommentId,
    r: seq<ListedComment>)
    requires CommentsOn(s0, itemId) == {}
    requires !Blank(text0) && !Blank(text1) && !Blank(text2)
    requires time0 < time1 < time2
    requires id0 !in s0.comments && id1 !in s0.comments && id2 !in s0.comments
    requires id0 != id1 && id1 != id2 && id0 != id2
    requires s1 == CreateComment(s0, Authenticated(u0), itemId, Some(text0), time0, id0).store
    requires id1 !in s1.comments && s2 == CreateComment(s1, Authenticated(u1), itemId, Some(text1), time1, id1).store
    requires id2 !in s2.comments && s3 == CreateComment(s2, Authenticated(u2), itemId, Some(text2), time2, id2).store
    requires IsListing(s3, itemId, r)
    ensures |r| == 3 && r[0].id == id2 && r[1].id == id1 && r[2].id == id0
  {
    var c0 := Comment(itemId, u0, text0, time0);
    var c1 := Comment(itemId, u1, text1, time1);
    var c2 := Comment(itemId, u2, text2, time2);
    PostedStore(s0, u0, itemId, text0, time0, id0);
    PostedStore(s1, u1, itemId, text1, time1, id1);
    PostedStore(s2, u2, itemId, text2, time2, id2);
    assert s3 == s0.(comments := s0.comments[id0 := c0][id1 := c1][id2 := c2]);
    ThreeStoredListedNewestFirst(s0, itemId, c0, c1, c2, id0, id1, id2, r);
  }

  /** Posting a comment and deleting it as its author gives back the original store. */
  lemma CreateThenDeleteCommentRestores(s: Store, caller: UserId, itemId: ItemId, text: string, now: int, newId: CommentId)
    requires newId !in s.comments && !Blank(text)
    ensures
      var posted := CreateComment(s, Authenticated(caller), itemId, Some(text), now, newId);
      var deleted := DeleteComment(posted.store, Authenticated(caller), newId);
      posted.outcome.Ok? && deleted.outcome == Ok(()) && deleted.store == s
  {
  }
}
