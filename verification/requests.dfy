/**
 The routes as one request handler and a sequential run of requests against
 the store. A comment or like on a missing post, and a create under an id
 already taken, are requests the routes cannot serve; a run that meets one
 stops with `None`.
 */
module Requests {
  import opened Wrappers
  import opened Likes
  import opened Posts

  /** One authenticated request; `caller` is the id the auth middleware supplies. */
  datatype Request =
    | CreatePost(id: PostId, caller: UserId, content: string, upload: Option<string>)
    | CommentOn(id: PostId, caller: UserId, text: string)
    | LikeToggle(id: PostId, caller: UserId)
    | DeletePost(id: PostId, caller: UserId)

  /** Whether the routes can serve `req` against `store`. */
  predicate Servable(store: Store, req: Request) {
    match req
    case CreatePost(id, _, _, _) => id !in store
    case CommentOn(id, _, _) => id in store
    case LikeToggle(id, _) => id in store
    case DeletePost(_, _) => true
  }

  /** Dispatches a request to its route. */
  function Handle(store: Store, req: Request): (s: Step)
    requires Servable(store, req)
    ensures Untouched(store, s.store, req.id)
    ensures req.id in store && req.id !in s.store ==> req.DeletePost? && req.caller == store[req.id].user
    ensures req.id !in store && req.id in s.store ==> req.CreatePost? && s.store[req.id].user == req.caller
    ensures forall k :: k in store && k in s.store ==>
      s.store[k].user == store[k].user && s.store[k].content == store[k].content
      && s.store[k].image == store[k].image
      && |store[k].comments| <= |s.store[k].comments|
      && s.store[k].comments[..|store[k].comments|] == store[k].comments
  {
    match req
    case CreatePost(id, caller, content, upload) => Create(store, id, caller, content, upload)
    case CommentOn(id, caller, text) => AddComment(store, id, caller, text)
    case LikeToggle(id, caller) => ToggleLike(store, id, caller)
    case DeletePost(id, caller) => Delete(store, id, caller)
  }

  /** Serves the requests one after another; `None` when one of them cannot be served. */
  function Run(store: Store, reqs: seq<Request>): (r: Option<Store>)
    decreases |reqs|
  {
    if |reqs| == 0 then Some(store)
    else if !Servable(store, reqs[0]) then None
    else Run(Handle(store, reqs[0]).store, reqs[1..])
  }

  /** Every request keeps every post free of duplicate likes. */
  lemma HandleKeepsValid(store: Store, req: Request)
    requires Servable(store, req) && ValidStore(store)
    ensures ValidStore(Handle(store, req).store)
  {
    if req.LikeToggle? {
      ToggleLikeKeepsValid(store, req.id, req.caller);
    }
  }

  /** After any run of requests no post holds a duplicate like. */
  lemma {:induction false} RunKeepsValid(store: Store, reqs: seq<Request>)
    requires ValidStore(store) && Run(store, reqs).Some?
    ensures ValidStore(Run(store, reqs).value)
    decreases |reqs|
  {
    if |reqs| > 0 {
      HandleKeepsValid(store, reqs[0]);
      RunKeepsValid(Handle(store, reqs[0]).store, reqs[1..]);
    }
  }

  /** A post that disappears during a run was the target of a delete request in it. */
  lemma {:induction false} RunRemovesOnlyByDelete(store: Store, reqs: seq<Request>, k: PostId)
    requires k in store && Run(store, reqs).Some? && k !in Run(store, reqs).value
    ensures exists i :: 0 <= i < |reqs| && reqs[i].DeletePost? && reqs[i].id == k
    decreases |reqs|
  {
    var next := Handle(store, reqs[0]).store;
    if k !in next {
      assert reqs[0].DeletePost? && reqs[0].id == k;
    } else {
      RunRemovesOnlyByDelete(next, reqs[1..], k);
      var i :| 0 <= i < |reqs[1..]| && reqs[1..][i].DeletePost? && reqs[1..][i].id == k;
      assert reqs[i + 1] == reqs[1..][i];
    }
  }

  /** A run that never names post `k` leaves it exactly as it was. */
  lemma {:induction false} RunFramesOtherPosts(store: Store, reqs: seq<Request>, k: PostId)
    requires Run(store, reqs).Some?
    requires forall i :: 0 <= i < |reqs| ==> reqs[i].id != k
    ensures k in Run(store, reqs).value <==> k in store
    ensures k in store ==> Run(store, reqs).value[k] == store[k]
    decreases |reqs|
  {
    if |reqs| > 0 {
      assert reqs[0].id != k;
      RunFramesOtherPosts(Handle(store, reqs[0]).store, reqs[1..], k);
    }
  }
}
