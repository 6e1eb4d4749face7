/**
 The post routes as pure transitions on an in-memory post store. A lookup by
 id is a map lookup, saving a post writes it back under its id, and deleting
 one removes its key. Each handler returns the new store together with the
 reply the route sends.
 */
module Posts {
  import opened Wrappers
  import opened Likes

  /** A post id, compared by value. */
  type PostId = string

  /** A comment embedded in a post. */
  datatype Comment = Comment(text: string, user: UserId)

  /** A stored post document. `image` is `None` when no file was uploaded. */
  datatype Post = Post(
    content: string,
    image: Option<string>,
    user: UserId,
    likes: seq<UserId>,
    comments: seq<Comment>)

  type Store = map<PostId, Post>

  /**
   What a route answers: `Created` is status 201 with the new post, `Ok` is
   status 200 with the updated post, `Deleted` is the 200 confirmation
   message, `NotFound` is 404 and `Forbidden` is 403.
   */
  datatype Reply = Created(post: Post) | Ok(post: Post) | Deleted | NotFound | Forbidden

  /** The store after a request, and the reply sent for it. */
  datatype Step = Step(store: Store, reply: Reply)

  /** The web path under which uploaded files are served. */
  const UploadPrefix: string := "/uploads/"

  /** Every post other than `id` is present in `after` exactly when it is in `before`, with the same value. */
  ghost predicate Untouched(before: Store, after: Store, id: PostId) {
    forall k :: k != id ==> (k in before <==> k in after) && (k in before ==> after[k] == before[k])
  }

  /** `after` differs from `before` at most in its comments. */
  predicate SameButComments(before: Post, after: Post) {
    after.content == before.content && after.image == before.image
    && after.user == before.user && after.likes == before.likes
  }

  /** `after` differs from `before` at most in its likes. */
  predicate SameButLikes(before: Post, after: Post) {
    after.content == before.content && after.image == before.image
    && after.user == before.user && after.comments == before.comments
  }

  /** Finding a post by id; `None` when no post has that id. */
  function Lookup(store: Store, id: PostId): (r: Option<Post>)
    ensures r.Some? <==> id in store
    ensures r.Some? ==> r.value == store[id]
  {
    if id in store then Some(store[id]) else None
  }

  /** The image path recorded for an upload: the prefix followed by the stored file name. */
  function ImagePath(upload: Option<string>): (r: Option<string>)
    ensures r.Some? <==> upload.Some?
    ensures r.Some? ==> |r.value| == |UploadPrefix| + |upload.value|
    ensures r.Some? ==> r.value[..|UploadPrefix|] == UploadPrefix && r.value[|UploadPrefix|..] == upload.value
  {
    match upload
    case None => None
    case Some(filename) => Some(UploadPrefix + filename)
  }

  /**
   Creating a post. `id` is the fresh id the store assigns to the new
   document, `caller` the authenticated user and `upload` the stored name of
   the uploaded file, if any. The content is stored as given.
   */
  function Create(store: Store, id: PostId, caller: UserId, content: string, upload: Option<string>): (s: Step)
    requires id !in store
    ensures s.reply.Created?
    ensures s.store.Keys == store.Keys + {id} && s.store[id] == s.reply.post
    ensures Untouched(store, s.store, id)
    ensures s.reply.post.user == caller && s.reply.post.content == content
    ensures s.reply.post.image.Some? <==> upload.Some?
    ensures upload.Some? ==> s.reply.post.image == Some(UploadPrefix + upload.value)
    ensures s.reply.post.likes == [] && s.reply.post.comments == []
  {
    var post := Post(content, ImagePath(upload), caller, [], []);
    Step(store[id := post], Created(post))
  }

  /** Commenting on a post, which must exist: the route dereferences the lookup without a check. */
  function AddComment(store: Store, id: PostId, caller: UserId, text: string): (s: Step)
    requires id in store
    ensures id in s.store && s.reply == Ok(s.store[id])
    ensures s.store.Keys == store.Keys
    ensures Untouched(store, s.store, id)
    ensures SameButComments(store[id], s.store[id])
    ensures var before, after := store[id].comments, s.store[id].comments;
      |after| == |before| + 1 && after[..|before|] == before && after[|before|] == Comment(text, caller)
  {
    var post := store[id];
    var updated := post.(comments := post.comments + [Comment(text, caller)]);
    Step(store[id := updated], Ok(updated))
  }

  /** Liking or unliking a post, which must exist: the route dereferences the lookup without a check. */
  function ToggleLike(store: Store, id: PostId, caller: UserId): (s: Step)
    requires id in store
    ensures id in s.store && s.reply == Ok(s.store[id])
    ensures s.store.Keys == store.Keys
    ensures Untouched(store, s.store, id)
    ensures SameButLikes(store[id], s.store[id])
    ensures caller in s.store[id].likes <==> caller !in store[id].likes
    ensures forall v :: v != caller ==> (v in s.store[id].likes <==> v in store[id].likes)
    ensures caller !in store[id].likes ==> s.store[id].likes == store[id].likes + [caller]
    ensures caller in store[id].likes ==> s.store[id].likes == Pull(store[id].likes, caller)
  {
    var post := store[id];
    var updated := post.(likes := Toggle(post.likes, caller));
    Step(store[id := updated], Ok(updated))
  }

  /** Deleting a post: only its author may, and a missing id is reported. */
  function Delete(store: Store, id: PostId, caller: UserId): (s: Step)
    ensures s.reply.Deleted? || s.reply.NotFound? || s.reply.Forbidden?
    ensures s.reply.NotFound? <==> id !in store
    ensures s.reply.Forbidden? <==> id in store && store[id].user != caller
    ensures s.reply.Deleted? <==> id in store && store[id].user == caller
    ensures !s.reply.Deleted? ==> s.store == store
    ensures s.reply.Deleted? ==> s.store.Keys == store.Keys - {id}
    ensures Untouched(store, s.store, id)
  {
    match Lookup(store, id)
    case None => Step(store, NotFound)
    case Some(post) =>
      if post.user != caller then Step(store, Forbidden)
      else Step(store - {id}, Deleted)
  }

  /** A post whose likes hold no duplicate. */
  predicate ValidPost(p: Post) {
    NoDups(p.likes)
  }

  /** Every stored post is valid. */
  predicate ValidStore(store: Store) {
    forall id :: id in store ==> ValidPost(store[id])
  }

  /** Liking keeps every post free of duplicate likes. */
  lemma ToggleLikeKeepsValid(store: Store, id: PostId, caller: UserId)
    requires id in store && ValidStore(store)
    ensures ValidStore(ToggleLike(store, id, caller).store)
  {
    ToggleKeepsNoDups(store[id].likes, caller);
  }

  /** Liking a post twice as the same user, starting unliked, restores the whole store. */
  lemma ToggleLikeTwiceRestores(store: Store, id: PostId, caller: UserId)
    requires id in store && caller !in store[id].likes
    ensures ToggleLike(ToggleLike(store, id, caller).store, id, caller).store == store
  {
    var once := ToggleLike(store, id, caller).store;
    var twice := ToggleLike(once, id, caller).store;
    ToggleTwiceFromAbsent(store[id].likes, caller);
    assert twice[id] == store[id];
    assert twice.Keys == store.Keys;
  }

  /**
   Two like requests from the same user on a post without duplicate likes
   leave the same likers, counted with multiplicity, and change nothing else.
   */
  lemma ToggleLikeTwiceSameLikers(store: Store, id: PostId, caller: UserId)
    requires id in store && ValidPost(store[id])
    ensures var twice := ToggleLike(ToggleLike(store, id, caller).store, id, caller).store;
      twice.Keys == store.Keys && Untouched(store, twice, id)
      && SameButLikes(store[id], twice[id])
      && multiset(twice[id].likes) == multiset(store[id].likes)
  {
    if caller in store[id].likes {
      ToggleTwiceFromPresent(store[id].likes, caller);
    } else {
      ToggleLikeTwiceRestores(store, id, caller);
    }
  }
}
