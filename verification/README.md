# Post store model

A Dafny model of the post routes of a small social-media backend
(`backend/routes/posts.js`). Each route that changes posts becomes a pure
transition on a store `map<PostId, Post>`. A transition returns the new
store together with the reply the route would send:

- create a post, with an optional uploaded image;
- add a comment;
- like or unlike (toggle);
- delete, which only the author may do.

A `Post` holds its `content`, an optional `image` path, the author `user`,
the `likes` (a sequence of user ids) and the embedded `comments` (each a
`text` and a `user`). HTTP statuses become the `Reply` datatype:

- `Created(post)` is 201 with the new post.
- `Ok(post)` is 200 with the updated post.
- `Deleted` is the 200 confirmation message.
- `NotFound` is 404.
- `Forbidden` is 403.

The files are:

- `wrappers.dfy`: the `Option` type. `None` stands for JavaScript's `null`.
- `likes.dfy`: the likes array. It defines `Pull` (remove every occurrence, as the array `pull` does), `Toggle` (push when absent, pull when present) and the no-duplicates invariant.
- `posts.dfy`: the data model, the four route handlers and the per-post invariants.
- `requests.dfy`: a dispatcher over all four routes, and runs of request sequences with the invariants that hold over any run.

Lookups, saves and deletes on the document store become a map lookup, a map
update and a key removal. The authenticated user id is a plain input. So is
the stored name of the uploaded file, and so is the fresh id the store gives
a new post.

The comment and like routes (`backend/routes/posts.js:30-31` and `46-49`)
use the result of `findById` without checking it, so for a missing id the
route throws before `save`: the store is unchanged and no 200 reply is sent.
What the client gets instead depends on the HTTP framework's version and is
not modelled. The model therefore gives `AddComment` and `ToggleLike` the
precondition `id in store`. A run of requests (`Requests.Run`) that reaches
such a request stops with `None` instead of inventing a reply.

## Model

| member | source | states |
|---|---|---|
| Likes.Pull | backend/routes/posts.js:50 | the result never holds the removed user; a user is in the result exactly when it was in the likes and is not the removed one; the result is no longer than the input |
| Likes.PullConcat | backend/routes/posts.js:50 | pulling distributes over concatenation, so the remaining likes keep their original order |
| Likes.PullMultiset | backend/routes/posts.js:50 | pulling removes every occurrence of the user and keeps the count of every other user |
| Likes.PullAbsent | backend/routes/posts.js:50 | pulling a user who has not liked the post leaves the likes unchanged |
| Likes.PullKeepsNoDups | backend/routes/posts.js:50 | pulling never introduces a duplicate like |
| Likes.Toggle | backend/routes/posts.js:49-50 | after a toggle the user is a liker exactly when they were not before; every other user's membership is unchanged |
| Likes.ToggleKeepsNoDups | backend/routes/posts.js:49-50 | a toggle keeps the likes free of duplicates |
| Likes.ToggleTwiceFromAbsent | backend/routes/posts.js:49-50 | like then unlike by the same user gives back the original likes, order included |
| Likes.ToggleTwiceFromPresent | backend/routes/posts.js:49-50 | for duplicate-free likes, unlike then like gives back the same likers (as a multiset) and the same count |
| Likes.ToggleTwiceMovesToEnd | backend/routes/posts.js:49-50 | unlike then like leaves the other likes in their order, followed by the user |
| Likes.ToggleCount | backend/routes/posts.js:49-50 | for duplicate-free likes, a like adds exactly one entry and an unlike removes exactly one |
| Posts.Lookup | backend/routes/posts.js:56 | finding by id yields a post exactly when the id is stored, and then the stored post |
| Posts.ImagePath | backend/routes/posts.js:17 | an image path exists exactly when a file was uploaded; it is the upload prefix followed by the stored file name |
| Posts.Create | backend/routes/posts.js:15-26 | replies Created; stores the new post under the fresh id and changes no other post; the post's author is the caller, its content is the request content unchanged, its image is set exactly when a file was uploaded, and its likes and comments are empty |
| Posts.AddComment | backend/routes/posts.js:29-34 | replies Ok with the stored post; appends exactly one comment, with the given text and the caller as author, after the old comments; content, image, author, likes and every other post are unchanged |
| Posts.ToggleLike | backend/routes/posts.js:45-54 | replies Ok with the stored post; the caller's like flips and no other user's membership changes; an absent caller is appended at the end, a present one is pulled; content, image, author, comments and every other post are unchanged |
| Posts.Delete | backend/routes/posts.js:55-65 | replies NotFound exactly when the id is missing, Forbidden exactly when the caller is not the author, and Deleted exactly when the caller is the author; only Deleted changes the store, and then exactly that id is removed and every other post is untouched |
| Posts.ToggleLikeKeepsValid | backend/routes/posts.js:49-52 | a like request keeps every stored post free of duplicate likes |
| Posts.ToggleLikeTwiceRestores | backend/routes/posts.js:45-54 | when the caller had not liked the post, two like requests from them give back the whole store exactly |
| Posts.ToggleLikeTwiceSameLikers | backend/routes/posts.js:45-54 | on a post without duplicate likes, two like requests from the same user leave the same likers with the same counts (so every user's membership is restored), and change no other field and no other post |
| Requests.Handle | backend/routes/posts.js:15-65 | a request changes no post but its target; only the author's delete removes a post; only create adds one, authored by the caller; a post that stays keeps its author, content and image, and its old comments stay as a prefix |
| Requests.HandleKeepsValid | backend/routes/posts.js:15-65 | every request keeps every stored post free of duplicate likes |
| Requests.RunKeepsValid | backend/routes/posts.js:15-65 | starting from a store without duplicate likes, after any sequence of requests the routes serve, no post holds a duplicate like |
| Requests.RunRemovesOnlyByDelete | backend/routes/posts.js:55-65 | a post that disappears during a run of requests was the target of a delete request in that run |
| Requests.RunFramesOtherPosts | backend/routes/posts.js:15-65 | a run of requests that never names a post leaves that post exactly as it was |

## Left out

- The list route (`backend/routes/posts.js:37-42`): it joins user documents to fill in usernames, and the user documents are not part of this model.
- Disk storage of uploads and the timestamped file name (`backend/routes/posts.js:8-12`): these are file-system and clock effects. The stored file name is an opaque input to `Posts.Create`.
- The auth middleware: the caller's user id is a given input. Unauthenticated requests (401) are not modelled.
- Persistence: durable storage is not modelled. ObjectId generation is an input `id` with the precondition that it is not yet stored. The delete route compares ids through their string forms, and the like route's `includes` and `pull` compare them with the document array's cast-and-compare; the model compares ids with `==` (`in` and `Likes.Pull`).
- Posts.Create: the create route never sets `likes` or `comments`. The model assumes both are array fields of the `Post` schema that start empty.
- The `Post` schema's behaviour on `save` is not modelled: validation (for example a required `content`, which could make a create or a comment fail), casting of field values, timestamps, and the `_id` given to each comment.
- A `PostId` stands for a well-formed ObjectId. A malformed id makes `findById` throw in every id route, delete included, so the store is unchanged and no 200, 403 or 404 reply is sent; what the client gets instead is not modelled. `Posts.Delete` answers `NotFound` only for a well-formed id that is not stored.
- Posts.Create: an absent `content` field in the request body (`undefined`) is not told apart from a string. Content is a plain string, stored as given without validation.
- Posts.AddComment: an absent `text` field is likewise modelled as a plain string.
- Posts.AddComment and Posts.ToggleLike: a missing post makes the route throw before `save`, so the store is unchanged and no 200 reply is sent; what the client gets instead (no reply, or a 500, depending on the framework's version) is not modelled. The model excludes that case by precondition rather than modelling the failure.
- The JSON bodies of the error replies (`{ error: ... }`) and of the delete confirmation are not modelled, only which reply is sent.
- `backend/server.js`: HTTP framework wiring, CORS, static file serving, database connection and port listening are plumbing.
- Concurrent read-modify-write races between requests: the model handles requests one at a time.
- Requests.Handle: states that a post's author is immutable within one request only. Ids are inputs, so a run could delete a post and later create another under the same id.
