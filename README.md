# Social network backend: a Dafny model of its domain logic

This project models the domain logic of a small social-network backend in
Dafny and proves properties of it. The backend is an Express/Mongoose REST
service plus a Socket.IO messaging channel. The model covers four parts:

- **Post store** (`posts.dfy`, module `Posts`). The post collection is a map
  from post id to post document, held by the class `PostStore`. Its handlers
  are methods that return a status code and a JSON body: create, author-only
  edit and delete, like toggle and comment append. The feed and per-author
  queries are pure functions: filter, newest-first sort, then skip/limit.
- **User directory** (`users.dfy`, module `Users`). The user collection is a
  map from user id to user document, held by the class `UserDirectory`. The
  module has the profile lookup, which hides the password, and the partial
  profile update. It also has follow and unfollow, which change two
  documents' id lists.
- **Authentication controller** (`auth.dfy`, module `Auth`). It covers
  registration with its username check, login, and the prompt check in front
  of the image-generation call. Password matching (`matchPassword`), token
  signing (`generateToken`) and the text-to-image service are parameters of
  function type. Nothing is assumed about them.
- **Realtime connection registry** (`realtime.dfy`, module `Realtime`). The
  `userSocketMap` object is held by the class `ConnectionRegistry` as a
  sequence of entries with distinct keys. The sequence is in key-insertion
  order, which is the order a `for...in` loop visits keys that are not array
  indices. Its `connection`, `directMessage` and `disconnect` handlers are
  modelled.

`http.dfy` (module `Http`) holds what the handlers share: status codes, the
reply shape and JavaScript truthiness of request fields (`x || fallback`,
`parseInt(x) || fallback`). `lists.dfy` (module `Lists`) holds `Remove`, which
models both Mongoose's `pull` and the unfollow handler's
`filter(id => id !== x)`.

Modelling choices:

- Document ids are natural numbers handed out in increasing order. The model
  takes a collection's natural order to be id order, so `find` lists
  documents by id and `findOne` returns the lowest matching id. A query
  handler takes a bound `n` above every stored id and sees the whole
  collection.
- The creation time of a post is a parameter (`now`) that stands for the
  clock.
- A parsed query value is `Option<int>`. `None` stands for the `NaN` that
  `parseInt` gives for missing or non-numeric text.
- Each handler runs one request at a time against the in-memory state.

Status codes and checks, as the code has them:

- A non-author's edit or delete gets 401. The code has no separate forbidden
  status.
- A duplicate username and a repeated follow both get 400. The code has no
  separate conflict status.
- The repeated-follow check looks only at the current user's `following`
  list. It does not look at the target's `followers`.
- A profile update overwrites a field only when the new value is truthy. An
  empty string keeps the old value.

## Model

| member | source | states |
|---|---|---|
| Http.Keep | backend/controllers/user.controller.js:22-25 | `field \|\| fallback` for an optional field: a truthy request value wins, anything else gives the fallback |
| Http.OrElse | backend/controllers/user.controller.js:21-28 | `field \|\| old` for the username (line 21) and, as an `if`, the password (lines 26-28): a truthy request value wins, a missing or empty one keeps the old value |
| Http.NumberOr | backend/controllers/post.controller.js:15-16 | `parseInt(q) \|\| d`: NaN and 0 give the default, any other number is kept, and a non-negative query with default ≥ 1 gives ≥ 1 |
| Lists.Remove | backend/controllers/user.controller.js:78-83 | filter/pull: the value is gone afterwards, every other element stays, and the list does not grow |
| Lists.RemoveIdempotent | backend/controllers/user.controller.js:78-83 | removing the same id a second time changes nothing |
| Lists.AppendThenRemove | backend/controllers/user.controller.js:57-83 | appending an absent id and then filtering it out gives back the original list exactly |
| Lists.RemoveKeepsNoDuplicates | backend/controllers/user.controller.js:78-83 | filtering keeps a duplicate-free id list duplicate-free |
| Posts.ToggleLike | backend/controllers/post.controller.js:78-83 | after the toggle the user likes the post iff they did not before; all other likes are unchanged; an absent user is appended once at the end |
| Posts.ToggleTwiceRestoresMembership | backend/controllers/post.controller.js:78-83 | two toggles restore whether the user likes the post and leave every other like as it was |
| Posts.ToggleTwiceFromUnliked | backend/controllers/post.controller.js:78-83 | starting from a post the user does not like, two toggles restore the like list exactly |
| Posts.ToggleKeepsNoDuplicates | backend/controllers/post.controller.js:78-83 | a like list with no repeated user keeps that shape through a toggle |
| Posts.Listing | backend/controllers/post.controller.js:20 | `Post.find()` lists each stored post and nothing else |
| Posts.ListingNoRepeats | backend/controllers/post.controller.js:20 | when each post is stored under its own id, the listing holds no post twice |
| Posts.SortNewestFirst | backend/controllers/post.controller.js:22 | `sort({createdAt: -1})`: the result is newest first and a permutation of the input |
| Posts.Timeline | backend/controllers/post.controller.js:20-22 | the newest-first timeline holds exactly the stored posts |
| Posts.TimelineNoRepeats | backend/controllers/post.controller.js:20-22 | the timeline shows each stored post once |
| Posts.SkipIsProduct | backend/controllers/post.controller.js:17 | the posts skipped before a page, `limit` for each earlier page, are exactly `(page - 1) * limit` |
| Posts.Window | backend/controllers/post.controller.js:23-24 | `skip(s).limit(c)`: for c ≥ 1, element i of the result is element skip+i of the input, and the length is capped by c and by what is left (Mongo reads `limit(0)` as no limit, but the handler always passes c ≥ 1) |
| Posts.Feed | backend/controllers/post.controller.js:17-24 | a feed page has at most `limit` posts, is newest first, and holds only stored posts |
| Posts.FeedIsSlice | backend/controllers/post.controller.js:17-24 | a feed page is the window of the newest-first timeline that skips `(page - 1) * limit` posts and takes at most `limit` |
| Posts.ConsecutivePages | backend/controllers/post.controller.js:17-24 | pages p and p+1 with the same limit are contiguous: together they form the window of twice the limit starting at page p |
| Posts.FirstTwoPages | backend/controllers/post.controller.js:17-24 | page 1 followed by page 2 is page 1 with twice the limit |
| Posts.PagesDisjoint | backend/controllers/post.controller.js:17-24 | two different pages with the same limit share no post |
| Posts.GetFeedPosts | backend/controllers/post.controller.js:14-25 | over the whole collection, 200 with the feed page chosen by the defaulted page and limit, both ≥ 1, holding only stored posts |
| Posts.FeedDefaults | backend/controllers/post.controller.js:15-16 | a missing, non-numeric or zero page and limit give the ten newest posts |
| Posts.ByAuthor | backend/controllers/post.controller.js:33 | `find({author})` keeps exactly the posts whose author is the given user |
| Posts.GetUserPosts | backend/controllers/post.controller.js:31-36 | over the whole collection, 200 with exactly the stored posts of that author, newest first |
| Posts.UserPostsNoRepeats | backend/controllers/post.controller.js:33-35 | an author's posts are listed once each |
| Posts.PostStore.CreatePost | backend/controllers/post.controller.js:3-8 | 201 and exactly one new post under a fresh id, by the requester, with the request text, no likes or comments and the current time; no existing post changes |
| Posts.PostStore.UpdatePost | backend/controllers/post.controller.js:42-52 | 404 for a missing post and 401 for a non-author, both with the store unchanged; otherwise only `text` is replaced and 200 returns the edited post |
| Posts.PostStore.DeletePost | backend/controllers/post.controller.js:58-66 | 404 and 401 as for editing, store unchanged; otherwise exactly that post is removed and 200 says "Post removed" |
| Posts.PostStore.LikePost | backend/controllers/post.controller.js:73-85 | 404 with the store unchanged for a missing post; otherwise only `likes` changes, by the toggle, and 200 returns the post |
| Posts.PostStore.CommentOnPost | backend/controllers/post.controller.js:91-102 | 404 with the store unchanged for a missing post; otherwise one `{user, text}` comment is appended after the existing ones and 201 returns the post |
| Posts.LikeTwice | backend/controllers/post.controller.js:78-84 | two likes in a row from a post the user did not like both succeed and leave the store as it was |
| Users.GetUserProfile | backend/controllers/user.controller.js:3-10 | 404 "User not found" iff the id is unknown; otherwise 200 with every field of the user except the password |
| Users.ProfileHidesPassword | backend/controllers/user.controller.js:5 | the profile reply does not depend on the stored password |
| Users.FindByUsername | backend/controllers/auth.controller.js:13 | `findOne({username})`: the first user in natural order with that name, or none when no user has it |
| Users.ApplyPatch | backend/controllers/user.controller.js:21-28 | username, bio, picture and password change only to truthy request values; id, followers and following never change |
| Users.EmptyPatchKeepsUser | backend/controllers/user.controller.js:21-28 | an update with no truthy field leaves the user as it was |
| Users.ApplyPatchIdempotent | backend/controllers/user.controller.js:21-28 | sending the same update twice is the same as sending it once |
| Users.Followed | backend/controllers/user.controller.js:57-58 | follow appends the target to the current user's `following` and the current user to the target's `followers`; no other field or user changes |
| Users.Unfollowed | backend/controllers/user.controller.js:78-83 | unfollow filters every occurrence out of both lists; no other field or user changes |
| Users.UnfollowIdempotent | backend/controllers/user.controller.js:78-83 | unfollowing twice is the same as unfollowing once |
| Users.FollowThenUnfollow | backend/controllers/user.controller.js:57-83 | starting from a state where neither list names the other, a follow and then an unfollow restore the directory exactly |
| Users.FollowKeepsGraph | backend/controllers/user.controller.js:53-58 | a follow the duplicate check lets through keeps the graph consistent: the lists mirror each other, nobody follows themselves and no list repeats an id |
| Users.UnfollowKeepsGraph | backend/controllers/user.controller.js:78-83 | an unfollow keeps that same consistency |
| Users.UserDirectory.Create | backend/controllers/auth.controller.js:19 | `User.create`: exactly one new user under a fresh id, with the given name and password and empty follow lists |
| Users.UserDirectory.UpdateUserProfile | backend/controllers/user.controller.js:18-37 | 404 with the directory unchanged for an unknown user; otherwise only that user changes, by the truthy-field update, and 200 carries id, username, bio and picture but never the password |
| Users.UserDirectory.FollowUser | backend/controllers/user.controller.js:46-63 | 404 if either user is missing and 400 for a repeated follow, both with the directory unchanged; otherwise the paired append, and 200 names the target |
| Users.UserDirectory.UnfollowUser | backend/controllers/user.controller.js:71-88 | 404 if either user is missing, with the directory unchanged; otherwise both lists are filtered and 200 is returned even when no relationship existed |
| Users.FollowTwiceUnfollowTwice | backend/controllers/user.controller.js:53-88 | follow gives 200, a repeated follow gives 400, then two unfollows give 200 each, and the directory ends as it started |
| Auth.RegisterUser | backend/controllers/auth.controller.js:11-26 | a taken username gets 400 "User already exists" with the directory unchanged; otherwise exactly one user with that name is added and 201 returns its id, name and a token signed for that id |
| Auth.LoginUser | backend/controllers/auth.controller.js:32-47 | the reply is 200 or 401; an unknown username gets 401; a 200 carries a user with that name whose password matched, its id, username, bio and picture, and a token signed for that same id |
| Auth.LoginWrongPassword | backend/controllers/auth.controller.js:36-46 | when no user with that name matches the password, the reply is 401 |
| Auth.LoginFirstHolderFails | backend/controllers/auth.controller.js:34-46 | only the first user with that name is checked: when its password does not match the reply is 401, even if a later user of the same name (possible only without a unique index on `username`) would match |
| Auth.LoginKnownUser | backend/controllers/auth.controller.js:34-43 | the first user with that name, when its password matches, gets 200 with its public fields and a token for its id |
| Auth.LoginSucceedsIff | backend/controllers/auth.controller.js:34-46 | a login gets 200 exactly when the first user with that name exists and its password matches |
| Auth.ImageJobFor | backend/controllers/auth.controller.js:51-64 | a missing or empty prompt is refused with 400 "Prompt is required"; any other prompt yields the job for the fixed model with the fixed negative prompt |
| Auth.ImageReply | backend/controllers/auth.controller.js:67-76 | an image answer becomes 200 with a `data:<mime>;base64,<data>` URI; an upstream failure becomes 500 with the upstream message |
| Auth.GenerateImage | backend/controllers/auth.controller.js:50-78 | a refused prompt gets 400; any other prompt gets the reply built from the service's answer to its job |
| Auth.RefusedPromptIgnoresService | backend/controllers/auth.controller.js:51-54 | for a refused prompt the reply is the same whatever the service would answer, so the service is never consulted |
| Realtime.Lookup | backend/server.js:53 | `userSocketMap[id]` finds a stored binding of that key, or none when the key is absent |
| Realtime.Assign | backend/server.js:48 | `map[user] = socket`: the key then maps to the socket, every other key keeps its binding, and a new key is appended at the end |
| Realtime.AssignKeepsPositions | backend/server.js:48 | overwriting never moves an existing key |
| Realtime.AssignKeepsKeysDistinct | backend/server.js:48 | the object still has each key once, and holds only old entries and the new binding |
| Realtime.DropFirstSocket | backend/server.js:73-78 | the disconnect cleanup removes nothing when no entry holds the socket, and otherwise exactly one entry |
| Realtime.DropFirstAt | backend/server.js:73-78 | the cleanup deletes the entry at the first index that holds the socket |
| Realtime.DeleteAtLookup | backend/server.js:75 | `delete` at one entry unbinds exactly its key |
| Realtime.DisconnectUnbindsFirstHolder | backend/server.js:73-78 | at most one key is unbound: the key of the first entry holding the socket, which was bound to it; all other keys are unchanged |
| Realtime.DropFirstLookup | backend/server.js:73-78 | for each key, the cleanup either leaves its binding alone or unbinds a key that was bound to the disconnecting socket |
| Realtime.DropFirstKeepsKeysDistinct | backend/server.js:73-78 | the cleanup keeps each key once |
| Realtime.ReconnectSurvivesOldDisconnect | backend/server.js:46-78 | after a reconnect overwrites a user's entry, the old socket's disconnect leaves the user bound to the new socket |
| Realtime.IndexOfSocket | backend/server.js:73-76 | the `for...in` walk stops at the first entry whose value is the socket, or at the end when none has it |
| Realtime.ConnectionRegistry.Connect | backend/server.js:46-49 | a truthy handshake `userId` is bound to this socket, overwriting any earlier binding; with no `userId` the map is unchanged |
| Realtime.ConnectionRegistry.DirectMessage | backend/server.js:52-56 | a `newMessage` goes to the recipient's socket iff the recipient is registered; it carries the sender's handshake `userId` and the message unchanged; the registry is only read |
| Realtime.ConnectionRegistry.Disconnect | backend/server.js:71-79 | the new map is the old one with the first entry holding this socket deleted, and the keys stay distinct |

## Left out

- Database failures: every `catch` that answers 500 "Server error" is not modelled. Each handler is a single request against in-memory state.
- Registration and login have no `try/catch`. A database failure there is an unhandled rejection, and it is not modelled either.
- The `else` branch of registration, which answers 400 "Invalid user data", cannot be reached in the model. `User.create` either returns a document or throws.
- Concurrency: follow and unfollow save two documents separately, and the like toggle is a read-modify-write. Concurrent requests can interleave with both. Only one request at a time is modelled.
- The Mongoose schemas (`backend/models/*.js`) are not part of this model. Their required fields, defaults, unique indexes and the password-hashing hook are not modelled. A missing bio or picture is `None`, and a password is stored as given. Post and comment `text` is a plain string, so a missing text cannot be represented and an empty text gets 201 or 200 in the model. If the schema marks `text` as required, Mongoose refuses both and the handler answers 500 (post.controller.js lines 9-10, 53-54, 103-104).
- The controllers check username uniqueness only on registration. The model has no unique index, so in the model a profile update can give two users the same name, and login then picks the first one in natural order, as `findOne` does. If the schema puts a unique index on `username`, that save fails and the handler answers 500, a path left out above.
- Ids are natural numbers, not ObjectId strings. A malformed id in a route parameter raises a cast error that ends in 500. That path is not modelled.
- Negative `page` or `limit` query values are excluded by a `requires`. The code does not handle them.
- Self-follow is excluded by a `requires`. With one document in both roles, the code's two saves overlap, and the model does not guess at the outcome.
- Posts.SortNewestFirst: posts with equal `createdAt` keep their natural order in the model. The database does not promise any order among them, so page contiguity and disjointness hold only when the order among ties is stable across queries.
- `populate('author', 'username profilePicture')` is not modelled. A post in a feed reply carries its author id, not the joined author fields.
- Users.FindByUsername: a body without `username` makes Mongoose drop the filter key, so any user matches. The model always has a username string.
- JWT signing and verification, `matchPassword`, and the `protect` middleware (`backend/middleware/auth.middleware.js`) are not part of this model. The first two are function parameters, and the authenticated user id is a plain argument.
- The Hugging Face call and the blob-to-base64 conversion are not modelled. The service is a function parameter whose answer already holds the MIME type and the base64 text.
- `joinGroup` and `groupMessage` depend on Socket.IO rooms (`socket.join`, `socket.to`), which are library behaviour. They are not modelled.
- Realtime.Assign: a new key is appended at the end. A JavaScript object lists array-index keys (such as "7") first, in ascending numeric order, and only then the other string keys in insertion order. A numeric handshake `userId` is therefore not placed where a `for...in` loop would visit it.
- Realtime.Assign: assigning a string to the key `__proto__` goes to the `__proto__` setter inherited from `Object.prototype`, which ignores a value that is not an object or null, so the object does not change. The model adds an entry for it.
- Realtime.DropFirstSocket: the first holder is the first in insertion order. When array-index keys are present, the object's `for...in` order may pick a different entry. That can only happen when two keys hold the same socket id.
- Users.FindByUsername: MongoDB does not promise that natural order is insertion order. The model takes natural order to be id order, so with two users of the same name the one `findOne` returns may differ from the model's. In the model that can only happen after a profile update duplicates a username, which a unique index in the schema would refuse.
- Posts.Listing: `find()` lists documents in id order in the model. MongoDB's natural order is unspecified, but the feed sorts the listing, so only the order among posts with equal `createdAt` depends on it.
- Realtime.Lookup: keys inherited from `Object.prototype` (such as `constructor` or `__proto__`) are not modelled. A plain object lookup would find them, so a `directMessage` to such a key reads the inherited value.
- Comment timestamps and the post's `updatedAt` are not modelled, since they come from schema options that are not part of the model.
- The frontend (`frontend/src/App.jsx`) is presentation and client-side token decoding. It is not modelled.
