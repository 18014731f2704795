# Feed, catalog and links service — a verified model of the request handlers

The service is a small Express/MongoDB backend for a social-feed page. It
keeps four collections: one general settings document, posts (with likes and
comments), products and links. Each handler in `server.js` touches one
collection. The GET handlers only read. The writes are a single update, insert
or delete, except the like handler, which reads the post with `findOne` and then
writes its likes back with `updateOne`. This project models those handlers as
methods of a `Store` class whose fields are the four collections. The database
calls become operations on sequences in the store's natural order. The parts
the handlers build as plain expressions are pure functions: the admin-password
check, the settings merge, the new-post record and the comment record.

Modules:

- `Values` (values.dfy): `Option`, JSON values and schema-less documents (`Doc`).
- `Collection` (collection.dfy): a collection as a sequence of `Entry(id, doc)`.
  It has `findOne`/`updateOne`/`deleteOne` by identifier, acting on the first
  match. Lemmas say what each one changes and what it leaves alone.
- `Likes` (likes.dfy): the like toggle. `IndexOf` is `Array.prototype.indexOf`
  as a loop. `Toggled` is the specification: push when absent, otherwise splice
  out the first occurrence. Lemmas cover membership, order and double toggles.
- `Records` (records.dfy): `Post`, `Comment`, the admin gate (`Authorized`),
  the truthiness test on `content`, `NewPost`, `NewComment` with its
  `Date.now().toString()` identifier, and the settings merge `Merged`.
- `Ordering` (ordering.dfy): `sort({date: -1})` as a stable insertion sort,
  proved to order posts newest first and to be a permutation.
- `Server` (server.dfy): the `Store` class and one method per handler. Its
  invariant `Valid()` says four things. Identifiers are unique in each
  collection. They are all below the next identifier to hand out. Every post's
  `likes` holds each user at most once. The settings document, when present,
  has `type = "general"`.
- `Scenarios` (scenarios.dfy): worked examples. Two are handler sequences on any
  valid store: like then unlike, and a post created after all others heading the
  next listing. `SettingsMerge` runs two authorised settings writes and one refused write on
  a new store.
  `ThreePostsNewestFirst` is a lemma about the sort alone.

Parameters stand in for the environment. The admin secret is a parameter,
absent when none is configured (`config.js` is not part of this model). With
no secret configured, a request without a password passes every admin gate. The two clock readings are
parameters: `Date.now()` as `clock` and `new Date()` as `now`. Fresh
ObjectIds come from the store's counter `nextId`.

## Model

| member | source | states |
|---|---|---|
| `Server.Store.GetConfig` | server.js:25-33 | returns the general settings document, or `{}` when none exists; a present document has `type = "general"` |
| `Records.Authorized` | server.js:37 | the admin gate (also server.js:145, 154, 171, 180, 190): with a configured secret, a missing password is refused and a present one is accepted exactly when it equals the secret; with no secret configured, a request is accepted exactly when it carries no password |
| `Server.Store.UpdateConfig` | server.js:35-50 | gate refused (`Authorized` false): 401 "Unauthorized" and nothing changes; otherwise "Updated" and the settings become the merge of the patch over the old document (created if absent); no other collection changes |
| `Records.Merged` | server.js:41-45 | every patch key except `type` takes its new value, keys absent from the patch keep their old value, `type` is "general" even if the patch said otherwise, and no other keys appear |
| `Server.Store.ListPosts` | server.js:52-62 | returns every stored post exactly once (same multiset), ordered by date, newest first |
| `Ordering.InsertByDate` | server.js:55 | inserting one post into a list adds exactly that post: one longer, multiset grows by it |
| `Ordering.SortByDateDesc` | server.js:55 | the listing has as many posts as the collection and the same multiset of posts |
| `Ordering.InsertByDateSorted` | server.js:55 | inserting one post into a newest-first list keeps it newest first, headed by the new post or the old head |
| `Ordering.SortByDateDescCorrect` | server.js:55 | the sorted list is newest first and a permutation of the collection |
| `Ordering.NewestListedFirst` | server.js:55 | a post appended after strictly older posts (as a created post enters the collection) is listed first |
| `Scenarios.ThreePostsNewestFirst` | server.js:55 | posts dated t1 < t2 < t3 are listed as t3, t2, t1 |
| `Scenarios.CreateThenList` | server.js:52-84 | on any valid store whose posts are all older than `now`, a post created at `now` heads the next listing, under the id the create reply gave it |
| `Records.Truthy` | server.js:67 | an absent field is falsy; a present string is truthy exactly when it is non-empty |
| `Records.NewPost` | server.js:69-76 | the new post carries the given content, image and avatar, is dated now, and has empty `likes` and `comments` arrays |
| `Server.Store.CreatePost` | server.js:64-84 | absent or empty `content`: 400 "Content is required" and nothing changes; otherwise the post is stored under a fresh id with the given content/image/avatar, date = now, `likes = []`, `comments = []`; the reply is that post with its id; the collection grows by exactly that entry, the id counter moves on by one, and every other id resolves as before |
| `Server.Store.FreshId` | server.js:78 | the identifier handed to an insert is unused in every collection, and the counter moves past it |
| `Collection.AppendFresh` | server.js:78 | inserting under a fresh id keeps ids unique, makes the new id resolve to the new document and leaves every other id's document unchanged |
| `Collection.Lookup` | server.js:91 | `findOne` by id finds a document exactly when one with that id is stored, and what it finds is the document of the first entry with that id |
| `Server.Store.ToggleLike` | server.js:86-110 | unknown post: 404 "Post not found" and nothing changes; otherwise the post's likes (missing read as `[]`) become the toggled array, which is written back and returned; the user is in the new likes exactly when it was not in the old ones, every other user's membership is unchanged, and the likes stay duplicate-free; no other post and no other collection changes |
| `Likes.Toggled` | server.js:94-100 | an absent user is appended at the end; a present user's first occurrence is removed and the elements before and after it keep their order |
| `Likes.IndexOf` | server.js:95 | returns the first index of the user, or -1 exactly when the user is absent |
| `Likes.RemoveFirstAt` | server.js:99 | splicing out the element at the first index of the user is removing the user's first occurrence, the rest keeping their order |
| `Likes.RemoveFirstCount` | server.js:99 | removing a present user takes away exactly one copy of it: the result is one element shorter and its multiset is the old one minus that user |
| `Likes.RemoveFirst` | server.js:99 | removing an absent user changes nothing; removing a present one makes the array one shorter |
| `Likes.RemoveFirstSubset` | server.js:99 | corollary of `RemoveFirst` and `RemoveFirstCount`, proved on its own by induction: removal introduces nothing new, the result's multiset being contained in the input's |
| `Likes.RemoveFirstMembers` | server.js:99 | every element of the result was in the input |
| `Likes.RemoveFirstDistinct` | server.js:99 | on a duplicate-free array, removal leaves it duplicate-free and without the user |
| `Likes.RemoveFirstAppended` | server.js:96-100 | splicing out a user that was just pushed onto an array not containing it gives the array back |
| `Likes.ToggleFlips` | server.js:94-100 | on a duplicate-free array: the user is in the result exactly when it was not in the input, other users' membership is unchanged, the result stays duplicate-free, and an absent user is appended at the end |
| `Likes.ToggleTwiceRestores` | server.js:94-100 | for a user not yet in the likes, two toggles give back the original array |
| `Likes.ToggleTwiceMovesToEnd` | server.js:94-100 | for a user already in a duplicate-free likes array, two toggles move that user to the end |
| `Likes.ToggleTwiceLastRestores` | server.js:94-100 | for a user who is already last in a duplicate-free likes array, two toggles give back the original array |
| `Likes.ToggleTwiceReorders` | server.js:94-100 | concretely, `["a","b"]` toggled twice by "a" is `["b","a"]` |
| `Scenarios.LikeThenUnlike` | server.js:86-110 | through the handler: like then unlike by a new user replies first with the user appended, then with the original likes |
| `Collection.Replace` | server.js:102-105 | `updateOne` keeps length and ids, each entry is either unchanged or the new document under the given id, an absent id changes nothing (so the comment `$push` on a missing post, server.js:118-121, is a no-op), and a present id ends up holding the new document |
| `Collection.ReplaceOnlyTouches` | server.js:102-105 | `updateOne` on a present id keeps length and ids, makes that id resolve to the new document and every other id resolve as before |
| `Server.Store.AddComment` | server.js:112-126 | the reply is always the comment built from the request and the clock; when the post exists, exactly that comment is appended to the end of its comments (a missing array counts as `[]`), and no other post changes; when it does not exist, the posts are unchanged |
| `Records.NewComment` | server.js:117 | the comment carries the request's `text` and `user` and is dated `now`; its id is a digit string whose decimal value is the clock reading |
| `Records.DecimalString` | server.js:117 | the rendering is non-empty, all digits, with no leading zero except for 0 itself |
| `Records.DecimalRoundTrip` | server.js:117 | reading the rendered digits back gives the number |
| `Records.CommentIdsDistinct` | server.js:117 | comments created at different clock readings get different ids (that equal readings give equal ids follows from the definition alone) |
| `Server.Store.ListProducts` | server.js:137-141 | returns every product in the store's natural order |
| `Server.Store.AddProduct` | server.js:143-150 | gate refused (`Authorized` false): 401 and nothing changes; absent body: no reply and nothing changes; otherwise "Added" and the product is appended verbatim under a fresh id, other collections untouched |
| `Server.Store.DeleteProduct` | server.js:152-160 | gate refused (`Authorized` false): 401 and nothing changes; otherwise "Deleted", the id no longer resolves, every other product resolves as before, and an absent id leaves the collection unchanged |
| `Collection.DeletePresent` | server.js:158 | `deleteOne` on a present id removes exactly that entry: the others keep their order, the length drops by one, and every other id resolves as before |
| `Collection.Delete` | server.js:158 | `deleteOne` (also server.js:184, 194) on an absent id changes nothing, on a present id removes one entry, and never introduces an entry that was not stored |
| `Collection.DeleteKeepsKeys` | server.js:158 | deletion keeps identifiers unique and below the next identifier |
| `Server.Store.ListLinks` | server.js:163-167 | returns every link in the store's natural order |
| `Server.Store.AddLink` | server.js:169-176 | as AddProduct, on the links collection |
| `Server.Store.DeleteLink` | server.js:178-186 | as DeleteProduct, on the links collection |
| `Server.Store.DeletePost` | server.js:188-196 | gate refused (`Authorized` false): 401 and nothing changes; otherwise "Deleted", the post no longer resolves, other posts resolve as before, and an absent id leaves the posts unchanged |
| `Scenarios.SettingsMerge` | server.js:35-50 | a write with the wrong password is refused; an authorised `{"theme":"dark","type":"custom"}` over `{"lang":"id"}` reads back as `{"lang":"id","theme":"dark","type":"general"}` |

## Notes on behaviour

- Two toggles by the same user restore `likes` when the user had not liked
  the post, or had liked it and was already last. Otherwise the user moves to
  the end of the array (`Likes.ToggleTwiceLastRestores`, `Likes.ToggleTwiceMovesToEnd`,
  `Likes.ToggleTwiceReorders`): the order changes but the set of users does not. That relies on the invariant that
  `likes` has no duplicates, which every handler preserves in this sequential
  model.
- Comment identifiers are the clock reading in decimal. Two comments in the
  same millisecond share an identifier, so identifiers are not unique.
- A comment on a post that does not exist is still returned with status 200.
  Nothing is stored.
- Deleting an identifier that is not stored reports "Deleted".

## Left out

- Express routing, CORS, body parsing, static files, the `/:page` → `.html` fallback and the `/share/sosial/:id` route: web plumbing (server.js:11-22, 128-134, 198-200).
- db.js is not part of this model: connecting, memoising the handle and exiting the process on failure are I/O and process control. The store is in memory.
- uploader.js is not part of this model: it is a network upload through a third-party content-type detector.
- Storage faults are not modelled. This covers the 500 replies, the empty list GET /api/posts sends on a fault, and unhandled rejections in the product/link handlers. The one exception: an absent product/link body makes `insertOne` reject, which `NoReply` models.
- `new ObjectId(id)` throwing on a malformed identifier: identifiers are naturals, so every identifier is well formed.
- Request fields are modelled as strings that may be absent. JSON values of other types in `content`, `userId`, `text`, `user` or `password` are not modelled. That leaves out falsy `0`/`false`/`null` content, pushing `undefined` into `likes`, and spreading a non-object `settings`. A `product` or `link` body that is a number, string or array is not modelled either; `insertOne` rejects it as it rejects an absent body, and the model's `Option<Doc>` can only express absence.
- Server.Store.ToggleLike: the read-then-write race between concurrent toggles is not modelled; the model is sequential. Two concurrent likes by the same user could both push it, breaking the no-duplicates invariant the model keeps.
- Server.Store.ListPosts: the store leaves the relative order of posts with equal dates open. The model fixes one admissible order, the natural order among ties.
- Server.Store.UpdateConfig: dotted keys (`$set` treats them as paths), `$`-prefixed keys and `_id` in the patch are not modelled. The settings document's own `_id` is not modelled either.
- Server.Store.AddProduct and Server.Store.AddLink: a body carrying its own `_id` is not modelled. The store always assigns a fresh identifier.
- The settings collection is one optional document. Other documents in that collection are not modelled, because only this handler writes there.
- Server.Store.CreatePost: an absent `image` or `avatar` is kept as absent. The driver may instead store `null` for an `undefined` field.
- Server.Store.AddComment: an absent `text` or `user` is kept as absent in the stored comment. The driver may instead store `null` for it, while the JSON reply omits it.
- JSON numbers are integers only (`JNum(n: int)`). Non-integer numbers such as 9.99 in a product, link or settings body are not modelled. The handlers store those bodies verbatim and never compute with their numbers.
- `NoReply` models only that no response is sent. With Express 4 on Node 15 or later, the unhandled rejection from `insertOne(undefined)` ends the process by default; Express 5 would instead reply 500. Neither the crash nor the later unavailability is modelled.
- Console logging.
