/**
 * The request handlers of the feed/catalog/links service as operations on an
 * in-memory document store. The four collections are fields of `Store`;
 * each handler is a method taking the request fields, the configured admin
 * secret (absent when none is configured) and, where the handler reads the
 * clock, the clock reading.
 */
module Server {
  import opened Values
  import opened Collection
  import opened Records
  import opened Likes
  import opened Ordering

  /** What a handler sends back. */
  datatype Reply =
    | Text(status: nat, message: string)   // `res.status(..).send(..)`; `res.send(..)` is status 200
    | SettingsJson(settings: Doc)
    | PostJson(id: Id, post: Post)          // the stored post plus its new `_id`
    | PostsJson(posts: seq<Entry<Post>>)
    | LikesJson(likes: seq<string>)
    | CommentJson(comment: Comment)
    | DocsJson(docs: seq<Entry<Doc>>)
    | NoReply                               // a rejected promise outside `try`: nothing is sent

  const Unauthorized: Reply := Text(401, "Unauthorized")

  /** Every post's `likes` holds each user at most once: the array is used as a set of users. */
  ghost predicate LikesAreSets(posts: seq<Entry<Post>>) {
    forall i :: 0 <= i < |posts| ==> NoDuplicates(posts[i].doc.likes.GetOr([]))
  }

  class Store {
    /** The settings document with `type: 'general'`, if one has been written. */
    var settings: Option<Doc>
    var posts: seq<Entry<Post>>
    var products: seq<Entry<Doc>>
    var links: seq<Entry<Doc>>
    /** The next identifier the store hands out; every identifier in use is below it. */
    var nextId: nat

    ghost predicate Valid()
      reads this
    {
      && (settings.Some? ==> SettingsType in settings.value && settings.value[SettingsType] == General)
      && UniqueIds(posts) && IdsBelow(posts, nextId) && LikesAreSets(posts)
      && UniqueIds(products) && IdsBelow(products, nextId)
      && UniqueIds(links) && IdsBelow(links, nextId)
    }

    constructor ()
      ensures Valid()
      ensures settings == None && posts == [] && products == [] && links == []
    {
      settings := None;
      posts, products, links := [], [], [];
      nextId := 0;
    }

    /** Hands out a fresh identifier, as the driver does for every inserted document. */
    method FreshId() returns (id: Id)
      requires Valid()
      modifies this`nextId
      ensures Valid()
      ensures id == old(nextId) && nextId == id + 1
      ensures IdsBelow(posts, id) && IdsBelow(products, id) && IdsBelow(links, id)
    {
      id := nextId;
      nextId := nextId + 1;
    }

    // ---- settings ----

    /** GET /api/config: the general settings document, or `{}` when none exists. */
    method GetConfig() returns (r: Reply)
      requires Valid()
      ensures r.SettingsJson?
      ensures settings.None? ==> r.settings == map[]
      ensures settings.Some? ==> r.settings == settings.value && r.settings[SettingsType] == General
    {
      r := SettingsJson(settings.GetOr(map[]));
    }

    /** POST /api/admin/config: behind the admin gate, merge `patch` into the settings document. */
    method UpdateConfig(password: Option<string>, patch: Option<Doc>, secret: Option<string>) returns (r: Reply)
      requires Valid()
      modifies this
      ensures Valid()
      ensures !Authorized(password, secret) ==> r == Unauthorized && unchanged(this)
      ensures Authorized(password, secret) ==>
        && r == Text(200, "Updated")
        && settings == Some(Merged(old(settings), patch))
        && posts == old(posts) && products == old(products) && links == old(links) && nextId == old(nextId)
    {
      if !Authorized(password, secret) {
        return Unauthorized;
      }
      settings := Some(Merged(settings, patch));
      r := Text(200, "Updated");
    }

    // ---- posts ----

    /** GET /api/posts: every post, newest first. */
    method ListPosts() returns (r: Reply)
      ensures r.PostsJson?
      ensures NewestFirst(r.posts) && multiset(r.posts) == multiset(posts)
      ensures r.posts == SortByDateDesc(posts)
    {
      SortByDateDescCorrect(posts);
      r := PostsJson(SortByDateDesc(posts));
    }

    /**
     * POST /api/posts: a falsy `content` is refused with 400; otherwise a post
     * with no likes and no comments is stored under a fresh identifier and
     * returned with it.
     */
    method CreatePost(content: Option<string>, image: Option<string>, avatar: Option<string>, now: Timestamp)
      returns (r: Reply)
      requires Valid()
      modifies this
      ensures Valid()
      ensures !Truthy(content) ==> r == Text(400, "Content is required") && unchanged(this)
      ensures Truthy(content) ==>
        && r == PostJson(old(nextId), NewPost(content.value, image, avatar, now))
        && r.post.likes == Some([]) && r.post.comments == Some([]) && r.post.date == now
        && !Contains(old(posts), r.id) && nextId == old(nextId) + 1
        && posts == old(posts) + [Entry(r.id, r.post)]
        && Lookup(posts, r.id) == Some(r.post)
        && (forall j :: j != r.id ==> Lookup(posts, j) == Lookup(old(posts), j))
      ensures settings == old(settings) && products == old(products) && links == old(links)
    {
      if !Truthy(content) {
        return Text(400, "Content is required");
      }
      var post := NewPost(content.value, image, avatar, now);
      var id := FreshId();
      AppendFresh(posts, id, post);
      posts := posts + [Entry(id, post)];
      r := PostJson(id, post);
    }

    /**
     * POST /api/posts/:id/like: 404 when the post does not exist; otherwise
     * the user is appended to `likes` when absent, or its first occurrence is
     * spliced out, and the new array is written back and returned.
     */
    method ToggleLike(postId: Id, userId: string) returns (r: Reply)
      requires Valid()
      modifies this
      ensures Valid()
      ensures !Contains(old(posts), postId) ==> r == Text(404, "Post not found") && unchanged(this)
      ensures Contains(old(posts), postId) ==>
        var p := Lookup(old(posts), postId).value;
        var likes := Toggled(p.likes.GetOr([]), userId);
        && r == LikesJson(likes)
        && (userId in likes <==> userId !in p.likes.GetOr([]))
        && (forall u :: u != userId ==> (u in likes <==> u in p.likes.GetOr([])))
        && NoDuplicates(likes)
        && posts == Replace(old(posts), postId, p.(likes := Some(likes)))
        && Lookup(posts, postId) == Some(p.(likes := Some(likes)))
        && (forall j :: j != postId ==> Lookup(posts, j) == Lookup(old(posts), j))
      ensures settings == old(settings) && products == old(products) && links == old(links)
      ensures nextId == old(nextId)
    {
      var found := Lookup(posts, postId);
      if found.None? {
        return Text(404, "Post not found");
      }
      var post := found.value;
      var likes := post.likes.GetOr([]);
      ToggleFlips(likes, userId);
      var index := IndexOf(likes, userId);
      if index == -1 {
        likes := likes + [userId];
      } else {
        RemoveFirstAt(likes, userId, index);
        likes := likes[..index] + likes[index + 1..];
      }
      ReplaceOnlyTouches(posts, postId, post.(likes := Some(likes)));
      posts := Replace(posts, postId, post.(likes := Some(likes)));
      r := LikesJson(likes);
    }

    /**
     * POST /api/posts/:id/comment: builds the comment from the request and the
     * clock, `$push`es it onto the post's comments when the post exists, and
     * returns it whether or not the post exists.
     */
    method AddComment(postId: Id, text: Option<string>, user: Option<string>, clock: nat, now: Timestamp)
      returns (r: Reply)
      requires Valid()
      modifies this
      ensures Valid()
      ensures r == CommentJson(NewComment(text, user, clock, now))
      ensures !Contains(old(posts), postId) ==> posts == old(posts)
      ensures Contains(old(posts), postId) ==>
        var p := Lookup(old(posts), postId).value;
        var p' := p.(comments := Some(p.comments.GetOr([]) + [r.comment]));
        && posts == Replace(old(posts), postId, p')
        && Lookup(posts, postId) == Some(p')
        && (forall j :: j != postId ==> Lookup(posts, j) == Lookup(old(posts), j))
      ensures settings == old(settings) && products == old(products) && links == old(links)
      ensures nextId == old(nextId)
    {
      var comment := NewComment(text, user, clock, now);
      var found := Lookup(posts, postId);
      if found.Some? {
        var post := found.value;
        var updated := post.(comments := Some(post.comments.GetOr([]) + [comment]));
        ReplaceOnlyTouches(posts, postId, updated);
        posts := Replace(posts, postId, updated);
      }
      r := CommentJson(comment);
    }

    /** DELETE /api/admin/posts/:id: behind the admin gate, remove the post; "Deleted" whether or not it existed. */
    method DeletePost(password: Option<string>, postId: Id, secret: Option<string>) returns (r: Reply)
      requires Valid()
      modifies this
      ensures Valid()
      ensures !Authorized(password, secret) ==> r == Unauthorized && unchanged(this)
      ensures Authorized(password, secret) ==>
        && r == Text(200, "Deleted")
        && posts == Delete(old(posts), postId)
        && !Contains(posts, postId)
        && (forall j :: j != postId ==> Lookup(posts, j) == Lookup(old(posts), j))
        && (!Contains(old(posts), postId) ==> posts == old(posts))
      ensures settings == old(settings) && products == old(products) && links == old(links)
      ensures nextId == old(nextId)
    {
      if !Authorized(password, secret) {
        return Unauthorized;
      }
      DeleteKeepsKeys(posts, postId, nextId);
      if Contains(posts, postId) {
        DeletePresent(posts, postId);
      }
      posts := Delete(posts, postId);
      r := Text(200, "Deleted");
    }

    // ---- products ----

    /** GET /api/products: every product in the store's natural order. */
    method ListProducts() returns (r: Reply)
      ensures r == DocsJson(products)
    {
      r := DocsJson(products);
    }

    /**
     * POST /api/admin/products: behind the admin gate, store the product body
     * verbatim under a fresh identifier. An absent body makes `insertOne`
     * reject outside any `try`, so no response is sent.
     */
    method AddProduct(password: Option<string>, product: Option<Doc>, secret: Option<string>) returns (r: Reply)
      requires Valid()
      modifies this
      ensures Valid()
      ensures !Authorized(password, secret) ==> r == Unauthorized && unchanged(this)
      ensures Authorized(password, secret) && product.None? ==> r == NoReply && unchanged(this)
      ensures Authorized(password, secret) && product.Some? ==>
        && r == Text(200, "Added")
        && !Contains(old(products), old(nextId))
        && products == old(products) + [Entry(old(nextId), product.value)]
        && nextId == old(nextId) + 1
      ensures settings == old(settings) && posts == old(posts) && links == old(links)
    {
      if !Authorized(password, secret) {
        return Unauthorized;
      }
      if product.None? {
        return NoReply;
      }
      var id := FreshId();
      AppendFresh(products, id, product.value);
      products := products + [Entry(id, product.value)];
      r := Text(200, "Added");
    }

    /** DELETE /api/admin/products/:id: behind the admin gate, remove the product; "Deleted" whether or not it existed. */
    method DeleteProduct(password: Option<string>, productId: Id, secret: Option<string>) returns (r: Reply)
      requires Valid()
      modifies this
      ensures Valid()
      ensures !Authorized(password, secret) ==> r == Unauthorized && unchanged(this)
      ensures Authorized(password, secret) ==>
        && r == Text(200, "Deleted")
        && products == Delete(old(products), productId)
        && !Contains(products, productId)
        && (forall j :: j != productId ==> Lookup(products, j) == Lookup(old(products), j))
        && (!Contains(old(products), productId) ==> products == old(products))
      ensures settings == old(settings) && posts == old(posts) && links == old(links)
      ensures nextId == old(nextId)
    {
      if !Authorized(password, secret) {
        return Unauthorized;
      }
      DeleteKeepsKeys(products, productId, nextId);
      if Contains(products, productId) {
        DeletePresent(products, productId);
      }
      products := Delete(products, productId);
      r := Text(200, "Deleted");
    }

    // ---- links ----

    /** GET /api/links: every link in the store's natural order. */
    method ListLinks() returns (r: Reply)
      ensures r == DocsJson(links)
    {
      r := DocsJson(links);
    }

    /** POST /api/admin/links: as AddProduct, on the links collection. */
    method AddLink(password: Option<string>, link: Option<Doc>, secret: Option<string>) returns (r: Reply)
      requires Valid()
      modifies this
      ensures Valid()
      ensures !Authorized(password, secret) ==> r == Unauthorized && unchanged(this)
      ensures Authorized(password, secret) && link.None? ==> r == NoReply && unchanged(this)
      ensures Authorized(password, secret) && link.Some? ==>
        && r == Text(200, "Added")
        && !Contains(old(links), old(nextId))
        && links == old(links) + [Entry(old(nextId), link.value)]
        && nextId == old(nextId) + 1
      ensures settings == old(settings) && posts == old(posts) && products == old(products)
    {
      if !Authorized(password, secret) {
        return Unauthorized;
      }
      if link.None? {
        return NoReply;
      }
      var id := FreshId();
      AppendFresh(links, id, link.value);
      links := links + [Entry(id, link.value)];
      r := Text(200, "Added");
    }

    /** DELETE /api/admin/links/:id: as DeleteProduct, on the links collection. */
    method DeleteLink(password: Option<string>, linkId: Id, secret: Option<string>) returns (r: Reply)
      requires Valid()
      modifies this
      ensures Valid()
      ensures !Authorized(password, secret) ==> r == Unauthorized && unchanged(this)
      ensures Authorized(password, secret) ==>
        && r == Text(200, "Deleted")
        && links == Delete(old(links), linkId)
        && !Contains(links, linkId)
        && (forall j :: j != linkId ==> Lookup(links, j) == Lookup(old(links), j))
        && (!Contains(old(links), linkId) ==> links == old(links))
      ensures settings == old(settings) && posts == old(posts) && products == old(products)
      ensures nextId == old(nextId)
    {
      if !Authorized(password, secret) {
        return Unauthorized;
      }
      DeleteKeepsKeys(links, linkId, nextId);
      if Contains(links, linkId) {
        DeletePresent(links, linkId);
      }
      links := Delete(links, linkId);
      r := Text(200, "Deleted");
    }
  }
}
