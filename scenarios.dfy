/**
 * Short request sequences and concrete instances of the handlers' behaviour:
 * a like then an unlike, a post created then listed, three posts ordered by
 * date, and two authorised settings writes around a refused one.
 */
module Scenarios {
  import opened Values
  import opened Collection
  import opened Records
  import opened Ordering
  import opened Likes
  import opened Server

  /**
   * A user who has not liked a post toggles twice: the first reply lists the
   * user last, the second gives back the likes the post had before.
   */
  method LikeThenUnlike(store: Store, postId: Id, userId: string) returns (first: Reply, second: Reply)
    requires store.Valid() && Contains(store.posts, postId)
    requires userId !in Lookup(store.posts, postId).value.likes.GetOr([])
    modifies store
    ensures store.Valid()
    ensures first == LikesJson(old(Lookup(store.posts, postId).value.likes.GetOr([])) + [userId])
    ensures second == LikesJson(old(Lookup(store.posts, postId).value.likes.GetOr([])))
  {
    ghost var before := Lookup(store.posts, postId).value.likes.GetOr([]);
    first := store.ToggleLike(postId, userId);
    assert Contains(store.posts, postId);
    second := store.ToggleLike(postId, userId);
    ToggleTwiceRestores(before, userId);
  }

  /**
   * A post created after every stored post heads the next listing, carrying
   * the identifier the create reply gave it.
   */
  method CreateThenList(store: Store, content: string, now: Timestamp) returns (created: Reply, listed: Reply)
    requires store.Valid() && content != ""
    requires forall i :: 0 <= i < |store.posts| ==> store.posts[i].doc.date < now
    modifies store
    ensures store.Valid()
    ensures created.PostJson? && created.post.content == content && created.post.date == now
    ensures listed.PostsJson? && |listed.posts| == |old(store.posts)| + 1
    ensures listed.posts[0] == Entry(created.id, created.post)
  {
    created := store.CreatePost(Some(content), None, None, now);
    listed := store.ListPosts();
    NewestListedFirst(old(store.posts), Entry(created.id, created.post));
  }

  /** Three posts created at increasing times are listed in reverse order of creation. */
  lemma {:induction false} ThreePostsNewestFirst(pa: Entry<Post>, pb: Entry<Post>, pc: Entry<Post>)
    requires pa.doc.date < pb.doc.date < pc.doc.date
    ensures SortByDateDesc([pa, pb, pc]) == [pc, pb, pa]
  {
    assert [pa, pb, pc][1..] == [pb, pc];
    assert [pb, pc][1..] == [pc];
    assert [pc][1..] == [];
    assert SortByDateDesc([pc]) == [pc];
    assert InsertByDate(pb, [pc]) == [pc] + InsertByDate(pb, []);
    assert SortByDateDesc([pb, pc]) == [pc, pb];
    assert [pc, pb][1..] == [pb];
    assert [pb][1..] == [];
    assert InsertByDate(pa, [pc, pb]) == [pc] + InsertByDate(pa, [pb]);
    assert InsertByDate(pa, [pb]) == [pb] + InsertByDate(pa, []);
  }

  /**
   * On a new store, an authorised write of `{"lang": "id"}`, then a write with
   * the wrong password, then an authorised write of
   * `{"theme": "dark", "type": "custom"}`: the refused write changes nothing,
   * and the document reads back with the new theme, the kept language and
   * `type` still "general".
   */
  method SettingsMerge(secret: string) returns (first: Reply, refused: Reply, second: Reply, read: Reply)
    ensures first == Text(200, "Updated") && second == Text(200, "Updated")
    ensures refused == Unauthorized
    ensures read.SettingsJson?
    ensures read.settings == map["lang" := JStr("id"), "theme" := JStr("dark"), "type" := JStr("general")]
  {
    var store := new Store();
    first := store.UpdateConfig(Some(secret), Some(map["lang" := JStr("id")]), Some(secret));
    var patch := map["theme" := JStr("dark"), "type" := JStr("custom")];
    refused := store.UpdateConfig(Some(secret + "x"), Some(map["lang" := JStr("en")]), Some(secret));
    assert secret + "x" != secret by { assert |secret + "x"| != |secret|; }
    second := store.UpdateConfig(Some(secret), Some(patch), Some(secret));
    read := store.GetConfig();
    assert read.settings.Keys == {"lang", "theme", "type"};
  }
}
