/** The sweep of expired post images: it selects the posts whose image has expired,
    asks the blob store to remove each image file and clears the post's image fields
    one post at a time, carrying on past any per-post failure. */
module ImageActions {
  import opened Basics
  import opened Text
  import opened Seqs
  import opened Store

  const QueryFailed := "Failed to query expired images"
  const NoneExpired := "No expired images found"

  /** `{ error }`, `{ message }` or `{ success: true, message }`. */
  datatype Answer = Failed(error: string) | NothingToDo(message: string) | Swept(message: string)

  /** Lines 17-19: an image URL and an expiry are set, and the expiry is strictly before `now`. */
  predicate Expired(p: Post, now: int)
  {
    p.imageUrl.Some? && p.imageExpiresAt.Some? && p.imageExpiresAt.value < now
  }

  function ExpiredAt(now: int): Post -> bool
  {
    (p: Post) => Expired(p, now)
  }

  /** Lines 36-38: the last two `/`-separated segments of the URL joined by `/`
      (`slice(-2)` keeps the only segment of a URL without `/`). */
  function StoragePath(url: string): (path: string)
  {
    var parts := Split(url, '/');
    if |parts| >= 2 then Join(parts[|parts| - 2..], '/') else Join(parts, '/')
  }

  /** An uploaded file's public URL ends in `<folder>/<file>`; its storage path is that. */
  lemma StoragePathOfUpload(base: string, folder: string, file: string)
    requires '/' !in folder && '/' !in file
    ensures StoragePath(base + "/" + folder + "/" + file) == folder + "/" + file
  {
    var parts := Split(base, '/') + [folder, file];
    SplitAppend(base, folder, '/');
    assert base + "/" + folder + "/" + file == (base + ['/'] + folder) + ['/'] + file;
    SplitAppend(base + ['/'] + folder, file, '/');
    assert Split(base + "/" + folder + "/" + file, '/') == parts;
    assert parts[|parts| - 2..] == [folder, file];
    assert Join([folder, file], '/') == folder + ['/'] + Join([file], '/');
  }

  /** A URL without `/` is its own storage path. */
  lemma StoragePathOfBareName(url: string)
    requires '/' !in url
    ensures StoragePath(url) == url
  {
    SplitFree(url, '/');
  }

  /** The post without its image. */
  function Cleared(p: Post): Post
  {
    p.(imageUrl := None, imageExpiresAt := None)
  }

  /** `.update({ image_url: null, image_expires_at: null })` on the rows whose id is in `ids`. */
  function ClearIds(posts: seq<Post>, ids: set<PostId>): (r: seq<Post>)
    ensures |r| == |posts|
    ensures forall k :: 0 <= k < |r| ==> r[k].id == posts[k].id && r[k].userId == posts[k].userId
  {
    seq(|posts|, k requires 0 <= k < |posts| => if posts[k].id in ids then Cleared(posts[k]) else posts[k])
  }

  /** The ids of the selected posts whose fields the loop clears: the ones with a truthy
      URL (line 34 skips an empty one) whose update does not fail. */
  function ClearedIds(selected: seq<Post>, updateFailures: set<PostId>): set<PostId>
  {
    set p | p in selected && Truthy(p.imageUrl) && p.id !in updateFailures :: p.id
  }

  /** The whole sweep over a table as one function: its answer, the posts table after
      it, and the storage paths whose removal it requests, in order. */
  function Sweep(posts: seq<Post>, now: int, queryFails: bool, updateFailures: set<PostId>)
    : (r: (Answer, seq<Post>))
  {
    var selected := Filter(posts, ExpiredAt(now));
    if queryFails then (Failed(QueryFailed), posts)
    else if selected == [] then (NothingToDo(NoneExpired), posts)
    else (Swept("Deleted " + Decimal(|selected|) + " expired image(s)"),
          ClearIds(posts, ClearedIds(selected, updateFailures)))
  }

  /** The storage paths the loop asks to remove: one per selected post with a truthy URL. */
  function RemovedPaths(selected: seq<Post>): (paths: seq<string>)
    ensures |paths| <= |selected|
  {
    if selected == [] then []
    else
      var rest := RemovedPaths(selected[..|selected| - 1]);
      var p := selected[|selected| - 1];
      if Truthy(p.imageUrl) then rest + [StoragePath(p.imageUrl.value)] else rest
  }

  /** After the sweep a post has lost its image exactly when it was selected, had a
      non-empty URL and its update did not fail; every other post is unchanged, and no
      post changes anything but its image fields. */
  lemma SweepEffect(posts: seq<Post>, now: int, updateFailures: set<PostId>)
    requires UniquePostIds(posts)
    requires !(Filter(posts, ExpiredAt(now)) == [])
    ensures var after := Sweep(posts, now, false, updateFailures).1;
            |after| == |posts| &&
            forall k :: 0 <= k < |posts| ==>
              after[k] == (if Expired(posts[k], now) && Truthy(posts[k].imageUrl) && posts[k].id !in updateFailures
                           then Cleared(posts[k]) else posts[k])
  {
    var selected := Filter(posts, ExpiredAt(now));
    var ids := ClearedIds(selected, updateFailures);
    forall k | 0 <= k < |posts|
      ensures posts[k].id in ids <==>
                Expired(posts[k], now) && Truthy(posts[k].imageUrl) && posts[k].id !in updateFailures
    {
      if posts[k].id in ids {
        var p :| p in selected && Truthy(p.imageUrl) && p.id !in updateFailures && p.id == posts[k].id;
        var m :| 0 <= m < |posts| && posts[m] == p;
        assert m == k;
      } else if Expired(posts[k], now) {
        assert posts[k] in selected;
      }
    }
  }

  /** An empty selection answers "No expired images found" and changes nothing. */
  lemma NothingExpiredChangesNothing(posts: seq<Post>, now: int, updateFailures: set<PostId>)
    requires forall k :: 0 <= k < |posts| ==> !Expired(posts[k], now)
    ensures Sweep(posts, now, false, updateFailures) == (NothingToDo(NoneExpired), posts)
  {
    FilterNone(posts, ExpiredAt(now));
  }

  /** The reported count is the number of selected posts, whatever failed for them. */
  lemma SweepReportsSelected(posts: seq<Post>, now: int, updateFailures: set<PostId>)
    requires Filter(posts, ExpiredAt(now)) != []
    ensures Sweep(posts, now, false, updateFailures).0 ==
            Swept("Deleted " + Decimal(|Filter(posts, ExpiredAt(now))|) + " expired image(s)")
    ensures Sweep(posts, now, false, updateFailures).0 == Sweep(posts, now, false, {}).0
  {
  }

  /** A post table whose rows keep their ids and authors keeps the store's invariants. */
  lemma SameKeysKeepPosts(before: seq<Post>, after: seq<Post>, nextPostId: nat, profiles: seq<Profile>,
                          likes: seq<Like>, comments: seq<Comment>)
    requires |after| == |before|
    requires forall k :: 0 <= k < |before| ==> after[k].id == before[k].id && after[k].userId == before[k].userId
    requires PostsOk(before, nextPostId, profiles) && ReactionsOk(likes, comments, before)
    ensures PostsOk(after, nextPostId, profiles) && ReactionsOk(likes, comments, after)
  {
    assert forall id :: HasPost(after, id) <==> HasPost(before, id);
  }

  /** One more selected post: its id joins the cleared ones when its URL is truthy and
      its update does not fail, and its path joins the removed ones when its URL is truthy. */
  lemma SweepStep(expired: seq<Post>, i: nat, updateFailures: set<PostId>)
    requires i < |expired|
    ensures var p := expired[i];
            ClearedIds(expired[..i + 1], updateFailures) ==
              ClearedIds(expired[..i], updateFailures) +
              (if Truthy(p.imageUrl) && p.id !in updateFailures then {p.id} else {})
    ensures var p := expired[i];
            RemovedPaths(expired[..i + 1]) ==
              RemovedPaths(expired[..i]) + (if Truthy(p.imageUrl) then [StoragePath(p.imageUrl.value)] else [])
  {
    assert expired[..i + 1][..i] == expired[..i];
    assert expired[..i + 1] == expired[..i] + [expired[i]];
  }

  /** Clearing more ids step by step is clearing their union. */
  lemma ClearMore(posts: seq<Post>, ids: set<PostId>, id: PostId)
    ensures ClearIds(ClearIds(posts, ids), {id}) == ClearIds(posts, ids + {id})
  {
  }

  /** Lines 31-62: for each selected post in turn, skip it when its URL is empty,
      request the removal of its file (a failure is only logged), and clear its image
      fields unless that update fails. `removed` lists the storage paths requested. */
  method ClearEach(db: Database, expired: seq<Post>, updateFailures: set<PostId>) returns (removed: seq<string>)
    modifies db`posts
    ensures db.posts == ClearIds(old(db.posts), ClearedIds(expired, updateFailures))
    ensures removed == RemovedPaths(expired)
  {
    ghost var before := db.posts;
    removed := [];
    var i := 0;
    while i < |expired|
      invariant 0 <= i <= |expired|
      invariant db.posts == ClearIds(before, ClearedIds(expired[..i], updateFailures))
      invariant removed == RemovedPaths(expired[..i])
    {
      var post := expired[i];
      SweepStep(expired, i, updateFailures);
      if !Truthy(post.imageUrl) {
        i := i + 1;
        continue;
      }
      removed := removed + [StoragePath(post.imageUrl.value)];
      if post.id !in updateFailures {
        ClearMore(before, ClearedIds(expired[..i], updateFailures), post.id);
        db.posts := ClearIds(db.posts, {post.id});
      }
      i := i + 1;
    }
    assert expired[..i] == expired;
  }

  /** Lines 6-76. Selects the expired posts, answers when the query fails or selects
      nothing, and otherwise clears them one by one and reports how many were selected. */
  method CheckAndDeleteExpiredImages(db: Database, now: int, queryFails: bool, updateFailures: set<PostId>)
    returns (answer: Answer, removed: seq<string>)
    requires db.Valid()
    modifies db`posts
    ensures db.Valid()
    ensures (answer, db.posts) == Sweep(old(db.posts), now, queryFails, updateFailures)
    ensures removed == (if queryFails then [] else RemovedPaths(Filter(old(db.posts), ExpiredAt(now))))
  {
    var expired := Filter(db.posts, ExpiredAt(now));
    if queryFails {
      return Failed(QueryFailed), [];
    }
    if |expired| == 0 {
      return NothingToDo(NoneExpired), [];
    }
    ghost var before := db.posts;
    removed := ClearEach(db, expired, updateFailures);
    SameKeysKeepPosts(before, db.posts, db.nextPostId, db.profiles, db.likes, db.comments);
    answer := Swept("Deleted " + Decimal(|expired|) + " expired image(s)");
  }
}
