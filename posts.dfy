/** The feed server actions: the newest-posts projection, creating a post, the
    like toggle, commenting, and the trending hashtags of the recent posts. */
module PostActions {
  import opened Basics
  import opened Text
  import opened Seqs
  import opened Store
  import opened HashtagScan

  /** The store calls of these actions, named so that a caller can say which of
      them fail for reasons outside the model. */
  datatype Call =
    | SelectFeed
    | InsertPost
    | InsertLike
    | DeleteLike
    | InsertComment
    | SelectRecentContents

  const PostEmpty := "Post content cannot be empty"
  const LoginToPost := "You must be logged in to create a post"
  const CreatePostFailed := "Failed to create post"
  const LoginToLike := "You must be logged in to like a post"
  const LikeFailed := "Failed to like post"
  const CommentEmpty := "Comment cannot be empty"
  const LoginToComment := "You must be logged in to comment"
  const CommentFailed := "Failed to add comment"

  // ------------------------------------------------------------------- the feed

  function PostCreatedAt(p: Post): int
  {
    p.createdAt
  }

  /** `.order("created_at", { ascending: false }).limit(n)` over the posts table. */
  function Recent(posts: seq<Post>, n: nat): (r: seq<Post>)
    ensures |r| == Min(n, |posts|)
    ensures forall i, j :: 0 <= i < j < |r| ==> r[i].createdAt >= r[j].createdAt
    ensures forall k :: 0 <= k < |r| ==> r[k] in posts
    ensures multiset(r) <= multiset(posts)
  {
    var sorted := SortDesc(posts, PostCreatedAt);
    assert forall k :: 0 <= k < |sorted| ==> sorted[k] in multiset(posts);
    Take(sorted, n)
  }

  /** No post left out of `Recent(posts, n)` is newer than a post in it. */
  lemma RecentAreNewest(posts: seq<Post>, n: nat)
    ensures var r := Recent(posts, n);
            forall p, i :: p in posts && p !in r && 0 <= i < |r| ==> p.createdAt <= r[i].createdAt
  {
    var r := Recent(posts, n);
    assert r == Take(SortDesc(posts, PostCreatedAt), n);
    TopOfSorted(posts, PostCreatedAt, n);
    forall p, i | p in posts && p !in r && 0 <= i < |r| ensures p.createdAt <= r[i].createdAt {
      assert PostCreatedAt(p) <= PostCreatedAt(r[i]);
    }
  }

  /** The `user` block of a feed entry. */
  datatype Author = Author(id: UserId, name: string, username: string, avatarUrl: Option<string>)

  /** Lines 30-35: the display name is `full_name || username`. */
  function AuthorOf(p: Profile): Author
  {
    Author(p.id, OrElse(p.fullName, p.username), p.username, p.avatarUrl)
  }

  /** `likes (...)` embedded in a post: the likes rows referencing it. */
  function OnPost(id: PostId): Like -> bool
  {
    (l: Like) => l.postId == id
  }

  /** `comments (id)` embedded in a post. */
  function CommentOn(id: PostId): Comment -> bool
  {
    (c: Comment) => c.postId == id
  }

  /** One element of `getPosts`. */
  datatype FeedPost = FeedPost(id: PostId, content: string, imageUrl: Option<string>, createdAt: int,
                               user: Author, likesCount: nat, commentsCount: nat, likedByUser: bool)

  /** Lines 25-39: the entry built for one post, whose author has a profile. */
  function FeedEntry(profiles: seq<Profile>, likes: seq<Like>, comments: seq<Comment>, p: Post): FeedPost
    requires HasProfile(profiles, p.userId)
  {
    FeedPost(p.id, p.content, p.imageUrl, p.createdAt, AuthorOf(ProfileOf(profiles, p.userId).value),
             |Filter(likes, OnPost(p.id))|, |Filter(comments, CommentOn(p.id))|, false)
  }

  /** Lines 6-40: the ten newest posts with author, counts and `liked_by_user: false`;
      a failed query yields the empty list. Every author has a profile (foreign key). */
  function GetPosts(posts: seq<Post>, profiles: seq<Profile>, likes: seq<Like>, comments: seq<Comment>,
                    failing: set<Call>): (r: seq<FeedPost>)
    requires AuthorsHaveProfiles(posts, profiles)
    ensures SelectFeed in failing ==> r == []
    ensures |r| <= 10
  {
    if SelectFeed in failing then []
    else
      var recent := Recent(posts, 10);
      seq(|recent|, k requires 0 <= k < |recent| => FeedEntry(profiles, likes, comments, recent[k]))
  }

  /** Entry `k` of the feed is built from the `k`-th newest post. */
  lemma FeedFromRecent(posts: seq<Post>, profiles: seq<Profile>, likes: seq<Like>, comments: seq<Comment>,
                       failing: set<Call>)
    requires AuthorsHaveProfiles(posts, profiles)
    requires SelectFeed !in failing
    ensures var r := GetPosts(posts, profiles, likes, comments, failing);
            var recent := Recent(posts, 10);
            |r| == |recent| &&
            forall k :: 0 <= k < |r| ==> recent[k] in posts && r[k] == FeedEntry(profiles, likes, comments, recent[k])
  {
  }

  /** The feed shows `min(10, |posts|)` posts, newest first. */
  lemma FeedIsNewestFirst(posts: seq<Post>, profiles: seq<Profile>, likes: seq<Like>, comments: seq<Comment>,
                          failing: set<Call>)
    requires AuthorsHaveProfiles(posts, profiles)
    requires SelectFeed !in failing
    ensures var r := GetPosts(posts, profiles, likes, comments, failing);
            |r| == Min(10, |posts|) &&
            forall i, j :: 0 <= i < j < |r| ==> r[i].createdAt >= r[j].createdAt
  {
    FeedKeys(posts, profiles, likes, comments, failing);
  }

  /** No post left out of the feed is newer than a post shown. */
  lemma FeedLeavesOutOlder(posts: seq<Post>, profiles: seq<Profile>, likes: seq<Like>, comments: seq<Comment>,
                           failing: set<Call>)
    requires AuthorsHaveProfiles(posts, profiles)
    requires SelectFeed !in failing
    ensures var r := GetPosts(posts, profiles, likes, comments, failing);
            forall p, i :: p in posts && (forall e :: e in r ==> e.id != p.id) && 0 <= i < |r| ==>
                             p.createdAt <= r[i].createdAt
  {
    FeedKeys(posts, profiles, likes, comments, failing);
    RecentAreNewest(posts, 10);
    OlderByIds(posts, Recent(posts, 10), GetPosts(posts, profiles, likes, comments, failing));
  }

  /** Entry `k` of the feed carries the id and creation time of the `k`-th newest post. */
  lemma FeedKeys(posts: seq<Post>, profiles: seq<Profile>, likes: seq<Like>, comments: seq<Comment>,
                 failing: set<Call>)
    requires AuthorsHaveProfiles(posts, profiles)
    requires SelectFeed !in failing
    ensures var r := GetPosts(posts, profiles, likes, comments, failing);
            var recent := Recent(posts, 10);
            |r| == |recent| &&
            forall k :: 0 <= k < |r| ==> r[k].id == recent[k].id && r[k].createdAt == recent[k].createdAt
  {
    FeedFromRecent(posts, profiles, likes, comments, failing);
  }

  /** Entries carrying the ids and times of the newest posts leave out no newer post. */
  lemma OlderByIds(posts: seq<Post>, recent: seq<Post>, r: seq<FeedPost>)
    requires |r| == |recent|
    requires forall k :: 0 <= k < |r| ==> r[k].id == recent[k].id && r[k].createdAt == recent[k].createdAt
    requires forall p, i :: p in posts && p !in recent && 0 <= i < |recent| ==> p.createdAt <= recent[i].createdAt
    ensures forall p, i :: p in posts && (forall e :: e in r ==> e.id != p.id) && 0 <= i < |r| ==>
                             p.createdAt <= r[i].createdAt
  {
    forall p, i | p in posts && (forall e :: e in r ==> e.id != p.id) && 0 <= i < |r|
      ensures p.createdAt <= r[i].createdAt
    {
      forall k | 0 <= k < |recent| ensures recent[k] != p {
        assert r[k] in r;
      }
    }
  }

  /** Feed entry `e` presents post `p` written by `a`: the post's fields, the author's
      `full_name` as name when that is non-empty and the username otherwise, the
      number of likes and comments on the post, and `liked_by_user` false. */
  predicate Presents(e: FeedPost, p: Post, a: Profile, likes: seq<Like>, comments: seq<Comment>)
  {
    a.id == p.userId && e.id == p.id && e.content == p.content && e.imageUrl == p.imageUrl &&
    e.createdAt == p.createdAt &&
    e.user == Author(a.id, if Truthy(a.fullName) then a.fullName.value else a.username, a.username, a.avatarUrl) &&
    e.likesCount == |Filter(likes, OnPost(p.id))| && e.commentsCount == |Filter(comments, CommentOn(p.id))| &&
    !e.likedByUser
  }

  /** Feed entry `e` presents some post of the table and its author's profile. */
  predicate PresentsSome(e: FeedPost, posts: seq<Post>, profiles: seq<Profile>, likes: seq<Like>,
                         comments: seq<Comment>)
  {
    exists p, a :: p in posts && a in profiles && Presents(e, p, a, likes, comments)
  }

  /** Every feed entry presents a post of the table and its author's profile. */
  lemma FeedPresentsPosts(posts: seq<Post>, profiles: seq<Profile>, likes: seq<Like>, comments: seq<Comment>,
                          failing: set<Call>)
    requires AuthorsHaveProfiles(posts, profiles)
    ensures var r := GetPosts(posts, profiles, likes, comments, failing);
            forall k :: 0 <= k < |r| ==> PresentsSome(r[k], posts, profiles, likes, comments)
  {
    var r := GetPosts(posts, profiles, likes, comments, failing);
    if SelectFeed !in failing {
      var recent := Recent(posts, 10);
      FeedFromRecent(posts, profiles, likes, comments, failing);
      forall k | 0 <= k < |r| ensures PresentsSome(r[k], posts, profiles, likes, comments) {
        var p := recent[k];
        var a := ProfileOf(profiles, p.userId).value;
        EntryPresents(profiles, likes, comments, p);
        assert p in posts && a in profiles && Presents(r[k], p, a, likes, comments);
      }
    }
  }

  lemma EntryPresents(profiles: seq<Profile>, likes: seq<Like>, comments: seq<Comment>, p: Post)
    requires HasProfile(profiles, p.userId)
    ensures var a := ProfileOf(profiles, p.userId).value;
            a in profiles && Presents(FeedEntry(profiles, likes, comments, p), p, a, likes, comments)
  {
  }

  // ----------------------------------------------------------------- createPost

  /** `!content?.trim()`: a missing or blank form field. */
  predicate BlankField(content: Option<string>)
  {
    content.None? || IsBlank(content.value)
  }

  /** Lines 42-78, the row to insert or the error: blank content is refused before the
      session is looked at; the content is stored as submitted, untrimmed, with the
      submitted image URL. The insert is rejected when the author has no profile. */
  function NewPost(profiles: seq<Profile>, nextId: nat, session: Option<UserId>, content: Option<string>,
                   imageUrl: Option<string>, now: int, failing: set<Call>): (r: Result<Post>)
    ensures BlankField(content) ==> r == Err(PostEmpty)
    ensures !BlankField(content) && session.None? ==> r == Err(LoginToPost)
    ensures r.Err? ==> r.error in {PostEmpty, LoginToPost, CreatePostFailed}
    ensures r.Ok? ==> !BlankField(content) && session.Some? && r.value.content == content.value &&
                      r.value.userId == session.value && r.value.id == nextId &&
                      r.value.imageUrl == imageUrl && r.value.imageExpiresAt.None? &&
                      HasProfile(profiles, session.value)
    ensures !BlankField(content) && session.Some? ==>
              (r.Ok? <==> InsertPost !in failing && HasProfile(profiles, session.value))
  {
    if BlankField(content) then Err(PostEmpty)
    else if session.None? then Err(LoginToPost)
    else if InsertPost in failing || !HasProfile(profiles, session.value) then Err(CreatePostFailed)
    else Ok(Post(nextId, session.value, content.value, imageUrl, None, now))
  }

  /** A new post keeps post ids unique and issued, and every author with a profile. */
  lemma NewPostKeepsPosts(posts: seq<Post>, profiles: seq<Profile>, nextId: nat, session: Option<UserId>,
                          content: Option<string>, imageUrl: Option<string>, now: int, failing: set<Call>)
    requires PostsOk(posts, nextId, profiles)
    requires NewPost(profiles, nextId, session, content, imageUrl, now, failing).Ok?
    ensures PostsOk(posts + [NewPost(profiles, nextId, session, content, imageUrl, now, failing).value],
                    nextId + 1, profiles)
  {
    var p := NewPost(profiles, nextId, session, content, imageUrl, now, failing).value;
    var ps := posts + [p];
    forall i, j | 0 <= i < j < |ps| ensures ps[i].id != ps[j].id {
      if j == |posts| {
        assert ps[i] == posts[i];
      }
    }
  }

  /** Adding a post keeps every like and comment referencing a post. */
  lemma MorePostsKeepReactions(likes: seq<Like>, comments: seq<Comment>, posts: seq<Post>, p: Post)
    requires ReactionsOk(likes, comments, posts)
    ensures ReactionsOk(likes, comments, posts + [p])
  {
    forall id | HasPost(posts, id) ensures HasPost(posts + [p], id) {
      var k :| 0 <= k < |posts| && posts[k].id == id;
      assert (posts + [p])[k] == posts[k];
    }
  }

  /** Lines 42-78. Answers as `NewPost` does and appends the row when it is accepted. */
  method CreatePost(db: Database, session: Option<UserId>, content: Option<string>, imageUrl: Option<string>,
                    now: int, failing: set<Call>)
    returns (r: Outcome)
    requires db.Valid()
    modifies db`posts, db`nextPostId
    ensures db.Valid()
    ensures var n := NewPost(old(db.profiles), old(db.nextPostId), session, content, imageUrl, now, failing);
            r == (if n.Ok? then Success else Failure(n.error)) &&
            db.posts == old(db.posts) + (if n.Ok? then [n.value] else []) &&
            db.nextPostId == old(db.nextPostId) + (if n.Ok? then 1 else 0)
  {
    var n := NewPost(db.profiles, db.nextPostId, session, content, imageUrl, now, failing);
    match n
    case Err(e) =>
      r := Failure(e);
    case Ok(p) =>
      NewPostKeepsPosts(db.posts, db.profiles, db.nextPostId, session, content, imageUrl, now, failing);
      AppendPost(db, p);
      r := Success;
  }

  /** The insert of lines 63-67 once the store accepts it: the row takes the next id and
      is appended. */
  method AppendPost(db: Database, p: Post)
    requires db.Valid() && PostsOk(db.posts + [p], db.nextPostId + 1, db.profiles)
    modifies db`posts, db`nextPostId
    ensures db.Valid()
    ensures db.posts == old(db.posts) + [p] && db.nextPostId == old(db.nextPostId) + 1
  {
    MorePostsKeepReactions(db.likes, db.comments, db.posts, p);
    db.posts := db.posts + [p];
    db.nextPostId := db.nextPostId + 1;
  }

  // ------------------------------------------------------------------- likePost

  /** Every like except `l`. */
  function Except(l: Like): Like -> bool
  {
    (x: Like) => x != l
  }

  /** The answer of the like toggle and the likes table after it. */
  datatype Toggled = Toggled(outcome: Outcome, likes: seq<Like>)

  /** Lines 80-112. The insert of (post, caller) is tried first; when that row exists the
      store reports a unique violation and the row is deleted instead, a failed delete
      being ignored; any other insert error, such as a post that does not exist, is
      reported. */
  function Toggle(likes: seq<Like>, posts: seq<Post>, session: Option<UserId>, postId: PostId,
                  failing: set<Call>): (r: Toggled)
    ensures session.None? ==> r == Toggled(Failure(LoginToLike), likes)
    ensures r.outcome.Failure? ==> r.likes == likes && r.outcome.error in {LoginToLike, LikeFailed}
    ensures session.Some? && InsertLike !in failing ==>
              (r.outcome == Success <==> Like(postId, session.value) in likes || HasPost(posts, postId))
  {
    if session.None? then Toggled(Failure(LoginToLike), likes)
    else
      var l := Like(postId, session.value);
      if InsertLike in failing then Toggled(Failure(LikeFailed), likes)
      else if l in likes then Toggled(Success, if DeleteLike in failing then likes else Filter(likes, Except(l)))
      else if !HasPost(posts, postId) then Toggled(Failure(LikeFailed), likes)
      else Toggled(Success, likes + [l])
  }

  /** When no store call fails, the toggle flips whether the caller likes the post and
      leaves every other like as it was. */
  lemma ToggleFlips(likes: seq<Like>, posts: seq<Post>, u: UserId, postId: PostId, failing: set<Call>)
    requires InsertLike !in failing && DeleteLike !in failing
    requires HasPost(posts, postId)
    ensures var r := Toggle(likes, posts, Some(u), postId, failing);
            r.outcome == Success &&
            (Like(postId, u) in r.likes <==> Like(postId, u) !in likes) &&
            forall x :: x != Like(postId, u) ==> (x in r.likes <==> x in likes)
  {
  }

  /** Liking twice restores the like set: the same likes, each once. */
  lemma ToggleTwiceRestores(likes: seq<Like>, posts: seq<Post>, u: UserId, postId: PostId, failing: set<Call>)
    requires Distinct(likes)
    requires InsertLike !in failing && DeleteLike !in failing
    requires HasPost(posts, postId)
    ensures multiset(Toggle(Toggle(likes, posts, Some(u), postId, failing).likes, posts, Some(u), postId, failing).likes)
            == multiset(likes)
  {
    var l := Like(postId, u);
    var once := Toggle(likes, posts, Some(u), postId, failing).likes;
    if l in likes {
      UnlikeThenLike(likes, l);
    } else {
      LikeThenUnlike(likes, l);
    }
  }

  /** Deleting a like that occurs once and appending it again gives the same likes. */
  lemma UnlikeThenLike(likes: seq<Like>, l: Like)
    requires Distinct(likes) && l in likes
    ensures l !in Filter(likes, Except(l))
    ensures multiset(Filter(likes, Except(l)) + [l]) == multiset(likes)
  {
    var once := Filter(likes, Except(l));
    CountsOnce(likes, l);
    forall x ensures multiset(once + [l])[x] == multiset(likes)[x] {
      assert multiset(once + [l]) == multiset(once) + multiset{l};
    }
  }

  /** Appending a like not yet present and deleting it again gives the same likes. */
  lemma LikeThenUnlike(likes: seq<Like>, l: Like)
    requires l !in likes
    ensures multiset(Filter(likes + [l], Except(l))) == multiset(likes)
  {
    var once := likes + [l];
    forall x ensures multiset(Filter(once, Except(l)))[x] == multiset(likes)[x] {
      assert multiset(once) == multiset(likes) + multiset{l};
    }
  }

  /** The toggle keeps one like per (post, user) and every like on an existing post. */
  lemma ToggleKeepsReactions(likes: seq<Like>, comments: seq<Comment>, posts: seq<Post>,
                             session: Option<UserId>, postId: PostId, failing: set<Call>)
    requires ReactionsOk(likes, comments, posts)
    ensures ReactionsOk(Toggle(likes, posts, session, postId, failing).likes, comments, posts)
  {
    var r := Toggle(likes, posts, session, postId, failing);
    if session.Some? && InsertLike !in failing {
      var l := Like(postId, session.value);
      if l in likes && DeleteLike !in failing {
        FilterKeepsDistinct(likes, Except(l));
        forall k | 0 <= k < |r.likes| ensures HasPost(posts, r.likes[k].postId) {
          assert r.likes[k] in likes;
        }
      } else if l !in likes && HasPost(posts, postId) {
        forall k | 0 <= k < |r.likes| ensures HasPost(posts, r.likes[k].postId) {
          if k < |likes| {
            assert r.likes[k] == likes[k];
          }
        }
      }
    }
  }

  /** Lines 80-112. Answers as `Toggle` does and stores its likes table. */
  method LikePost(db: Database, session: Option<UserId>, postId: PostId, failing: set<Call>)
    returns (r: Outcome)
    requires db.Valid()
    modifies db`likes
    ensures db.Valid()
    ensures r == Toggle(old(db.likes), db.posts, session, postId, failing).outcome
    ensures db.likes == Toggle(old(db.likes), db.posts, session, postId, failing).likes
  {
    var t := Toggle(db.likes, db.posts, session, postId, failing);
    ToggleKeepsReactions(db.likes, db.comments, db.posts, session, postId, failing);
    db.likes := t.likes;
    r := t.outcome;
  }

  // -------------------------------------------------------------- commentOnPost

  /** Lines 114-147, the row to insert or the error: blank content is refused before the
      session is looked at; the comment is stored untrimmed, and the insert is rejected
      when the post does not exist. */
  function NewComment(posts: seq<Post>, session: Option<UserId>, postId: PostId, content: string,
                      failing: set<Call>): (r: Result<Comment>)
    ensures IsBlank(content) ==> r == Err(CommentEmpty)
    ensures !IsBlank(content) && session.None? ==> r == Err(LoginToComment)
    ensures r.Err? ==> r.error in {CommentEmpty, LoginToComment, CommentFailed}
    ensures r.Ok? ==> r.value == Comment(postId, session.value, content) && HasPost(posts, postId)
    ensures !IsBlank(content) && session.Some? ==>
              (r.Ok? <==> InsertComment !in failing && HasPost(posts, postId))
  {
    if IsBlank(content) then Err(CommentEmpty)
    else if session.None? then Err(LoginToComment)
    else if InsertComment in failing || !HasPost(posts, postId) then Err(CommentFailed)
    else Ok(Comment(postId, session.value, content))
  }

  /** An accepted comment keeps every comment referencing a post. */
  lemma NewCommentKeepsReactions(likes: seq<Like>, comments: seq<Comment>, posts: seq<Post>, c: Comment)
    requires ReactionsOk(likes, comments, posts)
    requires HasPost(posts, c.postId)
    ensures ReactionsOk(likes, comments + [c], posts)
  {
    var cs := comments + [c];
    forall k | 0 <= k < |cs| ensures HasPost(posts, cs[k].postId) {
      if k < |comments| {
        assert cs[k] == comments[k];
      }
    }
  }

  /** Lines 114-147. Answers as `NewComment` does and appends the row when it is accepted. */
  method CommentOnPost(db: Database, session: Option<UserId>, postId: PostId, content: string,
                       failing: set<Call>)
    returns (r: Outcome)
    requires db.Valid()
    modifies db`comments
    ensures db.Valid()
    ensures var n := NewComment(old(db.posts), session, postId, content, failing);
            r == (if n.Ok? then Success else Failure(n.error)) &&
            db.comments == old(db.comments) + (if n.Ok? then [n.value] else [])
  {
    match NewComment(db.posts, session, postId, content, failing)
    case Err(e) =>
      r := Failure(e);
    case Ok(c) =>
      AppendComment(db, c);
      r := Success;
  }

  /** The insert of lines 132-136 once the store accepts it: the row is appended. */
  method AppendComment(db: Database, c: Comment)
    requires db.Valid() && HasPost(db.posts, c.postId)
    modifies db`comments
    ensures db.Valid()
    ensures db.comments == old(db.comments) + [c]
  {
    NewCommentKeepsReactions(db.likes, db.comments, db.posts, c);
    db.comments := db.comments + [c];
  }

  // ---------------------------------------------------------- getTrendingTopics

  /** Every match of every content, post by post and match by match: the tags the
      nested `forEach` loops visit, in order. */
  function AllTags(contents: seq<string>): (tags: seq<string>)
    ensures forall k :: 0 <= k < |tags| ==> IsTag(tags[k])
  {
    if contents == [] then []
    else AllTags(contents[..|contents| - 1]) + Hashtags(contents[|contents| - 1])
  }

  /** The `hashtags` object after counting `tags`: a key per tag seen, whose value is
      the number of times it was seen. */
  function Tally(tags: seq<string>): (counts: map<string, nat>)
    ensures forall t :: t in counts <==> t in tags
    ensures forall t :: t in counts ==> counts[t] == multiset(tags)[t]
  {
    if tags == [] then map[]
    else
      var prev := tags[..|tags| - 1];
      var t := tags[|tags| - 1];
      assert tags == prev + [t];
      var counts := Tally(prev);
      counts[t := (if t in counts then counts[t] else 0) + 1]
  }

  /** The keys of the `hashtags` object in the order `Object.entries` lists them: a
      key that is not an array index (every tag starts with `#`) is listed in the
      order of its creation, that is, of its first occurrence. */
  function FirstOccurrences(tags: seq<string>): (keys: seq<string>)
    ensures Distinct(keys)
    ensures forall t :: t in keys <==> t in tags
  {
    if tags == [] then []
    else
      var keys := FirstOccurrences(tags[..|tags| - 1]);
      var t := tags[|tags| - 1];
      assert t in tags;
      assert forall x :: x in tags[..|tags| - 1] ==> x in tags;
      assert forall x :: x in tags ==> x in tags[..|tags| - 1] || x == t;
      if t in keys then keys else keys + [t]
  }

  /** One element of the `topics` list. */
  datatype Topic = Topic(tag: string, count: nat)

  function TopicCount(t: Topic): int
  {
    t.count
  }

  /** `Object.entries(hashtags).map(([tag, count]) => ({ tag, count }))`. */
  function Entries(counts: map<string, nat>, keys: seq<string>): (topics: seq<Topic>)
    requires forall k :: 0 <= k < |keys| ==> keys[k] in counts
    ensures |topics| == |keys|
    ensures forall k :: 0 <= k < |keys| ==> topics[k].tag == keys[k] && topics[k].count == counts[keys[k]]
  {
    seq(|keys|, k requires 0 <= k < |keys| => Topic(keys[k], counts[keys[k]]))
  }

  /** One topic per distinct tag of `tags`, carrying its number of occurrences. */
  function TopicsOf(tags: seq<string>): (topics: seq<Topic>)
    ensures Distinct(topics)
    ensures forall i, j :: 0 <= i < j < |topics| ==> topics[i].tag != topics[j].tag
    ensures forall k :: 0 <= k < |topics| ==>
              topics[k].tag in tags && topics[k].count == multiset(tags)[topics[k].tag]
  {
    Entries(Tally(tags), FirstOccurrences(tags))
  }

  /** Every tag seen has its topic. */
  lemma TopicOfEveryTag(tags: seq<string>, t: string)
    requires t in tags
    ensures Topic(t, multiset(tags)[t]) in TopicsOf(tags)
  {
    var keys := FirstOccurrences(tags);
    var k :| 0 <= k < |keys| && keys[k] == t;
    assert TopicsOf(tags)[k] == Topic(t, multiset(tags)[t]);
  }

  /** Lines 178-182: the topics sorted by decreasing count, ties in key order (the
      sort is stable), and the first five of them. */
  function Trending(contents: seq<string>): (topics: seq<Topic>)
  {
    Take(SortDesc(TopicsOf(AllTags(contents)), TopicCount), 5)
  }

  /** At most five topics, by non-increasing count (line 181-182). */
  lemma TrendingIsTopFive(contents: seq<string>)
    ensures var r := Trending(contents);
            |r| == Min(5, |TopicsOf(AllTags(contents))|) &&
            forall i, j :: 0 <= i < j < |r| ==> r[i].count >= r[j].count
  {
    var sorted := SortDesc(TopicsOf(AllTags(contents)), TopicCount);
    var r := Trending(contents);
    forall i, j | 0 <= i < j < |r| ensures r[i].count >= r[j].count {
      assert r[i] == sorted[i] && r[j] == sorted[j];
      assert TopicCount(sorted[i]) >= TopicCount(sorted[j]);
    }
  }

  /** Every topic is a hashtag found in the contents, and its count is the number of
      its matches over all the contents, repeats within one post included. */
  lemma TrendingCounts(contents: seq<string>)
    ensures var r := Trending(contents);
            var tags := AllTags(contents);
            forall k :: 0 <= k < |r| ==>
              IsTag(r[k].tag) && r[k].tag in tags && r[k].count == multiset(tags)[r[k].tag]
  {
    var tags := AllTags(contents);
    var topics := TopicsOf(tags);
    var sorted := SortDesc(topics, TopicCount);
    var r := Trending(contents);
    forall k | 0 <= k < |r|
      ensures IsTag(r[k].tag) && r[k].tag in tags && r[k].count == multiset(tags)[r[k].tag]
    {
      assert r[k] == sorted[k];
      assert sorted[k] in multiset(topics);
    }
  }

  /** No tag is listed twice. */
  lemma TrendingDistinct(contents: seq<string>)
    ensures var r := Trending(contents);
            forall i, j :: 0 <= i < j < |r| ==> r[i].tag != r[j].tag
  {
    var tags := AllTags(contents);
    var topics := TopicsOf(tags);
    var sorted := SortDesc(topics, TopicCount);
    var r := Trending(contents);
    PermutationKeepsDistinct(topics, sorted);
    forall i, j | 0 <= i < j < |r| ensures r[i].tag != r[j].tag {
      assert r[i] == sorted[i] && r[j] == sorted[j];
      assert sorted[i] in multiset(topics) && sorted[j] in multiset(topics);
    }
  }

  /** A tag that is not listed occurs no more often than any tag listed. */
  lemma TrendingLeavesOutLess(contents: seq<string>)
    ensures var r := Trending(contents);
            var tags := AllTags(contents);
            forall t, i :: t in tags && (forall k :: 0 <= k < |r| ==> r[k].tag != t) && 0 <= i < |r| ==>
                             multiset(tags)[t] <= r[i].count
  {
    var tags := AllTags(contents);
    var r := Trending(contents);
    forall t, i | t in tags && (forall k :: 0 <= k < |r| ==> r[k].tag != t) && 0 <= i < |r|
      ensures multiset(tags)[t] <= r[i].count
    {
      var x := Topic(t, multiset(tags)[t]);
      TopicOfEveryTag(tags, t);
      forall k | 0 <= k < |r| ensures r[k] != x {
        assert r[k].tag != t;
      }
      LeftOutTopic(TopicsOf(tags), x, i);
    }
  }

  lemma LeftOutTopic(topics: seq<Topic>, x: Topic, i: nat)
    requires x in topics && x !in Take(SortDesc(topics, TopicCount), 5)
    requires i < |Take(SortDesc(topics, TopicCount), 5)|
    ensures x.count <= Take(SortDesc(topics, TopicCount), 5)[i].count
  {
    TopOfSorted(topics, TopicCount, 5);
    assert TopicCount(x) <= TopicCount(Take(SortDesc(topics, TopicCount), 5)[i]);
  }

  /** Tags of equal count keep the order of their first occurrence. */
  lemma TrendingTiesInFirstOccurrenceOrder(contents: seq<string>, c: nat)
    ensures var topics := TopicsOf(AllTags(contents));
            WithKey(SortDesc(topics, TopicCount), TopicCount, c) == WithKey(topics, TopicCount, c)
  {
    SortStable(TopicsOf(AllTags(contents)), TopicCount, c);
  }

  /** The contents of the hundred newest posts, newest first (lines 154-158). */
  function RecentContents(posts: seq<Post>): (contents: seq<string>)
    ensures |contents| == Min(100, |posts|)
  {
    var recent := Recent(posts, 100);
    seq(|recent|, k requires 0 <= k < |recent| => recent[k].content)
  }

  /** Lines 150-185 as one function of the posts table: no topics when the query fails. */
  function TrendingTopicsOf(posts: seq<Post>, failing: set<Call>): (topics: seq<Topic>)
    ensures SelectRecentContents in failing ==> topics == []
  {
    if SelectRecentContents in failing then [] else Trending(RecentContents(posts))
  }

  /** Only the hundred newest posts are scanned: once there are a hundred posts, a
      post older than all of them does not change the topics. */
  lemma OlderPostIgnored(posts: seq<Post>, p: Post, failing: set<Call>)
    requires |posts| >= 100
    requires forall k :: 0 <= k < |posts| ==> p.createdAt < posts[k].createdAt
    ensures TrendingTopicsOf(posts + [p], failing) == TrendingTopicsOf(posts, failing)
  {
    forall k | 0 <= k < |posts| ensures PostCreatedAt(p) < PostCreatedAt(posts[k]) {
    }
    SortDescAppendSmallest(posts, p, PostCreatedAt);
    var sorted := SortDesc(posts, PostCreatedAt);
    assert Take(sorted + [p], 100) == Take(sorted, 100);
    assert Recent(posts + [p], 100) == Recent(posts, 100);
  }

  /** Lines 165-184: counts the matches of each content in a dictionary filled inside
      two nested loops, then sorts its entries and keeps five. */
  method TrendingTopics(contents: seq<string>) returns (topics: seq<Topic>)
    ensures topics == Trending(contents)
  {
    var counts: map<string, nat> := map[];
    var keys: seq<string> := [];
    var i := 0;
    while i < |contents|
      invariant 0 <= i <= |contents|
      invariant Counted(counts, keys, AllTags(contents[..i]))
    {
      counts, keys := CountMatches(counts, keys, AllTags(contents[..i]), Hashtags(contents[i]));
      AllTagsStep(contents, i);
      i := i + 1;
    }
    assert contents[..i] == contents;
    topics := Take(SortDesc(Entries(counts, keys), TopicCount), 5);
  }

  /** `counts` and `keys` are the dictionary and its key order after counting `tags`. */
  ghost predicate Counted(counts: map<string, nat>, keys: seq<string>, tags: seq<string>)
  {
    counts == Tally(tags) && keys == FirstOccurrences(tags)
  }

  /** Lines 171-175: counts each match of one content into the dictionary, adding a
      key when a tag is seen for the first time. */
  method CountMatches(counts: map<string, nat>, keys: seq<string>, ghost seen: seq<string>, matches: seq<string>)
    returns (counts': map<string, nat>, keys': seq<string>)
    requires Counted(counts, keys, seen)
    ensures Counted(counts', keys', seen + matches)
  {
    counts', keys' := counts, keys;
    var j := 0;
    assert seen + matches[..j] == seen;
    while j < |matches|
      invariant 0 <= j <= |matches|
      invariant Counted(counts', keys', seen + matches[..j])
    {
      counts', keys' := CountTag(counts', keys', seen, matches, j);
      j := j + 1;
    }
    assert matches[..j] == matches;
  }

  /** Lines 173-174: `hashtags[tag] = (hashtags[tag] || 0) + 1` for the `j`-th match, a
      key being added the first time its tag is seen. */
  method CountTag(counts: map<string, nat>, keys: seq<string>, ghost seen: seq<string>, matches: seq<string>,
                  j: nat)
    returns (counts': map<string, nat>, keys': seq<string>)
    requires j < |matches|
    requires Counted(counts, keys, seen + matches[..j])
    ensures Counted(counts', keys', seen + matches[..j + 1])
  {
    var tag := matches[j];
    TallyStep(seen + matches[..j], tag);
    NextPrefix(seen, matches, j);
    keys' := if tag in counts then keys else keys + [tag];
    counts' := counts[tag := (if tag in counts then counts[tag] else 0) + 1];
  }

  /** Counting one more tag. */
  lemma TallyStep(seen: seq<string>, tag: string)
    ensures Tally(seen + [tag]) == Tally(seen)[tag := (if tag in Tally(seen) then Tally(seen)[tag] else 0) + 1]
    ensures FirstOccurrences(seen + [tag]) ==
            if tag in Tally(seen) then FirstOccurrences(seen) else FirstOccurrences(seen) + [tag]
  {
    assert (seen + [tag])[..|seen|] == seen;
  }

  lemma NextPrefix(before: seq<string>, matches: seq<string>, j: nat)
    requires j < |matches|
    ensures before + matches[..j] + [matches[j]] == before + matches[..j + 1]
  {
    assert matches[..j + 1] == matches[..j] + [matches[j]];
  }

  /** Scanning one more content. */
  lemma AllTagsStep(contents: seq<string>, i: nat)
    requires i < |contents|
    ensures AllTags(contents[..i + 1]) == AllTags(contents[..i]) + Hashtags(contents[i])
  {
    assert contents[..i + 1][..i] == contents[..i];
  }

  /** Lines 150-185. The topics of the hundred newest posts; none when the query fails. */
  method GetTrendingTopics(db: Database, failing: set<Call>) returns (topics: seq<Topic>)
    ensures topics == TrendingTopicsOf(db.posts, failing)
  {
    if SelectRecentContents in failing {
      return [];
    }
    topics := TrendingTopics(RecentContents(db.posts));
  }
}
