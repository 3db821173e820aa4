/** The `GET /api/posts` handler: the same ten newest posts as the feed action,
    formatted with the expiry of their image and whether the current user likes them. */
module PostsRoute {
  import opened Basics
  import opened Seqs
  import opened Store
  import opened PostActions

  /** One element of the JSON body. */
  datatype ApiPost = ApiPost(id: PostId, content: string, imageUrl: Option<string>, imageExpiresAt: Option<int>,
                             createdAt: int, user: Author, likesCount: nat, commentsCount: nat,
                             likedByUser: bool)

  /** `NextResponse.json(formattedPosts)` or `NextResponse.json({ error }, { status: 500 })`. */
  datatype Response = Json(posts: seq<ApiPost>) | ServerError(status: int, message: string)

  /** `likes.some((like) => like.user_id === u)`. */
  function AnyBy(likes: seq<Like>, u: UserId): (b: bool)
    ensures b <==> exists k :: 0 <= k < |likes| && likes[k].userId == u
  {
    if likes == [] then false
    else likes[0].userId == u || AnyBy(likes[1..], u)
  }

  /** Line 42: with a truthy user id, whether one of the post's likes is by that user;
      `false` otherwise. */
  function LikedBy(viewer: Option<UserId>, postLikes: seq<Like>): bool
  {
    if Truthy(viewer) then AnyBy(postLikes, viewer.value) else false
  }

  /** Lines 28-43: one post as the route formats it. */
  function Format(profiles: seq<Profile>, likes: seq<Like>, comments: seq<Comment>, viewer: Option<UserId>,
                  p: Post): ApiPost
    requires HasProfile(profiles, p.userId)
  {
    var postLikes := Filter(likes, OnPost(p.id));
    ApiPost(p.id, p.content, p.imageUrl, p.imageExpiresAt, p.createdAt,
            AuthorOf(ProfileOf(profiles, p.userId).value),
            |postLikes|, |Filter(comments, CommentOn(p.id))|, LikedBy(viewer, postLikes))
  }

  /** Lines 4-46. `fetchError` is the message of a failed query and `viewer` the
      session's user id, if any. */
  function GET(posts: seq<Post>, profiles: seq<Profile>, likes: seq<Like>, comments: seq<Comment>,
               fetchError: Option<string>, viewer: Option<UserId>): (r: Response)
    requires AuthorsHaveProfiles(posts, profiles)
    ensures fetchError.Some? ==> r == ServerError(500, fetchError.value)
    ensures fetchError.None? ==> r.Json? && |r.posts| == Min(10, |posts|)
  {
    if fetchError.Some? then ServerError(500, fetchError.value)
    else
      var recent := Recent(posts, 10);
      Json(seq(|recent|, k requires 0 <= k < |recent| => Format(profiles, likes, comments, viewer, recent[k])))
  }

  /** Entry `k` of the body is the `k`-th newest post, formatted. */
  lemma BodyFromRecent(posts: seq<Post>, profiles: seq<Profile>, likes: seq<Like>, comments: seq<Comment>,
                       viewer: Option<UserId>)
    requires AuthorsHaveProfiles(posts, profiles)
    ensures var r := GET(posts, profiles, likes, comments, None, viewer).posts;
            var recent := Recent(posts, 10);
            |r| == |recent| &&
            forall k :: 0 <= k < |r| ==> r[k] == Format(profiles, likes, comments, viewer, recent[k])
  {
  }

  /** Without a truthy session user id no post is reported as liked. */
  lemma NoViewerLikesNothing(posts: seq<Post>, profiles: seq<Profile>, likes: seq<Like>, comments: seq<Comment>,
                             viewer: Option<UserId>)
    requires AuthorsHaveProfiles(posts, profiles)
    requires !Truthy(viewer)
    ensures var r := GET(posts, profiles, likes, comments, None, viewer).posts;
            forall k :: 0 <= k < |r| ==> !r[k].likedByUser
  {
    BodyFromRecent(posts, profiles, likes, comments, viewer);
  }

  /** For a signed-in user, a post is reported as liked exactly when the likes table
      holds that user's like of it. */
  lemma LikedIffLikeExists(posts: seq<Post>, profiles: seq<Profile>, likes: seq<Like>, comments: seq<Comment>,
                           u: UserId)
    requires AuthorsHaveProfiles(posts, profiles)
    requires u != ""
    ensures var r := GET(posts, profiles, likes, comments, None, Some(u)).posts;
            forall k :: 0 <= k < |r| ==> (r[k].likedByUser <==> Like(r[k].id, u) in likes)
  {
    var r := GET(posts, profiles, likes, comments, None, Some(u)).posts;
    var recent := Recent(posts, 10);
    BodyFromRecent(posts, profiles, likes, comments, Some(u));
    forall k | 0 <= k < |r| ensures r[k].likedByUser <==> Like(r[k].id, u) in likes {
      var id := recent[k].id;
      var postLikes := Filter(likes, OnPost(id));
      assert r[k].likedByUser == AnyBy(postLikes, u);
      if Like(id, u) in likes {
        assert Like(id, u) in postLikes;
        var j :| 0 <= j < |postLikes| && postLikes[j] == Like(id, u);
        assert postLikes[j].userId == u;
      }
      if AnyBy(postLikes, u) {
        var j :| 0 <= j < |postLikes| && postLikes[j].userId == u;
        assert postLikes[j] in postLikes && OnPost(id)(postLikes[j]);
        assert postLikes[j] == Like(id, u);
      }
    }
  }

  /** The body lists the ten newest posts, newest first, each with its own fields, the
      expiry of its image, the number of its likes and comments, and its author's
      `full_name` as name when that is non-empty and the username otherwise. */
  lemma BodyFormatsNewest(posts: seq<Post>, profiles: seq<Profile>, likes: seq<Like>, comments: seq<Comment>,
                          viewer: Option<UserId>)
    requires AuthorsHaveProfiles(posts, profiles)
    ensures var r := GET(posts, profiles, likes, comments, None, viewer).posts;
            var recent := Recent(posts, 10);
            (forall i, j :: 0 <= i < j < |r| ==> r[i].createdAt >= r[j].createdAt) &&
            forall k :: 0 <= k < |r| ==>
              var p := recent[k];
              var a := ProfileOf(profiles, p.userId).value;
              p in posts && a in profiles && a.id == p.userId &&
              r[k].id == p.id && r[k].content == p.content && r[k].imageUrl == p.imageUrl &&
              r[k].imageExpiresAt == p.imageExpiresAt && r[k].createdAt == p.createdAt &&
              r[k].user.name == (if Truthy(a.fullName) then a.fullName.value else a.username) &&
              r[k].likesCount == |Filter(likes, OnPost(p.id))| &&
              r[k].commentsCount == |Filter(comments, CommentOn(p.id))|
  {
    BodyFromRecent(posts, profiles, likes, comments, viewer);
  }
}
