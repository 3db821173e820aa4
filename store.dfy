/** The hosted relational store as an in-memory object: each table is a sequence
    of rows in insertion order, and generated keys come from counters. `Valid()`
    holds the keys and foreign keys the schema enforces and the invariants the
    server actions keep. */
module Store {
  import opened Basics
  import opened Seqs

  type PostId = nat
  type ConversationId = nat

  /** Row of `profiles`; `id` is the auth user id. */
  datatype Profile = Profile(id: UserId, username: string, fullName: Option<string>,
                             bio: Option<string>, avatarUrl: Option<string>, updatedAt: int)

  /** Row of `posts`. */
  datatype Post = Post(id: PostId, userId: UserId, content: string, imageUrl: Option<string>,
                       imageExpiresAt: Option<int>, createdAt: int)

  /** Row of `likes`, unique on (post_id, user_id). */
  datatype Like = Like(postId: PostId, userId: UserId)

  /** Row of `comments`. */
  datatype Comment = Comment(postId: PostId, userId: UserId, content: string)

  /** Row of `conversation_participants`, unique on (conversation_id, user_id). */
  datatype Participant = Participant(conversationId: ConversationId, userId: UserId)

  /** Row of `messages`; `userId` is the sender. */
  datatype Message = Message(id: nat, conversationId: ConversationId, userId: UserId,
                             content: string, read: bool, createdAt: int)

  /** The `profiles:user_id (...)` embed: the profile whose id is `id`, if any. */
  function ProfileOf(profiles: seq<Profile>, id: UserId): (r: Option<Profile>)
    ensures r.Some? <==> exists k :: 0 <= k < |profiles| && profiles[k].id == id
    ensures r.Some? ==> r.value in profiles && r.value.id == id
  {
    var i := FirstIndex(profiles, (p: Profile) => p.id == id);
    if i < |profiles| then Some(profiles[i]) else None
  }

  predicate HasProfile(profiles: seq<Profile>, id: UserId)
  {
    exists k :: 0 <= k < |profiles| && profiles[k].id == id
  }

  predicate HasPost(posts: seq<Post>, id: PostId)
  {
    exists k :: 0 <= k < |posts| && posts[k].id == id
  }

  predicate UniqueProfileIds(profiles: seq<Profile>)
  {
    forall i, j :: 0 <= i < j < |profiles| ==> profiles[i].id != profiles[j].id
  }

  predicate UniquePostIds(posts: seq<Post>)
  {
    forall i, j :: 0 <= i < j < |posts| ==> posts[i].id != posts[j].id
  }

  /** No row occurs twice: the table's composite key. */
  predicate Distinct<T(==)>(rows: seq<T>)
  {
    forall i, j :: 0 <= i < j < |rows| ==> rows[i] != rows[j]
  }

  /** Dropping rows keeps them distinct. */
  lemma FilterKeepsDistinct<T(!new)>(rows: seq<T>, p: T -> bool)
    requires Distinct(rows)
    ensures Distinct(Filter(rows, p))
  {
    var r := Filter(rows, p);
    forall i, j | 0 <= i < j < |r| ensures r[i] != r[j] {
      if r[i] == r[j] {
        assert multiset(r)[r[i]] >= 2 by { CountsTwice(r, i, j); }
        CountsOnce(rows, r[i]);
      }
    }
  }

  /** Reordering rows keeps them distinct. */
  lemma PermutationKeepsDistinct<T>(s: seq<T>, t: seq<T>)
    requires Distinct(s) && multiset(s) == multiset(t)
    ensures Distinct(t)
  {
    forall i, j | 0 <= i < j < |t| ensures t[i] != t[j] {
      if t[i] == t[j] {
        CountsTwice(t, i, j);
        CountsOnce(s, t[i]);
      }
    }
  }

  /** A row occurring at two positions is counted twice. */
  lemma CountsTwice<T>(s: seq<T>, i: nat, j: nat)
    requires i < j < |s| && s[i] == s[j]
    ensures multiset(s)[s[i]] >= 2
  {
    assert s == s[..j] + [s[j]] + s[j + 1..];
    assert s[i] in s[..j];
    assert multiset(s) == multiset(s[..j]) + multiset{s[j]} + multiset(s[j + 1..]);
  }

  /** A row of a table without duplicates is counted once. */
  lemma {:induction false} CountsOnce<T>(s: seq<T>, x: T)
    requires Distinct(s)
    ensures multiset(s)[x] <= 1
  {
    if s != [] {
      assert s == [s[0]] + s[1..];
      CountsOnce(s[1..], x);
      if s[0] == x {
        assert x !in s[1..];
      }
    }
  }

  /** Foreign key posts.user_id -> profiles.id (the feed embeds `profiles:user_id`). */
  predicate AuthorsHaveProfiles(posts: seq<Post>, profiles: seq<Profile>)
  {
    forall k :: 0 <= k < |posts| ==> HasProfile(profiles, posts[k].userId)
  }

  /** Foreign keys likes.post_id and comments.post_id -> posts.id. */
  predicate ReactionsReferencePosts(likes: seq<Like>, comments: seq<Comment>, posts: seq<Post>)
  {
    (forall k :: 0 <= k < |likes| ==> HasPost(posts, likes[k].postId)) &&
    (forall k :: 0 <= k < |comments| ==> HasPost(posts, comments[k].postId))
  }

  /** Every participant row names an existing conversation and a user with a profile. */
  predicate ParticipantsReferenced(ps: seq<Participant>, conversations: seq<ConversationId>,
                                   profiles: seq<Profile>)
  {
    forall k :: 0 <= k < |ps| ==>
      ps[k].conversationId in conversations && HasProfile(profiles, ps[k].userId)
  }

  /** Both `x` and `y` take part in conversation `c`. */
  predicate Shares(ps: seq<Participant>, c: ConversationId, x: UserId, y: UserId)
  {
    Participant(c, x) in ps && Participant(c, y) in ps
  }

  /** Two distinct users share at most one conversation. */
  ghost predicate OnePerPair(ps: seq<Participant>)
  {
    forall c1, c2, x, y {:trigger Shares(ps, c1, x, y), Shares(ps, c2, x, y)} ::
      x != y && Shares(ps, c1, x, y) && Shares(ps, c2, x, y) ==> c1 == c2
  }

  /** Every message was sent by a participant of its conversation and has an issued id. */
  predicate MessagesFromParticipants(ms: seq<Message>, ps: seq<Participant>, nextMessageId: nat)
  {
    forall k :: 0 <= k < |ms| ==>
      Participant(ms[k].conversationId, ms[k].userId) in ps && ms[k].id < nextMessageId
  }

  predicate ProfilesOk(profiles: seq<Profile>)
  {
    UniqueProfileIds(profiles)
  }

  /** Post ids are unique and issued, and every author has a profile. */
  predicate PostsOk(posts: seq<Post>, nextPostId: nat, profiles: seq<Profile>)
  {
    UniquePostIds(posts) && (forall k :: 0 <= k < |posts| ==> posts[k].id < nextPostId) &&
    AuthorsHaveProfiles(posts, profiles)
  }

  /** One like per (post, user), and likes and comments reference posts. */
  predicate ReactionsOk(likes: seq<Like>, comments: seq<Comment>, posts: seq<Post>)
  {
    Distinct(likes) && ReactionsReferencePosts(likes, comments, posts)
  }

  /** Conversation ids are issued; participant rows are unique, reference a
      conversation and a profile, and two users share at most one conversation. */
  ghost predicate ConversationsOk(conversations: seq<ConversationId>, nextConversationId: nat,
                                  participants: seq<Participant>, profiles: seq<Profile>)
  {
    (forall k :: 0 <= k < |conversations| ==> conversations[k] < nextConversationId) &&
    Distinct(participants) && ParticipantsReferenced(participants, conversations, profiles) &&
    OnePerPair(participants)
  }

  predicate MessagesOk(messages: seq<Message>, participants: seq<Participant>, nextMessageId: nat)
  {
    MessagesFromParticipants(messages, participants, nextMessageId)
  }

  class Database {
    var profiles: seq<Profile>
    var posts: seq<Post>
    var likes: seq<Like>
    var comments: seq<Comment>
    var conversations: seq<ConversationId>
    var participants: seq<Participant>
    var messages: seq<Message>
    var nextPostId: nat
    var nextConversationId: nat
    var nextMessageId: nat

    /** The store's keys, foreign keys and the invariants the actions keep, stated
        over the table values so that an action writing some tables keeps the
        groups over the other tables by their unchanged values. */
    ghost predicate Valid()
      reads this
    {
      ProfilesOk(profiles) && PostsOk(posts, nextPostId, profiles) &&
      ReactionsOk(likes, comments, posts) &&
      ConversationsOk(conversations, nextConversationId, participants, profiles) &&
      MessagesOk(messages, participants, nextMessageId)
    }

    /** An empty store with the given profiles (created by the auth provider, not by this core). */
    constructor (initialProfiles: seq<Profile>)
      requires UniqueProfileIds(initialProfiles)
      ensures Valid()
      ensures profiles == initialProfiles
      ensures posts == [] && likes == [] && comments == []
      ensures conversations == [] && participants == [] && messages == []
    {
      profiles := initialProfiles;
      posts, likes, comments := [], [], [];
      conversations, participants, messages := [], [], [];
      nextPostId, nextConversationId, nextMessageId := 0, 0, 0;
    }
  }
}
