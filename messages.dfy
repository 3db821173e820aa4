/** The messaging server actions: listing a user's conversations, creating a
    conversation idempotently, listing a conversation's messages (which marks the
    other party's messages read), and sending a message. Every store query is a
    filter over the `Database` tables; the caller is the session's user id, if any. */
module MessageActions {
  import opened Basics
  import opened Text
  import opened Seqs
  import opened Store

  /** The store calls of these actions, named so that a caller can say which of
      them fail for reasons outside the model (network, permissions). */
  datatype Call =
    | SelectParticipations
    | SelectOtherParticipants
    | SelectLatestMessages
    | SelectUnreadCounts
    | SelectSharedParticipations
    | InsertConversation
    | InsertParticipants
    | SelectMembership
    | SelectMessages
    | MarkMessagesRead
    | InsertMessage

  const NotAuthenticated := "Not authenticated"
  const FetchConversationsFailed := "Failed to fetch conversations"
  const CreateConversationFailed := "Failed to create conversation"
  const NotAuthorizedToRead := "Not authorized to access this conversation"
  const FetchMessagesFailed := "Failed to fetch messages"
  const MessageEmpty := "Message cannot be empty"
  const NotAuthorizedToSend := "Not authorized to send messages in this conversation"
  const SendFailed := "Failed to send message"

  // ---------------------------------------------------------------- row filters

  function InConversation(c: ConversationId): Message -> bool
  {
    (m: Message) => m.conversationId == c
  }

  function InConversations(ids: seq<ConversationId>): Message -> bool
  {
    (m: Message) => m.conversationId in ids
  }

  /** `.eq("conversation_id", c).eq("read", false).neq("user_id", u)`. */
  function UnreadFor(c: ConversationId, u: UserId): Message -> bool
  {
    (m: Message) => m.conversationId == c && !m.read && m.userId != u
  }

  function CreatedAt(m: Message): int
  {
    m.createdAt
  }

  /** Ascending `created_at` is descending by this key. */
  function Earliness(m: Message): int
  {
    -m.createdAt
  }

  /** `.select("conversation_id").eq("user_id", u)`: the ids of `u`'s conversations, in row order. */
  function ConversationIdsOf(ps: seq<Participant>, u: UserId): (ids: seq<ConversationId>)
    ensures forall c :: c in ids <==> Participant(c, u) in ps
  {
    if ps == [] then []
    else
      assert ps == [ps[0]] + ps[1..];
      (if ps[0].userId == u then [ps[0].conversationId] else []) + ConversationIdsOf(ps[1..], u)
  }

  lemma {:induction false} NoRowsNoIds(ps: seq<Participant>, u: UserId)
    requires forall k :: 0 <= k < |ps| ==> ps[k].userId != u
    ensures ConversationIdsOf(ps, u) == []
  {
    if ps != [] {
      NoRowsNoIds(ps[1..], u);
    }
  }

  // --------------------------------------------------------- getConversations

  /** The `profiles:user_id (id, username, full_name, avatar_url)` embed. */
  datatype OtherUser = OtherUser(id: UserId, username: string, fullName: Option<string>,
                                 avatarUrl: Option<string>)

  datatype LastMessage = LastMessage(content: string, createdAt: int)

  /** One entry of the conversation list (lines 92-102). */
  datatype Summary = Summary(id: ConversationId, otherUser: Option<OtherUser>,
                             lastMessage: Option<LastMessage>, unreadCount: nat)

  /** One row of the grouped unread query: a conversation and its number of rows. */
  datatype UnreadGroup = UnreadGroup(conversationId: ConversationId, count: nat)

  /** Lines 44 and 94: the other participant's profile columns, when the profile exists. */
  function Embed(profiles: seq<Profile>, id: UserId): (r: Option<OtherUser>)
    ensures r.Some? <==> HasProfile(profiles, id)
    ensures r.Some? ==> r.value.id == id
  {
    match ProfileOf(profiles, id)
    case None => None
    case Some(p) => Some(OtherUser(p.id, p.username, p.fullName, p.avatarUrl))
  }

  /** Lines 90 and 101: `unreadCounts.find(...)`, then its count, or 0 when no group matches. */
  function CountOf(groups: seq<UnreadGroup>, c: ConversationId): nat
  {
    if groups == [] then 0
    else if groups[0].conversationId == c then groups[0].count
    else CountOf(groups[1..], c)
  }

  /** Counts one more row of conversation `c`: its group is incremented, or a group is added. */
  function Bump(groups: seq<UnreadGroup>, c: ConversationId): (r: seq<UnreadGroup>)
    ensures forall d :: CountOf(r, d) == CountOf(groups, d) + (if d == c then 1 else 0)
  {
    if groups == [] then [UnreadGroup(c, 1)]
    else if groups[0].conversationId == c then [UnreadGroup(c, groups[0].count + 1)] + groups[1..]
    else
      assert ([groups[0]] + Bump(groups[1..], c))[1..] == Bump(groups[1..], c);
      [groups[0]] + Bump(groups[1..], c)
  }

  /** Line 77, read as intended: one group per conversation among `rows`, carrying the
      number of rows of that conversation. */
  function Group(rows: seq<Message>): (r: seq<UnreadGroup>)
    ensures forall c :: CountOf(r, c) == |Filter(rows, InConversation(c))|
  {
    if rows == [] then []
    else Bump(Group(rows[1..]), rows[0].conversationId)
  }

  /** `.in("conversation_id", ids).eq("read", false).neq("user_id", u)`. */
  function UnreadAmong(ids: seq<ConversationId>, u: UserId): Message -> bool
  {
    (m: Message) => m.conversationId in ids && !m.read && m.userId != u
  }

  /** Lines 71-77, 90 and 101: the unread count shown for conversation `c`. */
  function UnreadCount(ms: seq<Message>, ids: seq<ConversationId>, u: UserId, c: ConversationId): (n: nat)
    ensures c in ids ==> n == |Filter(ms, UnreadFor(c, u))|
  {
    var unread := Filter(ms, UnreadAmong(ids, u));
    if c in ids then
      FilterFilter(ms, UnreadAmong(ids, u), InConversation(c), UnreadFor(c, u));
      CountOf(Group(unread), c)
    else CountOf(Group(unread), c)
  }

  /** Lines 57-61: the messages of the caller's conversations, newest first. */
  function NewestFirst(ms: seq<Message>, ids: seq<ConversationId>): (r: seq<Message>)
    ensures SortedDesc(r, CreatedAt)
    ensures forall m :: m in r <==> m in ms && m.conversationId in ids
  {
    var r := SortDesc(Filter(ms, InConversations(ids)), CreatedAt);
    assert forall m :: m in r <==> m in multiset(r);
    r
  }

  /** Lines 89 and 95-100: the first message of `c` in a list sorted newest first. */
  function FirstOf(latest: seq<Message>, c: ConversationId): (r: Option<LastMessage>)
    requires SortedDesc(latest, CreatedAt)
    ensures r.Some? ==> exists m :: m in latest && m.conversationId == c &&
                                    r.value == LastMessage(m.content, m.createdAt)
    ensures r.Some? ==> forall m :: m in latest && m.conversationId == c ==> m.createdAt <= r.value.createdAt
    ensures r.None? <==> forall m :: m in latest ==> m.conversationId != c
  {
    var i := FirstIndex(latest, InConversation(c));
    FirstOfSortedIsMax(latest, CreatedAt, InConversation(c));
    if i < |latest| then
      assert latest[i] in latest;
      Some(LastMessage(latest[i].content, latest[i].createdAt))
    else None
  }

  /** The last message shown for conversation `c`: a message of `c` with the greatest
      `created_at`, and none exactly when `c` has no message. */
  function Latest(ms: seq<Message>, ids: seq<ConversationId>, c: ConversationId): (r: Option<LastMessage>)
    ensures c in ids && r.Some? ==> exists m :: m in ms && m.conversationId == c &&
                                              r.value == LastMessage(m.content, m.createdAt)
    ensures c in ids && r.Some? ==>
              forall m :: m in ms && m.conversationId == c ==> m.createdAt <= r.value.createdAt
    ensures c in ids ==> (r.None? <==> forall m :: m in ms ==> m.conversationId != c)
  {
    FirstOf(NewestFirst(ms, ids), c)
  }

  /** Lines 87-103: the entry built for one row of another participant. */
  function Summarize(profiles: seq<Profile>, ms: seq<Message>, ids: seq<ConversationId>, u: UserId,
                     p: Participant): Summary
  {
    Summary(p.conversationId, Embed(profiles, p.userId), Latest(ms, ids, p.conversationId),
            UnreadCount(ms, ids, u, p.conversationId))
  }

  function HasLastMessage(s: Summary): bool
  {
    s.lastMessage.Some?
  }

  /** Lines 46-47: `.in("conversation_id", ids).neq("user_id", u)`. */
  function OtherParticipant(ids: seq<ConversationId>, u: UserId): Participant -> bool
  {
    (p: Participant) => p.conversationId in ids && p.userId != u
  }

  /** Lines 87-103: the `map` over the other participants' rows. */
  function Entries(profiles: seq<Profile>, ms: seq<Message>, ids: seq<ConversationId>, u: UserId,
                   others: seq<Participant>): (r: seq<Summary>)
    ensures |r| == |others|
    ensures forall k :: 0 <= k < |r| ==> r[k] == Summarize(profiles, ms, ids, u, others[k])
  {
    seq(|others|, k requires 0 <= k < |others| => Summarize(profiles, ms, ids, u, others[k]))
  }

  /** Lines 40-47 and 87-104: one entry per row of another participant in the caller's
      conversations, in row order, dropping the conversations without a message. */
  function Assemble(ps: seq<Participant>, ms: seq<Message>, profiles: seq<Profile>, u: UserId,
                    ids: seq<ConversationId>): seq<Summary>
  {
    Filter(Entries(profiles, ms, ids, u, Filter(ps, OtherParticipant(ids, u))), HasLastMessage)
  }

  /** Lines 6-107: the caller's conversation list, or the error the caller is answered. */
  function Conversations(ps: seq<Participant>, ms: seq<Message>, profiles: seq<Profile>,
                         session: Option<UserId>, failing: set<Call>): (r: Result<seq<Summary>>)
    ensures session.None? ==> r == Err(NotAuthenticated)
    ensures r.Err? ==> r.error in {NotAuthenticated, FetchConversationsFailed}
  {
    if session.None? then Err(NotAuthenticated)
    else if SelectParticipations in failing then Err(FetchConversationsFailed)
    else
      var ids := ConversationIdsOf(ps, session.value);
      if |ids| == 0 then Ok([])
      else if SelectOtherParticipants in failing || SelectLatestMessages in failing ||
              SelectUnreadCounts in failing then Err(FetchConversationsFailed)
      else Ok(Assemble(ps, ms, profiles, session.value, ids))
  }

  /** How a server action ends: it answers, or it throws and its promise rejects. */
  datatype Reply<T> = Answered(result: Result<T>) | Thrown

  /** Lines 6-107 as written. Line 77 calls `.group("conversation_id")`, which the query
      builder does not have, so building the unread query throws a `TypeError` and the
      action, which has no `catch`, rejects. Only the paths that return before line 77
      answer, and they answer what `Conversations` does. */
  function ConversationsAsWritten(ps: seq<Participant>, ms: seq<Message>, profiles: seq<Profile>,
                                  session: Option<UserId>, failing: set<Call>): (r: Reply<seq<Summary>>)
    ensures r.Answered? ==> r.result == Conversations(ps, ms, profiles, session, failing)
    ensures r.Thrown? <==>
              session.Some? && SelectParticipations !in failing && ConversationIdsOf(ps, session.value) != [] &&
              SelectOtherParticipants !in failing && SelectLatestMessages !in failing
  {
    if session.None? then Answered(Err(NotAuthenticated))
    else if SelectParticipations in failing then Answered(Err(FetchConversationsFailed))
    else if |ConversationIdsOf(ps, session.value)| == 0 then Answered(Ok([]))
    else if SelectOtherParticipants in failing || SelectLatestMessages in failing then
      Answered(Err(FetchConversationsFailed))
    else Thrown
  }

  /** The discrepancy: a signed-in caller with a conversation, for whom no store call
      fails, gets no list from the code as written, while the intended reading answers one. */
  lemma GroupCallThrows(ps: seq<Participant>, ms: seq<Message>, profiles: seq<Profile>, u: UserId,
                        c: ConversationId)
    requires Participant(c, u) in ps
    ensures ConversationsAsWritten(ps, ms, profiles, Some(u), {}) == Thrown
    ensures Conversations(ps, ms, profiles, Some(u), {}).Ok?
  {
    assert c in ConversationIdsOf(ps, u);
  }

  /** A caller without any participation gets an empty list. */
  lemma NoParticipationsNoConversations(ps: seq<Participant>, ms: seq<Message>, profiles: seq<Profile>,
                                        u: UserId, failing: set<Call>)
    requires SelectParticipations !in failing
    requires forall c :: Participant(c, u) !in ps
    ensures Conversations(ps, ms, profiles, Some(u), failing) == Ok([])
  {
    assert forall k :: 0 <= k < |ps| ==> ps[k].userId != u by {
      forall k | 0 <= k < |ps| ensures ps[k].userId != u {
        assert Participant(ps[k].conversationId, ps[k].userId) in ps;
      }
    }
    NoRowsNoIds(ps, u);
  }

  /** Every entry kept comes from a row of another participant in one of `ids`, and has a message. */
  lemma AssembleOnlyOthers(ps: seq<Participant>, ms: seq<Message>, profiles: seq<Profile>, u: UserId,
                           ids: seq<ConversationId>, s: Summary) returns (p: Participant)
    requires s in Assemble(ps, ms, profiles, u, ids)
    ensures p in ps && p.conversationId in ids && p.userId != u
    ensures s == Summarize(profiles, ms, ids, u, p) && HasLastMessage(s)
  {
    var others := Filter(ps, OtherParticipant(ids, u));
    var all := Entries(profiles, ms, ids, u, others);
    assert s in all;
    var k :| 0 <= k < |all| && all[k] == s;
    p := others[k];
    assert p in others;
  }

  /** The entry of every row of another participant in one of `ids` is kept when it has a message. */
  lemma AssembleKeepsOthers(ps: seq<Participant>, ms: seq<Message>, profiles: seq<Profile>, u: UserId,
                            ids: seq<ConversationId>, p: Participant)
    requires p in ps && p.conversationId in ids && p.userId != u
    requires HasLastMessage(Summarize(profiles, ms, ids, u, p))
    ensures Summarize(profiles, ms, ids, u, p) in Assemble(ps, ms, profiles, u, ids)
  {
    var others := Filter(ps, OtherParticipant(ids, u));
    var all := Entries(profiles, ms, ids, u, others);
    assert p in others;
    var k :| 0 <= k < |others| && others[k] == p;
    assert all[k] in all;
  }

  /** When the caller has conversations and no query fails, the list is the assembled one. */
  lemma ListedIsAssembled(ps: seq<Participant>, ms: seq<Message>, profiles: seq<Profile>,
                          u: UserId, failing: set<Call>)
    requires Conversations(ps, ms, profiles, Some(u), failing).Ok?
    ensures var r := Conversations(ps, ms, profiles, Some(u), failing).value;
            r == Assemble(ps, ms, profiles, u, ConversationIdsOf(ps, u)) ||
            (r == [] && ConversationIdsOf(ps, u) == [])
  {
    var ids := ConversationIdsOf(ps, u);
    if |ids| == 0 {
      assert Conversations(ps, ms, profiles, Some(u), failing) == Ok([]);
    } else {
      assert Conversations(ps, ms, profiles, Some(u), failing) == Ok(Assemble(ps, ms, profiles, u, ids));
    }
  }

  /** Every entry is a conversation of the caller, listed for a row of another
      participant, whose profile it embeds. */
  lemma SummaryOfOtherParticipant(ps: seq<Participant>, ms: seq<Message>, profiles: seq<Profile>,
                                  u: UserId, failing: set<Call>, s: Summary) returns (p: Participant)
    requires Conversations(ps, ms, profiles, Some(u), failing).Ok?
    requires s in Conversations(ps, ms, profiles, Some(u), failing).value
    ensures Participant(s.id, u) in ps
    ensures p in ps && p.conversationId == s.id && p.userId != u
    ensures s.otherUser == Embed(profiles, p.userId)
  {
    ListedIsAssembled(ps, ms, profiles, u, failing);
    var ids := ConversationIdsOf(ps, u);
    p := AssembleOnlyOthers(ps, ms, profiles, u, ids, s);
  }

  /** Every entry's last message is one of that conversation's messages with the
      greatest `created_at`. */
  lemma SummaryLastMessageIsLatest(ps: seq<Participant>, ms: seq<Message>, profiles: seq<Profile>,
                                   u: UserId, failing: set<Call>, s: Summary)
    requires Conversations(ps, ms, profiles, Some(u), failing).Ok?
    requires s in Conversations(ps, ms, profiles, Some(u), failing).value
    ensures s.lastMessage.Some?
    ensures exists m :: m in ms && m.conversationId == s.id &&
                        s.lastMessage.value == LastMessage(m.content, m.createdAt)
    ensures forall m :: m in ms && m.conversationId == s.id ==> m.createdAt <= s.lastMessage.value.createdAt
  {
    ListedIsAssembled(ps, ms, profiles, u, failing);
    var ids := ConversationIdsOf(ps, u);
    var p := AssembleOnlyOthers(ps, ms, profiles, u, ids, s);
    assert s.lastMessage == Latest(ms, ids, p.conversationId);
  }

  /** Every entry's unread count is the number of unread messages of that conversation
      that the caller did not send. */
  lemma SummaryUnreadCount(ps: seq<Participant>, ms: seq<Message>, profiles: seq<Profile>,
                           u: UserId, failing: set<Call>, s: Summary)
    requires Conversations(ps, ms, profiles, Some(u), failing).Ok?
    requires s in Conversations(ps, ms, profiles, Some(u), failing).value
    ensures s.unreadCount == |Filter(ms, UnreadFor(s.id, u))|
  {
    ListedIsAssembled(ps, ms, profiles, u, failing);
    var ids := ConversationIdsOf(ps, u);
    var p := AssembleOnlyOthers(ps, ms, profiles, u, ids, s);
    assert s.unreadCount == UnreadCount(ms, ids, u, p.conversationId);
  }

  /** No conversation is lost: every other participant of a conversation of the caller
      that has a message has its entry. */
  lemma SummariesComplete(ps: seq<Participant>, ms: seq<Message>, profiles: seq<Profile>, u: UserId,
                          failing: set<Call>, p: Participant, m: Message)
    requires Conversations(ps, ms, profiles, Some(u), failing).Ok?
    requires p in ps && p.userId != u && Participant(p.conversationId, u) in ps
    requires m in ms && m.conversationId == p.conversationId
    ensures exists s :: s in Conversations(ps, ms, profiles, Some(u), failing).value &&
                        s.id == p.conversationId && s.otherUser == Embed(profiles, p.userId)
  {
    var ids := ConversationIdsOf(ps, u);
    ListedIsAssembled(ps, ms, profiles, u, failing);
    assert p.conversationId in ids;
    assert Latest(ms, ids, p.conversationId).Some?;
    AssembleKeepsOthers(ps, ms, profiles, u, ids, p);
  }

  // ------------------------------------------------------- createConversation

  /** Lines 136-157: among the rows of `other` whose conversation is one of `u`'s,
      the first one's conversation; none when `u` has no conversation at all. */
  function FirstShared(ps: seq<Participant>, u: UserId, other: UserId): (r: Option<ConversationId>)
    ensures r.Some? ==> Participant(r.value, u) in ps && Participant(r.value, other) in ps
    ensures r.None? ==> forall c :: !(Participant(c, u) in ps && Participant(c, other) in ps)
  {
    var ids := ConversationIdsOf(ps, u);
    if |ids| == 0 then None
    else
      var rows := Filter(ps, (p: Participant) => p.conversationId in ids && p.userId == other);
      if |rows| > 0 then
        assert rows[0] in rows;
        Some(rows[0].conversationId)
      else
        assert forall c :: Participant(c, u) in ps && Participant(c, other) in ps ==>
          Participant(c, other) in rows;
        None
  }

  /** Asked for a conversation with themselves, a caller who takes part in any
      conversation gets one of their own conversations back, whoever its other
      participant is, and nothing is written; a caller with none gets a failure after an orphan
      conversation row (the two identical rows break the composite key). */
  lemma SelfConversationIsAnyOwn(cs: seq<ConversationId>, ps: seq<Participant>, profiles: seq<Profile>,
                                 next: nat, u: UserId, failing: set<Call>)
    requires SelectParticipations !in failing && SelectSharedParticipations !in failing
    ensures var out := Create(cs, ps, profiles, next, Some(u), u, failing);
            (ConversationIdsOf(ps, u) != [] ==>
               out.result.Ok? && Participant(out.result.value, u) in ps &&
               out.conversations == cs && out.participants == ps) &&
            (ConversationIdsOf(ps, u) == [] ==> out.result.Err?)
  {
    var ids := ConversationIdsOf(ps, u);
    if ids != [] {
      assert Participant(ids[0], u) in ps;
    }
  }

  /** Whichever of the two users asks, the shared conversation found is the same one,
      because two users share at most one conversation. */
  lemma SharedIsSymmetric(ps: seq<Participant>, u: UserId, other: UserId)
    requires OnePerPair(ps)
    ensures FirstShared(ps, u, other) == FirstShared(ps, other, u)
  {
    var a, b := FirstShared(ps, u, other), FirstShared(ps, other, u);
    if u != other && a.Some? && b.Some? {
      assert Shares(ps, a.value, u, other) && Shares(ps, b.value, u, other);
    }
  }

  /** After a conversation `c`, new to the table, is given the two rows (c, u) and
      (c, other), both users find exactly `c` as their shared conversation. */
  lemma SharedAfterCreate(ps: seq<Participant>, c: ConversationId, u: UserId, other: UserId)
    requires u != other
    requires forall k :: 0 <= k < |ps| ==> ps[k].conversationId != c
    requires FirstShared(ps, u, other).None?
    ensures var ps' := ps + [Participant(c, u), Participant(c, other)];
            FirstShared(ps', u, other) == Some(c) && FirstShared(ps', other, u) == Some(c)
  {
    var ps' := ps + [Participant(c, u), Participant(c, other)];
    assert Participant(c, u) in ps' && Participant(c, other) in ps';
    forall v | Participant(v, u) in ps' && Participant(v, other) in ps' ensures v == c {
      assert !(Participant(v, u) in ps && Participant(v, other) in ps);
    }
  }

  /** After the two rows of a fresh conversation `c` are added, the only pair sharing
      `c` is the two new participants, who shared nothing before: whatever conversation
      `d` a pair shares together with `c` is `c` itself. */
  lemma FreshPairSharesOnlyNew(ps: seq<Participant>, c: ConversationId, u: UserId, other: UserId,
                               x: UserId, y: UserId, d: ConversationId)
    requires forall k :: 0 <= k < |ps| ==> ps[k].conversationId != c
    requires FirstShared(ps, u, other).None?
    requires var ps' := ps + [Participant(c, u), Participant(c, other)];
             x != y && Shares(ps', c, x, y) && Shares(ps', d, x, y)
    ensures d == c
  {
    var ps' := ps + [Participant(c, u), Participant(c, other)];
    assert Participant(c, x) !in ps && Participant(c, y) !in ps;
    assert (x == u && y == other) || (x == other && y == u);
    assert !(Participant(d, u) in ps && Participant(d, other) in ps);
  }

  /** Creating a conversation for two users who share none keeps "one conversation per pair". */
  lemma CreateKeepsOnePerPair(ps: seq<Participant>, c: ConversationId, u: UserId, other: UserId)
    requires OnePerPair(ps)
    requires forall k :: 0 <= k < |ps| ==> ps[k].conversationId != c
    requires FirstShared(ps, u, other).None?
    ensures OnePerPair(ps + [Participant(c, u), Participant(c, other)])
  {
    var ps' := ps + [Participant(c, u), Participant(c, other)];
    forall c1, c2, x, y | x != y && Shares(ps', c1, x, y) && Shares(ps', c2, x, y)
      ensures c1 == c2
    {
      if c1 == c {
        FreshPairSharesOnlyNew(ps, c, u, other, x, y, c2);
      } else if c2 == c {
        FreshPairSharesOnlyNew(ps, c, u, other, x, y, c1);
      } else {
        assert Shares(ps, c1, x, y) && Shares(ps, c2, x, y);
      }
    }
  }

  /** Appending the rows of a fresh conversation keeps the composite key, the foreign
      keys, and every message's sender a participant. */
  lemma PairRowsKeepReferences(ps: seq<Participant>, conversations: seq<ConversationId>,
                               profiles: seq<Profile>, ms: seq<Message>, nextMessageId: nat,
                               c: ConversationId, u: UserId, other: UserId)
    requires Distinct(ps) && ParticipantsReferenced(ps, conversations, profiles)
    requires MessagesFromParticipants(ms, ps, nextMessageId)
    requires c in conversations && u != other
    requires HasProfile(profiles, u) && HasProfile(profiles, other)
    requires forall k :: 0 <= k < |ps| ==> ps[k].conversationId != c
    ensures var ps' := ps + [Participant(c, u), Participant(c, other)];
            Distinct(ps') && ParticipantsReferenced(ps', conversations, profiles) &&
            MessagesFromParticipants(ms, ps', nextMessageId)
  {
    var ps' := ps + [Participant(c, u), Participant(c, other)];
    assert Participant(c, u) !in ps && Participant(c, other) !in ps;
    forall k | 0 <= k < |ms|
      ensures Participant(ms[k].conversationId, ms[k].userId) in ps'
    {
      assert Participant(ms[k].conversationId, ms[k].userId) in ps;
    }
  }

  /** `supabase.from("conversations").insert({})`: a conversation row with a fresh id. */
  method InsertConversationRow(db: Database) returns (c: ConversationId)
    requires db.Valid()
    modifies db`conversations, db`nextConversationId
    ensures db.Valid()
    ensures c == old(db.nextConversationId) && db.nextConversationId == c + 1
    ensures db.conversations == old(db.conversations) + [c]
    ensures forall k :: 0 <= k < |db.participants| ==> db.participants[k].conversationId != c
  {
    c := db.nextConversationId;
    assert forall k :: 0 <= k < |db.participants| ==> db.participants[k].conversationId != c by {
      forall k | 0 <= k < |db.participants| ensures db.participants[k].conversationId != c {
        assert db.participants[k].conversationId in db.conversations;
      }
    }
    db.conversations := db.conversations + [c];
    db.nextConversationId := c + 1;
  }

  /** The two-row participant insert of lines 171-174, in the case the store accepts it. */
  method InsertParticipantRows(db: Database, c: ConversationId, u: UserId, other: UserId)
    requires db.Valid()
    requires c in db.conversations && u != other
    requires HasProfile(db.profiles, u) && HasProfile(db.profiles, other)
    requires forall k :: 0 <= k < |db.participants| ==> db.participants[k].conversationId != c
    requires FirstShared(db.participants, u, other).None?
    modifies db`participants
    ensures db.Valid()
    ensures db.participants == old(db.participants) + [Participant(c, u), Participant(c, other)]
    ensures FirstShared(db.participants, u, other) == Some(c)
    ensures FirstShared(db.participants, other, u) == Some(c)
  {
    var ps := db.participants;
    var ps' := ps + [Participant(c, u), Participant(c, other)];
    SharedAfterCreate(ps, c, u, other);
    CreateKeepsOnePerPair(ps, c, u, other);
    PairRowsKeepReferences(ps, db.conversations, db.profiles, db.messages, db.nextMessageId, c, u, other);
    ReplaceParticipants(db, ps');
  }

  /** Stores a participants table that keeps the composite key, the foreign keys, one
      conversation per pair and every message's sender a participant. */
  method ReplaceParticipants(db: Database, ps: seq<Participant>)
    requires db.Valid()
    requires Distinct(ps) && ParticipantsReferenced(ps, db.conversations, db.profiles) && OnePerPair(ps)
    requires MessagesFromParticipants(db.messages, ps, db.nextMessageId)
    modifies db`participants
    ensures db.Valid() && db.participants == ps
  {
    db.participants := ps;
  }

  /** What `createConversation` answers and leaves in the two tables it writes, and
      the conversation id counter. */
  datatype Creation = Creation(result: Result<ConversationId>, conversations: seq<ConversationId>,
                               participants: seq<Participant>, nextConversationId: nat)

  /** Lines 109-188. Answers the conversation the caller already shares with `other`,
      writing nothing; otherwise inserts conversation `next` and then its two
      participant rows. The participant insert is rejected by the store when the two
      rows coincide (caller and other are the same user, composite key) or when a user
      has no profile (foreign key); the conversation row inserted before stays. */
  function Create(cs: seq<ConversationId>, ps: seq<Participant>, profiles: seq<Profile>, next: nat,
                  session: Option<UserId>, other: UserId, failing: set<Call>): (out: Creation)
    ensures session.None? ==> out == Creation(Err(NotAuthenticated), cs, ps, next)
    ensures out.result.Err? ==>
              out.result.error in {NotAuthenticated, CreateConversationFailed} && out.participants == ps &&
              ((out.conversations == cs && out.nextConversationId == next) ||
               (out.conversations == cs + [next] && out.nextConversationId == next + 1))
    ensures out.result.Ok? ==> session.Some? && Shares(out.participants, out.result.value, session.value, other)
    ensures session.Some? && SelectParticipations !in failing && SelectSharedParticipations !in failing &&
            FirstShared(ps, session.value, other).Some? ==>
              out == Creation(Ok(FirstShared(ps, session.value, other).value), cs, ps, next)
    ensures session.Some? && FirstShared(ps, session.value, other).None? ==>
              (out.result.Ok? <==>
                 SelectParticipations !in failing &&
                 (ConversationIdsOf(ps, session.value) != [] ==> SelectSharedParticipations !in failing) &&
                 InsertConversation !in failing && InsertParticipants !in failing &&
                 session.value != other && HasProfile(profiles, session.value) && HasProfile(profiles, other))
    ensures session.Some? && FirstShared(ps, session.value, other).None? && out.result.Ok? ==>
              out == Creation(Ok(next), cs + [next],
                              ps + [Participant(next, session.value), Participant(next, other)], next + 1)
  {
    if session.None? then Creation(Err(NotAuthenticated), cs, ps, next)
    else
      var u := session.value;
      if SelectParticipations in failing then Creation(Err(CreateConversationFailed), cs, ps, next)
      else if |ConversationIdsOf(ps, u)| > 0 && SelectSharedParticipations in failing then
        Creation(Err(CreateConversationFailed), cs, ps, next)
      else if FirstShared(ps, u, other).Some? then Creation(Ok(FirstShared(ps, u, other).value), cs, ps, next)
      else if InsertConversation in failing then Creation(Err(CreateConversationFailed), cs, ps, next)
      else if InsertParticipants in failing || u == other || !HasProfile(profiles, u) || !HasProfile(profiles, other)
      then Creation(Err(CreateConversationFailed), cs + [next], ps, next + 1)
      else
        assert Participant(next, u) in ps + [Participant(next, u), Participant(next, other)];
        assert Participant(next, other) in ps + [Participant(next, u), Participant(next, other)];
        Creation(Ok(next), cs + [next], ps + [Participant(next, u), Participant(next, other)], next + 1)
  }

  /** A conversation the action creates is then the one conversation the two users
      share, found by either of them, and the pair invariant still holds. */
  lemma CreatedIsOnlyShared(cs: seq<ConversationId>, ps: seq<Participant>, profiles: seq<Profile>, next: nat,
                            u: UserId, other: UserId, failing: set<Call>)
    requires OnePerPair(ps)
    requires forall k :: 0 <= k < |ps| ==> ps[k].conversationId != next
    requires FirstShared(ps, u, other).None?
    requires Create(cs, ps, profiles, next, Some(u), other, failing).result.Ok?
    ensures var out := Create(cs, ps, profiles, next, Some(u), other, failing);
            out.result == Ok(next) &&
            FirstShared(out.participants, u, other) == Some(next) &&
            FirstShared(out.participants, other, u) == Some(next) &&
            OnePerPair(out.participants)
  {
    SharedAfterCreate(ps, next, u, other);
    CreateKeepsOnePerPair(ps, next, u, other);
  }

  /** Lines 124-157 make the action idempotent: once it has answered a conversation,
      asking again (with the lookups succeeding) answers the same conversation and
      writes nothing. */
  lemma CreateAgainFindsSame(cs: seq<ConversationId>, ps: seq<Participant>, profiles: seq<Profile>, next: nat,
                             u: UserId, other: UserId, failing: set<Call>, failing': set<Call>)
    requires forall k :: 0 <= k < |ps| ==> ps[k].conversationId != next
    requires Create(cs, ps, profiles, next, Some(u), other, failing).result.Ok?
    requires SelectParticipations !in failing' && SelectSharedParticipations !in failing'
    ensures var out := Create(cs, ps, profiles, next, Some(u), other, failing);
            Create(out.conversations, out.participants, profiles, out.nextConversationId, Some(u), other, failing') ==
              Creation(out.result, out.conversations, out.participants, out.nextConversationId)
  {
    var out := Create(cs, ps, profiles, next, Some(u), other, failing);
    if FirstShared(ps, u, other).None? {
      SharedAfterCreate(ps, next, u, other);
    }
  }

  /** Lines 109-188 on the database: the answer and the written tables are those of
      `Create`, and an answered conversation is the one the two users now share. */
  method CreateConversation(db: Database, session: Option<UserId>, other: UserId, failing: set<Call>)
    returns (r: Result<ConversationId>)
    requires db.Valid()
    modifies db`conversations, db`participants, db`nextConversationId
    ensures db.Valid()
    ensures var out := Create(old(db.conversations), old(db.participants), db.profiles,
                              old(db.nextConversationId), session, other, failing);
            r == out.result && db.conversations == out.conversations &&
            db.participants == out.participants && db.nextConversationId == out.nextConversationId
    ensures r.Ok? ==> FirstShared(db.participants, session.value, other) == Some(r.value)
  {
    if session.None? {
      return Err(NotAuthenticated);
    }
    var u := session.value;
    if SelectParticipations in failing {
      return Err(CreateConversationFailed);
    }
    var ids := ConversationIdsOf(db.participants, u);
    if |ids| > 0 {
      if SelectSharedParticipations in failing {
        return Err(CreateConversationFailed);
      }
      var shared := FirstShared(db.participants, u, other);
      if shared.Some? {
        return Ok(shared.value);
      }
    }
    if InsertConversation in failing {
      return Err(CreateConversationFailed);
    }
    r := CreateFresh(db, u, other, failing);
  }

  /** Lines 161-174: the conversation insert, then the two participant rows, for a
      pair that shares no conversation yet. */
  method CreateFresh(db: Database, u: UserId, other: UserId, failing: set<Call>) returns (r: Result<ConversationId>)
    requires db.Valid() && FirstShared(db.participants, u, other).None? && InsertConversation !in failing
    modifies db`conversations, db`participants, db`nextConversationId
    ensures db.Valid()
    ensures var c := old(db.nextConversationId);
            db.conversations == old(db.conversations) + [c] && db.nextConversationId == c + 1 &&
            if InsertParticipants in failing || u == other || !HasProfile(db.profiles, u) ||
               !HasProfile(db.profiles, other)
            then r == Err(CreateConversationFailed) && db.participants == old(db.participants)
            else r == Ok(c) && db.participants == old(db.participants) + [Participant(c, u), Participant(c, other)] &&
                 FirstShared(db.participants, u, other) == Some(c)
  {
    var c := InsertConversationRow(db);
    if InsertParticipants in failing || u == other ||
       !HasProfile(db.profiles, u) || !HasProfile(db.profiles, other) {
      return Err(CreateConversationFailed);
    }
    InsertParticipantRows(db, c, u, other);
    return Ok(c);
  }

  // ------------------------------------------------------ membership check

  /** `.select().eq("conversation_id", c).eq("user_id", u).single()`: answers only
      when exactly one row matches; no row or several rows is an error. */
  predicate SingleParticipation(ps: seq<Participant>, c: ConversationId, u: UserId)
  {
    multiset(ps)[Participant(c, u)] == 1
  }

  /** Under the composite key, `.single()` answers exactly when the row exists. */
  lemma {:induction false} SingleIsMembership(ps: seq<Participant>, c: ConversationId, u: UserId)
    requires Distinct(ps)
    ensures SingleParticipation(ps, c, u) <==> Participant(c, u) in ps
  {
    if ps != [] {
      assert ps == [ps[0]] + ps[1..];
      SingleIsMembership(ps[1..], c, u);
      if ps[0] == Participant(c, u) {
        assert Participant(c, u) !in ps[1..];
      }
    }
  }

  // ------------------------------------------------------------ getMessages

  /** A fetched message as returned to the page: every column, plus `sender_is_self`. */
  datatype MessageView = MessageView(message: Message, senderIsSelf: bool)

  /** Lines 217-221: the conversation's messages, oldest first. */
  function ConversationMessages(ms: seq<Message>, c: ConversationId): (r: seq<Message>)
    ensures forall i, j :: 0 <= i < j < |r| ==> r[i].createdAt <= r[j].createdAt
    ensures forall m :: multiset(r)[m] == if m.conversationId == c then multiset(ms)[m] else 0
    ensures forall m :: m in r <==> m in ms && m.conversationId == c
  {
    var r := SortDesc(Filter(ms, InConversation(c)), Earliness);
    assert forall i, j :: 0 <= i < j < |r| ==> Earliness(r[i]) >= Earliness(r[j]);
    r
  }

  /** Lines 239-242: each message with `sender_is_self` set when the caller sent it. */
  function Views(ms: seq<Message>, u: UserId): (r: seq<MessageView>)
    ensures |r| == |ms|
    ensures forall k :: 0 <= k < |r| ==> r[k].message == ms[k] && (r[k].senderIsSelf <==> ms[k].userId == u)
  {
    seq(|ms|, k requires 0 <= k < |ms| => MessageView(ms[k], ms[k].userId == u))
  }

  /** Lines 231-236: the bulk update setting `read` on the unread messages of `c`
      that `u` did not send; every other row keeps its value. */
  function MarkRead(ms: seq<Message>, c: ConversationId, u: UserId): (r: seq<Message>)
    ensures |r| == |ms|
    ensures forall k :: 0 <= k < |ms| && ms[k].conversationId == c && ms[k].userId != u ==> r[k].read
    ensures forall k :: 0 <= k < |ms| ==>
              r[k] == ms[k] ||
              (r[k] == ms[k].(read := true) && !ms[k].read && ms[k].conversationId == c && ms[k].userId != u)
  {
    seq(|ms|, k requires 0 <= k < |ms| =>
      if ms[k].conversationId == c && !ms[k].read && ms[k].userId != u then ms[k].(read := true) else ms[k])
  }

  /** Marking twice is marking once, and nothing unread is left for `u` in `c`. */
  lemma MarkReadIdempotent(ms: seq<Message>, c: ConversationId, u: UserId)
    ensures MarkRead(MarkRead(ms, c, u), c, u) == MarkRead(ms, c, u)
    ensures Filter(MarkRead(ms, c, u), UnreadFor(c, u)) == []
  {
    var r := MarkRead(ms, c, u);
    FilterNone(r, UnreadFor(c, u));
  }

  /** Marking messages read changes no sender, conversation or id. */
  lemma MarkReadKeepsSenders(ms: seq<Message>, ps: seq<Participant>, nextId: nat, c: ConversationId, u: UserId)
    requires MessagesFromParticipants(ms, ps, nextId)
    ensures MessagesFromParticipants(MarkRead(ms, c, u), ps, nextId)
  {
    var r := MarkRead(ms, c, u);
    forall k | 0 <= k < |r|
      ensures Participant(r[k].conversationId, r[k].userId) in ps && r[k].id < nextId
    {
      assert Participant(ms[k].conversationId, ms[k].userId) in ps;
    }
  }

  /** Lines 190-244, what the caller is answered: the caller must be the single
      participant row (c, caller); the listing is read before the update, so the
      returned `read` flags are the old ones. */
  function Fetch(ps: seq<Participant>, ms: seq<Message>, session: Option<UserId>, c: ConversationId,
                 failing: set<Call>): (r: Result<seq<MessageView>>)
    ensures session.None? ==> r == Err(NotAuthenticated)
    ensures r.Err? ==> r.error in {NotAuthenticated, NotAuthorizedToRead, FetchMessagesFailed}
    ensures r.Ok? ==> Participant(c, session.value) in ps &&
                      r.value == Views(ConversationMessages(ms, c), session.value)
  {
    if session.None? then Err(NotAuthenticated)
    else if SelectMembership in failing || !SingleParticipation(ps, c, session.value) then Err(NotAuthorizedToRead)
    else if SelectMessages in failing then Err(FetchMessagesFailed)
    else Ok(Views(ConversationMessages(ms, c), session.value))
  }

  /** A non-participant is refused, and a participant is answered unless a store call fails. */
  lemma FetchAuthorisation(ps: seq<Participant>, ms: seq<Message>, u: UserId, c: ConversationId,
                           failing: set<Call>)
    requires Distinct(ps)
    ensures Participant(c, u) !in ps ==> Fetch(ps, ms, Some(u), c, failing) == Err(NotAuthorizedToRead)
    ensures Participant(c, u) in ps ==>
              (Fetch(ps, ms, Some(u), c, failing).Ok? <==> SelectMembership !in failing && SelectMessages !in failing)
  {
    SingleIsMembership(ps, c, u);
  }

  /** Lines 190-244. Answers as `Fetch` does and, when the listing succeeded, marks the
      other party's messages read; a failure of that update is not reported. */
  method GetMessages(db: Database, session: Option<UserId>, c: ConversationId, failing: set<Call>)
    returns (r: Result<seq<MessageView>>)
    requires db.Valid()
    modifies db`messages
    ensures db.Valid()
    ensures r == Fetch(old(db.participants), old(db.messages), session, c, failing)
    ensures db.messages == if r.Ok? && MarkMessagesRead !in failing then MarkRead(old(db.messages), c, session.value)
                           else old(db.messages)
  {
    r := Fetch(db.participants, db.messages, session, c, failing);
    if r.Ok? && MarkMessagesRead !in failing {
      var u := session.value;
      MarkReadKeepsSenders(db.messages, db.participants, db.nextMessageId, c, u);
      ReplaceMessages(db, MarkRead(db.messages, c, u));
    }
  }

  /** The bulk update of lines 231-236 once computed: the messages table is replaced by
      one whose senders are still participants. */
  method ReplaceMessages(db: Database, ms: seq<Message>)
    requires db.Valid() && MessagesFromParticipants(ms, db.participants, db.nextMessageId)
    modifies db`messages
    ensures db.Valid() && db.messages == ms
  {
    db.messages := ms;
  }

  // ------------------------------------------------------------ sendMessage

  /** Lines 246-300, what the caller is answered: blank content is refused before
      membership is checked; the message to store is trimmed, sent by the caller,
      unread, and takes the next id. */
  function Send(ps: seq<Participant>, nextId: nat, session: Option<UserId>, c: ConversationId,
                content: string, now: int, failing: set<Call>): (r: Result<Message>)
    ensures session.None? ==> r == Err(NotAuthenticated)
    ensures session.Some? && IsBlank(content) ==> r == Err(MessageEmpty)
    ensures r.Err? ==> r.error in {NotAuthenticated, MessageEmpty, NotAuthorizedToSend, SendFailed}
    ensures r.Ok? ==> r.value == Message(nextId, c, session.value, Trim(content), false, now) &&
                      Participant(c, session.value) in ps
  {
    if session.None? then Err(NotAuthenticated)
    else if IsBlank(content) then Err(MessageEmpty)
    else if SelectMembership in failing || !SingleParticipation(ps, c, session.value) then Err(NotAuthorizedToSend)
    else if InsertMessage in failing then Err(SendFailed)
    else Ok(Message(nextId, c, session.value, Trim(content), false, now))
  }

  /** A stored message is never blank and is already trimmed. */
  lemma SentContentIsTrimmed(ps: seq<Participant>, nextId: nat, session: Option<UserId>, c: ConversationId,
                             content: string, now: int, failing: set<Call>)
    requires Send(ps, nextId, session, c, content, now, failing).Ok?
    ensures var m := Send(ps, nextId, session, c, content, now, failing).value;
            m.content != [] && Trim(m.content) == m.content && !IsBlank(m.content)
  {
    BlankIffTrimmedEmpty(content);
    TrimIdempotent(content);
    BlankIffTrimmedEmpty(Trim(content));
  }

  /** For non-blank content, a non-participant is refused, and a participant's message
      is stored unless the insert fails. */
  lemma SendAuthorisation(ps: seq<Participant>, nextId: nat, u: UserId, c: ConversationId,
                          content: string, now: int, failing: set<Call>)
    requires Distinct(ps) && !IsBlank(content)
    ensures Participant(c, u) !in ps ==> Send(ps, nextId, Some(u), c, content, now, failing) == Err(NotAuthorizedToSend)
    ensures Participant(c, u) in ps ==>
              (Send(ps, nextId, Some(u), c, content, now, failing).Ok? <==>
                 SelectMembership !in failing && InsertMessage !in failing)
  {
    SingleIsMembership(ps, c, u);
  }

  /** Appending a message sent by a participant under the next id keeps every sender
      a participant and every id issued. */
  lemma AppendKeepsSenders(ms: seq<Message>, ps: seq<Participant>, nextId: nat, m: Message)
    requires MessagesFromParticipants(ms, ps, nextId)
    requires Participant(m.conversationId, m.userId) in ps && m.id == nextId
    ensures MessagesFromParticipants(ms + [m], ps, nextId + 1)
  {
    var ms' := ms + [m];
    forall k | 0 <= k < |ms'|
      ensures Participant(ms'[k].conversationId, ms'[k].userId) in ps && ms'[k].id < nextId + 1
    {
      if k < |ms| {
        assert ms'[k] == ms[k];
      }
    }
  }

  /** Lines 246-300. Answers as `Send` does and appends the message when it is accepted. */
  method SendMessage(db: Database, session: Option<UserId>, c: ConversationId, content: string,
                     now: int, failing: set<Call>)
    returns (r: Result<Message>)
    requires db.Valid()
    modifies db`messages, db`nextMessageId
    ensures db.Valid()
    ensures r == Send(old(db.participants), old(db.nextMessageId), session, c, content, now, failing)
    ensures r.Err? ==> db.messages == old(db.messages) && db.nextMessageId == old(db.nextMessageId)
    ensures r.Ok? ==> db.messages == old(db.messages) + [r.value] && db.nextMessageId == old(db.nextMessageId) + 1
  {
    r := Send(db.participants, db.nextMessageId, session, c, content, now, failing);
    match r
    case Err(_) =>
    case Ok(m) =>
      AppendMessage(db, m);
  }

  /** The insert of lines 279-288 once the store accepts it: the message takes the next
      id and is appended. */
  method AppendMessage(db: Database, m: Message)
    requires db.Valid()
    requires Participant(m.conversationId, m.userId) in db.participants && m.id == db.nextMessageId
    modifies db`messages, db`nextMessageId
    ensures db.Valid()
    ensures db.messages == old(db.messages) + [m] && db.nextMessageId == old(db.nextMessageId) + 1
  {
    AppendKeepsSenders(db.messages, db.participants, db.nextMessageId, m);
    db.messages := db.messages + [m];
    db.nextMessageId := db.nextMessageId + 1;
  }
}
