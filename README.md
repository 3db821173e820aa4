# Social feed server logic in Dafny

This project models the server side of a small social network built on a hosted
Postgres store. The modelled parts are:

- **The feed** (`lib/actions/post-actions.ts`): the newest-posts projection, creating a
  post, the like toggle, commenting, and the trending hashtags of the hundred newest
  posts.
- **Direct messages** (`lib/actions/message-actions.ts`): the conversation list, creating
  or re-using the conversation shared with another user, reading a conversation (which
  marks it read), and sending a message.
- **Profiles** (`lib/actions/profile-actions.ts`): the profile update with its username
  checks, and the storage path of an uploaded avatar.
- **The image sweep** (`lib/actions/image-actions.ts`): it clears the expired images of
  posts, one post at a time.
- **The route guard** (`middleware.ts`): it sends a visitor without a session from
  `/profile` and `/messages` (and anything below them) to `/login`.
- **`GET /api/posts`** (`app/api/posts/route.ts`): the feed as JSON, with each post's image
  expiry and whether the viewer likes it.

The store is a class, `Store.Database`. It holds every table as a sequence of rows and
keeps the id counters. `Valid()` states the keys and foreign keys the actions depend on:

- unique profile and post ids;
- one like per (post, user);
- unique (conversation, user) participant rows, and at most one conversation per pair of users;
- every post author and participant has a profile;
- every like and comment references a post;
- every message sender is a participant of its conversation.

Every action that writes follows the same pattern. A pure function over the table
values decides the answer and the new tables (`NewPost`, `Toggle`, `NewComment`,
`Update`, `Send`, `Fetch`, `Sweep`, `Create`). A method on the database then performs
the writes, and its `ensures` ties the new state to that function applied to the old
state. Most actions write once; `createConversation` writes twice (the conversation,
then its two participant rows), and `CreateConversation` does so through `CreateFresh`.
The properties are lemmas about the functions.

Two quirks of the source are kept as written. A caller who asks for a conversation
with themselves gets back one of their own conversations with someone else, because
the lookup of lines 124-157 then only asks for a conversation of theirs
(`SelfConversationIsAnyOwn`). A failed participant insert leaves the conversation row
inserted just before it (`Create`).

A store call can fail for reasons the tables do not determine, such as the network or
permissions. Each module names such calls in a `Call` datatype, and each action takes
a `failing: set<Call>` parameter saying which of them fail. Failures that the data does
determine are computed from the tables:

- a unique violation on likes;
- a missing foreign-key target;
- `.single()` not finding exactly one row;
- `.maybeSingle()` finding more than one row.

The session, the clock and the contents of a form are parameters.

Some modules are shared helpers:

- `Basics` holds options, results and JavaScript truthiness.
- `Text` holds `trim`, `split`/`join` and decimal rendering.
- `Seqs` holds filter, take and a stable descending sort, which models `.order()` and `Array.prototype.sort`.
- `HashtagScan` holds the `/#[\w\u0590-\u05ff]+/g` matcher.

## Model

| member | source | states |
|---|---|---|
| PostActions.Recent | lib/actions/post-actions.ts:17-18 | `.order("created_at", desc).limit(n)`: min(n, \|posts\|) rows of the table, each at most as often as in the table, by non-increasing creation time |
| PostActions.RecentAreNewest | lib/actions/post-actions.ts:17-18 | no post left out of the n newest is newer than any post kept |
| PostActions.GetPosts | lib/actions/post-actions.ts:6-40 | a failed query yields the empty list; never more than ten entries |
| PostActions.FeedIsNewestFirst | lib/actions/post-actions.ts:6-40 | the feed has min(10, \|posts\|) entries, ordered newest first |
| PostActions.FeedKeys | lib/actions/post-actions.ts:17-39 | entry k of a successful feed carries the id and creation time of the k-th newest post |
| PostActions.FeedLeavesOutOlder | lib/actions/post-actions.ts:17-18 | no post missing from the feed is newer than a post shown |
| PostActions.OlderByIds | lib/actions/post-actions.ts:17-18 | a post whose id no feed entry carries is no newer than any entry, when the entries match the newest posts |
| PostActions.FeedPresentsPosts | lib/actions/post-actions.ts:25-39 | every entry presents a post of the table: its fields, its author's profile with `full_name` as name when truthy and otherwise the username, its like and comment counts, and `liked_by_user: false` |
| PostActions.NewPost | lib/actions/post-actions.ts:42-78 | blank or missing content is refused before the session is checked; then a missing session; then a failed insert; an accepted post keeps the untrimmed content, the caller as author and the next id |
| PostActions.NewPostKeepsPosts | lib/actions/post-actions.ts:63-67 | inserting the accepted post keeps post ids unique and issued and every author with a profile |
| PostActions.MorePostsKeepReactions | lib/actions/post-actions.ts:63-67 | adding a post keeps every like and comment referencing a post |
| PostActions.AppendPost | lib/actions/post-actions.ts:63-67 | the insert appends the row, advances the id counter by one and keeps the store valid |
| PostActions.CreatePost | lib/actions/post-actions.ts:42-78 | answers as `NewPost` does, appends the accepted row, advances the id counter only then, and keeps the store valid |
| PostActions.Toggle | lib/actions/post-actions.ts:80-112 | without a session the toggle asks the caller to log in; a failure leaves the likes unchanged; an existing like is deleted (the unique violation path), a new one is added when the post exists |
| PostActions.ToggleFlips | lib/actions/post-actions.ts:92-101 | when no store call fails, the toggle succeeds and the caller likes the post afterwards exactly when they did not before |
| PostActions.ToggleTwiceRestores | lib/actions/post-actions.ts:92-101 | toggling twice gives back the same likes, each once |
| PostActions.UnlikeThenLike | lib/actions/post-actions.ts:97-101 | deleting a like that occurs once and inserting it again restores the multiset of likes |
| PostActions.LikeThenUnlike | lib/actions/post-actions.ts:92-101 | inserting a new like and deleting it restores the multiset of likes |
| PostActions.ToggleKeepsReactions | lib/actions/post-actions.ts:80-112 | the toggle keeps one like per (post, user) and every like on an existing post |
| PostActions.LikePost | lib/actions/post-actions.ts:80-112 | answers as `Toggle` does, stores its likes table and keeps the store valid |
| PostActions.NewComment | lib/actions/post-actions.ts:114-147 | blank content is refused before the session is checked; an accepted comment is the untrimmed content by the caller on an existing post |
| PostActions.NewCommentKeepsReactions | lib/actions/post-actions.ts:132-136 | an accepted comment keeps every comment referencing a post |
| PostActions.AppendComment | lib/actions/post-actions.ts:132-136 | the insert appends the comment on an existing post and keeps the store valid |
| PostActions.CommentOnPost | lib/actions/post-actions.ts:114-147 | answers as `NewComment` does, appends the accepted row and keeps the store valid |
| PostActions.AllTags | lib/actions/post-actions.ts:167-176 | every collected match is a hashtag: `#` followed by one or more word or Hebrew characters |
| PostActions.Tally | lib/actions/post-actions.ts:167-176 | the `hashtags` object has a key exactly for each tag seen, whose value is its number of occurrences |
| PostActions.FirstOccurrences | lib/actions/post-actions.ts:179-180 | `Object.entries` lists each tag once, exactly the tags seen |
| PostActions.TopicsOf | lib/actions/post-actions.ts:179-180 | one topic per distinct tag, each a tag seen with its number of occurrences |
| PostActions.CountMatches | lib/actions/post-actions.ts:171-175 | the inner loop turns the dictionary of the tags seen so far into that of those tags followed by the content's matches |
| PostActions.CountTag | lib/actions/post-actions.ts:173-174 | one increment counts one more tag, adding its key on its first occurrence |
| PostActions.TopicOfEveryTag | lib/actions/post-actions.ts:179-180 | every tag seen has its topic with its count |
| PostActions.TrendingIsTopFive | lib/actions/post-actions.ts:181-182 | at most five topics, by non-increasing count, min(5, distinct tags) of them |
| PostActions.TrendingCounts | lib/actions/post-actions.ts:165-182 | every listed topic is a hashtag found in the contents, with its number of occurrences over all contents |
| PostActions.TrendingDistinct | lib/actions/post-actions.ts:179-182 | no tag is listed twice |
| PostActions.TrendingLeavesOutLess | lib/actions/post-actions.ts:181-182 | a tag found but not listed occurs no more often than any listed tag |
| PostActions.TrendingTiesInFirstOccurrenceOrder | lib/actions/post-actions.ts:179-181 | topics of equal count keep the order of their first occurrence (stable sort over insertion-ordered keys) |
| PostActions.RecentContents | lib/actions/post-actions.ts:154-158 | the contents of min(100, \|posts\|) newest posts |
| PostActions.TrendingTopicsOf | lib/actions/post-actions.ts:150-185 | a failed query yields no topics |
| PostActions.OlderPostIgnored | lib/actions/post-actions.ts:157-158 | with a hundred posts or more, adding a strictly older post changes no topic |
| PostActions.TrendingTopics | lib/actions/post-actions.ts:165-184 | the nested counting loops compute exactly the specified trending list |
| PostActions.GetTrendingTopics | lib/actions/post-actions.ts:150-185 | the action answers the trending topics of the hundred newest posts, none when the query fails |
| HashtagScan.RunEnd | lib/actions/post-actions.ts:166 | the end of the longest run of tag characters from a position |
| HashtagScan.TagAt | lib/actions/post-actions.ts:166 | the match starting at a `#` is a hashtag |
| HashtagScan.MatchStarts | lib/actions/post-actions.ts:166 | the global regex's match positions: increasing, each a `#` followed by a tag character |
| HashtagScan.MatchStartsComplete | lib/actions/post-actions.ts:166 | a `#` followed by a tag character and not inside an earlier match starts a match |
| HashtagScan.Hashtags | lib/actions/post-actions.ts:170 | `content.match(regex)`: every element is a hashtag occurring in the content |
| HashtagScan.AdjacentTags | lib/actions/post-actions.ts:166 | `#a#b` yields the two tags `#a`, `#b`, and `##a` the one tag `#a` (concrete matches) |
| HashtagScan.TagBoundary | lib/actions/post-actions.ts:166 | a match stops at the first character that is neither a word nor a Hebrew character |
| PostsRoute.AnyBy | app/api/posts/route.ts:42 | `likes.some(...)`: true exactly when one of the likes is by the user |
| PostsRoute.GET | app/api/posts/route.ts:4-46 | a query error is answered with status 500 and its message; otherwise a JSON list of min(10, \|posts\|) posts |
| PostsRoute.BodyFromRecent | app/api/posts/route.ts:28-43 | entry k of the body is the k-th newest post, formatted |
| PostsRoute.NoViewerLikesNothing | app/api/posts/route.ts:26-42 | without a truthy session user id no post is reported liked |
| PostsRoute.LikedIffLikeExists | app/api/posts/route.ts:42 | for a signed-in user, a post is reported liked exactly when that user's like of it exists |
| PostsRoute.BodyFormatsNewest | app/api/posts/route.ts:28-43 | newest first; each entry carries its post's fields and image expiry, the author's display name (full name when non-empty, else username) and the like and comment counts |
| Middleware.IsProtectedRoute | middleware.ts:41-44 | true exactly when the path is a protected route or lies below one after a `/` |
| Middleware.Decide | middleware.ts:46-50 | redirects to `/login` exactly when the route is protected and there is no session; otherwise passes through |
| Middleware.ProtectedPaths | middleware.ts:41-44 | `/profile`, `/messages` and paths below them are protected; `/profiles`, `/messagesX`, `/` and `/login` are not |
| Middleware.BelowProtectedIsProtected | middleware.ts:41-44 | every path below a protected route is protected |
| ProfileActions.UpdateRows | lib/actions/profile-actions.ts:50-58 | the update keeps every row's id and the table's length |
| ProfileActions.Update | lib/actions/profile-actions.ts:6-71 | no session, then a blank or missing username, are refused first; a failed check is a failed update; the error is one of the four messages of the source |
| ProfileActions.TakenIffOtherHasIt | lib/actions/profile-actions.ts:29-47 | the username is reported taken exactly when another user's profile holds it; otherwise only a failed row update can refuse |
| ProfileActions.DuplicateOthersFailCheck | lib/actions/profile-actions.ts:29-41 | two other profiles holding the username make `maybeSingle()` fail, answered as a failed update |
| ProfileActions.KeepingOwnUsername | lib/actions/profile-actions.ts:29-58 | keeping one's own username is accepted when no store call fails |
| ProfileActions.NoOtherHolds | lib/actions/profile-actions.ts:29-41 | when only the caller's row holds the username, the check finds no other profile |
| ProfileActions.UpdateTouchesOwnRowOnly | lib/actions/profile-actions.ts:50-58 | a successful update rewrites only the caller's row: the username as submitted, empty full name or bio stored as null, avatar kept, update time recorded |
| ProfileActions.SameIdsSameProfiles | lib/actions/profile-actions.ts:50-58 | rows keeping their ids keep unique ids and which users have a profile |
| ProfileActions.ReplaceProfiles | lib/actions/profile-actions.ts:50-58 | storing rows with the same ids keeps the store valid |
| ProfileActions.UpdateProfile | lib/actions/profile-actions.ts:6-71 | answers as `Update` does, stores its table only on success and keeps the store valid |
| ProfileActions.AvatarKeepsExtension | lib/actions/profile-actions.ts:98-99 | the stored name ends in the uploaded file's extension, or the whole name when it has no `.` |
| ProfileActions.AvatarInCallerFolder | lib/actions/profile-actions.ts:98-99 | the path is the caller's folder and a name made of the upload time, which reads back, and the extension |
| ImageActions.StoragePathOfUpload | lib/actions/image-actions.ts:36-38 | the storage path of a URL ending in `<folder>/<file>` is `<folder>/<file>` |
| ImageActions.StoragePathOfBareName | lib/actions/image-actions.ts:36-38 | a URL without `/` is its own storage path |
| ImageActions.ClearIds | lib/actions/image-actions.ts:48-54 | clearing image fields keeps every row's id, author and the table's length |
| ImageActions.RemovedPaths | lib/actions/image-actions.ts:34-45 | at most one storage removal per selected post |
| ImageActions.SweepEffect | lib/actions/image-actions.ts:14-62 | a post loses its image exactly when it expired strictly before now, has a non-empty URL and its update did not fail; every other post is unchanged |
| ImageActions.NothingExpiredChangesNothing | lib/actions/image-actions.ts:26-28 | with nothing expired the answer is "No expired images found" and nothing changes |
| ImageActions.SweepReportsSelected | lib/actions/image-actions.ts:66-70 | the reported count is the number of selected posts, whatever failed for them |
| ImageActions.SameKeysKeepPosts | lib/actions/image-actions.ts:48-54 | rows keeping ids and authors keep the store's post and reaction invariants |
| ImageActions.SweepStep | lib/actions/image-actions.ts:31-62 | one more iteration clears one more id (truthy URL, update not failing) and requests one more removal (truthy URL) |
| ImageActions.ClearMore | lib/actions/image-actions.ts:48-54 | clearing one more row after a set is clearing their union |
| ImageActions.ClearEach | lib/actions/image-actions.ts:31-62 | the per-post loop clears exactly the selected posts with a truthy URL whose update succeeded, and requests the removal of each truthy URL's path in order |
| ImageActions.CheckAndDeleteExpiredImages | lib/actions/image-actions.ts:6-76 | answer and table are those of `Sweep`: query failure, nothing to do, or the sweep; the store stays valid |
| MessageActions.ConversationIdsOf | lib/actions/message-actions.ts:21-28 | exactly the conversations the user participates in |
| MessageActions.NoRowsNoIds | lib/actions/message-actions.ts:33-35 | a user without participant rows has no conversation ids |
| MessageActions.Embed | lib/actions/message-actions.ts:40-47 | the other participant's profile is embedded exactly when it exists, for that user |
| MessageActions.Bump | lib/actions/message-actions.ts:71-77 | counting a row adds one to its conversation's group only |
| MessageActions.Group | lib/actions/message-actions.ts:71-77 | read as intended (see Findings): each conversation's group counts exactly its rows |
| MessageActions.UnreadCount | lib/actions/message-actions.ts:71-101 | the unread count of a listed conversation is its number of unread messages sent by someone else |
| MessageActions.NewestFirst | lib/actions/message-actions.ts:57-61 | the caller's conversations' messages, newest first |
| MessageActions.FirstOf | lib/actions/message-actions.ts:89-100 | `find` in a newest-first list gives a message of the conversation no older than any other, or none exactly when it has none |
| MessageActions.Latest | lib/actions/message-actions.ts:57-100 | the last message shown is a newest message of the conversation, none exactly when it has no message |
| MessageActions.Entries | lib/actions/message-actions.ts:87-103 | one summary per other-participant row, in order |
| MessageActions.Conversations | lib/actions/message-actions.ts:6-107 | no session is refused; any error is one of the two messages of the source |
| MessageActions.ConversationsAsWritten | lib/actions/message-actions.ts:6-107 | as written: the action throws exactly when it reaches the `.group` call of line 77; otherwise it answers what `Conversations` answers |
| MessageActions.GroupCallThrows | lib/actions/message-actions.ts:71-77 | a signed-in caller with a conversation and no failing call gets no list as written, while the intended reading answers one |
| MessageActions.NoParticipationsNoConversations | lib/actions/message-actions.ts:33-35 | a caller with no conversations gets an empty list |
| MessageActions.AssembleOnlyOthers | lib/actions/message-actions.ts:87-104 | every entry comes from another participant's row in one of the caller's conversations, and has a message |
| MessageActions.AssembleKeepsOthers | lib/actions/message-actions.ts:87-104 | every such row with a message gives an entry |
| MessageActions.ListedIsAssembled | lib/actions/message-actions.ts:6-107 | a successful list is the assembly over the caller's conversation ids |
| MessageActions.SummaryOfOtherParticipant | lib/actions/message-actions.ts:40-47 | each entry is a conversation of the caller, shown with another participant's profile |
| MessageActions.SummaryLastMessageIsLatest | lib/actions/message-actions.ts:89-100 | each entry's last message is a newest message of that conversation |
| MessageActions.SummaryUnreadCount | lib/actions/message-actions.ts:71-101 | each entry's unread count is the number of that conversation's unread messages from others |
| MessageActions.SummariesComplete | lib/actions/message-actions.ts:87-104 | every other participant of a caller's conversation that has a message is listed |
| MessageActions.FirstShared | lib/actions/message-actions.ts:124-157 | the conversation found is shared by both users; none is found exactly when they share none |
| MessageActions.SharedIsSymmetric | lib/actions/message-actions.ts:124-157 | with one conversation per pair, either user finds the same conversation |
| MessageActions.SharedAfterCreate | lib/actions/message-actions.ts:161-174 | after the new conversation's two rows, it is the only conversation the two users share |
| MessageActions.FreshPairSharesOnlyNew | lib/actions/message-actions.ts:161-174 | after the two rows are added, only that pair of users shares the new conversation |
| MessageActions.CreateKeepsOnePerPair | lib/actions/message-actions.ts:124-174 | creating only when none is shared keeps one conversation per pair |
| MessageActions.PairRowsKeepReferences | lib/actions/message-actions.ts:171-174 | the two new rows keep the composite key, the foreign keys and message senders' participation |
| MessageActions.InsertConversationRow | lib/actions/message-actions.ts:161 | a fresh conversation id, referenced by no participant row |
| MessageActions.ReplaceParticipants | lib/actions/message-actions.ts:171-174 | storing distinct, referenced participant rows with one conversation per pair and every sender a participant keeps the store valid |
| MessageActions.InsertParticipantRows | lib/actions/message-actions.ts:171-174 | the two rows are appended and the pair now shares exactly the new conversation |
| MessageActions.Create | lib/actions/message-actions.ts:109-188 | no session is refused; a shared conversation found by successful lookups is answered with nothing written; otherwise success holds exactly when no call fails, the users differ and both have profiles, and then conversation `next` and its two rows are appended; a failure writes no participant row and at most the orphan conversation row |
| MessageActions.CreatedIsOnlyShared | lib/actions/message-actions.ts:161-174 | a created conversation is the one both users then find, and the pair invariant still holds |
| MessageActions.CreateAgainFindsSame | lib/actions/message-actions.ts:124-157 | asking again after an answer (lookups succeeding) answers the same conversation and writes nothing |
| MessageActions.SelfConversationIsAnyOwn | lib/actions/message-actions.ts:124-157 | asked for a conversation with themselves, a caller with any conversation gets one of their own back with nothing written; a caller with none gets a failure |
| MessageActions.CreateFresh | lib/actions/message-actions.ts:161-174 | the conversation row is appended under the next id; the two rows follow exactly when the insert is accepted, and then the pair shares the new conversation |
| MessageActions.CreateConversation | lib/actions/message-actions.ts:109-188 | the answer and the conversations, participants and counter left behind are those of `Create`; an answered conversation is the one the two users now share; the store stays valid |
| MessageActions.SingleIsMembership | lib/actions/message-actions.ts:203-214 | under the composite key `.single()` answers exactly when the caller is a participant |
| MessageActions.ConversationMessages | lib/actions/message-actions.ts:217-221 | the conversation's messages, each as often as in the table, oldest first |
| MessageActions.Views | lib/actions/message-actions.ts:239-242 | each message with `sender_is_self` true exactly when the caller sent it |
| MessageActions.MarkRead | lib/actions/message-actions.ts:231-236 | marks read exactly the conversation's messages from others; nothing else changes |
| MessageActions.MarkReadIdempotent | lib/actions/message-actions.ts:231-236 | marking twice is marking once, and nothing unread from others is left |
| MessageActions.MarkReadKeepsSenders | lib/actions/message-actions.ts:231-236 | marking read keeps every sender a participant |
| MessageActions.ReplaceMessages | lib/actions/message-actions.ts:231-236 | storing the marked messages keeps the store valid |
| MessageActions.Fetch | lib/actions/message-actions.ts:190-244 | no session, then a non-participant, are refused; an answer lists the conversation's messages oldest first for a participant |
| MessageActions.FetchAuthorisation | lib/actions/message-actions.ts:203-214 | a non-participant is refused and a participant answered unless a store call fails |
| MessageActions.GetMessages | lib/actions/message-actions.ts:190-244 | answers as `Fetch` does and marks the conversation read when the listing succeeded |
| MessageActions.Send | lib/actions/message-actions.ts:246-300 | no session, then blank content (before authorisation), are refused; an accepted message is the trimmed content, unread, by the caller, in that conversation |
| MessageActions.SentContentIsTrimmed | lib/actions/message-actions.ts:279-288 | a stored message is non-blank and already trimmed |
| MessageActions.SendAuthorisation | lib/actions/message-actions.ts:265-276 | for non-blank content a non-participant is refused and a participant's message accepted unless the insert fails |
| MessageActions.AppendKeepsSenders | lib/actions/message-actions.ts:279-288 | appending a participant's message under the next id keeps every sender a participant |
| MessageActions.AppendMessage | lib/actions/message-actions.ts:279-288 | the insert appends a participant's message under the next id, advances the counter and keeps the store valid |
| MessageActions.SendMessage | lib/actions/message-actions.ts:246-300 | answers as `Send` does, appends the accepted message and keeps the store valid |
| Text.Trim | lib/actions/message-actions.ts:258 | `trim()`: no longer than the input, and neither starts nor ends with whitespace |
| Text.TrimIsInfix | lib/actions/message-actions.ts:283 | the trimmed string is an infix of the input with only whitespace on either side |
| Text.BlankIffTrimmedEmpty | lib/actions/post-actions.ts:46 | a string is all whitespace exactly when `trim()` leaves the empty, falsy string |
| Text.TrimIdempotent | lib/actions/message-actions.ts:283 | trimming trimmed content changes nothing |
| Text.SplitJoin | lib/actions/image-actions.ts:36-38 | `split` after `join` gives back the parts when none contains the separator |
| Text.DecimalRoundTrip | lib/actions/profile-actions.ts:99 | a time written in decimal reads back as the same number |
| Basics.NullIfEmpty | lib/actions/profile-actions.ts:55-56 | `x \|\| null`: null exactly for a missing or empty field, the field otherwise |

## Left out

- Concurrency: two actions never interleave; each runs as one step on the tables.
- The blob store (bucket creation and listing, upload, `getPublicUrl`, `remove`). `ImageActions.ClearEach` returns the paths it asks to remove. A failed removal is only logged, so it does not change the model.
- `revalidatePath`, `console.error` and the rendering of pages are side effects with no effect on the answers.
- Time: `now` is an integer parameter, and timestamps are integers compared with `<`.
- `uploadAvatar`: only its path computation (lines 98-99) is modelled. The upload, the `avatar_url` update and the `error.message || ...` catch depend on the blob store.
- The outer `catch` of the image sweep ("Failed to process expired images") is not modelled. No modelled step throws.
- `ImageActions.Sweep`: the sweep query has no `.order`. The selection is modelled in table order.
- `MessageActions.Entries`: the other participants' query (lines 40-47) has no `.order`. Its rows are modelled in table order, which the order of the entries follows.
- `MessageActions.FirstShared`: the shared-participation query (lines 136-157) has no `.order`. Its rows are modelled in table order, and "the first row" is the first in that order.
- `PostActions.NewPost`: the insert (lines 63-67) does not set `image_expires_at`. The model stores no expiry, on the assumption that the column's default is null; the table's schema is not part of this model.
- Ids: post and conversation ids are strings (UUIDs) in the store and `nat` counters in the model. Likes and comments have no id column in the model, because no action reads one.
- Characters: JavaScript strings are UTF-16 and Dafny's `char` is a Unicode scalar. `\w` is modelled on ASCII, and the Hebrew block on U+0590 to U+05FF.
- `ProfileActions.TakenIffOtherHasIt` assumes that no two other profiles share the username. `ProfileActions.DuplicateOthersFailCheck` covers the case where they do.
- The pages and the middleware's matcher configuration are left out. Only the decision for a path and a session is modelled.

## Findings

| source | as written | input that shows it | evidently intended | confidence | as-written member | corrected member |
|---|---|---|---|---|---|---|
| lib/actions/message-actions.ts:71-77 | the unread-count query ends in `.group("conversation_id")`, a method the query builder does not have, so `getConversations` throws and has no `catch` | a signed-in caller with at least one participation, no store call failing | one row per conversation with its number of unread messages from others, read at lines 90 and 101 | high; not executed | MessageActions.ConversationsAsWritten, MessageActions.GroupCallThrows | MessageActions.Group, MessageActions.Conversations |
