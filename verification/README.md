# judge-connect question lifecycle, in Dafny

This project models the service layer of judge-connect. A user asks a question. Available,
online judges are notified. One judge claims it with a single conditional update, and the
claim opens a conversation. When the conversation is over the user rates it:

- An accepted rating pays the judge ten points per star and recomputes the judge's aggregate
  statistics.
- A rejected rating opens a dispute and notifies every admin.

Around this lifecycle sit the read paths: question, conversation and notification listings,
judge listings, profiles, stats and search.

The database is an immutable `Schema.Store`: one sequence per table, rows in insertion order,
and a counter that hands out fresh ids. Every service call is a pure function from a store to
a `Reply`, which pairs the call's `Result` with the store the call leaves behind. The
Supabase query builder is modelled as follows (module `Tables`):

- An insert fails on a one-to-one key clash. The one-to-one keys are
  `conversations.question_id`, `ratings.conversation_id` and `judge_info.user_id`.
- Of the foreign keys, only `messages.conversation_id` is modelled: a message insert fails
  when no conversation has its id.
- `update().eq()` rewrites every matching row.
- `update().eq().select().single()` rewrites the rows only when exactly one row matches.
  Otherwise it fails and changes nothing.
- `.single()` on a read fails unless exactly one row matches. `getRating` swallows that
  failure and returns no rating and no error.
- `order(...)` is a sort by a total preorder, and `limit(n)` is a prefix.

The signed-in user (`supabase.auth.getUser()`) is an `Option<Id>` parameter. The clock
(`new Date()`, `Date.now()`) is a `Time` parameter in milliseconds.

`Schema.Valid` states the constraints the model keeps. The ids of questions, conversations and
notifications are issued by the counter, so they lie below it and are distinct. The
one-to-one relationships hold. Messages, ratings, disputes and rewards also get fresh ids from
the counter, but `Schema.Valid` says nothing about their ids. Every service call preserves it. `Lifecycle` runs
arbitrary traces of calls. It proves two things for any interleaving:

- at most one call ever wins the claim on a question;
- at most one rating is ever stored for a conversation.

Modules follow the source: `Questions` (lib/questions.ts), `Conversations`
(lib/conversations.ts), `Ratings` (lib/ratings.ts), `Notifications` (lib/notifications.ts),
`Judges` (lib/judges.ts), `Schema` (types/database.ts). `Tables` holds the query-builder
semantics, `Seqs` holds filtering, sorting and limits, and `Text` holds number and interval
formatting.

Where the code and the written design of the system disagree, the model follows the code:

- `createQuestion` does not check for empty title, content or category.
- `submitRating` does not check that the score is between 1 and 5.
- `completeQuestion` and `endConversation` have no status guard. Completing a question nobody
  claimed leaves a completed question without a judge (`Questions.CompleteWithoutJudge`).
  Ending a conversation twice moves `ended_at` (`Conversations.EndConversationTwice`).
- The claim does not look at `timeout_at`, so an expired waiting question can still be claimed
  (`Questions.AssignIgnoresTimeout`).
- When the conversation insert fails after a won claim, `acceptQuestion` reports the insert's
  own error. There is no separate post-assignment error. The question stays assigned.
- `sendMessage` does not check that the sender takes part in the conversation.

## Model

| member | source | states |
|---|---|---|
| Schema.QuestionStatusesComplete | types/database.ts:505-511 | the question status enum has exactly the six listed values, all distinct |
| Tables.Single | lib/conversations.ts:19-22 | a `.single()` read succeeds exactly when one row matches and then returns that row; otherwise it reports a not-single error |
| Tables.UpdateSingle | lib/notifications.ts:30-37 | an update with `.single()` succeeds exactly when one row matches; it then rewrites the matching rows and returns the updated row, which is in the new table |
| Tables.AddConversation | types/database.ts:51-57 | inserting a conversation fails with a unique violation exactly when the question already has one; otherwise the row is appended under a fresh id and the constraints still hold |
| Tables.AddRating | types/database.ts:428-434 | inserting a rating fails exactly when the conversation already has one; otherwise it is appended and the constraints still hold |
| Tables.AddJudgeInfo | types/database.ts:188-194 | inserting a judge_info row fails exactly when the user already has one |
| Tables.RoleOf | lib/questions.ts:95-101 | the role is read only when exactly one profile has the id, and it is that profile's role |
| Seqs.UpdateWhere | lib/questions.ts:160-163 | an `update ... eq` keeps the table's length, rewrites every matching row and leaves every other row as it was |
| Seqs.SortBy | lib/questions.ts:113 | `order` returns a permutation of its input (same multiset) that is sorted by the comparator |
| Seqs.Take | lib/notifications.ts:17 | `limit(n)` returns the first `n` rows, or all rows when there are fewer |
| Seqs.Page | lib/notifications.ts:12-17 | a filtered, ordered, limited listing has at most the limit, is sorted, holds only matching rows and none more often than the table does, and leaves a matching row out only when the page is full and the row comes after every row shown |
| Seqs.FilterCount | lib/notifications.ts:71-76 | the number of rows a filter keeps is the number of table positions whose row matches |
| Seqs.TakeKeepsFirst | lib/notifications.ts:16-17 | any row a limit leaves out of a sorted listing comes after every row it keeps, and then the page is full |
| Questions.CreateQuestion | lib/questions.ts:9-35 | without a caller it fails and writes nothing; otherwise it appends one waiting, unassigned question of the caller with the given fields, created now, timing out 8 minutes later, under an id no earlier row has, and then runs the notification fan-out for it; the constraints hold, and no older question becomes waiting |
| Questions.Announce | lib/questions.ts:19-33 | the insert followed by the fan-out: the question is appended, then one `new_question` notification carrying its id, category and title per judge that was available and online, in order; nothing else changes, and the constraints hold |
| Questions.JudgesToNotify | lib/questions.ts:174-179 | a user is notified exactly when the user's judge_info row is available and the user's profile is online |
| Questions.NotifyAvailableJudges | lib/questions.ts:172-199 | exactly one unread notification per recipient is appended, in recipient order, carrying the question id, category and title; only the notifications change |
| Questions.ClaimOpenIff | lib/questions.ts:51-52 | under the key constraints, the conditional update matches a row exactly when a question with that id is waiting |
| Questions.AssignQuestionToJudge | lib/questions.ts:42-56 | the claim succeeds exactly when the question is waiting, whatever its timeout; it returns the waiting row with the judge, the time and `assigned`, and afterwards no row with that id is waiting; on failure nothing changes; no other row changes |
| Questions.AcceptQuestion | lib/questions.ts:124-165 | no caller: not authenticated, nothing written; lost claim: fails, nothing written; the question already has a conversation: unique violation with the claim kept; otherwise one active conversation between author and judge, one system greeting from the judge, and the question in progress with the judge recorded; the questions table keeps its length and every other question row is unchanged |
| Questions.GetMyQuestions | lib/questions.ts:65-78 | exactly the caller's questions, newest first |
| Questions.GetAvailableQuestions | lib/questions.ts:89-113 | as written: only a caller whose one profile is a judge or admin may list; the listing is exactly the waiting questions with `timeout_at < now`, oldest first |
| Questions.AvailableQuestionsAreExpired | lib/questions.ts:111-112 | every question the as-written listing returns has already timed out |
| Questions.GetLiveQuestions | lib/questions.ts:111-113 | corrected listing: exactly the waiting questions that have not timed out yet, each as often as in the table, oldest first |
| Questions.NewQuestionHiddenWhileLive | lib/questions.ts:25 | for the whole 8 minutes after creation a new question is missing from the as-written listing and present in the corrected one |
| Questions.CompleteQuestion | lib/questions.ts:201-211 | completing succeeds exactly when the question exists, from any status; the row becomes completed at now; other rows and tables are unchanged |
| Questions.CompleteWithoutJudge | lib/questions.ts:203-209 | a waiting question nobody claimed can be completed, leaving a completed question with no judge |
| Questions.AssignIgnoresTimeout | lib/questions.ts:44-52 | a waiting question whose timeout has passed can still be claimed |
| Conversations.GetConversation | lib/conversations.ts:9-22 | under the key constraints the read succeeds exactly when a conversation has the id, and returns it |
| Conversations.GetMessages | lib/conversations.ts:31-40 | exactly the conversation's messages, oldest first |
| Conversations.SendMessage | lib/conversations.ts:51-77 | without a caller it fails and writes nothing; when no conversation has the id the insert breaks the `messages.conversation_id` foreign key, so it fails with not-found and writes nothing; otherwise it appends the message with the caller as sender, unread, at now, and moves `last_message_at` of that conversation to now; nothing else changes |
| Conversations.SendMessageListed | lib/conversations.ts:56-77 | after a send to an existing conversation, the message is listed in it and that listing grows by one; every other conversation's listing is unchanged either way |
| Conversations.SendMessageBumpsActivity | lib/conversations.ts:73-77 | after a send, both participants' conversation lists show the conversation with its activity time now |
| Conversations.EndConversation | lib/conversations.ts:86-98 | ending succeeds exactly when the conversation exists, from any status, setting it ended at now; otherwise nothing changes |
| Conversations.EndConversationTwice | lib/conversations.ts:88-96 | ending twice succeeds exactly when ending once does, and leaves the same store as ending once at the later time |
| Conversations.GetMyConversations | lib/conversations.ts:107-122 | exactly the conversations the caller asked or judges, most recent activity first |
| Notifications.Broadcast | lib/ratings.ts:173-184 | one unread notification per recipient is appended in recipient order with the given title, text, kind and payload; nothing else changes |
| Notifications.GetNotifications | lib/notifications.ts:7-17 | at most 50 of the caller's notifications, newest first, none repeated more often than in the table; any of the caller's notifications left out is no newer than every one shown |
| Notifications.MarkAsRead | lib/notifications.ts:28-37 | succeeds exactly when a notification has the id; it is then read and no other row changes |
| Notifications.MarkAsReadIdempotent | lib/notifications.ts:30-35 | marking the same notification read twice leaves the same store as once |
| Notifications.MarkAllAsRead | lib/notifications.ts:46-57 | afterwards none of the caller's notifications is unread; only the caller's unread rows change, and only their read flag |
| Notifications.GetUnreadCount | lib/notifications.ts:66-82 | the number of the caller's notifications with `read = false`, counted as the set of their positions in the table; 0 with an error when there is no caller |
| Notifications.MarkAllAsReadClearsCount | lib/notifications.ts:51-55 | after marking all read, the caller's unread count is zero |
| Notifications.MarkAllAsReadKeepsOthers | lib/notifications.ts:51-55 | marking all read leaves every other user's unread count unchanged |
| Notifications.CreateNotification | lib/notifications.ts:108-124 | appends exactly one unread notification for the user with the given fields |
| Notifications.CreateNotificationCounts | lib/notifications.ts:115-122 | a created notification raises its recipient's unread count by one |
| Judges.MostPointsFirstOrders | lib/judges.ts:24 | ordering by total points descending, nulls first, is a total preorder |
| Judges.GetAvailableJudges | lib/judges.ts:8-24 | exactly the available judge_info rows whose profile has the judge role, most points first |
| Judges.GetJudgeProfile | lib/judges.ts:35-54 | under the key constraints it succeeds exactly when the user has a judge_info row and a profile, and returns that row |
| Judges.UpdateJudgeAvailability | lib/judges.ts:63-75 | sets `is_available` on the caller's own row; it succeeds exactly when that row exists, otherwise nothing changes |
| Judges.AvailabilityListed | lib/judges.ts:68-73 | after switching availability on the judge is in the available-judges listing, and after switching it off the judge is not |
| Judges.UpdateJudgeProfile | lib/judges.ts:84-100 | writes exactly the given fields of the caller's row and keeps the rest; fails when the row does not exist |
| Judges.UpdateJudgeProfileRead | lib/judges.ts:93-98 | what the profile update returns is what a later profile read returns |
| Judges.RecentRatings | lib/judges.ts:116-129 | at most 10 of the judge's accepted ratings, newest first, none repeated more often than in the table; any left out is no newer than those shown |
| Judges.RewardHistory | lib/judges.ts:132-137 | at most 20 of the judge's rewards, newest first, none repeated more often than in the table; any left out is no newer than those shown |
| Judges.GetJudgeStats | lib/judges.ts:109-146 | not found exactly when the profile read fails; otherwise the judge's row with the recent ratings and the reward history |
| Judges.CreateJudgeProfile | lib/judges.ts:153-176 | the user's profile gets the judge role whether or not the insert then succeeds; the insert fails exactly when the user already has a judge_info row |
| Judges.CreateJudgeProfileRead | lib/judges.ts:160-164 | after the call the user's profile carries the judge role, and a newly inserted row is what a profile read then returns |
| Judges.SearchJudges | lib/judges.ts:185-231 | exactly the judge rows meeting every given filter (level, specialty, language, online) and the text match when the query is not blank, most points first |
| Judges.AvailableJudgesSearchable | lib/judges.ts:204-228 | every available judge appears in an unfiltered search with a blank query |
| Judges.SearchNarrows | lib/judges.ts:206-221 | adding filters or a query never widens the search result |
| Ratings.History | lib/ratings.ts:103-107 | exactly the judge's accepted ratings whose conversation exists (the inner join with conversations) |
| Ratings.MeanSeconds | lib/ratings.ts:123-128 | the whole seconds of a mean of milliseconds satisfy the floor bounds and are non-negative for a non-negative total |
| Ratings.AwardPoints | lib/ratings.ts:65-94 | appends one reward of ten points per star (10 to 50 for 1 to 5 stars) to the judge; the judge's total (null read as 0) grows by those points; nobody else's row changes |
| Ratings.AwardPointsBalanced | lib/ratings.ts:71-93 | if every total equalled the sum of that judge's rewards before awarding, it still does after |
| Ratings.WithStats | lib/ratings.ts:111-141 | the judge row gets the count, a mean that times the count gives the score sum, and an `hh:mm:ss` time that reads back as the whole seconds of the mean response time; nothing else in the row changes |
| Ratings.UpdateJudgeStats | lib/ratings.ts:100-142 | with no accepted ratings nothing changes; otherwise every row of the judge reflects the full history and no other row or table changes |
| Ratings.MeanIncremental | lib/ratings.ts:112 | the recomputed mean is the incremental update of the previous one: new mean times new count equals old mean times old count plus the new score |
| Ratings.Admins | lib/ratings.ts:168-171 | a user is notified of a dispute exactly when some profile with that id has the admin role |
| Ratings.CreateDispute | lib/ratings.ts:149-185 | one pending dispute with the justification, the conversation disputed, and one `dispute` notification per admin |
| Ratings.FollowUp | lib/ratings.ts:38-56 | accepted: one reward, disputes and conversations untouched; rejected: no reward, judge rows untouched, one dispute, the conversation disputed, one notification per admin; either way the question is settled at now and the ratings are untouched |
| Ratings.FollowUpSettles | lib/ratings.ts:44-51 | the rated question ends completed when accepted and disputed otherwise, stamped now |
| Ratings.Rated | lib/ratings.ts:14-20 | under the key constraints the rated conversation is found exactly when it exists |
| Ratings.SubmitRating | lib/ratings.ts:8-58 | not authenticated, not found or unique violation with nothing written, exactly in those cases; otherwise the rating goes in with the conversation's judge and the follow-up writes run |
| Ratings.SubmitRatingOutcome | lib/ratings.ts:38-56 | what a successful rating writes besides itself, in both the accepted and the rejected case |
| Ratings.SubmitRatingOnce | lib/ratings.ts:23-36 | after a rating of a conversation went in, any later rating of it fails and writes nothing |
| Ratings.RejectedRatingPaysNothing | lib/ratings.ts:39-42 | a rejected rating creates no reward and changes no judge row |
| Ratings.SubmitRatingBalanced | lib/ratings.ts:38-42 | submitting a rating keeps every judge's total equal to the sum of the judge's rewards |
| Ratings.HistoryGrows | lib/ratings.ts:103-107 | an accepted rating of an existing conversation joins the end of its judge's history |
| Ratings.AcceptedRatingStats | lib/ratings.ts:38-42 | after an accepted rating, the judge's stored count and mean agree with the old history plus the new score, and the stored stats are current |
| Ratings.GetRating | lib/ratings.ts:191-205 | a rating is returned exactly when one rating row has the conversation id, and it is that row; no row or several rows give no rating and no error; under the key constraints a rating is returned exactly when the conversation is rated |
| Ratings.SubmitRatingRead | lib/ratings.ts:23-34 | after a successful submission, reading the conversation's rating returns exactly the stored rating |
| Text.JsRem | lib/ratings.ts:130-131 | JavaScript's remainder keeps the sign of the dividend, stays below the divisor in magnitude, and differs from the dividend by a multiple of the divisor |
| Text.PadStart2 | lib/ratings.ts:132 | padding to two characters prepends zeros to a shorter string and keeps a longer one |
| Text.IntToString | lib/ratings.ts:132 | a number prints as its decimal digits, with a minus sign when negative |
| Text.IntToStringReadsBack | lib/ratings.ts:132 | the digits of a printed number read back as its magnitude, after the minus sign when negative |
| Text.ParseNatToString | lib/ratings.ts:132 | printing a non-negative number and reading it back gives the number |
| Text.FormatIntervalFields | lib/ratings.ts:128-132 | for non-negative seconds the interval has three digit fields of at least two characters, minutes and seconds below 60, and reads back as the seconds |
| Lifecycle.Step | lib/questions.ts:46-52 | every service call keeps the constraints, never issues an old id again, never moves a question back to waiting, and never removes a rating |
| Lifecycle.Run | lib/questions.ts:46-52 | the same holds for any trace of calls |
| Lifecycle.RatingEvolves | lib/ratings.ts:44-51 | a rating moves no question back to waiting |
| Lifecycle.WinRecordsJudge | lib/questions.ts:44-54 | a winning claim, direct or inside an accept, records its judge on the question and leaves no row with that id waiting |
| Lifecycle.ClaimedStaysClaimed | lib/questions.ts:51-52 | once a question is claimed, no later call in any trace wins it and it never waits again |
| Lifecycle.AtMostOneClaim | lib/questions.ts:42-56 | in any trace from a valid store, at most one call wins the claim on a question |
| Lifecycle.RatedStaysRated | types/database.ts:428-434 | once a conversation is rated it stays rated, and no later call stores another rating for it |
| Lifecycle.AtMostOneRating | types/database.ts:428-434 | in any trace at most one call stores a rating of a conversation |

## Left out

- Foreign keys other than `messages.conversation_id` (types/database.ts:233) are not modelled. An insert may refer to a profile, question or conversation that no row has. The database would reject such an insert, but the model does not. This touches the following members.
- Notifications.CreateNotification: does not fail when no profile has the user id, which `notifications_user_id_fkey` (types/database.ts:281) would reject.
- Judges.CreateJudgeProfile: the insert does not fail when no profile has the user id, which `judge_info_user_id_fkey` (types/database.ts:189) would reject.
- Conversations.SendMessage: does not fail when no profile has the sender id, which `messages_sender_id_fkey` (types/database.ts:240) would reject.
- Questions.CreateQuestion: does not fail when no profile has the caller's id, which `questions_user_id_fkey` (types/database.ts:388) would reject.
- Realtime subscriptions (lib/conversations.ts:133-179, lib/notifications.ts:86-106) are left out. They are push channels over a network transport and change no state.
- The profile, question and sender columns that the listings join in for display are left out. They change no row and select no row, except for the inner joins, which are modelled.
- Ratings.WithStats: keeps the mean rating exact. It does not round with `toFixed(2)`, because floating point is not modelled.
- Ratings.WithStats: computes the mean response time in exact integer arithmetic, so it is `Math.floor` of the exact mean, not of a floating-point quotient.
- Judges.SearchJudges: the free-text match (`ilike` on the name and bio, `cs` on specialties) is an oracle parameter. Pattern matching and the name column are not modelled.
- Judges.SearchJudges: `query.trim()` recognises ASCII whitespace, no-break space and the byte-order mark only, not every Unicode space.
- Concurrency is modelled only as interleavings of whole service calls (module `Lifecycle`). The separate writes of one call are not interleaved with other calls: the two of `sendMessage` (message insert, conversation update) and the four of `acceptQuestion` (claim, conversation insert, system message, status update).
- Database defaults follow the column types: `notifications.read` is false on insert and `judge_info.is_available` is null on insert. The creation timestamps are the time of the call.
- Profile ids are not assumed unique. Reads by profile id therefore go through `.single()` semantics (`Tables.RoleOf`).
- Ratings.SubmitRatingOnce: states only that the second submission fails. It does not state which error, because that depends on the second caller.
- Ratings.AwardPoints: states the judge's new total only under the key constraints. Without them the judge's row is read with `.single()`, which fails when the judge has no row or several rows, and then no total changes.
- Errors swallowed by the source's `try`/`catch` (notification fan-out, points, stats, dispute writes) are not modelled. Those writes cannot fail in this store. The one exception is the points read, whose `.single()` semantics are modelled. The stats read has no `.single()` and is a plain filtered select.
- User interface screens, the camera, voice and video components, and sign-in are not part of this model.

## Findings

| source | as written | input that shows it | evidently intended | confidence | as-written member | corrected member |
|---|---|---|---|---|---|---|
| lib/questions.ts:112 | `.lt('timeout_at', now)` lists waiting questions whose timeout has already passed | a question created at time t has `timeout_at = t + 480000`; a judge listing at any time in [t, t + 480000) does not see it | `gt('timeout_at', now)`: list the waiting questions that have not timed out yet, as the comment on that line says | high; not executed | Questions.GetAvailableQuestions, Questions.NewQuestionHiddenWhileLive | Questions.GetLiveQuestions |
