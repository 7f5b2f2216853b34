/** The tables, enums and one-to-one relationships of the public database schema
    (types/database.ts), and the in-memory store that stands in for the database.
    Generated identifiers (uuids in the database) are natural numbers handed out from a
    counter; timestamps are milliseconds. */
module Schema {
  import opened Wrappers

  type Id = nat

  /** Milliseconds since the epoch. */
  type Time = nat

  datatype QuestionStatus = Assigned | Completed | Disputed | InProgress | Resolved | WaitingForJudge
  datatype ConversationStatus = Active | Disputed | Ended
  datatype DisputeStatus = Pending | Resolved | UnderReview
  datatype JudgeLevel = L1 | L2 | L3
  datatype MessageType = Image | System | Text
  datatype Role = Admin | Judge | User

  /** The `question_status` enum as the schema lists it. */
  const QuestionStatuses: seq<QuestionStatus> :=
    [Assigned, Completed, QuestionStatus.Disputed, InProgress, QuestionStatus.Resolved, WaitingForJudge]

  /** The `question_status` enum has exactly six values. */
  lemma QuestionStatusesComplete(st: QuestionStatus)
    ensures st in QuestionStatuses
    ensures |QuestionStatuses| == 6
    ensures forall i, j :: 0 <= i < j < 6 ==> QuestionStatuses[i] != QuestionStatuses[j]
  {
  }

  /** The `data` payload of a notification, in the two shapes the services write. */
  datatype Payload =
    | NoPayload
    | NewQuestionPayload(questionId: Id, category: string, title: string)
    | DisputePayload(conversationId: Id)

  /** A `profiles` row, reduced to what the core reads: identity, role, presence. */
  datatype Profile = Profile(id: Id, role: Role, isOnline: Option<bool>)

  datatype Question = Question(
    id: Id,
    userId: Id,
    title: string,
    content: string,
    category: string,
    imageUrl: Option<string>,
    status: QuestionStatus,
    assignedJudgeId: Option<Id>,
    createdAt: Time,
    assignedAt: Option<Time>,
    completedAt: Option<Time>,
    timeoutAt: Time)

  datatype Conversation = Conversation(
    id: Id,
    questionId: Id,
    userId: Id,
    judgeId: Id,
    status: ConversationStatus,
    startedAt: Time,
    endedAt: Option<Time>,
    lastMessageAt: Time)

  datatype Message = Message(
    id: Id,
    conversationId: Id,
    senderId: Id,
    content: Option<string>,
    messageType: MessageType,
    imageUrl: Option<string>,
    createdAt: Time,
    readAt: Option<Time>)

  datatype Rating = Rating(
    id: Id,
    conversationId: Id,
    userId: Id,
    judgeId: Id,
    score: int,
    isAccepted: bool,
    feedback: Option<string>,
    createdAt: Time)

  datatype Reward = Reward(
    id: Id,
    judgeId: Id,
    pointsEarned: int,
    reason: string,
    conversationId: Option<Id>,
    createdAt: Time)

  datatype Dispute = Dispute(
    id: Id,
    conversationId: Id,
    userId: Id,
    judgeId: Id,
    userJustification: string,
    judgeJustification: Option<string>,
    status: DisputeStatus,
    resolvedBy: Option<Id>,
    resolvedAt: Option<Time>,
    adminNotes: Option<string>,
    createdAt: Time)

  /** A `judge_info` row. The aggregates are nullable; `averageRating` is kept exact and
      `averageResponseTime` holds the `hh:mm:ss` text the rating engine writes. */
  datatype JudgeInfo = JudgeInfo(
    id: Id,
    userId: Id,
    judgeLevel: JudgeLevel,
    isAvailable: Option<bool>,
    bio: Option<string>,
    specialties: Option<seq<string>>,
    languages: Option<seq<string>>,
    badges: Option<seq<string>>,
    totalPoints: Option<int>,
    totalQuestionsAnswered: Option<int>,
    averageRating: Option<real>,
    averageResponseTime: Option<string>,
    createdAt: Time)

  datatype Notification = Notification(
    id: Id,
    userId: Id,
    title: string,
    content: string,
    kind: string,
    data: Payload,
    read: Option<bool>,
    createdAt: Time)

  /** The whole database: one sequence per table, rows in insertion order, and the next
      identifier the database will generate. */
  datatype Store = Store(
    profiles: seq<Profile>,
    questions: seq<Question>,
    conversations: seq<Conversation>,
    messages: seq<Message>,
    ratings: seq<Rating>,
    rewards: seq<Reward>,
    disputes: seq<Dispute>,
    judgeInfo: seq<JudgeInfo>,
    notifications: seq<Notification>,
    nextId: Id)

  /** The value an unspecified `read` column takes on insert. */
  const UnreadOnInsert: Option<bool> := Some(false)

  function QuestionKey(q: Question): nat { q.id }
  function ConversationKey(c: Conversation): nat { c.id }
  function NotificationKey(n: Notification): nat { n.id }

  /** `conversations.question_id` is one-to-one. */
  function ConversationQuestion(c: Conversation): nat { c.questionId }

  /** `ratings.conversation_id` is one-to-one. */
  function RatingConversation(r: Rating): nat { r.conversationId }

  /** `judge_info.user_id` is one-to-one. */
  function JudgeInfoUser(j: JudgeInfo): nat { j.userId }

  /** No two rows share a key. */
  predicate KeysDistinct<T>(rows: seq<T>, key: T -> nat) {
    forall i, j :: 0 <= i < j < |rows| ==> key(rows[i]) != key(rows[j])
  }

  /** Every key was handed out before `bound`. */
  predicate KeysBelow<T>(rows: seq<T>, key: T -> nat, bound: nat) {
    forall i :: 0 <= i < |rows| ==> key(rows[i]) < bound
  }

  /** Primary keys that the services look rows up by are unique and already issued. */
  predicate IdsIssued(s: Store) {
    && KeysBelow(s.questions, QuestionKey, s.nextId) && KeysDistinct(s.questions, QuestionKey)
    && KeysBelow(s.conversations, ConversationKey, s.nextId) && KeysDistinct(s.conversations, ConversationKey)
    && KeysBelow(s.notifications, NotificationKey, s.nextId) && KeysDistinct(s.notifications, NotificationKey)
  }

  /** The `isOneToOne` relationships: a question has at most one conversation, a conversation
      at most one rating, a profile at most one judge_info row. */
  predicate OneToOne(s: Store) {
    && KeysDistinct(s.conversations, ConversationQuestion)
    && KeysDistinct(s.ratings, RatingConversation)
    && KeysDistinct(s.judgeInfo, JudgeInfoUser)
  }

  /** The database constraints the model keeps. */
  predicate Valid(s: Store) {
    IdsIssued(s) && OneToOne(s)
  }

  /** The error kinds a service call reports. */
  datatype Error =
    | NotAuthenticated   // no signed-in caller
    | NotAJudge          // caller's profile is missing or not judge/admin
    | NotFound           // a referenced row is absent
    | NotSingleRow       // `.single()` saw zero or several rows
    | UniqueViolation    // an insert broke a one-to-one key
    | ClaimLost          // the conditional assignment matched no waiting question

  /** What a service call returns, paired with the database it leaves behind. */
  datatype Reply<T> = Reply(result: Result<T, Error>, store: Store)
}
