/** The store operations the services issue, with the database's behaviour:
    - an insert fails on a one-to-one key clash and otherwise appends a row with a fresh id;
    - `update ... eq` rewrites every matching row;
    - `.single()` fails unless exactly one row comes back, and an update ending in
      `.select().single()` that matches any other number of rows is rolled back. */
module Tables {
  import opened Wrappers
  import opened Schema
  import opened Seqs

  /** `.single()` on a read. */
  function Single<T>(rows: seq<T>): (r: Result<T, Error>)
    ensures r.Ok? <==> |rows| == 1
    ensures r.Ok? ==> r.value == rows[0]
    ensures r.Err? ==> r.error == NotSingleRow
  {
    if |rows| == 1 then Ok(rows[0]) else Err(NotSingleRow)
  }

  /** Appending rows whose keys count up from `bound` keeps keys issued and distinct. */
  lemma AppendFreshKeys<T>(rows: seq<T>, key: T -> nat, xs: seq<T>, bound: nat)
    requires KeysBelow(rows, key, bound)
    requires forall i :: 0 <= i < |xs| ==> key(xs[i]) == bound + i
    ensures KeysBelow(rows + xs, key, bound + |xs|)
    ensures KeysDistinct(rows, key) ==> KeysDistinct(rows + xs, key)
  {
  }

  /** Appending a row whose key no existing row has keeps keys distinct. */
  lemma AppendUnclashed<T>(rows: seq<T>, key: T -> nat, x: T)
    requires KeysDistinct(rows, key)
    requires forall i :: 0 <= i < |rows| ==> key(rows[i]) != key(x)
    ensures KeysDistinct(rows + [x], key)
  {
  }

  /** Keys below one bound are below any larger bound. */
  lemma KeysBelowGrow<T>(rows: seq<T>, key: T -> nat, a: nat, b: nat)
    requires KeysBelow(rows, key, a) && a <= b
    ensures KeysBelow(rows, key, b)
  {
  }

  /** An update that never changes a row's key keeps the key properties. */
  lemma UpdateKeepsKeys<T>(rows: seq<T>, p: T -> bool, f: T -> T, key: T -> nat, bound: nat)
    requires forall x :: key(f(x)) == key(x)
    ensures KeysDistinct(rows, key) ==> KeysDistinct(UpdateWhere(rows, p, f), key)
    ensures KeysBelow(rows, key, bound) ==> KeysBelow(UpdateWhere(rows, p, f), key, bound)
  {
    var r := UpdateWhere(rows, p, f);
    assert forall i :: 0 <= i < |rows| ==> key(r[i]) == key(rows[i]);
  }

  /** Under a unique key, a predicate that pins the key matches at most one row. */
  lemma {:induction false} UniqueMatch<T(!new)>(rows: seq<T>, key: T -> nat, k: nat, p: T -> bool)
    requires KeysDistinct(rows, key)
    requires forall x :: p(x) ==> key(x) == k
    ensures |Filter(rows, p)| <= 1
    decreases |rows|
  {
    if rows != [] {
      var init, last := rows[..|rows| - 1], rows[|rows| - 1];
      UniqueMatch(init, key, k, p);
      if p(last) {
        forall i | 0 <= i < |init|
          ensures !p(init[i])
        {
          assert key(rows[i]) != key(rows[|rows| - 1]);
        }
        FilterNone(init, p);
      }
    }
  }

  /** Under a unique key, the row a key-pinning predicate selects is the only match. */
  lemma UniqueMatchExact<T(!new)>(rows: seq<T>, key: T -> nat, k: nat, p: T -> bool, x: T)
    requires KeysDistinct(rows, key)
    requires forall y :: p(y) ==> key(y) == k
    requires x in rows && p(x)
    ensures Filter(rows, p) == [x]
  {
    UniqueMatch(rows, key, k, p);
    assert x in Filter(rows, p);
  }

  /** Under a unique key, a key-pinning predicate matches exactly one row iff some row satisfies it. */
  lemma KeyedMatch<T(!new)>(rows: seq<T>, key: T -> nat, k: nat, p: T -> bool)
    requires forall y :: p(y) ==> key(y) == k
    ensures KeysDistinct(rows, key) ==> (|Filter(rows, p)| == 1 <==> exists x :: x in rows && p(x))
  {
    if KeysDistinct(rows, key) {
      UniqueMatch(rows, key, k, p);
      if exists x :: x in rows && p(x) {
        var x :| x in rows && p(x);
        assert x in Filter(rows, p);
      }
    }
  }

  /** The result of an update that came back with its single row. */
  datatype Updated<T> = Updated(row: T, rows: seq<T>)

  /** `update(...).eq(...).select().single()` on one table. */
  function UpdateSingle<T(==, !new)>(rows: seq<T>, p: T -> bool, f: T -> T): (r: Result<Updated<T>, Error>)
    ensures r.Ok? <==> |Filter(rows, p)| == 1
    ensures r.Err? ==> r.error == NotSingleRow
    ensures r.Ok? ==> r.value.rows == UpdateWhere(rows, p, f)
    ensures r.Ok? ==> p(Filter(rows, p)[0]) && r.value.row == f(Filter(rows, p)[0])
    ensures r.Ok? ==> r.value.row in r.value.rows
  {
    if |Filter(rows, p)| == 1 then
      var x := Filter(rows, p)[0];
      assert x in Filter(rows, p);
      var i :| 0 <= i < |rows| && rows[i] == x;
      assert UpdateWhere(rows, p, f)[i] == f(x);
      Ok(Updated(f(x), UpdateWhere(rows, p, f)))
    else Err(NotSingleRow)
  }

  // ---------------------------------------------------------------- questions

  function AddQuestion(s: Store, q: Question): (s': Store)
    requires q.id == s.nextId
    ensures s' == s.(questions := s.questions + [q], nextId := s.nextId + 1)
    ensures Valid(s) ==> Valid(s')
  {
    var s' := s.(questions := s.questions + [q], nextId := s.nextId + 1);
    if Valid(s) then
      AppendFreshKeys(s.questions, QuestionKey, [q], s.nextId);
      KeysBelowGrow(s.conversations, ConversationKey, s.nextId, s'.nextId);
      KeysBelowGrow(s.notifications, NotificationKey, s.nextId, s'.nextId);
      s'
    else s'
  }

  /** `update questions ... eq` without `.single()`. */
  function UpdateQuestions(s: Store, p: Question -> bool, f: Question -> Question): (s': Store)
    requires forall q :: f(q).id == q.id
    ensures s' == s.(questions := UpdateWhere(s.questions, p, f))
    ensures Valid(s) ==> Valid(s')
  {
    UpdateKeepsKeys(s.questions, p, f, QuestionKey, s.nextId);
    s.(questions := UpdateWhere(s.questions, p, f))
  }

  /** `update questions ... eq ... select().single()`. */
  function UpdateQuestion(s: Store, p: Question -> bool, f: Question -> Question): (r: Reply<Question>)
    requires forall q :: f(q).id == q.id
    ensures r.result.Ok? <==> |Filter(s.questions, p)| == 1
    ensures r.result.Err? ==> r.store == s && r.result.error == NotSingleRow
    ensures r.result.Ok? ==> r.store == s.(questions := UpdateWhere(s.questions, p, f))
    ensures r.result.Ok? ==> r.result.value == f(Filter(s.questions, p)[0]) && p(Filter(s.questions, p)[0])
    ensures r.result.Ok? ==> r.result.value in r.store.questions
    ensures Valid(s) ==> Valid(r.store)
  {
    match UpdateSingle(s.questions, p, f)
    case Ok(u) => Reply(Ok(u.row), UpdateQuestions(s, p, f))
    case Err(e) => Reply(Err(e), s)
  }

  // ------------------------------------------------------------ conversations

  /** Some conversation has id `cid`: what a foreign key to `conversations.id` and the inner
      join of a rating with its conversation both require. */
  predicate HasConversation(s: Store, cid: Id) {
    exists i :: 0 <= i < |s.conversations| && s.conversations[i].id == cid
  }

  /** True when some conversation already belongs to question `qid`. */
  predicate HasConversationFor(s: Store, qid: Id) {
    exists i :: 0 <= i < |s.conversations| && s.conversations[i].questionId == qid
  }

  /** Insert into `conversations`; the one-to-one `question_id` rejects a second row. */
  function AddConversation(s: Store, c: Conversation): (r: Result<Store, Error>)
    requires c.id == s.nextId
    ensures r.Ok? <==> !HasConversationFor(s, c.questionId)
    ensures r.Err? ==> r.error == UniqueViolation
    ensures r.Ok? ==> r.value == s.(conversations := s.conversations + [c], nextId := s.nextId + 1)
    ensures r.Ok? && Valid(s) ==> Valid(r.value)
  {
    if HasConversationFor(s, c.questionId) then Err(UniqueViolation)
    else
      var s' := s.(conversations := s.conversations + [c], nextId := s.nextId + 1);
      if Valid(s) then
        AppendFreshKeys(s.conversations, ConversationKey, [c], s.nextId);
        AppendUnclashed(s.conversations, ConversationQuestion, c);
        KeysBelowGrow(s.questions, QuestionKey, s.nextId, s'.nextId);
        KeysBelowGrow(s.notifications, NotificationKey, s.nextId, s'.nextId);
        Ok(s')
      else Ok(s')
  }

  /** `update conversations ... eq` without `.single()`. */
  function UpdateConversations(s: Store, p: Conversation -> bool, f: Conversation -> Conversation): (s': Store)
    requires forall c :: f(c).id == c.id && f(c).questionId == c.questionId
    ensures s' == s.(conversations := UpdateWhere(s.conversations, p, f))
    ensures Valid(s) ==> Valid(s')
  {
    UpdateKeepsKeys(s.conversations, p, f, ConversationKey, s.nextId);
    UpdateKeepsKeys(s.conversations, p, f, ConversationQuestion, s.nextId);
    s.(conversations := UpdateWhere(s.conversations, p, f))
  }

  /** `update conversations ... eq ... select().single()`. */
  function UpdateConversation(s: Store, p: Conversation -> bool, f: Conversation -> Conversation): (r: Reply<Conversation>)
    requires forall c :: f(c).id == c.id && f(c).questionId == c.questionId
    ensures r.result.Ok? <==> |Filter(s.conversations, p)| == 1
    ensures r.result.Err? ==> r.store == s && r.result.error == NotSingleRow
    ensures r.result.Ok? ==> r.store == s.(conversations := UpdateWhere(s.conversations, p, f))
    ensures r.result.Ok? ==> r.result.value == f(Filter(s.conversations, p)[0]) && p(Filter(s.conversations, p)[0])
    ensures r.result.Ok? ==> r.result.value in r.store.conversations
    ensures Valid(s) ==> Valid(r.store)
  {
    match UpdateSingle(s.conversations, p, f)
    case Ok(u) => Reply(Ok(u.row), UpdateConversations(s, p, f))
    case Err(e) => Reply(Err(e), s)
  }

  // ------------------------------------------------- messages, rewards, disputes

  function AddMessage(s: Store, m: Message): (s': Store)
    requires m.id == s.nextId
    ensures s' == s.(messages := s.messages + [m], nextId := s.nextId + 1)
    ensures Valid(s) ==> Valid(s')
  {
    var s' := s.(messages := s.messages + [m], nextId := s.nextId + 1);
    if Valid(s) then
      KeysBelowGrow(s.questions, QuestionKey, s.nextId, s'.nextId);
      KeysBelowGrow(s.conversations, ConversationKey, s.nextId, s'.nextId);
      KeysBelowGrow(s.notifications, NotificationKey, s.nextId, s'.nextId);
      s'
    else s'
  }

  function AddReward(s: Store, w: Reward): (s': Store)
    requires w.id == s.nextId
    ensures s' == s.(rewards := s.rewards + [w], nextId := s.nextId + 1)
    ensures Valid(s) ==> Valid(s')
  {
    var s' := s.(rewards := s.rewards + [w], nextId := s.nextId + 1);
    if Valid(s) then
      KeysBelowGrow(s.questions, QuestionKey, s.nextId, s'.nextId);
      KeysBelowGrow(s.conversations, ConversationKey, s.nextId, s'.nextId);
      KeysBelowGrow(s.notifications, NotificationKey, s.nextId, s'.nextId);
      s'
    else s'
  }

  function AddDispute(s: Store, d: Dispute): (s': Store)
    requires d.id == s.nextId
    ensures s' == s.(disputes := s.disputes + [d], nextId := s.nextId + 1)
    ensures Valid(s) ==> Valid(s')
  {
    var s' := s.(disputes := s.disputes + [d], nextId := s.nextId + 1);
    if Valid(s) then
      KeysBelowGrow(s.questions, QuestionKey, s.nextId, s'.nextId);
      KeysBelowGrow(s.conversations, ConversationKey, s.nextId, s'.nextId);
      KeysBelowGrow(s.notifications, NotificationKey, s.nextId, s'.nextId);
      s'
    else s'
  }

  // -------------------------------------------------------------------- ratings

  /** True when conversation `cid` already has a rating. */
  predicate HasRatingFor(s: Store, cid: Id) {
    exists i :: 0 <= i < |s.ratings| && s.ratings[i].conversationId == cid
  }

  /** Insert into `ratings`; the one-to-one `conversation_id` rejects a second rating. */
  function AddRating(s: Store, x: Rating): (r: Result<Store, Error>)
    requires x.id == s.nextId
    ensures r.Ok? <==> !HasRatingFor(s, x.conversationId)
    ensures r.Err? ==> r.error == UniqueViolation
    ensures r.Ok? ==> r.value == s.(ratings := s.ratings + [x], nextId := s.nextId + 1)
    ensures r.Ok? && Valid(s) ==> Valid(r.value)
  {
    if HasRatingFor(s, x.conversationId) then Err(UniqueViolation)
    else
      var s' := s.(ratings := s.ratings + [x], nextId := s.nextId + 1);
      if Valid(s) then
        AppendUnclashed(s.ratings, RatingConversation, x);
        KeysBelowGrow(s.questions, QuestionKey, s.nextId, s'.nextId);
        KeysBelowGrow(s.conversations, ConversationKey, s.nextId, s'.nextId);
        KeysBelowGrow(s.notifications, NotificationKey, s.nextId, s'.nextId);
        Ok(s')
      else Ok(s')
  }

  // ----------------------------------------------------------------- judge_info

  /** True when user `uid` already has a judge_info row. */
  predicate HasJudgeInfoFor(s: Store, uid: Id) {
    exists i :: 0 <= i < |s.judgeInfo| && s.judgeInfo[i].userId == uid
  }

  /** Insert into `judge_info`; the one-to-one `user_id` rejects a second row. */
  function AddJudgeInfo(s: Store, j: JudgeInfo): (r: Result<Store, Error>)
    requires j.id == s.nextId
    ensures r.Ok? <==> !HasJudgeInfoFor(s, j.userId)
    ensures r.Err? ==> r.error == UniqueViolation
    ensures r.Ok? ==> r.value == s.(judgeInfo := s.judgeInfo + [j], nextId := s.nextId + 1)
    ensures r.Ok? && Valid(s) ==> Valid(r.value)
  {
    if HasJudgeInfoFor(s, j.userId) then Err(UniqueViolation)
    else
      var s' := s.(judgeInfo := s.judgeInfo + [j], nextId := s.nextId + 1);
      if Valid(s) then
        AppendUnclashed(s.judgeInfo, JudgeInfoUser, j);
        KeysBelowGrow(s.questions, QuestionKey, s.nextId, s'.nextId);
        KeysBelowGrow(s.conversations, ConversationKey, s.nextId, s'.nextId);
        KeysBelowGrow(s.notifications, NotificationKey, s.nextId, s'.nextId);
        Ok(s')
      else Ok(s')
  }

  /** `update judge_info ... eq` without `.single()`. */
  function UpdateJudgeInfos(s: Store, p: JudgeInfo -> bool, f: JudgeInfo -> JudgeInfo): (s': Store)
    requires forall j :: f(j).userId == j.userId
    ensures s' == s.(judgeInfo := UpdateWhere(s.judgeInfo, p, f))
    ensures Valid(s) ==> Valid(s')
  {
    UpdateKeepsKeys(s.judgeInfo, p, f, JudgeInfoUser, s.nextId);
    s.(judgeInfo := UpdateWhere(s.judgeInfo, p, f))
  }

  /** `update judge_info ... eq ... select().single()`. */
  function UpdateJudgeInfo(s: Store, p: JudgeInfo -> bool, f: JudgeInfo -> JudgeInfo): (r: Reply<JudgeInfo>)
    requires forall j :: f(j).userId == j.userId
    ensures r.result.Ok? <==> |Filter(s.judgeInfo, p)| == 1
    ensures r.result.Err? ==> r.store == s && r.result.error == NotSingleRow
    ensures r.result.Ok? ==> r.store == s.(judgeInfo := UpdateWhere(s.judgeInfo, p, f))
    ensures r.result.Ok? ==> r.result.value == f(Filter(s.judgeInfo, p)[0]) && p(Filter(s.judgeInfo, p)[0])
    ensures r.result.Ok? ==> r.result.value in r.store.judgeInfo
    ensures Valid(s) ==> Valid(r.store)
  {
    match UpdateSingle(s.judgeInfo, p, f)
    case Ok(u) => Reply(Ok(u.row), UpdateJudgeInfos(s, p, f))
    case Err(e) => Reply(Err(e), s)
  }

  // -------------------------------------------------------------- notifications

  /** Insert a batch into `notifications`, the ids counting up from the next free one. */
  function AddNotifications(s: Store, ns: seq<Notification>): (s': Store)
    requires forall i :: 0 <= i < |ns| ==> ns[i].id == s.nextId + i
    ensures s' == s.(notifications := s.notifications + ns, nextId := s.nextId + |ns|)
    ensures Valid(s) ==> Valid(s')
  {
    var s' := s.(notifications := s.notifications + ns, nextId := s.nextId + |ns|);
    if Valid(s) then
      AppendFreshKeys(s.notifications, NotificationKey, ns, s.nextId);
      KeysBelowGrow(s.questions, QuestionKey, s.nextId, s'.nextId);
      KeysBelowGrow(s.conversations, ConversationKey, s.nextId, s'.nextId);
      s'
    else s'
  }

  /** `update notifications ... eq` without `.single()`. */
  function UpdateNotifications(s: Store, p: Notification -> bool, f: Notification -> Notification): (s': Store)
    requires forall n :: f(n).id == n.id
    ensures s' == s.(notifications := UpdateWhere(s.notifications, p, f))
    ensures Valid(s) ==> Valid(s')
  {
    UpdateKeepsKeys(s.notifications, p, f, NotificationKey, s.nextId);
    s.(notifications := UpdateWhere(s.notifications, p, f))
  }

  /** `update notifications ... eq ... select().single()`. */
  function UpdateNotification(s: Store, p: Notification -> bool, f: Notification -> Notification): (r: Reply<Notification>)
    requires forall n :: f(n).id == n.id
    ensures r.result.Ok? <==> |Filter(s.notifications, p)| == 1
    ensures r.result.Err? ==> r.store == s && r.result.error == NotSingleRow
    ensures r.result.Ok? ==> r.store == s.(notifications := UpdateWhere(s.notifications, p, f))
    ensures r.result.Ok? ==> r.result.value == f(Filter(s.notifications, p)[0]) && p(Filter(s.notifications, p)[0])
    ensures Valid(s) ==> Valid(r.store)
  {
    match UpdateSingle(s.notifications, p, f)
    case Ok(u) => Reply(Ok(u.row), UpdateNotifications(s, p, f))
    case Err(e) => Reply(Err(e), s)
  }

  // ------------------------------------------------------ profiles (read only)

  function ProfileWithId(uid: Id): Profile -> bool {
    (p: Profile) => p.id == uid
  }

  /** `profiles.select('role').eq('id', uid).single()`, with a missing row read as null. */
  function RoleOf(s: Store, uid: Id): (r: Option<Role>)
    ensures r.Some? <==> |Filter(s.profiles, ProfileWithId(uid))| == 1
    ensures r.Some? ==> exists p :: p in s.profiles && p.id == uid && p.role == r.value
  {
    var rows := Filter(s.profiles, ProfileWithId(uid));
    if |rows| == 1 then
      assert rows[0] in rows;
      Some(rows[0].role)
    else None
  }

  /** The inner join `profiles!inner(...)` with `profiles.is_online = true`. */
  predicate IsOnline(s: Store, uid: Id) {
    exists i :: 0 <= i < |s.profiles| && s.profiles[i].id == uid && s.profiles[i].isOnline == Some(true)
  }

  /** The inner join `profiles!inner(...)` with `profiles.role = 'judge'`. */
  predicate HasJudgeRole(s: Store, uid: Id) {
    exists i :: 0 <= i < |s.profiles| && s.profiles[i].id == uid && s.profiles[i].role == Judge
  }
}
