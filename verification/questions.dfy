/** The question registry and claim arbiter (lib/questions.ts): creation with a timeout and
    a notification fan-out to available judges, the conditional assignment that lets at most
    one judge claim a waiting question, acceptance (claim, conversation, greeting, in
    progress), the listings, and completion. */
module Questions {
  import opened Wrappers
  import opened Schema
  import opened Seqs
  import opened Tables
  import Notifications

  /** How long a new question stays open: 8 minutes, in milliseconds. */
  const QuestionTimeout: nat := 8 * 60 * 1000

  const NewQuestionTitle: string := "New Question Available"
  const NewQuestionKind: string := "new_question"

  /** The system message a judge posts on accepting a question. */
  const JoinGreeting: string := "Judge has joined the conversation. How can I help you?"

  /** The `questionData` argument of `createQuestion`. */
  datatype QuestionInput = QuestionInput(title: string, content: string, category: string, imageUrl: Option<string>)

  function QuestionWithId(qid: Id): Question -> bool {
    (q: Question) => q.id == qid
  }

  /** `eq('id', qid).eq('status', 'waiting_for_judge')`: the guard of the conditional assignment. */
  function WaitingWithId(qid: Id): Question -> bool {
    (q: Question) => q.id == qid && q.status == WaitingForJudge
  }

  function ByAuthor(uid: Id): Question -> bool {
    (q: Question) => q.userId == uid
  }

  /** `eq('status', 'waiting_for_judge').lt('timeout_at', now)`, the claimable filter as written. */
  function WaitingAndExpired(now: Time): Question -> bool {
    (q: Question) => q.status == WaitingForJudge && q.timeoutAt < now
  }

  predicate OldestFirst(a: Question, b: Question) {
    a.createdAt <= b.createdAt
  }

  predicate NewestFirst(a: Question, b: Question) {
    b.createdAt <= a.createdAt
  }

  /** The conditional assignment on `qid` matches exactly one row. */
  predicate ClaimOpen(s: Store, qid: Id) {
    |Filter(s.questions, WaitingWithId(qid))| == 1
  }

  /** The waiting row an open claim on `qid` will assign. */
  function ClaimTarget(s: Store, qid: Id): (q: Question)
    requires ClaimOpen(s, qid)
    ensures q in s.questions && q.id == qid && q.status == WaitingForJudge
  {
    assert Filter(s.questions, WaitingWithId(qid))[0] in Filter(s.questions, WaitingWithId(qid));
    Filter(s.questions, WaitingWithId(qid))[0]
  }

  /** No row with id `qid` is waiting for a judge. */
  predicate NoneWaiting(s: Store, qid: Id) {
    forall q :: q in s.questions && q.id == qid ==> q.status != WaitingForJudge
  }

  /** Going from `a` to `b` no question became waiting again: every waiting row of `b` was
      already in `a` or carries an id `a` had not issued yet. */
  predicate QuestionsEvolve(a: Store, b: Store) {
    && a.nextId <= b.nextId
    && forall q :: q in b.questions && q.status == WaitingForJudge ==> q in a.questions || q.id >= a.nextId
  }

  lemma QuestionsEvolveTransitive(a: Store, b: Store, c: Store)
    requires QuestionsEvolve(a, b) && QuestionsEvolve(b, c)
    ensures QuestionsEvolve(a, c)
  {
  }

  /** Under the key constraints, the claim is open exactly when a row with that id is waiting. */
  lemma ClaimOpenIff(s: Store, qid: Id)
    ensures Valid(s) ==> (ClaimOpen(s, qid) <==> exists q :: q in s.questions && q.id == qid && q.status == WaitingForJudge)
  {
    KeyedMatch(s.questions, QuestionKey, qid, WaitingWithId(qid));
  }

  // ------------------------------------------------------------ notification fan-out

  function AvailableAndOnline(s: Store): JudgeInfo -> bool {
    (j: JudgeInfo) => j.isAvailable == Some(true) && IsOnline(s, j.userId)
  }

  /** The recipients of the new-question fan-out: judges that are available and online. */
  function JudgesToNotify(s: Store): (r: seq<Id>)
    ensures forall u :: u in r <==>
              exists j :: j in s.judgeInfo && j.userId == u && j.isAvailable == Some(true) && IsOnline(s, u)
  {
    var rows := Filter(s.judgeInfo, AvailableAndOnline(s));
    var ids := seq(|rows|, i requires 0 <= i < |rows| => rows[i].userId);
    assert forall i :: 0 <= i < |rows| ==> rows[i] in rows;
    assert forall j :: j in rows ==> j.userId in ids by {
      forall j | j in rows
        ensures j.userId in ids
      {
        var i :| 0 <= i < |rows| && rows[i] == j;
        assert ids[i] == j.userId;
      }
    }
    ids
  }

  /** The text of a new-question notification. */
  function NewQuestionText(category: string, title: string): string {
    "New " + category + " question: \"" + title + "\""
  }

  /** `notifyAvailableJudges`: one `new_question` notification per available, online judge.
      A failure here would only be logged; the inserts it issues cannot fail in this store. */
  function NotifyAvailableJudges(s: Store, now: Time, qid: Id, title: string, category: string): (s': Store)
    ensures s'.(notifications := s.notifications, nextId := s.nextId) == s
    ensures |s'.notifications| == |s.notifications| + |JudgesToNotify(s)|
    ensures s'.notifications[..|s.notifications|] == s.notifications
    ensures forall i :: 0 <= i < |JudgesToNotify(s)| ==>
              var n := s'.notifications[|s.notifications| + i];
              n.userId == JudgesToNotify(s)[i] && n.kind == NewQuestionKind
              && n.data == NewQuestionPayload(qid, category, title) && n.read == UnreadOnInsert
    ensures s'.nextId == s.nextId + |JudgesToNotify(s)|
    ensures Valid(s) ==> Valid(s')
  {
    Notifications.Broadcast(s, now, JudgesToNotify(s), NewQuestionTitle, NewQuestionText(category, title),
                            NewQuestionKind, NewQuestionPayload(qid, category, title))
  }

  // ---------------------------------------------------------------------- creation

  /** `createQuestion`: with a caller, inserts one waiting question that times out 8 minutes
      later and fans out notifications; without one, fails and writes nothing. */
  function CreateQuestion(s: Store, caller: Option<Id>, now: Time, input: QuestionInput): (r: Reply<Question>)
    ensures caller.None? <==> r.result.Err?
    ensures caller.None? ==> r.store == s && r.result.error == NotAuthenticated
    ensures r.result.Ok? ==>
              var q := r.result.value;
              && q.id == s.nextId && q.userId == caller.value && q.status == WaitingForJudge
              && q.assignedJudgeId == None && q.timeoutAt == now + QuestionTimeout && q.createdAt == now
              && q.assignedAt == None && q.completedAt == None
              && q.title == input.title && q.content == input.content
              && q.category == input.category && q.imageUrl == input.imageUrl
    ensures r.result.Ok? && Valid(s) ==> forall q :: q in s.questions ==> q.id != r.result.value.id
    ensures r.result.Ok? ==> r.store.questions == s.questions + [r.result.value]
    ensures r.result.Ok? ==> r.store == Announce(s, r.result.value, now)
    ensures Valid(s) ==> Valid(r.store)
    ensures QuestionsEvolve(s, r.store)
  {
    match caller
    case None => Reply(Err(NotAuthenticated), s)
    case Some(uid) =>
      var q := Question(s.nextId, uid, input.title, input.content, input.category, input.imageUrl,
                        WaitingForJudge, None, now, None, None, now + QuestionTimeout);
      Reply(Ok(q), Announce(s, q, now))
  }

  /** The two writes of a successful `createQuestion`: the insert, then the fan-out to the
      judges that were available and online before it. */
  function Announce(s: Store, q: Question, now: Time): (s': Store)
    requires q.id == s.nextId
    ensures s'.questions == s.questions + [q]
    ensures |s'.notifications| == |s.notifications| + |JudgesToNotify(s)|
    ensures s'.notifications[..|s.notifications|] == s.notifications
    ensures forall i :: 0 <= i < |JudgesToNotify(s)| ==>
              var n := s'.notifications[|s.notifications| + i];
              n.userId == JudgesToNotify(s)[i] && n.kind == NewQuestionKind
              && n.data == NewQuestionPayload(q.id, q.category, q.title)
    ensures s'.(questions := s.questions, notifications := s.notifications, nextId := s.nextId) == s
    ensures Valid(s) ==> Valid(s')
    ensures QuestionsEvolve(s, s')
  {
    var s1 := AddQuestion(s, q);
    assert JudgesToNotify(s1) == JudgesToNotify(s) by {
      FilterCongruent(s.judgeInfo, AvailableAndOnline(s1), AvailableAndOnline(s));
    }
    NotifyAvailableJudges(s1, now, q.id, q.title, q.category)
  }

  // ------------------------------------------------------------------------- claim

  function Assign(judgeId: Id, now: Time): Question -> Question {
    (q: Question) => q.(assignedJudgeId := Some(judgeId), assignedAt := Some(now), status := Assigned)
  }

  /** `assignQuestionToJudge`: the single conditional update that claims a question. It
      succeeds exactly when the question is still waiting, whatever its timeout, and then
      records the judge and the time; otherwise it fails and changes nothing. */
  function AssignQuestionToJudge(s: Store, now: Time, qid: Id, judgeId: Id): (r: Reply<Question>)
    ensures r.result.Ok? <==> ClaimOpen(s, qid)
    ensures Valid(s) ==> (r.result.Ok? <==> exists q :: q in s.questions && q.id == qid && q.status == WaitingForJudge)
    ensures r.result.Err? ==> r.store == s
    ensures r.result.Ok? ==>
              r.result.value
              == ClaimTarget(s, qid).(assignedJudgeId := Some(judgeId), assignedAt := Some(now), status := Assigned)
    ensures r.result.Ok? ==> r.result.value in r.store.questions
    ensures r.store.(questions := s.questions) == s
    ensures |r.store.questions| == |s.questions|
    ensures forall i :: 0 <= i < |s.questions| && (s.questions[i].id != qid || s.questions[i].status != WaitingForJudge) ==>
              r.store.questions[i] == s.questions[i]
    ensures r.result.Ok? ==> NoneWaiting(r.store, qid)
    ensures Valid(s) ==> Valid(r.store)
    ensures QuestionsEvolve(s, r.store)
  {
    ClaimOpenIff(s, qid);
    UpdateQuestion(s, WaitingWithId(qid), Assign(judgeId, now))
  }

  // ------------------------------------------------------------------------ accept

  function SetInProgress(q: Question): Question {
    q.(status := InProgress)
  }

  /** `acceptQuestion`: claim, then open the conversation, post the judge's greeting, and mark
      the question in progress. A lost claim fails before anything is written; a conversation
      insert that fails after a won claim leaves the question assigned. */
  function AcceptQuestion(s: Store, caller: Option<Id>, now: Time, qid: Id): (r: Reply<Conversation>)
    ensures caller.None? ==> r == Reply(Err(NotAuthenticated), s)
    ensures caller.Some? && !ClaimOpen(s, qid) ==> r == Reply(Err(ClaimLost), s)
    ensures r.result.Ok? <==> caller.Some? && ClaimOpen(s, qid) && !HasConversationFor(s, qid)
    ensures caller.Some? && ClaimOpen(s, qid) && HasConversationFor(s, qid) ==>
              r == Reply(Err(UniqueViolation), AssignQuestionToJudge(s, now, qid, caller.value).store)
    ensures r.result.Ok? ==>
              var c := r.result.value;
              && c.questionId == qid && c.userId == ClaimTarget(s, qid).userId && c.judgeId == caller.value
              && c.status == Active && c.startedAt == now && c.endedAt == None
              && r.store.conversations == s.conversations + [c]
    ensures r.result.Ok? ==>
              && |r.store.messages| == |s.messages| + 1
              && r.store.messages[..|s.messages|] == s.messages
              && var m := r.store.messages[|s.messages|];
                 m.conversationId == r.result.value.id && m.senderId == caller.value
                 && m.messageType == System && m.content == Some(JoinGreeting)
    ensures r.result.Ok? ==> forall q :: q in r.store.questions && q.id == qid ==> q.status == InProgress
    ensures r.result.Ok? ==>
              ClaimTarget(s, qid).(assignedJudgeId := Some(caller.value), assignedAt := Some(now), status := InProgress)
              in r.store.questions
    ensures r.store.(questions := s.questions, conversations := s.conversations, messages := s.messages,
                     nextId := s.nextId) == s
    ensures |r.store.questions| == |s.questions|
    ensures forall i :: 0 <= i < |s.questions| && s.questions[i].id != qid ==> r.store.questions[i] == s.questions[i]
    ensures Valid(s) ==> Valid(r.store)
    ensures QuestionsEvolve(s, r.store)
    ensures caller.Some? && ClaimOpen(s, qid) ==> NoneWaiting(r.store, qid)
  {
    match caller
    case None => Reply(Err(NotAuthenticated), s)
    case Some(uid) =>
      var claim := AssignQuestionToJudge(s, now, qid, uid);
      if claim.result.Err? then Reply(Err(ClaimLost), s)
      else
        var question := claim.result.value;
        var s1 := claim.store;
        var c := Conversation(s1.nextId, qid, question.userId, uid, Active, now, None, now);
        assert HasConversationFor(s1, qid) == HasConversationFor(s, qid);
        match AddConversation(s1, c)
        case Err(e) => Reply(Err(e), s1)
        case Ok(s2) =>
          var m := Message(s2.nextId, c.id, uid, Some(JoinGreeting), System, None, now, None);
          var s3 := AddMessage(s2, m);
          var s4 := UpdateQuestions(s3, QuestionWithId(qid), SetInProgress);
          InProgressRows(s3.questions, qid);
          assert SetInProgress(question) in s4.questions by {
            var i :| 0 <= i < |s1.questions| && s1.questions[i] == question;
            assert s4.questions[i] == SetInProgress(question);
          }
          assert QuestionsEvolve(s1, s4);
          QuestionsEvolveTransitive(s, s1, s4);
          Reply(Ok(c), s4)
  }

  /** Marking in progress rewrites exactly the rows with the id and leaves none of them
      waiting. */
  lemma InProgressRows(qs: seq<Question>, qid: Id)
    ensures var out := UpdateWhere(qs, QuestionWithId(qid), SetInProgress);
            && |out| == |qs|
            && (forall i :: 0 <= i < |qs| && qs[i].id != qid ==> out[i] == qs[i])
            && (forall q :: q in out && q.id == qid ==> q.status == InProgress)
            && (forall q :: q in out && q.status == WaitingForJudge ==> q in qs)
  {
    var out := UpdateWhere(qs, QuestionWithId(qid), SetInProgress);
    forall q | q in out
      ensures q.id == qid ==> q.status == InProgress
      ensures q.status == WaitingForJudge ==> q in qs
    {
      var i :| 0 <= i < |out| && out[i] == q;
      assert qs[i] in qs;
    }
  }

  // ---------------------------------------------------------------------- listings

  /** `getMyQuestions`: the caller's questions, newest first. */
  function GetMyQuestions(s: Store, caller: Option<Id>): (r: Result<seq<Question>, Error>)
    ensures caller.None? <==> r.Err?
    ensures r.Err? ==> r.error == NotAuthenticated
    ensures r.Ok? ==> forall q :: q in r.value <==> q in s.questions && q.userId == caller.value
    ensures r.Ok? ==> SortedBy(r.value, NewestFirst)
    ensures r.Ok? ==> multiset(r.value) == multiset(Filter(s.questions, ByAuthor(caller.value)))
  {
    match caller
    case None => Err(NotAuthenticated)
    case Some(uid) => Ok(SortBy(Filter(s.questions, ByAuthor(uid)), NewestFirst))
  }

  /** The caller may list claimable questions: exactly one profile, with role judge or admin. */
  predicate MayListQuestions(s: Store, uid: Id) {
    RoleOf(s, uid) == Some(Judge) || RoleOf(s, uid) == Some(Admin)
  }

  /** `getAvailableQuestions`, as written: waiting questions whose timeout is already in the
      past (`timeout_at < now`), oldest first, for judges and admins only. */
  function GetAvailableQuestions(s: Store, caller: Option<Id>, now: Time): (r: Result<seq<Question>, Error>)
    ensures caller.None? ==> r == Err(NotAuthenticated)
    ensures caller.Some? ==> (r.Ok? <==> MayListQuestions(s, caller.value))
    ensures caller.Some? && r.Err? ==> r.error == NotAJudge
    ensures r.Ok? ==> forall q :: q in r.value <==> q in s.questions && q.status == WaitingForJudge && q.timeoutAt < now
    ensures r.Ok? ==> SortedBy(r.value, OldestFirst)
    ensures r.Ok? ==> multiset(r.value) == multiset(Filter(s.questions, WaitingAndExpired(now)))
  {
    match caller
    case None => Err(NotAuthenticated)
    case Some(uid) =>
      if !MayListQuestions(s, uid) then Err(NotAJudge)
      else Ok(SortBy(Filter(s.questions, WaitingAndExpired(now)), OldestFirst))
  }

  /** Every question the claimable listing returns has already timed out: the filter selects
      the opposite of the "not timed out yet" its comment announces. */
  lemma AvailableQuestionsAreExpired(s: Store, uid: Id, now: Time)
    requires GetAvailableQuestions(s, Some(uid), now).Ok?
    ensures forall q :: q in GetAvailableQuestions(s, Some(uid), now).value ==> now > q.timeoutAt
  {
  }

  /** The claimable filter that the comment describes: waiting and not yet timed out. */
  function WaitingAndLive(now: Time): Question -> bool {
    (q: Question) => q.status == WaitingForJudge && now < q.timeoutAt
  }

  /** `getAvailableQuestions` with the comparison the comment intends (`gt('timeout_at', now)`). */
  function GetLiveQuestions(s: Store, caller: Option<Id>, now: Time): (r: Result<seq<Question>, Error>)
    ensures caller.None? ==> r == Err(NotAuthenticated)
    ensures caller.Some? ==> (r.Ok? <==> MayListQuestions(s, caller.value))
    ensures r.Ok? ==> forall q :: q in r.value <==> q in s.questions && q.status == WaitingForJudge && now < q.timeoutAt
    ensures r.Ok? ==> SortedBy(r.value, OldestFirst)
    ensures r.Ok? ==> multiset(r.value) == multiset(Filter(s.questions, WaitingAndLive(now)))
  {
    match caller
    case None => Err(NotAuthenticated)
    case Some(uid) =>
      if !MayListQuestions(s, uid) then Err(NotAJudge)
      else Ok(SortBy(Filter(s.questions, WaitingAndLive(now)), OldestFirst))
  }

  /** A question just created is invisible to the as-written listing for its whole 8-minute
      window, while the intended listing shows it throughout that window. */
  lemma NewQuestionHiddenWhileLive(s: Store, author: Id, judge: Id, now: Time, input: QuestionInput, t: Time)
    requires MayListQuestions(s, judge)
    requires now <= t < now + QuestionTimeout
    ensures var c := CreateQuestion(s, Some(author), now, input);
            && c.result.value !in GetAvailableQuestions(c.store, Some(judge), t).value
            && c.result.value in GetLiveQuestions(c.store, Some(judge), t).value
  {
    var c := CreateQuestion(s, Some(author), now, input);
    assert c.store.profiles == s.profiles;
    assert RoleOf(c.store, judge) == RoleOf(s, judge);
    assert c.result.value in c.store.questions;
  }

  // -------------------------------------------------------------------- completion

  function Complete(now: Time): Question -> Question {
    (q: Question) => q.(status := Completed, completedAt := Some(now))
  }

  /** `completeQuestion`: marks the question completed from whatever status it had. */
  function CompleteQuestion(s: Store, now: Time, qid: Id): (r: Reply<Question>)
    ensures r.result.Ok? <==> |Filter(s.questions, QuestionWithId(qid))| == 1
    ensures Valid(s) ==> (r.result.Ok? <==> exists q :: q in s.questions && q.id == qid)
    ensures r.result.Err? ==> r.store == s
    ensures r.result.Ok? ==>
              exists q :: q in s.questions && q.id == qid && r.result.value == q.(status := Completed, completedAt := Some(now))
    ensures r.result.Ok? ==> forall q :: q in r.store.questions && q.id == qid ==> q.status == Completed
    ensures r.store.(questions := s.questions) == s
    ensures |r.store.questions| == |s.questions|
    ensures forall i :: 0 <= i < |s.questions| && s.questions[i].id != qid ==> r.store.questions[i] == s.questions[i]
    ensures Valid(s) ==> Valid(r.store)
    ensures QuestionsEvolve(s, r.store)
  {
    KeyedMatch(s.questions, QuestionKey, qid, QuestionWithId(qid));
    CompletedRows(s.questions, qid, now);
    var r := UpdateQuestion(s, QuestionWithId(qid), Complete(now));
    assert r.result.Ok? ==> Filter(s.questions, QuestionWithId(qid))[0] in s.questions by {
      if r.result.Ok? {
        assert Filter(s.questions, QuestionWithId(qid))[0] in Filter(s.questions, QuestionWithId(qid));
      }
    }
    r
  }

  /** Completing rewrites exactly the rows with the id, each to a completed row. */
  lemma CompletedRows(qs: seq<Question>, qid: Id, now: Time)
    ensures var out := UpdateWhere(qs, QuestionWithId(qid), Complete(now));
            && (forall q :: q in out && q.id == qid ==> q.status == Completed)
            && (forall i :: 0 <= i < |qs| && qs[i].id != qid ==> out[i] == qs[i])
            && (forall q :: q in out && q.status == WaitingForJudge ==> q in qs)
  {
    var out := UpdateWhere(qs, QuestionWithId(qid), Complete(now));
    forall q | q in out
      ensures q.id == qid ==> q.status == Completed
      ensures q.status == WaitingForJudge ==> q in qs
    {
      var i :| 0 <= i < |out| && out[i] == q;
      assert qs[i] in qs;
    }
  }

  /** Completing a question nobody claimed leaves a completed question with no judge: there
      is no status guard on completion. */
  lemma CompleteWithoutJudge(s: Store, now: Time, q: Question)
    requires Valid(s)
    requires q in s.questions && q.status == WaitingForJudge && q.assignedJudgeId == None
    ensures var r := CompleteQuestion(s, now, q.id);
            && r.result.Ok?
            && r.result.value.status == Completed && r.result.value.assignedJudgeId == None
  {
    var r := CompleteQuestion(s, now, q.id);
    UniqueMatchExact(s.questions, QuestionKey, q.id, QuestionWithId(q.id), q);
  }

  /** The claim ignores `timeout_at`: an expired waiting question can still be claimed. */
  lemma AssignIgnoresTimeout(s: Store, now: Time, q: Question, judge: Id)
    requires Valid(s)
    requires q in s.questions && q.status == WaitingForJudge && q.timeoutAt < now
    ensures AssignQuestionToJudge(s, now, q.id, judge).result.Ok?
  {
  }
}
