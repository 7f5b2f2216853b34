/** Any interleaving of the service calls: a trace of operations run one after another on the
    store. Two promises of the design hold whatever the interleaving: a question is claimed by
    at most one judge (the conditional assignment in lib/questions.ts), and a conversation is
    rated at most once (the one-to-one rating relationship in types/database.ts). */
module Lifecycle {
  import opened Wrappers
  import opened Schema
  import opened Tables
  import Questions
  import Conversations
  import Ratings
  import Notifications
  import Judges

  /** One service call, with its caller, clock reading and arguments. */
  datatype Op =
    | Ask(caller: Option<Id>, now: Time, input: Questions.QuestionInput)
    | Claim(now: Time, qid: Id, judge: Id)
    | Accept(caller: Option<Id>, now: Time, qid: Id)
    | Finish(now: Time, qid: Id)
    | Send(caller: Option<Id>, now: Time, cid: Id, content: string, messageType: Conversations.ChatType,
           imageUrl: Option<string>)
    | EndChat(now: Time, cid: Id)
    | Rate(caller: Option<Id>, now: Time, cid: Id, score: int, isAccepted: bool, feedback: Option<string>)
    | Notify(now: Time, uid: Id, title: string, content: string, kind: string, payload: Payload)
    | Read(nid: Id)
    | ReadAll(caller: Option<Id>)
    | SetAvailability(caller: Option<Id>, isAvailable: bool)
    | EditProfile(caller: Option<Id>, updates: Judges.ProfileUpdates)
    | BecomeJudge(now: Time, uid: Id, judgeData: Judges.JudgeData)

  /** The ratings table only grows. */
  predicate RatingsGrow(a: Store, b: Store) {
    a.ratings <= b.ratings
  }

  /** A successful rating moves no question back to waiting and issues fresh ids. */
  lemma RatingEvolves(s: Store, caller: Option<Id>, now: Time, cid: Id, score: int, isAccepted: bool,
                      feedback: Option<string>)
    ensures Questions.QuestionsEvolve(s, Ratings.SubmitRating(s, caller, now, cid, score, isAccepted, feedback).store)
  {
    var r := Ratings.SubmitRating(s, caller, now, cid, score, isAccepted, feedback);
    if r.result.Ok? {
      var s1 := s.(ratings := s.ratings + [r.result.value], nextId := s.nextId + 1);
      var c := Ratings.Rated(s, cid).value;
      assert r.store == Ratings.FollowUp(s1, now, c, caller.value, score, isAccepted, feedback);
      SettlingKeepsWaiting(s.questions, r.store.questions, c.questionId,
                           if isAccepted then Completed else QuestionStatus.Disputed, now);
    }
  }

  /** Row-level reading of the settling write: the rows it touches leave waiting, so every
      waiting row afterwards was there before. */
  lemma SettlingKeepsWaiting(qs: seq<Question>, out: seq<Question>, qid: Id, status: QuestionStatus, now: Time)
    requires status != WaitingForJudge
    requires |out| == |qs|
    requires forall i :: 0 <= i < |qs| ==>
               out[i] == if qs[i].id == qid then qs[i].(status := status, completedAt := Some(now)) else qs[i]
    ensures forall q :: q in out && q.status == WaitingForJudge ==> q in qs
  {
    forall q | q in out && q.status == WaitingForJudge
      ensures q in qs
    {
      var i :| 0 <= i < |out| && out[i] == q;
      assert qs[i] in qs;
    }
  }

  /** The store after one call. */
  function Step(s: Store, op: Op): (r: Store)
    ensures Valid(s) ==> Valid(r)
    ensures Questions.QuestionsEvolve(s, r)
    ensures RatingsGrow(s, r)
  {
    match op
    case Ask(caller, now, input) => Questions.CreateQuestion(s, caller, now, input).store
    case Claim(now, qid, judge) => Questions.AssignQuestionToJudge(s, now, qid, judge).store
    case Accept(caller, now, qid) => Questions.AcceptQuestion(s, caller, now, qid).store
    case Finish(now, qid) => Questions.CompleteQuestion(s, now, qid).store
    case Send(caller, now, cid, content, kind, imageUrl) =>
      Conversations.SendMessage(s, caller, now, cid, content, kind, imageUrl).store
    case EndChat(now, cid) => Conversations.EndConversation(s, now, cid).store
    case Rate(caller, now, cid, score, isAccepted, feedback) =>
      RatingEvolves(s, caller, now, cid, score, isAccepted, feedback);
      Ratings.SubmitRating(s, caller, now, cid, score, isAccepted, feedback).store
    case Notify(now, uid, title, content, kind, data) =>
      Notifications.CreateNotification(s, now, uid, title, content, kind, data).store
    case Read(nid) => Notifications.MarkAsRead(s, nid).store
    case ReadAll(caller) => Notifications.MarkAllAsRead(s, caller).store
    case SetAvailability(caller, isAvailable) => Judges.UpdateJudgeAvailability(s, caller, isAvailable).store
    case EditProfile(caller, updates) => Judges.UpdateJudgeProfile(s, caller, updates).store
    case BecomeJudge(now, uid, data) => Judges.CreateJudgeProfile(s, now, uid, data).store
  }

  /** The store after a whole trace. */
  function Run(s: Store, ops: seq<Op>): (r: Store)
    ensures Valid(s) ==> Valid(r)
    ensures Questions.QuestionsEvolve(s, r)
    ensures RatingsGrow(s, r)
    decreases |ops|
  {
    if |ops| == 0 then s
    else
      var s' := Step(s, ops[0]);
      var r := Run(s', ops[1..]);
      Questions.QuestionsEvolveTransitive(s, s', r);
      r
  }

  /** The call's conditional assignment of `qid` goes through: a direct claim, or the claim
      inside an accept by a signed-in judge. */
  predicate Wins(s: Store, op: Op, qid: Id) {
    match op
    case Claim(_, q, _) => q == qid && Questions.ClaimOpen(s, qid)
    case Accept(caller, _, q) => caller.Some? && q == qid && Questions.ClaimOpen(s, qid)
    case _ => false
  }

  /** The judge a winning call records. */
  function Claimant(op: Op): Id
    requires op.Claim? || (op.Accept? && op.caller.Some?)
  {
    if op.Claim? then op.judge else op.caller.value
  }

  /** A winning call leaves the question assigned to its judge and no longer waiting. */
  lemma WinRecordsJudge(s: Store, op: Op, qid: Id)
    requires Wins(s, op, qid)
    ensures exists q :: q in Step(s, op).questions && q.id == qid && q.assignedJudgeId == Some(Claimant(op))
    ensures Questions.NoneWaiting(Step(s, op), qid)
  {
    var t := Questions.ClaimTarget(s, qid);
    if op.Claim? {
      var r := Questions.AssignQuestionToJudge(s, op.now, qid, op.judge);
      assert r.result.value in Step(s, op).questions;
    } else {
      var r := Questions.AcceptQuestion(s, op.caller, op.now, qid);
      if r.result.Ok? {
        assert t.(assignedJudgeId := Some(op.caller.value), assignedAt := Some(op.now), status := InProgress)
               in Step(s, op).questions;
      } else {
        var claim := Questions.AssignQuestionToJudge(s, op.now, qid, op.caller.value);
        assert claim.result.value in Step(s, op).questions;
      }
    }
  }

  /** How many calls of the trace win the claim on `qid`. */
  function WinCount(s: Store, ops: seq<Op>, qid: Id): (n: nat)
    ensures n <= |ops|
    decreases |ops|
  {
    if |ops| == 0 then 0
    else (if Wins(s, ops[0], qid) then 1 else 0) + WinCount(Step(s, ops[0]), ops[1..], qid)
  }

  /** The question was claimed: an issued id with no waiting row. */
  predicate Claimed(s: Store, qid: Id) {
    qid < s.nextId && Questions.NoneWaiting(s, qid)
  }

  /** Once claimed, a question never waits again and no later call wins it. */
  lemma {:induction false} ClaimedStaysClaimed(s: Store, ops: seq<Op>, qid: Id)
    requires Claimed(s, qid)
    ensures WinCount(s, ops, qid) == 0
    ensures Claimed(Run(s, ops), qid)
    decreases |ops|
  {
    if |ops| > 0 {
      var s' := Step(s, ops[0]);
      if Questions.ClaimOpen(s, qid) {
        var t := Questions.ClaimTarget(s, qid);
        assert false;
      }
      assert Claimed(s', qid);
      ClaimedStaysClaimed(s', ops[1..], qid);
    }
  }

  /** At most one call of any trace wins the claim on a question. */
  lemma {:induction false} AtMostOneClaim(s: Store, ops: seq<Op>, qid: Id)
    requires Valid(s)
    ensures WinCount(s, ops, qid) <= 1
    decreases |ops|
  {
    if |ops| > 0 {
      var s' := Step(s, ops[0]);
      if Wins(s, ops[0], qid) {
        var t := Questions.ClaimTarget(s, qid);
        assert t in s.questions;
        WinRecordsJudge(s, ops[0], qid);
        ClaimedStaysClaimed(s', ops[1..], qid);
      } else {
        AtMostOneClaim(s', ops[1..], qid);
      }
    }
  }

  /** The call stores a rating of `cid`. */
  predicate RatesNow(s: Store, op: Op, cid: Id) {
    op.Rate? && op.cid == cid
    && Ratings.SubmitRating(s, op.caller, op.now, cid, op.score, op.isAccepted, op.feedback).result.Ok?
  }

  /** How many calls of the trace store a rating of `cid`. */
  function RatingCount(s: Store, ops: seq<Op>, cid: Id): (n: nat)
    ensures n <= |ops|
    decreases |ops|
  {
    if |ops| == 0 then 0
    else (if RatesNow(s, ops[0], cid) then 1 else 0) + RatingCount(Step(s, ops[0]), ops[1..], cid)
  }

  /** Once rated, a conversation stays rated and no later call rates it again. */
  lemma {:induction false} RatedStaysRated(s: Store, ops: seq<Op>, cid: Id)
    requires HasRatingFor(s, cid)
    ensures RatingCount(s, ops, cid) == 0
    ensures HasRatingFor(Run(s, ops), cid)
    decreases |ops|
  {
    if |ops| > 0 {
      var s' := Step(s, ops[0]);
      assert HasRatingFor(s', cid) by {
        var i :| 0 <= i < |s.ratings| && s.ratings[i].conversationId == cid;
        assert s'.ratings[i] == s.ratings[i];
      }
      RatedStaysRated(s', ops[1..], cid);
    }
  }

  /** At most one call of any trace stores a rating of a conversation. */
  lemma {:induction false} AtMostOneRating(s: Store, ops: seq<Op>, cid: Id)
    ensures RatingCount(s, ops, cid) <= 1
    decreases |ops|
  {
    if |ops| > 0 {
      var op := ops[0];
      var s' := Step(s, op);
      if RatesNow(s, op, cid) {
        var r := Ratings.SubmitRating(s, op.caller, op.now, cid, op.score, op.isAccepted, op.feedback);
        assert s'.ratings[|s.ratings|] == r.result.value;
        RatedStaysRated(s', ops[1..], cid);
      } else {
        AtMostOneRating(s', ops[1..], cid);
      }
    }
  }
}
