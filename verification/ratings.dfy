/** The rating pipeline (lib/ratings.ts): a user rates a conversation once; an accepted rating
    rewards the judge with points and recomputes the judge's aggregates from the whole
    history, a rejected one opens a dispute and tells the admins; either way the question is
    settled. */
module Ratings {
  import opened Wrappers
  import opened Schema
  import opened Seqs
  import opened Tables
  import opened Text
  import Notifications
  import Questions
  import Conversations
  import Judges

  /** Points per star of an accepted rating. */
  const PointsPerStar: int := 10

  const DisputeTitle: string := "New Dispute"
  const DisputeContent: string := "A user has disputed a judge's ruling. Review required."
  const DisputeKind: string := "dispute"

  // ------------------------------------------------------------------ sums

  function SumScores(rs: seq<Rating>): int
    decreases |rs|
  {
    if rs == [] then 0 else SumScores(rs[..|rs| - 1]) + rs[|rs| - 1].score
  }

  /** The points the rewards in `ws` give the judge `uid`. */
  function EarnedIn(ws: seq<Reward>, uid: Id): int
    decreases |ws|
  {
    if ws == [] then 0
    else EarnedIn(ws[..|ws| - 1], uid) + (if ws[|ws| - 1].judgeId == uid then ws[|ws| - 1].pointsEarned else 0)
  }

  lemma SumScoresSnoc(rs: seq<Rating>, x: Rating)
    ensures SumScores(rs + [x]) == SumScores(rs) + x.score
  {
    assert (rs + [x])[..|rs + [x]| - 1] == rs;
  }

  /** The points a judge has been awarded: the sum over the judge's reward rows. */
  function Earned(s: Store, uid: Id): int {
    EarnedIn(s.rewards, uid)
  }

  /** Every judge_info row's `total_points` (null read as 0) equals what the rewards table
      says the judge earned. */
  predicate Balanced(s: Store) {
    forall j :: j in s.judgeInfo ==> j.totalPoints.GetOr(0) == Earned(s, j.userId)
  }

  /** The judge's accepted ratings whose conversation exists: the rows `updateJudgeStats`
      reads (`eq('judge_id').eq('is_accepted', true)` with the inner join on conversations). */
  function History(s: Store, uid: Id): (r: seq<Rating>)
    ensures forall x :: x in r <==>
              x in s.ratings && x.judgeId == uid && x.isAccepted && HasConversation(s, x.conversationId)
  {
    Filter(s.ratings, Judges.ListedRating(s, uid))
  }

  /** `started_at` of the conversation a rating joins to. */
  function StartOf(s: Store, cid: Id): Time
    requires HasConversation(s, cid)
  {
    var rows := Filter(s.conversations, Conversations.ConversationWithId(cid));
    assert |rows| > 0 by {
      var i :| 0 <= i < |s.conversations| && s.conversations[i].id == cid;
      assert s.conversations[i] in rows;
    }
    rows[0].startedAt
  }

  /** The sum over ratings of the time from the conversation's start to the rating. */
  function SumResponse(s: Store, rs: seq<Rating>): int
    requires forall x :: x in rs ==> HasConversation(s, x.conversationId)
    decreases |rs|
  {
    if rs == [] then 0
    else
      var x := rs[|rs| - 1];
      assert x in rs;
      SumResponse(s, rs[..|rs| - 1]) + (x.createdAt as int - StartOf(s, x.conversationId) as int)
  }

  /** Integer division by a positive divisor does not make a non-negative value negative. */
  lemma DivNonNegative(a: int, d: int)
    requires d > 0
    ensures a >= 0 ==> a / d >= 0
  {
  }

  /** `Math.floor(mean / 1000)` for the mean of `count` millisecond values summing to `total`:
      the whole seconds of the mean, rounded down. */
  function MeanSeconds(total: int, count: nat): (secs: int)
    requires count > 0
    ensures secs * (1000 * count) <= total < secs * (1000 * count) + 1000 * count
    ensures total >= 0 ==> secs >= 0
  {
    var d := 1000 * count;
    DivNonNegative(total, d);
    total / d
  }

  // ---------------------------------------------------------------- points

  /** The `reason` text of a reward. */
  /** The points a rating of `score` stars earns. */
  function PointsFor(score: int): int {
    PointsPerStar * score
  }

  function RewardReason(score: int): string {
    "Question answered successfully (" + IntToString(score) + "/5 stars)"
  }

  function AddPoints(points: int): JudgeInfo -> JudgeInfo {
    (j: JudgeInfo) => j.(totalPoints := Some(j.totalPoints.GetOr(0) + points))
  }

  /** The second write of `awardPointsToJudge`: if the judge's row reads back as a single row,
      its total is raised by `points` (a null total counts as 0); otherwise nothing changes. */
  function Credit(s: Store, judgeId: Id, points: int): (s': Store)
    ensures s'.(judgeInfo := s.judgeInfo) == s
    ensures |s'.judgeInfo| == |s.judgeInfo|
    ensures forall i :: 0 <= i < |s.judgeInfo| ==>
              s'.judgeInfo[i].(totalPoints := s.judgeInfo[i].totalPoints) == s.judgeInfo[i]
    ensures forall i :: 0 <= i < |s.judgeInfo| && s.judgeInfo[i].userId != judgeId ==>
              s'.judgeInfo[i] == s.judgeInfo[i]
    ensures Valid(s) ==> forall i :: 0 <= i < |s.judgeInfo| && s.judgeInfo[i].userId == judgeId ==>
              s'.judgeInfo[i].totalPoints == Some(s.judgeInfo[i].totalPoints.GetOr(0) + points)
    ensures Valid(s) ==> Valid(s')
  {
    var row := Single(Filter(s.judgeInfo, Judges.InfoOf(judgeId)));
    match row
    case Ok(_) =>
      CreditedRows(s.judgeInfo, judgeId, points);
      UpdateJudgeInfos(s, Judges.InfoOf(judgeId), AddPoints(points))
    case Err(_) =>
      if Valid(s) then NoRowUnlessSingle(s.judgeInfo, judgeId); s else s
  }

  /** Row-level reading of the points write: only the judge's rows change, and only their
      total, which grows by `points`. */
  lemma CreditedRows(rows: seq<JudgeInfo>, judgeId: Id, points: int)
    ensures var out := UpdateWhere(rows, Judges.InfoOf(judgeId), AddPoints(points));
            && |out| == |rows|
            && (forall i :: 0 <= i < |rows| ==> out[i].(totalPoints := rows[i].totalPoints) == rows[i])
            && (forall i :: 0 <= i < |rows| && rows[i].userId != judgeId ==> out[i] == rows[i])
            && (forall i :: 0 <= i < |rows| && rows[i].userId == judgeId ==>
                  out[i].totalPoints == Some(rows[i].totalPoints.GetOr(0) + points))
  {
  }

  /** Under the one-row-per-user constraint, a user whose row does not read back as a single
      row has no row at all. */
  lemma NoRowUnlessSingle(rows: seq<JudgeInfo>, uid: Id)
    requires KeysDistinct(rows, JudgeInfoUser)
    requires |Filter(rows, Judges.InfoOf(uid))| != 1
    ensures forall i :: 0 <= i < |rows| ==> rows[i].userId != uid
  {
    KeyedMatch(rows, JudgeInfoUser, uid, Judges.InfoOf(uid));
    forall i | 0 <= i < |rows|
      ensures rows[i].userId != uid
    {
      assert rows[i] in rows;
    }
  }

  /** `awardPointsToJudge`: one reward row of ten points per star, then the judge's total
      raised by the same amount. Neither write is checked. */
  function AwardPoints(s: Store, now: Time, judgeId: Id, cid: Id, score: int): (s': Store)
    ensures |s'.rewards| == |s.rewards| + 1 && s'.rewards[..|s.rewards|] == s.rewards
    ensures var w := s'.rewards[|s.rewards|];
            && w.judgeId == judgeId && w.pointsEarned == PointsFor(score) && w.conversationId == Some(cid)
            && w.reason == RewardReason(score) && w.createdAt == now
            && (1 <= score <= 5 ==> 10 <= w.pointsEarned <= 50)
    ensures |s'.judgeInfo| == |s.judgeInfo|
    ensures forall i :: 0 <= i < |s.judgeInfo| ==>
              s'.judgeInfo[i].(totalPoints := s.judgeInfo[i].totalPoints) == s.judgeInfo[i]
    ensures forall i :: 0 <= i < |s.judgeInfo| && s.judgeInfo[i].userId != judgeId ==>
              s'.judgeInfo[i] == s.judgeInfo[i]
    ensures Valid(s) ==> forall i :: 0 <= i < |s.judgeInfo| && s.judgeInfo[i].userId == judgeId ==>
              s'.judgeInfo[i].totalPoints == Some(s.judgeInfo[i].totalPoints.GetOr(0) + PointsFor(score))
    ensures s'.(rewards := s.rewards, judgeInfo := s.judgeInfo, nextId := s.nextId) == s
    ensures Valid(s) ==> Valid(s')
  {
    var points := PointsFor(score);
    var s1 := AddReward(s, Reward(s.nextId, judgeId, points, RewardReason(score), Some(cid), now));
    assert s1.judgeInfo == s.judgeInfo;
    Credit(s1, judgeId, points)
  }

  /** Awarding points keeps every judge's total equal to the sum of the judge's rewards. */
  lemma AwardPointsBalanced(s: Store, now: Time, judgeId: Id, cid: Id, score: int)
    requires Valid(s) && Balanced(s)
    ensures Balanced(AwardPoints(s, now, judgeId, cid, score))
  {
    var s' := AwardPoints(s, now, judgeId, cid, score);
    var w := s'.rewards[|s.rewards|];
    assert s'.rewards == s.rewards + [w];
    CreditBalanced(s, s', w, judgeId, PointsFor(score));
  }

  /** One reward row, and its points added to the total of its judge's row and no other,
      keep the ledger balanced. */
  lemma CreditBalanced(s: Store, s': Store, w: Reward, judgeId: Id, points: int)
    requires Balanced(s)
    requires s'.rewards == s.rewards + [w] && w.judgeId == judgeId && w.pointsEarned == points
    requires |s'.judgeInfo| == |s.judgeInfo|
    requires forall i :: 0 <= i < |s.judgeInfo| ==>
               s'.judgeInfo[i].(totalPoints := s.judgeInfo[i].totalPoints) == s.judgeInfo[i]
    requires forall i :: 0 <= i < |s.judgeInfo| && s.judgeInfo[i].userId != judgeId ==>
               s'.judgeInfo[i] == s.judgeInfo[i]
    requires forall i :: 0 <= i < |s.judgeInfo| && s.judgeInfo[i].userId == judgeId ==>
               s'.judgeInfo[i].totalPoints == Some(s.judgeInfo[i].totalPoints.GetOr(0) + points)
    ensures Balanced(s')
  {
    forall i | 0 <= i < |s'.judgeInfo|
      ensures s'.judgeInfo[i].totalPoints.GetOr(0) == Earned(s', s'.judgeInfo[i].userId)
    {
      var uid := s.judgeInfo[i].userId;
      assert s.judgeInfo[i] in s.judgeInfo;
      EarnedSnoc(s, s', w, uid);
      CreditRow(Earned(s, uid), Earned(s', uid), w, s.judgeInfo[i], s'.judgeInfo[i]);
    }
  }

  /** One judge row after the credit, against the same row before it, given how the judge's
      earnings moved from `earned` to `earned'`. */
  lemma CreditRow(earned: int, earned': int, w: Reward, before: JudgeInfo, after: JudgeInfo)
    requires earned' == earned + (if w.judgeId == after.userId then w.pointsEarned else 0)
    requires before.totalPoints.GetOr(0) == earned
    requires after.userId == before.userId
    requires after.userId != w.judgeId ==> after.totalPoints == before.totalPoints
    requires after.userId == w.judgeId ==> after.totalPoints == Some(before.totalPoints.GetOr(0) + w.pointsEarned)
    ensures after.totalPoints.GetOr(0) == earned'
  {
  }

  /** A new reward row adds its points to its judge's earnings and nothing to anyone else's. */
  lemma EarnedSnoc(s: Store, s': Store, w: Reward, uid: Id)
    requires s'.rewards == s.rewards + [w]
    ensures Earned(s', uid) == Earned(s, uid) + (if w.judgeId == uid then w.pointsEarned else 0)
  {
    assert s'.rewards[..|s'.rewards| - 1] == s.rewards;
  }


  // ----------------------------------------------------------------- stats

  /** A judge row's count and mean agree with `count` ratings whose scores sum to `scoreSum`. */
  predicate Agrees(j: JudgeInfo, count: nat, scoreSum: int) {
    && j.totalQuestionsAnswered == Some(count)
    && j.averageRating.Some?
    && j.averageRating.value * (count as real) == scoreSum as real
  }

  /** ... and its response time reads back as the whole seconds of the mean of response times
      summing to `responseSum` milliseconds, when that sum is not negative. */
  predicate Reflects(j: JudgeInfo, count: nat, scoreSum: int, responseSum: int) {
    && Agrees(j, count, scoreSum)
    && j.averageResponseTime.Some?
    && (responseSum >= 0 ==>
          && ParseInterval(j.averageResponseTime.value).Some?
          && var secs := ParseInterval(j.averageResponseTime.value).value;
             secs * (1000 * count) <= responseSum < secs * (1000 * count) + 1000 * count)
  }

  /** A mean times the count gives back the sum. */
  lemma MeanTimesCount(sum: int, count: nat)
    requires count > 0
    ensures (sum as real / count as real) * (count as real) == sum as real
  {
  }

  /** A non-negative number of seconds, rendered, reads back as itself. */
  lemma IntervalReadBack(secs: int)
    requires secs >= 0
    ensures ParseInterval(FormatInterval(secs)) == Some(secs)
  {
    FormatIntervalFields(secs);
  }

  /** A judge row with the aggregates of `count` ratings, as `updateJudgeStats` computes them:
      the exact mean score, the count, and the rendered whole seconds of the mean response. */
  function WithStats(j: JudgeInfo, count: nat, scoreSum: int, responseSum: int): (j': JudgeInfo)
    ensures count > 0 ==> Reflects(j', count, scoreSum, responseSum)
    ensures j'.(averageRating := j.averageRating, totalQuestionsAnswered := j.totalQuestionsAnswered,
                averageResponseTime := j.averageResponseTime) == j
  {
    if count == 0 then j
    else
      var average := scoreSum as real / count as real;
      var secs := MeanSeconds(responseSum, count);
      var text := FormatInterval(secs);
      var j' := j.(averageRating := Some(average), totalQuestionsAnswered := Some(count),
                   averageResponseTime := Some(text));
      StatsReflected(j', count, scoreSum, responseSum);
      j'
  }

  /** The row `WithStats` builds for a positive count reflects the ratings. */
  lemma StatsReflected(j: JudgeInfo, count: nat, scoreSum: int, responseSum: int)
    requires count > 0
    requires j.averageRating == Some(scoreSum as real / count as real)
    requires j.totalQuestionsAnswered == Some(count)
    requires j.averageResponseTime == Some(FormatInterval(MeanSeconds(responseSum, count)))
    ensures Reflects(j, count, scoreSum, responseSum)
  {
    var secs := MeanSeconds(responseSum, count);
    assert Agrees(j, count, scoreSum) by { MeanTimesCount(scoreSum, count); }
    if responseSum >= 0 {
      IntervalReadBack(secs);
      assert ParseInterval(j.averageResponseTime.value) == Some(secs);
    }
  }

  function Aggregates(count: nat, scoreSum: int, responseSum: int): JudgeInfo -> JudgeInfo {
    (j: JudgeInfo) => WithStats(j, count, scoreSum, responseSum)
  }

  /** `updateJudgeStats`: recomputes the judge's aggregates from all accepted ratings: their
      number, their mean score (kept exact) and the mean time from conversation start to
      rating, in whole seconds as `hh:mm:ss`. Nothing changes for a judge with no such rating. */
  function UpdateJudgeStats(s: Store, uid: Id): (s': Store)
    ensures |History(s, uid)| == 0 ==> s' == s
    ensures s'.(judgeInfo := s.judgeInfo) == s
    ensures |s'.judgeInfo| == |s.judgeInfo|
    ensures forall i :: 0 <= i < |s.judgeInfo| ==>
              s'.judgeInfo[i].(averageRating := s.judgeInfo[i].averageRating,
                               totalQuestionsAnswered := s.judgeInfo[i].totalQuestionsAnswered,
                               averageResponseTime := s.judgeInfo[i].averageResponseTime) == s.judgeInfo[i]
    ensures forall i :: 0 <= i < |s.judgeInfo| && s.judgeInfo[i].userId != uid ==> s'.judgeInfo[i] == s.judgeInfo[i]
    ensures |History(s, uid)| > 0 ==> forall j :: j in s'.judgeInfo && j.userId == uid ==>
              Reflects(j, |History(s, uid)|, SumScores(History(s, uid)), SumResponse(s, History(s, uid)))
    ensures Valid(s) ==> Valid(s')
  {
    var h := History(s, uid);
    if |h| == 0 then s
    else
      var f := Aggregates(|h|, SumScores(h), SumResponse(s, h));
      RecomputedRows(s.judgeInfo, uid, |h|, SumScores(h), SumResponse(s, h));
      UpdateJudgeInfos(s, Judges.InfoOf(uid), f)
  }

  /** Every row the recomputation touches carries the recomputed aggregates. */
  lemma RecomputedRows(rows: seq<JudgeInfo>, uid: Id, count: nat, scoreSum: int, responseSum: int)
    requires count > 0
    ensures var out := UpdateWhere(rows, Judges.InfoOf(uid), Aggregates(count, scoreSum, responseSum));
            forall j :: j in out && j.userId == uid ==> Reflects(j, count, scoreSum, responseSum)
  {
    var f := Aggregates(count, scoreSum, responseSum);
    var out := UpdateWhere(rows, Judges.InfoOf(uid), f);
    forall j | j in out && j.userId == uid
      ensures Reflects(j, count, scoreSum, responseSum)
    {
      var i :| 0 <= i < |out| && out[i] == j;
      assert j == f(rows[i]);
    }
  }

  /** The stored aggregates of the judge's row agree with the judge's history. */
  predicate StatsCurrent(s: Store, uid: Id) {
    forall j :: j in s.judgeInfo && j.userId == uid ==> Agrees(j, |History(s, uid)|, SumScores(History(s, uid)))
  }

  /** One more rating moves a current mean the way an incremental update would: the new mean
      times the new count is the old mean times the old count plus the new score. */
  lemma MeanIncremental(h: seq<Rating>, x: Rating, mean: real, mean': real)
    requires |h| > 0
    requires mean * (|h| as real) == SumScores(h) as real
    requires mean' * ((|h| + 1) as real) == SumScores(h + [x]) as real
    ensures mean' * ((|h| + 1) as real) == mean * (|h| as real) + x.score as real
  {
    SumScoresSnocReal(h, x);
  }

  /** `SumScoresSnoc`, read as reals. */
  lemma SumScoresSnocReal(h: seq<Rating>, x: Rating)
    ensures SumScores(h + [x]) as real == SumScores(h) as real + x.score as real
  {
    SumScoresSnoc(h, x);
  }

  // --------------------------------------------------------------- dispute

  function IsAdmin(p: Profile): bool {
    p.role == Admin
  }

  /** `profiles.select('id').eq('role', 'admin')`, in table order. */
  function Admins(s: Store): (r: seq<Id>)
    ensures forall u :: u in r <==> exists p :: p in s.profiles && p.id == u && p.role == Admin
  {
    var rows := Filter(s.profiles, IsAdmin);
    var ids := seq(|rows|, i requires 0 <= i < |rows| => rows[i].id);
    assert forall i :: 0 <= i < |rows| ==> rows[i] in rows;
    assert forall p :: p in rows ==> p.id in ids by {
      forall p | p in rows
        ensures p.id in ids
      {
        var i :| 0 <= i < |rows| && rows[i] == p;
        assert ids[i] == p.id;
      }
    }
    ids
  }

  function Disputed(c: Conversation): Conversation {
    c.(status := ConversationStatus.Disputed)
  }

  /** `createDispute`: a pending dispute row, the conversation marked disputed, and one
      `dispute` notification per admin. None of the writes is checked. */
  function CreateDispute(s: Store, now: Time, cid: Id, uid: Id, judgeId: Id, justification: string): (s': Store)
    ensures |s'.disputes| == |s.disputes| + 1 && s'.disputes[..|s.disputes|] == s.disputes
    ensures var d := s'.disputes[|s.disputes|];
            && d.conversationId == cid && d.userId == uid && d.judgeId == judgeId
            && d.userJustification == justification && d.status == Pending
            && d.judgeJustification == None && d.resolvedBy == None && d.resolvedAt == None
    ensures |s'.conversations| == |s.conversations|
    ensures forall i :: 0 <= i < |s.conversations| ==>
              s'.conversations[i]
              == if s.conversations[i].id == cid then s.conversations[i].(status := ConversationStatus.Disputed)
                 else s.conversations[i]
    ensures |s'.notifications| == |s.notifications| + |Admins(s)|
    ensures s'.notifications[..|s.notifications|] == s.notifications
    ensures forall i :: 0 <= i < |Admins(s)| ==>
              var n := s'.notifications[|s.notifications| + i];
              n.userId == Admins(s)[i] && n.kind == DisputeKind && n.title == DisputeTitle
              && n.data == DisputePayload(cid) && n.read == UnreadOnInsert
    ensures s'.(disputes := s.disputes, conversations := s.conversations, notifications := s.notifications,
                nextId := s.nextId) == s
    ensures s.nextId < s'.nextId
    ensures Valid(s) ==> Valid(s')
  {
    var s1 := AddDispute(s, Dispute(s.nextId, cid, uid, judgeId, justification, None, Pending, None, None, None, now));
    var s2 := UpdateConversations(s1, Conversations.ConversationWithId(cid), Disputed);
    var admins := Admins(s2);
    assert admins == Admins(s);
    if |admins| > 0 then
      Notifications.Broadcast(s2, now, admins, DisputeTitle, DisputeContent, DisputeKind, DisputePayload(cid))
    else s2
  }

  // ---------------------------------------------------------------- submit

  /** The question's outcome: completed when the rating is accepted, disputed otherwise,
      stamped with the time either way. */
  function Settle(isAccepted: bool, now: Time): Question -> Question {
    (q: Question) => q.(status := if isAccepted then Completed else QuestionStatus.Disputed, completedAt := Some(now))
  }

  /** Everything `submitRating` writes after the rating row went in: points and stats when
      accepted, the question's outcome, a dispute when rejected. */
  function FollowUp(s: Store, now: Time, c: Conversation, uid: Id, score: int, isAccepted: bool,
                    feedback: Option<string>): (s': Store)
    ensures s'.ratings == s.ratings && s'.profiles == s.profiles && s'.messages == s.messages
    ensures |s'.questions| == |s.questions|
    ensures forall i :: 0 <= i < |s.questions| ==>
              s'.questions[i]
              == if s.questions[i].id == c.questionId
                 then s.questions[i].(status := if isAccepted then Completed else QuestionStatus.Disputed,
                                      completedAt := Some(now))
                 else s.questions[i]
    ensures isAccepted ==>
              && s'.disputes == s.disputes && s'.conversations == s.conversations
              && s'.notifications == s.notifications
              && |s'.rewards| == |s.rewards| + 1 && s'.rewards[..|s.rewards|] == s.rewards
              && s'.rewards[|s.rewards|].judgeId == c.judgeId
              && s'.rewards[|s.rewards|].pointsEarned == PointsFor(score)
              && s'.rewards[|s.rewards|].conversationId == Some(c.id)
    ensures !isAccepted ==>
              && s'.rewards == s.rewards && s'.judgeInfo == s.judgeInfo
              && |s'.disputes| == |s.disputes| + 1 && s'.disputes[..|s.disputes|] == s.disputes
              && s'.disputes[|s.disputes|].conversationId == c.id
              && s'.disputes[|s.disputes|].userId == uid && s'.disputes[|s.disputes|].judgeId == c.judgeId
              && s'.disputes[|s.disputes|].userJustification == feedback.GetOr("")
              && s'.disputes[|s.disputes|].status == Pending
              && (forall cv :: cv in s'.conversations && cv.id == c.id ==> cv.status == ConversationStatus.Disputed)
              && |s'.notifications| == |s.notifications| + |Admins(s)|
              && (forall i :: 0 <= i < |Admins(s)| ==>
                    s'.notifications[|s.notifications| + i].userId == Admins(s)[i]
                    && s'.notifications[|s.notifications| + i].kind == DisputeKind)
    ensures s.nextId <= s'.nextId
    ensures Valid(s) ==> Valid(s')
  {
    var s1 := if isAccepted then Pay(s, now, c, score) else s;
    SettledRows(s1.questions, c.questionId, isAccepted, now);
    var s2 := UpdateQuestions(s1, Questions.QuestionWithId(c.questionId), Settle(isAccepted, now));
    if isAccepted then s2
    else
      ContestAfterSettle(s, s2, now, c, uid, feedback);
      Contest(s2, now, c, uid, feedback)
  }

  /** A dispute filed after the question was settled, seen from before the settling. */
  lemma ContestAfterSettle(s: Store, s2: Store, now: Time, c: Conversation, uid: Id, feedback: Option<string>)
    requires s2.(questions := s.questions) == s
    ensures var s' := Contest(s2, now, c, uid, feedback);
            && s'.rewards == s.rewards && s'.judgeInfo == s.judgeInfo
            && |s'.disputes| == |s.disputes| + 1 && s'.disputes[..|s.disputes|] == s.disputes
            && s'.disputes[|s.disputes|].conversationId == c.id
            && s'.disputes[|s.disputes|].userId == uid && s'.disputes[|s.disputes|].judgeId == c.judgeId
            && s'.disputes[|s.disputes|].userJustification == feedback.GetOr("")
            && s'.disputes[|s.disputes|].status == Pending
            && (forall cv :: cv in s'.conversations && cv.id == c.id ==> cv.status == ConversationStatus.Disputed)
            && |s'.notifications| == |s.notifications| + |Admins(s)|
            && (forall i :: 0 <= i < |Admins(s)| ==>
                  s'.notifications[|s.notifications| + i].userId == Admins(s)[i]
                  && s'.notifications[|s.notifications| + i].kind == DisputeKind)
  {
    assert Admins(s2) == Admins(s);
  }

  /** Settling touches exactly the rows of the rated question. */
  lemma SettledRows(qs: seq<Question>, qid: Id, isAccepted: bool, now: Time)
    ensures var out := UpdateWhere(qs, Questions.QuestionWithId(qid), Settle(isAccepted, now));
            && |out| == |qs|
            && forall i :: 0 <= i < |qs| ==>
                 out[i] == if qs[i].id == qid
                           then qs[i].(status := if isAccepted then Completed else QuestionStatus.Disputed,
                                       completedAt := Some(now))
                           else qs[i]
  {
  }

  /** The rejected branch of the follow-up: the dispute with the feedback (or ""). */
  function Contest(s: Store, now: Time, c: Conversation, uid: Id, feedback: Option<string>): (s': Store)
    ensures s'.(disputes := s.disputes, conversations := s.conversations, notifications := s.notifications,
                nextId := s.nextId) == s
    ensures |s'.disputes| == |s.disputes| + 1 && s'.disputes[..|s.disputes|] == s.disputes
    ensures var d := s'.disputes[|s.disputes|];
            && d.conversationId == c.id && d.userId == uid && d.judgeId == c.judgeId
            && d.userJustification == feedback.GetOr("") && d.status == Pending
    ensures forall cv :: cv in s'.conversations && cv.id == c.id ==> cv.status == ConversationStatus.Disputed
    ensures |s'.notifications| == |s.notifications| + |Admins(s)|
    ensures forall i :: 0 <= i < |Admins(s)| ==>
              s'.notifications[|s.notifications| + i].userId == Admins(s)[i]
              && s'.notifications[|s.notifications| + i].kind == DisputeKind
    ensures s.nextId <= s'.nextId
    ensures Valid(s) ==> Valid(s')
  {
    DisputeMarksConversation(s, now, c.id, uid, c.judgeId, feedback.GetOr(""));
    CreateDispute(s, now, c.id, uid, c.judgeId, feedback.GetOr(""))
  }

  /** The accepted branch of the follow-up: the judge's points, then the judge's stats. */
  function Pay(s: Store, now: Time, c: Conversation, score: int): (s': Store)
    ensures s'.(rewards := s.rewards, judgeInfo := s.judgeInfo, nextId := s.nextId) == s
    ensures |s'.rewards| == |s.rewards| + 1 && s'.rewards[..|s.rewards|] == s.rewards
    ensures s'.rewards[|s.rewards|].judgeId == c.judgeId
    ensures s'.rewards[|s.rewards|].pointsEarned == PointsFor(score)
    ensures s'.rewards[|s.rewards|].conversationId == Some(c.id)
    ensures s.nextId <= s'.nextId
    ensures Valid(s) ==> Valid(s')
  {
    var s1 := AwardPoints(s, now, c.judgeId, c.id, score);
    assert s1.nextId == s.nextId + 1 by {
      assert s1.(rewards := s.rewards, judgeInfo := s.judgeInfo, nextId := s.nextId) == s;
      assert s1.rewards[|s.rewards|] in s1.rewards;
    }
    UpdateJudgeStats(s1, c.judgeId)
  }

  /** A dispute leaves every row of its conversation disputed. */
  lemma DisputeMarksConversation(s: Store, now: Time, cid: Id, uid: Id, judgeId: Id, justification: string)
    ensures forall cv :: cv in CreateDispute(s, now, cid, uid, judgeId, justification).conversations && cv.id == cid ==>
              cv.status == ConversationStatus.Disputed
  {
    var out := CreateDispute(s, now, cid, uid, judgeId, justification).conversations;
    forall cv | cv in out && cv.id == cid
      ensures cv.status == ConversationStatus.Disputed
    {
      var i :| 0 <= i < |out| && out[i] == cv;
    }
  }

  /** The conversation `submitRating` reads, `Err` when `.single()` finds no row. */
  function Rated(s: Store, cid: Id): (r: Result<Conversation, Error>)
    ensures r.Ok? ==> r.value in s.conversations && r.value.id == cid
    ensures Valid(s) ==> (r.Ok? <==> exists c :: c in s.conversations && c.id == cid)
  {
    Conversations.GetConversation(s, cid)
  }

  /** `submitRating`: the caller rates a conversation. No caller, an unknown conversation or a
      second rating of the same conversation fails and writes nothing; otherwise the rating row
      goes in with the conversation's judge, and the follow-up writes run. */
  function SubmitRating(s: Store, caller: Option<Id>, now: Time, cid: Id, score: int, isAccepted: bool,
                        feedback: Option<string>): (r: Reply<Rating>)
    ensures r.result.Err? ==> r.store == s
    ensures caller.None? ==> r.result == Err(NotAuthenticated)
    ensures caller.Some? && Rated(s, cid).Err? ==> r.result == Err(NotFound)
    ensures caller.Some? && Rated(s, cid).Ok? && HasRatingFor(s, cid) ==> r.result == Err(UniqueViolation)
    ensures r.result.Ok? <==> caller.Some? && Rated(s, cid).Ok? && !HasRatingFor(s, cid)
    ensures r.result.Ok? ==>
              var x := r.result.value;
              && x.conversationId == cid && x.userId == caller.value && x.judgeId == Rated(s, cid).value.judgeId
              && x.score == score && x.isAccepted == isAccepted && x.feedback == feedback && x.createdAt == now
              && r.store.ratings == s.ratings + [x]
    ensures r.result.Ok? ==>
              r.store == FollowUp(s.(ratings := s.ratings + [r.result.value], nextId := s.nextId + 1), now,
                                  Rated(s, cid).value, caller.value, score, isAccepted, feedback)
    ensures s.nextId <= r.store.nextId
    ensures Valid(s) ==> Valid(r.store)
  {
    if caller.None? then Reply(Err(NotAuthenticated), s)
    else if Rated(s, cid).Err? then Reply(Err(NotFound), s)
    else
      var c := Rated(s, cid).value;
      var x := Rating(s.nextId, cid, caller.value, c.judgeId, score, isAccepted, feedback, now);
      if HasRatingFor(s, cid) then Reply(Err(AddRating(s, x).error), s)
      else
        var s1 := AddRating(s, x).value;
        assert s1 == s.(ratings := s.ratings + [x], nextId := s.nextId + 1);
        Reply(Ok(x), FollowUp(s1, now, c, caller.value, score, isAccepted, feedback))
  }

  /** What a successful `submitRating` writes besides the rating: for an accepted rating one
      reward of ten points per star to the conversation's judge, no dispute, and the question
      completed; for a rejected one no reward, no change to any judge row, one pending dispute
      carrying the feedback (or ""), the conversation disputed, one notification per admin, and
      the question disputed. Either way `completed_at` is now. */
  lemma SubmitRatingOutcome(s: Store, caller: Option<Id>, now: Time, cid: Id, score: int, isAccepted: bool,
                            feedback: Option<string>)
    requires SubmitRating(s, caller, now, cid, score, isAccepted, feedback).result.Ok?
    ensures var r := SubmitRating(s, caller, now, cid, score, isAccepted, feedback);
            var c := Rated(s, cid).value;
            && (forall q :: q in r.store.questions && q.id == c.questionId ==>
                  q.status == (if isAccepted then Completed else QuestionStatus.Disputed) && q.completedAt == Some(now))
            && (isAccepted ==>
                  && r.store.disputes == s.disputes
                  && |r.store.rewards| == |s.rewards| + 1 && r.store.rewards[..|s.rewards|] == s.rewards
                  && r.store.rewards[|s.rewards|].judgeId == c.judgeId
                  && r.store.rewards[|s.rewards|].pointsEarned == PointsFor(score))
            && (!isAccepted ==>
                  && r.store.rewards == s.rewards && r.store.judgeInfo == s.judgeInfo
                  && |r.store.disputes| == |s.disputes| + 1
                  && r.store.disputes[|s.disputes|].userJustification == feedback.GetOr("")
                  && r.store.disputes[|s.disputes|].status == Pending
                  && (forall cv :: cv in r.store.conversations && cv.id == cid ==> cv.status == ConversationStatus.Disputed)
                  && |r.store.notifications| == |s.notifications| + |Admins(s)|)
  {
    var r := SubmitRating(s, caller, now, cid, score, isAccepted, feedback);
    var c := Rated(s, cid).value;
    var x := r.result.value;
    var s1 := s.(ratings := s.ratings + [x], nextId := s.nextId + 1);
    assert r.store == FollowUp(s1, now, c, caller.value, score, isAccepted, feedback);
    assert Admins(s1) == Admins(s);
    FollowUpSettles(s1, now, c, caller.value, score, isAccepted, feedback);
  }

  /** The follow-up writes settle the rated question. */
  lemma FollowUpSettles(s: Store, now: Time, c: Conversation, uid: Id, score: int, isAccepted: bool,
                        feedback: Option<string>)
    ensures forall q :: q in FollowUp(s, now, c, uid, score, isAccepted, feedback).questions && q.id == c.questionId ==>
              q.status == (if isAccepted then Completed else QuestionStatus.Disputed) && q.completedAt == Some(now)
  {
    var f := FollowUp(s, now, c, uid, score, isAccepted, feedback);
    forall q | q in f.questions && q.id == c.questionId
      ensures q.status == (if isAccepted then Completed else QuestionStatus.Disputed) && q.completedAt == Some(now)
    {
      var i :| 0 <= i < |f.questions| && f.questions[i] == q;
    }
  }

  /** A conversation can be rated at most once: once a rating went in, any later submission
      for the same conversation fails and writes nothing. */
  lemma SubmitRatingOnce(s: Store, caller: Option<Id>, now: Time, cid: Id, score: int, isAccepted: bool,
                         feedback: Option<string>, caller': Option<Id>, now': Time, score': int, isAccepted': bool,
                         feedback': Option<string>)
    requires SubmitRating(s, caller, now, cid, score, isAccepted, feedback).result.Ok?
    ensures var s1 := SubmitRating(s, caller, now, cid, score, isAccepted, feedback).store;
            var r2 := SubmitRating(s1, caller', now', cid, score', isAccepted', feedback');
            r2.result.Err? && r2.store == s1
  {
    var r := SubmitRating(s, caller, now, cid, score, isAccepted, feedback);
    var s1 := r.store;
    assert HasRatingFor(s1, cid) by {
      assert s1.ratings[|s.ratings|] == r.result.value;
    }
  }

  /** A rejected rating writes no reward and leaves every judge's points and aggregates alone. */
  lemma RejectedRatingPaysNothing(s: Store, uid: Id, now: Time, cid: Id, score: int, feedback: Option<string>)
    ensures var r := SubmitRating(s, Some(uid), now, cid, score, false, feedback);
            r.store.rewards == s.rewards && r.store.judgeInfo == s.judgeInfo
  {
  }

  /** `submitRating` keeps the points ledger: every judge's total still equals the judge's
      earned rewards. */
  lemma SubmitRatingBalanced(s: Store, caller: Option<Id>, now: Time, cid: Id, score: int, isAccepted: bool,
                             feedback: Option<string>)
    requires Valid(s) && Balanced(s)
    ensures Balanced(SubmitRating(s, caller, now, cid, score, isAccepted, feedback).store)
  {
    var r := SubmitRating(s, caller, now, cid, score, isAccepted, feedback);
    if r.result.Ok? {
      var c := Rated(s, cid).value;
      var s1 := s.(ratings := s.ratings + [r.result.value], nextId := s.nextId + 1);
      assert r.store == FollowUp(s1, now, c, caller.value, score, isAccepted, feedback);
      assert Valid(s1);
      BalancedFrame(s, s1);
      if isAccepted {
        var s2 := Pay(s1, now, c, score);
        PayBalanced(s1, now, c, score);
        assert r.store.rewards == s2.rewards && r.store.judgeInfo == s2.judgeInfo;
        BalancedFrame(s2, r.store);
      } else {
        BalancedFrame(s1, r.store);
      }
    }
  }

  /** The ledger reads only the rewards and the judge rows. */
  lemma BalancedFrame(a: Store, b: Store)
    requires Balanced(a) && a.rewards == b.rewards && a.judgeInfo == b.judgeInfo
    ensures Balanced(b)
  {
    forall j | j in b.judgeInfo
      ensures j.totalPoints.GetOr(0) == Earned(b, j.userId)
    {
      assert j in a.judgeInfo;
    }
  }

  /** The accepted branch keeps the ledger balanced: the stats recomputation does not touch
      the totals. */
  lemma PayBalanced(s: Store, now: Time, c: Conversation, score: int)
    requires Valid(s) && Balanced(s)
    ensures Balanced(Pay(s, now, c, score))
  {
    var s2 := AwardPoints(s, now, c.judgeId, c.id, score);
    AwardPointsBalanced(s, now, c.judgeId, c.id, score);
    StatsKeepBalance(s2, c.judgeId);
  }

  /** Recomputing a judge's aggregates leaves every total and every reward as it was. */
  lemma StatsKeepBalance(s: Store, uid: Id)
    requires Balanced(s)
    ensures Balanced(UpdateJudgeStats(s, uid))
  {
    var out := UpdateJudgeStats(s, uid);
    forall i | 0 <= i < |out.judgeInfo|
      ensures out.judgeInfo[i].totalPoints.GetOr(0) == Earned(out, out.judgeInfo[i].userId)
    {
      assert s.judgeInfo[i] in s.judgeInfo;
      assert out.judgeInfo[i].totalPoints == s.judgeInfo[i].totalPoints;
      assert out.judgeInfo[i].userId == s.judgeInfo[i].userId;
    }
  }

  /** The history depends only on the ratings and conversations tables. */
  lemma HistoryDependsOn(a: Store, b: Store, uid: Id)
    requires a.ratings == b.ratings && a.conversations == b.conversations
    ensures History(a, uid) == History(b, uid)
  {
    FilterCongruent(a.ratings, Judges.ListedRating(a, uid), Judges.ListedRating(b, uid));
  }

  /** An accepted rating of an existing conversation joins the end of its judge's history. */
  lemma HistoryGrows(s: Store, s': Store, x: Rating)
    requires s'.ratings == s.ratings + [x] && s'.conversations == s.conversations
    requires x.isAccepted && HasConversation(s, x.conversationId)
    ensures History(s', x.judgeId) == History(s, x.judgeId) + [x]
  {
    var t := s'.(ratings := s.ratings);
    HistoryDependsOn(t, s, x.judgeId);
    FilterCongruent(s.ratings, Judges.ListedRating(s', x.judgeId), Judges.ListedRating(t, x.judgeId));
    FilterSnoc(s.ratings, x, Judges.ListedRating(s', x.judgeId));
  }

  /** Whatever store carries the recomputed rows of `UpdateJudgeStats` next to the same
      ratings and conversations has current stats for that judge. */
  lemma RecomputedStats(s: Store, out: Store, uid: Id)
    requires |History(s, uid)| > 0
    requires out.judgeInfo == UpdateJudgeStats(s, uid).judgeInfo
    requires out.ratings == s.ratings && out.conversations == s.conversations
    ensures StatsCurrent(out, uid)
    ensures forall j :: j in out.judgeInfo && j.userId == uid ==>
              Agrees(j, |History(s, uid)|, SumScores(History(s, uid)))
  {
    HistoryDependsOn(out, s, uid);
  }

  /** After an accepted rating, the judge's row counts one more rating and holds the mean of
      the old history and the new score; the stored aggregates agree with the new history. */
  lemma AcceptedRatingStats(s: Store, uid: Id, now: Time, cid: Id, score: int, feedback: Option<string>)
    requires Valid(s)
    requires SubmitRating(s, Some(uid), now, cid, score, true, feedback).result.Ok?
    ensures var c := Rated(s, cid).value;
            var r := SubmitRating(s, Some(uid), now, cid, score, true, feedback);
            var h := History(s, c.judgeId);
            && StatsCurrent(r.store, c.judgeId)
            && forall j :: j in r.store.judgeInfo && j.userId == c.judgeId ==>
                 Agrees(j, |h| + 1, SumScores(h) + score)
  {
    var c := Rated(s, cid).value;
    var r := SubmitRating(s, Some(uid), now, cid, score, true, feedback);
    var x := r.result.value;
    var s1 := s.(ratings := s.ratings + [x], nextId := s.nextId + 1);
    var s2 := AwardPoints(s1, now, c.judgeId, c.id, score);
    var s3 := UpdateJudgeStats(s2, c.judgeId);
    var h := History(s, c.judgeId);
    assert HasConversation(s, x.conversationId) by {
      var k :| 0 <= k < |s.conversations| && s.conversations[k] == c;
    }
    assert r.store == FollowUp(s1, now, c, uid, score, true, feedback);
    assert r.store.judgeInfo == s3.judgeInfo;
    assert s2.ratings == s.ratings + [x] && s2.conversations == s.conversations;
    assert x.isAccepted && x.judgeId == c.judgeId;
    HistoryGrows(s, s2, x);
    SumScoresSnoc(h, x);
    assert r.store.ratings == s2.ratings && r.store.conversations == s2.conversations;
    RecomputedStats(s2, r.store, c.judgeId);
  }

  /** `getRating`: the conversation's rating. The single-row read fails with the "not exactly one
      row" code both when no row and when several rows match, and that code is swallowed: either
      way the caller gets no rating and no error. */
  function GetRating(s: Store, cid: Id): (r: Option<Rating>)
    ensures r.Some? <==> |Filter(s.ratings, RatingFor(cid))| == 1
    ensures r.Some? ==> r.value in s.ratings && r.value.conversationId == cid
    ensures !HasRatingFor(s, cid) ==> r.None?
    ensures Valid(s) ==> (r.Some? <==> HasRatingFor(s, cid))
  {
    var rows := Filter(s.ratings, RatingFor(cid));
    assert |rows| > 0 ==> rows[0] in rows;
    assert HasRatingFor(s, cid) ==> |rows| > 0 by {
      if HasRatingFor(s, cid) {
        var i :| 0 <= i < |s.ratings| && s.ratings[i].conversationId == cid;
        assert s.ratings[i] in rows;
      }
    }
    assert Valid(s) ==> |rows| <= 1 by {
      if Valid(s) { UniqueMatch(s.ratings, RatingConversation, cid, RatingFor(cid)); }
    }
    if |rows| == 1 then Some(rows[0]) else None
  }

  function RatingFor(cid: Id): Rating -> bool {
    (x: Rating) => x.conversationId == cid
  }

  /** A submitted rating is what `getRating` then reads. */
  lemma SubmitRatingRead(s: Store, caller: Option<Id>, now: Time, cid: Id, score: int, isAccepted: bool,
                         feedback: Option<string>)
    requires Valid(s)
    requires SubmitRating(s, caller, now, cid, score, isAccepted, feedback).result.Ok?
    ensures var r := SubmitRating(s, caller, now, cid, score, isAccepted, feedback);
            GetRating(r.store, cid) == Some(r.result.value)
  {
    var r := SubmitRating(s, caller, now, cid, score, isAccepted, feedback);
    assert r.result.value in r.store.ratings;
    UniqueMatchExact(r.store.ratings, RatingConversation, cid, RatingFor(cid), r.result.value);
  }
}
