/** The judge directory (lib/judges.ts): listing and searching judges by points, reading and
    updating a judge's row, the stats page, and promoting a user to judge. */
module Judges {
  import opened Wrappers
  import opened Schema
  import opened Seqs
  import opened Tables

  /** `getJudgeStats` shows at most this many recent accepted ratings ... */
  const RecentRatingLimit: nat := 10

  /** ... and at most this many rewards. */
  const RewardLimit: nat := 20

  /** `order('total_points', { ascending: false })`: most points first, and a null total, which
      a descending order places first, before every number. */
  predicate MostPointsFirst(a: JudgeInfo, b: JudgeInfo) {
    a.totalPoints.None? || (b.totalPoints.Some? && b.totalPoints.value <= a.totalPoints.value)
  }

  lemma MostPointsFirstOrders()
    ensures TotalPreorder(MostPointsFirst)
  {
    forall a: JudgeInfo, b: JudgeInfo, c: JudgeInfo | MostPointsFirst(a, b) && MostPointsFirst(b, c)
      ensures MostPointsFirst(a, c)
    {
      if a.totalPoints.Some? {
        assert b.totalPoints.Some? && c.totalPoints.Some?;
      }
    }
  }

  /** The inner join with `profiles`: some profile row has the user's id, with role judge, and
      online too when `onlineOnly` asks for it. */
  predicate JudgeProfile(s: Store, uid: Id, onlineOnly: bool) {
    exists i :: 0 <= i < |s.profiles| && s.profiles[i].id == uid && s.profiles[i].role == Judge
                && (onlineOnly ==> s.profiles[i].isOnline == Some(true))
  }

  /** Some profile row has the user's id (the inner join with no condition on it). */
  predicate HasProfile(s: Store, uid: Id) {
    exists i :: 0 <= i < |s.profiles| && s.profiles[i].id == uid
  }

  function AvailableJudge(s: Store): JudgeInfo -> bool {
    (j: JudgeInfo) => j.isAvailable == Some(true) && JudgeProfile(s, j.userId, false)
  }

  /** `getAvailableJudges`: available judges whose profile has the judge role, most points first. */
  function GetAvailableJudges(s: Store): (r: seq<JudgeInfo>)
    ensures forall j :: j in r <==> j in s.judgeInfo && j.isAvailable == Some(true) && JudgeProfile(s, j.userId, false)
    ensures SortedBy(r, MostPointsFirst)
    ensures multiset(r) == multiset(Filter(s.judgeInfo, AvailableJudge(s)))
  {
    MostPointsFirstOrders();
    SortBy(Filter(s.judgeInfo, AvailableJudge(s)), MostPointsFirst)
  }

  function InfoOf(uid: Id): JudgeInfo -> bool {
    (j: JudgeInfo) => j.userId == uid
  }

  function ProfiledInfoOf(s: Store, uid: Id): JudgeInfo -> bool {
    (j: JudgeInfo) => j.userId == uid && HasProfile(s, uid)
  }

  /** `getJudgeProfile`: the one judge_info row of the user, if the user has a profile. */
  function GetJudgeProfile(s: Store, uid: Id): (r: Result<JudgeInfo, Error>)
    ensures r.Ok? ==> r.value in s.judgeInfo && r.value.userId == uid && HasProfile(s, uid)
    ensures Valid(s) ==> (r.Ok? <==> HasJudgeInfoFor(s, uid) && HasProfile(s, uid))
    ensures r.Err? ==> r.error == NotSingleRow
  {
    var rows := Filter(s.judgeInfo, ProfiledInfoOf(s, uid));
    KeyedMatch(s.judgeInfo, JudgeInfoUser, uid, ProfiledInfoOf(s, uid));
    assert |rows| == 1 ==> rows[0] in rows;
    assert HasJudgeInfoFor(s, uid) ==> exists j :: j in s.judgeInfo && j.userId == uid by {
      if HasJudgeInfoFor(s, uid) {
        var i :| 0 <= i < |s.judgeInfo| && s.judgeInfo[i].userId == uid;
        assert s.judgeInfo[i] in s.judgeInfo;
      }
    }
    Single(rows)
  }

  function SetAvailable(isAvailable: bool): JudgeInfo -> JudgeInfo {
    (j: JudgeInfo) => j.(isAvailable := Some(isAvailable))
  }

  /** `updateJudgeAvailability`: sets the caller's own `is_available`. */
  function UpdateJudgeAvailability(s: Store, caller: Option<Id>, isAvailable: bool): (r: Reply<JudgeInfo>)
    ensures caller.None? ==> r == Reply(Err(NotAuthenticated), s)
    ensures caller.Some? && Valid(s) ==> (r.result.Ok? <==> HasJudgeInfoFor(s, caller.value))
    ensures r.result.Err? ==> r.store == s
    ensures r.result.Ok? ==> r.result.value.userId == caller.value && r.result.value.isAvailable == Some(isAvailable)
    ensures r.result.Ok? ==> r.result.value in r.store.judgeInfo
    ensures r.store.(judgeInfo := s.judgeInfo) == s
    ensures |r.store.judgeInfo| == |s.judgeInfo|
    ensures forall i :: 0 <= i < |s.judgeInfo| ==>
              r.store.judgeInfo[i]
              == if r.result.Ok? && s.judgeInfo[i].userId == caller.value
                 then s.judgeInfo[i].(isAvailable := Some(isAvailable)) else s.judgeInfo[i]
    ensures Valid(s) ==> Valid(r.store)
  {
    match caller
    case None => Reply(Err(NotAuthenticated), s)
    case Some(uid) =>
      KeyedMatch(s.judgeInfo, JudgeInfoUser, uid, InfoOf(uid));
      assert HasJudgeInfoFor(s, uid) <==> exists j :: j in s.judgeInfo && InfoOf(uid)(j) by {
        if HasJudgeInfoFor(s, uid) {
          var i :| 0 <= i < |s.judgeInfo| && s.judgeInfo[i].userId == uid;
          assert s.judgeInfo[i] in s.judgeInfo;
        }
      }
      UpdateJudgeInfo(s, InfoOf(uid), SetAvailable(isAvailable))
  }

  /** A judge that switches availability on is listed by `getAvailableJudges`, and one that
      switches it off is not. */
  lemma AvailabilityListed(s: Store, uid: Id, isAvailable: bool)
    requires Valid(s) && HasJudgeInfoFor(s, uid) && JudgeProfile(s, uid, false)
    ensures var r := UpdateJudgeAvailability(s, Some(uid), isAvailable);
            && r.result.Ok?
            && (r.result.value in GetAvailableJudges(r.store) <==> isAvailable)
            && (forall j :: j in GetAvailableJudges(r.store) ==> j.userId != uid || isAvailable)
  {
    var r := UpdateJudgeAvailability(s, Some(uid), isAvailable);
    AvailabilityRows(s, uid, isAvailable);
    assert JudgeProfile(r.store, uid, false);
  }

  /** After the caller's availability is set, the caller's row is the one returned and every
      row of the caller carries the new flag; profiles are untouched. */
  lemma AvailabilityRows(s: Store, uid: Id, isAvailable: bool)
    requires Valid(s) && HasJudgeInfoFor(s, uid)
    ensures var r := UpdateJudgeAvailability(s, Some(uid), isAvailable);
            && r.result.Ok? && r.result.value in r.store.judgeInfo && r.store.profiles == s.profiles
            && forall j :: j in r.store.judgeInfo && j.userId == uid ==> j.isAvailable == Some(isAvailable)
  {
    var r := UpdateJudgeAvailability(s, Some(uid), isAvailable);
    FlaggedRows(s.judgeInfo, r.store.judgeInfo, uid, isAvailable);
  }

  /** Row-level reading of the availability write: every row of the user carries the flag. */
  lemma FlaggedRows(rows: seq<JudgeInfo>, out: seq<JudgeInfo>, uid: Id, flag: bool)
    requires |out| == |rows|
    requires forall i :: 0 <= i < |rows| ==>
               out[i] == if rows[i].userId == uid then rows[i].(isAvailable := Some(flag)) else rows[i]
    ensures forall j :: j in out && j.userId == uid ==> j.isAvailable == Some(flag)
  {
    forall j | j in out && j.userId == uid
      ensures j.isAvailable == Some(flag)
    {
      var k :| 0 <= k < |out| && out[k] == j;
      assert rows[k].userId == uid;
    }
  }

  /** The fields `updateJudgeProfile` may change; an absent field is left as it is. */
  datatype ProfileUpdates = ProfileUpdates(bio: Option<string>, specialties: Option<seq<string>>, languages: Option<seq<string>>)

  function ApplyUpdates(u: ProfileUpdates): JudgeInfo -> JudgeInfo {
    (j: JudgeInfo) => j.(bio := if u.bio.Some? then Some(u.bio.value) else j.bio,
                         specialties := if u.specialties.Some? then Some(u.specialties.value) else j.specialties,
                         languages := if u.languages.Some? then Some(u.languages.value) else j.languages)
  }

  /** `updateJudgeProfile`: writes the given fields of the caller's own row. */
  function UpdateJudgeProfile(s: Store, caller: Option<Id>, u: ProfileUpdates): (r: Reply<JudgeInfo>)
    ensures caller.None? ==> r == Reply(Err(NotAuthenticated), s)
    ensures caller.Some? && Valid(s) ==> (r.result.Ok? <==> HasJudgeInfoFor(s, caller.value))
    ensures r.result.Err? ==> r.store == s
    ensures r.result.Ok? ==>
              exists prev :: prev in s.judgeInfo && prev.userId == caller.value && Edited(prev, u, r.result.value)
    ensures r.store.(judgeInfo := s.judgeInfo) == s
    ensures |r.store.judgeInfo| == |s.judgeInfo|
    ensures forall i :: 0 <= i < |s.judgeInfo| && (r.result.Err? || s.judgeInfo[i].userId != caller.value) ==>
              r.store.judgeInfo[i] == s.judgeInfo[i]
    ensures Valid(s) ==> Valid(r.store)
  {
    match caller
    case None => Reply(Err(NotAuthenticated), s)
    case Some(uid) =>
      KeyedMatch(s.judgeInfo, JudgeInfoUser, uid, InfoOf(uid));
      assert HasJudgeInfoFor(s, uid) <==> exists j :: j in s.judgeInfo && InfoOf(uid)(j) by {
        if HasJudgeInfoFor(s, uid) {
          var i :| 0 <= i < |s.judgeInfo| && s.judgeInfo[i].userId == uid;
          assert s.judgeInfo[i] in s.judgeInfo;
        }
      }
      var r := UpdateJudgeInfo(s, InfoOf(uid), ApplyUpdates(u));
      if r.result.Ok? then
        var prev := Filter(s.judgeInfo, InfoOf(uid))[0];
        assert prev in Filter(s.judgeInfo, InfoOf(uid));
        UpdatedFields(prev, u);
        r
      else r
  }

  /** `j` is `prev` with the given fields replaced and every other field, the user id
      included, as it was. */
  predicate Edited(prev: JudgeInfo, u: ProfileUpdates, j: JudgeInfo) {
    && j.(bio := prev.bio, specialties := prev.specialties, languages := prev.languages) == prev
    && j.bio == (if u.bio.Some? then u.bio else prev.bio)
    && j.specialties == (if u.specialties.Some? then u.specialties else prev.specialties)
    && j.languages == (if u.languages.Some? then u.languages else prev.languages)
  }

  /** Applying the updates edits exactly the given fields. */
  lemma UpdatedFields(prev: JudgeInfo, u: ProfileUpdates)
    ensures Edited(prev, u, ApplyUpdates(u)(prev))
  {
  }

  /** What `updateJudgeProfile` writes is what `getJudgeProfile` then reads. */
  lemma UpdateJudgeProfileRead(s: Store, uid: Id, u: ProfileUpdates)
    requires Valid(s) && HasJudgeInfoFor(s, uid) && HasProfile(s, uid)
    ensures var r := UpdateJudgeProfile(s, Some(uid), u);
            r.result.Ok? && GetJudgeProfile(r.store, uid) == r.result
  {
    var r := UpdateJudgeProfile(s, Some(uid), u);
    var i :| 0 <= i < |s.judgeInfo| && s.judgeInfo[i].userId == uid;
    UniqueMatchExact(s.judgeInfo, JudgeInfoUser, uid, InfoOf(uid), s.judgeInfo[i]);
    assert r.store.judgeInfo[i] == r.result.value;
    assert r.store.profiles == s.profiles;
    UniqueMatchExact(r.store.judgeInfo, JudgeInfoUser, uid, ProfiledInfoOf(r.store, uid), r.result.value);
  }

  // ------------------------------------------------------------------- stats

  predicate NewestRatingFirst(a: Rating, b: Rating) {
    b.createdAt <= a.createdAt
  }

  predicate NewestRewardFirst(a: Reward, b: Reward) {
    b.createdAt <= a.createdAt
  }

  /** `eq('judge_id', uid).eq('is_accepted', true)` with the inner join on the conversation. */
  function ListedRating(s: Store, uid: Id): Rating -> bool {
    (x: Rating) => x.judgeId == uid && x.isAccepted && HasConversation(s, x.conversationId)
  }

  function RewardOf(uid: Id): Reward -> bool {
    (w: Reward) => w.judgeId == uid
  }

  /** The three parts of the stats page. */
  datatype JudgeStats = JudgeStats(judgeInfo: JudgeInfo, recentRatings: seq<Rating>, rewards: seq<Reward>)

  /** The `recentRatings` part of `getJudgeStats`: the judge's ten newest accepted ratings
      whose conversation exists. */
  function RecentRatings(s: Store, uid: Id): (r: seq<Rating>)
    ensures |r| <= RecentRatingLimit
    ensures SortedBy(r, NewestRatingFirst)
    ensures multiset(r) <= multiset(Filter(s.ratings, ListedRating(s, uid)))
    ensures forall x :: x in r ==> x in s.ratings && x.judgeId == uid && x.isAccepted && HasConversation(s, x.conversationId)
    ensures forall x :: (x in s.ratings && x.judgeId == uid && x.isAccepted && HasConversation(s, x.conversationId)
                         && x !in r) ==>
              |r| == RecentRatingLimit && forall y :: y in r ==> x.createdAt <= y.createdAt
  {
    Page(s.ratings, ListedRating(s, uid), NewestRatingFirst, RecentRatingLimit)
  }

  /** The `rewards` part of `getJudgeStats`: the judge's twenty newest rewards. */
  function RewardHistory(s: Store, uid: Id): (r: seq<Reward>)
    ensures |r| <= RewardLimit
    ensures SortedBy(r, NewestRewardFirst)
    ensures multiset(r) <= multiset(Filter(s.rewards, RewardOf(uid)))
    ensures forall w :: w in r ==> w in s.rewards && w.judgeId == uid
    ensures forall w :: (w in s.rewards && w.judgeId == uid && w !in r) ==>
              |r| == RewardLimit && forall y :: y in r ==> w.createdAt <= y.createdAt
  {
    Page(s.rewards, RewardOf(uid), NewestRewardFirst, RewardLimit)
  }

  /** `getJudgeStats`: the judge's row with the recent ratings and the reward history; a judge
      whose row `getJudgeProfile` cannot read is reported not found. */
  function GetJudgeStats(s: Store, uid: Id): (r: Result<JudgeStats, Error>)
    ensures r.Err? <==> GetJudgeProfile(s, uid).Err?
    ensures r.Err? ==> r.error == NotFound
    ensures r.Ok? ==> r.value.judgeInfo in s.judgeInfo && r.value.judgeInfo.userId == uid
    ensures r.Ok? ==> r.value.recentRatings == RecentRatings(s, uid) && r.value.rewards == RewardHistory(s, uid)
  {
    match GetJudgeProfile(s, uid)
    case Err(_) => Err(NotFound)
    case Ok(info) => Ok(JudgeStats(info, RecentRatings(s, uid), RewardHistory(s, uid)))
  }

  // ---------------------------------------------------------------- promotion

  /** The `judgeData` argument of `createJudgeProfile`. */
  datatype JudgeData = JudgeData(level: JudgeLevel, specialties: Option<seq<string>>, languages: Option<seq<string>>, bio: Option<string>)

  function MakeJudge(p: Profile): Profile {
    p.(role := Judge)
  }

  /** `createJudgeProfile`: sets the user's role to judge (not checked, so it stays even when
      the next step fails), then inserts the judge_info row; a second row for the same user
      breaks the one-to-one key. */
  function CreateJudgeProfile(s: Store, now: Time, uid: Id, data: JudgeData): (r: Reply<JudgeInfo>)
    ensures r.result.Ok? <==> !HasJudgeInfoFor(s, uid)
    ensures r.result.Err? ==> r.result.error == UniqueViolation && r.store.judgeInfo == s.judgeInfo
    ensures r.result.Ok? ==>
              var j := r.result.value;
              && j.userId == uid && j.judgeLevel == data.level && j.bio == data.bio
              && j.specialties == data.specialties && j.languages == data.languages
              && r.store.judgeInfo == s.judgeInfo + [j]
    ensures |r.store.profiles| == |s.profiles|
    ensures forall i :: 0 <= i < |s.profiles| ==>
              r.store.profiles[i] == if s.profiles[i].id == uid then s.profiles[i].(role := Judge) else s.profiles[i]
    ensures r.store.(profiles := s.profiles, judgeInfo := s.judgeInfo, nextId := s.nextId) == s
    ensures s.nextId <= r.store.nextId
    ensures Valid(s) ==> Valid(r.store)
  {
    var s1 := s.(profiles := UpdateWhere(s.profiles, ProfileWithId(uid), MakeJudge));
    var j := JudgeInfo(s1.nextId, uid, data.level, None, data.bio, data.specialties, data.languages,
                       None, None, None, None, None, now);
    assert HasJudgeInfoFor(s1, uid) == HasJudgeInfoFor(s, uid);
    match AddJudgeInfo(s1, j)
    case Ok(s2) => Reply(Ok(j), s2)
    case Err(e) => Reply(Err(e), s1)
  }

  /** After promotion the user's profile carries the judge role, whether or not the row was
      inserted, and a new row is then what `getJudgeProfile` reads. */
  lemma CreateJudgeProfileRead(s: Store, now: Time, uid: Id, data: JudgeData)
    requires Valid(s) && HasProfile(s, uid)
    ensures var r := CreateJudgeProfile(s, now, uid, data);
            && JudgeProfile(r.store, uid, false)
            && (r.result.Ok? ==> GetJudgeProfile(r.store, uid) == r.result)
  {
    var r := CreateJudgeProfile(s, now, uid, data);
    var i :| 0 <= i < |s.profiles| && s.profiles[i].id == uid;
    assert r.store.profiles[i].role == Judge;
    if r.result.Ok? {
      assert HasProfile(r.store, uid);
      UniqueMatchExact(r.store.judgeInfo, JudgeInfoUser, uid, ProfiledInfoOf(r.store, uid), r.result.value);
    }
  }

  // ------------------------------------------------------------------- search

  /** The optional filters of `searchJudges`; an empty specialty or language is not applied,
      as a falsy value is not. */
  datatype SearchFilters = SearchFilters(level: Option<JudgeLevel>, specialty: Option<string>,
                                         language: Option<string>, onlineOnly: bool)

  const NoFilters: SearchFilters := SearchFilters(None, None, None, false)

  predicate Given(o: Option<string>) {
    o.Some? && o.value != ""
  }

  /** `contains(column, [x])` on a nullable text array. */
  predicate Contains(column: Option<seq<string>>, x: string) {
    column.Some? && x in column.value
  }

  /** The characters `String.prototype.trim` removes that this model recognises. */
  predicate IsTrimmed(c: char) {
    c == ' ' || c == '\t' || c == '\n' || c == '\r' || c == '\U{000B}' || c == '\U{000C}'
    || c == '\U{00A0}' || c == '\U{FEFF}'
  }

  /** `query.trim()` is empty. */
  predicate Blank(query: string) {
    forall i :: 0 <= i < |query| ==> IsTrimmed(query[i])
  }

  /** Every condition `searchJudges` adds to its query. `textMatch` decides the free-text
      `or(...)` over the profile name, bio and specialties, which needs case-insensitive
      pattern matching and is not modelled here. */
  predicate Matches(s: Store, query: string, f: SearchFilters, textMatch: JudgeInfo -> bool, j: JudgeInfo) {
    && JudgeProfile(s, j.userId, f.onlineOnly)
    && (f.level.Some? ==> j.judgeLevel == f.level.value)
    && (Given(f.specialty) ==> Contains(j.specialties, f.specialty.value))
    && (Given(f.language) ==> Contains(j.languages, f.language.value))
    && (!Blank(query) ==> textMatch(j))
  }

  function Search(s: Store, query: string, f: SearchFilters, textMatch: JudgeInfo -> bool): JudgeInfo -> bool {
    (j: JudgeInfo) => Matches(s, query, f, textMatch, j)
  }

  /** `searchJudges`: the rows meeting every given filter, most points first. */
  function SearchJudges(s: Store, query: string, f: SearchFilters, textMatch: JudgeInfo -> bool): (r: seq<JudgeInfo>)
    ensures forall j :: j in r <==>
              && j in s.judgeInfo && JudgeProfile(s, j.userId, f.onlineOnly)
              && (f.level.Some? ==> j.judgeLevel == f.level.value)
              && (Given(f.specialty) ==> Contains(j.specialties, f.specialty.value))
              && (Given(f.language) ==> Contains(j.languages, f.language.value))
              && (!Blank(query) ==> textMatch(j))
    ensures SortedBy(r, MostPointsFirst)
    ensures multiset(r) == multiset(Filter(s.judgeInfo, Search(s, query, f, textMatch)))
  {
    MostPointsFirstOrders();
    SortBy(Filter(s.judgeInfo, Search(s, query, f, textMatch)), MostPointsFirst)
  }

  /** Every available judge shows up in an unfiltered search with a blank query. */
  lemma AvailableJudgesSearchable(s: Store, query: string, textMatch: JudgeInfo -> bool)
    requires Blank(query)
    ensures forall j :: j in GetAvailableJudges(s) ==> j in SearchJudges(s, query, NoFilters, textMatch)
  {
  }

  /** Adding a filter never widens the result. */
  lemma SearchNarrows(s: Store, query: string, f: SearchFilters, textMatch: JudgeInfo -> bool)
    ensures forall j :: j in SearchJudges(s, query, f, textMatch) ==> j in SearchJudges(s, "", NoFilters, textMatch)
  {
    var narrow := SearchJudges(s, query, f, textMatch);
    var wide := SearchJudges(s, "", NoFilters, textMatch);
    assert Blank("");
    forall j | j in narrow
      ensures j in wide
    {
      OnlineIsJudge(s, j.userId, f.onlineOnly);
    }
  }

  /** A judge profile that is online is in particular a judge profile. */
  lemma OnlineIsJudge(s: Store, uid: Id, onlineOnly: bool)
    requires JudgeProfile(s, uid, onlineOnly)
    ensures JudgeProfile(s, uid, false)
  {
    var i :| 0 <= i < |s.profiles| && s.profiles[i].id == uid && s.profiles[i].role == Judge
             && (onlineOnly ==> s.profiles[i].isOnline == Some(true));
    assert JudgeProfile(s, uid, false);
  }
}
