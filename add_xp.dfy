/**
 * Awarding XP for an action (app/api/gamification/add-xp/route.ts): a watched stream
 * pays once per user, the profile's total grows by the action's reward and its level
 * is recomputed from the new total, and the award is logged.
 */
module AddXp {
  import opened Wrappers
  import opened Js
  import opened Http
  import opened Query
  import opened Tables
  import opened Gamification

  /** The success bodies: a repeated watch pays nothing; otherwise the award. */
  datatype XpAward =
    | AlreadyWatched
    | Awarded(xpGained: int, totalXp: int, level: int, leveledUp: bool, previousLevel: int)

  /** The `action` checks. */
  function ValidateAction(action: Value): (g: Guard<Action>)
    ensures g.Pass? <==> action.Str? && ParseAction(action.s).Some?
    ensures g.Pass? ==> ActionName(g.value) == action.s
    ensures g.Reject? ==> g.status == 400
  {
    if !Truthy(action) then Reject(400, "action is required")
    else if !action.Str? then Reject(400, "Invalid action type")
    else match ParseAction(action.s)
      case None => Reject(400, "Invalid action type")
      case Some(a) => Pass(a)
  }

  /** `user_stream_views ... .eq('user_id', userId).eq('stream_id', streamId)`. */
  function ViewsOf(views: seq<StreamViewRow>, userId: string, streamId: string): seq<StreamViewRow>
  {
    Filter(views, (v: StreamViewRow) => v.userId == userId && v.streamId == streamId)
  }

  /** The de-duplication lookup: its `.single()` finds a row. */
  predicate AlreadyViewed(views: seq<StreamViewRow>, userId: string, streamId: string): (b: bool)
    ensures b <==> |ViewsOf(views, userId, streamId)| == 1
    ensures b ==> exists v :: v in views && v.userId == userId && v.streamId == streamId
  {
    var mine := ViewsOf(views, userId, streamId);
    assert mine != [] ==> mine[0] in mine;
    Single(mine).Some?
  }

  /**
   * The profile update: `total_xp` grows by `reward`, `level` is recomputed from the new
   * total, and no other column changes.
   */
  function AfterAward(p: ProfileRow, reward: int): (q: ProfileRow)
    ensures q.totalXp == p.totalXp + reward
    ensures q.level == CalculateLevel(q.totalXp)
    ensures q.(totalXp := p.totalXp, level := p.level) == p
  {
    p.(totalXp := p.totalXp + reward, level := CalculateLevel(p.totalXp + reward))
  }

  /** `AfterAward` as the row function `.update(...)` applies. */
  function Award(reward: int): ProfileRow -> ProfileRow
  {
    (p: ProfileRow) => AfterAward(p, reward)
  }

  /** The invariant the de-duplication is written to keep: one view row per user and stream. */
  ghost predicate OneViewPerPair(views: seq<StreamViewRow>)
  {
    forall i, j :: 0 <= i < j < |views| ==>
      views[i].userId != views[j].userId || views[i].streamId != views[j].streamId
  }

  /**
   * POST add-xp. `streamId` is `""` when absent. The view lookup's error is not checked
   * by the handler: when `viewLookupFails` the lookup finds nothing, so the watch is
   * recorded and paid as a first one. The view and log inserts are not checked either:
   * `viewInsertFails` and `logInsertFails` only say whether their rows are stored.
   * `updateFails` says whether the profile update returns an error.
   */
  method Post(db: Store, user: Option<string>, action: Value, streamId: string,
              viewLookupFails: bool, viewInsertFails: bool, updateFails: bool, logInsertFails: bool,
              newViewId: string, newLogId: string) returns (r: Response<XpAward>)
    modifies db`streamViews, db`profiles, db`xpLog
    ensures user.None? ==> r == Fail(401, Unauthorized)
    ensures user.Some? && ValidateAction(action).Reject? ==>
      r == Fail(400, ValidateAction(action).message)
    ensures user.None? || ValidateAction(action).Reject? ==>
      db.streamViews == old(db.streamViews) && db.profiles == old(db.profiles) && db.xpLog == old(db.xpLog)
    ensures user.Some? && ValidateAction(action).Pass? ==>
      var uid := user.value;
      var a := ValidateAction(action).value;
      var watch := a == Watch && streamId != "";
      var seen := watch && !viewLookupFails && AlreadyViewed(old(db.streamViews), uid, streamId);
      var profile := ProfileById(old(db.profiles), uid);
      var total := if profile.Some? then profile.value.totalXp + XpReward(a) else 0;
      && db.streamViews == old(db.streamViews) +
           (if watch && !seen && !viewInsertFails then [StreamViewRow(newViewId, uid, streamId)] else [])
      && (seen ==> r == Ok(AlreadyWatched))
      && (!seen && profile.None? ==> r == Fail(404, "Profile not found"))
      && (!seen && profile.Some? && updateFails ==> r == Fail(500, "Failed to update XP"))
      && (if !seen && profile.Some? && !updateFails
          then
            && db.profiles == UpdateProfile(old(db.profiles), uid, Award(XpReward(a)))
            && db.xpLog == old(db.xpLog) +
                 (if logInsertFails then []
                  else [XpLogRow(newLogId, uid, XpReward(a), action.s, if streamId != "" then Some(streamId) else None)])
            && r == Ok(Awarded(XpReward(a), total, CalculateLevel(total),
                               CalculateLevel(total) > profile.value.level, profile.value.level))
          else db.profiles == old(db.profiles) && db.xpLog == old(db.xpLog))
  {
    if user.None? {
      return Fail(401, Unauthorized);
    }
    var uid := user.value;
    var g := ValidateAction(action);
    if g.Reject? {
      return Fail(g.status, g.message);
    }
    var reward := XpReward(g.value);
    if g.value == Watch && streamId != "" {
      if !viewLookupFails && AlreadyViewed(db.streamViews, uid, streamId) {
        return Ok(AlreadyWatched);
      }
      if !viewInsertFails {
        db.streamViews := db.streamViews + [StreamViewRow(newViewId, uid, streamId)];
      }
    }
    var profile := ProfileById(db.profiles, uid);
    if profile.None? {
      return Fail(404, "Profile not found");
    }
    var newXp := profile.value.totalXp + reward;
    var newLevel := CalculateLevel(newXp);
    if updateFails {
      return Fail(500, "Failed to update XP");
    }
    db.profiles := UpdateProfile(db.profiles, uid, Award(reward));
    if !logInsertFails {
      var logStream := if streamId != "" then Some(streamId) else None;
      db.xpLog := db.xpLog + [XpLogRow(newLogId, uid, reward, action.s, logStream)];
    }
    r := Ok(Awarded(reward, newXp, newLevel, newLevel > profile.value.level, profile.value.level));
  }

  // Properties.

  lemma OneViewAtMost(views: seq<StreamViewRow>, userId: string, streamId: string)
    requires OneViewPerPair(views)
    ensures |ViewsOf(views, userId, streamId)| <= 1
  {
    var p := (v: StreamViewRow) => v.userId == userId && v.streamId == streamId;
    if views != [] {
      OneViewAtMost(views[1..], userId, streamId);
      if p(views[0]) {
        FilterNone(views[1..], p);
      }
    }
  }

  /** Recording a first view keeps one view row per user and stream. */
  lemma RecordViewKeepsOnePerPair(views: seq<StreamViewRow>, id: string, userId: string, streamId: string)
    requires OneViewPerPair(views) && !AlreadyViewed(views, userId, streamId)
    ensures OneViewPerPair(views + [StreamViewRow(id, userId, streamId)])
  {
    OneViewAtMost(views, userId, streamId);
    forall i | 0 <= i < |views|
      ensures views[i].userId != userId || views[i].streamId != streamId
    {
      assert views[i] in views;
    }
  }

  /** Once a first watch is recorded, watching the same stream again is de-duplicated. */
  lemma WatchPaysOnce(views: seq<StreamViewRow>, id: string, userId: string, streamId: string)
    requires OneViewPerPair(views) && !AlreadyViewed(views, userId, streamId)
    ensures AlreadyViewed(views + [StreamViewRow(id, userId, streamId)], userId, streamId)
  {
    var p := (v: StreamViewRow) => v.userId == userId && v.streamId == streamId;
    OneViewAtMost(views, userId, streamId);
    FilterAppend(views, [StreamViewRow(id, userId, streamId)], p);
    assert Filter([StreamViewRow(id, userId, streamId)], p) == [StreamViewRow(id, userId, streamId)];
  }

  /**
   * A failed view lookup is taken for "not watched yet": a stream the user has already
   * watched gets a second view row, so the watch is paid again.
   */
  lemma LookupFailureRecordsSecondView(views: seq<StreamViewRow>, id: string, userId: string, streamId: string)
    requires exists v :: v in views && v.userId == userId && v.streamId == streamId
    ensures !OneViewPerPair(views + [StreamViewRow(id, userId, streamId)])
  {
    var v :| v in views && v.userId == userId && v.streamId == streamId;
    var i :| 0 <= i < |views| && views[i] == v;
    var r := views + [StreamViewRow(id, userId, streamId)];
    assert r[i].userId == r[|views|].userId && r[i].streamId == r[|views|].streamId;
  }

  /** After the update, the caller's profile holds the new total and the level computed from it. */
  lemma AwardedProfileConsistent(profiles: seq<ProfileRow>, userId: string, reward: int)
    requires ProfileById(profiles, userId).Some?
    ensures var p := ProfileById(UpdateProfile(profiles, userId, Award(reward)), userId);
      && p.Some?
      && p.value.totalXp == ProfileById(profiles, userId).value.totalXp + reward
      && p.value.level == CalculateLevel(p.value.totalXp)
  {
    ProfileByIdAfterUpdate(profiles, userId, Award(reward));
  }

  /**
   * For a profile whose level matches its XP, an award never lowers the level, and
   * `leveled_up` holds exactly when the new total reaches `xpForNextLevel` of the old level.
   */
  lemma {:induction false} LeveledUpIffReachesNext(p: ProfileRow, reward: nat)
    requires p.totalXp >= 0 && p.level == CalculateLevel(p.totalXp)
    ensures CalculateLevel(p.totalXp + reward) >= p.level
    ensures CalculateLevel(p.totalXp + reward) > p.level <==> p.totalXp + reward >= XpForNextLevel(p.level)
  {
    var total := p.totalXp + reward;
    var next := XpForNextLevel(p.level);
    CalculateLevelMonotone(p.totalXp, total);
    if total >= next {
      LevelRoundTrip(p.level + 1);
      CalculateLevelMonotone(next, total);
    } else if CalculateLevel(total) > p.level {
      XpWithinLevel(total);
      XpForLevelMonotone(p.level + 1, CalculateLevel(total));
    }
  }
}
