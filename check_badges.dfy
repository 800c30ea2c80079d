/**
 * Badge unlocking (app/api/gamification/check-badges/route.ts): every badge the caller
 * does not own yet and whose requirement the caller meets is awarded, in badge order.
 */
module CheckBadges {
  import opened Wrappers
  import opened Http
  import opened Query
  import opened Tables

  /** An entry of `newly_unlocked`. */
  datatype BadgeCard = BadgeCard(id: string, name: string, description: string, icon: string)

  /** `profile.level || 1`: a zero level reads as 1. */
  function EffectiveLevel(p: ProfileRow): (level: int)
    ensures p.level != 0 ==> level == p.level
    ensures p.level == 0 ==> level == 1
  {
    if p.level == 0 then 1 else p.level
  }

  /** The caller's view rows. */
  function WatchCount(views: seq<StreamViewRow>, userId: string): nat
  {
    |Filter(views, (v: StreamViewRow) => v.userId == userId)|
  }

  /** The caller's messages that were not hidden by moderation. */
  function VisibleMessageCount(messages: seq<MessageRow>, userId: string): nat
  {
    |Filter(messages, (m: MessageRow) => m.userId == userId && !m.hidden)|
  }

  /** The ids of the badges the user owns. */
  function OwnedBadgeIds(userBadges: seq<UserBadgeRow>, userId: string): (ids: set<string>)
    ensures forall u :: u in userBadges && u.userId == userId ==> u.badgeId in ids
    ensures forall id :: id in ids ==> exists u :: u in userBadges && u.userId == userId && u.badgeId == id
  {
    set u | u in userBadges && u.userId == userId :: u.badgeId
  }

  /**
   * `new Set((userBadges || []).map(ub => ub.badge_id))`: the read has no error test, so
   * a failing read gives the empty set.
   */
  function OwnedOrNone(userBadges: seq<UserBadgeRow>, userId: string, readFails: bool): (ids: set<string>)
    ensures readFails ==> ids == {}
    ensures !readFails ==> ids == OwnedBadgeIds(userBadges, userId)
  {
    if readFails then {} else OwnedBadgeIds(userBadges, userId)
  }

  /** The requirement test; a requirement type other than the three known ones never unlocks. */
  predicate Qualifies(b: BadgeRow, level: int, totalXp: int, actions: int): (q: bool)
    ensures q <==>
      && b.requirementType in {"level", "xp", "action_count"}
      && b.requirementValue <= (if b.requirementType == "level" then level
                                else if b.requirementType == "xp" then totalXp
                                else actions)
  {
    match b.requirementType
    case "level" => level >= b.requirementValue
    case "xp" => totalXp >= b.requirementValue
    case "action_count" => actions >= b.requirementValue
    case _ => false
  }

  /** The loop's test for one badge: not owned yet, and its requirement met. */
  function Unlocks(owned: set<string>, level: int, totalXp: int, actions: int): BadgeRow -> bool
  {
    (b: BadgeRow) => b.id !in owned && Qualifies(b, level, totalXp, actions)
  }

  /** The badges the loop unlocks, in badge order. */
  function Unlockable(badges: seq<BadgeRow>, owned: set<string>, level: int, totalXp: int, actions: int)
    : (r: seq<BadgeRow>)
    ensures forall b :: b in r <==> b in badges && b.id !in owned && Qualifies(b, level, totalXp, actions)
  {
    Filter(badges, Unlocks(owned, level, totalXp, actions))
  }

  function Card(b: BadgeRow): BadgeCard
  {
    BadgeCard(b.id, b.name, b.description, b.icon)
  }

  /** The cards of `bs`, in order. */
  function Cards(bs: seq<BadgeRow>): (r: seq<BadgeCard>)
    ensures |r| == |bs|
  {
    if bs == [] then [] else Cards(bs[..|bs| - 1]) + [Card(bs[|bs| - 1])]
  }

  /** The `user_badges` rows inserted for `bs`, in order. */
  function Grants(bs: seq<BadgeRow>, userId: string, now: int): (r: seq<UserBadgeRow>)
    ensures |r| == |bs|
  {
    if bs == [] then [] else Grants(bs[..|bs| - 1], userId, now) + [UserBadgeRow(userId, bs[|bs| - 1].id, now)]
  }

  lemma CardsAndGrantsSnoc(bs: seq<BadgeRow>, b: BadgeRow, userId: string, now: int)
    ensures Cards(bs + [b]) == Cards(bs) + [Card(b)]
    ensures Grants(bs + [b], userId, now) == Grants(bs, userId, now) + [UserBadgeRow(userId, b.id, now)]
  {
    assert (bs + [b])[..|bs|] == bs;
  }

  /** The `for` loop over the badges: inserts a grant and appends a card for each badge unlocked. */
  method UnlockAll(db: Store, badges: seq<BadgeRow>, userId: string, owned: set<string>,
                   level: int, totalXp: int, actions: int, now: int) returns (cards: seq<BadgeCard>)
    modifies db`userBadges
    ensures cards == Cards(Unlockable(badges, owned, level, totalXp, actions))
    ensures db.userBadges == old(db.userBadges) + Grants(Unlockable(badges, owned, level, totalXp, actions), userId, now)
  {
    ghost var p := Unlocks(owned, level, totalXp, actions);
    cards := [];
    for i := 0 to |badges|
      invariant cards == Cards(Filter(badges[..i], p))
      invariant db.userBadges == old(db.userBadges) + Grants(Filter(badges[..i], p), userId, now)
    {
      var badge := badges[i];
      ghost var before := Filter(badges[..i], p);
      FilterSnoc(badges, i, p);
      if badge.id in owned {
        assert !p(badge);
        assert Filter(badges[..i + 1], p) == before;
        continue;
      }
      var shouldUnlock := MeetsRequirement(badge, level, totalXp, actions);
      assert p(badge) == shouldUnlock;
      if shouldUnlock {
        assert Filter(badges[..i + 1], p) == before + [badge];
        CardsAndGrantsSnoc(before, badge, userId, now);
        db.userBadges := db.userBadges + [UserBadgeRow(userId, badge.id, now)];
        cards := cards + [Card(badge)];
      } else {
        assert Filter(badges[..i + 1], p) == before;
      }
    }
    assert badges[..|badges|] == badges;
  }

  /** The `switch` on the requirement type inside the loop. */
  method MeetsRequirement(badge: BadgeRow, level: int, totalXp: int, actions: int) returns (shouldUnlock: bool)
    ensures shouldUnlock == Qualifies(badge, level, totalXp, actions)
  {
    shouldUnlock := false;
    match badge.requirementType {
      case "level" => shouldUnlock := level >= badge.requirementValue;
      case "xp" => shouldUnlock := totalXp >= badge.requirementValue;
      case "action_count" => shouldUnlock := actions >= badge.requirementValue;
      case _ =>
    }
  }

  /**
   * The action count of the `action_count` requirement, `(watchCount || 0) + (chatCount || 0)`:
   * a count read that fails contributes 0.
   */
  function Actions(views: seq<StreamViewRow>, messages: seq<MessageRow>, userId: string,
                   watchFails: bool, chatFails: bool): (n: nat)
    ensures n <= WatchCount(views, userId) + VisibleMessageCount(messages, userId)
    ensures !watchFails && !chatFails ==> n == WatchCount(views, userId) + VisibleMessageCount(messages, userId)
    ensures watchFails && chatFails ==> n == 0
  {
    CountOrZero(watchFails, WatchCount(views, userId)) + CountOrZero(chatFails, VisibleMessageCount(messages, userId))
  }

  /**
   * POST check-badges. The inserts are not checked by the handler and are taken to succeed.
   * None of the four reads after the profile is checked either; the flags say which of
   * them returns an error: the caller's `user_badges` (`ownedReadFails`), the two counts
   * (`watchFails`, `chatFails`) and the badge catalogue (`catalogueFails`).
   */
  method Post(db: Store, user: Option<string>, now: int, ownedReadFails: bool,
              watchFails: bool, chatFails: bool, catalogueFails: bool) returns (r: Response<seq<BadgeCard>>)
    modifies db`userBadges
    ensures user.None? ==> r == Fail(401, Unauthorized) && db.userBadges == old(db.userBadges)
    ensures user.Some? && ProfileById(db.profiles, user.value).None? ==>
      r == Fail(404, "Profile not found") && db.userBadges == old(db.userBadges)
    ensures user.Some? && ProfileById(db.profiles, user.value).Some? ==>
      var uid := user.value;
      var p := ProfileById(db.profiles, uid).value;
      var unlocked := Unlockable(RowsOrEmpty(catalogueFails, db.badges), OwnedOrNone(old(db.userBadges), uid, ownedReadFails),
                                 EffectiveLevel(p), p.totalXp, Actions(db.streamViews, db.messages, uid, watchFails, chatFails));
      && r == Ok(Cards(unlocked))
      && db.userBadges == old(db.userBadges) + Grants(unlocked, uid, now)
  {
    if user.None? {
      return Fail(401, Unauthorized);
    }
    var uid := user.value;
    var profile := ProfileById(db.profiles, uid);
    if profile.None? {
      return Fail(404, "Profile not found");
    }
    var level := EffectiveLevel(profile.value);
    var owned := OwnedOrNone(db.userBadges, uid, ownedReadFails);
    var actions := Actions(db.streamViews, db.messages, uid, watchFails, chatFails);
    var allBadges := RowsOrEmpty(catalogueFails, db.badges);
    var cards := UnlockAll(db, allBadges, uid, owned, level, profile.value.totalXp, actions, now);
    assert db.badges == old(db.badges) && db.profiles == old(db.profiles);
    assert db.streamViews == old(db.streamViews) && db.messages == old(db.messages);
    r := Ok(cards);
  }

  // Properties.

  /** Every unlocked badge is one of the badges, not owned before, and its requirement is met. */
  lemma UnlockedAreNewAndEarned(badges: seq<BadgeRow>, userBadges: seq<UserBadgeRow>, userId: string,
                                level: int, totalXp: int, actions: int, b: BadgeRow)
    requires b in Unlockable(badges, OwnedBadgeIds(userBadges, userId), level, totalXp, actions)
    ensures b in badges && Qualifies(b, level, totalXp, actions)
    ensures forall u :: u in userBadges && u.userId == userId ==> u.badgeId != b.id
  {
  }

  lemma {:induction false} GrantsAt(bs: seq<BadgeRow>, userId: string, now: int, k: int)
    requires 0 <= k < |bs|
    ensures Grants(bs, userId, now)[k] == UserBadgeRow(userId, bs[k].id, now)
  {
    if k < |bs| - 1 {
      GrantsAt(bs[..|bs| - 1], userId, now, k);
    }
  }

  lemma {:induction false} OwnedAfterGrants(userBadges: seq<UserBadgeRow>, bs: seq<BadgeRow>, userId: string, now: int)
    ensures OwnedBadgeIds(userBadges + Grants(bs, userId, now), userId)
            == OwnedBadgeIds(userBadges, userId) + set b | b in bs :: b.id
  {
    var g := Grants(bs, userId, now);
    var all := userBadges + g;
    forall id | id in OwnedBadgeIds(all, userId)
      ensures id in OwnedBadgeIds(userBadges, userId) || exists b :: b in bs && b.id == id
    {
      var u :| u in all && u.userId == userId && u.badgeId == id;
      if u !in userBadges {
        var k :| 0 <= k < |g| && g[k] == u;
        GrantsAt(bs, userId, now, k);
        assert bs[k] in bs;
      }
    }
    forall b | b in bs
      ensures b.id in OwnedBadgeIds(all, userId)
    {
      var k :| 0 <= k < |bs| && bs[k] == b;
      GrantsAt(bs, userId, now, k);
      assert g[k] in all;
    }
  }

  /** With the same profile and counts, a second call right after the first unlocks nothing. */
  lemma SecondCallUnlocksNothing(badges: seq<BadgeRow>, userBadges: seq<UserBadgeRow>, userId: string,
                                 level: int, totalXp: int, actions: int, now: int)
    ensures var first := Unlockable(badges, OwnedBadgeIds(userBadges, userId), level, totalXp, actions);
      Unlockable(badges, OwnedBadgeIds(userBadges + Grants(first, userId, now), userId), level, totalXp, actions) == []
  {
    var owned := OwnedBadgeIds(userBadges, userId);
    var first := Unlockable(badges, owned, level, totalXp, actions);
    OwnedAfterGrants(userBadges, first, userId, now);
    var owned' := OwnedBadgeIds(userBadges + Grants(first, userId, now), userId);
    forall i | 0 <= i < |badges|
      ensures !(badges[i].id !in owned' && Qualifies(badges[i], level, totalXp, actions))
    {
      if badges[i].id !in owned && Qualifies(badges[i], level, totalXp, actions) {
        assert badges[i] in first;
      }
    }
    FilterNone(badges, (b: BadgeRow) => b.id !in owned' && Qualifies(b, level, totalXp, actions));
  }

  /** At most one `user_badges` row per user and badge. */
  ghost predicate OneGrantPerBadge(userBadges: seq<UserBadgeRow>): (ok: bool)
    ensures ok ==> forall i, j :: 0 <= i < |userBadges| && 0 <= j < |userBadges| && userBadges[i] == userBadges[j] ==> i == j
  {
    forall i, j :: 0 <= i < j < |userBadges| ==>
      userBadges[i].userId != userBadges[j].userId || userBadges[i].badgeId != userBadges[j].badgeId
  }

  /** No two catalogue badges share an id. */
  ghost predicate UniqueBadgeIds(badges: seq<BadgeRow>)
  {
    forall i, j :: 0 <= i < j < |badges| ==> badges[i].id != badges[j].id
  }

  lemma {:induction false} FilterKeepsUniqueIds(badges: seq<BadgeRow>, p: BadgeRow -> bool)
    requires UniqueBadgeIds(badges)
    ensures UniqueBadgeIds(Filter(badges, p))
  {
    if badges != [] {
      var rest := Filter(badges[1..], p);
      FilterKeepsUniqueIds(badges[1..], p);
      if p(badges[0]) {
        forall j | 0 <= j < |rest|
          ensures badges[0].id != rest[j].id
        {
          assert rest[j] in badges[1..];
          var k :| 0 <= k < |badges[1..]| && badges[1..][k] == rest[j];
          assert badges[k + 1] == rest[j];
        }
      }
    }
  }

  /**
   * When the caller's `user_badges` read succeeds and the catalogue has unique ids, the
   * grants of one call keep at most one row per user and badge.
   */
  lemma {:induction false} GrantsKeepOnePerBadge(badges: seq<BadgeRow>, userBadges: seq<UserBadgeRow>,
                                                 userId: string, level: int, totalXp: int, actions: int, now: int)
    requires OneGrantPerBadge(userBadges) && UniqueBadgeIds(badges)
    ensures OneGrantPerBadge(userBadges + Grants(Unlockable(badges, OwnedOrNone(userBadges, userId, false),
                                                            level, totalXp, actions), userId, now))
  {
    var owned := OwnedBadgeIds(userBadges, userId);
    var unlocked := Unlockable(badges, owned, level, totalXp, actions);
    FilterKeepsUniqueIds(badges, Unlocks(owned, level, totalXp, actions));
    var g := Grants(unlocked, userId, now);
    var after := userBadges + g;
    forall i, j | 0 <= i < j < |after|
      ensures after[i].userId != after[j].userId || after[i].badgeId != after[j].badgeId
    {
      if j >= |userBadges| {
        var k := j - |userBadges|;
        GrantsAt(unlocked, userId, now, k);
        assert after[j] == g[k];
        assert unlocked[k] in unlocked;
        if i < |userBadges| {
          assert after[i] == userBadges[i] && userBadges[i] in userBadges;
        } else {
          GrantsAt(unlocked, userId, now, i - |userBadges|);
          assert after[i] == g[i - |userBadges|];
        }
      }
    }
  }

  /**
   * A failed `user_badges` read is taken for "owns nothing": an earned badge the user
   * already holds is reported as newly unlocked and granted a second time.
   */
  lemma OwnedReadFailureRegrants(badges: seq<BadgeRow>, userBadges: seq<UserBadgeRow>, userId: string,
                                 level: int, totalXp: int, actions: int, now: int, b: BadgeRow)
    requires b in badges && Qualifies(b, level, totalXp, actions)
    requires b.id in OwnedBadgeIds(userBadges, userId)
    ensures var unlocked := Unlockable(badges, OwnedOrNone(userBadges, userId, true), level, totalXp, actions);
      && Card(b) in Cards(unlocked)
      && !OneGrantPerBadge(userBadges + Grants(unlocked, userId, now))
  {
    var unlocked := Unlockable(badges, OwnedOrNone(userBadges, userId, true), level, totalXp, actions);
    var after := userBadges + Grants(unlocked, userId, now);
    var u :| u in userBadges && u.userId == userId && u.badgeId == b.id;
    var i :| 0 <= i < |userBadges| && userBadges[i] == u;
    var k :| 0 <= k < |unlocked| && unlocked[k] == b;
    GrantsAt(unlocked, userId, now, k);
    CardsAt(unlocked, k);
    assert after[i] == u;
    assert after[|userBadges| + k] == UserBadgeRow(userId, b.id, now);
  }

  lemma {:induction false} CardsAt(bs: seq<BadgeRow>, k: int)
    requires 0 <= k < |bs|
    ensures Cards(bs)[k] == Card(bs[k])
  {
    if k < |bs| - 1 {
      CardsAt(bs[..|bs| - 1], k);
    }
  }

  /**
   * Failed count or catalogue reads never unlock more: every badge unlocked then is one the
   * same call unlocks when those reads succeed, and without the catalogue nothing unlocks.
   */
  lemma FailedReadsUnlockNoMore(badges: seq<BadgeRow>, views: seq<StreamViewRow>, messages: seq<MessageRow>,
                                userId: string, owned: set<string>, level: int, totalXp: int,
                                watchFails: bool, chatFails: bool, catalogueFails: bool)
    ensures var fewer := Unlockable(RowsOrEmpty(catalogueFails, badges), owned, level, totalXp,
                                    Actions(views, messages, userId, watchFails, chatFails));
      && (forall b :: b in fewer ==>
            b in Unlockable(badges, owned, level, totalXp, Actions(views, messages, userId, false, false)))
      && (catalogueFails ==> fewer == [])
  {
  }

  /** A badge with an unknown requirement type is never unlocked. */
  lemma UnknownRequirementNeverUnlocks(b: BadgeRow, level: int, totalXp: int, actions: int)
    requires b.requirementType !in {"level", "xp", "action_count"}
    ensures !Qualifies(b, level, totalXp, actions)
  {
  }
}
