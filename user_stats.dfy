/**
 * The caller's gamification summary (app/api/gamification/get-user-stats/route.ts):
 * XP and level with their defaults, owned badges, the special emojis the level
 * unlocks, and the watch and visible-message counts. Read-only.
 */
module UserStats {
  import opened Wrappers
  import opened Http
  import opened Query
  import opened Tables
  import opened CheckBadges

  /** An entry of `badges`: the joined badge flattened, with the unlock time. */
  datatype OwnedBadge = OwnedBadge(id: string, name: string, description: string, icon: string, unlockedAt: int)

  datatype Stats = Stats(
    totalXp: int, level: int, badges: seq<OwnedBadge>, emojis: seq<EmojiRow>,
    streamsWatched: nat, messagesSent: nat)

  /** The join condition `badges.id = user_badges.badge_id`. */
  function BadgeIdIs(id: string): BadgeRow -> bool
  {
    (b: BadgeRow) => b.id == id
  }

  /** `badges:badge_id (...)`: the badge a `user_badges` row points at, if it exists. */
  function BadgeById(badges: seq<BadgeRow>, id: string): (r: Option<BadgeRow>)
    ensures r.Some? <==> |Filter(badges, BadgeIdIs(id))| == 1
    ensures r.Some? ==> r.value in badges && r.value.id == id
    ensures r.Some? ==> forall b :: b in badges && b.id == id ==> b == r.value
  {
    Single(Filter(badges, BadgeIdIs(id)))
  }

  /**
   * The flattened badge list, in `user_badges` order; `None` when a row's badge is
   * missing, where reading `b.badges.id` throws.
   */
  function Flatten(owned: seq<UserBadgeRow>, badges: seq<BadgeRow>): (r: Option<seq<OwnedBadge>>)
    ensures r.Some? <==> forall k :: 0 <= k < |owned| ==> BadgeById(badges, owned[k].badgeId).Some?
    ensures r.Some? ==> |r.value| == |owned| && forall k :: 0 <= k < |owned| ==>
      var b := BadgeById(badges, owned[k].badgeId).value;
      && r.value[k] == OwnedBadge(b.id, b.name, b.description, b.icon, owned[k].unlockedAt)
      && r.value[k].id == owned[k].badgeId
  {
    if owned == [] then Some([])
    else match BadgeById(badges, owned[0].badgeId)
      case None => None
      case Some(b) =>
        match Flatten(owned[1..], badges)
        case None => None
        case Some(rest) => Some([OwnedBadge(b.id, b.name, b.description, b.icon, owned[0].unlockedAt)] + rest)
  }

  /** `.lte('unlock_level', level).order('unlock_level', { ascending: true })`. */
  function UnlockedEmojis(emojis: seq<EmojiRow>, level: int): (r: seq<EmojiRow>)
    ensures SortedBy(r, (e: EmojiRow) => e.unlockLevel)
    ensures multiset(r) == multiset(Filter(emojis, (e: EmojiRow) => e.unlockLevel <= level))
  {
    SortBy(Filter(emojis, (e: EmojiRow) => e.unlockLevel <= level), (e: EmojiRow) => e.unlockLevel)
  }

  /** `.eq('user_id', userId)` on `user_badges`. */
  function GrantedTo(userId: string): UserBadgeRow -> bool
  {
    (u: UserBadgeRow) => u.userId == userId
  }

  /**
   * `badges?.map(...) || []`: no rows when the read fails, otherwise the flattened list,
   * `None` when a row's badge is missing.
   */
  function OwnedOrEmpty(userBadges: seq<UserBadgeRow>, badges: seq<BadgeRow>, userId: string,
                        badgesFail: bool): (r: Option<seq<OwnedBadge>>)
    ensures badgesFail ==> r == Some([])
    ensures !badgesFail ==> r == Flatten(Filter(userBadges, GrantedTo(userId)), badges)
  {
    if badgesFail then Some([]) else Flatten(Filter(userBadges, GrantedTo(userId)), badges)
  }

  /**
   * GET get-user-stats. Only the profile read is checked; the flags say which of the
   * other four reads returns an error: the badges (`badgesFail`), the emojis
   * (`emojisFail`) and the two counts (`watchFails`, `chatFails`).
   */
  function GetUserStats(profiles: seq<ProfileRow>, userBadges: seq<UserBadgeRow>, badges: seq<BadgeRow>,
                        emojis: seq<EmojiRow>, views: seq<StreamViewRow>, messages: seq<MessageRow>,
                        user: Option<string>, badgesFail: bool, emojisFail: bool, watchFails: bool,
                        chatFails: bool): (r: Response<Stats>)
    ensures user.None? ==> r == Fail(401, Unauthorized)
    ensures user.Some? ==> (r.status == 404 <==> ProfileById(profiles, user.value).None?)
    ensures user.Some? && ProfileById(profiles, user.value).Some? ==>
      (r.status == 500 <==> !badgesFail && Flatten(Filter(userBadges, GrantedTo(user.value)), badges).None?)
    ensures r.status in {200, 401, 404, 500}
    ensures r.status == 200 ==> r.payload.Body? && user.Some?
  {
    if user.None? then Fail(401, Unauthorized)
    else
      var uid := user.value;
      match ProfileById(profiles, uid)
      case None => Fail(404, "Profile not found")
      case Some(p) =>
        var level := EffectiveLevel(p);
        match OwnedOrEmpty(userBadges, badges, uid, badgesFail)
        case None => Fail(500, InternalError)
        case Some(owned) =>
          Ok(Stats(p.totalXp, level, owned, RowsOrEmpty(emojisFail, UnlockedEmojis(emojis, level)),
                   CountOrZero(watchFails, WatchCount(views, uid)),
                   CountOrZero(chatFails, VisibleMessageCount(messages, uid))))
  }

  // Properties.

  /**
   * The reported figures: the stored XP, the defaulted level, the caller's badges in
   * `user_badges` order, and exactly the emojis at or below the level in ascending order;
   * a failed badge or emoji read reports an empty list instead.
   */
  lemma StatsContents(profiles: seq<ProfileRow>, userBadges: seq<UserBadgeRow>, badges: seq<BadgeRow>,
                      emojis: seq<EmojiRow>, views: seq<StreamViewRow>, messages: seq<MessageRow>, userId: string,
                      badgesFail: bool, emojisFail: bool, watchFails: bool, chatFails: bool)
    requires GetUserStats(profiles, userBadges, badges, emojis, views, messages, Some(userId),
                          badgesFail, emojisFail, watchFails, chatFails).status == 200
    ensures var s := GetUserStats(profiles, userBadges, badges, emojis, views, messages, Some(userId),
                                  badgesFail, emojisFail, watchFails, chatFails).payload.value;
      var p := ProfileById(profiles, userId).value;
      && s.level == EffectiveLevel(p) && s.totalXp == p.totalXp
      && (p.level >= 0 ==> s.level >= 1)
      && (badgesFail ==> s.badges == [])
      && (!badgesFail ==> s.badges == Flatten(Filter(userBadges, GrantedTo(userId)), badges).value)
      && (emojisFail ==> s.emojis == [])
      && (!emojisFail ==> forall e :: e in s.emojis <==> e in emojis && e.unlockLevel <= s.level)
      && SortedBy(s.emojis, (e: EmojiRow) => e.unlockLevel)
  {
    var s := GetUserStats(profiles, userBadges, badges, emojis, views, messages, Some(userId),
                          badgesFail, emojisFail, watchFails, chatFails).payload.value;
    if !emojisFail {
      var f := Filter(emojis, (e: EmojiRow) => e.unlockLevel <= s.level);
      forall e
        ensures e in s.emojis <==> e in f
      {
        assert e in s.emojis <==> e in multiset(s.emojis);
        assert e in f <==> e in multiset(f);
      }
    }
  }

  /**
   * `streams_watched` is the caller's view rows and `messages_sent` their visible messages,
   * 0 when the count read fails; together they are the action count badge unlocking uses
   * under the same failures.
   */
  lemma CountsMatchBadgeRule(profiles: seq<ProfileRow>, userBadges: seq<UserBadgeRow>, badges: seq<BadgeRow>,
                             emojis: seq<EmojiRow>, views: seq<StreamViewRow>, messages: seq<MessageRow>,
                             userId: string, badgesFail: bool, emojisFail: bool, watchFails: bool, chatFails: bool)
    requires GetUserStats(profiles, userBadges, badges, emojis, views, messages, Some(userId),
                          badgesFail, emojisFail, watchFails, chatFails).status == 200
    ensures var s := GetUserStats(profiles, userBadges, badges, emojis, views, messages, Some(userId),
                                  badgesFail, emojisFail, watchFails, chatFails).payload.value;
      && (watchFails ==> s.streamsWatched == 0)
      && (!watchFails ==> s.streamsWatched == WatchCount(views, userId))
      && (chatFails ==> s.messagesSent == 0)
      && (!chatFails ==> s.messagesSent == VisibleMessageCount(messages, userId))
      && s.streamsWatched + s.messagesSent == Actions(views, messages, userId, watchFails, chatFails)
  {
  }

  /** Hidden messages are not counted: hiding one lowers `messages_sent` by one. */
  lemma HiddenMessageNotCounted(messages: seq<MessageRow>, m: MessageRow, userId: string)
    requires m.userId == userId
    ensures VisibleMessageCount(messages + [m.(hidden := true)], userId) == VisibleMessageCount(messages, userId)
    ensures VisibleMessageCount(messages + [m.(hidden := false)], userId) == VisibleMessageCount(messages, userId) + 1
  {
    var p := (x: MessageRow) => x.userId == userId && !x.hidden;
    FilterAppend(messages, [m.(hidden := true)], p);
    FilterAppend(messages, [m.(hidden := false)], p);
    assert Filter([m.(hidden := true)], p) == [];
    assert Filter([m.(hidden := false)], p) == [m.(hidden := false)];
  }
}
