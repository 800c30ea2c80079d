/**
 * The rows of the hosted database's tables and the database itself. The handlers
 * reach the database only through their queries; here it is one object whose fields
 * are the tables, each a sequence of rows in storage order. Every string column that
 * a handler only tests for truthiness uses `""` for SQL `null`; the nullable columns a
 * handler writes or returns as `null` are `Option`s. Timestamps are integers
 * (milliseconds), in the clock the caller passes as `now`.
 */
module Tables {
  import opened Wrappers
  import opened Query

  datatype StreamRow = StreamRow(
    id: string, userId: string, title: string, streamKey: string, ingestUrl: string,
    playbackId: string, isLive: bool, category: Option<string>, createdAt: int)

  /** A recorded broadcast (VOD). */
  datatype VideoRow = VideoRow(
    id: string, streamId: string, userId: string, playbackUrl: string,
    duration: Option<int>, createdAt: int)

  /** A chat line; `hidden` messages are stored but were judged inappropriate. */
  datatype MessageRow = MessageRow(
    id: string, userId: string, streamId: string, content: string, hidden: bool, createdAt: int)

  datatype ProfileRow = ProfileRow(
    id: string, username: string, avatarUrl: Option<string>, totalXp: int, level: int)

  /** The profile columns other rows are joined with: `id, username, avatar_url`. */
  datatype ProfileCard = ProfileCard(id: string, username: string, avatarUrl: Option<string>)

  function CardOf(p: ProfileRow): ProfileCard
  {
    ProfileCard(p.id, p.username, p.avatarUrl)
  }

  datatype FollowRow = FollowRow(id: string, followerId: string, followingId: string)

  /** `relatedUserId` is `""` when the notification has no related user. */
  datatype NotificationRow = NotificationRow(
    id: string, userId: string, message: string, relatedUserId: string, isRead: bool, createdAt: int)

  datatype ScheduleRow = ScheduleRow(
    id: string, userId: string, streamId: Option<string>, title: string,
    description: Option<string>, scheduledStart: int, scheduledEnd: Option<int>,
    isRecurring: bool, recurringPattern: Option<string>, timezone: string, isActive: bool)

  /** One row per stream a user has been awarded watch XP for. */
  datatype StreamViewRow = StreamViewRow(id: string, userId: string, streamId: string)

  datatype XpLogRow = XpLogRow(
    id: string, userId: string, xpAmount: int, actionType: string, streamId: Option<string>)

  datatype BadgeRow = BadgeRow(
    id: string, name: string, description: string, icon: string,
    requirementType: string, requirementValue: int)

  /** An awarded badge; `unlockedAt` is the column's default, the insert time. */
  datatype UserBadgeRow = UserBadgeRow(userId: string, badgeId: string, unlockedAt: int)

  datatype SummaryRow = SummaryRow(
    id: string, streamId: string, shortSummary: string, longSummary: string, createdAt: int)

  datatype EmojiRow = EmojiRow(id: string, emoji: string, unlockLevel: int)

  /** The database: one field per table. */
  class Store {
    var streams: seq<StreamRow>
    var videos: seq<VideoRow>
    var messages: seq<MessageRow>
    var profiles: seq<ProfileRow>
    var follows: seq<FollowRow>
    var notifications: seq<NotificationRow>
    var schedules: seq<ScheduleRow>
    var streamViews: seq<StreamViewRow>
    var xpLog: seq<XpLogRow>
    var badges: seq<BadgeRow>
    var userBadges: seq<UserBadgeRow>
    var summaries: seq<SummaryRow>
    var specialEmojis: seq<EmojiRow>

    constructor ()
      ensures streams == [] && videos == [] && messages == [] && profiles == []
      ensures follows == [] && notifications == [] && schedules == [] && streamViews == []
      ensures xpLog == [] && badges == [] && userBadges == [] && summaries == [] && specialEmojis == []
    {
      streams, videos, messages, profiles := [], [], [], [];
      follows, notifications, schedules, streamViews := [], [], [], [];
      xpLog, badges, userBadges, summaries, specialEmojis := [], [], [], [], [];
    }
  }

  /** `.eq('id', id)` on `profiles`. */
  function ProfileIdIs(id: string): ProfileRow -> bool
  {
    (p: ProfileRow) => p.id == id
  }

  /** `.eq('id', id)` on `streams`. */
  function StreamIdIs(id: string): StreamRow -> bool
  {
    (s: StreamRow) => s.id == id
  }

  /** `profiles ... .eq('id', id).single()`. */
  function ProfileById(profiles: seq<ProfileRow>, id: string): (p: Option<ProfileRow>)
    ensures p.Some? <==> |Filter(profiles, ProfileIdIs(id))| == 1
    ensures p.Some? ==> p.value in profiles && p.value.id == id
    ensures p.Some? ==> forall q :: q in profiles && q.id == id ==> q == p.value
  {
    Single(Filter(profiles, ProfileIdIs(id)))
  }

  /** `streams ... .eq('id', id).single()`. */
  function StreamById(streams: seq<StreamRow>, id: string): (s: Option<StreamRow>)
    ensures s.Some? <==> |Filter(streams, StreamIdIs(id))| == 1
    ensures s.Some? ==> s.value in streams && s.value.id == id
    ensures s.Some? ==> forall t :: t in streams && t.id == id ==> t == s.value
  {
    Single(Filter(streams, StreamIdIs(id)))
  }

  /** `streams.update(...).eq('id', id)`, the change given as `f`. */
  function UpdateStream(streams: seq<StreamRow>, id: string, f: StreamRow -> StreamRow): (r: seq<StreamRow>)
    ensures |r| == |streams|
    ensures forall i :: 0 <= i < |streams| ==> r[i] == if streams[i].id == id then f(streams[i]) else streams[i]
  {
    UpdateWhere(streams, StreamIdIs(id), f)
  }

  /** After an update by id that keeps ids, the same lookup finds the updated row. */
  lemma StreamByIdAfterUpdate(streams: seq<StreamRow>, id: string, f: StreamRow -> StreamRow)
    requires forall x :: f(x).id == x.id
    requires StreamById(streams, id).Some?
    ensures StreamById(UpdateStream(streams, id, f), id) == Some(f(StreamById(streams, id).value))
  {
    var p := StreamIdIs(id);
    FilterUpdateWhere(streams, p, f);
    var m := Filter(streams, p);
    assert m[0] in m;
  }

  /** `profiles.update(...).eq('id', id)`, the change given as `f`. */
  function UpdateProfile(profiles: seq<ProfileRow>, id: string, f: ProfileRow -> ProfileRow): (r: seq<ProfileRow>)
    ensures |r| == |profiles|
    ensures forall i :: 0 <= i < |profiles| ==> r[i] == if profiles[i].id == id then f(profiles[i]) else profiles[i]
  {
    UpdateWhere(profiles, ProfileIdIs(id), f)
  }

  /** After an update by id that keeps ids, the same lookup finds the updated profile. */
  lemma ProfileByIdAfterUpdate(profiles: seq<ProfileRow>, id: string, f: ProfileRow -> ProfileRow)
    requires forall x :: f(x).id == x.id
    requires ProfileById(profiles, id).Some?
    ensures ProfileById(UpdateProfile(profiles, id, f), id) == Some(f(ProfileById(profiles, id).value))
  {
    var p := ProfileIdIs(id);
    FilterUpdateWhere(profiles, p, f);
    var m := Filter(profiles, p);
    assert m[0] in m;
  }
}
