/**
 * The caller's notifications (app/api/notifications/get/route.ts) and marking one as
 * read (app/api/notifications/mark-read/route.ts).
 */
module Notifications {
  import opened Wrappers
  import opened Http
  import opened Query
  import opened Tables

  /** A notification with its `related_user`. */
  datatype NotificationView = NotificationView(notification: NotificationRow, relatedUser: Option<ProfileCard>)

  datatype Inbox = Inbox(notifications: seq<NotificationView>, unreadCount: nat)

  const PageSize := 50

  /** `.eq('user_id', userId)` on `notifications`. */
  function AddressedTo(userId: string): NotificationRow -> bool
  {
    (n: NotificationRow) => n.userId == userId
  }

  /** The sort key of `.order('created_at', { ascending: false })`. */
  function NewestFirst(n: NotificationRow): int
  {
    -n.createdAt
  }

  /**
   * `.eq('user_id', userId).order('created_at', { ascending: false }).limit(50)`: the
   * caller's 50 newest notifications (all when fewer), newest first.
   */
  function Newest(notifications: seq<NotificationRow>, userId: string): (r: seq<NotificationRow>)
    ensures FirstByKey(r, Filter(notifications, AddressedTo(userId)), NewestFirst, PageSize)
    ensures forall n :: n in r ==> n in notifications && n.userId == userId
  {
    var mine := Filter(notifications, AddressedTo(userId));
    var sorted := SortBy(mine, NewestFirst);
    TakeSortBy(mine, NewestFirst, PageSize);
    TakeSorted(sorted, NewestFirst, PageSize);
    SameMembers(sorted, mine);
    Take(sorted, PageSize)
  }

  /** `.eq('user_id', userId).eq('is_read', false)`, counted. */
  function UnreadCount(notifications: seq<NotificationRow>, userId: string): (c: nat)
    ensures c <= |notifications|
    ensures c == 0 <==> forall n :: n in notifications && n.userId == userId ==> n.isRead
  {
    var unread := Filter(notifications, (n: NotificationRow) => n.userId == userId && !n.isRead);
    assert unread != [] ==> unread[0] in unread;
    |unread|
  }

  /** `[...new Set(xs)]`: the distinct values, each at its first position. */
  function Distinct(xs: seq<string>): (r: seq<string>)
    ensures forall x :: x in r <==> x in xs
    ensures forall i, j :: 0 <= i < j < |r| ==> r[i] != r[j]
  {
    if xs == [] then []
    else
      var d := Distinct(xs[..|xs| - 1]);
      assert xs == xs[..|xs| - 1] + [xs[|xs| - 1]];
      if xs[|xs| - 1] in d then d else d + [xs[|xs| - 1]]
  }

  /** The truthy `related_user_id`s of the list, in order. */
  function RelatedIdList(list: seq<NotificationRow>): (r: seq<string>)
    ensures forall x :: x in r <==> x != "" && exists n :: n in list && n.relatedUserId == x
  {
    if list == [] then []
    else (if list[0].relatedUserId != "" then [list[0].relatedUserId] else []) + RelatedIdList(list[1..])
  }

  /** The ids the profile query asks for: related user ids, de-duplicated, falsy ones dropped. */
  function RelatedIds(list: seq<NotificationRow>): (r: seq<string>)
    ensures forall x :: x in r <==> x != "" && exists n :: n in list && n.relatedUserId == x
    ensures forall i, j :: 0 <= i < j < |r| ==> r[i] != r[j]
  {
    Distinct(RelatedIdList(list))
  }

  /** `profilesMap` after `forEach(profile => map.set(profile.id, profile))`: a later row wins. */
  function ProfileMap(profiles: seq<ProfileRow>): (m: map<string, ProfileRow>)
    ensures forall k :: k in m <==> exists p :: p in profiles && p.id == k
    ensures forall k :: k in m ==> m[k] in profiles && m[k].id == k
  {
    if profiles == [] then map[]
    else
      var last := profiles[|profiles| - 1];
      assert profiles == profiles[..|profiles| - 1] + [last];
      ProfileMap(profiles[..|profiles| - 1])[last.id := last]
  }

  /** The `forEach` loop that fills `profilesMap`. */
  method FillProfileMap(profiles: seq<ProfileRow>) returns (m: map<string, ProfileRow>)
    ensures m == ProfileMap(profiles)
  {
    m := map[];
    for i := 0 to |profiles|
      invariant m == ProfileMap(profiles[..i])
    {
      assert profiles[..i + 1][..i] == profiles[..i];
      m := m[profiles[i].id := profiles[i]];
    }
    assert profiles[..|profiles|] == profiles;
  }

  /** The `related_user` of one notification, given the map. */
  function RelatedUser(n: NotificationRow, m: map<string, ProfileRow>): (u: Option<ProfileCard>)
    ensures u.Some? <==> n.relatedUserId != "" && n.relatedUserId in m
    ensures u.Some? ==> u.value == CardOf(m[n.relatedUserId])
  {
    if n.relatedUserId == "" then None
    else if n.relatedUserId in m then Some(CardOf(m[n.relatedUserId]))
    else None
  }

  /** The `map` that attaches `related_user` to every notification. */
  function Join(list: seq<NotificationRow>, m: map<string, ProfileRow>): (r: seq<NotificationView>)
    ensures |r| == |list|
    ensures forall k :: 0 <= k < |list| ==> r[k] == NotificationView(list[k], RelatedUser(list[k], m))
  {
    seq(|list|, k requires 0 <= k < |list| => NotificationView(list[k], RelatedUser(list[k], m)))
  }

  /** `profiles ... .in('id', ids)`. */
  function ProfilesIn(profiles: seq<ProfileRow>, ids: seq<string>): seq<ProfileRow>
  {
    Filter(profiles, (p: ProfileRow) => p.id in ids)
  }

  /**
   * GET notifications/get. `fetchFails` says whether the list query returns an error; a
   * failing count or profile query reads as no data (count 0, no profiles).
   */
  method Get(db: Store, user: Option<string>, fetchFails: bool, countFails: bool, profilesFail: bool)
    returns (r: Response<Inbox>)
    ensures user.None? ==> r == Fail(401, Unauthorized)
    ensures user.Some? && fetchFails ==> r == Fail(500, "Failed to fetch notifications")
    ensures user.Some? && !fetchFails ==>
      var list := Newest(db.notifications, user.value);
      var ids := RelatedIds(list);
      var m := if ids == [] || profilesFail then map[] else ProfileMap(ProfilesIn(db.profiles, ids));
      r == Ok(Inbox(Join(list, m), if countFails then 0 else UnreadCount(db.notifications, user.value)))
  {
    if user.None? {
      return Fail(401, Unauthorized);
    }
    if fetchFails {
      return Fail(500, "Failed to fetch notifications");
    }
    var list := Newest(db.notifications, user.value);
    var unread := if countFails then 0 else UnreadCount(db.notifications, user.value);
    var ids := RelatedIds(list);
    var m := map[];
    if |ids| > 0 && !profilesFail {
      m := FillProfileMap(ProfilesIn(db.profiles, ids));
    }
    r := Ok(Inbox(Join(list, m), unread));
  }

  /** The update mark-read makes: only the caller's notification with that id. */
  function MarkedRead(notifications: seq<NotificationRow>, id: string, userId: string): (r: seq<NotificationRow>)
    ensures |r| == |notifications|
    ensures forall i :: 0 <= i < |r| ==>
      r[i].isRead == (notifications[i].isRead || (notifications[i].id == id && notifications[i].userId == userId))
    ensures forall i :: 0 <= i < |r| ==> r[i] == notifications[i].(isRead := r[i].isRead)
  {
    UpdateWhere(notifications, (n: NotificationRow) => n.id == id && n.userId == userId,
                (n: NotificationRow) => n.(isRead := true))
  }

  /** POST notifications/mark-read. `notificationId` is `""` when absent. */
  method MarkRead(db: Store, user: Option<string>, notificationId: string, updateFails: bool)
    returns (r: Response<Success>)
    modifies db`notifications
    ensures user.None? ==> r == Fail(401, Unauthorized)
    ensures user.Some? && notificationId == "" ==> r == Fail(400, "notification_id is required")
    ensures user.Some? && notificationId != "" ==>
      r == if updateFails then Fail(500, "Failed to update notification") else Ok(Success)
    ensures db.notifications ==
      if user.Some? && notificationId != "" && !updateFails
      then MarkedRead(old(db.notifications), notificationId, user.value)
      else old(db.notifications)
  {
    if user.None? {
      return Fail(401, Unauthorized);
    }
    if notificationId == "" {
      return Fail(400, "notification_id is required");
    }
    if updateFails {
      return Fail(500, "Failed to update notification");
    }
    db.notifications := MarkedRead(db.notifications, notificationId, user.value);
    r := Ok(Success);
  }

  // Properties.

  /**
   * `related_user` is absent exactly when the notification has no related user id or no
   * profile with that id was fetched; when present it is that profile.
   */
  lemma RelatedUserMatches(profiles: seq<ProfileRow>, list: seq<NotificationRow>, k: int)
    requires 0 <= k < |list|
    ensures var m := ProfileMap(ProfilesIn(profiles, RelatedIds(list)));
      var u := Join(list, m)[k].relatedUser;
      && (u.Some? <==> list[k].relatedUserId != "" && exists p :: p in profiles && p.id == list[k].relatedUserId)
      && (u.Some? ==> u.value.id == list[k].relatedUserId)
  {
    var ids := RelatedIds(list);
    var id := list[k].relatedUserId;
    assert list[k] in list;
    if id != "" && exists p :: p in profiles && p.id == id {
      var p :| p in profiles && p.id == id;
      assert p in ProfilesIn(profiles, ids);
    }
  }

  /** The page holds all of the caller's notifications when they have at most 50. */
  lemma SmallInboxComplete(notifications: seq<NotificationRow>, userId: string)
    requires |Filter(notifications, AddressedTo(userId))| <= PageSize
    ensures forall n :: n in notifications && n.userId == userId ==> n in Newest(notifications, userId)
  {
    var mine := Filter(notifications, AddressedTo(userId));
    var sorted := SortBy(mine, NewestFirst);
    forall n | n in notifications && n.userId == userId
      ensures n in Newest(notifications, userId)
    {
      assert n in multiset(mine);
      assert n in multiset(sorted);
    }
  }

  /** Marking a notification read twice is the same as once. */
  lemma MarkReadIdempotent(notifications: seq<NotificationRow>, id: string, userId: string)
    ensures MarkedRead(MarkedRead(notifications, id, userId), id, userId) == MarkedRead(notifications, id, userId)
  {
    UpdateWhereIdempotent(notifications, (n: NotificationRow) => n.id == id && n.userId == userId,
                          (n: NotificationRow) => n.(isRead := true));
  }

  /** Only the caller's row with that id changes, and only its `is_read`; another user's row is never touched. */
  lemma MarkReadTouchesOwnRow(notifications: seq<NotificationRow>, id: string, userId: string, i: int)
    requires 0 <= i < |notifications|
    ensures var after := MarkedRead(notifications, id, userId);
      && (notifications[i].id == id && notifications[i].userId == userId ==> after[i] == notifications[i].(isRead := true))
      && (notifications[i].id != id || notifications[i].userId != userId ==> after[i] == notifications[i])
  {
  }

  /** Marking read never leaves the caller more unread notifications, and leaves other users' counts alone. */
  lemma {:induction false} MarkReadUnreadCounts(notifications: seq<NotificationRow>, id: string, userId: string, other: string)
    requires other != userId
    ensures UnreadCount(MarkedRead(notifications, id, userId), userId) <= UnreadCount(notifications, userId)
    ensures UnreadCount(MarkedRead(notifications, id, userId), other) == UnreadCount(notifications, other)
  {
    if notifications != [] {
      var after := MarkedRead(notifications, id, userId);
      assert after == [after[0]] + MarkedRead(notifications[1..], id, userId);
      MarkReadUnreadCounts(notifications[1..], id, userId, other);
    }
  }
}
