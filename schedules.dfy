/**
 * Stream schedules (app/api/schedules/create, update, delete and get): a validated
 * insert, an owner-only verbatim update, an owner-only soft delete, and a filtered,
 * ordered, bounded listing of the active rows.
 */
module Schedules {
  import opened Wrappers
  import opened Http
  import opened Query
  import opened Tables

  /**
   * The create body. Strings are `""` when absent; `scheduledStart` and `scheduledEnd`
   * come with what the date parser made of them (`None` for an invalid date);
   * `isRecurring` and `timezone` are `None` when the field is absent.
   */
  datatype NewSchedule = NewSchedule(
    title: string, description: string, scheduledStart: string, startParsed: Option<int>,
    scheduledEnd: string, endParsed: Option<int>, isRecurring: Option<bool>,
    recurringPattern: string, timezone: Option<string>, streamId: string)

  /** The create response: the inserted row and the caller's profile, if found. */
  datatype Created = Created(schedule: ScheduleRow, profile: Option<ProfileCard>)

  /** `x || null` for a string column. */
  function OrNull(s: string): (r: Option<string>)
    ensures r.None? <==> s == ""
    ensures r.Some? ==> r.value == s
  {
    if s == "" then None else Some(s)
  }

  /** The date checks of create: the start, and the end when one is given. */
  function DateGuard(body: NewSchedule): (g: Guard<(int, Option<int>)>)
    ensures g.Pass? <==>
      && body.title != "" && body.scheduledStart != "" && body.startParsed.Some?
      && (body.scheduledEnd != "" ==> body.endParsed.Some? && body.endParsed.value > body.startParsed.value)
    ensures g.Pass? ==> g.value.0 == body.startParsed.value
    ensures g.Pass? ==> (g.value.1.Some? <==> body.scheduledEnd != "")
    ensures g.Pass? && g.value.1.Some? ==> g.value.1.value > g.value.0
    ensures g.Reject? ==> g.status == 400
  {
    if body.title == "" || body.scheduledStart == "" then Reject(400, "title and scheduled_start are required")
    else if body.startParsed.None? then Reject(400, "Invalid scheduled_start date")
    else if body.scheduledEnd == "" then Pass((body.startParsed.value, None))
    else if body.endParsed.None? || body.endParsed.value <= body.startParsed.value then
      Reject(400, "Invalid scheduled_end date")
    else Pass((body.startParsed.value, body.endParsed))
  }

  /** The row create inserts, with its defaults: not recurring, UTC, active. */
  function NewRow(id: string, userId: string, body: NewSchedule, start: int, end: Option<int>): (s: ScheduleRow)
    ensures s.id == id && s.userId == userId && s.isActive && s.title == body.title
    ensures s.scheduledStart == start && s.scheduledEnd == end
    ensures s.isRecurring == (body.isRecurring == Some(true))
    ensures s.timezone == (if body.timezone.None? then "UTC" else body.timezone.value)
    ensures s.description == OrNull(body.description) && s.recurringPattern == OrNull(body.recurringPattern)
    ensures s.streamId == OrNull(body.streamId)
  {
    ScheduleRow(id, userId, OrNull(body.streamId), body.title, OrNull(body.description), start, end,
                body.isRecurring.GetOr(false), OrNull(body.recurringPattern), body.timezone.GetOr("UTC"), true)
  }

  /** POST schedules/create. */
  method Create(db: Store, user: Option<string>, body: NewSchedule, insertFails: bool, newId: string)
    returns (r: Response<Created>)
    modifies db`schedules
    ensures user.None? ==> r == Fail(401, Unauthorized)
    ensures user.Some? && DateGuard(body).Reject? ==> r == Fail(400, DateGuard(body).message)
    ensures user.Some? && DateGuard(body).Pass? && insertFails ==> r == Fail(500, "Failed to create schedule")
    ensures
      if user.Some? && DateGuard(body).Pass? && !insertFails
      then
        var g := DateGuard(body).value;
        var row := NewRow(newId, user.value, body, g.0, g.1);
        var p := ProfileById(db.profiles, user.value);
        && db.schedules == old(db.schedules) + [row]
        && r == Ok(Created(row, if p.Some? then Some(CardOf(p.value)) else None))
      else db.schedules == old(db.schedules)
  {
    if user.None? {
      return Fail(401, Unauthorized);
    }
    var g := DateGuard(body);
    if g.Reject? {
      return Fail(g.status, g.message);
    }
    var (startDate, endDate) := g.value;
    if insertFails {
      return Fail(500, "Failed to create schedule");
    }
    var row := NewRow(newId, user.value, body, startDate, endDate);
    db.schedules := db.schedules + [row];
    var profile := ProfileById(db.profiles, user.value);
    r := Ok(Created(row, if profile.Some? then Some(CardOf(profile.value)) else None));
  }

  /** `.eq('id', id)` on `stream_schedules`. */
  function ScheduleIdIs(id: string): ScheduleRow -> bool
  {
    (s: ScheduleRow) => s.id == id
  }

  /** The ownership check shared by update and delete. */
  function OwnerGuard(schedules: seq<ScheduleRow>, userId: string, scheduleId: string): (g: Guard<ScheduleRow>)
    ensures g.Pass? <==>
      && scheduleId != ""
      && Single(Filter(schedules, ScheduleIdIs(scheduleId))).Some?
      && Single(Filter(schedules, ScheduleIdIs(scheduleId))).value.userId == userId
    ensures g.Pass? ==> g.value in schedules && g.value.id == scheduleId && g.value.userId == userId
    ensures g.Reject? ==> g.status in {400, 403, 404}
  {
    if scheduleId == "" then Reject(400, "schedule_id is required")
    else match Single(Filter(schedules, ScheduleIdIs(scheduleId)))
      case None => Reject(404, "Schedule not found")
      case Some(s) =>
        assert s in Filter(schedules, ScheduleIdIs(scheduleId));
        if s.userId != userId then Reject(403, "Unauthorized") else Pass(s)
  }

  /**
   * The other fields of the update body, each `None` when absent; a nullable column's
   * field is itself an `Option`, `None` inside for JSON `null`.
   */
  datatype Patch = Patch(
    id: Option<string>, userId: Option<string>, streamId: Option<Option<string>>, title: Option<string>,
    description: Option<Option<string>>, scheduledStart: Option<int>, scheduledEnd: Option<Option<int>>,
    isRecurring: Option<bool>, recurringPattern: Option<Option<string>>, timezone: Option<string>,
    isActive: Option<bool>)

  /** `.update(updates)`: every field present in the body is written as given. */
  function Apply(patch: Patch): (f: ScheduleRow -> ScheduleRow)
    ensures forall s :: f(s) == s <==> Agrees(patch, s)
    ensures forall s :: Agrees(patch, f(s))
    ensures forall s :: KeepsAbsent(patch, s, f(s))
    ensures forall s :: f(f(s)) == f(s)
  {
    (s: ScheduleRow) => ScheduleRow(
      patch.id.GetOr(s.id), patch.userId.GetOr(s.userId), patch.streamId.GetOr(s.streamId),
      patch.title.GetOr(s.title), patch.description.GetOr(s.description),
      patch.scheduledStart.GetOr(s.scheduledStart), patch.scheduledEnd.GetOr(s.scheduledEnd),
      patch.isRecurring.GetOr(s.isRecurring), patch.recurringPattern.GetOr(s.recurringPattern),
      patch.timezone.GetOr(s.timezone), patch.isActive.GetOr(s.isActive))
  }

  /** Every field the body gives already has that value in the row. */
  predicate Agrees(patch: Patch, s: ScheduleRow)
  {
    && (patch.id.Some? ==> patch.id.value == s.id)
    && (patch.userId.Some? ==> patch.userId.value == s.userId)
    && (patch.streamId.Some? ==> patch.streamId.value == s.streamId)
    && (patch.title.Some? ==> patch.title.value == s.title)
    && (patch.description.Some? ==> patch.description.value == s.description)
    && (patch.scheduledStart.Some? ==> patch.scheduledStart.value == s.scheduledStart)
    && (patch.scheduledEnd.Some? ==> patch.scheduledEnd.value == s.scheduledEnd)
    && (patch.isRecurring.Some? ==> patch.isRecurring.value == s.isRecurring)
    && (patch.recurringPattern.Some? ==> patch.recurringPattern.value == s.recurringPattern)
    && (patch.timezone.Some? ==> patch.timezone.value == s.timezone)
    && (patch.isActive.Some? ==> patch.isActive.value == s.isActive)
  }

  /** Every column the body does not give has the same value in `t` as in `s`. */
  predicate KeepsAbsent(patch: Patch, s: ScheduleRow, t: ScheduleRow)
  {
    && (patch.id.None? ==> t.id == s.id)
    && (patch.userId.None? ==> t.userId == s.userId)
    && (patch.streamId.None? ==> t.streamId == s.streamId)
    && (patch.title.None? ==> t.title == s.title)
    && (patch.description.None? ==> t.description == s.description)
    && (patch.scheduledStart.None? ==> t.scheduledStart == s.scheduledStart)
    && (patch.scheduledEnd.None? ==> t.scheduledEnd == s.scheduledEnd)
    && (patch.isRecurring.None? ==> t.isRecurring == s.isRecurring)
    && (patch.recurringPattern.None? ==> t.recurringPattern == s.recurringPattern)
    && (patch.timezone.None? ==> t.timezone == s.timezone)
    && (patch.isActive.None? ==> t.isActive == s.isActive)
  }

  /** PATCH schedules/update. `scheduleId` is `""` when absent. */
  method Update(db: Store, user: Option<string>, scheduleId: string, patch: Patch, updateFails: bool)
    returns (r: Response<ScheduleRow>)
    modifies db`schedules
    ensures user.None? ==> r == Fail(401, Unauthorized)
    ensures user.Some? && OwnerGuard(old(db.schedules), user.value, scheduleId).Reject? ==>
      var g := OwnerGuard(old(db.schedules), user.value, scheduleId);
      r == Fail(g.status, g.message)
    ensures user.Some? && OwnerGuard(old(db.schedules), user.value, scheduleId).Pass? ==>
      var g := OwnerGuard(old(db.schedules), user.value, scheduleId);
      r == if updateFails then Fail(500, "Failed to update schedule") else Ok(Apply(patch)(g.value))
    ensures db.schedules ==
      if user.Some? && OwnerGuard(old(db.schedules), user.value, scheduleId).Pass? && !updateFails
      then UpdateWhere(old(db.schedules), ScheduleIdIs(scheduleId), Apply(patch))
      else old(db.schedules)
  {
    if user.None? {
      return Fail(401, Unauthorized);
    }
    var g := OwnerGuard(db.schedules, user.value, scheduleId);
    if g.Reject? {
      return Fail(g.status, g.message);
    }
    if updateFails {
      return Fail(500, "Failed to update schedule");
    }
    db.schedules := UpdateWhere(db.schedules, ScheduleIdIs(scheduleId), Apply(patch));
    r := Ok(Apply(patch)(g.value));
  }

  /** `.update({ is_active: false })`: the soft delete clears the flag and keeps every other column. */
  function Deactivate(s: ScheduleRow): (t: ScheduleRow)
    ensures !t.isActive && t.id == s.id
    ensures t.(isActive := s.isActive) == s
  {
    s.(isActive := false)
  }

  /** DELETE schedules/delete. `scheduleId` is `""` when absent. */
  method Delete(db: Store, user: Option<string>, scheduleId: string, updateFails: bool)
    returns (r: Response<Success>)
    modifies db`schedules
    ensures user.None? ==> r == Fail(401, Unauthorized)
    ensures user.Some? && OwnerGuard(old(db.schedules), user.value, scheduleId).Reject? ==>
      var g := OwnerGuard(old(db.schedules), user.value, scheduleId);
      r == Fail(g.status, g.message)
    ensures user.Some? && OwnerGuard(old(db.schedules), user.value, scheduleId).Pass? ==>
      r == if updateFails then Fail(500, "Failed to delete schedule") else Ok(Success)
    ensures db.schedules ==
      if user.Some? && OwnerGuard(old(db.schedules), user.value, scheduleId).Pass? && !updateFails
      then UpdateWhere(old(db.schedules), ScheduleIdIs(scheduleId), Deactivate)
      else old(db.schedules)
  {
    if user.None? {
      return Fail(401, Unauthorized);
    }
    var g := OwnerGuard(db.schedules, user.value, scheduleId);
    if g.Reject? {
      return Fail(g.status, g.message);
    }
    if updateFails {
      return Fail(500, "Failed to delete schedule");
    }
    db.schedules := UpdateWhere(db.schedules, ScheduleIdIs(scheduleId), Deactivate);
    r := Ok(Success);
  }

  const DefaultLimit := 50

  /** The rows the listing may return: active, of `userId` when given, not yet started when `upcoming`. */
  predicate Listed(s: ScheduleRow, userId: string, upcoming: bool, now: int)
  {
    s.isActive && (userId != "" ==> s.userId == userId) && (upcoming ==> s.scheduledStart >= now)
  }

  /**
   * GET schedules/get. `userId` is `""` when absent, `upcoming` is whether the parameter
   * is exactly `"true"`, `limit` the parsed `limit` parameter (`None` when absent).
   */
  function List(schedules: seq<ScheduleRow>, userId: string, upcoming: string, limit: Option<nat>, now: int,
                queryFails: bool): (r: Response<seq<ScheduleRow>>)
    ensures r.status == 200 <==> !queryFails
    ensures r.status == 200 ==> r.payload.Body?
    ensures r.status == 200 ==>
      var rows := r.payload.value;
      && FirstByKey(rows, Filter(schedules, ListedAt(userId, upcoming == "true", now)), StartsFirst,
                    limit.GetOr(DefaultLimit))
      && (forall s :: s in rows ==> s in schedules && Listed(s, userId, upcoming == "true", now))
  {
    if queryFails then Fail(500, "Failed to fetch schedules")
    else
      var matching := Filter(schedules, ListedAt(userId, upcoming == "true", now));
      var sorted := SortBy(matching, StartsFirst);
      TakeSortBy(matching, StartsFirst, limit.GetOr(DefaultLimit));
      TakeSorted(sorted, StartsFirst, limit.GetOr(DefaultLimit));
      SameMembers(sorted, matching);
      Ok(Take(sorted, limit.GetOr(DefaultLimit)))
  }

  /** The filters of the listing query, as one row predicate. */
  function ListedAt(userId: string, upcoming: bool, now: int): ScheduleRow -> bool
  {
    (s: ScheduleRow) => Listed(s, userId, upcoming, now)
  }

  /** The sort key of `.order('scheduled_start', { ascending: true })`. */
  function StartsFirst(s: ScheduleRow): int
  {
    s.scheduledStart
  }

  // Properties.

  /** A created schedule that has an end ends after it starts. */
  lemma CreatedEndsAfterStart(body: NewSchedule, id: string, userId: string)
    requires DateGuard(body).Pass?
    ensures var g := DateGuard(body).value;
      var row := NewRow(id, userId, body, g.0, g.1);
      row.scheduledEnd.Some? ==> row.scheduledEnd.value > row.scheduledStart
  {
  }

  /** The defaults apply only to absent fields: an explicit empty timezone is stored as given. */
  lemma TimezoneDefaultOnlyWhenAbsent(body: NewSchedule, id: string, userId: string, start: int, end: Option<int>)
    ensures body.timezone.None? ==> NewRow(id, userId, body, start, end).timezone == "UTC"
    ensures body.timezone == Some("") ==> NewRow(id, userId, body, start, end).timezone == ""
  {
  }

  /** Update checks nothing about the values: it can leave a schedule ending before it starts. */
  lemma UpdateCanInvertDates(s: ScheduleRow)
    ensures var p := Patch(None, None, None, None, None, Some(10), Some(Some(5)), None, None, None, None);
      var t := Apply(p)(s);
      t.scheduledEnd.Some? && t.scheduledEnd.value < t.scheduledStart
  {
  }

  /** An empty patch changes nothing. */
  lemma EmptyPatchIsIdentity(schedules: seq<ScheduleRow>, scheduleId: string)
    ensures UpdateWhere(schedules, ScheduleIdIs(scheduleId),
                        Apply(Patch(None, None, None, None, None, None, None, None, None, None, None))) == schedules
  {
    var after := UpdateWhere(schedules, ScheduleIdIs(scheduleId),
                             Apply(Patch(None, None, None, None, None, None, None, None, None, None, None)));
    assert forall i :: 0 <= i < |schedules| ==> after[i] == schedules[i];
  }

  /** Deleting twice is deleting once. */
  lemma DeleteIdempotent(schedules: seq<ScheduleRow>, scheduleId: string)
    ensures UpdateWhere(UpdateWhere(schedules, ScheduleIdIs(scheduleId), Deactivate), ScheduleIdIs(scheduleId), Deactivate)
            == UpdateWhere(schedules, ScheduleIdIs(scheduleId), Deactivate)
  {
    UpdateWhereIdempotent(schedules, ScheduleIdIs(scheduleId), Deactivate);
  }

  /** A deleted schedule is kept in the table but no longer listed. */
  lemma DeletedNotListed(schedules: seq<ScheduleRow>, scheduleId: string, userId: string, upcoming: string,
                         limit: Option<nat>, now: int)
    ensures var after := UpdateWhere(schedules, ScheduleIdIs(scheduleId), Deactivate);
      && |after| == |schedules|
      && forall s :: s in List(after, userId, upcoming, limit, now, false).payload.value ==> s.id != scheduleId
  {
    var after := UpdateWhere(schedules, ScheduleIdIs(scheduleId), Deactivate);
    forall s | s in List(after, userId, upcoming, limit, now, false).payload.value
      ensures s.id != scheduleId
    {
      var k :| 0 <= k < |after| && after[k] == s;
    }
  }

  /** When no more rows match than the limit allows, every matching row is listed. */
  lemma ListComplete(schedules: seq<ScheduleRow>, userId: string, upcoming: string, limit: Option<nat>, now: int)
    requires |Filter(schedules, ListedAt(userId, upcoming == "true", now))| <= limit.GetOr(DefaultLimit)
    ensures forall s :: s in schedules && Listed(s, userId, upcoming == "true", now) ==>
      s in List(schedules, userId, upcoming, limit, now, false).payload.value
  {
    var matching := Filter(schedules, ListedAt(userId, upcoming == "true", now));
    var sorted := SortBy(matching, StartsFirst);
    forall s | s in schedules && Listed(s, userId, upcoming == "true", now)
      ensures s in List(schedules, userId, upcoming, limit, now, false).payload.value
    {
      assert s in multiset(matching);
      assert s in multiset(sorted);
    }
  }
}
