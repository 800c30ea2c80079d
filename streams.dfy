/**
 * The owner-only stream edits: stop-stream (app/api/streams/stop-stream/route.ts) and
 * update-title (app/api/streams/update-title/route.ts). Both run a guard chain, then
 * update one `streams` row by id and answer with the updated row.
 */
module Streams {
  import opened Wrappers
  import opened Js
  import opened Http
  import opened Tables

  const MaxTitleLength := 100

  /** The change stop-stream makes. */
  function GoOffline(s: StreamRow): (t: StreamRow)
    ensures t.id == s.id && !t.isLive
  {
    s.(isLive := false)
  }

  /** The change update-title makes. */
  function Retitle(title: string): StreamRow -> StreamRow
  {
    (s: StreamRow) => s.(title := title)
  }

  /** stop-stream's guards after authentication: the stream the caller may stop, or the error. */
  function StopGuard(streams: seq<StreamRow>, userId: string, streamId: Value): (g: Guard<StreamRow>)
    ensures g.Pass? <==>
      && streamId.Str? && streamId.s != ""
      && StreamById(streams, streamId.s).Some?
      && StreamById(streams, streamId.s).value.userId == userId
      && StreamById(streams, streamId.s).value.isLive
    ensures g.Pass? ==> g.value in streams && g.value.id == streamId.s
    ensures g.Reject? ==> g.status in {400, 403, 404}
  {
    if !Truthy(streamId) then Reject(400, "streamId is required")
    else if !streamId.Str? then Reject(400, "Invalid request format")
    else match StreamById(streams, streamId.s)
      case None => Reject(404, "Stream not found")
      case Some(stream) =>
        if stream.userId != userId then Reject(403, "Unauthorized: You can only stop your own streams")
        else if !stream.isLive then Reject(400, "Stream is already offline")
        else Pass(stream)
  }

  /** PATCH stop-stream. `updateFails` says whether the update returns an error. */
  method Stop(db: Store, user: Option<string>, streamId: Value, updateFails: bool)
    returns (r: Response<StreamRow>)
    modifies db`streams
    ensures user.None? ==> r == Fail(401, Unauthorized) && db.streams == old(db.streams)
    ensures user.Some? ==>
      var g := StopGuard(old(db.streams), user.value, streamId);
      && (g.Reject? ==> r == Fail(g.status, g.message) && db.streams == old(db.streams))
      && (g.Pass? && updateFails ==> r == Fail(500, "Failed to stop stream") && db.streams == old(db.streams))
      && (g.Pass? && !updateFails ==>
            && db.streams == UpdateStream(old(db.streams), streamId.s, GoOffline)
            && r == Ok(GoOffline(g.value))
            && StreamById(db.streams, streamId.s) == Some(GoOffline(g.value)))
  {
    if user.None? {
      return Fail(401, Unauthorized);
    }
    var g := StopGuard(db.streams, user.value, streamId);
    if g.Reject? {
      return Fail(g.status, g.message);
    }
    if updateFails {
      return Fail(500, "Failed to stop stream");
    }
    StreamByIdAfterUpdate(db.streams, streamId.s, GoOffline);
    db.streams := UpdateStream(db.streams, streamId.s, GoOffline);
    r := Ok(GoOffline(g.value));
  }

  /** update-title's guards after authentication: the stream the caller may retitle, or the error. */
  function TitleGuard(streams: seq<StreamRow>, userId: string, streamId: Value, title: Value): (g: Guard<StreamRow>)
    ensures g.Pass? <==>
      && streamId.Str? && streamId.s != "" && title.Str?
      && Trim(title.s) != "" && Utf16Length(title.s) <= MaxTitleLength
      && StreamById(streams, streamId.s).Some?
      && StreamById(streams, streamId.s).value.userId == userId
    ensures g.Pass? ==> g.value in streams && g.value.id == streamId.s
    ensures g.Reject? ==> g.status in {400, 403, 404}
  {
    if !Truthy(streamId) || !Truthy(title) then Reject(400, "streamId and title are required")
    else if !streamId.Str? || !title.Str? then Reject(400, "Invalid request format")
    else if Trim(title.s) == "" then Reject(400, "Title cannot be empty")
    else if Utf16Length(title.s) > MaxTitleLength then Reject(400, "Title too long (max 100 characters)")
    else match StreamById(streams, streamId.s)
      case None => Reject(404, "Stream not found")
      case Some(stream) =>
        if stream.userId != userId then Reject(403, "Unauthorized: You can only update your own streams")
        else Pass(stream)
  }

  /** PATCH update-title. `updateFails` says whether the update returns an error. */
  method UpdateTitle(db: Store, user: Option<string>, streamId: Value, title: Value, updateFails: bool)
    returns (r: Response<StreamRow>)
    modifies db`streams
    ensures user.None? ==> r == Fail(401, Unauthorized) && db.streams == old(db.streams)
    ensures user.Some? ==>
      var g := TitleGuard(old(db.streams), user.value, streamId, title);
      && (g.Reject? ==> r == Fail(g.status, g.message) && db.streams == old(db.streams))
      && (g.Pass? && updateFails ==> r == Fail(500, "Failed to update stream title") && db.streams == old(db.streams))
      && (g.Pass? && !updateFails ==>
            && db.streams == UpdateStream(old(db.streams), streamId.s, Retitle(Trim(title.s)))
            && r == Ok(g.value.(title := Trim(title.s)))
            && StreamById(db.streams, streamId.s) == Some(g.value.(title := Trim(title.s))))
  {
    if user.None? {
      return Fail(401, Unauthorized);
    }
    var g := TitleGuard(db.streams, user.value, streamId, title);
    if g.Reject? {
      return Fail(g.status, g.message);
    }
    if updateFails {
      return Fail(500, "Failed to update stream title");
    }
    var text := Trim(title.s);
    StreamByIdAfterUpdate(db.streams, streamId.s, Retitle(text));
    db.streams := UpdateStream(db.streams, streamId.s, Retitle(text));
    r := Ok(g.value.(title := text));
  }

  // Properties.

  /** A stop that succeeded leaves the stream offline, so stopping it again is rejected, not ignored. */
  lemma StopTwiceRejected(streams: seq<StreamRow>, userId: string, streamId: Value)
    requires StopGuard(streams, userId, streamId).Pass?
    ensures StopGuard(UpdateStream(streams, streamId.s, GoOffline), userId, streamId)
            == Reject(400, "Stream is already offline")
  {
    StreamByIdAfterUpdate(streams, streamId.s, GoOffline);
  }

  /** An unknown id is answered 404 whoever asks, before ownership is looked at. */
  lemma UnknownStreamNotFound(streams: seq<StreamRow>, userId: string, streamId: string, title: Value)
    requires streamId != "" && StreamById(streams, streamId).None?
    ensures StopGuard(streams, userId, Str(streamId)) == Reject(404, "Stream not found")
    ensures title.Str? && Trim(title.s) != "" && Utf16Length(title.s) <= MaxTitleLength ==>
      TitleGuard(streams, userId, Str(streamId), title) == Reject(404, "Stream not found")
  {
  }

  /** A stop changes one row's `is_live` and nothing else in the table. */
  lemma StopTouchesOneRow(streams: seq<StreamRow>, streamId: string, i: int)
    requires 0 <= i < |streams|
    ensures var after := UpdateStream(streams, streamId, GoOffline);
      && (streams[i].id != streamId ==> after[i] == streams[i])
      && (streams[i].id == streamId ==> after[i] == streams[i].(isLive := false))
  {
  }

  /** The stored title is non-empty, has no white space at either end, and fits the limit. */
  lemma StoredTitleWellFormed(streams: seq<StreamRow>, userId: string, streamId: Value, title: Value)
    requires TitleGuard(streams, userId, streamId, title).Pass?
    ensures var t := Trim(title.s);
      && t != [] && !IsSpace(t[0]) && !IsSpace(t[|t| - 1])
      && Utf16Length(t) <= MaxTitleLength
  {
    assert title.Str? && Trim(title.s) != "" && Utf16Length(title.s) <= MaxTitleLength;
    TrimEndsNotSpace(title.s);
    TrimShortens(title.s);
  }

  /** The title limit counts the untrimmed text and is inclusive (for text without astral characters). */
  lemma TitleLengthBoundary(streams: seq<StreamRow>, userId: string, streamId: string, title: string)
    requires streamId != "" && Trim(title) != ""
    requires forall k :: 0 <= k < |title| ==> title[k] as int < 0x1_0000
    ensures |title| == 101 ==>
      TitleGuard(streams, userId, Str(streamId), Str(title)) == Reject(400, "Title too long (max 100 characters)")
    ensures |title| == 100 ==>
      TitleGuard(streams, userId, Str(streamId), Str(title)) != Reject(400, "Title too long (max 100 characters)")
  {
    assert Utf16Length(title) == |title|;
    assert Truthy(Str(streamId)) && Truthy(Str(title));
  }

  /** A title made only of white space is rejected as empty. */
  lemma BlankTitleRejected(streams: seq<StreamRow>, userId: string, streamId: string, title: string)
    requires streamId != "" && title != "" && AllSpace(title)
    ensures TitleGuard(streams, userId, Str(streamId), Str(title)) == Reject(400, "Title cannot be empty")
  {
    TrimEmptyIffAllSpace(title);
  }

  /** Sending the same title twice leaves the table as after the first time. */
  lemma RetitleIdempotent(streams: seq<StreamRow>, streamId: string, title: string)
    ensures UpdateStream(UpdateStream(streams, streamId, Retitle(title)), streamId, Retitle(title))
            == UpdateStream(streams, streamId, Retitle(title))
  {
    var once := UpdateStream(streams, streamId, Retitle(title));
    var twice := UpdateStream(once, streamId, Retitle(title));
    assert forall i :: 0 <= i < |twice| ==> twice[i] == once[i];
  }
}
