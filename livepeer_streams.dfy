/**
 * Creating a stream with the video provider and storing it
 * (app/api/livepeer/create-stream/route.ts), and looking a stream up
 * (app/api/livepeer/get-stream/route.ts).
 */
module LivepeerStreams {
  import opened Wrappers
  import opened Js
  import opened Http
  import opened Query
  import opened Tables
  import Streams

  /** The provider's fixed RTMP ingest address. */
  const IngestUrl := "rtmp://rtmp.livepeer.com/live"

  /** A call the handler makes to the video provider's SDK. */
  datatype ProviderCall =
    | CreateCall(name: string, record: bool)
    | GetCall(id: string)

  /** `streamResponse.stream` of `stream.create`: its `id` (any JSON value) and `playbackId` (`""` when missing). */
  datatype CreatedObject = CreatedObject(id: Value, playbackId: string)

  /** The success body. */
  datatype Created = Created(id: string, streamKey: string, playbackId: string, ingestUrl: string, stream: StreamRow)

  /** The row create-stream inserts for a provider stream. */
  function InitialRow(newId: string, userId: string, title: string, streamKey: string, playbackId: string,
                      now: int): (s: StreamRow)
    ensures s.userId == userId && s.title == title && !s.isLive && s.ingestUrl == IngestUrl
    ensures s.streamKey == streamKey && s.playbackId == playbackId
  {
    StreamRow(newId, userId, title, streamKey, IngestUrl, playbackId, false, None, now)
  }

  /**
   * POST create-stream. `created` is the `stream` of the provider's create reply (`None`
   * when the reply has none); `details` the `streamKey` of the details reply for that id
   * (`None` when it has no stream, `Some("")` when the key is missing); `insertFails` says
   * whether the insert returns an error. `calls` are the provider calls made, in order.
   */
  method Create(db: Store, user: Option<string>, title: Value, created: Option<CreatedObject>,
                details: Option<string>, insertFails: bool, newId: string, now: int)
    returns (r: Response<Created>, calls: seq<ProviderCall>)
    modifies db`streams
    ensures user.None? ==> r == Fail(401, Unauthorized) && calls == []
    ensures user.Some? && !(title.Str? && title.s != "") ==> r == Fail(400, "Title is required") && calls == []
    ensures user.Some? && title.Str? && title.s != "" ==>
      && |calls| >= 1 && calls[0] == CreateCall(title.s, true)
      && (created.None? ==> r == Fail(500, "Failed to create stream in Livepeer") && calls == [calls[0]])
      && (created.Some? && !(created.value.id.Str? && created.value.id.s != "") ==>
            r == Fail(500, "Stream ID is missing") && calls == [calls[0]])
      && (created.Some? && created.value.id.Str? && created.value.id.s != "" ==>
            && calls == [CreateCall(title.s, true), GetCall(created.value.id.s)]
            && (details.None? ==> r == Fail(500, "Failed to get stream details"))
            && (details.Some? && insertFails ==> r == Fail(500, "Failed to save stream to database")))
    ensures
      if user.Some? && title.Str? && title.s != "" && created.Some? && created.value.id.Str?
         && created.value.id.s != "" && details.Some? && !insertFails
      then
        var row := InitialRow(newId, user.value, title.s, details.value, created.value.playbackId, now);
        && db.streams == old(db.streams) + [row]
        && r == Ok(Created(newId, details.value, created.value.playbackId, IngestUrl, row))
      else db.streams == old(db.streams)
  {
    calls := [];
    if user.None? {
      return Fail(401, Unauthorized), calls;
    }
    if !Truthy(title) || !title.Str? {
      return Fail(400, "Title is required"), calls;
    }
    calls := calls + [CreateCall(title.s, true)];
    if created.None? {
      return Fail(500, "Failed to create stream in Livepeer"), calls;
    }
    var stream := created.value;
    if !Truthy(stream.id) || !stream.id.Str? {
      return Fail(500, "Stream ID is missing"), calls;
    }
    calls := calls + [GetCall(stream.id.s)];
    if details.None? {
      return Fail(500, "Failed to get stream details"), calls;
    }
    var streamKey := details.value;
    if insertFails {
      return Fail(500, "Failed to save stream to database"), calls;
    }
    var row := StreamRow(newId, user.value, title.s, streamKey, IngestUrl, stream.playbackId, false, None, now);
    db.streams := db.streams + [row];
    r := Ok(Created(row.id, streamKey, stream.playbackId, IngestUrl, row));
  }

  /** `.order('created_at', { ascending: false }).limit(1)`. */
  function Latest(streams: seq<StreamRow>): (r: seq<StreamRow>)
    ensures |r| <= 1 && (r == [] <==> streams == [])
    ensures r != [] ==> r[0] in streams
  {
    if streams == [] then []
    else
      var sorted := SortBy(streams, (s: StreamRow) => -s.createdAt);
      assert sorted[0] in multiset(sorted);
      Take(sorted, 1)
  }

  /** The streams of one user. */
  function StreamsOf(streams: seq<StreamRow>, userId: string): seq<StreamRow>
  {
    Filter(streams, (s: StreamRow) => s.userId == userId)
  }

  /** `.eq('username', username)` on `profiles`. */
  function NamedAs(username: string): ProfileRow -> bool
  {
    (p: ProfileRow) => p.username == username
  }

  /**
   * GET get-stream. The three query parameters are `""` when absent; `profileByName` is
   * `profiles ... .eq('username', username).single()`; `queryFails` says whether the
   * streams query returns an error.
   */
  function GetStream(streams: seq<StreamRow>, profiles: seq<ProfileRow>, username: string, userId: string,
                     streamId: string, queryFails: bool): (r: Response<StreamRow>)
    ensures r.status == 200 ==> r.payload.Body? && r.payload.value in streams
    ensures r.status == 200 && streamId != "" ==> r.payload.value.id == streamId
    ensures r.status == 400 <==> username == "" && userId == "" && streamId == ""
  {
    var rows :=
      if streamId != "" then Some(Filter(streams, StreamIdIs(streamId)))
      else if username != "" then
        match Single(Filter(profiles, NamedAs(username)))
        case None => None
        case Some(profile) => Some(Latest(StreamsOf(streams, profile.id)))
      else if userId != "" then Some(Latest(StreamsOf(streams, userId)))
      else None;
    if streamId == "" && username == "" && userId == "" then
      Fail(400, "username, userId, or streamId is required")
    else if rows.None? then Fail(404, "User not found")
    else if queryFails then Fail(500, "Failed to fetch stream")
    else if rows.value == [] then Fail(404, "Stream not found")
    else Ok(rows.value[0])
  }

  // Properties.

  /** Selector precedence: a stream id makes the other two parameters irrelevant, a username the user id. */
  lemma SelectorPrecedence(streams: seq<StreamRow>, profiles: seq<ProfileRow>, username: string, username': string,
                           userId: string, userId': string, streamId: string, queryFails: bool)
    ensures streamId != "" ==>
      GetStream(streams, profiles, username, userId, streamId, queryFails)
      == GetStream(streams, profiles, username', userId', streamId, queryFails)
    ensures username != "" ==>
      GetStream(streams, profiles, username, userId, "", queryFails)
      == GetStream(streams, profiles, username, userId', "", queryFails)
  {
  }

  /**
   * The answer of the user-id query: 500 when it fails, otherwise 404 exactly when the user
   * has no stream, and else the user's most recent stream.
   */
  ghost predicate NewestOfUser(r: Response<StreamRow>, streams: seq<StreamRow>, userId: string, queryFails: bool)
  {
    && (queryFails ==> r == Fail(500, "Failed to fetch stream"))
    && (!queryFails ==> (r == Fail(404, "Stream not found") <==> forall s :: s in streams ==> s.userId != userId))
    && (!queryFails && r != Fail(404, "Stream not found") ==>
          && r.status == 200 && r.payload.Body?
          && r.payload.value in streams && r.payload.value.userId == userId
          && forall s :: s in streams && s.userId == userId ==> s.createdAt <= r.payload.value.createdAt)
  }

  /** The newest of a user's streams is theirs and no other of theirs is newer. */
  lemma LatestOfStreams(streams: seq<StreamRow>, userId: string)
    ensures var rows := Latest(StreamsOf(streams, userId));
      && (rows == [] <==> forall s :: s in streams ==> s.userId != userId)
      && (rows != [] ==> rows[0] in streams && rows[0].userId == userId
                         && forall s :: s in streams && s.userId == userId ==> s.createdAt <= rows[0].createdAt)
  {
    var mine := StreamsOf(streams, userId);
    var rows := Latest(mine);
    if rows != [] {
      forall s | s in streams && s.userId == userId
        ensures s.createdAt <= rows[0].createdAt
      {
        assert s in mine;
        SortByFirstIsLeast(mine, (x: StreamRow) => -x.createdAt, s);
      }
    }
  }

  /** Selecting by user id answers that user's most recent stream, 404 when they have none, 500 when the query fails. */
  lemma LatestOfUser(streams: seq<StreamRow>, profiles: seq<ProfileRow>, userId: string, queryFails: bool)
    requires userId != ""
    ensures NewestOfUser(GetStream(streams, profiles, "", userId, "", queryFails), streams, userId, queryFails)
  {
    LatestOfStreams(streams, userId);
  }

  /**
   * Selecting by a username that names exactly one profile answers as the user-id query
   * does for that profile's id, whatever the id is.
   */
  lemma ByUsername(streams: seq<StreamRow>, profiles: seq<ProfileRow>, username: string, userId: string,
                   queryFails: bool, p: ProfileRow)
    requires username != "" && Filter(profiles, NamedAs(username)) == [p]
    ensures NewestOfUser(GetStream(streams, profiles, username, userId, "", queryFails), streams, p.id, queryFails)
  {
    LatestOfStreams(streams, p.id);
  }

  /** A username nobody has is 404 "User not found", whatever the streams table holds. */
  lemma UnknownUsername(streams: seq<StreamRow>, profiles: seq<ProfileRow>, username: string, userId: string,
                        queryFails: bool)
    requires username != "" && forall p :: p in profiles ==> p.username != username
    ensures GetStream(streams, profiles, username, userId, "", queryFails) == Fail(404, "User not found")
  {
    FilterNone(profiles, NamedAs(username));
  }

  /** By username, "User not found" answers exactly when `.single()` does not find one profile. */
  lemma UsernameMustBeUnique(streams: seq<StreamRow>, profiles: seq<ProfileRow>, username: string, userId: string,
                             queryFails: bool)
    requires username != ""
    ensures GetStream(streams, profiles, username, userId, "", queryFails) == Fail(404, "User not found")
            <==> |Filter(profiles, NamedAs(username))| != 1
  {
  }

  /**
   * Selecting by a username that names one profile answers as selecting by that profile's
   * id, so `LatestOfUser` describes the answer.
   */
  lemma UsernameIsItsUser(streams: seq<StreamRow>, profiles: seq<ProfileRow>, username: string, userId: string,
                          queryFails: bool, p: ProfileRow)
    requires username != "" && p.id != ""
    requires Filter(profiles, NamedAs(username)) == [p]
    ensures GetStream(streams, profiles, username, userId, "", queryFails)
            == GetStream(streams, profiles, "", p.id, "", queryFails)
  {
  }

  /** Selecting by stream id answers that stream, 404 when no row has the id, 500 when the query fails. */
  lemma ByStreamId(streams: seq<StreamRow>, profiles: seq<ProfileRow>, username: string, userId: string,
                   streamId: string, queryFails: bool)
    requires streamId != ""
    ensures var r := GetStream(streams, profiles, username, userId, streamId, queryFails);
      && (queryFails ==> r == Fail(500, "Failed to fetch stream"))
      && (!queryFails ==> (r == Fail(404, "Stream not found") <==> forall s :: s in streams ==> s.id != streamId))
      && (!queryFails && r.status != 404 ==> r.status == 200 && r.payload.value.id == streamId)
  {
    var rows := Filter(streams, StreamIdIs(streamId));
    if rows != [] {
      assert rows[0] in rows;
    }
  }

  /**
   * A stream just created is offline, so its owner's stop is refused as already offline
   * (provided the new row's id is fresh).
   */
  lemma CreatedStreamIsOffline(streams: seq<StreamRow>, userId: string, title: string, streamKey: string,
                               playbackId: string, newId: string, now: int)
    requires newId != "" && forall s :: s in streams ==> s.id != newId
    ensures var row := InitialRow(newId, userId, title, streamKey, playbackId, now);
      && StreamById(streams + [row], newId) == Some(row)
      && Streams.StopGuard(streams + [row], userId, Str(newId)) == Reject(400, "Stream is already offline")
  {
    var row := InitialRow(newId, userId, title, streamKey, playbackId, now);
    FilterAppend(streams, [row], StreamIdIs(newId));
    FilterNone(streams, StreamIdIs(newId));
    assert Filter([row], StreamIdIs(newId)) == [row];
  }
}
