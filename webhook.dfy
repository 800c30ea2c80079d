/**
 * The video provider's webhook (app/api/livepeer/webhook/route.ts): reconciles the
 * `streams.is_live` flag with stream lifecycle events and records one VOD row per
 * stream when a recording is ready.
 */
module Webhook {
  import opened Wrappers
  import opened Js
  import opened Http
  import opened Query
  import opened Tables

  /** `body.stream`: only its `playbackId` is read (`""` when missing). */
  datatype StreamObject = StreamObject(playbackId: string)

  /** `body.payload.session`; `transcodedSegmentsDuration` is 0 when missing. */
  datatype Session = Session(playbackId: string, recordingUrl: string, transcodedSegmentsDuration: int)

  /** `body.payload`. */
  datatype RecordingPayload = RecordingPayload(session: Option<Session>, recordingUrl: string)

  /** The JSON envelope: `event` and its older spelling `type`, and the two optional objects. */
  datatype Envelope = Envelope(
    event: Value, legacyType: Value, stream: Option<StreamObject>, payload: Option<RecordingPayload>)

  /** What the envelope asks for, once its shape has been checked. */
  datatype Event =
    | LiveChange(playbackId: string, live: bool)
    | RecordingReady(playbackId: string, url: string, duration: Option<int>)
    | Unhandled
    | Malformed(message: string)

  /** The body of every accepted delivery: `{ received: true }`. */
  datatype Ack = Received

  const StreamStarted := Str("stream.started")
  const StreamIdle := Str("stream.idle")
  const StreamEnded := Str("stream.ended")
  const RecordingReadyEvent := Str("recording.ready")

  /** `body.event || body.type`. */
  function EventType(env: Envelope): Value
  {
    if Truthy(env.event) then env.event else env.legacyType
  }

  /** The playback URL the provider serves a recording under when it sent none. */
  function DefaultRecordingUrl(playbackId: string): string
  {
    "https://playback.livepeer.studio/recordings/" + playbackId + "/index.m3u8"
  }

  /** The switch on the event type with each branch's shape checks. */
  function Decode(env: Envelope): (e: Event)
    ensures e.Malformed? <==>
      !Truthy(EventType(env))
      || (EventType(env) in {StreamStarted, StreamIdle, StreamEnded}
          && (env.stream.None? || env.stream.value.playbackId == ""))
      || (EventType(env) == RecordingReadyEvent
          && (env.payload.None? || env.payload.value.session.None?
              || env.payload.value.session.value.playbackId == ""))
    ensures e.LiveChange? ==> e.playbackId != "" && (e.live <==> EventType(env) == StreamStarted)
    ensures e.RecordingReady? ==> e.playbackId != "" && e.url != ""
    ensures EventType(env) in {StreamStarted, StreamIdle, StreamEnded} && !e.Malformed? ==>
      e == LiveChange(env.stream.value.playbackId, EventType(env) == StreamStarted)
    ensures EventType(env) == RecordingReadyEvent && !e.Malformed? ==>
      var p := env.payload.value;
      var session := p.session.value;
      && e.RecordingReady?
      && e.playbackId == session.playbackId
      && e.url == (if p.recordingUrl != "" then p.recordingUrl
                   else if session.recordingUrl != "" then session.recordingUrl
                   else DefaultRecordingUrl(session.playbackId))
      && (e.duration.Some? <==> session.transcodedSegmentsDuration != 0)
      && (e.duration.Some? ==> e.duration.value == session.transcodedSegmentsDuration)
    ensures e.Unhandled? <==>
      Truthy(EventType(env)) && EventType(env) !in {StreamStarted, StreamIdle, StreamEnded, RecordingReadyEvent}
  {
    var eventType := EventType(env);
    if !Truthy(eventType) then Malformed("Invalid webhook payload: missing event")
    else if eventType == StreamStarted || eventType == StreamIdle || eventType == StreamEnded then
      if env.stream.None? then Malformed("Invalid webhook payload: missing stream")
      else if env.stream.value.playbackId == "" then Malformed("Invalid webhook payload: missing playbackId")
      else LiveChange(env.stream.value.playbackId, eventType == StreamStarted)
    else if eventType == RecordingReadyEvent then
      if env.payload.None? then Malformed("Invalid webhook payload: missing payload")
      else if env.payload.value.session.None? then Malformed("Invalid webhook payload: missing session")
      else
        var session := env.payload.value.session.value;
        if session.playbackId == "" then Malformed("Invalid webhook payload: missing playbackId in session")
        else
          var url := OrElse(OrElse(env.payload.value.recordingUrl, session.recordingUrl),
                            DefaultRecordingUrl(session.playbackId));
          var duration := if session.transcodedSegmentsDuration != 0
                          then Some(session.transcodedSegmentsDuration) else None;
          RecordingReady(session.playbackId, url, duration)
    else Unhandled
  }

  /** `.update({ is_live: live }).eq('playback_id', playbackId)`. */
  function SetLive(streams: seq<StreamRow>, playbackId: string, live: bool): (r: seq<StreamRow>)
    ensures |r| == |streams|
    ensures forall i :: 0 <= i < |r| ==>
      r[i].isLive == (if streams[i].playbackId == playbackId then live else streams[i].isLive)
    ensures forall i :: 0 <= i < |r| ==> r[i] == streams[i].(isLive := r[i].isLive)
  {
    UpdateWhere(streams, (s: StreamRow) => s.playbackId == playbackId, (s: StreamRow) => s.(isLive := live))
  }

  function StreamsWithPlayback(streams: seq<StreamRow>, playbackId: string): seq<StreamRow>
  {
    Filter(streams, (s: StreamRow) => s.playbackId == playbackId)
  }

  function VideosOfStream(videos: seq<VideoRow>, streamId: string): seq<VideoRow>
  {
    Filter(videos, (v: VideoRow) => v.streamId == streamId)
  }

  /** The invariant the recording branch is written to keep. */
  ghost predicate AtMostOneVideoPerStream(videos: seq<VideoRow>)
  {
    forall i, j :: 0 <= i < j < |videos| ==> videos[i].streamId != videos[j].streamId
  }

  /**
   * The VOD row a `recording.ready` delivery inserts, if any: the stream must be the
   * only one with that playback id, and the existence check on `videos` must not find
   * exactly one row for it. A failing existence query reads as "no video".
   */
  function RecordingInsert(streams: seq<StreamRow>, videos: seq<VideoRow>, playbackId: string,
                           url: string, duration: Option<int>, videoLookupFails: bool,
                           newId: string, now: int): (r: Option<VideoRow>)
    ensures r.Some? <==>
      && |StreamsWithPlayback(streams, playbackId)| == 1
      && (videoLookupFails || |VideosOfStream(videos, StreamsWithPlayback(streams, playbackId)[0].id)| != 1)
    ensures r.Some? ==>
      var s := StreamsWithPlayback(streams, playbackId)[0];
      && s in streams && s.playbackId == playbackId
      && r.value == VideoRow(newId, s.id, s.userId, url, duration, now)
  {
    match Single(StreamsWithPlayback(streams, playbackId))
    case None => None
    case Some(s) =>
      if !videoLookupFails && Single(VideosOfStream(videos, s.id)).Some? then None
      else Some(VideoRow(newId, s.id, s.userId, url, duration, now))
  }

  /**
   * POST handler. `body` is `None` when the request body is not JSON (the handler
   * then answers 500); the failure flags say which data-store calls return an error.
   */
  method Post(db: Store, body: Option<Envelope>, updateFails: bool, videoLookupFails: bool,
              videoInsertFails: bool, newVideoId: string, now: int) returns (r: Response<Ack>)
    modifies db`streams, db`videos
    ensures body.None? ==> r == Fail(500, InternalError)
    ensures body.Some? && Decode(body.value).Malformed? ==> r == Fail(400, Decode(body.value).message)
    ensures body.Some? && !Decode(body.value).Malformed? ==> r == Ok(Received)
    ensures db.streams ==
      if body.Some? && Decode(body.value).LiveChange? && !updateFails
      then SetLive(old(db.streams), Decode(body.value).playbackId, Decode(body.value).live)
      else old(db.streams)
    ensures db.videos ==
      if body.Some? && Decode(body.value).RecordingReady? && !videoInsertFails
      then
        var e := Decode(body.value);
        var v := RecordingInsert(old(db.streams), old(db.videos), e.playbackId, e.url, e.duration,
                                 videoLookupFails, newVideoId, now);
        old(db.videos) + (if v.Some? then [v.value] else [])
      else old(db.videos)
  {
    if body.None? {
      return Fail(500, InternalError);
    }
    var event := Decode(body.value);
    match event {
      case Malformed(message) =>
        r := Fail(400, message);
      case LiveChange(playbackId, live) =>
        if !updateFails {
          db.streams := SetLive(db.streams, playbackId, live);
        }
        r := Ok(Received);
      case RecordingReady(playbackId, url, duration) =>
        var video := RecordingInsert(db.streams, db.videos, playbackId, url, duration,
                                     videoLookupFails, newVideoId, now);
        if video.Some? && !videoInsertFails {
          db.videos := db.videos + [video.value];
        }
        r := Ok(Received);
      case Unhandled =>
        r := Ok(Received);
    }
  }

  // Properties of the two table changes.

  /** A lifecycle event sets the flag on exactly the rows with its playback id and leaves every other row alone. */
  lemma SetLiveEffect(streams: seq<StreamRow>, playbackId: string, live: bool)
    ensures |SetLive(streams, playbackId, live)| == |streams|
    ensures forall i :: 0 <= i < |streams| ==>
      SetLive(streams, playbackId, live)[i] ==
        if streams[i].playbackId == playbackId then streams[i].(isLive := live) else streams[i]
  {
  }

  /** Re-delivering a lifecycle event changes nothing further. */
  lemma SetLiveIdempotent(streams: seq<StreamRow>, playbackId: string, live: bool)
    ensures SetLive(SetLive(streams, playbackId, live), playbackId, live) == SetLive(streams, playbackId, live)
  {
    var once := SetLive(streams, playbackId, live);
    var twice := SetLive(once, playbackId, live);
    assert forall i :: 0 <= i < |twice| ==> twice[i] == once[i];
  }

  /** With no stream carrying the playback id, a lifecycle event changes nothing. */
  lemma SetLiveNoMatch(streams: seq<StreamRow>, playbackId: string, live: bool)
    requires forall i :: 0 <= i < |streams| ==> streams[i].playbackId != playbackId
    ensures SetLive(streams, playbackId, live) == streams
  {
    assert forall i :: 0 <= i < |streams| ==> SetLive(streams, playbackId, live)[i] == streams[i];
  }

  lemma OneVideoAtMost(videos: seq<VideoRow>, streamId: string)
    requires AtMostOneVideoPerStream(videos)
    ensures |VideosOfStream(videos, streamId)| <= 1
  {
    var p := (v: VideoRow) => v.streamId == streamId;
    if videos != [] {
      OneVideoAtMost(videos[1..], streamId);
      if p(videos[0]) {
        FilterNone(videos[1..], p);
      }
    }
  }

  /** The branch keeps at most one VOD row per stream, whenever its existence query succeeds. */
  lemma RecordingKeepsOneVideoPerStream(streams: seq<StreamRow>, videos: seq<VideoRow>, playbackId: string,
                                        url: string, duration: Option<int>, newId: string, now: int)
    requires AtMostOneVideoPerStream(videos)
    ensures var v := RecordingInsert(streams, videos, playbackId, url, duration, false, newId, now);
      AtMostOneVideoPerStream(videos + (if v.Some? then [v.value] else []))
  {
    var v := RecordingInsert(streams, videos, playbackId, url, duration, false, newId, now);
    if v.Some? {
      OneVideoAtMost(videos, v.value.streamId);
      assert |VideosOfStream(videos, v.value.streamId)| == 0;
      forall i | 0 <= i < |videos|
        ensures videos[i].streamId != v.value.streamId
      {
        assert videos[i] in videos;
      }
    }
  }

  /**
   * A duplicate `recording.ready` changes nothing: once a delivery has inserted the
   * stream's VOD row, the same delivery again inserts none, whatever id it would use.
   */
  lemma RecordingReadyIdempotent(streams: seq<StreamRow>, videos: seq<VideoRow>, playbackId: string,
                                 url: string, duration: Option<int>, newId: string, newId': string, now: int, now': int)
    requires AtMostOneVideoPerStream(videos)
    requires RecordingInsert(streams, videos, playbackId, url, duration, false, newId, now).Some?
    ensures var v := RecordingInsert(streams, videos, playbackId, url, duration, false, newId, now).value;
      RecordingInsert(streams, videos + [v], playbackId, url, duration, false, newId', now').None?
  {
    var v := RecordingInsert(streams, videos, playbackId, url, duration, false, newId, now).value;
    var p := (w: VideoRow) => w.streamId == v.streamId;
    OneVideoAtMost(videos, v.streamId);
    FilterAppend(videos, [v], p);
    assert Filter([v], p) == [v];
  }

  /** A recording for a playback id no single stream carries inserts nothing. */
  lemma RecordingForUnknownStream(streams: seq<StreamRow>, videos: seq<VideoRow>, playbackId: string,
                                  url: string, duration: Option<int>, lookupFails: bool, newId: string, now: int)
    requires |StreamsWithPlayback(streams, playbackId)| != 1
    ensures RecordingInsert(streams, videos, playbackId, url, duration, lookupFails, newId, now).None?
  {
  }
}
