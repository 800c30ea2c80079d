/**
 * Stream summaries (app/api/summary/route.ts): the handler gathers the stream's
 * metadata and a sample of its visible chat, asks the AI client for a short and a long
 * summary, and stores them as the stream's summary, updating the latest existing row
 * or inserting one.
 */
module Summary {
  import opened Wrappers
  import opened Js
  import opened Http
  import opened Query
  import opened Tables

  const SampleSize := 20

  /** What the handler tells the summariser about the stream. */
  datatype Metadata = Metadata(
    title: string, category: Option<string>, duration: int, isLive: bool,
    messageCount: nat, createdAt: int)

  /** The arguments of `generateSummary(metadata, chatMessages)`. */
  datatype SummaryRequest = SummaryRequest(metadata: Metadata, chatMessages: seq<string>)

  /** What the summariser did: produced both summaries, or threw with a message (`""` when none). */
  datatype SummaryOutcome = Generated(shortSummary: string, longSummary: string) | Failed(message: string)

  /** The body `{ success: true, summary }`. */
  datatype Saved = Saved(summary: SummaryRow)

  /** Whole seconds since the stream was created: `Math.floor((now - start) / 1000)`. */
  function Duration(createdAt: int, now: int): (d: int)
    ensures d * 1000 <= now - createdAt < d * 1000 + 1000
  {
    (now - createdAt) / 1000
  }

  /** `.eq('stream_id', id).eq('hidden', false)` on `messages`. */
  function VisibleIn(streamId: string): MessageRow -> bool
  {
    (m: MessageRow) => m.streamId == streamId && !m.hidden
  }

  function VisibleOf(messages: seq<MessageRow>, streamId: string): seq<MessageRow>
  {
    Filter(messages, VisibleIn(streamId))
  }

  /** `count || 0` of the exact count of the stream's visible messages. */
  function MessageCount(messages: seq<MessageRow>, streamId: string, countFails: bool): (n: nat)
    ensures countFails ==> n == 0
    ensures !countFails ==> n == |VisibleOf(messages, streamId)|
  {
    if countFails then 0 else |VisibleOf(messages, streamId)|
  }

  function Contents(ms: seq<MessageRow>): (r: seq<string>)
    ensures |r| == |ms| && forall i :: 0 <= i < |ms| ==> r[i] == ms[i].content
  {
    seq(|ms|, i requires 0 <= i < |ms| => ms[i].content)
  }

  /** The sort key of `.order('created_at', { ascending: false })`. */
  function NewestFirst(m: MessageRow): int
  {
    -m.createdAt
  }

  /**
   * `.order('created_at', { ascending: false }).limit(20)` on the stream's visible
   * messages: the 20 newest of them (all when fewer), newest first.
   */
  function Newest(messages: seq<MessageRow>, streamId: string): (r: seq<MessageRow>)
    ensures FirstByKey(r, VisibleOf(messages, streamId), NewestFirst, SampleSize)
    ensures forall m :: m in r ==> m in messages && m.streamId == streamId && !m.hidden
  {
    var visible := VisibleOf(messages, streamId);
    var sorted := SortBy(visible, NewestFirst);
    TakeSortBy(visible, NewestFirst, SampleSize);
    TakeSorted(sorted, NewestFirst, SampleSize);
    SameMembers(sorted, visible);
    Take(sorted, SampleSize)
  }

  function NonEmpty(c: string): bool
  {
    c != ""
  }

  /**
   * The contents of `ms` with the empty ones dropped: `.map(m => m.content).filter(Boolean)`.
   * Every non-empty content is kept, as often as it occurs; the order is kept too
   * (`NonEmptyContentsAppend`).
   */
  function NonEmptyContents(ms: seq<MessageRow>): (r: seq<string>)
    ensures |r| <= |ms|
    ensures forall c :: c in r <==> (c != "" && exists m :: m in ms && m.content == c)
    ensures forall c :: c != "" ==> multiset(r)[c] == multiset(Contents(ms))[c]
    ensures "" !in multiset(r)
  {
    var all := Contents(ms);
    var r := Filter(all, NonEmpty);
    FilterMultiset(all, NonEmpty);
    assert forall c :: c in all <==> exists i :: 0 <= i < |ms| && c == ms[i].content;
    r
  }

  /** Dropping empty contents keeps the messages' order: it works message by message. */
  lemma {:induction false} NonEmptyContentsAppend(a: seq<MessageRow>, b: seq<MessageRow>)
    ensures NonEmptyContents(a + b) == NonEmptyContents(a) + NonEmptyContents(b)
  {
    assert Contents(a + b) == Contents(a) + Contents(b);
    FilterAppend(Contents(a), Contents(b), NonEmpty);
  }

  /**
   * The chat sample: the contents of the 20 newest visible messages of the stream,
   * newest first, empty contents dropped; `[]` when the query fails.
   */
  function Sample(messages: seq<MessageRow>, streamId: string, sampleFails: bool): (r: seq<string>)
    ensures |r| <= SampleSize
    ensures sampleFails ==> r == []
    ensures !sampleFails ==> forall c :: c in r <==>
      (c != "" && exists m :: m in Newest(messages, streamId) && m.content == c)
    ensures forall c :: c in r ==>
      (c != "" && exists m :: m in messages && m.streamId == streamId && !m.hidden && m.content == c)
  {
    if sampleFails then [] else NonEmptyContents(Newest(messages, streamId))
  }

  /** The metadata object: `category || null`, the duration and the visible-message count. */
  function MetadataOf(stream: StreamRow, messages: seq<MessageRow>, now: int, countFails: bool): (md: Metadata)
    ensures md.category.Some? <==> stream.category.Some? && stream.category.value != ""
    ensures md.category.Some? ==> md.category == stream.category
    ensures md.title == stream.title && md.isLive == stream.isLive && md.createdAt == stream.createdAt
    ensures md.duration * 1000 <= now - stream.createdAt < md.duration * 1000 + 1000
    ensures countFails ==> md.messageCount == 0
    ensures !countFails ==> md.messageCount == |VisibleOf(messages, stream.id)|
  {
    Metadata(
      stream.title,
      if stream.category.Some? && stream.category.value != "" then stream.category else None,
      Duration(stream.createdAt, now), stream.isLive,
      MessageCount(messages, stream.id, countFails), stream.createdAt)
  }

  /** `.eq('stream_id', id)` on `stream_summaries`. */
  function SummaryOf(streamId: string): SummaryRow -> bool
  {
    (s: SummaryRow) => s.streamId == streamId
  }

  /**
   * The existing summary the handler finds: the stream's newest by `created_at`, or
   * none when there is none or the lookup fails.
   */
  function Existing(summaries: seq<SummaryRow>, streamId: string, lookupFails: bool): (e: Option<SummaryRow>)
    ensures e.Some? ==> e.value in summaries && e.value.streamId == streamId
    ensures e.Some? ==> forall s :: s in summaries && s.streamId == streamId ==> s.createdAt <= e.value.createdAt
    ensures lookupFails ==> e.None?
    ensures !lookupFails && e.None? ==> forall s :: s in summaries ==> s.streamId != streamId
  {
    var mine := Filter(summaries, SummaryOf(streamId));
    var newest := Take(SortBy(mine, LatestFirst), 1);
    if lookupFails || newest == [] then None
    else
      assert newest[0] in multiset(mine);
      LatestIsFirst(mine, summaries, streamId);
      Some(newest[0])
  }

  /** The first of the stream's summaries sorted newest first is as new as any of them. */
  lemma LatestIsFirst(mine: seq<SummaryRow>, summaries: seq<SummaryRow>, streamId: string)
    requires mine == Filter(summaries, SummaryOf(streamId)) && mine != []
    ensures SortBy(mine, LatestFirst) != []
    ensures forall s :: s in summaries && s.streamId == streamId ==>
      s.createdAt <= SortBy(mine, LatestFirst)[0].createdAt
  {
    forall s | s in summaries && s.streamId == streamId
      ensures s.createdAt <= SortBy(mine, LatestFirst)[0].createdAt
    {
      SortByFirstIsLeast(mine, LatestFirst, s);
    }
  }

  /** The sort key of `.order('created_at', { ascending: false })` on summaries. */
  function LatestFirst(s: SummaryRow): int
  {
    -s.createdAt
  }

  /** The change the update makes: both summaries and `created_at` set to now. */
  function Rewrite(shortSummary: string, longSummary: string, now: int): SummaryRow -> SummaryRow
  {
    (s: SummaryRow) => s.(shortSummary := shortSummary, longSummary := longSummary, createdAt := now)
  }

  function SummaryIdIs(id: string): SummaryRow -> bool
  {
    (s: SummaryRow) => s.id == id
  }

  /** The row a successful save answers with: the updated existing row, or the inserted one. */
  function SavedRow(streamId: string, existing: Option<SummaryRow>, shortSummary: string,
                    longSummary: string, now: int, newId: string): (row: SummaryRow)
    ensures row.shortSummary == shortSummary && row.longSummary == longSummary && row.createdAt == now
    ensures existing.Some? ==> row.id == existing.value.id && row.streamId == existing.value.streamId
    ensures existing.None? ==> row.id == newId && row.streamId == streamId
  {
    match existing
    case None => SummaryRow(newId, streamId, shortSummary, longSummary, now)
    case Some(e) => Rewrite(shortSummary, longSummary, now)(e)
  }

  /** The `stream_summaries` table after a successful save. */
  function AfterSave(summaries: seq<SummaryRow>, streamId: string, existing: Option<SummaryRow>,
                     shortSummary: string, longSummary: string, now: int, newId: string): (r: seq<SummaryRow>)
    ensures existing.None? ==> r == summaries + [SavedRow(streamId, existing, shortSummary, longSummary, now, newId)]
    ensures existing.Some? ==> |r| == |summaries| && forall i :: 0 <= i < |r| ==>
      r[i] == if summaries[i].id == existing.value.id
              then summaries[i].(shortSummary := shortSummary, longSummary := longSummary, createdAt := now)
              else summaries[i]
  {
    match existing
    case None => summaries + [SummaryRow(newId, streamId, shortSummary, longSummary, now)]
    case Some(e) => UpdateWhere(summaries, SummaryIdIs(e.id), Rewrite(shortSummary, longSummary, now))
  }

  /** The update or insert that stores the generated summaries. */
  method Save(db: Store, streamId: string, existing: Option<SummaryRow>, shortSummary: string,
              longSummary: string, now: int, writeFails: bool, newId: string) returns (r: Response<Saved>)
    modifies db`summaries
    ensures writeFails ==>
      && db.summaries == old(db.summaries)
      && r == Fail(500, if existing.Some? then "Error al actualizar resumen" else "Error al guardar resumen")
    ensures !writeFails ==>
      && db.summaries == AfterSave(old(db.summaries), streamId, existing, shortSummary, longSummary, now, newId)
      && r == Ok(Saved(SavedRow(streamId, existing, shortSummary, longSummary, now, newId)))
  {
    if existing.Some? {
      if writeFails {
        return Fail(500, "Error al actualizar resumen");
      }
    } else if writeFails {
      return Fail(500, "Error al guardar resumen");
    }
    db.summaries := AfterSave(db.summaries, streamId, existing, shortSummary, longSummary, now, newId);
    r := Ok(Saved(SavedRow(streamId, existing, shortSummary, longSummary, now, newId)));
  }

  /** The guards after authentication: the stream to summarise, or the error. */
  function StreamGuard(streams: seq<StreamRow>, streamId: Value): (g: Guard<StreamRow>)
    ensures g.Pass? <==> streamId.Str? && streamId.s != "" && StreamById(streams, streamId.s).Some?
    ensures g.Pass? ==> g.value in streams && g.value.id == streamId.s
    ensures g.Reject? ==> g.status in {400, 404}
  {
    if !Truthy(streamId) || !streamId.Str? then Reject(400, "stream_id is required")
    else match StreamById(streams, streamId.s)
      case None => Reject(404, "Stream not found")
      case Some(stream) => Pass(stream)
  }

  /**
   * POST summary. The stream row is read from `streams`; the summariser's answer is
   * `outcome`; the flags say which query returns an error; `newId` is the id an
   * insert is given. `request` is the call made to the summariser, if any.
   */
  method Post(db: Store, user: Option<string>, streamId: Value, now: int,
              countFails: bool, sampleFails: bool, outcome: SummaryOutcome,
              lookupFails: bool, writeFails: bool, newId: string)
    returns (r: Response<Saved>, request: Option<SummaryRequest>)
    modifies db`summaries
    ensures user.None? ==> r == Fail(401, Unauthorized) && request.None?
    ensures user.Some? && StreamGuard(db.streams, streamId).Reject? ==>
      var g := StreamGuard(db.streams, streamId);
      r == Fail(g.status, g.message) && request.None?
    ensures user.Some? && StreamGuard(db.streams, streamId).Pass? ==>
      var stream := StreamGuard(db.streams, streamId).value;
      var existing := Existing(old(db.summaries), stream.id, lookupFails);
      && request == Some(SummaryRequest(
           MetadataOf(stream, db.messages, now, countFails),
           Sample(db.messages, stream.id, sampleFails)))
      && (outcome.Failed? ==>
           r == Fail(500, OrElse(outcome.message, "Error al generar resumen con IA")))
      && (outcome.Generated? && writeFails ==>
           r == Fail(500, if existing.Some? then "Error al actualizar resumen" else "Error al guardar resumen"))
      && (outcome.Generated? && !writeFails ==>
           && db.summaries == AfterSave(old(db.summaries), stream.id, existing,
                                        outcome.shortSummary, outcome.longSummary, now, newId)
           && r == Ok(Saved(SavedRow(stream.id, existing, outcome.shortSummary, outcome.longSummary, now, newId))))
    ensures r.status != 200 ==> db.summaries == old(db.summaries)
  {
    request := None;
    if user.None? {
      return Fail(401, Unauthorized), request;
    }
    var g := StreamGuard(db.streams, streamId);
    if g.Reject? {
      return Fail(g.status, g.message), request;
    }
    var stream := g.value;
    var metadata := MetadataOf(stream, db.messages, now, countFails);
    request := Some(SummaryRequest(metadata, Sample(db.messages, stream.id, sampleFails)));
    if outcome.Failed? {
      return Fail(500, OrElse(outcome.message, "Error al generar resumen con IA")), request;
    }
    var existing := Existing(db.summaries, stream.id, lookupFails);
    r := Save(db, stream.id, existing, outcome.shortSummary, outcome.longSummary, now, writeFails, newId);
  }

  /** The row a successful save answers with is the stream's row in the new table, holding the new text. */
  lemma SavedRowIsStored(summaries: seq<SummaryRow>, streamId: string, lookupFails: bool,
                         shortSummary: string, longSummary: string, now: int, newId: string)
    ensures var existing := Existing(summaries, streamId, lookupFails);
      var row := SavedRow(streamId, existing, shortSummary, longSummary, now, newId);
      && row in AfterSave(summaries, streamId, existing, shortSummary, longSummary, now, newId)
      && row.streamId == streamId
  {
    var existing := Existing(summaries, streamId, lookupFails);
    if existing.Some? {
      var e := existing.value;
      var i :| 0 <= i < |summaries| && summaries[i] == e;
      var r := AfterSave(summaries, streamId, existing, shortSummary, longSummary, now, newId);
      assert r[i] == Rewrite(shortSummary, longSummary, now)(e);
    }
  }

  // Properties.

  /** At most one summary row per stream. */
  ghost predicate OnePerStream(summaries: seq<SummaryRow>)
  {
    forall i, j :: 0 <= i < j < |summaries| ==> summaries[i].streamId != summaries[j].streamId
  }

  /** When the lookup succeeds, saving keeps every stream at one summary at most. */
  lemma SaveKeepsOnePerStream(summaries: seq<SummaryRow>, streamId: string, shortSummary: string,
                              longSummary: string, now: int, newId: string)
    requires OnePerStream(summaries)
    ensures OnePerStream(AfterSave(summaries, streamId, Existing(summaries, streamId, false),
                               shortSummary, longSummary, now, newId))
  {
    var existing := Existing(summaries, streamId, false);
    var r := AfterSave(summaries, streamId, existing, shortSummary, longSummary, now, newId);
    if existing.None? {
      forall i, j | 0 <= i < j < |r|
        ensures r[i].streamId != r[j].streamId
      {
        if j == |summaries| {
          assert summaries[i] in summaries;
        }
      }
    }
  }

  /** `id` is the primary key of `stream_summaries`. */
  ghost predicate UniqueIds(summaries: seq<SummaryRow>)
  {
    forall i, j :: 0 <= i < j < |summaries| ==> summaries[i].id != summaries[j].id
  }

  /**
   * A save touches only the stream's own summaries: every row of another stream keeps
   * its place and its contents, and a row added belongs to the stream.
   */
  lemma SaveKeepsOtherStreams(summaries: seq<SummaryRow>, streamId: string, lookupFails: bool,
                              shortSummary: string, longSummary: string, now: int, newId: string)
    requires UniqueIds(summaries)
    ensures var r := AfterSave(summaries, streamId, Existing(summaries, streamId, lookupFails),
                               shortSummary, longSummary, now, newId);
      && |summaries| <= |r|
      && (forall i :: 0 <= i < |summaries| && summaries[i].streamId != streamId ==> r[i] == summaries[i])
      && (forall i :: |summaries| <= i < |r| ==> r[i].streamId == streamId)
  {
    var existing := Existing(summaries, streamId, lookupFails);
    if existing.Some? {
      var k :| 0 <= k < |summaries| && summaries[k] == existing.value;
      forall i | 0 <= i < |summaries| && summaries[i].streamId != streamId
        ensures summaries[i].id != existing.value.id
      {
        assert i != k;
      }
    }
  }

  /**
   * When the lookup succeeds and the table held one summary per stream, the stream's
   * summaries after a save are exactly one row holding the new text, dated now.
   */
  lemma SaveLeavesOneCurrentSummary(summaries: seq<SummaryRow>, streamId: string, shortSummary: string,
                                    longSummary: string, now: int, newId: string)
    requires OnePerStream(summaries)
    ensures var r := AfterSave(summaries, streamId, Existing(summaries, streamId, false),
                           shortSummary, longSummary, now, newId);
      && |Filter(r, SummaryOf(streamId))| == 1
      && Filter(r, SummaryOf(streamId))[0].shortSummary == shortSummary
      && Filter(r, SummaryOf(streamId))[0].longSummary == longSummary
      && Filter(r, SummaryOf(streamId))[0].createdAt == now
  {
    var existing := Existing(summaries, streamId, false);
    if existing.None? {
      InsertLeavesOne(summaries, streamId, shortSummary, longSummary, now, newId);
    } else {
      var i :| 0 <= i < |summaries| && summaries[i] == existing.value;
      UpdateLeavesOne(summaries, streamId, i, shortSummary, longSummary, now);
    }
  }

  lemma InsertLeavesOne(summaries: seq<SummaryRow>, streamId: string, shortSummary: string,
                        longSummary: string, now: int, newId: string)
    requires forall s :: s in summaries ==> s.streamId != streamId
    ensures Filter(summaries + [SummaryRow(newId, streamId, shortSummary, longSummary, now)], SummaryOf(streamId))
            == [SummaryRow(newId, streamId, shortSummary, longSummary, now)]
  {
    var row := SummaryRow(newId, streamId, shortSummary, longSummary, now);
    FilterNone(summaries, SummaryOf(streamId));
    FilterAppend(summaries, [row], SummaryOf(streamId));
    assert Filter([row], SummaryOf(streamId)) == [row];
  }

  lemma UpdateLeavesOne(summaries: seq<SummaryRow>, streamId: string, i: nat, shortSummary: string,
                        longSummary: string, now: int)
    requires OnePerStream(summaries)
    requires i < |summaries| && summaries[i].streamId == streamId
    ensures var r := UpdateWhere(summaries, SummaryIdIs(summaries[i].id), Rewrite(shortSummary, longSummary, now));
      Filter(r, SummaryOf(streamId)) == [r[i]]
  {
    var r := UpdateWhere(summaries, SummaryIdIs(summaries[i].id), Rewrite(shortSummary, longSummary, now));
    assert OnePerStream(r) by {
      assert forall k :: 0 <= k < |r| ==> r[k].streamId == summaries[k].streamId;
    }
    OnlyRowOfStream(r, streamId, i);
  }

  /** In a table with one summary per stream, the stream's row at `i` is all `Filter` finds. */
  lemma {:induction false} OnlyRowOfStream(summaries: seq<SummaryRow>, streamId: string, i: nat)
    requires OnePerStream(summaries)
    requires i < |summaries| && summaries[i].streamId == streamId
    ensures Filter(summaries, SummaryOf(streamId)) == [summaries[i]]
  {
    var p := SummaryOf(streamId);
    assert summaries == summaries[..i] + [summaries[i]] + summaries[i + 1..];
    FilterAppend(summaries[..i] + [summaries[i]], summaries[i + 1..], p);
    FilterAppend(summaries[..i], [summaries[i]], p);
    FilterNone(summaries[..i], p);
    FilterNone(summaries[i + 1..], p);
    assert Filter([summaries[i]], p) == [summaries[i]];
  }

  /** A failed lookup is taken for "no summary yet": a stream that had one gets a second. */
  lemma LookupFailureDuplicates(summaries: seq<SummaryRow>, streamId: string, shortSummary: string,
                                longSummary: string, now: int, newId: string)
    requires exists s :: s in summaries && s.streamId == streamId
    ensures !OnePerStream(AfterSave(summaries, streamId, Existing(summaries, streamId, true),
                                shortSummary, longSummary, now, newId))
  {
    var r := AfterSave(summaries, streamId, None, shortSummary, longSummary, now, newId);
    var s :| s in summaries && s.streamId == streamId;
    var i :| 0 <= i < |summaries| && summaries[i] == s;
    assert r[i].streamId == r[|summaries|].streamId;
  }

  /** Hidden messages, and messages of other streams, change neither the count nor the sample. */
  lemma HiddenMessagesIgnored(messages: seq<MessageRow>, m: MessageRow, streamId: string,
                              countFails: bool, sampleFails: bool)
    requires m.hidden || m.streamId != streamId
    ensures MessageCount(messages + [m], streamId, countFails) == MessageCount(messages, streamId, countFails)
    ensures Sample(messages + [m], streamId, sampleFails) == Sample(messages, streamId, sampleFails)
  {
    VisibleUnchanged(messages, m, streamId);
  }

  lemma VisibleUnchanged(messages: seq<MessageRow>, m: MessageRow, streamId: string)
    requires m.hidden || m.streamId != streamId
    ensures VisibleOf(messages + [m], streamId) == VisibleOf(messages, streamId)
  {
    FilterAppend(messages, [m], VisibleIn(streamId));
    assert Filter([m], VisibleIn(streamId)) == [];
  }
}
