# StreamApp route handlers in Dafny

StreamApp is a live-streaming web application: creators open a stream with the video
provider (Livepeer) and go live. Viewers chat under moderation by an AI classifier,
follow creators, get notifications, search, and earn XP, levels and badges. Creators
also schedule streams and ask for AI summaries of a stream. This project models the
server side of that application: the JSON route handlers under `app/api/`, the XP/level
arithmetic of `lib/gamification.ts`, and the moderation client of `lib/ai/client.ts`.

## How the model is built

- **Database.** `Tables.Store` is a class with one `seq` field per table (`streams`,
  `messages`, `profiles`, `follows`, `notifications`, `stream_schedules`,
  `user_stream_views`, `user_xp_log`, `badges`, `user_badges`, `stream_summaries`,
  `special_emojis`, `videos`). A handler that writes is a method with `modifies` on
  exactly the tables it writes. Its `ensures` give the response and the new contents of
  those tables for every branch. A handler that only reads is a function over the
  tables.
- **Queries.** The query-builder calls the handlers make are the functions of `Query`,
  with PostgREST's meaning:
  - `.eq`/`.ilike` filter;
  - `.single()` finds exactly one row;
  - `.update().eq()` rewrites the matching rows;
  - `.delete()`;
  - `.order()` is a stable sort by an integer key;
  - `.limit(n)`;
  - ILIKE is a `%`/`_` pattern match after lower-casing.
- **JavaScript.** `Js` models the parts of JavaScript the handlers depend on:
  - JSON body values and truthiness;
  - `a || b`;
  - `String.prototype.trim` with ECMAScript's white-space set;
  - `length`, counted in UTF-16 code units.
- **Outside the model.** Everything outside the server is a parameter of the handler:
  - the signed-in user (`Option<string>`);
  - whether each database call returns an error: one `bool` per call. This includes the reads a handler never checks; their `count || 0` and `data || []` fallbacks, and lookups whose failure reads as "no row", are modelled;
  - the video provider's replies;
  - the classifier's reply;
  - the AI summary outcome;
  - what `new Date(...)` made of a date string;
  - the clock (`now`);
  - the ids the database assigns to new rows.
- **Responses.** A response is `Http.Response(status, payload)`. The payload is either a
  body or `{ error: message }`, and the messages are the handlers' own strings.

The invariants the handlers are written to keep are ghost predicates, and lemmas show
which operations preserve them:
- one VOD per stream;
- one view row per user and stream;
- unique follow pairs;
- one summary per stream.

Other lemmas state what repeated calls do, for example that toggling twice restores the
follows, a second badge check unlocks nothing, and a second stop is rejected. Some
lemmas record behaviour the code has as written:
- a summary lookup that fails duplicates the summary;
- a schedule update can put the end before the start;
- `q=%` matches every stream;
- a classifier reply without `isAppropriate` hides the message.

## Model

| member | source | states |
|---|---|---|
| Webhook.Decode | app/api/livepeer/webhook/route.ts:13-231 | an envelope is malformed (400) exactly when `body.event`, else `body.type`, is falsy, a lifecycle event lacks `stream` or its `playbackId`, or `recording.ready` lacks `payload`, `session` or the session's `playbackId`; a well-formed lifecycle event is exactly a live change for `stream.playbackId`, live for `stream.started` and not live for `stream.idle`/`stream.ended`; a well-formed `recording.ready` is a recording for the session's `playbackId` whose URL is the payload's `recordingUrl`, else the session's, else the provider's `recordings/<playbackId>/index.m3u8` path, with the segment duration stored exactly when it is non-zero; other event names are acknowledged and ignored |
| Webhook.Post | app/api/livepeer/webhook/route.ts:4-260 | a body that is not JSON answers 500; a malformed envelope answers 400 and changes nothing; every other delivery answers `{ received: true }`; `streams` changes only by the flag update of a lifecycle event, `videos` only by the VOD insert of a ready recording |
| Webhook.SetLiveEffect | app/api/livepeer/webhook/route.ts:55-59 | the update sets `is_live` on exactly the rows whose `playback_id` matches and leaves every other row and field as it was |
| Webhook.SetLive | app/api/livepeer/webhook/route.ts:55-59 | every row keeps its length and place; a row's `is_live` becomes the new flag exactly when its `playback_id` matches, and no other column changes |
| Webhook.SetLiveIdempotent | app/api/livepeer/webhook/route.ts:100-104 | re-delivering the same lifecycle event changes nothing more |
| Webhook.SetLiveNoMatch | app/api/livepeer/webhook/route.ts:61-72 | an event for a playback id no stream carries leaves `streams` unchanged and is still acknowledged |
| Webhook.OneVideoAtMost | app/api/livepeer/webhook/route.ts:215-220 | under one-VOD-per-stream, the existence query finds at most one row, so `.single()` is exact |
| Webhook.RecordingKeepsOneVideoPerStream | app/api/livepeer/webhook/route.ts:215-241 | when the existence query succeeds, the recording branch keeps at most one VOD row per stream |
| Webhook.RecordingReadyIdempotent | app/api/livepeer/webhook/route.ts:215-241 | a second `recording.ready` for the same stream inserts nothing |
| Webhook.RecordingForUnknownStream | app/api/livepeer/webhook/route.ts:193-210 | a recording whose playback id matches no single stream inserts nothing and is still acknowledged |
| Webhook.RecordingInsert | app/api/livepeer/webhook/route.ts:193-241 | a VOD row is inserted exactly when one stream has the playback id and the existence check does not find exactly one video of it (or fails); the row carries that stream's id and user, the URL and the duration |
| Summary.Duration | app/api/summary/route.ts:47-52 | the duration is the elapsed milliseconds floored to whole seconds |
| Summary.MessageCount | app/api/summary/route.ts:55-59 | the count is the number of non-hidden messages of the stream, and 0 when the count query fails |
| Summary.Newest | app/api/summary/route.ts:63-69 | the 20 newest visible messages of the stream (all of them when fewer), newest first: no message of the stream left out is newer than one kept |
| Summary.NonEmptyContents | app/api/summary/route.ts:71 | `.map(m => m.content).filter(Boolean)`: exactly the non-empty contents of the given messages, each as often as it occurs |
| Summary.NonEmptyContentsAppend | app/api/summary/route.ts:71 | dropping empty contents works message by message, so the contents keep the messages' order |
| Summary.Sample | app/api/summary/route.ts:63-71 | empty when the query fails; otherwise exactly the non-empty contents of the 20 newest visible messages, so at most 20, each of a visible message of the stream |
| Summary.MetadataOf | app/api/summary/route.ts:74-81 | the metadata copies title, live flag and creation time; the `category`-or-null field is absent exactly when the stream's category is missing or empty; `duration` is the whole seconds since creation; `messageCount` is the number of visible messages, 0 when the count fails |
| Summary.Existing | app/api/summary/route.ts:96-102 | none when the lookup fails; otherwise the stream's newest summary (no summary of the stream is newer), or none exactly when the stream has no summary |
| Summary.LatestIsFirst | app/api/summary/route.ts:96-102 | the first of the stream's summaries ordered newest first is at least as new as every summary of the stream |
| Summary.SavedRow | app/api/summary/route.ts:106-136 | the saved row holds the generated texts and the save time; an update keeps the existing row's id and stream, an insert takes a new id and the request's stream |
| Summary.AfterSave | app/api/summary/route.ts:104-147 | with no existing summary the saved row is appended; otherwise the table keeps its length, the rows whose id is the existing summary's get the new texts and time, and every other row is unchanged |
| Summary.Save | app/api/summary/route.ts:104-147 | a failing write answers 500 "Error al actualizar resumen" (update) or "Error al guardar resumen" (insert) and leaves the table; otherwise the table becomes `AfterSave` and the saved row is returned |
| Summary.StreamGuard | app/api/summary/route.ts:25-44 | the request passes exactly when `stream_id` is a non-empty string naming an existing stream; otherwise 400 or 404 |
| Summary.Post | app/api/summary/route.ts:5-160 | 401 without a user; the stream checks; the model request carries the metadata and the sample; an AI failure answers 500 with its message or the default; a failing write answers 500; success saves and returns the row; every non-200 answer leaves `stream_summaries` unchanged |
| Summary.SavedRowIsStored | app/api/summary/route.ts:104-152 | the row the handler returns is in the table afterwards and belongs to the requested stream |
| Summary.SaveKeepsOnePerStream | app/api/summary/route.ts:95-147 | when the lookup succeeds, update-or-insert keeps at most one summary per stream |
| Summary.SaveLeavesOneCurrentSummary | app/api/summary/route.ts:95-147 | after a successful save the stream has exactly one summary, holding the new texts and time |
| Summary.SaveKeepsOtherStreams | app/api/summary/route.ts:95-147 | with ids unique, a save leaves every summary of another stream in place and unchanged, and any row it adds belongs to the stream |
| Summary.InsertLeavesOne | app/api/summary/route.ts:128-136 | inserting into a stream with no summary leaves the new row as its only one |
| Summary.UpdateLeavesOne | app/api/summary/route.ts:107-116 | updating the stream's only summary by id leaves the rewritten row as its only one |
| Summary.OnlyRowOfStream | app/api/summary/route.ts:96-102 | under one-summary-per-stream, the stream's rows are exactly the one row found |
| Summary.LookupFailureDuplicates | app/api/summary/route.ts:96-106 | when the existence lookup fails for a stream that has a summary, the insert path creates a second summary for it |
| Summary.HiddenMessagesIgnored | app/api/summary/route.ts:54-71 | a hidden message, or one of another stream, changes neither the count nor the sample |
| AddXp.ValidateAction | app/api/gamification/add-xp/route.ts:26-39 | the action passes exactly when it is one of `watch`, `chat`, `donate`, `clip`; otherwise 400 |
| AddXp.AlreadyViewed | app/api/gamification/add-xp/route.ts:57-63 | the de-duplication lookup finds a view exactly when one view row of the user and stream exists |
| AddXp.AfterAward | app/api/gamification/add-xp/route.ts:97-108 | the updated profile's total grows by the reward, its level is the level of the new total, and no other column changes |
| AddXp.Post | app/api/gamification/add-xp/route.ts:6-146 | 401 and 400 change nothing; a repeated watch answers success with 0 XP; a first watch records a view; a failed view lookup counts as a first watch, so the view is recorded and paid again; a missing profile answers 404; a failing update answers 500; otherwise the profile gets the new total and its recomputed level, a log row is added, and the answer reports gain, total, level, `leveled_up` and the previous level |
| AddXp.OneViewAtMost | app/api/gamification/add-xp/route.ts:57-63 | under one-view-per-pair, the de-duplication query finds at most one row |
| AddXp.LookupFailureRecordsSecondView | app/api/gamification/add-xp/route.ts:57-79 | when the unchecked view lookup fails for a stream the user already watched, the inserted view row breaks one-view-per-pair |
| AddXp.RecordViewKeepsOnePerPair | app/api/gamification/add-xp/route.ts:74-80 | recording a first view keeps one view row per user and stream |
| AddXp.WatchPaysOnce | app/api/gamification/add-xp/route.ts:56-81 | once a first watch is recorded, the next watch of the same stream is de-duplicated |
| AddXp.AwardedProfileConsistent | app/api/gamification/add-xp/route.ts:97-108 | after the update the profile's total grows by the reward and its level is the level of the new total |
| AddXp.LeveledUpIffReachesNext | app/api/gamification/add-xp/route.ts:98-129 | a reward never lowers a consistent level, and `leveled_up` holds exactly when the new total reaches `xpForNextLevel` of the old level |
| Gamification.ParseAction | lib/gamification.ts:13 | an accepted name is the name of the action it parses to |
| Gamification.ParseActionNames | lib/gamification.ts:13 | every action's name parses back to that action |
| Gamification.RewardTable | lib/gamification.ts:6-11 | the rewards: watch 10, chat 5, donate 50, clip 25 |
| Gamification.XpReward | lib/gamification.ts:58-60 | every action has a positive reward of at most 50, so the `\|\| 0` default never applies |
| Gamification.Isqrt | lib/gamification.ts:20 | the integer square root `r` with `r^2 <= n < (r+1)^2` |
| Gamification.CalculateLevel | lib/gamification.ts:19-21 | the level is at least 1 and is the `L` with `100 (L-1)^2 <= max(xp, 0) < 100 L^2` |
| Gamification.LevelBracketUnique | lib/gamification.ts:15-21 | that bracket determines the level uniquely |
| Gamification.NonPositiveXpIsLevelOne | lib/gamification.ts:19-21 | every total at or below 0 is level 1 |
| Gamification.CalculateLevelMonotone | lib/gamification.ts:19-21 | more XP never gives a lower level |
| Gamification.XpForLevelMonotone | lib/gamification.ts:27-29 | a higher level never needs less XP |
| Gamification.XpForLevel | lib/gamification.ts:27-29 | the XP a level starts at is a multiple of 100, and 0 exactly for levels at or below 1 |
| Gamification.XpForNextLevel | lib/gamification.ts:34-36 | for a level `L >= 0` it is the XP at which level `L + 1` begins, and for `L >= 1` it lies `100 (2L - 1)` above `xpForLevel(L)` |
| Gamification.LevelRoundTrip | lib/gamification.ts:19-36 | `calculateLevel(xpForLevel(L)) == L` for every level `L >= 1` |
| Gamification.XpWithinLevel | lib/gamification.ts:19-36 | every total lies between `xpForLevel` of its level and `xpForNextLevel` of it |
| Gamification.XpProgress | lib/gamification.ts:41-53 | a level `L >= 1` spans `100 (2L - 1)` XP; for a total whose level it is, the progress inside it is between 0 and that span; `current` is measured from `xpForLevel(L)` |
| CheckBadges.EffectiveLevel | app/api/gamification/check-badges/route.ts:48 | `level` or 1: a stored level of 0 counts as level 1, any other is used as is |
| CheckBadges.OwnedBadgeIds | app/api/gamification/check-badges/route.ts:51-57 | the owned set holds exactly the badge ids of the user's `user_badges` rows |
| CheckBadges.OwnedOrNone | app/api/gamification/check-badges/route.ts:51-57 | the read has no error test: a failing read gives the empty set, a successful one the owned ids |
| CheckBadges.Unlockable | app/api/gamification/check-badges/route.ts:79-99 | a badge is unlocked exactly when it is in the catalogue, not yet owned, and its requirement is met |
| CheckBadges.MeetsRequirement | app/api/gamification/check-badges/route.ts:82-97 | the `switch`: `level` compares the level, `xp` the total XP, `action_count` views plus visible messages, and any other type never unlocks |
| CheckBadges.Qualifies | app/api/gamification/check-badges/route.ts:82-97 | a badge qualifies exactly when its type is `level`, `xp` or `action_count` and its value is at most the level, the total XP or the action count respectively |
| CheckBadges.Actions | app/api/gamification/check-badges/route.ts:60-95 | the action count is views plus visible messages when both count reads succeed, 0 when both fail, and never more than the true sum |
| CheckBadges.UnlockAll | app/api/gamification/check-badges/route.ts:76-115 | the loop returns the cards of exactly the unlockable badges, in catalogue order, and appends one grant row per card to `user_badges` |
| CheckBadges.Cards | app/api/gamification/check-badges/route.ts:108-113 | one `newly_unlocked` entry per unlocked badge |
| CheckBadges.CardsAt | app/api/gamification/check-badges/route.ts:108-113 | the k-th entry carries the id, name, description and icon of the k-th unlocked badge |
| CheckBadges.Grants | app/api/gamification/check-badges/route.ts:101-106 | one `user_badges` insert per unlocked badge |
| CheckBadges.GrantsAt | app/api/gamification/check-badges/route.ts:101-106 | the k-th insert gives the caller the k-th unlocked badge, dated now |
| CheckBadges.Post | app/api/gamification/check-badges/route.ts:5-128 | 401 without a user and 404 without a profile change nothing; otherwise the answer lists the unlockable badges of the catalogue (none when its read fails), computed from the owned set (empty when the `user_badges` read fails), the effective level, the total XP and the view plus visible-message count (a failed count read counting 0), and each is granted |
| CheckBadges.UnlockedAreNewAndEarned | app/api/gamification/check-badges/route.ts:79-99 | when the `user_badges` read succeeds, an unlocked badge is in the catalogue, meets its requirement and was not held before |
| CheckBadges.OwnedAfterGrants | app/api/gamification/check-badges/route.ts:101-106 | after the grants the owned set is the old one plus the granted badge ids |
| CheckBadges.SecondCallUnlocksNothing | app/api/gamification/check-badges/route.ts:79-115 | when the `user_badges` read succeeds, calling again with the same profile and counts unlocks nothing |
| CheckBadges.OwnedReadFailureRegrants | app/api/gamification/check-badges/route.ts:51-115 | when the `user_badges` read fails, an earned badge the user already holds is reported as newly unlocked again and a second grant row is inserted for it |
| CheckBadges.OneGrantPerBadge | app/api/gamification/check-badges/route.ts:101-106 | at most one `user_badges` row per user and badge, so no grant row is stored twice |
| CheckBadges.FilterKeepsUniqueIds | app/api/gamification/check-badges/route.ts:71-106 | the badges the loop keeps have unique ids when the catalogue does |
| CheckBadges.GrantsKeepOnePerBadge | app/api/gamification/check-badges/route.ts:51-106 | with a successful `user_badges` read and a catalogue of unique ids, one call's grants keep at most one row per user and badge |
| CheckBadges.FailedReadsUnlockNoMore | app/api/gamification/check-badges/route.ts:60-99 | failed count or catalogue reads only unlock badges the successful reads would unlock too, and without the catalogue nothing unlocks |
| CheckBadges.UnknownRequirementNeverUnlocks | app/api/gamification/check-badges/route.ts:84-97 | a badge whose requirement type is not `level`, `xp` or `action_count` is never unlocked |
| AiClient.AIClient.constructor | lib/ai/client.ts:16-35 | an OpenAI key wins and selects the OpenAI endpoint; otherwise a Groq key selects the Groq endpoint; with neither the key and endpoint are empty and the provider is OpenAI |
| AiClient.AIClient.Request | lib/ai/client.ts:66-81 | the completion request names `llama-3.1-8b-instant` for Groq and `gpt-3.5-turbo` otherwise, carries the key as bearer token and the content as the user message |
| AiClient.AIClient.ModerateMessage | lib/ai/client.ts:37-105 | the call throws exactly when no key is configured; a non-empty completion whose text is the JSON `null` returns `null`; any verdict other than the fail-open one is the parsed JSON of a non-empty completion |
| AiClient.FailOpen | lib/ai/client.ts:84-104 | with a key, an HTTP error, an empty completion or non-JSON content yields the fail-open verdict, which allows the message |
| AiClient.VerdictPassedThrough | lib/ai/client.ts:90-98 | with a key, a non-empty completion that parses is returned as the verdict unchanged |
| Moderate.ValidationError | app/api/moderate/route.ts:25-44 | the request is valid exactly when `stream_id` and `content` are non-empty strings and `content` is at most 500 UTF-16 units long; otherwise the matching 400 message |
| Moderate.RouteVerdict | app/api/moderate/route.ts:46-65 | a thrown moderation call (no key) and a returned `null` (whose field read throws inside the route's `try`) allow the message with no reason; a verdict the classifier returns is copied, its `isAppropriate` and `reason` becoming the route's; only such a verdict can disallow the message |
| Moderate.CardById | app/api/moderate/route.ts:88-97 | the profile attached to a visible message is the `id, username, avatar_url` card of the author's profile, or null when there is none |
| Moderate.StoredMessage | app/api/moderate/route.ts:67-75 | the stored row holds the trimmed content, the user and the stream, and is hidden exactly when the verdict's `isAppropriate` is falsy |
| Moderate.Post | app/api/moderate/route.ts:5-117 | 401 without a user; the 400 validation answers; a failing insert answers 500; otherwise exactly one message row is appended and returned with the author's id, username and avatar when the message is visible and the profile exists, `moderated` and the reason; a non-200 answer stores nothing |
| Moderate.StoredContentWithinLimit | app/api/moderate/route.ts:39-73 | a stored message is never longer than 500 UTF-16 units |
| Moderate.LengthBoundary | app/api/moderate/route.ts:39-44 | for BMP text, 500 characters are accepted and 501 are rejected with "Message too long (max 500 characters)" |
| Moderate.WhitespaceOnlyStoredEmpty | app/api/moderate/route.ts:25-73 | a whitespace-only message passes validation and is stored with empty content |
| Moderate.FailOpenStoresVisible | app/api/moderate/route.ts:50-74 | with no key, or a failed or unparsable classifier reply, the message is stored visible |
| Moderate.NullVerdictStoresVisible | app/api/moderate/route.ts:50-65 | a completion whose text is the JSON `null` stores the message visible, with no reason |
| Moderate.ParsedVerdictDecides | app/api/moderate/route.ts:46-74 | with a key and a non-empty completion that parses, the message is stored hidden exactly when `isAppropriate` is falsy, and the answer carries the verdict's `reason` |
| Moderate.MissingVerdictHides | app/api/moderate/route.ts:52-74 | a reply that parses but has no `isAppropriate` field hides the message |
| LivepeerStreams.InitialRow | app/api/livepeer/create-stream/route.ts:70-79 | a new stream row belongs to the caller, keeps the title, stream key and playback id, uses the fixed RTMP ingest URL and starts offline |
| LivepeerStreams.Create | app/api/livepeer/create-stream/route.ts:5-105 | 401 and 400 ("Title is required") make no provider call; a failed create, a missing stream id or failed details answer 500 with their messages; a failing insert answers 500; only full success appends the row and answers with its id, key, playback id and ingest URL; the provider is asked to record |
| LivepeerStreams.Latest | app/api/livepeer/get-stream/route.ts:41-43 | `.order('created_at', desc).limit(1)` keeps one row of the input, and nothing only when there are none |
| LivepeerStreams.GetStream | app/api/livepeer/get-stream/route.ts:4-76 | 400 exactly when no selector is given; a 200 answer is a stored stream, the requested one when `streamId` is given |
| LivepeerStreams.SelectorPrecedence | app/api/livepeer/get-stream/route.ts:24-49 | `streamId` wins over `username`, which wins over `userId` |
| LivepeerStreams.LatestOfUser | app/api/livepeer/get-stream/route.ts:42-68 | selecting by `userId` answers 500 "Failed to fetch stream" when the query fails, otherwise 404 exactly when the user has no stream, and else the user's newest stream |
| LivepeerStreams.LatestOfStreams | app/api/livepeer/get-stream/route.ts:41-43 | the newest of a user's streams is theirs and none of theirs is newer; there is none exactly when they have no stream |
| LivepeerStreams.UnknownUsername | app/api/livepeer/get-stream/route.ts:26-39 | an unknown `username` answers 404 "User not found" |
| LivepeerStreams.UsernameMustBeUnique | app/api/livepeer/get-stream/route.ts:26-39 | by username, "User not found" answers exactly when `.single()` does not find exactly one profile with that username |
| LivepeerStreams.UsernameIsItsUser | app/api/livepeer/get-stream/route.ts:26-45 | a username naming one profile answers as `userId` with that profile's id, so `LatestOfUser` describes it: that user's newest stream, or 404 "Stream not found" when they have none |
| LivepeerStreams.ByUsername | app/api/livepeer/get-stream/route.ts:26-68 | a username naming exactly one profile answers as the `userId` query does for that profile's id, whatever the id: 500 on a failed query, 404 without a stream, else the newest stream |
| LivepeerStreams.ByStreamId | app/api/livepeer/get-stream/route.ts:23-66 | by `streamId`: 500 when the query fails; otherwise 404 "Stream not found" exactly when no row has that id, and else a row with that id |
| LivepeerStreams.CreatedStreamIsOffline | app/api/livepeer/create-stream/route.ts:70-79 | a just-created stream can be found by its id, and stopping it is rejected as already offline |
| Streams.GoOffline | app/api/streams/stop-stream/route.ts:67-73 | stopping keeps the stream's id and clears `is_live` |
| Streams.StopGuard | app/api/streams/stop-stream/route.ts:21-65 | a stop request passes exactly when `streamId` is a non-empty string naming a stream the caller owns and that is live; otherwise 400, 403 or 404 |
| Streams.Stop | app/api/streams/stop-stream/route.ts:4-91 | 401 without a user; a rejected request or a failing update changes nothing; otherwise only that stream goes offline and the updated row is returned |
| Streams.TitleGuard | app/api/streams/update-title/route.ts:21-71 | a retitle passes exactly when both fields are non-empty strings, the trimmed title is non-empty, the title is at most 100 UTF-16 units, and the stream exists and is the caller's; otherwise 400, 403 or 404 |
| Streams.UpdateTitle | app/api/streams/update-title/route.ts:4-97 | 401 without a user; a rejected request or a failing update changes nothing; otherwise only that stream's title becomes the trimmed title and the updated row is returned |
| Streams.StopTwiceRejected | app/api/streams/stop-stream/route.ts:59-65 | stopping a stream that was just stopped is rejected with "Stream is already offline" |
| Streams.UnknownStreamNotFound | app/api/streams/stop-stream/route.ts:38-50 | both handlers answer 404 "Stream not found" for an id no stream has, once the body checks pass |
| Streams.StopTouchesOneRow | app/api/streams/stop-stream/route.ts:67-73 | the stop update changes only the row with that id, and only its live flag |
| Streams.StoredTitleWellFormed | app/api/streams/update-title/route.ts:38-76 | a stored title is non-empty, neither starts nor ends with white space, and is at most 100 UTF-16 units |
| Streams.TitleLengthBoundary | app/api/streams/update-title/route.ts:45-50 | for BMP text, 101 characters are rejected as too long and 100 are not |
| Streams.BlankTitleRejected | app/api/streams/update-title/route.ts:38-43 | a whitespace-only title is rejected with "Title cannot be empty" |
| Streams.RetitleIdempotent | app/api/streams/update-title/route.ts:73-79 | repeating the same retitle changes nothing more |
| Tables.ProfileById | app/api/gamification/add-xp/route.ts:84-88 | `.eq('id', id).single()` on profiles: a row is found exactly when one row has that id; it is stored, has that id, and is the only stored row with it |
| Tables.StreamById | app/api/streams/stop-stream/route.ts:39-43 | `.eq('id', id).single()` on streams: a row is found exactly when one row has that id; it is stored, has that id, and is the only stored row with it |
| Tables.StreamByIdAfterUpdate | app/api/streams/update-title/route.ts:74-79 | after an id-preserving update by id, looking the stream up gives the updated row |
| Tables.ProfileByIdAfterUpdate | app/api/gamification/add-xp/route.ts:102-108 | after an id-preserving update by id, looking the profile up gives the updated row |
| Follow.Toggle | app/api/follow/toggle/route.ts:4-97 | 401 without a user; 400 for a missing `following_id` or for following oneself; otherwise an existing follow is deleted ("unfollowed") and a missing one inserted ("followed"); a failed existence lookup counts as not following, so the pair is inserted; a failing write answers 500 with the matching message and changes nothing |
| Follow.Toggled | app/api/follow/toggle/route.ts:46-89 | after a successful toggle an existing pair's rows are gone and every other row stays; a missing pair is appended as one new row |
| Follow.Check | app/api/follow/check/route.ts:4-49 | 200 exactly when there is a user and a `following_id`, and then `is_following` reports whether the pair's `.single()` lookup finds a row |
| Follow.Stats | app/api/follow/stats/route.ts:6-43 | 200 exactly when `user_id` is given; each count is 0 when its read fails (`count \|\| 0`), and otherwise the number of follow rows naming the user on that side, which is 0 exactly when there is none |
| Follow.OnePairAtMost | app/api/follow/toggle/route.ts:38-44 | when pairs are unique the existence lookup finds at most one row |
| Follow.IsFollowingIffPair | app/api/follow/check/route.ts:31-41 | when pairs are unique `is_following` holds exactly when the pair is stored |
| Follow.IsFollowing | app/api/follow/check/route.ts:31-41 | `!!follow` holds exactly when the `.single()` lookup finds one row for the pair, and then the pair is stored |
| Follow.ToggleFlipsOnePair | app/api/follow/toggle/route.ts:38-89 | a toggle keeps pairs unique and adds or removes exactly the caller's pair |
| Follow.DeleteKeepsUnique | app/api/follow/toggle/route.ts:48-52 | deleting rows keeps pairs unique |
| Follow.DeletePairs | app/api/follow/toggle/route.ts:48-52 | the unfollow delete removes exactly that pair |
| Follow.ToggleTwiceRestores | app/api/follow/toggle/route.ts:38-89 | toggling twice restores the set of follow pairs |
| Follow.LookupFailureDuplicatesPair | app/api/follow/toggle/route.ts:39-46 | when the unchecked existence lookup fails for a stored pair, the insert stores that pair twice |
| Follow.CheckAfterToggle | app/api/follow/check/route.ts:31-41 | after a toggle, the check reports the opposite of what it reported before |
| Follow.UnfollowCount | app/api/follow/stats/route.ts:20-30 | deleting the one row of a pair lowers every count that includes it by one |
| Follow.FollowCount | app/api/follow/stats/route.ts:20-30 | inserting a row raises every count that includes it by one |
| Follow.ToggleMovesCounts | app/api/follow/stats/route.ts:20-34 | a toggle moves the target's `followers` and the caller's `following` by one, down on unfollow and up on follow |
| Notifications.Newest | app/api/notifications/get/route.ts:24-29 | the caller's 50 newest notifications (all of them when fewer), newest first: none of the caller's notifications left out is newer than one kept |
| Notifications.UnreadCount | app/api/notifications/get/route.ts:39-44 | the unread count is 0 exactly when every notification of the caller is read |
| Notifications.RelatedIds | app/api/notifications/get/route.ts:47-53 | the related user ids are exactly the non-empty `related_user_id`s of the page, each once |
| Notifications.Distinct | app/api/notifications/get/route.ts:47-53 | `[...new Set(...)]` keeps exactly the values of the list, each once |
| Notifications.Join | app/api/notifications/get/route.ts:70-75 | one entry per notification, in order, each the notification with its related user |
| Notifications.ProfileMap | app/api/notifications/get/route.ts:55-67 | the map's keys are exactly the ids of the fetched profiles, each mapped to a profile with that id |
| Notifications.FillProfileMap | app/api/notifications/get/route.ts:62-66 | the `forEach` loop builds exactly that map |
| Notifications.RelatedUser | app/api/notifications/get/route.ts:70-75 | a notification carries a related user exactly when its `related_user_id` is set and found in the map, and then it is that profile's card |
| Notifications.Get | app/api/notifications/get/route.ts:6-89 | 401 without a user; 500 when the page query fails; otherwise the newest page joined with the related profiles, and the unread count (0 when its query fails); nothing is changed |
| Notifications.MarkRead | app/api/notifications/mark-read/route.ts:4-56 | 401 without a user; 400 without `notification_id`; 500 when the update fails, changing nothing; otherwise the caller's notification with that id is marked read |
| Notifications.MarkedRead | app/api/notifications/mark-read/route.ts:31-36 | a row is read afterwards exactly when it was read or it is the caller's row with that id; no other column of any row changes |
| Notifications.RelatedUserMatches | app/api/notifications/get/route.ts:46-75 | each joined notification has a related user exactly when a profile with its `related_user_id` exists, and it is that profile |
| Notifications.SmallInboxComplete | app/api/notifications/get/route.ts:24-29 | a user with at most 50 notifications sees all of them |
| Notifications.MarkReadIdempotent | app/api/notifications/mark-read/route.ts:31-36 | marking the same notification read twice changes nothing more |
| Notifications.MarkReadTouchesOwnRow | app/api/notifications/mark-read/route.ts:31-36 | only a row with that id that belongs to the caller is changed, and only its `is_read` flag |
| Notifications.MarkReadUnreadCounts | app/api/notifications/mark-read/route.ts:31-44 | marking read never raises the caller's unread count and never changes another user's |
| Schedules.OrNull | app/api/schedules/create/route.ts:85-91 | the `x`-or-null idiom on a string column: null exactly for the empty string, the string otherwise |
| Schedules.DateGuard | app/api/schedules/create/route.ts:33-74 | a create passes exactly when `title` and `scheduled_start` are given, the start parses, and a given end parses and is strictly after the start; otherwise 400 |
| Schedules.NewRow | app/api/schedules/create/route.ts:81-94 | the inserted row has the given id, belongs to the caller and is active; it holds the body's title and the parsed start and end instants; `is_recurring` defaults to false and `timezone` to "UTC" only when absent; empty optional strings are stored as null |
| Schedules.Create | app/api/schedules/create/route.ts:4-129 | 401 without a user; 400 from the date checks; 500 when the insert fails; otherwise exactly one row is appended and returned with the caller's profile card when found; a non-200 answer stores nothing |
| Schedules.OwnerGuard | app/api/schedules/update/route.ts:24-50 | a request passes exactly when `schedule_id` is given and names exactly one schedule, owned by the caller; otherwise 400, 404 or 403 |
| Schedules.Update | app/api/schedules/update/route.ts:4-79 | 401 without a user; the owner checks; 500 when the update fails; otherwise the fields of the body are written as given to the rows with that id and the updated row is returned; every other case changes nothing |
| Schedules.Apply | app/api/schedules/update/route.ts:22-57 | the update leaves a row unchanged exactly when every field of the body already has its value; afterwards every field of the body has it, and every column the body does not give keeps its value; applying it twice is applying it once |
| Schedules.Deactivate | app/api/schedules/delete/route.ts:52-56 | the soft delete clears `is_active` and keeps every other column, the id included |
| Schedules.Delete | app/api/schedules/delete/route.ts:4-76 | 401 without a user; the owner checks; 500 when the update fails; otherwise the schedule is deactivated, never removed |
| Schedules.List | app/api/schedules/get/route.ts:4-61 | 500 exactly when the query fails; otherwise the first `limit` (default 50) qualifying rows by start, all of them when fewer: stored rows, each active, of `user_id` when given and not yet started when `upcoming=true`, and no qualifying row left out starts before one kept |
| Schedules.CreatedEndsAfterStart | app/api/schedules/create/route.ts:61-89 | a created schedule's end, when present, is after its start |
| Schedules.TimezoneDefaultOnlyWhenAbsent | app/api/schedules/create/route.ts:29 | the "UTC" default applies only to a missing `timezone`; an empty one is stored as given |
| Schedules.UpdateCanInvertDates | app/api/schedules/update/route.ts:52-58 | the update does not revalidate dates: it can leave a schedule whose end precedes its start |
| Schedules.EmptyPatchIsIdentity | app/api/schedules/update/route.ts:52-58 | a body with nothing but `schedule_id` changes no row |
| Schedules.DeleteIdempotent | app/api/schedules/delete/route.ts:52-56 | deleting twice is the same as deleting once |
| Schedules.DeletedNotListed | app/api/schedules/get/route.ts:27 | a deleted schedule no longer appears in any listing, and no row is removed |
| Schedules.ListComplete | app/api/schedules/get/route.ts:27-37 | when no more than `limit` rows qualify, every qualifying row is listed |
| Search.StreamsMatching | app/api/search/route.ts:22-35 | the `n` newest stored streams with the requested live flag whose title matches the pattern case-insensitively (all of them when fewer), newest first: no matching stream left out is newer than one kept |
| Search.UsersMatching | app/api/search/route.ts:42-46 | the first 20 stored profiles, in table order, whose username matches the pattern case-insensitively (all of them when fewer) |
| Search.Search | app/api/search/route.ts:4-87 | always 200; a missing or whitespace-only `q` answers empty results with total 0; otherwise `query` is the trimmed `q`, the live, user and offline lists are exactly the `StreamsMatching`/`UsersMatching` pages for `%q%` (empty when their query fails), and `total` is the sum of the three lengths, at most 50 |
| Search.MatchIsCaseInsensitiveSubstring | app/api/search/route.ts:19-32 | for a query without `%` or `_`, a title matches exactly when the lower-cased trimmed query occurs in the lower-cased title |
| Search.StreamsMatchingComplete | app/api/search/route.ts:32-35 | when no more than the limit qualify, every matching stream with the flag is returned |
| Search.FewLiveMatchesAllListed | app/api/search/route.ts:19-35 | when at most 20 live streams match, every one of them is in the answer |
| Search.PercentQueryMatchesAll | app/api/search/route.ts:19 | the query is not escaped: `q=%` matches every title |
| UserStats.BadgeById | app/api/gamification/get-user-stats/route.ts:44-49 | the joined badge is found exactly when one catalogue badge has that id, and is then that badge |
| UserStats.Flatten | app/api/gamification/get-user-stats/route.ts:75-81 | the badge list is defined exactly when every owned badge joins a catalogue badge, and then lists, in order, each joined badge's id, name, description and icon with the unlock time |
| UserStats.UnlockedEmojis | app/api/gamification/get-user-stats/route.ts:53-58 | exactly the emojis whose `unlock_level` is at or below the level, in ascending `unlock_level` order |
| UserStats.OwnedOrEmpty | app/api/gamification/get-user-stats/route.ts:39-81 | the badge list is empty when its read fails, and otherwise the flattened join of the user's badge rows |
| UserStats.GetUserStats | app/api/gamification/get-user-stats/route.ts:4-95 | 401 without a user; 404 exactly when the profile is missing; with a profile, 500 exactly when the badge read succeeds and some badge row of the user has no catalogue badge to join (a failed badge read answers 200); a 200 answer belongs to a signed-in user |
| UserStats.StatsContents | app/api/gamification/get-user-stats/route.ts:35-87 | the reported level is `level` or 1 and at least 1, the total is the stored one, the badges are the user's joined badges in `user_badges` order (none when that read fails), and the emojis are exactly those unlocked at that level, in ascending order (none when that read fails) |
| UserStats.CountsMatchBadgeRule | app/api/gamification/get-user-stats/route.ts:60-86 | `streams_watched` is the number of the user's view rows and `messages_sent` the number of their visible messages, each 0 when its count read fails; their sum is the action count check-badges compares for `action_count` badges under the same failures |
| UserStats.HiddenMessageNotCounted | app/api/gamification/get-user-stats/route.ts:66-70 | a hidden message is not counted as sent and a visible one is |
| Query.Filter | app/api/search/route.ts:32-33 | `.eq`/`.ilike` filters keep exactly the rows that satisfy them |
| Query.FilterMultiset | app/api/search/route.ts:32-33 | every satisfying row is kept as many times as the table holds it, and no other row |
| Query.FilterAppend | app/api/search/route.ts:32-33 | filtering works row by row: the filter of two tables one after the other is the two filters one after the other, so the table order is kept |
| Query.FilterSnoc | app/api/search/route.ts:32-33 | filtering one more row appends it exactly when it satisfies the filter |
| Query.Single | app/api/livepeer/webhook/route.ts:194-198 | `.single()` yields a row exactly when one row matches, and then that row |
| Query.Take | app/api/search/route.ts:35 | `.limit(n)` keeps a prefix of exactly `min(n, rows)` rows |
| Query.CountOrZero | app/api/follow/stats/route.ts:20-34 | `count \|\| 0`: 0 when the count read fails, the count otherwise, never more than it |
| Query.RowsOrEmpty | app/api/gamification/check-badges/route.ts:71-79 | `data \|\| []`: no rows when the read fails, the rows otherwise |
| Query.UpdateWhere | app/api/streams/stop-stream/route.ts:68-71 | `.update(...).eq(...)` rewrites exactly the matching rows and keeps the others and the order |
| Query.UpdateWhereIdempotent | app/api/livepeer/webhook/route.ts:100-104 | applying the same idempotent, filter-preserving update twice is the same as once |
| Query.DeleteWhereCount | app/api/follow/toggle/route.ts:48-52 | a delete removes from any count exactly the deleted rows it included |
| Query.DeleteWhere | app/api/follow/toggle/route.ts:48-52 | `.delete().eq(...)` keeps exactly the rows that do not match |
| Query.SortBy | app/api/search/route.ts:34 | `.order(...)` returns a permutation of its input, ordered by the key |
| Query.TakeSorted | app/api/search/route.ts:34-35 | limiting an ordered table keeps its first rows by the key: as many as the limit allows, in order, and no row left out has a smaller key than a row kept |
| Query.TakeSortBy | app/api/search/route.ts:34-35 | `.order(key).limit(n)` answers the first `n` rows by the key, as `FirstByKey` defines it |
| Query.SortByFirstIsLeast | app/api/search/route.ts:34 | the first ordered row has the least key of all |
| Query.ContainsPattern | app/api/search/route.ts:19 | `%u%` with a wildcard-free `u` matches exactly the texts containing `u` |
| Query.PercentMatchesAll | app/api/search/route.ts:19 | the pattern `%` matches every text |
| Query.UnderscoreMatchesAnyNonEmpty | app/api/search/route.ts:19 | the pattern `%_%` matches exactly the non-empty texts |
| Query.LiteralPrefix | app/api/search/route.ts:19 | a wildcard-free `u` followed by `%` matches exactly the texts starting with `u` |
| Query.LeadingPercent | app/api/search/route.ts:19 | a leading `%` matches a text exactly when the rest of the pattern matches some suffix of it |
| Query.ILike | app/api/search/route.ts:32 | the pattern `%` matches every text and the empty pattern only the empty text |
| Js.OrElse | app/api/summary/route.ts:90 | the `a`-or-`b` idiom on strings yields one of them, and the empty string only when both are empty |
| Js.Truthy | app/api/moderate/route.ts:25 | a value is falsy exactly when it is `undefined`, `null`, `false`, `0` or `""` |
| Js.Trim | app/api/moderate/route.ts:51 | `trim()` never makes a string longer; `TrimIsInfix` says which part it keeps |
| Js.TrimIsInfix | app/api/search/route.ts:10-19 | `trim()` keeps a contiguous middle part and removes only white space around it |
| Js.TrimEndsNotSpace | app/api/streams/update-title/route.ts:76 | a trimmed string neither starts nor ends with white space |
| Js.TrimEmptyIffAllSpace | app/api/search/route.ts:10 | `q.trim().length === 0` holds exactly when `q` is all white space |
| Js.TrimIdempotent | app/api/streams/update-title/route.ts:38-76 | trimming twice is trimming once |
| Js.TrimShortens | app/api/moderate/route.ts:39-73 | trimming never lengthens a string in UTF-16 units |
| Js.Utf16Length | app/api/moderate/route.ts:39 | `length` counts UTF-16 units: between one and two per character, exactly one each for BMP text |
| Js.Utf16LengthAppend | app/api/moderate/route.ts:39 | the UTF-16 length of a concatenation is the sum of the lengths |
| Js.TrimStartSpec | app/api/streams/update-title/route.ts:38 | the leading part `trim()` drops is all white space and what it keeps starts with a non-space character |
| Js.TrimEndSpec | app/api/streams/update-title/route.ts:38 | the trailing part `trim()` drops is all white space and what it keeps ends with a non-space character |

## Left out

- The pages and components under `app/` and `components/` (UI only), and `app/api/chat/send/route.ts`. That file is not one of the modelled handlers.
- Logging (`console.*`), the webhook signature check (commented out in the source), and the construction of the Supabase clients, including the service-role admin client. Who may read or write a row under row-level security is not modelled.
- Concurrency. Each handler runs alone against the store, so interleavings of two requests are not modelled, for example two toggles or two add-xp calls racing on the same profile.
- The AI summary call. `aiClient.generateSummary` is called by `app/api/summary/route.ts`, but `lib/ai/client.ts` does not define it, so with that client the call throws and the route answers 500. `Summary.Post` takes the call's outcome as a parameter, and models both a generated summary and a failure. The HTTP call to the summary model is not part of this model.
- The HTTP exchange with the classifier in `lib/ai/client.ts`, the system prompt, `temperature` and `max_tokens`. The reply is a parameter (`ClassifierReply`): an HTTP error, or a completion with what `JSON.parse` made of it.
- The Livepeer SDK (`lib/livepeer.ts`). `LivepeerStreams.Create` takes the provider's create and get replies as parameters and records the calls it makes.
- LivepeerStreams.Create: a provider call that throws (a rejected request) is not one of the replies it takes. The route's `catch` then answers 500 "Internal server error" and inserts nothing; that path is not modelled.
- Joins and embeds: the `profiles:user_id (...)` and `streams:stream_id (...)` embeds of search, get-stream and schedules/get are not attached to the returned rows. The badge join of get-user-stats is modelled (`UserStats.Flatten`).
- Query.SortBy: it is stable, so rows with equal keys keep table order. PostgREST gives no order for ties.
- Query.ILike: case folding covers ASCII letters only. The database's locale-dependent folding of other letters is not modelled.
- Numbers are unbounded integers: JavaScript's double arithmetic, `NaN`, `Infinity` and rounding of very large XP totals are not modelled. `Gamification.CalculateLevel` is the exact `floor(sqrt(max(xp, 0) / 100)) + 1`.
- Gamification.XpProgress: returns the integer parts of `xpProgress` only. The floating-point `percentage` is left out.
- Schedules.List: `limit` is the parsed `limit` parameter as a natural number. `parseInt` giving `NaN` or a negative value is not modelled.
- Date strings are abstracted to `Option<int>`: what `new Date(...)` parses is a parameter, and `toISOString` is the identity on the parsed instant. The branch on `T`/`Z`/`+` in schedules/create does the same thing on both sides, so only its outcome is modelled.
- Nullable numeric columns (`level`, `total_xp`, `created_at`) are non-null integers. `level || 1` is modelled for a stored 0 (`CheckBadges.EffectiveLevel`), and `total_xp || 0` needs no case. `Summary.Duration` always has a `created_at`, so the `duration: undefined` case is not modelled.
- Request bodies that are not JSON are modelled only for `Webhook.Post`. Elsewhere the throw of `request.json()` and the catch-all 500 that answers it are not modelled. Body fields of unexpected types are modelled only where a handler checks `typeof` (`Js.Value`). Elsewhere a field is a string, with `""` for missing or falsy.
- A failing read is folded into "not found" wherever the handler treats both alike: the `error || !data` tests. Reads a handler does not test at all are flags of that handler: the `user_badges`, count and catalogue reads of `CheckBadges.Post`; the badge, emoji and count reads of `UserStats.GetUserStats`; the two counts of `Follow.Stats`; the count and profile reads of `Notifications.Get` (`countFails`, `profilesFail`); the count, sample and existing-summary reads of `Summary.Post`; the view lookup of `AddXp.Post` (`viewLookupFails`); the existence lookup of `Follow.Toggle` (`lookupFails`); and the video lookup of `Webhook.Post` (`videoLookupFails`).
- The `user_badges` inserts of check-badges ignore their errors, and the model takes them to succeed. The view and log inserts of add-xp also ignore their errors; in the model a flag decides only whether the row is added.
- UserStats.GetUserStats: its own contract covers the status codes, the 500 included. The contents of a 200 answer are stated by `UserStats.StatsContents` and `UserStats.CountsMatchBadgeRule`.
- LivepeerStreams.GetStream: its own contract covers 200 and 400. The 404 and 500 answers are stated by `LivepeerStreams.ByStreamId`, `LivepeerStreams.LatestOfUser`, `LivepeerStreams.UsernameMustBeUnique` and `LivepeerStreams.ByUsername`.
