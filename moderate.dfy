/**
 * The moderated chat-send endpoint (app/api/moderate/route.ts): validate, classify,
 * and store the message with `hidden = !isAppropriate`.
 */
module Moderate {
  import opened Wrappers
  import opened Js
  import opened Http
  import opened Tables
  import opened AiClient

  /** The response body: the stored row with the sender's profile attached, and the verdict. */
  datatype SentMessage = SentMessage(message: MessageRow, profile: Option<ProfileCard>, moderated: bool, reason: Value)

  const MaxLength := 500

  /** The three validation steps after authentication, in order; `None` when all pass. */
  function ValidationError(streamId: Value, content: Value): (e: Option<string>)
    ensures e.None? <==> streamId.Str? && content.Str? && streamId.s != "" && content.s != ""
                         && Utf16Length(content.s) <= MaxLength
  {
    if !Truthy(streamId) || !Truthy(content) then Some("stream_id and content are required")
    else if !streamId.Str? || !content.Str? then Some("Invalid request format")
    else if Utf16Length(content.s) > MaxLength then Some("Message too long (max 500 characters)")
    else None
  }

  /**
   * `isAppropriate` and `moderationReason` after the route's own try/catch around
   * `moderateMessage`: anything it throws, and the `TypeError` of reading a field of a
   * returned `null`, leaves the message appropriate, reason unset.
   */
  function RouteVerdict(client: AIClient, content: string, reply: ClassifierReply): (v: (Value, Value))
    ensures !client.HasKey() ==> v == (Bool(true), Undefined)
    ensures reply.Completion? && reply.parsed.ParsedNull? ==> Truthy(v.0)
    ensures client.HasKey() && reply.Completion? && reply.content != "" && reply.parsed.ParsedNull? ==>
      v == (Bool(true), Undefined)
    ensures !Truthy(v.0) ==> client.HasKey() && reply.Completion? && reply.parsed.Parsed?
    ensures client.HasKey() && reply.Completion? && reply.content != "" && reply.parsed.Parsed? ==>
      v == (reply.parsed.result.isAppropriate, reply.parsed.result.reason)
  {
    match client.ModerateMessage(content, reply)
    case Threw(_) => (Bool(true), Undefined)
    case ReturnedNull => (Bool(true), Undefined)
    case Returned(result) => (result.isAppropriate, result.reason)
  }

  /** The row the route inserts for an accepted message. */
  function StoredMessage(client: AIClient, userId: string, streamId: string, content: string,
                         reply: ClassifierReply, newId: string, now: int): (m: MessageRow)
    ensures m.content == Trim(content) && m.userId == userId && m.streamId == streamId
    ensures m.hidden <==> !Truthy(RouteVerdict(client, Trim(content), reply).0)
  {
    MessageRow(newId, userId, streamId, Trim(content), !Truthy(RouteVerdict(client, Trim(content), reply).0), now)
  }

  /**
   * POST handler. `reply` is what the classifier would answer for the trimmed content;
   * `insertFails` says whether the insert returns an error.
   */
  method Post(db: Store, client: AIClient, user: Option<string>, streamId: Value, content: Value,
              reply: ClassifierReply, insertFails: bool, newId: string, now: int)
    returns (r: Response<SentMessage>)
    modifies db`messages
    ensures user.None? ==> r == Fail(401, Unauthorized)
    ensures user.Some? && ValidationError(streamId, content).Some? ==>
      r == Fail(400, ValidationError(streamId, content).value)
    ensures user.Some? && ValidationError(streamId, content).None? && insertFails ==>
      r == Fail(500, "Failed to send message")
    ensures user.Some? && ValidationError(streamId, content).None? && !insertFails ==>
      var row := StoredMessage(client, user.value, streamId.s, content.s, reply, newId, now);
      && db.messages == old(db.messages) + [row]
      && r == Ok(SentMessage(row, if row.hidden then None else CardById(db.profiles, user.value),
                             row.hidden, RouteVerdict(client, Trim(content.s), reply).1))
    ensures r.status != 200 ==> db.messages == old(db.messages)
  {
    if user.None? {
      return Fail(401, Unauthorized);
    }
    var invalid := ValidationError(streamId, content);
    if invalid.Some? {
      return Fail(400, invalid.value);
    }
    var text := Trim(content.s);
    var isAppropriate := Bool(true);
    var moderationReason := Undefined;
    match client.ModerateMessage(text, reply) {
      case Returned(result) =>
        isAppropriate, moderationReason := result.isAppropriate, result.reason;
      case ReturnedNull =>
        isAppropriate := Bool(true);
      case Threw(_) =>
        isAppropriate := Bool(true);
    }
    if insertFails {
      return Fail(500, "Failed to send message");
    }
    var row := MessageRow(newId, user.value, streamId.s, text, !Truthy(isAppropriate), now);
    db.messages := db.messages + [row];
    var profile := None;
    if Truthy(isAppropriate) {
      profile := CardById(db.profiles, user.value);
    }
    r := Ok(SentMessage(row, profile, !Truthy(isAppropriate), moderationReason));
  }

  /** `.select('id, username, avatar_url').eq('id', userId).single()` on `profiles`. */
  function CardById(profiles: seq<ProfileRow>, userId: string): (c: Option<ProfileCard>)
    ensures c.Some? <==> ProfileById(profiles, userId).Some?
    ensures c.Some? ==> c.value == CardOf(ProfileById(profiles, userId).value) && c.value.id == userId
  {
    match ProfileById(profiles, userId)
    case None => None
    case Some(p) => Some(CardOf(p))
  }

  // Properties.

  /** A stored message is never longer than the limit, since the limit is checked before trimming. */
  lemma StoredContentWithinLimit(client: AIClient, userId: string, streamId: Value, content: Value,
                                 reply: ClassifierReply, newId: string, now: int)
    requires ValidationError(streamId, content).None?
    ensures Utf16Length(StoredMessage(client, userId, streamId.s, content.s, reply, newId, now).content) <= MaxLength
  {
    TrimShortens(content.s);
  }

  /** The limit is inclusive: 500 characters pass, 501 do not (for text without astral characters). */
  lemma LengthBoundary(streamId: string, content: string)
    requires streamId != "" && forall k :: 0 <= k < |content| ==> content[k] as int < 0x1_0000
    ensures |content| == 500 ==> ValidationError(Str(streamId), Str(content)).None?
    ensures |content| == 501 ==> ValidationError(Str(streamId), Str(content)) == Some("Message too long (max 500 characters)")
  {
  }

  /** White-space-only content passes validation and is stored as the empty string. */
  lemma WhitespaceOnlyStoredEmpty(client: AIClient, userId: string, streamId: string, content: string,
                                  reply: ClassifierReply, newId: string, now: int)
    requires streamId != "" && content != "" && AllSpace(content) && Utf16Length(content) <= MaxLength
    ensures ValidationError(Str(streamId), Str(content)).None?
    ensures StoredMessage(client, userId, streamId, content, reply, newId, now).content == ""
  {
    TrimEmptyIffAllSpace(content);
  }

  /** Fail open: without a configured key, or when the exchange fails, the message is stored visible. */
  lemma FailOpenStoresVisible(client: AIClient, userId: string, streamId: string, content: string,
                              reply: ClassifierReply, newId: string, now: int)
    requires !client.HasKey() || !reply.Completion? || reply.parsed.NotJson? || reply.content == ""
    ensures !StoredMessage(client, userId, streamId, content, reply, newId, now).hidden
  {
    if client.HasKey() {
      FailOpen(client, Trim(content), reply);
    }
  }

  /**
   * A reply whose text is the JSON `null` is returned by the client; reading its
   * `isAppropriate` throws inside the route's `try`, so the message is stored visible,
   * with no reason.
   */
  lemma NullVerdictStoresVisible(client: AIClient, userId: string, streamId: string, content: string,
                                 text: string, newId: string, now: int)
    requires client.HasKey() && text != ""
    ensures !StoredMessage(client, userId, streamId, content, Completion(text, ParsedNull), newId, now).hidden
    ensures RouteVerdict(client, Trim(content), Completion(text, ParsedNull)).1 == Undefined
  {
  }

  /**
   * A verdict the classifier returns decides the stored row: the message is hidden
   * exactly when `isAppropriate` is falsy, and the response carries its `reason`.
   */
  lemma ParsedVerdictDecides(client: AIClient, userId: string, streamId: string, content: string,
                             text: string, result: ModerationResult, newId: string, now: int)
    requires client.HasKey() && text != ""
    ensures StoredMessage(client, userId, streamId, content, Completion(text, Parsed(result)), newId, now).hidden
            <==> !Truthy(result.isAppropriate)
    ensures RouteVerdict(client, Trim(content), Completion(text, Parsed(result))).1 == result.reason
  {
    VerdictPassedThrough(client, Trim(content), text, result);
  }

  /** A parsed reply without a truthy `isAppropriate` (for instance `{}`) hides the message. */
  lemma MissingVerdictHides(client: AIClient, userId: string, streamId: string, content: string,
                            text: string, reason: Value, newId: string, now: int)
    requires client.HasKey() && text != ""
    ensures StoredMessage(client, userId, streamId, content,
                          Completion(text, Parsed(ModerationResult(Undefined, reason))), newId, now).hidden
  {
    ParsedVerdictDecides(client, userId, streamId, content, text, ModerationResult(Undefined, reason), newId, now);
  }
}
