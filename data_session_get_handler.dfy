/**
 * DataSessionGetHandler: `GET /data-session/get/{sessionId}?userId=...`.
 * It looks the user's namespace up without creating it, fetches the
 * session, and on a hit queues one timestamp-update task on the grid and
 * answers with the serialised session.
 */
module DataSessionGetHandler {
  import opened Wrappers
  import opened Ignite
  import opened Decimal
  import opened ServerApp

  const StatusOk: int := 200
  const StatusNotFound: int := 404
  const HeaderContentLength: string := "Content-Length"
  const HeaderContentType: string := "Content-Type"

  /** What `getResponseSender().send(...)` was given: a text or the payload bytes. */
  datatype Body = Text(text: string) | Bytes(bytes: seq<byte>)

  /** The exceptions the handler lets escape. */
  datatype Failure =
    | NullPointer      // the `userId` query parameter is missing
    | IllegalArgument  // `UUID.fromString` rejected the session id

  /** The response the handler produces, with the headers it sets. */
  datatype Response = Response(status: int, headers: map<string, string>, body: Body)

  datatype Outcome = Sent(response: Response) | Threw(failure: Failure)

  /** The handler's whole effect: its outcome and the task it queues, if any. */
  datatype Reply = Reply(outcome: Outcome, touch: Option<Task>)

  function NoSessionsMessage(userId: string): string
  {
    "User with id '" + userId + "' does not have any sessions"
  }

  function MissingSessionMessage(sessionId: string, userId: string): string
  {
    "Data session '" + sessionId + "' does not exist for user '" + userId + "'"
  }

  /**
   * The reply to a GET against the grid's caches. `userIdParams` are the
   * values of the `userId` query parameter (none when it is absent),
   * `parseUuid` is `UUID.fromString`, and `serialize` and `mimeType` are
   * the session's JSON writer.
   */
  function Respond(caches: Caches, sessionId: string, userIdParams: seq<string>,
                   parseUuid: string -> Option<Uuid>, serialize: Record -> seq<byte>, mimeType: string): (r: Reply)
    ensures r.touch.Some? <==> r.outcome.Sent? && r.outcome.response.status == StatusOk
    ensures r.touch.Some? ==> userIdParams != [] && r.touch.value == UpdateDataSessionTimestamp(userIdParams[0], sessionId)
  {
    if userIdParams == [] then Reply(Threw(NullPointer), None)
    else
      var userId := userIdParams[0];
      var userCacheName := UserCacheName(userId);
      if userCacheName !in caches then
        Reply(Sent(Response(StatusNotFound, map[], Text(NoSessionsMessage(userId)))), None)
      else match parseUuid(sessionId)
        case None => Reply(Threw(IllegalArgument), None)
        case Some(key) =>
          if key !in caches[userCacheName] then
            Reply(Sent(Response(StatusNotFound, map[], Text(MissingSessionMessage(sessionId, userId)))), None)
          else
            var payload := serialize(caches[userCacheName][key]);
            var headers := map[HeaderContentLength := DecimalString(|payload|), HeaderContentType := mimeType];
            Reply(Sent(Response(StatusOk, headers, Bytes(payload))), Some(UpdateDataSessionTimestamp(userId, sessionId)))
  }

  /** The Undertow exchange: the request's parameters and the response being built. */
  class Exchange {
    const sessionIdParam: string
    const userIdParams: seq<string>
    var status: int
    var headers: map<string, string>
    var sent: Option<Body>
    var ended: bool

    constructor (sessionIdParam: string, userIdParams: seq<string>)
      ensures this.sessionIdParam == sessionIdParam && this.userIdParams == userIdParams
      ensures status == StatusOk && headers == map[] && sent == None && !ended
    {
      this.sessionIdParam := sessionIdParam;
      this.userIdParams := userIdParams;
      status := StatusOk;
      headers := map[];
      sent := None;
      ended := false;
    }

    method SetStatusCode(code: int)
      modifies this
      ensures status == code
      ensures headers == old(headers) && sent == old(sent) && ended == old(ended)
    {
      status := code;
    }

    method PutHeader(name: string, value: string)
      modifies this
      ensures headers == old(headers)[name := value]
      ensures status == old(status) && sent == old(sent) && ended == old(ended)
    {
      headers := headers[name := value];
    }

    /** `setResponseContentLength`: the Content-Length header in decimal. */
    method SetResponseContentLength(length: nat)
      modifies this
      ensures headers == old(headers)[HeaderContentLength := DecimalString(length)]
      ensures status == old(status) && sent == old(sent) && ended == old(ended)
    {
      headers := headers[HeaderContentLength := DecimalString(length)];
    }

    method Send(body: Body)
      modifies this
      ensures sent == Some(body)
      ensures status == old(status) && headers == old(headers) && ended == old(ended)
    {
      sent := Some(body);
    }

    method EndExchange()
      modifies this
      ensures ended
      ensures status == old(status) && headers == old(headers) && sent == old(sent)
    {
      ended := true;
    }
  }

  class DataSessionGetHandler {
    const grid: Grid

    constructor (grid: Grid)
      ensures this.grid == grid
    {
      this.grid := grid;
    }

    /**
     * `handleRequest`. The caches are only read; the grid's outbox gains
     * the reply's task, if any; the exchange ends up holding the reply's
     * response, or is left untouched when an exception escapes.
     */
    method HandleRequest(exchange: Exchange, parseUuid: string -> Option<Uuid>,
                         serialize: Record -> seq<byte>, mimeType: string) returns (thrown: Option<Failure>)
      modifies grid, exchange
      ensures grid.caches == old(grid.caches)
      ensures var r := Respond(old(grid.caches), exchange.sessionIdParam, exchange.userIdParams,
                               parseUuid, serialize, mimeType);
        && grid.submitted == old(grid.submitted) + (if r.touch.Some? then [r.touch.value] else [])
        && match r.outcome
           case Threw(f) =>
             && thrown == Some(f)
             && exchange.status == old(exchange.status) && exchange.headers == old(exchange.headers)
             && exchange.sent == old(exchange.sent) && exchange.ended == old(exchange.ended)
           case Sent(response) =>
             && thrown == None
             && exchange.status == response.status
             && exchange.headers == old(exchange.headers) + response.headers
             && exchange.sent == Some(response.body)
             && exchange.ended
    {
      ghost var reply := Respond(grid.caches, exchange.sessionIdParam, exchange.userIdParams,
                                 parseUuid, serialize, mimeType);
      var sessionId := exchange.sessionIdParam;
      if exchange.userIdParams == [] {
        return Some(NullPointer);
      }
      var userId := exchange.userIdParams[0];
      var userCacheName := UserCacheName(userId);
      var userDataSessionCache := grid.Lookup(userCacheName);
      if userDataSessionCache.None? {
        assert reply == Reply(Sent(Response(StatusNotFound, map[], Text(NoSessionsMessage(userId)))), None);
        exchange.SetStatusCode(StatusNotFound);
        exchange.Send(Text(NoSessionsMessage(userId)));
        exchange.EndExchange();
        return None;
      }
      var key := parseUuid(sessionId);
      if key.None? {
        return Some(IllegalArgument);
      }
      if key.value !in userDataSessionCache.value {
        assert reply == Reply(Sent(Response(StatusNotFound, map[], Text(MissingSessionMessage(sessionId, userId)))), None);
        exchange.SetStatusCode(StatusNotFound);
        exchange.Send(Text(MissingSessionMessage(sessionId, userId)));
        exchange.EndExchange();
        return None;
      }
      var session := userDataSessionCache.value[key.value];
      grid.RunAsync(UpdateDataSessionTimestamp(userId, sessionId));
      var payload := serialize(session);
      ghost var headers := map[HeaderContentLength := DecimalString(|payload|), HeaderContentType := mimeType];
      assert reply == Reply(Sent(Response(StatusOk, headers, Bytes(payload))), Some(UpdateDataSessionTimestamp(userId, sessionId)));
      exchange.SetStatusCode(StatusOk);
      exchange.SetResponseContentLength(|payload|);
      exchange.PutHeader(HeaderContentLength, DecimalString(|payload|));
      exchange.PutHeader(HeaderContentType, mimeType);
      assert exchange.headers == old(exchange.headers) + headers;
      exchange.Send(Bytes(payload));
      exchange.EndExchange();
      return None;
    }
  }

  // ---------------------------------------------------------------------
  // Lemmas about the read path
  // ---------------------------------------------------------------------

  /**
   * No namespace: 404 "does not have any sessions", no task, and the
   * session id is never parsed (any parser gives the same reply).
   */
  lemma NoNamespaceIsNotFound(caches: Caches, sessionId: string, userId: string, more: seq<string>,
                              parseUuid: string -> Option<Uuid>, otherParse: string -> Option<Uuid>,
                              serialize: Record -> seq<byte>, mimeType: string)
    requires UserCacheName(userId) !in caches
    ensures var r := Respond(caches, sessionId, [userId] + more, parseUuid, serialize, mimeType);
      && r == Reply(Sent(Response(StatusNotFound, map[], Text(NoSessionsMessage(userId)))), None)
      && r == Respond(caches, sessionId, [userId] + more, otherParse, serialize, mimeType)
  {
  }

  /** A malformed session id is parsed only once the namespace is found, and the exception escapes. */
  lemma MalformedSessionIdThrows(caches: Caches, sessionId: string, userId: string, more: seq<string>,
                                 parseUuid: string -> Option<Uuid>, serialize: Record -> seq<byte>, mimeType: string)
    requires UserCacheName(userId) in caches && parseUuid(sessionId) == None
    ensures Respond(caches, sessionId, [userId] + more, parseUuid, serialize, mimeType) == Reply(Threw(IllegalArgument), None)
  {
  }

  /** Namespace present, key absent: 404 "does not exist", no task. */
  lemma MissingSessionIsNotFound(caches: Caches, sessionId: string, userId: string, more: seq<string>, key: Uuid,
                                 parseUuid: string -> Option<Uuid>, serialize: Record -> seq<byte>, mimeType: string)
    requires UserCacheName(userId) in caches && parseUuid(sessionId) == Some(key)
    requires key !in caches[UserCacheName(userId)]
    ensures Respond(caches, sessionId, [userId] + more, parseUuid, serialize, mimeType)
      == Reply(Sent(Response(StatusNotFound, map[], Text(MissingSessionMessage(sessionId, userId)))), None)
  {
  }

  /**
   * A hit: status 200, the body is the serialised session, the
   * Content-Length header reads back as the body's byte length, the
   * Content-Type is the writer's, and exactly one touch for this user and
   * session id is queued.
   */
  lemma HitServesPayload(caches: Caches, sessionId: string, userId: string, more: seq<string>, key: Uuid,
                         parseUuid: string -> Option<Uuid>, serialize: Record -> seq<byte>, mimeType: string)
    requires UserCacheName(userId) in caches && parseUuid(sessionId) == Some(key)
    requires key in caches[UserCacheName(userId)]
    ensures var r := Respond(caches, sessionId, [userId] + more, parseUuid, serialize, mimeType);
      && r.outcome.Sent?
      && r.outcome.response.status == StatusOk
      && r.outcome.response.body == Bytes(serialize(caches[UserCacheName(userId)][key]))
      && HeaderContentLength in r.outcome.response.headers
      && DecimalValue(r.outcome.response.headers[HeaderContentLength]) == |r.outcome.response.body.bytes|
      && HeaderContentType in r.outcome.response.headers
      && r.outcome.response.headers[HeaderContentType] == mimeType
      && r.touch == Some(UpdateDataSessionTimestamp(userId, sessionId))
  {
    DecimalRoundTrip(|serialize(caches[UserCacheName(userId)][key])|);
  }

  /** Isolation: whatever happens to another user's namespace, this user's reply is the same. */
  lemma OtherUsersDoNotAffectRead(caches: Caches, other: string, cache: Option<Cache>, sessionId: string, userId: string,
                                  more: seq<string>, parseUuid: string -> Option<Uuid>,
                                  serialize: Record -> seq<byte>, mimeType: string)
    requires other != userId
    ensures var name := UserCacheName(other);
      var changed := if cache.Some? then caches[name := cache.value] else caches - {name};
      Respond(changed, sessionId, [userId] + more, parseUuid, serialize, mimeType)
        == Respond(caches, sessionId, [userId] + more, parseUuid, serialize, mimeType)
  {
    UserCacheNameInjective(other, userId);
  }

  /**
   * The read path and the cleaner agree on the namespace: once a run that
   * did not throw has cleared a user's namespace because of a stale session,
   * every GET for that user answers "does not exist" (or throws on a
   * malformed id), never "does not have any sessions" and never 200.
   */
  lemma ReadAfterSweep(caches: Caches, names: seq<string>, cursors: map<string, seq<Uuid>>, now: nat -> int,
                       key: Uuid, sessionId: string, userId: string, more: seq<string>,
                       parseUuid: string -> Option<Uuid>, serialize: Record -> seq<byte>, mimeType: string)
    requires forall t1: nat, t2: nat :: t1 <= t2 ==> now(t1) <= now(t2)
    requires UserCacheName(userId) in names && UserCacheName(userId) in caches
    requires key in caches[UserCacheName(userId)] && key in CursorOf(cursors, UserCacheName(userId))
    requires caches[UserCacheName(userId)][key].userId == userId
    requires IsStale(caches[UserCacheName(userId)][key].lastAccessedAt, now(0))
    requires !SweepAll(caches, names, cursors, now).failed
    ensures var r := Respond(SweepAll(caches, names, cursors, now).caches, sessionId, [userId] + more,
                             parseUuid, serialize, mimeType);
      && r.touch == None
      && (r.outcome == Threw(IllegalArgument)
          || r.outcome == Sent(Response(StatusNotFound, map[], Text(MissingSessionMessage(sessionId, userId)))))
  {
    StaleEntryClearsItsNamespace(caches, names, cursors, now, UserCacheName(userId), key);
  }
}
