# Per-user data-session cache: naming, idle sweeper and read path

This project models, in Dafny, the session-cache policy of the API server:

- **Namespace naming.** A user's data sessions live in the Ignite cache
  `"user-data-sessions" + ":" + userId`. The sweeper and the GET handler
  derive the name the same way, through `ServerApp.UserCacheName`.
- **The idle sweeper.** `CacheCleanerTask.run` visits every cache name the
  grid reports. It scans each cache's entries and reads the clock once per
  entry. An entry whose `lastAccessedAt` is more than two whole minutes old
  (`Duration.toMinutes() > 2`, that is at least 180 seconds) clears the
  namespace of that entry's user. The rule is per entry, and the namespace
  cleared is the one named after the entry's user, not necessarily the
  cache being scanned. Clearing empties a cache but keeps it.
- **The read path.** `DataSessionGetHandler.handleRequest` does a
  non-creating lookup of the user's namespace. If the namespace is absent it
  answers 404 "does not have any sessions". Otherwise it parses the session
  id as a UUID. If the key is absent it answers 404 "does not exist". On a
  hit it queues one `UpdateDataSessionTimestamp(userId, sessionId)` task and
  answers 200 with the serialised session, its byte length as
  Content-Length, and the writer's mime type as Content-Type.

Structure:

- `ignite.dfy` (module `Ignite`): the grid as a class `Grid` whose state is
  `caches: map<string, map<Uuid, Record>>` plus an append-only outbox
  `submitted` of compute tasks. A `Record` carries the owning `userId`, and
  `lastAccessedAt` in whole seconds.
- `server_app.dfy` (module `ServerApp`): the naming function and its
  inverse, the idle rule, and the sweep. The sweep is written twice:
  - as a specification on values (`Visit`, `ScanPrefix`, `ScanCache`,
    `SweepPrefix`, `SweepAll`), with the lemmas about it;
  - as the imperative method `CacheCleanerTask.Run`, with the two nested
    loops of the source, proved equal to `SweepAll`.
- `data_session_get_handler.dfy` (module `DataSessionGetHandler`): the
  reply as a function `Respond`, and the handler as the method
  `DataSessionGetHandler.HandleRequest`. The method drives an `Exchange`
  object step by step (status, headers, send, end) and is proved to leave
  the caches unchanged and to produce exactly `Respond`'s reply and task.
- `decimal.dfy` (module `Decimal`): `Integer.toString` for the
  Content-Length header and the decimal reading that undoes it.

Modelling choices:

- **Time** is an integer number of seconds. `Duration.toMinutes` is Java's
  truncating division by 60 (`JavaDiv`), so negative differences (an access
  "in the future") never count as stale.
- **The clock** of a run is a parameter `now: nat -> int`. The k-th reading
  of `Instant.now()` during the run is `now(k)`. Lemmas that need the clock
  never to go backwards say so in their `requires`.
- **Scan order.** `names` stands for what `ignite.cacheNames()` returned,
  in its order. `cursors` gives the order in which each scan query visits
  its cache's keys. A scan visits a snapshot of its cache taken when that
  scan starts (`Snapshot`). A cache that was already cleared yields no
  entries. The cursors are arbitrary: nothing requires one to list each key
  of its cache exactly once, so a key may be missing or repeated. The
  lemmas that say what a run leaves untouched hold for every cursor; the
  lemmas that say a stale record is acted on assume its key is listed
  (`key in CursorOf(cursors, name)`).
- **Missing namespace in the sweep.** When a stale entry names a user who
  has no namespace, `ignite.cache(userCacheName)` returns null and
  `.clear()` throws. The run then ends; clears done before that point
  remain. This is modelled as written: `Sweep.failed`, and `Run` returns
  `completed == false` (`SweepThrowsOnMissingNamespace` shows a case).
- **Exceptions in the read path.** A missing `userId` query parameter
  throws (`NullPointer`). A session id that `UUID.fromString` rejects
  throws (`IllegalArgument`) and is not turned into a 404. In both cases the
  exchange is left as it was.
- **Library calls** are parameters: `java.util.UUID.fromString` is a
  partial parse `string -> Option<Uuid>`, and `PackedDataSession.JsonWriter`
  is a `serialize: Record -> seq<byte>` with a `mimeType` string.

The model follows the code as written; in particular:

- A namespace is cleared because of one stale entry; the newest
  `lastAccessedAt` of the namespace plays no part.
- An empty cache triggers no clearing.
- Clearing empties a namespace and keeps it; no namespace is removed.
- A session id that does not parse as a UUID raises an exception that
  escapes the handler; it gets no 404 or other reply of its own.
- A clear that throws ends the whole run; the caches after it in the run
  are not scanned.

## Model

| member | source | states |
|---|---|---|
| `ServerApp.UserIdOfIff` | ServerApp.java:203-204 | reading the user back from a name gives `userId` exactly when the name is `user-data-sessions:` followed by `userId` |
| `ServerApp.UserCacheNameInjective` | ServerApp.java:47 | two users share a namespace name only if they are the same user (namespace isolation) |
| `ServerApp.StaleIff` | ServerApp.java:200-202 | `toMinutes() > 2` holds exactly when at least 180 seconds separate the last access from the current time; future or recent accesses never count |
| `ServerApp.StaleLater` | ServerApp.java:200-202 | an entry stale at one clock reading is stale at every later one |
| `ServerApp.CacheCleanerTask.Run` | ServerApp.java:191-211 | the nested loops over reported names and snapshot entries leave the caches exactly as the sweep specification `SweepAll` says, report whether the run threw, and queue no task |
| `ServerApp.SweepOnlyClears` | ServerApp.java:191-211 | a run keeps exactly the same namespaces, and every cache ends either unchanged or empty: no record is added or modified and no namespace is created or removed |
| `ServerApp.SweepClearsOnlyStaleUsers` | ServerApp.java:199-207 | a namespace is left untouched unless some record naming its user is stale at a clock reading the run takes |
| `ServerApp.SweepNeverClearsForeignCaches` | ServerApp.java:193-205 | a reported cache whose name lacks the user prefix is scanned but never cleared |
| `ServerApp.ScanOfEmptyCache` | ServerApp.java:198-199 | scanning an empty cache changes nothing and reads no clock |
| `ServerApp.StaleEntryClearsItsNamespace` | ServerApp.java:199-207 | one stale record in its user's namespace clears that namespace, whatever the other entries are, unless the run throws; the namespace still exists, empty |
| `ServerApp.ForeignStaleEntryClearsOwnersNamespace` | ServerApp.java:199-205 | a stale record kept in a cache that is not a user namespace clears the namespace named after the record's user, not the scanned cache, unless the run throws |
| `ServerApp.StaleEntryMissedAfterEarlierClear` | ServerApp.java:195-205 | a witness that a stale record does not always clear its owner's namespace: a cache cleared before its own scan yields no entries, so its records are never visited |
| `ServerApp.SweepCompletesWhenNamespacesExist` | ServerApp.java:203-205 | if every reported name is a cache and every record's user has a namespace, the run does not throw |
| `ServerApp.StaleEntryWithoutNamespaceThrows` | ServerApp.java:203-205 | a stale record, kept in a cache that is not a user namespace, whose user has no namespace makes the run throw (the null cache's `clear()`) |
| `ServerApp.SweepThrowsOnMissingNamespace` | ServerApp.java:205 | a witness: a run whose only cache holds a stale record of a user without a namespace throws before clearing anything |
| `ServerApp.FirstRunFrom` | ServerApp.java:178-179 | gives the first run of the two-minute fixed-rate schedule, starting with no delay, that is due at or after a given instant |
| `ServerApp.FirstStaleRun` | ServerApp.java:178-179 | measured at the instants the runs are due, for a session last accessed no earlier than 180 seconds before start-up: it is stale at the due instant of the first run due at or after 180 seconds past its last access, that run is due less than five minutes after the access, and at the due instant of the run before the session was not stale |
| `Ignite.Grid.Lookup` | DataSessionGetHandler.java:51 | `ignite.cache(name)` yields the cache exactly when it exists and never creates one |
| `Ignite.Grid.Clear` | ServerApp.java:205 | `clear()` empties the named cache, keeps it, and changes nothing else |
| `Ignite.Grid.RunAsync` | DataSessionGetHandler.java:72-73 | submitting a task appends it to the outbox and leaves the caches alone |
| `Decimal.DecimalString` | DataSessionGetHandler.java:83 | `Integer.toString` of a length is a non-empty string of decimal digits with no leading zero |
| `Decimal.DecimalRoundTrip` | DataSessionGetHandler.java:81-83 | reading the Content-Length value back as a decimal gives the length written |
| `DataSessionGetHandler.Respond` | DataSessionGetHandler.java:34-111 | a task is queued exactly when the reply is 200, and it is the timestamp update for the requesting user and the raw session id |
| `DataSessionGetHandler.DataSessionGetHandler.HandleRequest` | DataSessionGetHandler.java:34-111 | the handler leaves the caches unchanged, appends exactly the reply's task to the outbox, and leaves the exchange holding the reply's status, headers and body, or untouched when an exception escapes |
| `DataSessionGetHandler.NoNamespaceIsNotFound` | DataSessionGetHandler.java:51-56 | an absent namespace yields 404 "User with id '...' does not have any sessions" with no task, and the session id is never parsed |
| `DataSessionGetHandler.MalformedSessionIdThrows` | DataSessionGetHandler.java:58 | once the namespace exists, an id the UUID parser rejects makes the handler throw rather than answer 404, with no task |
| `DataSessionGetHandler.MissingSessionIsNotFound` | DataSessionGetHandler.java:58-64 | namespace present but key absent yields 404 "Data session '...' does not exist for user '...'" with no task |
| `DataSessionGetHandler.HitServesPayload` | DataSessionGetHandler.java:72-87 | a hit yields status 200 with the serialised session as the body and the writer's mime type as Content-Type; Content-Length reads back as the body's byte length; exactly one touch for the user and session id is queued |
| `DataSessionGetHandler.OtherUsersDoNotAffectRead` | DataSessionGetHandler.java:48-51 | changing, adding or removing another user's namespace never changes a user's reply |
| `DataSessionGetHandler.ReadAfterSweep` | DataSessionGetHandler.java:48-64 | after a run that cleared a user's namespace for a stale session, a GET for that user answers "does not exist" (or throws on a malformed id), never "no sessions" and never 200 |

## Left out

- Telemetry set-up, metric registration, tracing spans and span attributes, and the `System.out` logging: observability only.
- The Hello endpoint, `main`, `startup`, and the Undertow route table and handler chain: HTTP wiring whose routing semantics belong to Undertow.
- Ignite client start-up, the work directory and multicast discovery: cluster I/O.
- The thread pool, `exchange.dispatch`, and the asynchrony of `runAsync`: concurrency is out of scope. The hit path runs as one sequential step, and a queued task is only an entry in the outbox. Interleavings of a sweep with concurrent reads and writes are not modelled.
- What `UpdateDataSessionTimestamp` does to a record, and the put, post and delete handlers: their sources are not part of this model.
- `PackedDataSession.JsonWriter` and the text grammar of `java.util.UUID.fromString`: both are parameters.
- `ScheduledExecutorService` semantics beyond the due instants: a run that starts late, and a run that throws and so suppresses all later runs, are not modelled past `completed == false`.
- ServerApp.FirstStaleRun: measures staleness at each run's due instant; nothing ties the clock readings `now(k)` taken inside a run to its due instant, so it does not state what a modelled run actually observes. It also requires the last access to be no earlier than 180 seconds before start-up: a session last touched long before this server started (the cluster outlives it) is first found stale by run 0, which can be due much later than five minutes after the access.
- Sub-second precision of `Instant`: time is whole seconds. Because `Duration` floors to seconds before `toMinutes`, the staleness rule is the same.
- Null values (a null `userId` formatted as `"null"`), and caches whose values are not session records (a cast failure): the model's caches hold only records.
- Headers that Undertow's sender adds on its own for the 404 text bodies: only the headers the handler sets are modelled.
- ServerApp.StaleEntryClearsItsNamespace: states the clearing only for a record kept in its own user's namespace that is stale already at the run's first clock reading. A record kept in another user's namespace need not clear its owner's namespace at all: if that namespace is cleared earlier in the run, its scan yields no entries and the record is never visited (`StaleEntryMissedAfterEarlierClear`). Records kept in caches that are not user namespaces are covered by `ForeignStaleEntryClearsOwnersNamespace`. A record that becomes stale only at a later reading is covered by `Run` and `SweepAll` alone.
- ServerApp.ForeignStaleEntryClearsOwnersNamespace: like `StaleEntryClearsItsNamespace`, it asks that the record be stale already at the run's first clock reading.
- ServerApp.StaleEntryWithoutNamespaceThrows: same restriction to staleness at the first reading; a record in a user namespace that was cleared before its scan is never visited and so never throws.
- ServerApp.SweepClearsOnlyStaleUsers: its hypothesis asks that no record of the user be stale at any reading the run takes, not only at the reading of that record's own visit.
