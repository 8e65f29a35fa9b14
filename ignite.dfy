/**
 * The part of the Ignite grid that the session cache layer talks to: named
 * caches of session records keyed by UUID, and the compute facility that
 * accepts fire-and-forget tasks.
 */
module Ignite {
  import opened Wrappers

  /** A java.util.UUID: a 128-bit value. */
  newtype Uuid = x: int | 0 <= x < 0x1_0000_0000_0000_0000_0000_0000_0000_0000

  newtype byte = x: int | 0 <= x < 256

  /**
   * A PackedDataSession as the cache layer sees it: the owning user, the
   * last-access instant in whole seconds, and the rest of the session,
   * which only the serialiser looks at.
   */
  datatype Record = Record(userId: string, lastAccessedAt: int, data: seq<byte>)

  /** One named cache: session id to record. */
  type Cache = map<Uuid, Record>

  /** Every cache the grid knows, by name. */
  type Caches = map<string, Cache>

  /** A compute task submitted to the server nodes with `runAsync`. */
  datatype Task = UpdateDataSessionTimestamp(userId: string, sessionId: string)

  /**
   * The grid as a mutable handle: its caches, and the append-only outbox of
   * tasks handed to `compute.runAsync`. What a submitted task later does to
   * the caches is not part of this model.
   */
  class Grid {
    var caches: Caches
    var submitted: seq<Task>

    constructor (caches: Caches)
      ensures this.caches == caches && submitted == []
    {
      this.caches := caches;
      submitted := [];
    }

    /** `ignite.cache(name)`: the named cache, or null; never creates one. */
    method Lookup(name: string) returns (c: Option<Cache>)
      ensures name in caches <==> c.Some?
      ensures c.Some? ==> c.value == caches[name]
    {
      c := if name in caches then Some(caches[name]) else None;
    }

    /** `IgniteCache.clear()`: removes every entry and keeps the cache. */
    method Clear(name: string)
      requires name in caches
      modifies this
      ensures caches == old(caches)[name := map[]]
      ensures submitted == old(submitted)
    {
      caches := caches[name := map[]];
    }

    /** `compute.runAsync(task)`: queues the task and returns at once. */
    method RunAsync(task: Task)
      modifies this
      ensures submitted == old(submitted) + [task]
      ensures caches == old(caches)
    {
      submitted := submitted + [task];
    }
  }
}
