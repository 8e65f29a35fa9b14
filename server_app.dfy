/**
 * ServerApp: how a user's session cache is named, when a session counts as
 * idle, and the periodic CacheCleanerTask that clears the namespaces of
 * idle sessions.
 */
module ServerApp {
  import opened Wrappers
  import opened Ignite

  // ---------------------------------------------------------------------
  // Namespace naming
  // ---------------------------------------------------------------------

  const PrefixCacheUserDataSessions: string := "user-data-sessions"

  /** `String.format("%s:%s", PREFIX_CACHE_USER_DATA_SESSIONS, userId)`. */
  function UserCacheName(userId: string): (name: string)
  {
    PrefixCacheUserDataSessions + ":" + userId
  }

  /** The user whose namespace `name` is, if it is one. */
  function UserIdOf(name: string): (u: Option<string>)
  {
    var n := |PrefixCacheUserDataSessions| + 1;
    if |name| >= n && name[..n] == PrefixCacheUserDataSessions + ":" then Some(name[n..]) else None
  }

  /** Naming a user's namespace and reading the user back agree, in both directions. */
  lemma UserIdOfIff(name: string, userId: string)
    ensures UserIdOf(name) == Some(userId) <==> name == UserCacheName(userId)
  {
    var n := |PrefixCacheUserDataSessions| + 1;
    if name == UserCacheName(userId) {
      assert name[..n] == PrefixCacheUserDataSessions + ":";
      assert name[n..] == userId;
    }
    if UserIdOf(name) == Some(userId) {
      assert name == name[..n] + name[n..];
    }
  }

  /** Namespace isolation: distinct users never share a namespace. */
  lemma UserCacheNameInjective(u1: string, u2: string)
    ensures UserCacheName(u1) == UserCacheName(u2) <==> u1 == u2
  {
    UserIdOfIff(UserCacheName(u1), u1);
    UserIdOfIff(UserCacheName(u2), u2);
  }

  // ---------------------------------------------------------------------
  // Idle rule
  // ---------------------------------------------------------------------

  /** Java's `long` division, which truncates toward zero. */
  function JavaDiv(a: int, b: int): (q: int)
    requires b > 0
  {
    if a >= 0 then a / b else -((-a) / b)
  }

  /** `Duration.between(from, to).toMinutes()` with instants in whole seconds. */
  function MinutesBetween(from: int, to: int): int
  {
    JavaDiv(to - from, 60)
  }

  /** The cleaner's test `minutesDifference > 2`. */
  predicate IsStale(lastAccessedAt: int, currentTime: int)
  {
    MinutesBetween(lastAccessedAt, currentTime) > 2
  }

  /** An entry is stale exactly when 180 or more seconds have passed since its last access. */
  lemma StaleIff(lastAccessedAt: int, currentTime: int)
    ensures IsStale(lastAccessedAt, currentTime) <==> currentTime - lastAccessedAt >= 180
  {
    var d := currentTime - lastAccessedAt;
    if d >= 180 {
      assert d / 60 >= 3;
    } else if d >= 0 {
      assert d / 60 <= 2;
    }
  }

  /** Once stale, an entry stays stale as the clock moves on. */
  lemma StaleLater(lastAccessedAt: int, t1: int, t2: int)
    requires t1 <= t2 && IsStale(lastAccessedAt, t1)
    ensures IsStale(lastAccessedAt, t2)
  {
    StaleIff(lastAccessedAt, t1);
    StaleIff(lastAccessedAt, t2);
  }

  // ---------------------------------------------------------------------
  // The sweep as a specification
  // ---------------------------------------------------------------------

  /**
   * The state of one run of the cleaner: the caches, how many times it has
   * read the clock, and whether it has thrown (a stale entry whose user has
   * no namespace makes `ignite.cache(userCacheName)` null, and `.clear()` on
   * it throws, ending the run).
   */
  datatype Sweep = Sweep(caches: Caches, ticks: nat, failed: bool)

  /** The entries a scan query visits: the records of `order` present at scan start. */
  function Snapshot(cache: Cache, order: seq<Uuid>): (snap: seq<Record>)
    ensures forall e :: e in snap ==> e in cache.Values
  {
    if order == [] then []
    else
      var last := order[|order| - 1];
      Snapshot(cache, order[..|order| - 1]) + if last in cache then [cache[last]] else []
  }

  /** The order in which the cursor of cache `name` visits its keys. */
  function CursorOf(cursors: map<string, seq<Uuid>>, name: string): seq<Uuid>
  {
    if name in cursors then cursors[name] else []
  }

  /** Visiting one entry: read the clock; if the entry is stale, clear its user's namespace. */
  function Visit(s: Sweep, entry: Record, now: nat -> int): Sweep
  {
    if s.failed then s
    else if !IsStale(entry.lastAccessedAt, now(s.ticks)) then s.(ticks := s.ticks + 1)
    else
      var userCacheName := UserCacheName(entry.userId);
      if userCacheName in s.caches then Sweep(s.caches[userCacheName := map[]], s.ticks + 1, false)
      else s.(ticks := s.ticks + 1, failed := true)
  }

  /** The first `i` entries of a snapshot, visited in order. */
  function ScanPrefix(s: Sweep, snap: seq<Record>, i: nat, now: nat -> int): Sweep
    requires i <= |snap|
  {
    if i == 0 then s else Visit(ScanPrefix(s, snap, i - 1, now), snap[i - 1], now)
  }

  /** Scanning the cache `name`: a null cache throws, otherwise every entry of its snapshot is visited. */
  function ScanCache(s: Sweep, name: string, cursors: map<string, seq<Uuid>>, now: nat -> int): Sweep
  {
    if s.failed then s
    else if name !in s.caches then s.(failed := true)
    else
      var snap := Snapshot(s.caches[name], CursorOf(cursors, name));
      ScanPrefix(s, snap, |snap|, now)
  }

  /** The first `j` caches of `names`, scanned in order. */
  function SweepPrefix(s: Sweep, names: seq<string>, cursors: map<string, seq<Uuid>>, j: nat, now: nat -> int): Sweep
    requires j <= |names|
  {
    if j == 0 then s else ScanCache(SweepPrefix(s, names, cursors, j - 1, now), names[j - 1], cursors, now)
  }

  /** One whole run of the cleaner over the cache names the grid reported. */
  function SweepAll(caches: Caches, names: seq<string>, cursors: map<string, seq<Uuid>>, now: nat -> int): Sweep
  {
    SweepPrefix(Sweep(caches, 0, false), names, cursors, |names|, now)
  }

  // ---------------------------------------------------------------------
  // The cleaner task
  // ---------------------------------------------------------------------

  /** Period and initial delay of `scheduleAtFixedRate`, in minutes. */
  const SweepInitialDelayMinutes: nat := 0
  const SweepPeriodMinutes: nat := 2

  class CacheCleanerTask {
    const grid: Grid

    constructor (grid: Grid)
      ensures this.grid == grid
    {
      this.grid := grid;
    }

    /**
     * One run. `names` is what `ignite.cacheNames()` returned, `cursors`
     * gives the order each scan query visits its cache's keys, and `now(k)`
     * is the k-th reading of `Instant.now()` during this run. `completed` is
     * false when the run threw.
     */
    method Run(names: seq<string>, cursors: map<string, seq<Uuid>>, now: nat -> int) returns (completed: bool)
      modifies grid
      ensures var s := SweepAll(old(grid.caches), names, cursors, now);
        grid.caches == s.caches && completed == !s.failed
      ensures grid.submitted == old(grid.submitted)
    {
      ghost var start := Sweep(grid.caches, 0, false);
      var ticks: nat := 0;
      var j := 0;
      while j < |names|
        invariant j <= |names|
        invariant SweepPrefix(start, names, cursors, j, now) == Sweep(grid.caches, ticks, false)
        invariant grid.submitted == old(grid.submitted)
      {
        var cacheName := names[j];
        ghost var before := Sweep(grid.caches, ticks, false);
        var userDataSessionCache := grid.Lookup(cacheName);
        if userDataSessionCache.None? {
          SweepStaysFailed(start, names, cursors, j + 1, |names|, now);
          return false;
        }
        var snap := Snapshot(userDataSessionCache.value, CursorOf(cursors, cacheName));
        var i := 0;
        while i < |snap|
          invariant i <= |snap|
          invariant ScanPrefix(before, snap, i, now) == Sweep(grid.caches, ticks, false)
          invariant grid.submitted == old(grid.submitted)
        {
          var entry := snap[i];
          var currentTime := now(ticks);
          ticks := ticks + 1;
          var minutesDifference := MinutesBetween(entry.lastAccessedAt, currentTime);
          if minutesDifference > 2 {
            var userCacheName := UserCacheName(entry.userId);
            var userCache := grid.Lookup(userCacheName);
            if userCache.None? {
              ScanStaysFailed(before, snap, i + 1, |snap|, now);
              SweepStaysFailed(start, names, cursors, j + 1, |names|, now);
              return false;
            }
            grid.Clear(userCacheName);
          }
          i := i + 1;
        }
        j := j + 1;
      }
      return true;
    }
  }

  // ---------------------------------------------------------------------
  // Lemmas about the sweep
  // ---------------------------------------------------------------------

  lemma {:induction false} ScanStaysFailed(s: Sweep, snap: seq<Record>, i: nat, k: nat, now: nat -> int)
    requires i <= k <= |snap|
    requires ScanPrefix(s, snap, i, now).failed
    ensures ScanPrefix(s, snap, k, now) == ScanPrefix(s, snap, i, now)
  {
    if k > i {
      ScanStaysFailed(s, snap, i, k - 1, now);
    }
  }

  lemma {:induction false} SweepStaysFailed(s: Sweep, names: seq<string>, cursors: map<string, seq<Uuid>>, j: nat, k: nat, now: nat -> int)
    requires j <= k <= |names|
    requires SweepPrefix(s, names, cursors, j, now).failed
    ensures SweepPrefix(s, names, cursors, k, now) == SweepPrefix(s, names, cursors, j, now)
  {
    if k > j {
      SweepStaysFailed(s, names, cursors, j, k - 1, now);
    }
  }

  /** Every record held anywhere in `caches`. */
  ghost function Records(caches: Caches): set<Record>
  {
    set name, k | name in caches && k in caches[name] :: caches[name][k]
  }

  /** `after` is `before` with some caches emptied: same names, and every cache kept or cleared. */
  ghost predicate OnlyCleared(before: Caches, after: Caches)
  {
    && after.Keys == before.Keys
    && forall n :: n in before ==> after[n] == before[n] || after[n] == map[]
  }

  lemma OnlyClearedTrans(a: Caches, b: Caches, c: Caches)
    requires OnlyCleared(a, b) && OnlyCleared(b, c)
    ensures OnlyCleared(a, c)
  {
  }

  lemma OnlyClearedRecords(before: Caches, after: Caches)
    requires OnlyCleared(before, after)
    ensures Records(after) <= Records(before)
  {
    forall e | e in Records(after) ensures e in Records(before) {
      var name, k :| name in after && k in after[name] && after[name][k] == e;
      assert before[name][k] == e;
    }
  }

  lemma {:induction false} SnapshotHasKey(cache: Cache, order: seq<Uuid>, key: Uuid)
    requires key in order && key in cache
    ensures cache[key] in Snapshot(cache, order)
  {
    var init := order[..|order| - 1];
    if order[|order| - 1] != key {
      assert order == init + [order[|order| - 1]];
      SnapshotHasKey(cache, init, key);
    }
  }

  /** An empty cache yields an empty snapshot, whatever the cursor order. */
  lemma {:induction false} SnapshotOfEmpty(order: seq<Uuid>)
    ensures Snapshot(map[], order) == []
  {
    if order != [] {
      SnapshotOfEmpty(order[..|order| - 1]);
    }
  }

  lemma VisitOnlyClears(s: Sweep, entry: Record, now: nat -> int)
    ensures OnlyCleared(s.caches, Visit(s, entry, now).caches)
    ensures Visit(s, entry, now).ticks >= s.ticks
    ensures s.failed ==> Visit(s, entry, now) == s
  {
  }

  lemma {:induction false} ScanBetween(s: Sweep, snap: seq<Record>, i1: nat, i2: nat, now: nat -> int)
    requires i1 <= i2 <= |snap|
    ensures OnlyCleared(ScanPrefix(s, snap, i1, now).caches, ScanPrefix(s, snap, i2, now).caches)
    ensures ScanPrefix(s, snap, i1, now).ticks <= ScanPrefix(s, snap, i2, now).ticks
  {
    if i2 > i1 {
      ScanBetween(s, snap, i1, i2 - 1, now);
      VisitOnlyClears(ScanPrefix(s, snap, i2 - 1, now), snap[i2 - 1], now);
      OnlyClearedTrans(ScanPrefix(s, snap, i1, now).caches, ScanPrefix(s, snap, i2 - 1, now).caches,
                       ScanPrefix(s, snap, i2, now).caches);
    }
  }

  lemma ScanCacheOnlyClears(s: Sweep, name: string, cursors: map<string, seq<Uuid>>, now: nat -> int)
    ensures OnlyCleared(s.caches, ScanCache(s, name, cursors, now).caches)
    ensures s.ticks <= ScanCache(s, name, cursors, now).ticks
  {
    if !s.failed && name in s.caches {
      var snap := Snapshot(s.caches[name], CursorOf(cursors, name));
      ScanBetween(s, snap, 0, |snap|, now);
    }
  }

  lemma {:induction false} SweepBetween(s: Sweep, names: seq<string>, cursors: map<string, seq<Uuid>>, j1: nat, j2: nat, now: nat -> int)
    requires j1 <= j2 <= |names|
    ensures OnlyCleared(SweepPrefix(s, names, cursors, j1, now).caches, SweepPrefix(s, names, cursors, j2, now).caches)
    ensures SweepPrefix(s, names, cursors, j1, now).ticks <= SweepPrefix(s, names, cursors, j2, now).ticks
  {
    if j2 > j1 {
      var p := SweepPrefix(s, names, cursors, j2 - 1, now);
      SweepBetween(s, names, cursors, j1, j2 - 1, now);
      ScanCacheOnlyClears(p, names[j2 - 1], cursors, now);
      OnlyClearedTrans(SweepPrefix(s, names, cursors, j1, now).caches, p.caches,
                       SweepPrefix(s, names, cursors, j2, now).caches);
    }
  }

  /**
   * The sweep's only effect is `clear`: it keeps every namespace (a cleared
   * one still exists, empty), creates none, and every cache ends either as it
   * was or empty, so no record is added or has its `lastAccessedAt` changed.
   */
  lemma SweepOnlyClears(caches: Caches, names: seq<string>, cursors: map<string, seq<Uuid>>, now: nat -> int)
    ensures var r := SweepAll(caches, names, cursors, now);
      && r.caches.Keys == caches.Keys
      && forall n :: n in caches ==> r.caches[n] == caches[n] || r.caches[n] == map[]
  {
    SweepBetween(Sweep(caches, 0, false), names, cursors, 0, |names|, now);
  }

  /** No record of `caches` naming the user of namespace `n` is stale at any of the first `readings` clock readings. */
  ghost predicate NoStaleEntryFor(caches: Caches, n: string, now: nat -> int, readings: nat)
  {
    forall e, t: nat :: e in Records(caches) && t < readings && UserCacheName(e.userId) == n
      ==> !IsStale(e.lastAccessedAt, now(t))
  }

  lemma {:induction false} ScanKeeps(orig: Caches, s: Sweep, snap: seq<Record>, i: nat, now: nat -> int, n: string, readings: nat)
    requires i <= |snap|
    requires OnlyCleared(orig, s.caches) && n in orig && s.caches[n] == orig[n]
    requires forall e :: e in snap ==> e in Records(orig)
    requires ScanPrefix(s, snap, i, now).ticks <= readings
    requires NoStaleEntryFor(orig, n, now, readings)
    ensures n in ScanPrefix(s, snap, i, now).caches && ScanPrefix(s, snap, i, now).caches[n] == orig[n]
  {
    if i > 0 {
      var p := ScanPrefix(s, snap, i - 1, now);
      var e := snap[i - 1];
      VisitOnlyClears(p, e, now);
      ScanKeeps(orig, s, snap, i - 1, now, n, readings);
      if !p.failed && IsStale(e.lastAccessedAt, now(p.ticks)) {
        assert e in snap;
        assert p.ticks < readings;
        assert UserCacheName(e.userId) != n;
      }
    }
  }

  lemma {:induction false} SweepKeeps(orig: Caches, names: seq<string>, cursors: map<string, seq<Uuid>>, j: nat, now: nat -> int, n: string, readings: nat)
    requires j <= |names| && n in orig
    requires SweepPrefix(Sweep(orig, 0, false), names, cursors, j, now).ticks <= readings
    requires NoStaleEntryFor(orig, n, now, readings)
    ensures var r := SweepPrefix(Sweep(orig, 0, false), names, cursors, j, now);
      n in r.caches && r.caches[n] == orig[n]
  {
    var start := Sweep(orig, 0, false);
    if j > 0 {
      var p := SweepPrefix(start, names, cursors, j - 1, now);
      SweepBetween(start, names, cursors, j - 1, j, now);
      SweepBetween(start, names, cursors, 0, j - 1, now);
      SweepKeeps(orig, names, cursors, j - 1, now, n, readings);
      var name := names[j - 1];
      if !p.failed && name in p.caches {
        var snap := Snapshot(p.caches[name], CursorOf(cursors, name));
        OnlyClearedRecords(orig, p.caches);
        forall e | e in snap ensures e in Records(orig) {
          var k :| k in p.caches[name] && p.caches[name][k] == e;
          assert e in Records(p.caches);
        }
        ScanKeeps(orig, p, snap, |snap|, now, n, readings);
      }
    }
  }

  /**
   * A namespace is cleared only because of a stale entry of its own user:
   * if no record naming that user is stale at any clock reading the run
   * takes, the namespace keeps all its records.
   */
  lemma SweepClearsOnlyStaleUsers(caches: Caches, names: seq<string>, cursors: map<string, seq<Uuid>>, now: nat -> int, n: string)
    requires n in caches
    requires NoStaleEntryFor(caches, n, now, SweepAll(caches, names, cursors, now).ticks)
    ensures var r := SweepAll(caches, names, cursors, now);
      n in r.caches && r.caches[n] == caches[n]
  {
    SweepKeeps(caches, names, cursors, |names|, now, n, SweepAll(caches, names, cursors, now).ticks);
  }

  /**
   * Every reported cache is scanned, but only user namespaces are ever
   * cleared: a cache whose name lacks the user prefix keeps its records.
   */
  lemma SweepNeverClearsForeignCaches(caches: Caches, names: seq<string>, cursors: map<string, seq<Uuid>>, now: nat -> int, n: string)
    requires n in caches && UserIdOf(n) == None
    ensures var r := SweepAll(caches, names, cursors, now);
      n in r.caches && r.caches[n] == caches[n]
  {
    forall e | e in Records(caches) ensures UserCacheName(e.userId) != n {
      UserIdOfIff(n, e.userId);
    }
    SweepClearsOnlyStaleUsers(caches, names, cursors, now, n);
  }

  /** Scanning a cache that is already empty changes nothing and reads no clock. */
  lemma ScanOfEmptyCache(s: Sweep, name: string, cursors: map<string, seq<Uuid>>, now: nat -> int)
    requires !s.failed && name in s.caches && s.caches[name] == map[]
    ensures ScanCache(s, name, cursors, now) == s
  {
    SnapshotOfEmpty(CursorOf(cursors, name));
  }

  /**
   * One stale entry is enough: if a record that lives in its own user's
   * namespace is stale already at the run's first clock reading, and the run
   * does not throw, that namespace is empty afterwards, however fresh the
   * namespace's other entries are.
   */
  lemma StaleEntryClearsItsNamespace(caches: Caches, names: seq<string>, cursors: map<string, seq<Uuid>>, now: nat -> int, name: string, key: Uuid)
    requires forall t1: nat, t2: nat :: t1 <= t2 ==> now(t1) <= now(t2)
    requires name in names && name in caches && key in caches[name] && key in CursorOf(cursors, name)
    requires UserCacheName(caches[name][key].userId) == name
    requires IsStale(caches[name][key].lastAccessedAt, now(0))
    ensures var r := SweepAll(caches, names, cursors, now);
      !r.failed ==> name in r.caches && r.caches[name] == map[]
  {
    var start := Sweep(caches, 0, false);
    var r := SweepAll(caches, names, cursors, now);
    var j :| 0 <= j < |names| && names[j] == name;
    var s0 := SweepPrefix(start, names, cursors, j, now);
    var s1 := SweepPrefix(start, names, cursors, j + 1, now);
    assert s1 == ScanCache(s0, name, cursors, now);
    if s1.failed {
      SweepStaysFailed(start, names, cursors, j + 1, |names|, now);
      return;
    }
    assert !s0.failed;
    SweepBetween(start, names, cursors, 0, j, now);
    assert name in s0.caches;
    if s0.caches[name] == map[] {
      ScanCacheOnlyClears(s0, name, cursors, now);
    } else {
      assert s0.caches[name] == caches[name];
      ScanClearsItsNamespace(s0, name, cursors, now, caches[name][key], key);
    }
    assert s1.caches[name] == map[];
    SweepBetween(start, names, cursors, j + 1, |names|, now);
  }

  /** The scan of cache `name` itself, when it still holds the stale record. */
  lemma ScanClearsItsNamespace(s0: Sweep, name: string, cursors: map<string, seq<Uuid>>, now: nat -> int, e: Record, key: Uuid)
    requires forall t1: nat, t2: nat :: t1 <= t2 ==> now(t1) <= now(t2)
    requires !s0.failed && name in s0.caches && key in s0.caches[name] && key in CursorOf(cursors, name)
    requires e == s0.caches[name][key] && UserCacheName(e.userId) == name
    requires IsStale(e.lastAccessedAt, now(0))
    ensures var s1 := ScanCache(s0, name, cursors, now);
      !s1.failed ==> name in s1.caches && s1.caches[name] == map[]
  {
    var snap := Snapshot(s0.caches[name], CursorOf(cursors, name));
    SnapshotHasKey(s0.caches[name], CursorOf(cursors, name), key);
    var i :| 0 <= i < |snap| && snap[i] == e;
    var p := ScanPrefix(s0, snap, i, now);
    if p.failed {
      ScanStaysFailed(s0, snap, i, |snap|, now);
      return;
    }
    ScanBetween(s0, snap, 0, i, now);
    ScanBetween(s0, snap, i + 1, |snap|, now);
    StaleLater(e.lastAccessedAt, now(0), now(p.ticks));
    assert ScanPrefix(s0, snap, i + 1, now).caches[name] == map[];
  }

  /**
   * The run throws only when a stale entry names a user without a namespace:
   * when every reported name is a cache and every record's user has a
   * namespace, the run completes.
   */
  lemma SweepCompletesWhenNamespacesExist(caches: Caches, names: seq<string>, cursors: map<string, seq<Uuid>>, now: nat -> int)
    requires forall n :: n in names ==> n in caches
    requires forall e :: e in Records(caches) ==> UserCacheName(e.userId) in caches
    ensures !SweepAll(caches, names, cursors, now).failed
  {
    SweepCompletes(caches, names, cursors, |names|, now);
  }

  lemma {:induction false} ScanCompletes(orig: Caches, s: Sweep, snap: seq<Record>, i: nat, now: nat -> int)
    requires i <= |snap| && !s.failed && OnlyCleared(orig, s.caches)
    requires forall e :: e in snap ==> e in Records(orig)
    requires forall e :: e in Records(orig) ==> UserCacheName(e.userId) in orig
    ensures !ScanPrefix(s, snap, i, now).failed
  {
    if i > 0 {
      ScanCompletes(orig, s, snap, i - 1, now);
      ScanBetween(s, snap, 0, i - 1, now);
      OnlyClearedTrans(orig, s.caches, ScanPrefix(s, snap, i - 1, now).caches);
      assert snap[i - 1] in snap;
    }
  }

  lemma {:induction false} SweepCompletes(orig: Caches, names: seq<string>, cursors: map<string, seq<Uuid>>, j: nat, now: nat -> int)
    requires j <= |names|
    requires forall n :: n in names ==> n in orig
    requires forall e :: e in Records(orig) ==> UserCacheName(e.userId) in orig
    ensures !SweepPrefix(Sweep(orig, 0, false), names, cursors, j, now).failed
  {
    var start := Sweep(orig, 0, false);
    if j > 0 {
      SweepCompletes(orig, names, cursors, j - 1, now);
      var p := SweepPrefix(start, names, cursors, j - 1, now);
      SweepBetween(start, names, cursors, 0, j - 1, now);
      var name := names[j - 1];
      assert name in names;
      var snap := Snapshot(p.caches[name], CursorOf(cursors, name));
      OnlyClearedRecords(orig, p.caches);
      forall e | e in snap ensures e in Records(orig) {
        var k :| k in p.caches[name] && p.caches[name][k] == e;
        assert e in Records(p.caches);
      }
      ScanCompletes(orig, p, snap, |snap|, now);
    }
  }

  /** A cache that is not a user namespace still holds all its records at any point of the run. */
  lemma ForeignCacheIntact(caches: Caches, names: seq<string>, cursors: map<string, seq<Uuid>>, j: nat, now: nat -> int, name: string)
    requires j <= |names| && name in caches && UserIdOf(name) == None
    ensures var s := SweepPrefix(Sweep(caches, 0, false), names, cursors, j, now);
      s.caches.Keys == caches.Keys && s.caches[name] == caches[name]
  {
    var s := SweepPrefix(Sweep(caches, 0, false), names, cursors, j, now);
    SweepBetween(Sweep(caches, 0, false), names, cursors, 0, j, now);
    forall e | e in Records(caches) ensures UserCacheName(e.userId) != name {
      UserIdOfIff(name, e.userId);
    }
    SweepKeeps(caches, names, cursors, j, now, name, s.ticks);
  }

  /** Within the scan of `name`: the stale record `e` of its snapshot is visited at a still-stale reading. */
  lemma ScanVisitsEntry(s0: Sweep, name: string, cursors: map<string, seq<Uuid>>, now: nat -> int, e: Record, key: Uuid)
    returns (p: Sweep)
    requires forall t1: nat, t2: nat :: t1 <= t2 ==> now(t1) <= now(t2)
    requires !s0.failed && name in s0.caches && key in s0.caches[name] && key in CursorOf(cursors, name)
    requires e == s0.caches[name][key] && IsStale(e.lastAccessedAt, now(0))
    ensures var s1 := ScanCache(s0, name, cursors, now);
      !s1.failed ==>
        && !p.failed && p.caches.Keys == s0.caches.Keys
        && IsStale(e.lastAccessedAt, now(p.ticks))
        && !Visit(p, e, now).failed
        && OnlyCleared(Visit(p, e, now).caches, s1.caches)
  {
    var snap := Snapshot(s0.caches[name], CursorOf(cursors, name));
    SnapshotHasKey(s0.caches[name], CursorOf(cursors, name), key);
    var i :| 0 <= i < |snap| && snap[i] == e;
    p := ScanPrefix(s0, snap, i, now);
    var q := ScanPrefix(s0, snap, i + 1, now);
    if p.failed {
      ScanStaysFailed(s0, snap, i, |snap|, now);
      return;
    }
    if q.failed {
      ScanStaysFailed(s0, snap, i + 1, |snap|, now);
      return;
    }
    ScanBetween(s0, snap, 0, i, now);
    ScanBetween(s0, snap, i + 1, |snap|, now);
    StaleLater(e.lastAccessedAt, now(0), now(p.ticks));
  }

  /**
   * The namespace cleared is the one named after the entry's user, not the
   * cache being scanned: a stale record kept in a cache that is not a user
   * namespace clears its owner's namespace, unless the run throws.
   */
  lemma ForeignStaleEntryClearsOwnersNamespace(caches: Caches, names: seq<string>, cursors: map<string, seq<Uuid>>, now: nat -> int, name: string, key: Uuid)
    requires forall t1: nat, t2: nat :: t1 <= t2 ==> now(t1) <= now(t2)
    requires name in names && name in caches && UserIdOf(name) == None
    requires key in caches[name] && key in CursorOf(cursors, name)
    requires UserCacheName(caches[name][key].userId) in caches
    requires IsStale(caches[name][key].lastAccessedAt, now(0))
    ensures var r := SweepAll(caches, names, cursors, now);
      var owner := UserCacheName(caches[name][key].userId);
      !r.failed ==> owner in r.caches && r.caches[owner] == map[]
  {
    var e := caches[name][key];
    var start := Sweep(caches, 0, false);
    var j :| 0 <= j < |names| && names[j] == name;
    var s0 := SweepPrefix(start, names, cursors, j, now);
    var s1 := SweepPrefix(start, names, cursors, j + 1, now);
    assert s1 == ScanCache(s0, name, cursors, now);
    SweepBetween(start, names, cursors, j + 1, |names|, now);
    if s1.failed {
      SweepStaysFailed(start, names, cursors, j + 1, |names|, now);
      return;
    }
    ForeignCacheIntact(caches, names, cursors, j, now, name);
    var p := ScanVisitsEntry(s0, name, cursors, now, e, key);
    OnlyClearedTrans(Visit(p, e, now).caches, s1.caches, SweepAll(caches, names, cursors, now).caches);
  }

  /**
   * As written, a stale record whose user has no namespace makes the run
   * throw, once the scan reaches it: the null cache's `clear()` raises.
   */
  lemma StaleEntryWithoutNamespaceThrows(caches: Caches, names: seq<string>, cursors: map<string, seq<Uuid>>, now: nat -> int, name: string, key: Uuid)
    requires forall t1: nat, t2: nat :: t1 <= t2 ==> now(t1) <= now(t2)
    requires name in names && name in caches && UserIdOf(name) == None
    requires key in caches[name] && key in CursorOf(cursors, name)
    requires UserCacheName(caches[name][key].userId) !in caches
    requires IsStale(caches[name][key].lastAccessedAt, now(0))
    ensures SweepAll(caches, names, cursors, now).failed
  {
    var e := caches[name][key];
    var start := Sweep(caches, 0, false);
    var j :| 0 <= j < |names| && names[j] == name;
    var s0 := SweepPrefix(start, names, cursors, j, now);
    var s1 := SweepPrefix(start, names, cursors, j + 1, now);
    assert s1 == ScanCache(s0, name, cursors, now);
    if !s1.failed {
      ForeignCacheIntact(caches, names, cursors, j, now, name);
      var p := ScanVisitsEntry(s0, name, cursors, now, e, key);
      assert false;
    }
    SweepStaysFailed(start, names, cursors, j + 1, |names|, now);
  }

  /**
   * Why a stale record does not always clear its owner's namespace: here
   * the foreign cache clears bob's namespace before bob's namespace is
   * scanned, so alice's stale record kept there is never visited and
   * alice's namespace keeps its record.
   */
  lemma StaleEntryMissedAfterEarlierClear()
    ensures var bob := UserCacheName("bob");
      var alice := UserCacheName("alice");
      var caches := map["archive" := map[1 := Record("bob", 0, [])],
                        bob := map[2 := Record("alice", 0, [])],
                        alice := map[3 := Record("alice", 1000, [])]];
      var r := SweepAll(caches, ["archive", bob, alice], map["archive" := [1], bob := [2], alice := [3]], t => 1000);
      && IsStale(caches[bob][2].lastAccessedAt, 1000)
      && !r.failed && bob in r.caches && r.caches[bob] == map[]
      && alice in r.caches && r.caches[alice] == caches[alice]
  {
    var bob := UserCacheName("bob");
    var alice := UserCacheName("alice");
    assert bob != alice && bob != "archive" && alice != "archive";
    var caches := map["archive" := map[1 := Record("bob", 0, [])],
                      bob := map[2 := Record("alice", 0, [])],
                      alice := map[3 := Record("alice", 1000, [])]];
    var names := ["archive", bob, alice];
    var cursors := map["archive" := [1], bob := [2], alice := [3]];
    var now: nat -> int := t => 1000;
    StaleIff(0, 1000);
    StaleIff(1000, 1000);
    assert [1][..0] == [] && [2][..0] == [] && [3][..0] == [];
    var s0 := Sweep(caches, 0, false);
    var s1 := Sweep(caches[bob := map[]], 1, false);
    assert Snapshot(caches["archive"], [1]) == [Record("bob", 0, [])];
    assert ScanPrefix(s0, [Record("bob", 0, [])], 1, now) == s1;
    assert SweepPrefix(s0, names, cursors, 1, now) == s1;
    SnapshotOfEmpty([2]);
    assert SweepPrefix(s0, names, cursors, 2, now) == s1;
    assert Snapshot(s1.caches[alice], [3]) == [Record("alice", 1000, [])];
    assert ScanPrefix(s1, [Record("alice", 1000, [])], 1, now) == s1.(ticks := 2);
    assert SweepPrefix(s0, names, cursors, 3, now) == s1.(ticks := 2);
  }

  /**
   * A witness of the throw: the only cache holds a stale record of a user
   * with no namespace, so the run throws before anything is cleared.
   */
  lemma SweepThrowsOnMissingNamespace()
    ensures var caches := map["archive" := map[7 := Record("alice", 0, [])]];
      var r := SweepAll(caches, ["archive"], map["archive" := [7]], t => 1000);
      r.failed && r.caches == caches
  {
    var caches := map["archive" := map[7 := Record("alice", 0, [])]];
    var now: nat -> int := t => 1000;
    var start := Sweep(caches, 0, false);
    var snap := Snapshot(caches["archive"], [7]);
    assert [7][..0] == [];
    assert snap == [Record("alice", 0, [])];
    StaleIff(0, 1000);
    assert UserCacheName("alice") !in caches;
    assert ScanPrefix(start, snap, 1, now) == Sweep(caches, 1, true);
    assert SweepPrefix(start, ["archive"], map["archive" := [7]], 1, now) == Sweep(caches, 1, true);
  }

  // ---------------------------------------------------------------------
  // The schedule
  // ---------------------------------------------------------------------

  /** When run `k` of `scheduleAtFixedRate(task, 0, 2, MINUTES)` is due, in seconds. */
  function RunStart(startup: int, k: nat): int
  {
    startup + (SweepInitialDelayMinutes + k * SweepPeriodMinutes) * 60
  }

  /** The first run due at or after instant `t`. */
  function FirstRunFrom(startup: int, t: int): (k: nat)
    ensures RunStart(startup, k) >= t
    ensures k == 0 || RunStart(startup, k - 1) < t
  {
    if t <= startup then 0 else (t - startup + 119) / 120
  }

  /**
   * Measured at the instants the runs are due: a session last accessed at
   * `a` (no earlier than 180 seconds before start-up) is stale at the due
   * instant of the first run due at or after `a + 180`, that run is due less
   * than five minutes after `a`, and the session is not stale at the due
   * instant of the run before. Late starts and the clock readings taken
   * inside a run are not part of this statement.
   */
  lemma FirstStaleRun(startup: int, a: int)
    requires startup <= a + 180
    ensures var k := FirstRunFrom(startup, a + 180);
      && IsStale(a, RunStart(startup, k))
      && RunStart(startup, k) < a + 300
      && (k > 0 ==> !IsStale(a, RunStart(startup, k - 1)))
  {
    var k := FirstRunFrom(startup, a + 180);
    StaleIff(a, RunStart(startup, k));
    if k > 0 {
      StaleIff(a, RunStart(startup, k - 1));
    }
  }
}
