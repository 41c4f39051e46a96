/**
 * The query cache at lock granularity (mentatd/src/cache.rs): any number of threads, each public operation
 * a sequence of critical sections, all interleaved freely. Every critical section is one step.
 */
module CacheLocks {
  import opened Prelude
  import opened PlainCache
  import opened QueryCaching

  /** Where a thread stands: the section it enters next, with its local variables. */
  datatype Pc =
    | Idle
    | Getting(key: Key)
    | ExpireDeps(key: Key)
    | ExpireUnlink(key: Key, prior: set<I64>)
    | InsertStart(key: Key, result: string, deps: set<I64>)
    | InsertUnlink(key: Key, result: string, deps: set<I64>, prior: set<I64>)
    | InsertPut(key: Key, result: string, deps: set<I64>)
    | EvictDeps(evicted: Key, key: Key, deps: set<I64>)
    | EvictUnlink(evicted: Key, prior: set<I64>, key: Key, deps: set<I64>)
    | AddDeps(key: Key, deps: set<I64>)
    | AddLinks(key: Key, deps: set<I64>)
    | Collect(ids: seq<I64>)
    | PopKeys(keys: set<Key>)
    | UnlinkKeys(keys: set<Key>)
    | ClearCache
    | ClearDeps
    | ClearIndex

  /** What happened to the cached entries, in order. */
  datatype Event = Put(key: Key, result: string, at: nat) | Gone(keys: set<Key>)

  /** A hit, and how many events had happened before it. */
  datatype Hit = Hit(key: Key, result: string, now: nat, seen: nat)

  datatype Shared = Shared(
    entries: map<Key, CacheEntry>,
    recency: seq<Key>,
    deps: map<Key, set<I64>>,
    index: Index,
    clock: nat,
    threads: map<nat, Pc>,
    events: seq<Event>,
    hits: seq<Hit>
  )

  const START := Shared(map[], [], map[], map[], 0, map[], [], [])

  datatype Step = Tick(elapsed: nat) | Call(thread: nat, pc: Pc) | Section(thread: nat)

  /** The first section of `get`, `insert_with_deps`, `invalidate_entities` and `invalidate`. */
  predicate IsEntry(pc: Pc) {
    pc.Getting? || pc.InsertStart? || (pc.Collect? && pc.ids != []) || pc.ClearCache?
  }

  function PcOf(s: Shared, thread: nat): Pc {
    if thread in s.threads then s.threads[thread] else Idle
  }

  function Apply(s: Shared, capacity: nat, ttl: nat, step: Step): Shared {
    match step
    case Tick(n) => s.(clock := s.clock + n)
    case Call(t, pc) => if PcOf(s, t).Idle? && IsEntry(pc) then s.(threads := s.threads[t := pc]) else s
    case Section(t) => Enter(s, capacity, ttl, t, PcOf(s, t))
  }

  function At(s: Shared, t: nat, pc: Pc): Shared {
    s.(threads := s.threads[t := pc])
  }

  function Unlink(index: Index, key: Key, deps: set<I64>): Index {
    map e | e in index && (e in Homes(deps) ==> index[e] - {key} != {}) ::
      if e in Homes(deps) then index[e] - {key} else index[e]
  }

  function Link(index: Index, key: Key, deps: set<I64>): Index {
    map e | e in index.Keys + Homes(deps) :: if e in Homes(deps) then Bucket(index, e) + {key} else index[e]
  }

  function UnlinkMany(index: Index, deps: map<Key, set<I64>>, keys: set<Key>): Index {
    map e | e in index && index[e] - Listed(deps, keys, e) != {} :: index[e] - Listed(deps, keys, e)
  }

  function Listed(deps: map<Key, set<I64>>, keys: set<Key>, e: I64): set<Key> {
    set k | k in keys && k in deps && e in Homes(deps[k])
  }

  function Collected(index: Index, ids: seq<I64>): set<Key> {
    set e, k | e in index && (e == SENTINEL || e in ids) && k in index[e] :: k
  }

  /** One critical section of thread `t`. */
  function Enter(s: Shared, capacity: nat, ttl: nat, t: nat, pc: Pc): Shared {
    match pc
    case Idle => s
    case Getting(k) => GetSection(s, ttl, t, k)
    case ExpireDeps(k) =>
      At(s.(deps := s.deps - {k}), t, if k in s.deps then ExpireUnlink(k, s.deps[k]) else Idle)
    case ExpireUnlink(k, prior) => At(s.(index := Unlink(s.index, k, prior)), t, Idle)
    case InsertStart(k, r, ds) =>
      At(s, t, if k in s.deps then InsertUnlink(k, r, ds, s.deps[k]) else InsertPut(k, r, ds))
    case InsertUnlink(k, r, ds, prior) => At(s.(index := Unlink(s.index, k, prior)), t, InsertPut(k, r, ds))
    case InsertPut(k, r, ds) => PutSection(s, capacity, t, k, r, ds)
    case EvictDeps(v, k, ds) =>
      At(s.(deps := s.deps - {v}), t, if v in s.deps then EvictUnlink(v, s.deps[v], k, ds) else AddDeps(k, ds))
    case EvictUnlink(v, prior, k, ds) => At(s.(index := Unlink(s.index, v, prior)), t, AddDeps(k, ds))
    case AddDeps(k, ds) => At(s.(deps := s.deps[k := ds]), t, AddLinks(k, ds))
    case AddLinks(k, ds) => At(s.(index := Link(s.index, k, ds)), t, Idle)
    case Collect(ids) =>
      var keys := Collected(s.index, ids);
      At(s, t, if keys == {} then Idle else PopKeys(keys))
    case PopKeys(keys) => At(Removed(s, keys), t, UnlinkKeys(keys))
    case UnlinkKeys(keys) => At(s.(deps := s.deps - keys, index := UnlinkMany(s.index, s.deps, keys)), t, Idle)
    case ClearCache => At(Removed(s, s.entries.Keys), t, ClearDeps)
    case ClearDeps => At(s.(deps := map[]), t, ClearIndex)
    case ClearIndex => At(s.(index := map[]), t, Idle)
  }

  function Removed(s: Shared, keys: set<Key>): Shared {
    s.(entries := s.entries - keys, recency := Survivors(s.recency, keys), events := s.events + [Gone(keys)])
  }

  /** `get` under the cache lock. */
  function GetSection(s: Shared, ttl: nat, t: nat, k: Key): Shared {
    if k !in s.entries then At(s, t, Idle)
    else if Elapsed(s.clock, s.entries[k].insertedAt) > ttl then At(Removed(s, {k}), t, ExpireDeps(k))
    else At(s.(recency := Touched(s.recency, k), hits := s.hits + [Hit(k, s.entries[k].result, s.clock, |s.events|)]),
            t, Idle)
  }

  /** `insert_with_deps` under the cache lock. */
  function PutSection(s: Shared, capacity: nat, t: nat, k: Key, r: string, ds: set<I64>): Shared {
    if |s.recency| == capacity && k !in s.entries && s.recency != [] then
      var last := s.recency[|s.recency| - 1];
      At(Inserted(Removed(s, {last}), k, r), t, EvictDeps(last, k, ds))
    else At(Inserted(s, k, r), t, AddDeps(k, ds))
  }

  function Inserted(s: Shared, k: Key, r: string): Shared {
    s.(entries := s.entries[k := CacheEntry(r, s.clock)], recency := Touched(s.recency, k),
       events := s.events + [Put(k, r, s.clock)])
  }

  function After(s: Shared, capacity: nat, ttl: nat, steps: seq<Step>): Shared
    decreases |steps|
  {
    if steps == [] then s else After(Apply(s, capacity, ttl, steps[0]), capacity, ttl, steps[1..])
  }

  // ---- What a hit must answer ----

  predicate Touches(e: Event, k: Key) {
    match e
    case Put(key, _, _) => key == k
    case Gone(keys) => k in keys
  }

  /** The `seen` first events leave `k` with what event `p` put. */
  ghost predicate LatestPut(events: seq<Event>, seen: nat, k: Key, result: string, at: nat, p: nat) {
    && p < seen <= |events| && events[p] == Put(k, result, at)
    && forall q :: p < q < seen ==> !Touches(events[q], k)
  }

  /** The hit answers the latest value put for its key and not since removed, at most `ttl` old. */
  ghost predicate HitCorrect(events: seq<Event>, h: Hit, ttl: nat) {
    exists p: nat, at: nat ::
      LatestPut(events, h.seen, h.key, h.result, at, p) && Elapsed(h.now, at) <= ttl && at <= h.now
  }

  // ---- Invariant ----

  ghost predicate Recorded(s: Shared, k: Key) {
    k in s.entries ==> exists p: nat ::
      LatestPut(s.events, |s.events|, k, s.entries[k].result, s.entries[k].insertedAt, p)
      && s.entries[k].insertedAt <= s.clock
  }

  ghost predicate Sound(s: Shared, capacity: nat, ttl: nat) {
    && Ordered(s.recency, s.entries) && |s.recency| <= capacity
    && (forall k :: k in s.entries ==> Recorded(s, k))
    && (forall i :: 0 <= i < |s.hits| ==> HitCorrect(s.events, s.hits[i], ttl))
  }

  lemma LaterEvents(events: seq<Event>, more: seq<Event>, h: Hit, ttl: nat)
    requires HitCorrect(events, h, ttl)
    ensures HitCorrect(events + more, h, ttl)
  {
    var p: nat, at: nat :|
      LatestPut(events, h.seen, h.key, h.result, at, p) && Elapsed(h.now, at) <= ttl && at <= h.now;
    assert LatestPut(events + more, h.seen, h.key, h.result, at, p);
  }

  lemma HitsKept(s: Shared, s': Shared, more: seq<Event>, ttl: nat)
    requires s'.events == s.events + more && s'.hits == s.hits
    requires forall i :: 0 <= i < |s.hits| ==> HitCorrect(s.events, s.hits[i], ttl)
    ensures forall i :: 0 <= i < |s'.hits| ==> HitCorrect(s'.events, s'.hits[i], ttl)
  {
    forall i | 0 <= i < |s.hits| ensures HitCorrect(s'.events, s.hits[i], ttl) {
      LaterEvents(s.events, more, s.hits[i], ttl);
    }
  }

  lemma RemovedSound(s: Shared, capacity: nat, ttl: nat, keys: set<Key>)
    requires Sound(s, capacity, ttl)
    ensures Sound(Removed(s, keys), capacity, ttl)
  {
    var s' := Removed(s, keys);
    SurvivorsDistinct(s.recency, keys);
    SurvivorsLength(s.recency, keys);
    HitsKept(s, s', [Gone(keys)], ttl);
    forall k | k in s'.entries ensures Recorded(s', k) {
      assert Recorded(s, k);
      var p: nat :| LatestPut(s.events, |s.events|, k, s.entries[k].result, s.entries[k].insertedAt, p);
      assert LatestPut(s'.events, |s'.events|, k, s.entries[k].result, s.entries[k].insertedAt, p);
    }
  }

  lemma InsertedSound(s: Shared, capacity: nat, ttl: nat, k: Key, r: string)
    requires Sound(s, capacity, ttl) && (k in s.entries || |s.recency| < capacity)
    ensures Sound(Inserted(s, k, r), capacity, ttl)
  {
    var s' := Inserted(s, k, r);
    TouchedOrdered(s.recency, s.entries, k, CacheEntry(r, s.clock));
    HitsKept(s, s', [Put(k, r, s.clock)], ttl);
    forall key | key in s'.entries ensures Recorded(s', key) {
      if key == k {
        assert LatestPut(s'.events, |s'.events|, k, r, s.clock, |s.events|);
      } else {
        assert Recorded(s, key);
        var p: nat :| LatestPut(s.events, |s.events|, key, s.entries[key].result, s.entries[key].insertedAt, p);
        assert LatestPut(s'.events, |s'.events|, key, s.entries[key].result, s.entries[key].insertedAt, p);
      }
    }
  }

  lemma GetSound(s: Shared, capacity: nat, ttl: nat, t: nat, k: Key)
    requires Sound(s, capacity, ttl)
    ensures Sound(GetSection(s, ttl, t, k), capacity, ttl)
  {
    RemovedSound(s, capacity, ttl, {k});
    if k in s.entries && Elapsed(s.clock, s.entries[k].insertedAt) <= ttl {
      TouchedOrdered(s.recency, s.entries, k, s.entries[k]);
      assert s.entries == s.entries[k := s.entries[k]];
      assert Recorded(s, k);
      assert HitCorrect(s.events, Hit(k, s.entries[k].result, s.clock, |s.events|), ttl);
      var s' := GetSection(s, ttl, t, k);
      forall key | key in s'.entries ensures Recorded(s', key) {
        assert Recorded(s, key);
      }
    }
  }

  lemma PutSound(s: Shared, capacity: nat, ttl: nat, t: nat, k: Key, r: string, ds: set<I64>)
    requires Sound(s, capacity, ttl) && capacity > 0
    ensures Sound(PutSection(s, capacity, t, k, r, ds), capacity, ttl)
  {
    if |s.recency| == capacity && k !in s.entries {
      var last := s.recency[|s.recency| - 1];
      RemovedSound(s, capacity, ttl, {last});
      assert last in s.recency;
      SurvivorsLength(s.recency, {last});
      InsertedSound(Removed(s, {last}), capacity, ttl, k, r);
      SameShared(Inserted(Removed(s, {last}), k, r), capacity, ttl, t, EvictDeps(last, k, ds));
    } else {
      InsertedSound(s, capacity, ttl, k, r);
      SameShared(Inserted(s, k, r), capacity, ttl, t, AddDeps(k, ds));
    }
  }

  /** The thread table, the dependencies and the index do not matter. */
  lemma SameShared(s: Shared, capacity: nat, ttl: nat, t: nat, pc: Pc)
    requires Sound(s, capacity, ttl)
    ensures Sound(At(s, t, pc), capacity, ttl)
  {
    SameEntries(s, At(s, t, pc), capacity, ttl);
  }

  lemma SameEntries(s: Shared, s': Shared, capacity: nat, ttl: nat)
    requires Sound(s, capacity, ttl) && s.clock <= s'.clock
    requires s'.entries == s.entries && s'.recency == s.recency && s'.events == s.events && s'.hits == s.hits
    ensures Sound(s', capacity, ttl)
  {
    forall k | k in s'.entries ensures Recorded(s', k) {
      assert Recorded(s, k);
    }
  }

  /** The sections that touch the cached entries. */
  predicate CachesIn(pc: Pc) {
    pc.Getting? || pc.InsertPut? || pc.PopKeys? || pc.ClearCache?
  }

  lemma QuietSection(s: Shared, capacity: nat, ttl: nat, t: nat, pc: Pc)
    requires !CachesIn(pc)
    ensures var s' := Enter(s, capacity, ttl, t, pc);
            && s'.entries == s.entries && s'.recency == s.recency && s'.clock == s.clock
            && s'.events == s.events && s'.hits == s.hits
  {
  }

  lemma SectionSound(s: Shared, capacity: nat, ttl: nat, t: nat, pc: Pc)
    requires Sound(s, capacity, ttl) && capacity > 0 && CachesIn(pc)
    ensures Sound(Enter(s, capacity, ttl, t, pc), capacity, ttl)
  {
    match pc {
      case Getting(k) => GetSound(s, capacity, ttl, t, k);
      case InsertPut(k, r, ds) => PutSound(s, capacity, ttl, t, k, r, ds);
      case PopKeys(keys) => RemoveSound(s, capacity, ttl, t, keys, UnlinkKeys(keys));
      case ClearCache => RemoveSound(s, capacity, ttl, t, s.entries.Keys, ClearDeps);
    }
  }

  lemma RemoveSound(s: Shared, capacity: nat, ttl: nat, t: nat, keys: set<Key>, next: Pc)
    requires Sound(s, capacity, ttl)
    ensures Sound(At(Removed(s, keys), t, next), capacity, ttl)
  {
    RemovedSound(s, capacity, ttl, keys);
    SameShared(Removed(s, keys), capacity, ttl, t, next);
  }

  lemma StepSound(s: Shared, capacity: nat, ttl: nat, step: Step)
    requires Sound(s, capacity, ttl) && capacity > 0
    ensures Sound(Apply(s, capacity, ttl, step), capacity, ttl)
  {
    if step.Section? && CachesIn(PcOf(s, step.thread)) {
      SectionSound(s, capacity, ttl, step.thread, PcOf(s, step.thread));
    } else {
      if step.Section? {
        QuietSection(s, capacity, ttl, step.thread, PcOf(s, step.thread));
      }
      SameEntries(s, Apply(s, capacity, ttl, step), capacity, ttl);
    }
  }

  lemma {:induction false} RunSound(s: Shared, capacity: nat, ttl: nat, steps: seq<Step>)
    requires Sound(s, capacity, ttl) && capacity > 0
    ensures Sound(After(s, capacity, ttl, steps), capacity, ttl)
    decreases |steps|
  {
    if steps != [] {
      StepSound(s, capacity, ttl, steps[0]);
      RunSound(Apply(s, capacity, ttl, steps[0]), capacity, ttl, steps[1..]);
    }
  }

  /** Under every interleaving every hit is correct and not stale, and the cache never holds more than its capacity. */
  lemma BoundedStaleness(capacity: nat, ttl: nat, steps: seq<Step>)
    requires capacity > 0
    ensures var s := After(START, capacity, ttl, steps);
            |s.entries| <= capacity && forall i :: 0 <= i < |s.hits| ==> HitCorrect(s.events, s.hits[i], ttl)
  {
    RunSound(START, capacity, ttl, steps);
    var s := After(START, capacity, ttl, steps);
    OrderedLength(s.recency, s.entries);
  }
}
