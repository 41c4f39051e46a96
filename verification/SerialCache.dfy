/**
 * Critical sections that do not interleave (mentatd/src/cache.rs): if every operation is called while all threads are
 * idle, the cache is consistent whenever all threads are idle again.
 */
module SerialCache {
  import opened Prelude
  import opened PlainCache
  import opened QueryCaching
  import opened CacheLocks

  // ---- The index operations under the locks are those of the object ----

  lemma UnlinkTakesOut(index: Index, key: Key, deps: set<I64>)
    requires NoEmptyBucket(index)
    ensures TakenOut(index, Unlink(index, key, deps), key, Homes(deps)) && NoEmptyBucket(Unlink(index, key, deps))
  {
  }

  lemma LinkPutsIn(index: Index, key: Key, deps: set<I64>)
    requires NoEmptyBucket(index)
    ensures PutIn(index, Link(index, key, deps), key, Homes(deps)) && NoEmptyBucket(Link(index, key, deps))
  {
  }

  lemma UnlinkManyReverses(index: Index, deps: map<Key, set<I64>>, keys: set<Key>)
    requires Reverses(index, deps)
    ensures Reverses(UnlinkMany(index, deps, keys), deps - keys) && NoEmptyBucket(UnlinkMany(index, deps, keys))
  {
    var after, left := UnlinkMany(index, deps, keys), deps - keys;
    forall e, k ensures k in Bucket(after, e) <==> k in left && e in Homes(left[k]) {
      assert k in Bucket(index, e) <==> k in deps && e in Homes(deps[k]);
      assert k in Listed(deps, keys, e) <==> k in keys && k in deps && e in Homes(deps[k]);
    }
  }

  /** What `invalidate_entities` collects under its read lock is what the plain form selects. */
  lemma CollectedIsSelected(c: Plain, index: Index, capacity: nat, ids: seq<I64>)
    requires Consistent(c, index, capacity)
    ensures Collected(index, ids) == Selected(c, ids)
  {
    var keys := Collected(index, ids);
    forall k ensures k in keys
      <==> k in Bucket(index, SENTINEL) || exists j :: 0 <= j < |ids| && k in Bucket(index, ids[j])
    {
      if exists j :: 0 <= j < |ids| && k in Bucket(index, ids[j]) {
        var j :| 0 <= j < |ids| && k in Bucket(index, ids[j]);
        assert ids[j] in index && ids[j] in ids;
      }
    }
    SelectedByBuckets(c, index, capacity, ids, keys);
  }

  // ---- Between two sections of one operation ----

  /** The keys that are cached, told from the dependencies. */
  function CachedKeys(deps: map<Key, set<I64>>, pc: Pc): set<Key> {
    match pc
    case ExpireDeps(k) => deps.Keys - {k}
    case EvictDeps(v, k, _) => deps.Keys - {v} + {k}
    case EvictUnlink(_, _, k, _) => deps.Keys + {k}
    case AddDeps(k, _) => deps.Keys + {k}
    case UnlinkKeys(keys) => deps.Keys - keys
    case ClearDeps => {}
    case _ => deps.Keys
  }

  /** The dependencies the index reverses. */
  function IndexedDeps(deps: map<Key, set<I64>>, pc: Pc): map<Key, set<I64>> {
    match pc
    case ExpireUnlink(k, prior) => deps[k := prior]
    case EvictUnlink(v, prior, k, _) => (deps - {k})[v := prior]
    case InsertPut(k, _, _) => deps - {k}
    case EvictDeps(_, k, _) => deps - {k}
    case AddDeps(k, _) => deps - {k}
    case AddLinks(k, _) => deps - {k}
    case _ => deps
  }

  /** What the local variables say about the dependencies. */
  predicate LocalsFit(deps: map<Key, set<I64>>, pc: Pc) {
    match pc
    case ExpireDeps(k) => k in deps
    case ExpireUnlink(k, _) => k !in deps
    case InsertUnlink(k, _, _, prior) => k in deps && deps[k] == prior
    case EvictDeps(v, k, _) => v in deps && v != k && k !in deps
    case EvictUnlink(v, _, k, _) => v !in deps && v != k
    case AddLinks(k, ds) => k in deps && deps[k] == ds
    case Collect(ids) => ids != []
    case ClearIndex => deps == map[]
    case _ => true
  }

  /** The cache holds `cached`, and the index reverses `indexed`. */
  ghost predicate Held(s: Shared, capacity: nat, cached: set<Key>, indexed: map<Key, set<I64>>) {
    && Ordered(s.recency, s.entries) && |s.recency| <= capacity && s.entries.Keys == cached
    && Reverses(s.index, indexed) && NoEmptyBucket(s.index)
  }

  /** The state while one thread stands at `pc` and all others are idle. */
  ghost predicate Midway(s: Shared, capacity: nat, pc: Pc) {
    && LocalsFit(s.deps, pc)
    && (if pc.ClearIndex? then s.entries == map[] && s.recency == []
        else Held(s, capacity, CachedKeys(s.deps, pc), IndexedDeps(s.deps, pc)))
  }

  lemma IdleIsConsistent(s: Shared, capacity: nat)
    requires capacity > 0
    ensures Midway(s, capacity, Idle) <==> Consistent(Plain(s.entries, s.recency, s.deps), s.index, capacity)
  {
  }

  // ---- What the sections do ----

  lemma RemovedHeld(s: Shared, capacity: nat, cached: set<Key>, indexed: map<Key, set<I64>>, keys: set<Key>)
    requires Held(s, capacity, cached, indexed)
    ensures Held(Removed(s, keys), capacity, cached - keys, indexed)
  {
    SurvivorsDistinct(s.recency, keys);
    SurvivorsLength(s.recency, keys);
  }

  lemma InsertedHeld(s: Shared, capacity: nat, cached: set<Key>, indexed: map<Key, set<I64>>, k: Key, r: string)
    requires Held(s, capacity, cached, indexed) && (|s.recency| < capacity || k in s.entries)
    ensures Held(Inserted(s, k, r), capacity, cached + {k}, indexed)
  {
    TouchedOrdered(s.recency, s.entries, k, CacheEntry(r, s.clock));
  }

  lemma EvictedHeld(s: Shared, capacity: nat, cached: set<Key>, indexed: map<Key, set<I64>>, k: Key, r: string,
                    last: Key)
    requires Held(s, capacity, cached, indexed) && |s.recency| == capacity > 0 && last == s.recency[capacity - 1]
    ensures last in cached && Held(Inserted(Removed(s, {last}), k, r), capacity, cached - {last} + {k}, indexed)
  {
    assert last in s.recency;
    RemovedHeld(s, capacity, cached, indexed, {last});
    SurvivorsLength(s.recency, {last});
    InsertedHeld(Removed(s, {last}), capacity, cached - {last}, indexed, k, r);
  }

  lemma TouchedHeld(s: Shared, capacity: nat, cached: set<Key>, indexed: map<Key, set<I64>>, k: Key)
    requires Held(s, capacity, cached, indexed) && k in s.entries
    ensures Held(s.(recency := Touched(s.recency, k)), capacity, cached, indexed)
  {
    TouchedOrdered(s.recency, s.entries, k, s.entries[k]);
    assert s.entries == s.entries[k := s.entries[k]];
  }

  lemma UnlinkedHeld(s: Shared, capacity: nat, cached: set<Key>, indexed: map<Key, set<I64>>, k: Key, prior: set<I64>)
    requires Held(s, capacity, cached, indexed) && k in indexed && indexed[k] == prior
    ensures Held(s.(index := Unlink(s.index, k, prior)), capacity, cached, indexed - {k})
  {
    UnlinkTakesOut(s.index, k, prior);
    TakenOutReverses(s.index, Unlink(s.index, k, prior), k, indexed);
  }

  lemma LinkedHeld(s: Shared, capacity: nat, cached: set<Key>, deps: map<Key, set<I64>>, k: Key, ds: set<I64>)
    requires Held(s, capacity, cached, deps - {k}) && k in deps && deps[k] == ds
    ensures Held(s.(index := Link(s.index, k, ds)), capacity, cached, deps)
  {
    LinkPutsIn(s.index, k, ds);
    PutInReverses(s.index, Link(s.index, k, ds), k, deps, ds);
    assert deps[k := ds] == deps;
  }

  lemma UnlinkedManyHeld(s: Shared, capacity: nat, cached: set<Key>, deps: map<Key, set<I64>>, keys: set<Key>)
    requires Held(s, capacity, cached, deps)
    ensures Held(s.(index := UnlinkMany(s.index, deps, keys)), capacity, cached, deps - keys)
  {
    UnlinkManyReverses(s.index, deps, keys);
  }

  /** Only the four maps and the recency matter. */
  lemma SameHeld(s: Shared, s': Shared, capacity: nat, cached: set<Key>, indexed: map<Key, set<I64>>)
    requires Held(s, capacity, cached, indexed)
    requires s'.entries == s.entries && s'.recency == s.recency && s'.index == s.index
    ensures Held(s', capacity, cached, indexed)
  {
  }

  // ---- One section ----

  lemma GetMidway(s: Shared, capacity: nat, ttl: nat, t: nat, k: Key, s': Shared)
    requires Held(s, capacity, s.deps.Keys, s.deps) && s' == GetSection(s, ttl, t, k)
    ensures Midway(s', capacity, PcOf(s', t))
  {
    if k in s.entries {
      if Elapsed(s.clock, s.entries[k].insertedAt) > ttl {
        RemovedHeld(s, capacity, s.deps.Keys, s.deps, {k});
        SameHeld(Removed(s, {k}), s', capacity, s.deps.Keys - {k}, s.deps);
      } else {
        TouchedHeld(s, capacity, s.deps.Keys, s.deps, k);
        SameHeld(s.(recency := Touched(s.recency, k)), s', capacity, s.deps.Keys, s.deps);
      }
    }
  }

  lemma ExpireMidway(s: Shared, capacity: nat, ttl: nat, t: nat, k: Key, s': Shared)
    requires Held(s, capacity, s.deps.Keys - {k}, s.deps) && k in s.deps
      && s' == Enter(s, capacity, ttl, t, ExpireDeps(k))
    ensures Midway(s', capacity, PcOf(s', t))
  {
    assert s'.deps[k := s.deps[k]] == s.deps;
    SameHeld(s, s', capacity, s.deps.Keys - {k}, s.deps);
  }

  lemma ExpireUnlinkMidway(s: Shared, capacity: nat, ttl: nat, t: nat, k: Key, prior: set<I64>, s': Shared)
    requires Held(s, capacity, s.deps.Keys, s.deps[k := prior]) && k !in s.deps
    requires s' == Enter(s, capacity, ttl, t, ExpireUnlink(k, prior))
    ensures Midway(s', capacity, PcOf(s', t))
  {
    UnlinkedHeld(s, capacity, s.deps.Keys, s.deps[k := prior], k, prior);
    assert s.deps[k := prior] - {k} == s.deps;
    SameHeld(s.(index := Unlink(s.index, k, prior)), s', capacity, s.deps.Keys, s.deps);
  }

  lemma InsertStartMidway(s: Shared, capacity: nat, ttl: nat, t: nat, k: Key, r: string, ds: set<I64>, s': Shared)
    requires Held(s, capacity, s.deps.Keys, s.deps) && s' == Enter(s, capacity, ttl, t, InsertStart(k, r, ds))
    ensures Midway(s', capacity, PcOf(s', t))
  {
    SameHeld(s, s', capacity, s.deps.Keys, s.deps);
    if k !in s.deps {
      assert s.deps - {k} == s.deps;
    }
  }

  lemma InsertUnlinkMidway(s: Shared, capacity: nat, ttl: nat, t: nat, k: Key, r: string, ds: set<I64>, prior: set<I64>,
                           s': Shared)
    requires Held(s, capacity, s.deps.Keys, s.deps) && k in s.deps && s.deps[k] == prior
    requires s' == Enter(s, capacity, ttl, t, InsertUnlink(k, r, ds, prior))
    ensures Midway(s', capacity, PcOf(s', t))
  {
    UnlinkedHeld(s, capacity, s.deps.Keys, s.deps, k, prior);
    SameHeld(s.(index := Unlink(s.index, k, prior)), s', capacity, s.deps.Keys, s.deps - {k});
  }

  lemma PutMidway(s: Shared, capacity: nat, t: nat, k: Key, r: string, ds: set<I64>, s': Shared)
    requires Held(s, capacity, s.deps.Keys, s.deps - {k}) && capacity > 0
    requires s' == PutSection(s, capacity, t, k, r, ds)
    ensures Midway(s', capacity, PcOf(s', t))
  {
    if |s.recency| == capacity && k !in s.entries {
      PutEvictsMidway(s, capacity, t, k, r, ds, s');
    } else {
      PutFitsMidway(s, capacity, t, k, r, ds, s');
    }
  }

  lemma PutEvictsMidway(s: Shared, capacity: nat, t: nat, k: Key, r: string, ds: set<I64>, s': Shared)
    requires Held(s, capacity, s.deps.Keys, s.deps - {k}) && capacity > 0
    requires |s.recency| == capacity && k !in s.entries && s' == PutSection(s, capacity, t, k, r, ds)
    ensures Midway(s', capacity, PcOf(s', t))
  {
    var last := s.recency[capacity - 1];
    EvictedHeld(s, capacity, s.deps.Keys, s.deps - {k}, k, r, last);
    PutLeads(Inserted(Removed(s, {last}), k, r), s', capacity, t, EvictDeps(last, k, ds));
  }

  /** The thread goes on to its next section. */
  lemma PutLeads(s: Shared, s': Shared, capacity: nat, t: nat, next: Pc)
    requires s' == At(s, t, next) && LocalsFit(s.deps, next) && !next.ClearIndex?
    requires Held(s, capacity, CachedKeys(s.deps, next), IndexedDeps(s.deps, next))
    ensures Midway(s', capacity, PcOf(s', t))
  {
    SameHeld(s, s', capacity, CachedKeys(s.deps, next), IndexedDeps(s.deps, next));
  }

  lemma PutFits(s: Shared, capacity: nat, t: nat, k: Key, r: string, ds: set<I64>)
    requires |s.recency| < capacity || k in s.entries
    ensures PutSection(s, capacity, t, k, r, ds) == At(Inserted(s, k, r), t, AddDeps(k, ds))
  {
  }

  lemma PutFitsMidway(s: Shared, capacity: nat, t: nat, k: Key, r: string, ds: set<I64>, s': Shared)
    requires Held(s, capacity, s.deps.Keys, s.deps - {k}) && capacity > 0
    requires (|s.recency| < capacity || k in s.entries) && s' == PutSection(s, capacity, t, k, r, ds)
    ensures Midway(s', capacity, PcOf(s', t))
  {
    PutFits(s, capacity, t, k, r, ds);
    InsertedHeld(s, capacity, s.deps.Keys, s.deps - {k}, k, r);
    PutLeads(Inserted(s, k, r), s', capacity, t, AddDeps(k, ds));
  }

  lemma EvictDepsMidway(s: Shared, capacity: nat, ttl: nat, t: nat, v: Key, k: Key, ds: set<I64>, s': Shared)
    requires Held(s, capacity, s.deps.Keys - {v} + {k}, s.deps - {k}) && v in s.deps && v != k && k !in s.deps
    requires s' == Enter(s, capacity, ttl, t, EvictDeps(v, k, ds))
    ensures Midway(s', capacity, PcOf(s', t))
  {
    assert (s'.deps - {k})[v := s.deps[v]] == s.deps - {k};
    SameHeld(s, s', capacity, s.deps.Keys - {v} + {k}, s.deps - {k});
  }

  lemma EvictUnlinkMidway(s: Shared, capacity: nat, ttl: nat, t: nat, v: Key, prior: set<I64>, k: Key, ds: set<I64>,
                          s': Shared)
    requires Held(s, capacity, s.deps.Keys + {k}, (s.deps - {k})[v := prior]) && v !in s.deps && v != k
    requires s' == Enter(s, capacity, ttl, t, EvictUnlink(v, prior, k, ds))
    ensures Midway(s', capacity, PcOf(s', t))
  {
    var indexed := (s.deps - {k})[v := prior];
    UnlinkedHeld(s, capacity, s.deps.Keys + {k}, indexed, v, prior);
    assert indexed - {v} == s.deps - {k};
    SameHeld(s.(index := Unlink(s.index, v, prior)), s', capacity, s.deps.Keys + {k}, s.deps - {k});
  }

  lemma AddDepsMidway(s: Shared, capacity: nat, ttl: nat, t: nat, k: Key, ds: set<I64>, s': Shared)
    requires Held(s, capacity, s.deps.Keys + {k}, s.deps - {k}) && s' == Enter(s, capacity, ttl, t, AddDeps(k, ds))
    ensures Midway(s', capacity, PcOf(s', t))
  {
    assert s'.deps - {k} == s.deps - {k};
    SameHeld(s, s', capacity, s.deps.Keys + {k}, s.deps - {k});
  }

  lemma AddLinksMidway(s: Shared, capacity: nat, ttl: nat, t: nat, k: Key, ds: set<I64>, s': Shared)
    requires Held(s, capacity, s.deps.Keys, s.deps - {k}) && k in s.deps && s.deps[k] == ds
    requires s' == Enter(s, capacity, ttl, t, AddLinks(k, ds))
    ensures Midway(s', capacity, PcOf(s', t))
  {
    LinkedHeld(s, capacity, s.deps.Keys, s.deps, k, ds);
    SameHeld(s.(index := Link(s.index, k, ds)), s', capacity, s.deps.Keys, s.deps);
  }

  lemma CollectMidway(s: Shared, capacity: nat, ttl: nat, t: nat, ids: seq<I64>, s': Shared)
    requires Held(s, capacity, s.deps.Keys, s.deps) && s' == Enter(s, capacity, ttl, t, Collect(ids))
    ensures Midway(s', capacity, PcOf(s', t))
  {
    SameHeld(s, s', capacity, s.deps.Keys, s.deps);
  }

  lemma PopMidway(s: Shared, capacity: nat, ttl: nat, t: nat, keys: set<Key>, s': Shared)
    requires Held(s, capacity, s.deps.Keys, s.deps) && s' == Enter(s, capacity, ttl, t, PopKeys(keys))
    ensures Midway(s', capacity, PcOf(s', t))
  {
    RemovedHeld(s, capacity, s.deps.Keys, s.deps, keys);
    SameHeld(Removed(s, keys), s', capacity, s.deps.Keys - keys, s.deps);
  }

  lemma UnlinkKeysMidway(s: Shared, capacity: nat, ttl: nat, t: nat, keys: set<Key>, s': Shared)
    requires Held(s, capacity, s.deps.Keys - keys, s.deps) && s' == Enter(s, capacity, ttl, t, UnlinkKeys(keys))
    ensures Midway(s', capacity, PcOf(s', t))
  {
    UnlinkedManyHeld(s, capacity, s.deps.Keys - keys, s.deps, keys);
    SameHeld(s.(index := UnlinkMany(s.index, s.deps, keys)), s', capacity, s.deps.Keys - keys, s.deps - keys);
  }

  lemma ClearCacheMidway(s: Shared, capacity: nat, ttl: nat, t: nat, s': Shared)
    requires Held(s, capacity, s.deps.Keys, s.deps) && s' == Enter(s, capacity, ttl, t, ClearCache)
    ensures Midway(s', capacity, PcOf(s', t))
  {
    RemovedHeld(s, capacity, s.deps.Keys, s.deps, s.entries.Keys);
    assert s.deps.Keys - s.entries.Keys == {};
    SameHeld(Removed(s, s.entries.Keys), s', capacity, {}, s.deps);
  }

  lemma ClearDepsMidway(s: Shared, capacity: nat, ttl: nat, t: nat, s': Shared)
    requires Held(s, capacity, {}, s.deps) && s' == Enter(s, capacity, ttl, t, ClearDeps)
    ensures Midway(s', capacity, PcOf(s', t))
  {
    OrderedLength(s.recency, s.entries);
  }

  lemma SectionMidway(s: Shared, capacity: nat, ttl: nat, t: nat, pc: Pc, s': Shared)
    requires Midway(s, capacity, pc) && capacity > 0 && PcOf(s, t) == pc && s' == Enter(s, capacity, ttl, t, pc)
    ensures Midway(s', capacity, PcOf(s', t))
  {
    match pc
    case Idle =>
    case Getting(k) => GetMidway(s, capacity, ttl, t, k, s');
    case ExpireDeps(k) => ExpireMidway(s, capacity, ttl, t, k, s');
    case ExpireUnlink(k, prior) => ExpireUnlinkMidway(s, capacity, ttl, t, k, prior, s');
    case InsertStart(k, r, ds) => InsertStartMidway(s, capacity, ttl, t, k, r, ds, s');
    case InsertUnlink(k, r, ds, prior) => InsertUnlinkMidway(s, capacity, ttl, t, k, r, ds, prior, s');
    case InsertPut(k, r, ds) => PutMidway(s, capacity, t, k, r, ds, s');
    case EvictDeps(v, k, ds) => EvictDepsMidway(s, capacity, ttl, t, v, k, ds, s');
    case EvictUnlink(v, prior, k, ds) => EvictUnlinkMidway(s, capacity, ttl, t, v, prior, k, ds, s');
    case AddDeps(k, ds) => AddDepsMidway(s, capacity, ttl, t, k, ds, s');
    case AddLinks(k, ds) => AddLinksMidway(s, capacity, ttl, t, k, ds, s');
    case Collect(ids) => CollectMidway(s, capacity, ttl, t, ids, s');
    case PopKeys(keys) => PopMidway(s, capacity, ttl, t, keys, s');
    case UnlinkKeys(keys) => UnlinkKeysMidway(s, capacity, ttl, t, keys, s');
    case ClearCache => ClearCacheMidway(s, capacity, ttl, t, s');
    case ClearDeps => ClearDepsMidway(s, capacity, ttl, t, s');
    case ClearIndex =>
  }

  // ---- Runs ----

  ghost predicate AllIdle(s: Shared) {
    forall t :: PcOf(s, t).Idle?
  }

  /** Thread `t` is inside its operation, all others are idle. */
  ghost predicate OnlyActive(s: Shared, capacity: nat, t: nat) {
    (forall u :: u != t ==> PcOf(s, u).Idle?) && Midway(s, capacity, PcOf(s, t))
  }

  ghost predicate OneAtATime(s: Shared, capacity: nat) {
    exists t :: OnlyActive(s, capacity, t)
  }

  /** Every call finds all threads idle. */
  ghost predicate SerialCalls(s: Shared, capacity: nat, ttl: nat, steps: seq<Step>)
    decreases |steps|
  {
    steps != [] ==>
      (steps[0].Call? ==> AllIdle(s)) && SerialCalls(Apply(s, capacity, ttl, steps[0]), capacity, ttl, steps[1..])
  }

  /** A section moves its own thread only. */
  lemma EnterOwnPc(s: Shared, capacity: nat, ttl: nat, t: nat, u: nat, pc: Pc)
    requires u != t
    ensures PcOf(Enter(s, capacity, ttl, t, pc), u) == PcOf(s, u)
  {
    if CachesIn(pc) {
      CachingOwnPc(s, capacity, ttl, t, u, pc);
    } else {
      QuietOwnPc(s, capacity, ttl, t, u, pc);
    }
  }

  lemma CachingOwnPc(s: Shared, capacity: nat, ttl: nat, t: nat, u: nat, pc: Pc)
    requires u != t && CachesIn(pc)
    ensures PcOf(Enter(s, capacity, ttl, t, pc), u) == PcOf(s, u)
  {
  }

  lemma QuietOwnPc(s: Shared, capacity: nat, ttl: nat, t: nat, u: nat, pc: Pc)
    requires u != t && !CachesIn(pc)
    ensures PcOf(Enter(s, capacity, ttl, t, pc), u) == PcOf(s, u)
  {
  }

  lemma SameMidway(s: Shared, s': Shared, capacity: nat, pc: Pc)
    requires Midway(s, capacity, pc)
    requires s'.entries == s.entries && s'.recency == s.recency && s'.deps == s.deps && s'.index == s.index
    ensures Midway(s', capacity, pc)
  {
    if !pc.ClearIndex? {
      SameHeld(s, s', capacity, CachedKeys(s.deps, pc), IndexedDeps(s.deps, pc));
    }
  }

  lemma TickOneAtATime(s: Shared, capacity: nat, t: nat, clock: nat)
    requires OnlyActive(s, capacity, t)
    ensures OnlyActive(s.(clock := clock), capacity, t)
  {
    SameMidway(s, s.(clock := clock), capacity, PcOf(s, t));
    assert forall u :: PcOf(s.(clock := clock), u) == PcOf(s, u);
  }

  /** A call finds the maps in agreement and does not touch them. */
  lemma CallOneAtATime(s: Shared, capacity: nat, t: nat, u: nat, pc: Pc)
    requires OnlyActive(s, capacity, t) && AllIdle(s) && IsEntry(pc)
    ensures OnlyActive(At(s, u, pc), capacity, u)
  {
    assert PcOf(s, t).Idle?;
    SameMidway(s, At(s, u, pc), capacity, Idle);
    assert forall v :: v != u ==> PcOf(At(s, u, pc), v) == PcOf(s, v);
  }

  lemma SectionOneAtATime(s: Shared, capacity: nat, ttl: nat, t: nat)
    requires OnlyActive(s, capacity, t) && capacity > 0
    ensures OnlyActive(Enter(s, capacity, ttl, t, PcOf(s, t)), capacity, t)
  {
    var s' := Enter(s, capacity, ttl, t, PcOf(s, t));
    SectionMidway(s, capacity, ttl, t, PcOf(s, t), s');
    forall v | v != t ensures PcOf(s', v).Idle? {
      EnterOwnPc(s, capacity, ttl, t, v, PcOf(s, t));
    }
  }

  lemma StepOneAtATime(s: Shared, capacity: nat, ttl: nat, step: Step)
    requires capacity > 0 && OneAtATime(s, capacity) && (step.Call? ==> AllIdle(s))
    ensures OneAtATime(Apply(s, capacity, ttl, step), capacity)
  {
    var t :| OnlyActive(s, capacity, t);
    match step
    case Tick(n) => TickOneAtATime(s, capacity, t, s.clock + n);
    case Call(u, pc) =>
      if IsEntry(pc) {
        CallOneAtATime(s, capacity, t, u, pc);
      }
    case Section(u) =>
      if u == t {
        SectionOneAtATime(s, capacity, ttl, t);
      }
  }

  lemma {:induction false} RunOneAtATime(s: Shared, capacity: nat, ttl: nat, steps: seq<Step>)
    requires capacity > 0 && OneAtATime(s, capacity) && SerialCalls(s, capacity, ttl, steps)
    ensures OneAtATime(After(s, capacity, ttl, steps), capacity)
    decreases |steps|
  {
    if steps != [] {
      StepOneAtATime(s, capacity, ttl, steps[0]);
      RunOneAtATime(Apply(s, capacity, ttl, steps[0]), capacity, ttl, steps[1..]);
    }
  }

  /**
   * If operations do not overlap, the three maps agree whenever no operation is under way: the critical sections of
   * one operation together keep the invariant of the object.
   */
  lemma SerialRunsConsistent(capacity: nat, ttl: nat, steps: seq<Step>)
    requires capacity > 0 && SerialCalls(START, capacity, ttl, steps) && AllIdle(After(START, capacity, ttl, steps))
    ensures var s := After(START, capacity, ttl, steps);
            Consistent(Plain(s.entries, s.recency, s.deps), s.index, capacity)
  {
    assert OnlyActive(START, capacity, 0);
    RunOneAtATime(START, capacity, ttl, steps);
    var s := After(START, capacity, ttl, steps);
    var t :| OnlyActive(s, capacity, t);
    IdleIsConsistent(s, capacity);
  }
}
