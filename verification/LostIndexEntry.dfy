/** Two threads can leave a cached entry outside the reverse index (mentatd/src/cache.rs). */
module LostIndexEntry {
  import opened Prelude
  import opened PlainCache
  import opened QueryCaching
  import opened CacheLocks

  lemma Unfold(s: Shared, capacity: nat, ttl: nat, step: Step, rest: seq<Step>, next: Shared)
    requires next == Apply(s, capacity, ttl, step)
    ensures After(s, capacity, ttl, [step] + rest) == After(next, capacity, ttl, rest)
  {
    assert ([step] + rest)[1..] == rest;
  }

  lemma {:induction false} Continue(s: Shared, capacity: nat, ttl: nat, a: seq<Step>, b: seq<Step>)
    ensures After(s, capacity, ttl, a + b) == After(After(s, capacity, ttl, a), capacity, ttl, b)
    decreases |a|
  {
    if a == [] {
      assert a + b == b;
    } else {
      assert (a + b)[1..] == a[1..] + b;
      Continue(Apply(s, capacity, ttl, a[0]), capacity, ttl, a[1..], b);
    }
  }

  lemma ThreeSteps(s0: Shared, a: Step, s1: Shared, b: Step, s2: Shared, c: Step, s3: Shared, capacity: nat, ttl: nat)
    requires s1 == Apply(s0, capacity, ttl, a) && s2 == Apply(s1, capacity, ttl, b) && s3 == Apply(s2, capacity, ttl, c)
    ensures After(s0, capacity, ttl, [a, b, c]) == s3
  {
    Unfold(s2, capacity, ttl, c, [], s3);
    Unfold(s1, capacity, ttl, b, [c], s2);
    Unfold(s0, capacity, ttl, a, [b, c], s1);
    assert [c] + [] == [c] && [b] + [c] == [b, c] && [a] + [b, c] == [a, b, c];
  }

  /** Only `k` is cached; thread 0 stands at `mine` and thread 1 at `other`. */
  function Holding(k: Key, r: string, deps: map<Key, set<I64>>, index: Index, at: nat, clock: nat, mine: Pc, other: Pc,
                   events: seq<Event>): Shared {
    Shared(map[k := CacheEntry(r, at)], [k], deps, index, clock, map[0 := mine, 1 := other], events, [])
  }

  /** Nothing is cached. */
  function Vacant(deps: map<Key, set<I64>>, index: Index, clock: nat, mine: Pc, other: Pc, events: seq<Event>): Shared {
    Shared(map[], [], deps, index, clock, map[0 := mine, 1 := other], events, [])
  }

  /** The index when only `k` is linked. */
  function Links(k: Key, ds: set<I64>): Index {
    Link(map[], k, ds)
  }

  lemma UnlinkLinks(k: Key, ds: set<I64>)
    ensures Unlink(Links(k, ds), k, ds) == map[]
  {
    var l := Links(k, ds);
    assert forall e :: e in l ==> e in Homes(ds) && l[e] == {k};
  }

  lemma PutStep(k: Key, r: string, ds: set<I64>, deps: map<Key, set<I64>>, clock: nat, other: Pc, events: seq<Event>,
                capacity: nat, ttl: nat)
    requires capacity > 0
    ensures Apply(Vacant(deps, map[], clock, InsertPut(k, r, ds), other, events), capacity, ttl, Section(0))
         == Holding(k, r, deps, map[], clock, clock, AddDeps(k, ds), other, events + [Put(k, r, clock)])
  {
    assert Touched([], k) == [k];
  }

  lemma AddDepsStep(k: Key, r: string, ds: set<I64>, deps: map<Key, set<I64>>, clock: nat, other: Pc,
                    events: seq<Event>, capacity: nat, ttl: nat)
    requires deps - {k} == map[]
    ensures Apply(Holding(k, r, deps, map[], clock, clock, AddDeps(k, ds), other, events), capacity, ttl, Section(0))
         == Holding(k, r, map[k := ds], map[], clock, clock, AddLinks(k, ds), other, events)
  {
    OneDependency(deps, k, ds);
  }

  lemma OneDependency(deps: map<Key, set<I64>>, k: Key, ds: set<I64>)
    requires deps - {k} == map[]
    ensures deps[k := ds] == map[k := ds]
  {
    assert forall j :: j in deps ==> j == k || j in deps - {k};
  }

  lemma AddLinksStep(k: Key, r: string, ds: set<I64>, clock: nat, other: Pc, events: seq<Event>, capacity: nat,
                     ttl: nat)
    ensures Apply(Holding(k, r, map[k := ds], map[], clock, clock, AddLinks(k, ds), other, events), capacity, ttl,
                  Section(0))
         == Holding(k, r, map[k := ds], Links(k, ds), clock, clock, Idle, other, events)
  {
  }

  /** From the put on, thread 0 finishes its insertion. */
  lemma PutFinishes(k: Key, r: string, ds: set<I64>, deps: map<Key, set<I64>>, clock: nat, other: Pc,
                    events: seq<Event>, capacity: nat, ttl: nat)
    requires capacity > 0 && deps - {k} == map[]
    ensures After(Vacant(deps, map[], clock, InsertPut(k, r, ds), other, events), capacity, ttl,
                  [Section(0), Section(0), Section(0)])
         == Holding(k, r, map[k := ds], Links(k, ds), clock, clock, Idle, other, events + [Put(k, r, clock)])
  {
    var e := events + [Put(k, r, clock)];
    PutStep(k, r, ds, deps, clock, other, events, capacity, ttl);
    AddDepsStep(k, r, ds, deps, clock, other, e, capacity, ttl);
    AddLinksStep(k, r, ds, clock, other, e, capacity, ttl);
    ThreeSteps(Vacant(deps, map[], clock, InsertPut(k, r, ds), other, events),
               Section(0), Holding(k, r, deps, map[], clock, clock, AddDeps(k, ds), other, e),
               Section(0), Holding(k, r, map[k := ds], map[], clock, clock, AddLinks(k, ds), other, e),
               Section(0), Holding(k, r, map[k := ds], Links(k, ds), clock, clock, Idle, other, e), capacity, ttl);
  }

  // ---- The interleaving ----

  /** Both threads have looked up `k` in vain. */
  const IDLE := Shared(map[], [], map[], map[], 0, map[0 := Idle, 1 := Idle], [], [])

  lemma BothMiss(k: Key, capacity: nat, ttl: nat)
    ensures After(START, capacity, ttl, [Call(0, Getting(k)), Section(0), Call(1, Getting(k))] + [Section(1)]) == IDLE
  {
    var s1 := START.(threads := map[0 := Getting(k)]);
    var s2 := START.(threads := map[0 := Idle]);
    var s3 := START.(threads := map[0 := Idle, 1 := Getting(k)]);
    assert Apply(START, capacity, ttl, Call(0, Getting(k))) == s1;
    assert Apply(s1, capacity, ttl, Section(0)) == s2;
    assert Apply(s2, capacity, ttl, Call(1, Getting(k))) == s3;
    assert Apply(s3, capacity, ttl, Section(1)) == IDLE;
    ThreeSteps(START, Call(0, Getting(k)), s1, Section(0), s2, Call(1, Getting(k)), s3, capacity, ttl);
    Continue(START, capacity, ttl, [Call(0, Getting(k)), Section(0), Call(1, Getting(k))], [Section(1)]);
    Unfold(s3, capacity, ttl, Section(1), [], IDLE);
    assert [Section(1)] + [] == [Section(1)];
  }

  /** Thread 0 begins to insert `k`. */
  lemma InsertBegins(k: Key, r1: string, d1: set<I64>, capacity: nat, ttl: nat)
    ensures After(IDLE, capacity, ttl, [Call(0, InsertStart(k, r1, d1)), Section(0)])
         == Vacant(map[], map[], 0, InsertPut(k, r1, d1), Idle, [])
  {
    var s1 := Vacant(map[], map[], 0, InsertStart(k, r1, d1), Idle, []);
    var s2 := Vacant(map[], map[], 0, InsertPut(k, r1, d1), Idle, []);
    assert Apply(IDLE, capacity, ttl, Call(0, InsertStart(k, r1, d1))) == s1;
    assert Apply(s1, capacity, ttl, Section(0)) == s2;
    Unfold(s1, capacity, ttl, Section(0), [], s2);
    Unfold(IDLE, capacity, ttl, Call(0, InsertStart(k, r1, d1)), [Section(0)], s1);
    assert [Section(0)] + [] == [Section(0)];
    assert [Call(0, InsertStart(k, r1, d1))] + [Section(0)] == [Call(0, InsertStart(k, r1, d1)), Section(0)];
  }

  /** Thread 1 finds the entry expired and drops it, then stops before the dependencies. */
  lemma GetExpires(k: Key, r1: string, d1: set<I64>, events: seq<Event>, capacity: nat, ttl: nat)
    ensures After(Holding(k, r1, map[k := d1], Links(k, d1), 0, 0, Idle, Idle, events), capacity, ttl,
                  [Tick(ttl + 1), Call(1, Getting(k)), Section(1)])
         == Vacant(map[k := d1], Links(k, d1), ttl + 1, Idle, ExpireDeps(k), events + [Gone({k})])
  {
    var d, x := map[k := d1], Links(k, d1);
    var s0 := Holding(k, r1, d, x, 0, 0, Idle, Idle, events);
    var s1 := Holding(k, r1, d, x, 0, ttl + 1, Idle, Idle, events);
    var s2 := Holding(k, r1, d, x, 0, ttl + 1, Idle, Getting(k), events);
    var s3 := Vacant(d, x, ttl + 1, Idle, ExpireDeps(k), events + [Gone({k})]);
    assert Apply(s1, capacity, ttl, Call(1, Getting(k))) == s2;
    ExpiredSection(k, r1, d, x, events, capacity, ttl);
    ThreeSteps(s0, Tick(ttl + 1), s1, Call(1, Getting(k)), s2, Section(1), s3, capacity, ttl);
  }

  lemma ExpiredSection(k: Key, r1: string, d: map<Key, set<I64>>, x: Index, events: seq<Event>, capacity: nat, ttl: nat)
    ensures Apply(Holding(k, r1, d, x, 0, ttl + 1, Idle, Getting(k), events), capacity, ttl, Section(1))
         == Vacant(d, x, ttl + 1, Idle, ExpireDeps(k), events + [Gone({k})])
  {
    assert Survivors([k], {k}) == [];
    assert map[k := CacheEntry(r1, 0)] - {k} == map[];
  }

  lemma StartStep(k: Key, d1: set<I64>, r2: string, d2: set<I64>, d: map<Key, set<I64>>, x: Index, clock: nat,
                  events: seq<Event>, capacity: nat, ttl: nat)
    requires d == map[k := d1]
    ensures Apply(Vacant(d, x, clock, InsertStart(k, r2, d2), ExpireDeps(k), events), capacity, ttl, Section(0))
         == Vacant(d, x, clock, InsertUnlink(k, r2, d2, d1), ExpireDeps(k), events)
  {
    assert d[k] == d1;
  }

  lemma UnlinkStep(k: Key, d1: set<I64>, r2: string, d2: set<I64>, d: map<Key, set<I64>>, clock: nat,
                   events: seq<Event>, capacity: nat, ttl: nat)
    ensures Apply(Vacant(d, Links(k, d1), clock, InsertUnlink(k, r2, d2, d1), ExpireDeps(k), events), capacity,
                  ttl, Section(0))
         == Vacant(d, map[], clock, InsertPut(k, r2, d2), ExpireDeps(k), events)
  {
    UnlinkLinks(k, d1);
  }

  /** Thread 0 inserts `k` anew, up to the put. */
  lemma InsertAgain(k: Key, d1: set<I64>, r2: string, d2: set<I64>, clock: nat, events: seq<Event>, capacity: nat,
                    ttl: nat)
    ensures After(Vacant(map[k := d1], Links(k, d1), clock, Idle, ExpireDeps(k), events), capacity, ttl,
                  [Call(0, InsertStart(k, r2, d2)), Section(0), Section(0)])
         == Vacant(map[k := d1], map[], clock, InsertPut(k, r2, d2), ExpireDeps(k), events)
  {
    var d, x := map[k := d1], Links(k, d1);
    var call := Call(0, InsertStart(k, r2, d2));
    var s0 := Vacant(d, x, clock, Idle, ExpireDeps(k), events);
    var s1 := Vacant(d, x, clock, InsertStart(k, r2, d2), ExpireDeps(k), events);
    var s2 := Vacant(d, x, clock, InsertUnlink(k, r2, d2, d1), ExpireDeps(k), events);
    var s3 := Vacant(d, map[], clock, InsertPut(k, r2, d2), ExpireDeps(k), events);
    assert Apply(s0, capacity, ttl, call) == s1;
    StartStep(k, d1, r2, d2, d, x, clock, events, capacity, ttl);
    UnlinkStep(k, d1, r2, d2, d, clock, events, capacity, ttl);
    ThreeSteps(s0, call, s1, Section(0), s2, Section(0), s3, capacity, ttl);
  }

  lemma ExpireDepsStep(k: Key, r2: string, d2: set<I64>, clock: nat, events: seq<Event>, capacity: nat, ttl: nat)
    ensures Apply(Holding(k, r2, map[k := d2], Links(k, d2), clock, clock, Idle, ExpireDeps(k), events),
                  capacity, ttl, Section(1))
         == Holding(k, r2, map[], Links(k, d2), clock, clock, Idle, ExpireUnlink(k, d2), events)
  {
    assert map[k := d2] - {k} == map[];
  }

  lemma ExpireUnlinkStep(k: Key, r2: string, d2: set<I64>, clock: nat, events: seq<Event>, capacity: nat, ttl: nat)
    ensures Apply(Holding(k, r2, map[], Links(k, d2), clock, clock, Idle, ExpireUnlink(k, d2), events),
                  capacity, ttl, Section(1))
         == Holding(k, r2, map[], map[], clock, clock, Idle, Idle, events)
  {
    UnlinkLinks(k, d2);
  }

  /** Thread 1 removes the dependencies and links of what it dropped, which are by now those of the new entry. */
  lemma GetFinishes(k: Key, r2: string, d2: set<I64>, clock: nat, events: seq<Event>, capacity: nat, ttl: nat)
    ensures After(Holding(k, r2, map[k := d2], Links(k, d2), clock, clock, Idle, ExpireDeps(k), events),
                  capacity, ttl,
                  [Section(1), Section(1)])
         == Holding(k, r2, map[], map[], clock, clock, Idle, Idle, events)
  {
    var x := Links(k, d2);
    var s0 := Holding(k, r2, map[k := d2], x, clock, clock, Idle, ExpireDeps(k), events);
    var s1 := Holding(k, r2, map[], x, clock, clock, Idle, ExpireUnlink(k, d2), events);
    var s2 := Holding(k, r2, map[], map[], clock, clock, Idle, Idle, events);
    ExpireDepsStep(k, r2, d2, clock, events, capacity, ttl);
    ExpireUnlinkStep(k, r2, d2, clock, events, capacity, ttl);
    Unfold(s1, capacity, ttl, Section(1), [], s2);
    Unfold(s0, capacity, ttl, Section(1), [Section(1)], s1);
    assert [Section(1)] + [] == [Section(1)] && [Section(1)] + [Section(1)] == [Section(1), Section(1)];
  }

  /**
   * Whatever is inserted, a lookup that finds an entry expired and an insertion of the same key can interleave so
   * that, with both finished, the new entry has no dependencies and no bucket: no targeted invalidation reaches it.
   */
  lemma EntryLeavesIndex(k: Key, r1: string, d1: set<I64>, r2: string, d2: set<I64>, capacity: nat, ttl: nat)
    returns (steps: seq<Step>)
    requires capacity > 0
    ensures var s := After(START, capacity, ttl, steps);
            && s.threads == map[0 := Idle, 1 := Idle]
            && s.entries == map[k := CacheEntry(r2, ttl + 1)] && s.deps == map[]
            && forall ids: seq<I64> :: k !in Collected(s.index, ids)
  {
    var put := [Section(0), Section(0), Section(0)];
    var a, b := [Call(0, InsertStart(k, r1, d1)), Section(0)], [Tick(ttl + 1), Call(1, Getting(k)), Section(1)];
    var c, d := [Call(0, InsertStart(k, r2, d2)), Section(0), Section(0)], [Section(1), Section(1)];
    var rest := a + (put + (b + (c + (put + d))));
    var miss := [Call(0, Getting(k)), Section(0), Call(1, Getting(k))] + [Section(1)];
    steps := miss + rest;
    BothMiss(k, capacity, ttl);
    Continue(START, capacity, ttl, miss, rest);
    var e1 := [] + [Put(k, r1, 0)];
    var e2 := e1 + [Gone({k})];
    var e3 := e2 + [Put(k, r2, ttl + 1)];
    InsertBegins(k, r1, d1, capacity, ttl);
    PutFinishes(k, r1, d1, map[], 0, Idle, [], capacity, ttl);
    GetExpires(k, r1, d1, e1, capacity, ttl);
    InsertAgain(k, d1, r2, d2, ttl + 1, e2, capacity, ttl);
    PutFinishes(k, r2, d2, map[k := d1], ttl + 1, ExpireDeps(k), e2, capacity, ttl);
    GetFinishes(k, r2, d2, ttl + 1, e3, capacity, ttl);
    Continue(IDLE, capacity, ttl, a, put + (b + (c + (put + d))));
    Continue(Vacant(map[], map[], 0, InsertPut(k, r1, d1), Idle, []), capacity, ttl, put, b + (c + (put + d)));
    Continue(Holding(k, r1, map[k := d1], Links(k, d1), 0, 0, Idle, Idle, e1), capacity, ttl, b, c + (put + d));
    Continue(Vacant(map[k := d1], Links(k, d1), ttl + 1, Idle, ExpireDeps(k), e2), capacity, ttl, c, put + d);
    Continue(Vacant(map[k := d1], map[], ttl + 1, InsertPut(k, r2, d2), ExpireDeps(k), e2), capacity, ttl, put, d);
  }
}
