/**
 * Critical sections that do not interleave give the answers and the states of the atomic operations
 * (mentatd/src/cache.rs).
 */
module SerialAnswers {
  import opened Prelude
  import opened PlainCache
  import opened CacheLocks
  import opened SerialCache
  import Recency

  // ---- What a state in the middle of an operation stands for ----

  /** The dependencies once the operation at `pc` has done with them. */
  function SettledDeps(deps: map<Key, set<I64>>, pc: Pc): map<Key, set<I64>> {
    match pc
    case ExpireDeps(k) => deps - {k}
    case EvictDeps(v, k, ds) => (deps - {v})[k := ds]
    case EvictUnlink(_, _, k, ds) => deps[k := ds]
    case AddDeps(k, ds) => deps[k := ds]
    case UnlinkKeys(keys) => deps - keys
    case ClearDeps => map[]
    case _ => deps
  }

  /** The plain cache that the state stands for: an operation counts from its deciding section on. */
  function Meant(s: Shared, pc: Pc): Plain {
    var c := Plain(s.entries, s.recency, SettledDeps(s.deps, pc));
    if pc.PopKeys? then Without(c, pc.keys) else c
  }

  /** The operation that the section decides, if it does. */
  function Decided(clock: nat, pc: Pc): seq<Recency.Op> {
    match pc
    case Getting(k) => [Recency.Look(k, clock)]
    case InsertPut(k, r, ds) => [Recency.Insert(k, CacheEntry(r, clock), ds)]
    case Collect(ids) => [Recency.Drop(ids)]
    case ClearCache => [Recency.Clear]
    case _ => []
  }

  ghost function Performed(c: Plain, capacity: nat, ttl: nat, ops: seq<Recency.Op>): Plain {
    if ops == [] then c else Recency.After(c, capacity, ttl, ops[0])
  }

  // ---- Sections ----

  lemma GetMeant(s: Shared, ttl: nat, t: nat, k: Key, s': Shared)
    requires s' == GetSection(s, ttl, t, k)
    ensures Meant(s', PcOf(s', t)) == AfterGet(Plain(s.entries, s.recency, s.deps), k, s.clock, ttl)
  {
    if k in s.entries && Elapsed(s.clock, s.entries[k].insertedAt) > ttl {
      assert PcOf(s', t) == ExpireDeps(k);
    } else {
      assert PcOf(s', t) == Idle;
    }
  }

  lemma GetGiven(s: Shared, ttl: nat, t: nat, k: Key, s': Shared)
    requires s' == GetSection(s, ttl, t, k)
    ensures var a := Answer(Plain(s.entries, s.recency, s.deps), k, s.clock, ttl);
            Given(s'.hits) == Given(s.hits) + if a.Some? then [Told(k, a.value, s.clock)] else []
  {
  }

  lemma LookAnswers(c: Plain, capacity: nat, ttl: nat, k: Key, clock: nat)
    ensures var a := Answer(c, k, clock, ttl);
            Answers(c, capacity, ttl, [Recency.Look(k, clock)]) == if a.Some? then [Told(k, a.value, clock)] else []
  {
  }

  lemma PutMeant(s: Shared, capacity: nat, t: nat, k: Key, r: string, ds: set<I64>, s': Shared)
    requires s' == PutSection(s, capacity, t, k, r, ds)
    ensures Meant(s', PcOf(s', t))
         == AfterInsert(Plain(s.entries, s.recency, s.deps), capacity, k, CacheEntry(r, s.clock), ds)
    ensures s'.hits == s.hits
  {
    if |s.recency| == capacity && k !in s.entries && s.recency != [] {
      PutEvictsMeant(s, capacity, t, k, r, ds, s');
    } else {
      PutFitsMeant(s, capacity, t, k, r, ds, s');
    }
  }

  lemma PutEvictsMeant(s: Shared, capacity: nat, t: nat, k: Key, r: string, ds: set<I64>, s': Shared)
    requires |s.recency| == capacity && k !in s.entries && s.recency != []
    requires s' == PutSection(s, capacity, t, k, r, ds)
    ensures Meant(s', PcOf(s', t))
         == AfterInsert(Plain(s.entries, s.recency, s.deps), capacity, k, CacheEntry(r, s.clock), ds)
    ensures s'.hits == s.hits
  {
    var last := s.recency[|s.recency| - 1];
    assert PcOf(s', t) == EvictDeps(last, k, ds);
  }

  lemma PutFitsMeant(s: Shared, capacity: nat, t: nat, k: Key, r: string, ds: set<I64>, s': Shared)
    requires !(|s.recency| == capacity && k !in s.entries && s.recency != [])
    requires s' == PutSection(s, capacity, t, k, r, ds)
    ensures Meant(s', PcOf(s', t))
         == AfterInsert(Plain(s.entries, s.recency, s.deps), capacity, k, CacheEntry(r, s.clock), ds)
    ensures s'.hits == s.hits
  {
    WithoutNone(Plain(s.entries, s.recency, s.deps));
    assert PcOf(s', t) == AddDeps(k, ds);
  }

  lemma CollectMeant(s: Shared, capacity: nat, ttl: nat, t: nat, ids: seq<I64>, s': Shared)
    requires Collected(s.index, ids) == Selected(Plain(s.entries, s.recency, s.deps), ids) && ids != []
    requires s' == Enter(s, capacity, ttl, t, Collect(ids))
    ensures Meant(s', PcOf(s', t)) == AfterInvalidate(Plain(s.entries, s.recency, s.deps), ids) && s'.hits == s.hits
  {
    WithoutNone(Plain(s.entries, s.recency, s.deps));
  }

  lemma ClearMeant(s: Shared, capacity: nat, ttl: nat, t: nat, s': Shared)
    requires Ordered(s.recency, s.entries) && s' == Enter(s, capacity, ttl, t, ClearCache)
    ensures Meant(s', PcOf(s', t)) == EMPTY && s'.hits == s.hits
  {
    var gone := s.entries.Keys;
    assert s.entries - gone == map[];
    SomeKey(Survivors(s.recency, gone));
  }

  lemma SomeKey(keys: seq<Key>)
    ensures keys != [] ==> exists k :: k in keys
  {
    if keys != [] {
      assert keys[0] in keys;
    }
  }

  /** These sections decide what the operation does; all others finish what was decided before. */
  predicate Decides(pc: Pc) {
    pc.Getting? || pc.InsertPut? || pc.Collect? || pc.ClearCache?
  }

  lemma RestMeant(s: Shared, capacity: nat, ttl: nat, t: nat, pc: Pc, s': Shared)
    requires PcOf(s, t) == pc && !Decides(pc) && s' == Enter(s, capacity, ttl, t, pc)
    ensures Meant(s', PcOf(s', t)) == Meant(s, pc) && s'.hits == s.hits
  {
  }

  /** Thread `t` has gone from `s` to `s'`, which amounts to `ops` performed on `c`. */
  ghost predicate Amounts(s: Shared, s': Shared, capacity: nat, ttl: nat, t: nat, c: Plain, ops: seq<Recency.Op>) {
    && Meant(s', PcOf(s', t)) == Performed(c, capacity, ttl, ops)
    && Given(s'.hits) == Given(s.hits) + Answers(c, capacity, ttl, ops)
  }

  lemma LookAmounts(s: Shared, capacity: nat, ttl: nat, t: nat, k: Key, s': Shared)
    requires s' == GetSection(s, ttl, t, k)
    ensures Amounts(s, s', capacity, ttl, t, Plain(s.entries, s.recency, s.deps), [Recency.Look(k, s.clock)])
  {
    GetMeant(s, ttl, t, k, s');
    GetGiven(s, ttl, t, k, s');
    LookAnswers(Plain(s.entries, s.recency, s.deps), capacity, ttl, k, s.clock);
  }

  /** Other operations answer nothing. */
  lemma SilentAmounts(s: Shared, s': Shared, capacity: nat, ttl: nat, t: nat, c: Plain, ops: seq<Recency.Op>)
    requires Meant(s', PcOf(s', t)) == Performed(c, capacity, ttl, ops) && s'.hits == s.hits
    requires |ops| <= 1 && forall i :: 0 <= i < |ops| ==> !ops[i].Look?
    ensures Amounts(s, s', capacity, ttl, t, c, ops)
  {
  }

  lemma DropAmounts(s: Shared, capacity: nat, ttl: nat, t: nat, ids: seq<I64>, s': Shared)
    requires Midway(s, capacity, Collect(ids)) && capacity > 0 && s' == Enter(s, capacity, ttl, t, Collect(ids))
    ensures Amounts(s, s', capacity, ttl, t, Plain(s.entries, s.recency, s.deps), [Recency.Drop(ids)])
  {
    var c := Plain(s.entries, s.recency, s.deps);
    CollectedIsSelected(c, s.index, capacity, ids);
    CollectMeant(s, capacity, ttl, t, ids, s');
    SilentAmounts(s, s', capacity, ttl, t, c, [Recency.Drop(ids)]);
  }

  lemma PutAmounts(s: Shared, capacity: nat, ttl: nat, t: nat, k: Key, r: string, ds: set<I64>, s': Shared)
    requires s' == PutSection(s, capacity, t, k, r, ds)
    ensures Amounts(s, s', capacity, ttl, t, Plain(s.entries, s.recency, s.deps),
                    [Recency.Insert(k, CacheEntry(r, s.clock), ds)])
  {
    PutMeant(s, capacity, t, k, r, ds, s');
    SilentAmounts(s, s', capacity, ttl, t, Plain(s.entries, s.recency, s.deps),
                  [Recency.Insert(k, CacheEntry(r, s.clock), ds)]);
  }

  lemma ClearAmounts(s: Shared, capacity: nat, ttl: nat, t: nat, s': Shared)
    requires Ordered(s.recency, s.entries) && s' == Enter(s, capacity, ttl, t, ClearCache)
    ensures Amounts(s, s', capacity, ttl, t, Plain(s.entries, s.recency, s.deps), [Recency.Clear])
  {
    ClearMeant(s, capacity, ttl, t, s');
    SilentAmounts(s, s', capacity, ttl, t, Plain(s.entries, s.recency, s.deps), [Recency.Clear]);
  }

  lemma RestAmounts(s: Shared, capacity: nat, ttl: nat, t: nat, pc: Pc, s': Shared)
    requires PcOf(s, t) == pc && !Decides(pc) && s' == Enter(s, capacity, ttl, t, pc)
    ensures Amounts(s, s', capacity, ttl, t, Meant(s, pc), [])
  {
    RestMeant(s, capacity, ttl, t, pc, s');
    SilentAmounts(s, s', capacity, ttl, t, Meant(s, pc), []);
  }

  lemma SectionAmounts(s: Shared, capacity: nat, ttl: nat, t: nat, pc: Pc, s': Shared)
    requires Midway(s, capacity, pc) && capacity > 0 && PcOf(s, t) == pc && s' == Enter(s, capacity, ttl, t, pc)
    ensures Amounts(s, s', capacity, ttl, t, Meant(s, pc), Decided(s.clock, pc))
  {
    match pc
    case Getting(k) => LookAmounts(s, capacity, ttl, t, k, s');
    case InsertPut(k, r, ds) => PutAmounts(s, capacity, ttl, t, k, r, ds, s');
    case Collect(ids) => DropAmounts(s, capacity, ttl, t, ids, s');
    case ClearCache => ClearAmounts(s, capacity, ttl, t, s');
    case _ => RestAmounts(s, capacity, ttl, t, pc, s');
  }

  // ---- Runs ----

  /** An answer from the cache, and when it was given. */
  datatype Told = Told(key: Key, result: string, now: nat)

  function Given(hits: seq<Hit>): seq<Told> {
    if hits == [] then []
    else
      var h := hits[|hits| - 1];
      Given(hits[..|hits| - 1]) + [Told(h.key, h.result, h.now)]
  }

  /** What the lookups among `ops` answer, in order. */
  ghost function Answers(c: Plain, capacity: nat, ttl: nat, ops: seq<Recency.Op>): seq<Told>
    decreases |ops|
  {
    if ops == [] then []
    else
      (if ops[0].Look? && Answer(c, ops[0].key, ops[0].clock, ttl).Some?
       then [Told(ops[0].key, Answer(c, ops[0].key, ops[0].clock, ttl).value, ops[0].clock)] else [])
      + Answers(Recency.After(c, capacity, ttl, ops[0]), capacity, ttl, ops[1..])
  }

  function Performing(s: Shared, step: Step): (ops: seq<Recency.Op>)
    ensures |ops| <= 1
  {
    if step.Section? then Decided(s.clock, PcOf(s, step.thread)) else []
  }

  /** The operations of a run, each where its deciding section is entered. */
  function Operations(s: Shared, capacity: nat, ttl: nat, steps: seq<Step>): seq<Recency.Op>
    decreases |steps|
  {
    if steps == [] then []
    else Performing(s, steps[0]) + Operations(Apply(s, capacity, ttl, steps[0]), capacity, ttl, steps[1..])
  }

  /** One operation at a time is under way, and the state stands for `c`. */
  ghost predicate StandsFor(s: Shared, capacity: nat, c: Plain) {
    exists t :: OnlyActive(s, capacity, t) && c == Meant(s, PcOf(s, t))
  }

  lemma {:induction false} RunFirst(c: Plain, capacity: nat, ttl: nat, op: Recency.Op, rest: seq<Recency.Op>)
    ensures Recency.Run(c, capacity, ttl, [op] + rest)
         == Recency.Run(Recency.After(c, capacity, ttl, op), capacity, ttl, rest)
    decreases |rest|
  {
    var ops := [op] + rest;
    if rest == [] {
      assert ops[..0] == [];
    } else {
      RunFirst(c, capacity, ttl, op, rest[..|rest| - 1]);
      assert ops[..|ops| - 1] == [op] + rest[..|rest| - 1];
    }
  }

  /** At most one operation is performed by a step. */
  lemma PerformedFirst(c: Plain, capacity: nat, ttl: nat, first: seq<Recency.Op>, rest: seq<Recency.Op>)
    requires |first| <= 1
    ensures Recency.Run(c, capacity, ttl, first + rest)
         == Recency.Run(Performed(c, capacity, ttl, first), capacity, ttl, rest)
    ensures Answers(c, capacity, ttl, first + rest)
         == Answers(c, capacity, ttl, first) + Answers(Performed(c, capacity, ttl, first), capacity, ttl, rest)
  {
    if first == [] {
      assert first + rest == rest;
    } else {
      assert first == [first[0]] && (first + rest)[1..] == rest;
      RunFirst(c, capacity, ttl, first[0], rest);
    }
  }

  lemma StepStandsFor(s: Shared, capacity: nat, ttl: nat, step: Step, c: Plain)
    requires capacity > 0 && StandsFor(s, capacity, c) && (step.Call? ==> AllIdle(s))
    ensures var s' := Apply(s, capacity, ttl, step);
            var ops := Performing(s, step);
            && StandsFor(s', capacity, Performed(c, capacity, ttl, ops))
            && Given(s'.hits) == Given(s.hits) + Answers(c, capacity, ttl, ops)
  {
    var t :| OnlyActive(s, capacity, t) && c == Meant(s, PcOf(s, t));
    match step
    case Tick(n) => TickStandsFor(s, capacity, t, s.clock + n, c);
    case Call(u, pc) =>
      if IsEntry(pc) {
        CallStandsFor(s, capacity, t, u, pc, c);
      }
    case Section(u) =>
      if u == t {
        SectionStandsFor(s, capacity, ttl, t, c);
      }
  }

  lemma TickStandsFor(s: Shared, capacity: nat, t: nat, clock: nat, c: Plain)
    requires OnlyActive(s, capacity, t) && c == Meant(s, PcOf(s, t))
    ensures StandsFor(s.(clock := clock), capacity, c)
  {
    TickOneAtATime(s, capacity, t, clock);
    assert c == Meant(s.(clock := clock), PcOf(s.(clock := clock), t));
  }

  lemma CallStandsFor(s: Shared, capacity: nat, t: nat, u: nat, pc: Pc, c: Plain)
    requires OnlyActive(s, capacity, t) && c == Meant(s, PcOf(s, t)) && AllIdle(s) && IsEntry(pc)
    ensures StandsFor(At(s, u, pc), capacity, c)
  {
    assert PcOf(s, t).Idle?;
    CallOneAtATime(s, capacity, t, u, pc);
    assert c == Meant(At(s, u, pc), PcOf(At(s, u, pc), u));
  }

  lemma SectionStandsFor(s: Shared, capacity: nat, ttl: nat, t: nat, c: Plain)
    requires capacity > 0 && OnlyActive(s, capacity, t) && c == Meant(s, PcOf(s, t))
    ensures var s', ops := Enter(s, capacity, ttl, t, PcOf(s, t)), Decided(s.clock, PcOf(s, t));
            && StandsFor(s', capacity, Performed(c, capacity, ttl, ops))
            && Given(s'.hits) == Given(s.hits) + Answers(c, capacity, ttl, ops)
  {
    var s' := Enter(s, capacity, ttl, t, PcOf(s, t));
    SectionOneAtATime(s, capacity, ttl, t);
    SectionAmounts(s, capacity, ttl, t, PcOf(s, t), s');
    assert OnlyActive(s', capacity, t);
  }

  lemma {:induction false} RunStandsFor(s: Shared, capacity: nat, ttl: nat, steps: seq<Step>, c: Plain)
    requires capacity > 0 && StandsFor(s, capacity, c) && SerialCalls(s, capacity, ttl, steps)
    ensures StandsFor(After(s, capacity, ttl, steps), capacity,
                      Recency.Run(c, capacity, ttl, Operations(s, capacity, ttl, steps)))
    decreases |steps|
  {
    if steps != [] {
      var more := steps[1..];
      var next, first := OneStep(s, capacity, ttl, steps, more, c);
      RunStandsFor(next, capacity, ttl, more, Performed(c, capacity, ttl, first));
      PerformedFirst(c, capacity, ttl, first, Operations(next, capacity, ttl, more));
    }
  }

  lemma {:induction false} RunAnswers(s: Shared, capacity: nat, ttl: nat, steps: seq<Step>, c: Plain)
    requires capacity > 0 && StandsFor(s, capacity, c) && SerialCalls(s, capacity, ttl, steps)
    ensures Given(After(s, capacity, ttl, steps).hits)
         == Given(s.hits) + Answers(c, capacity, ttl, Operations(s, capacity, ttl, steps))
    decreases |steps|
  {
    if steps != [] {
      var more := steps[1..];
      var next, first := OneStep(s, capacity, ttl, steps, more, c);
      var c', rest := Performed(c, capacity, ttl, first), Operations(next, capacity, ttl, more);
      RunAnswers(next, capacity, ttl, more, c');
      PerformedFirst(c, capacity, ttl, first, rest);
      Regrouped(Given(s.hits), Answers(c, capacity, ttl, first), Answers(c', capacity, ttl, rest));
    }
  }

  lemma Regrouped(a: seq<Told>, b: seq<Told>, c: seq<Told>)
    ensures a + b + c == a + (b + c)
  {
  }

  lemma OneStep(s: Shared, capacity: nat, ttl: nat, steps: seq<Step>, more: seq<Step>, c: Plain)
    returns (next: Shared, first: seq<Recency.Op>)
    requires capacity > 0 && StandsFor(s, capacity, c) && SerialCalls(s, capacity, ttl, steps)
    requires steps != [] && more == steps[1..]
    ensures |first| <= 1 && SerialCalls(next, capacity, ttl, more)
    ensures After(s, capacity, ttl, steps) == After(next, capacity, ttl, more)
    ensures Operations(s, capacity, ttl, steps) == first + Operations(next, capacity, ttl, more)
    ensures StandsFor(next, capacity, Performed(c, capacity, ttl, first))
    ensures Given(next.hits) == Given(s.hits) + Answers(c, capacity, ttl, first)
  {
    next, first := Apply(s, capacity, ttl, steps[0]), Performing(s, steps[0]);
    StepStandsFor(s, capacity, ttl, steps[0], c);
  }

  /**
   * If operations do not overlap, every lookup answers what the atomic operations would, and whenever no operation is
   * under way the cache is what they would leave.
   */
  lemma SerialRunsAnswer(capacity: nat, ttl: nat, steps: seq<Step>)
    requires capacity > 0 && SerialCalls(START, capacity, ttl, steps)
    ensures var s, ops := After(START, capacity, ttl, steps), Operations(START, capacity, ttl, steps);
            && Given(s.hits) == Answers(EMPTY, capacity, ttl, ops)
            && (AllIdle(s) ==> Plain(s.entries, s.recency, s.deps) == Recency.Run(EMPTY, capacity, ttl, ops))
  {
    assert OnlyActive(START, capacity, 0) && EMPTY == Meant(START, PcOf(START, 0));
    RunStandsFor(START, capacity, ttl, steps, EMPTY);
    RunAnswers(START, capacity, ttl, steps, EMPTY);
  }
}
