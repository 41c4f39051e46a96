/** The recency order of the query cache is the order of last use (mentatd/src/cache.rs). */
module Recency {
  import opened Prelude
  import opened PlainCache

  /** When each key was last looked up with success or inserted. */
  type Uses = map<Key, nat>

  /** Every cached key has been used before `now`, and an earlier place means a later use. */
  ghost predicate InOrderOfUse(recency: seq<Key>, uses: Uses, now: nat) {
    && (forall i :: 0 <= i < |recency| ==> recency[i] in uses && uses[recency[i]] < now)
    && (forall i, j :: 0 <= i < j < |recency| ==> uses[recency[i]] > uses[recency[j]])
  }

  lemma {:induction false} SurvivorsInOrder(recency: seq<Key>, gone: set<Key>, uses: Uses, now: nat)
    requires InOrderOfUse(recency, uses, now)
    ensures InOrderOfUse(Survivors(recency, gone), uses, now)
  {
    if recency != [] {
      var rest := Survivors(recency[1..], gone);
      SurvivorsInOrder(recency[1..], gone, uses, now);
      if recency[0] !in gone {
        forall j | 0 <= j < |rest| ensures uses[recency[0]] > uses[rest[j]] {
          assert rest[j] in rest;
          var i :| 0 <= i < |recency[1..]| && recency[1..][i] == rest[j];
          assert recency[i + 1] == rest[j];
        }
        OneInFront(recency[0], rest, uses, now);
      }
    }
  }

  lemma OneInFront(key: Key, rest: seq<Key>, uses: Uses, now: nat)
    requires InOrderOfUse(rest, uses, now) && key in uses && uses[key] < now
    requires forall j :: 0 <= j < |rest| ==> uses[key] > uses[rest[j]]
    ensures InOrderOfUse([key] + rest, uses, now)
  {
  }

  lemma TouchedInOrder(recency: seq<Key>, key: Key, uses: Uses, now: nat)
    requires InOrderOfUse(recency, uses, now)
    ensures InOrderOfUse(Touched(recency, key), uses[key := now], now + 1)
  {
    var rest := Survivors(recency, {key});
    SurvivorsInOrder(recency, {key}, uses, now);
    forall j | 0 <= j < |rest| ensures rest[j] != key && uses[rest[j]] < now {
      assert rest[j] in rest;
    }
  }

  datatype Op =
    | Look(key: Key, clock: nat)
    | Insert(key: Key, entry: CacheEntry, deps: set<I64>)
    | Drop(ids: seq<I64>)
    | Clear

  ghost function After(c: Plain, capacity: nat, ttl: nat, op: Op): Plain {
    match op
    case Look(k, clock) => AfterGet(c, k, clock, ttl)
    case Insert(k, e, ds) => AfterInsert(c, capacity, k, e, ds)
    case Drop(ids) => AfterInvalidate(c, ids)
    case Clear => EMPTY
  }

  /** A use is a hit or an insertion. */
  function UsesAfter(uses: Uses, c: Plain, ttl: nat, op: Op, now: nat): Uses {
    match op
    case Look(k, clock) => if Fresh(c, k, clock, ttl) then uses[k := now] else uses
    case Insert(k, _, _) => uses[k := now]
    case _ => uses
  }

  lemma OpInOrder(c: Plain, capacity: nat, ttl: nat, op: Op, uses: Uses, now: nat)
    requires InOrderOfUse(c.recency, uses, now)
    ensures InOrderOfUse(After(c, capacity, ttl, op).recency, UsesAfter(uses, c, ttl, op, now), now + 1)
  {
    match op
    case Look(k, clock) =>
      TouchedInOrder(c.recency, k, uses, now);
      SurvivorsInOrder(c.recency, {k}, uses, now);
    case Insert(k, _, _) =>
      var gone := Evicted(c, capacity, k);
      SurvivorsInOrder(c.recency, gone, uses, now);
      TouchedInOrder(Survivors(c.recency, gone), k, uses, now);
    case Drop(ids) => SurvivorsInOrder(c.recency, Selected(c, ids), uses, now);
    case Clear =>
  }

  ghost function Run(c: Plain, capacity: nat, ttl: nat, ops: seq<Op>): Plain {
    if ops == [] then c
    else After(Run(c, capacity, ttl, ops[..|ops| - 1]), capacity, ttl, ops[|ops| - 1])
  }

  /** The uses of a run that starts empty; operation number `i` happens at `i`. */
  ghost function RunUses(capacity: nat, ttl: nat, ops: seq<Op>): Uses {
    if ops == [] then map[]
    else
      var before, n := ops[..|ops| - 1], |ops| - 1;
      UsesAfter(RunUses(capacity, ttl, before), Run(EMPTY, capacity, ttl, before), ttl, ops[n], n)
  }

  lemma {:induction false} RunInOrder(capacity: nat, ttl: nat, ops: seq<Op>)
    ensures InOrderOfUse(Run(EMPTY, capacity, ttl, ops).recency, RunUses(capacity, ttl, ops), |ops|)
  {
    if ops != [] {
      var before, n := ops[..|ops| - 1], |ops| - 1;
      RunInOrder(capacity, ttl, before);
      OpInOrder(Run(EMPTY, capacity, ttl, before), capacity, ttl, ops[n], RunUses(capacity, ttl, before), n);
    }
  }

  lemma {:induction false} RunIsPlain(capacity: nat, ttl: nat, ops: seq<Op>)
    requires capacity > 0
    ensures IsPlain(Run(EMPTY, capacity, ttl, ops), capacity)
  {
    if ops != [] {
      var c := Run(EMPTY, capacity, ttl, ops[..|ops| - 1]);
      RunIsPlain(capacity, ttl, ops[..|ops| - 1]);
      match ops[|ops| - 1]
      case Look(k, clock) => GetIsPlain(c, capacity, k, clock, ttl);
      case Insert(k, e, ds) => InsertIsPlain(c, capacity, k, e, ds);
      case Drop(ids) => WithoutIsPlain(c, capacity, Selected(c, ids));
      case Clear =>
    }
  }

  /** A cached key that was used before every other one. */
  ghost predicate LeastRecentlyUsed(c: Plain, uses: Uses, k: Key) {
    k in c.entries && k in uses && forall j :: j in c.entries && j != k ==> j in uses && uses[k] < uses[j]
  }

  /** After every run an insertion evicts exactly the least recently used entry of a full cache, for a new key. */
  lemma EvictsLeastRecentlyUsed(capacity: nat, ttl: nat, ops: seq<Op>, key: Key, gone: Key)
    requires capacity > 0
    ensures var c := Run(EMPTY, capacity, ttl, ops);
            gone in Evicted(c, capacity, key) <==>
              key !in c.entries && |c.entries| == capacity && LeastRecentlyUsed(c, RunUses(capacity, ttl, ops), gone)
  {
    var c, uses := Run(EMPTY, capacity, ttl, ops), RunUses(capacity, ttl, ops);
    RunInOrder(capacity, ttl, ops);
    RunIsPlain(capacity, ttl, ops);
    EvictedExactly(c, capacity, uses, |ops|, key, gone);
  }

  lemma EvictedExactly(c: Plain, capacity: nat, uses: Uses, now: nat, key: Key, gone: Key)
    requires capacity > 0 && Ordered(c.recency, c.entries) && InOrderOfUse(c.recency, uses, now)
    ensures gone in Evicted(c, capacity, key) <==>
              key !in c.entries && |c.entries| == capacity && LeastRecentlyUsed(c, uses, gone)
  {
    OrderedLength(c.recency, c.entries);
    if c.recency != [] {
      LastIsOldest(c, uses, now);
      if LeastRecentlyUsed(c, uses, gone) {
        OneOldest(c, uses, c.recency[|c.recency| - 1], gone);
      }
    }
  }

  lemma OneOldest(c: Plain, uses: Uses, a: Key, b: Key)
    requires LeastRecentlyUsed(c, uses, a) && LeastRecentlyUsed(c, uses, b)
    ensures a == b
  {
  }

  lemma LastIsOldest(c: Plain, uses: Uses, now: nat)
    requires c.recency != [] && Ordered(c.recency, c.entries) && InOrderOfUse(c.recency, uses, now)
    ensures LeastRecentlyUsed(c, uses, c.recency[|c.recency| - 1])
  {
    var n := |c.recency| - 1;
    var last := c.recency[n];
    assert last in c.recency;
    forall k | k in c.entries && k != last ensures k in uses && uses[last] < uses[k] {
      assert k in c.recency;
      var i :| 0 <= i < |c.recency| && c.recency[i] == k;
    }
  }
}
