/** When the query cache answers, and what (mentatd/src/cache.rs): the history of a key decides. */
module Freshness {
  import opened Prelude
  import opened PlainCache
  import opened Recency

  /** Operation `j` takes out the key `k` that was inserted with `e` and `ds`. */
  ghost predicate Removes(capacity: nat, ttl: nat, ops: seq<Op>, j: nat, k: Key, e: CacheEntry, ds: set<I64>)
    requires j < |ops|
  {
    match ops[j]
    case Look(key, clock) => key == k && clock > e.insertedAt + ttl
    case Insert(key, _, _) => k in Evicted(Run(EMPTY, capacity, ttl, ops[..j]), capacity, key)
    case Drop(ids) => ids != [] && (ds == {} || SENTINEL in ds || exists i :: 0 <= i < |ids| && ids[i] in ds)
    case Clear => true
  }

  /** Operation `i` inserted `k`, and since then it was neither inserted again nor taken out. */
  ghost predicate Stands(capacity: nat, ttl: nat, ops: seq<Op>, i: nat, k: Key) {
    && i < |ops| && ops[i].Insert? && ops[i].key == k
    && forall j :: i < j < |ops| ==> Passes(capacity, ttl, ops, j, k, ops[i].entry, ops[i].deps)
  }

  ghost predicate Passes(capacity: nat, ttl: nat, ops: seq<Op>, j: nat, k: Key, e: CacheEntry, ds: set<I64>)
    requires j < |ops|
  {
    !(ops[j].Insert? && ops[j].key == k) && !Removes(capacity, ttl, ops, j, k, e, ds)
  }

  lemma PassesPrefix(capacity: nat, ttl: nat, ops: seq<Op>, n: nat, j: nat, k: Key, e: CacheEntry, ds: set<I64>)
    requires j < n <= |ops|
    ensures Passes(capacity, ttl, ops[..n], j, k, e, ds) <==> Passes(capacity, ttl, ops, j, k, e, ds)
  {
    assert ops[..n][..j] == ops[..j];
  }

  /** What stands after one more operation stood before it, or is that operation. */
  lemma StandsNext(capacity: nat, ttl: nat, ops: seq<Op>, i: nat, k: Key)
    requires i < |ops| && ops[i].Insert?
    ensures var n := |ops| - 1;
            Stands(capacity, ttl, ops, i, k) <==>
              if i == n then ops[n].key == k
              else Stands(capacity, ttl, ops[..n], i, k)
                   && Passes(capacity, ttl, ops, n, k, ops[i].entry, ops[i].deps)
  {
    var n := |ops| - 1;
    if i < n {
      var e, ds := ops[i].entry, ops[i].deps;
      forall j | i < j < n
        ensures Passes(capacity, ttl, ops[..n], j, k, e, ds) <==> Passes(capacity, ttl, ops, j, k, e, ds)
      {
        PassesPrefix(capacity, ttl, ops, n, j, k, e, ds);
      }
    }
  }

  /** The cache holds what insertion `i` put in. */
  ghost predicate HoldsInsertion(c: Plain, ops: seq<Op>, i: nat, k: Key) {
    && i < |ops| && ops[i].Insert?
    && k in c.entries && c.entries[k] == ops[i].entry && k in c.deps && c.deps[k] == ops[i].deps
  }

  /** One operation keeps an entry unless it replaces it or takes it out. */
  lemma OpKeepsExactly(capacity: nat, ttl: nat, ops: seq<Op>, k: Key)
    requires capacity > 0 && ops != []
    ensures var n := |ops| - 1;
            var c, c' := Run(EMPTY, capacity, ttl, ops[..n]), Run(EMPTY, capacity, ttl, ops);
            && (k in c.entries && k in c.deps && !(ops[n].Insert? && ops[n].key == k) ==>
                  if Removes(capacity, ttl, ops, n, k, c.entries[k], c.deps[k]) then k !in c'.entries
                  else k in c'.entries && c'.entries[k] == c.entries[k] && k in c'.deps && c'.deps[k] == c.deps[k])
            && (k !in c.entries && !(ops[n].Insert? && ops[n].key == k) ==> k !in c'.entries)
  {
    var n := |ops| - 1;
    var c := Run(EMPTY, capacity, ttl, ops[..n]);
    if k in c.entries && k in c.deps && ops[n].Drop? {
      assert Meets(c.deps[k], ops[n].ids) <==> exists i :: 0 <= i < |ops[n].ids| && ops[n].ids[i] in c.deps[k];
    }
  }

  /** After every run a key is cached exactly if one of its insertions still stands, with what that put in. */
  lemma {:induction false} HeldExactly(capacity: nat, ttl: nat, ops: seq<Op>, k: Key)
    requires capacity > 0
    ensures var c := Run(EMPTY, capacity, ttl, ops);
            && (k in c.entries ==> exists i: nat :: Stands(capacity, ttl, ops, i, k))
            && (forall i: nat :: Stands(capacity, ttl, ops, i, k) ==> HoldsInsertion(c, ops, i, k))
  {
    if ops != [] {
      var n := |ops| - 1;
      var before := ops[..n];
      HeldExactly(capacity, ttl, before, k);
      RunIsPlain(capacity, ttl, before);
      OpKeepsExactly(capacity, ttl, ops, k);
      var c := Run(EMPTY, capacity, ttl, ops);
      if k in c.entries {
        StillStands(capacity, ttl, ops, k);
      }
      forall i: nat | Stands(capacity, ttl, ops, i, k) ensures HoldsInsertion(c, ops, i, k) {
        StandsNext(capacity, ttl, ops, i, k);
        if i < n {
          assert HoldsInsertion(Run(EMPTY, capacity, ttl, before), before, i, k);
        }
      }
    }
  }

  lemma StillStands(capacity: nat, ttl: nat, ops: seq<Op>, k: Key)
    requires capacity > 0 && ops != [] && k in Run(EMPTY, capacity, ttl, ops).entries
    requires var n := |ops| - 1;
             var c := Run(EMPTY, capacity, ttl, ops[..n]);
             && (k in c.entries ==> exists i: nat :: Stands(capacity, ttl, ops[..n], i, k))
             && (forall i: nat :: Stands(capacity, ttl, ops[..n], i, k) ==> HoldsInsertion(c, ops[..n], i, k))
    ensures exists i: nat :: Stands(capacity, ttl, ops, i, k)
  {
    var n := |ops| - 1;
    OpKeepsExactly(capacity, ttl, ops, k);
    if ops[n].Insert? && ops[n].key == k {
      StandsNext(capacity, ttl, ops, n, k);
    } else {
      var i: nat :| Stands(capacity, ttl, ops[..n], i, k);
      assert HoldsInsertion(Run(EMPTY, capacity, ttl, ops[..n]), ops[..n], i, k);
      StandsNext(capacity, ttl, ops, i, k);
    }
  }

  /**
   * After every run a lookup hits exactly if the last insertion of its key still stands and is at most `ttl` old, and
   * then it answers what that insertion put in.
   */
  lemma HitsExactly(capacity: nat, ttl: nat, ops: seq<Op>, k: Key, now: nat, result: string)
    requires capacity > 0
    ensures Answer(Run(EMPTY, capacity, ttl, ops), k, now, ttl) == Some(result)
       <==> exists i: nat :: Stands(capacity, ttl, ops, i, k) && ops[i].entry.result == result
                             && now <= ops[i].entry.insertedAt + ttl
  {
    HeldExactly(capacity, ttl, ops, k);
    var c := Run(EMPTY, capacity, ttl, ops);
    if k in c.entries {
      var i: nat :| Stands(capacity, ttl, ops, i, k);
      assert HoldsInsertion(c, ops, i, k);
    }
  }
}
