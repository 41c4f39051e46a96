/** The query cache without its reverse index: the form the indexed cache refines (mentatd/src/cache.rs). */
module PlainCache {
  import opened Prelude

  datatype Key = Key(query: string, args: string)

  datatype CacheEntry = CacheEntry(result: string, insertedAt: nat)

  /** Entries, their keys with the most recently used first, and the entities each entry depends on. */
  datatype Plain = Plain(entries: map<Key, CacheEntry>, recency: seq<Key>, deps: map<Key, set<I64>>)

  const SENTINEL: I64 := -0x8000_0000_0000_0000

  // ---- Recency ----

  /** The keys that are not in `gone`, in the same order. */
  function Survivors(recency: seq<Key>, gone: set<Key>): (r: seq<Key>)
    ensures forall k :: k in r <==> k in recency && k !in gone
  {
    if recency == [] then []
    else if recency[0] in gone then Survivors(recency[1..], gone)
    else [recency[0]] + Survivors(recency[1..], gone)
  }

  ghost predicate NoRepeats(recency: seq<Key>) {
    forall i, j :: 0 <= i < j < |recency| ==> recency[i] != recency[j]
  }

  ghost predicate Ordered(recency: seq<Key>, entries: map<Key, CacheEntry>) {
    NoRepeats(recency) && forall k :: k in recency <==> k in entries
  }

  lemma {:induction false} SurvivorsDistinct(recency: seq<Key>, gone: set<Key>)
    requires NoRepeats(recency)
    ensures NoRepeats(Survivors(recency, gone))
  {
    if recency != [] {
      var rest := Survivors(recency[1..], gone);
      SurvivorsDistinct(recency[1..], gone);
      forall j | 0 <= j < |rest| ensures rest[j] != recency[0] {
        assert rest[j] in recency[1..];
      }
    }
  }

  lemma {:induction false} SurvivorsTwice(recency: seq<Key>, gone: set<Key>, more: set<Key>)
    ensures Survivors(Survivors(recency, gone), more) == Survivors(recency, gone + more)
  {
    if recency != [] {
      SurvivorsTwice(recency[1..], gone, more);
    }
  }

  lemma {:induction false} SurvivorsAll(recency: seq<Key>, gone: set<Key>)
    requires forall k :: k in gone ==> k !in recency
    ensures Survivors(recency, gone) == recency
  {
    if recency != [] {
      SurvivorsAll(recency[1..], gone);
    }
  }

  lemma PlaceOf(keys: seq<Key>, key: Key) returns (i: nat)
    requires key in keys
    ensures i < |keys| && keys[i] == key
  {
    i :| 0 <= i < |keys| && keys[i] == key;
  }

  /** Two keys that survive keep their relative order. */
  lemma {:induction false} SurvivorsKeepOrder(recency: seq<Key>, gone: set<Key>, i: nat, j: nat)
    returns (a: nat, b: nat)
    requires i < j < |recency| && recency[i] !in gone && recency[j] !in gone
    ensures a < b < |Survivors(recency, gone)|
    ensures Survivors(recency, gone)[a] == recency[i] && Survivors(recency, gone)[b] == recency[j]
  {
    var rest := recency[1..];
    var kept := Survivors(rest, gone);
    if recency[0] in gone {
      a, b := SurvivorsKeepOrder(rest, gone, i - 1, j - 1);
    } else if i > 0 {
      var x, y := SurvivorsKeepOrder(rest, gone, i - 1, j - 1);
      a, b := x + 1, y + 1;
    } else {
      var c := PlaceOf(kept, rest[j - 1]);
      a, b := 0, c + 1;
    }
  }

  /** Without repeats there are as many keys as entries. */
  lemma {:induction false} OrderedLength(recency: seq<Key>, entries: map<Key, CacheEntry>)
    requires Ordered(recency, entries)
    ensures |recency| == |entries|
  {
    KeysCount(recency);
    assert (set k | k in recency) == entries.Keys;
  }

  lemma {:induction false} KeysCount(recency: seq<Key>)
    requires NoRepeats(recency)
    ensures |set k | k in recency| == |recency|
  {
    if recency != [] {
      var rest := recency[1..];
      KeysCount(rest);
      assert recency[0] !in rest;
      assert (set k | k in recency) == (set k | k in rest) + {recency[0]};
    }
  }

  function Touched(recency: seq<Key>, key: Key): seq<Key> {
    [key] + Survivors(recency, {key})
  }

  // ---- Operations ----

  ghost predicate IsPlain(c: Plain, capacity: nat) {
    Ordered(c.recency, c.entries) && c.entries.Keys == c.deps.Keys && |c.recency| <= capacity
  }

  const EMPTY := Plain(map[], [], map[])

  function Without(c: Plain, gone: set<Key>): Plain {
    Plain(c.entries - gone, Survivors(c.recency, gone), c.deps - gone)
  }

  predicate Fresh(c: Plain, key: Key, now: nat, ttl: nat) {
    key in c.entries && Elapsed(now, c.entries[key].insertedAt) <= ttl
  }

  /** What `get` answers and leaves behind. */
  function Answer(c: Plain, key: Key, now: nat, ttl: nat): Option<string> {
    if Fresh(c, key, now, ttl) then Some(c.entries[key].result) else None
  }

  function AfterGet(c: Plain, key: Key, now: nat, ttl: nat): Plain {
    if key !in c.entries then c
    else if Fresh(c, key, now, ttl) then c.(recency := Touched(c.recency, key))
    else Without(c, {key})
  }

  /** The least recently used key makes room for a new one. */
  function Evicted(c: Plain, capacity: nat, key: Key): set<Key> {
    if |c.recency| == capacity && key !in c.entries && c.recency != [] then {c.recency[|c.recency| - 1]} else {}
  }

  function AfterInsert(c: Plain, capacity: nat, key: Key, entry: CacheEntry, deps: set<I64>): Plain {
    var kept := Without(c, Evicted(c, capacity, key));
    Plain(kept.entries[key := entry], Touched(kept.recency, key), kept.deps[key := deps])
  }

  predicate Meets(deps: set<I64>, ids: seq<I64>) {
    exists i :: 0 <= i < |ids| && ids[i] in deps
  }

  /** The plain scan: entries without dependencies and entries that depend on a listed id. */
  ghost function Scanned(c: Plain, ids: seq<I64>): set<Key> {
    set k | k in c.deps && (c.deps[k] == {} || Meets(c.deps[k], ids))
  }

  /** What the reverse index selects: the sentinel bucket is always included. */
  ghost function Selected(c: Plain, ids: seq<I64>): set<Key> {
    set k | k in c.deps && (c.deps[k] == {} || SENTINEL in c.deps[k] || Meets(c.deps[k], ids))
  }

  ghost function AfterInvalidate(c: Plain, ids: seq<I64>): Plain {
    if ids == [] then c else Without(c, Selected(c, ids))
  }

  // ---- Invariant ----

  lemma WithoutIsPlain(c: Plain, capacity: nat, gone: set<Key>)
    requires IsPlain(c, capacity)
    ensures IsPlain(Without(c, gone), capacity)
  {
    SurvivorsDistinct(c.recency, gone);
    SurvivorsLength(c.recency, gone);
  }

  lemma {:induction false} SurvivorsLength(recency: seq<Key>, gone: set<Key>)
    ensures |Survivors(recency, gone)| <= |recency|
    ensures (exists k :: k in recency && k in gone) ==> |Survivors(recency, gone)| < |recency|
  {
    if recency != [] {
      SurvivorsLength(recency[1..], gone);
    }
  }

  lemma TouchedOrdered(recency: seq<Key>, entries: map<Key, CacheEntry>, key: Key, entry: CacheEntry)
    requires Ordered(recency, entries)
    ensures Ordered(Touched(recency, key), entries[key := entry])
    ensures |Touched(recency, key)| == if key in entries then |recency| else |recency| + 1
  {
    SurvivorsDistinct(recency, {key});
    OrderedLength(recency, entries);
    OrderedLength(Touched(recency, key), entries[key := entry]);
  }

  lemma GetIsPlain(c: Plain, capacity: nat, key: Key, now: nat, ttl: nat)
    requires IsPlain(c, capacity)
    ensures IsPlain(AfterGet(c, key, now, ttl), capacity)
  {
    WithoutIsPlain(c, capacity, {key});
    if key in c.entries {
      TouchedOrdered(c.recency, c.entries, key, c.entries[key]);
      assert c.entries == c.entries[key := c.entries[key]];
    }
  }

  lemma InsertIsPlain(c: Plain, capacity: nat, key: Key, entry: CacheEntry, deps: set<I64>)
    requires IsPlain(c, capacity) && capacity > 0
    ensures IsPlain(AfterInsert(c, capacity, key, entry, deps), capacity)
  {
    var gone := Evicted(c, capacity, key);
    var kept := Without(c, gone);
    WithoutIsPlain(c, capacity, gone);
    OrderedLength(c.recency, c.entries);
    RoomMade(c, capacity, key);
    TouchedOrdered(kept.recency, kept.entries, key, entry);
  }

  lemma RoomMade(c: Plain, capacity: nat, key: Key)
    requires IsPlain(c, capacity) && capacity > 0
    ensures var kept := Without(c, Evicted(c, capacity, key));
            key in kept.entries || |kept.recency| < capacity
  {
    SurvivorsLength(c.recency, Evicted(c, capacity, key));
    if |c.recency| == capacity && key !in c.entries {
      assert c.recency[|c.recency| - 1] in c.recency;
    }
  }

  // ---- Closed forms ----

  lemma TouchedThenGone(recency: seq<Key>, key: Key)
    ensures Survivors(Touched(recency, key), {key}) == Survivors(recency, {key})
  {
    var rest := Survivors(recency, {key});
    assert ([key] + rest)[1..] == rest;
    SurvivorsAll(rest, {key});
  }

  lemma WithoutTouched(c: Plain, key: Key)
    ensures Without(c.(recency := Touched(c.recency, key)), {key}) == Without(c, {key})
  {
    TouchedThenGone(c.recency, key);
  }

  // ---- Invalidation ----

  /**
   * The index selects what the plain scan selects exactly if every entry that depends on the sentinel id is hit
   * anyway.
   */
  lemma SelectionIsScanExactly(c: Plain, ids: seq<I64>)
    ensures Selected(c, ids) == Scanned(c, ids)
       <==> forall k :: k in c.deps && SENTINEL in c.deps[k] ==> Meets(c.deps[k], ids)
  {
    assert forall k :: k in Scanned(c, ids) ==> k in Selected(c, ids);
    if forall k :: k in c.deps && SENTINEL in c.deps[k] ==> Meets(c.deps[k], ids) {
      assert Selected(c, ids) == Scanned(c, ids);
    } else {
      var k :| k in c.deps && SENTINEL in c.deps[k] && !Meets(c.deps[k], ids);
      assert k in Selected(c, ids) && k !in Scanned(c, ids);
    }
  }

  /** An entry that depends on the sentinel id alone is dropped by every transaction. */
  lemma SentinelDependencyIsUntracked()
    ensures var k := Key("q", "[]");
            var c := Plain(map[k := CacheEntry("r", 0)], [k], map[k := {SENTINEL}]);
            IsPlain(c, 1) && Scanned(c, [7]) == {} && Selected(c, [7]) == {k}
  {
    var k := Key("q", "[]");
    var c := Plain(map[k := CacheEntry("r", 0)], [k], map[k := {SENTINEL}]);
    assert !Meets({SENTINEL}, [7]);
    assert k in Selected(c, [7]);
  }

  lemma WithoutNone(c: Plain)
    ensures Without(c, {}) == c
  {
    SurvivorsAll(c.recency, {});
    assert c.entries - {} == c.entries && c.deps - {} == c.deps;
  }

  lemma WithoutCount(c: Plain, gone: set<Key>)
    requires gone <= c.entries.Keys
    ensures |Without(c, gone).entries| == |c.entries| - |gone|
  {
    assert (c.entries - gone).Keys == c.entries.Keys - gone;
    assert |c.entries.Keys| == |c.entries| && |(c.entries - gone).Keys| == |c.entries - gone|;
  }

  /** Invalidating two lists is invalidating their concatenation. */
  lemma InvalidateTwice(c: Plain, ids: seq<I64>, more: seq<I64>)
    ensures AfterInvalidate(AfterInvalidate(c, ids), more) == AfterInvalidate(c, ids + more)
  {
    if ids == [] || more == [] {
      assert ids + more == if ids == [] then more else ids;
    } else {
      var a, both := Selected(c, ids), Selected(c, ids + more);
      var b := Selected(Without(c, a), more);
      forall k | k in c.deps ensures Meets(c.deps[k], ids + more) <==> Meets(c.deps[k], ids) || Meets(c.deps[k], more) {
        MeetsEither(c.deps[k], ids, more);
      }
      assert a + b == both;
      SurvivorsTwice(c.recency, a, b);
      assert c.entries - a - b == c.entries - both && c.deps - a - b == c.deps - both;
    }
  }

  lemma MeetsEither(deps: set<I64>, ids: seq<I64>, more: seq<I64>)
    ensures Meets(deps, ids + more) <==> Meets(deps, ids) || Meets(deps, more)
  {
    var all := ids + more;
    if Meets(deps, ids) {
      var i :| 0 <= i < |ids| && ids[i] in deps;
      assert all[i] in deps;
    }
    if Meets(deps, more) {
      var i :| 0 <= i < |more| && more[i] in deps;
      assert all[|ids| + i] in deps;
    }
  }
}
