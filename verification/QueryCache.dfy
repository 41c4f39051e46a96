/** The query-result cache with its reverse dependency index (mentatd/src/cache.rs). */
module QueryCaching {
  import opened Prelude
  import opened PlainCache

  type Index = map<I64, set<Key>>

  // ---- The reverse index ----

  function Bucket(index: Index, e: I64): set<Key> {
    if e in index then index[e] else {}
  }

  /** The buckets a key with these dependencies belongs in. */
  function Homes(deps: set<I64>): (r: set<I64>)
    ensures r != {}
  {
    if deps == {} then {SENTINEL} else deps
  }

  ghost predicate NoEmptyBucket(index: Index) {
    forall e :: e in index ==> index[e] != {}
  }

  /** `index` is the reverse of `deps`. */
  ghost predicate Reverses(index: Index, deps: map<Key, set<I64>>) {
    forall e, k :: k in Bucket(index, e) <==> k in deps && e in Homes(deps[k])
  }

  /** `after` is `before` with `key` taken out of the buckets `homes`. */
  ghost predicate TakenOut(before: Index, after: Index, key: Key, homes: set<I64>) {
    forall e :: Bucket(after, e) == if e in homes then Bucket(before, e) - {key} else Bucket(before, e)
  }

  ghost predicate PutIn(before: Index, after: Index, key: Key, homes: set<I64>) {
    forall e :: Bucket(after, e) == if e in homes then Bucket(before, e) + {key} else Bucket(before, e)
  }

  /** The dual-index invariant. */
  ghost predicate Consistent(c: Plain, index: Index, capacity: nat) {
    capacity > 0 && IsPlain(c, capacity) && Reverses(index, c.deps) && NoEmptyBucket(index)
  }

  /** Without empty buckets the index is determined by what it reverses. */
  lemma IndexUnique(a: Index, b: Index, deps: map<Key, set<I64>>)
    requires NoEmptyBucket(a) && NoEmptyBucket(b) && Reverses(a, deps) && Reverses(b, deps)
    ensures a == b
  {
    forall e ensures Bucket(a, e) == Bucket(b, e) {
      forall k ensures k in Bucket(a, e) <==> k in Bucket(b, e) {
        assert k in Bucket(a, e) <==> k in deps && e in Homes(deps[k]);
      }
    }
    assert forall e :: e in a <==> Bucket(a, e) != {};
    assert forall e :: e in b <==> Bucket(b, e) != {};
    assert forall e :: e in a ==> a[e] == Bucket(a, e) && b[e] == Bucket(b, e);
  }

  lemma TakenOutReverses(before: Index, after: Index, key: Key, deps: map<Key, set<I64>>)
    requires Reverses(before, deps) && key in deps && TakenOut(before, after, key, Homes(deps[key]))
    ensures Reverses(after, deps - {key})
  {
    var left := deps - {key};
    forall e, k ensures k in Bucket(after, e) <==> k in left && e in Homes(left[k]) {
      assert k in Bucket(before, e) <==> k in deps && e in Homes(deps[k]);
    }
  }

  lemma PutInReverses(before: Index, after: Index, key: Key, deps: map<Key, set<I64>>, ds: set<I64>)
    requires Reverses(before, deps - {key}) && PutIn(before, after, key, Homes(ds))
    ensures Reverses(after, deps[key := ds])
  {
    var more := deps[key := ds];
    forall e, k ensures k in Bucket(after, e) <==> k in more && e in Homes(more[k]) {
      assert k in Bucket(before, e) <==> k in deps - {key} && e in Homes(deps[k]);
    }
  }

  class QueryCache {
    const capacity: nat
    const ttl: nat
    const enabled: bool
    // The LRU map: its entries and their recency, most recent first.
    var entries: map<Key, CacheEntry>
    var recency: seq<Key>
    var dependencies: map<Key, set<I64>>
    var entityToKeys: Index
    var hits: nat
    var misses: nat
    var targetedInvalidations: nat
    var fullInvalidations: nat

    ghost function View(): Plain
      reads this
    {
      Plain(entries, recency, dependencies)
    }

    ghost predicate Valid()
      reads this
    {
      Consistent(View(), entityToKeys, capacity) && (!enabled ==> View() == EMPTY)
    }

    constructor (requested: nat, ttl: nat)
      ensures Valid() && View() == EMPTY && this.ttl == ttl
      ensures enabled == (requested > 0) && capacity == Max(requested, 1)
      ensures hits == misses == targetedInvalidations == fullInvalidations == 0
    {
      capacity, this.ttl, enabled := Max(requested, 1), ttl, requested > 0;
      entries, recency, dependencies, entityToKeys := map[], [], map[], map[];
      hits, misses, targetedInvalidations, fullInvalidations := 0, 0, 0, 0;
    }

    // ---- Private helpers ----

    /** `remove_key_from_reverse_index` */
    method RemoveKeyFromReverseIndex(key: Key, depSet: set<I64>)
      requires NoEmptyBucket(entityToKeys)
      modifies this`entityToKeys
      ensures TakenOut(old(entityToKeys), entityToKeys, key, Homes(depSet)) && NoEmptyBucket(entityToKeys)
    {
      if depSet == {} {
        TakeOut(key, SENTINEL);
      } else {
        var todo := depSet;
        while todo != {}
          invariant todo <= depSet && NoEmptyBucket(entityToKeys)
          invariant TakenOut(old(entityToKeys), entityToKeys, key, depSet - todo)
        {
          var e :| e in todo;
          TakeOut(key, e);
          todo := todo - {e};
        }
      }
    }

    method TakeOut(key: Key, e: I64)
      requires NoEmptyBucket(entityToKeys)
      modifies this`entityToKeys
      ensures TakenOut(old(entityToKeys), entityToKeys, key, {e}) && NoEmptyBucket(entityToKeys)
    {
      if e in entityToKeys {
        var left := entityToKeys[e] - {key};
        entityToKeys := if left == {} then entityToKeys - {e} else entityToKeys[e := left];
      }
    }

    /** `remove_deps_for_key` */
    method RemoveDepsForKey(key: Key)
      requires NoEmptyBucket(entityToKeys)
      modifies this`dependencies, this`entityToKeys
      ensures dependencies == old(dependencies) - {key} && NoEmptyBucket(entityToKeys)
      ensures if key in old(dependencies)
              then TakenOut(old(entityToKeys), entityToKeys, key, Homes(old(dependencies)[key]))
              else entityToKeys == old(entityToKeys)
    {
      if key in dependencies {
        var depSet := dependencies[key];
        dependencies := dependencies - {key};
        RemoveKeyFromReverseIndex(key, depSet);
      }
    }

    /** `remove_reverse_index_for_key` */
    method RemoveReverseIndexForKey(key: Key)
      requires NoEmptyBucket(entityToKeys)
      modifies this`entityToKeys
      ensures NoEmptyBucket(entityToKeys)
      ensures if key in dependencies
              then TakenOut(old(entityToKeys), entityToKeys, key, Homes(dependencies[key]))
              else entityToKeys == old(entityToKeys)
    {
      if key in dependencies {
        RemoveKeyFromReverseIndex(key, dependencies[key]);
      }
    }

    /** `add_deps_for_key` */
    method AddDepsForKey(key: Key, dependsOn: set<I64>)
      requires NoEmptyBucket(entityToKeys)
      modifies this`dependencies, this`entityToKeys
      ensures dependencies == old(dependencies)[key := dependsOn] && NoEmptyBucket(entityToKeys)
      ensures PutIn(old(entityToKeys), entityToKeys, key, Homes(dependsOn))
    {
      dependencies := dependencies[key := dependsOn];
      if dependsOn == {} {
        entityToKeys := entityToKeys[SENTINEL := Bucket(entityToKeys, SENTINEL) + {key}];
      } else {
        var todo := dependsOn;
        while todo != {}
          invariant todo <= dependsOn && NoEmptyBucket(entityToKeys)
          invariant dependencies == old(dependencies)[key := dependsOn]
          invariant PutIn(old(entityToKeys), entityToKeys, key, dependsOn - todo)
        {
          var e :| e in todo;
          entityToKeys := entityToKeys[e := Bucket(entityToKeys, e) + {key}];
          todo := todo - {e};
        }
      }
    }

    /** `LruCache::get` moves the key to the front. */
    method Touch(key: Key)
      requires Valid() && key in entries
      modifies this`recency
      ensures Valid() && View() == old(View()).(recency := Touched(old(recency), key))
    {
      TouchedOrdered(recency, entries, key, entries[key]);
      assert entries == entries[key := entries[key]];
      recency := Touched(recency, key);
    }

    method Expire(key: Key)
      requires Valid() && key in entries
      modifies this`entries, this`recency, this`dependencies, this`entityToKeys
      ensures Valid() && View() == Without(old(View()), {key})
    {
      WithoutIsPlain(View(), capacity, {key});
      entries, recency := entries - {key}, Survivors(recency, {key});
      RemoveDepsForKey(key);
      TakenOutReverses(old(entityToKeys), entityToKeys, key, old(dependencies));
    }

    // ---- Public operations ----

    method Get(query: string, args: string, now: nat) returns (r: Option<string>)
      requires Valid()
      modifies this`entries, this`recency, this`dependencies, this`entityToKeys, this`hits, this`misses
      ensures Valid()
      ensures r == Answer(old(View()), Key(query, args), now, ttl)
      ensures r.Some? <==> Key(query, args) in old(entries) && now <= old(entries)[Key(query, args)].insertedAt + ttl
      ensures r.Some? ==> r.value == old(entries)[Key(query, args)].result
      ensures View() == AfterGet(old(View()), Key(query, args), now, ttl)
      ensures hits == old(hits) + (if r.Some? then 1 else 0)
      ensures misses == old(misses) + (if r.None? && enabled then 1 else 0)
    {
      if !enabled {
        return None;
      }
      var key := Key(query, args);
      if key in entries {
        r := FreshOrExpire(key, now);
      } else {
        r := None;
      }
      if r.Some? {
        hits := hits + 1;
      } else {
        misses := misses + 1;
      }
    }

    /** A cached entry is touched and answers, unless it is older than the TTL. */
    method FreshOrExpire(key: Key, now: nat) returns (r: Option<string>)
      requires Valid() && key in entries
      modifies this`entries, this`recency, this`dependencies, this`entityToKeys
      ensures Valid() && r == Answer(old(View()), key, now, ttl) && View() == AfterGet(old(View()), key, now, ttl)
    {
      Touch(key);
      if Elapsed(now, entries[key].insertedAt) > ttl {
        WithoutTouched(old(View()), key);
        Expire(key);
        return None;
      }
      return Some(entries[key].result);
    }

    method InsertWithDeps(query: string, args: string, result: string, dependsOn: set<I64>, now: nat)
      requires Valid()
      modifies this`entries, this`recency, this`dependencies, this`entityToKeys
      ensures Valid()
      ensures View() == if enabled
                        then AfterInsert(old(View()), capacity, Key(query, args), CacheEntry(result, now), dependsOn)
                        else old(View())
    {
      if !enabled {
        return;
      }
      var key, entry := Key(query, args), CacheEntry(result, now);
      InsertIsPlain(View(), capacity, key, entry, dependsOn);
      RemoveReverseIndexForKey(key);
      Unlisted(old(entityToKeys), entityToKeys, dependencies, key);
      PutMakingRoom(key, entry);
      ghost var index, deps := entityToKeys, dependencies;
      AddDepsForKey(key, dependsOn);
      PutInReverses(index, entityToKeys, key, deps, dependsOn);
    }

    /** The put under the cache lock, and the dependencies of what it evicts. */
    method PutMakingRoom(key: Key, entry: CacheEntry)
      requires Ordered(recency, entries) && |recency| <= capacity && capacity > 0 && entries.Keys == dependencies.Keys
      requires NoEmptyBucket(entityToKeys) && Reverses(entityToKeys, dependencies - {key})
      modifies this`entries, this`recency, this`dependencies, this`entityToKeys
      ensures NoEmptyBucket(entityToKeys) && Reverses(entityToKeys, dependencies - {key})
      ensures var kept := Without(old(View()), Evicted(old(View()), capacity, key));
              View() == Plain(kept.entries[key := entry], Touched(kept.recency, key), kept.deps)
    {
      if |recency| == capacity && key !in entries {
        EvictAndPut(key, entry);
      } else {
        WithoutNone(View());
        Put(key, entry);
      }
    }

    /** The full cache drops its least recently used entry, then the dependencies of that entry. */
    method EvictAndPut(key: Key, entry: CacheEntry)
      requires Ordered(recency, entries) && |recency| == capacity > 0 && key !in entries
      requires key !in dependencies && NoEmptyBucket(entityToKeys) && Reverses(entityToKeys, dependencies - {key})
      modifies this`entries, this`recency, this`dependencies, this`entityToKeys
      ensures NoEmptyBucket(entityToKeys) && Reverses(entityToKeys, dependencies - {key})
      ensures var gone := {old(recency)[capacity - 1]};
              && entries == (old(entries) - gone)[key := entry] && dependencies == old(dependencies) - gone
              && recency == Touched(Survivors(old(recency), gone), key)
    {
      var evicted := recency[|recency| - 1];
      assert dependencies - {key} == dependencies;
      Put(key, entry);
      RemoveDepsForKey(evicted);
      Unlisted(old(entityToKeys), entityToKeys, old(dependencies), evicted);
      assert dependencies - {key} == dependencies;
    }

    /** `LruCache::put` */
    method Put(key: Key, entry: CacheEntry)
      requires Ordered(recency, entries) && |recency| <= capacity
      modifies this`entries, this`recency
      ensures key in old(entries) || |old(recency)| < capacity ==>
                entries == old(entries)[key := entry] && recency == Touched(old(recency), key)
      ensures key !in old(entries) && |old(recency)| == capacity > 0 ==>
                var last := old(recency)[capacity - 1];
                && entries == (old(entries) - {last})[key := entry]
                && recency == Touched(Survivors(old(recency), {last}), key)
    {
      if key !in entries && |recency| == capacity && capacity > 0 {
        var last := recency[|recency| - 1];
        entries, recency := entries - {last}, Survivors(recency, {last});
      }
      entries, recency := entries[key := entry], Touched(recency, key);
    }

    /** Drops the entries that depend on a changed entity, and the untracked ones; the number dropped. */
    method InvalidateEntities(ids: seq<I64>) returns (removed: nat)
      requires Valid()
      modifies this`entries, this`recency, this`dependencies, this`entityToKeys, this`targetedInvalidations
      ensures Valid() && View() == AfterInvalidate(old(View()), ids)
      ensures removed == if ids == [] then 0 else |Selected(old(View()), ids)|
      ensures removed == |old(entries)| - |entries|
      ensures targetedInvalidations == old(targetedInvalidations) + if enabled && ids != [] then 1 else 0
    {
      if !enabled || ids == [] {
        NothingSelected(ids);
        return 0;
      }
      var keys := KeysToRemove(ids);
      removed := |keys|;
      WithoutCount(View(), keys);
      Remove(keys);
      targetedInvalidations := targetedInvalidations + 1;
    }

    method Remove(keys: set<Key>)
      requires Valid()
      modifies this`entries, this`recency, this`dependencies, this`entityToKeys
      ensures Valid() && View() == Without(old(View()), keys)
    {
      if |keys| == 0 {
        WithoutNone(View());
        return;
      }
      WithoutIsPlain(View(), capacity, keys);
      PopAll(keys);
      UnlinkAll(keys);
    }

    /** The union of the sentinel bucket and the buckets of the changed entities. */
    method KeysToRemove(ids: seq<I64>) returns (keys: set<Key>)
      requires Valid()
      ensures keys == Selected(View(), ids)
    {
      keys := Bucket(entityToKeys, SENTINEL);
      for i := 0 to |ids|
        invariant forall k :: k in keys
                    <==> || k in Bucket(entityToKeys, SENTINEL)
                         || exists j :: 0 <= j < i && k in Bucket(entityToKeys, ids[j])
      {
        keys := keys + Bucket(entityToKeys, ids[i]);
      }
      SelectedByBuckets(View(), entityToKeys, capacity, ids, keys);
    }

    method PopAll(keys: set<Key>)
      modifies this`entries, this`recency
      ensures entries == old(entries) - keys && recency == Survivors(old(recency), keys)
    {
      var todo := keys;
      ghost var gone: set<Key> := {};
      SurvivorsAll(recency, {});
      while todo != {}
        invariant gone + todo == keys
        invariant entries == old(entries) - gone && recency == Survivors(old(recency), gone)
      {
        var k :| k in todo;
        SurvivorsTwice(old(recency), gone, {k});
        entries, recency := entries - {k}, Survivors(recency, {k});
        todo, gone := todo - {k}, gone + {k};
      }
    }

    /** Empty buckets are only dropped at the end. */
    method UnlinkAll(keys: set<Key>)
      requires Reverses(entityToKeys, dependencies)
      modifies this`dependencies, this`entityToKeys
      ensures dependencies == old(dependencies) - keys
      ensures Reverses(entityToKeys, dependencies) && NoEmptyBucket(entityToKeys)
    {
      var todo := keys;
      while todo != {}
        invariant todo <= keys && dependencies == old(dependencies) - (keys - todo)
        invariant Reverses(entityToKeys, dependencies)
      {
        var k :| k in todo;
        if k in dependencies {
          ghost var index := entityToKeys;
          UnlinkKey(k, dependencies[k]);
          TakenOutReverses(index, entityToKeys, k, dependencies);
          dependencies := dependencies - {k};
        }
        todo := todo - {k};
      }
      ghost var index := entityToKeys;
      entityToKeys := map e | e in entityToKeys && entityToKeys[e] != {} :: entityToKeys[e];
      assert forall e :: Bucket(entityToKeys, e) == Bucket(index, e);
      SameBuckets(index, entityToKeys, dependencies);
    }

    method UnlinkKey(key: Key, depSet: set<I64>)
      modifies this`entityToKeys
      ensures TakenOut(old(entityToKeys), entityToKeys, key, Homes(depSet))
    {
      var todo := Homes(depSet);
      while todo != {}
        invariant todo <= Homes(depSet)
        invariant TakenOut(old(entityToKeys), entityToKeys, key, Homes(depSet) - todo)
      {
        var e :| e in todo;
        if e in entityToKeys {
          entityToKeys := entityToKeys[e := entityToKeys[e] - {key}];
        }
        todo := todo - {e};
      }
    }

    /** Everything is dropped, also when caching is disabled. */
    method Invalidate()
      requires Valid()
      modifies this`entries, this`recency, this`dependencies, this`entityToKeys, this`fullInvalidations
      ensures Valid() && View() == EMPTY && fullInvalidations == old(fullInvalidations) + 1
    {
      entries, recency, dependencies, entityToKeys := map[], [], map[], map[];
      fullInvalidations := fullInvalidations + 1;
    }

    lemma NothingSelected(ids: seq<I64>)
      requires Valid() && (!enabled || ids == [])
      ensures AfterInvalidate(View(), ids) == View()
      ensures !enabled ==> Selected(View(), ids) == {}
    {
    }
  }

  lemma SameBuckets(before: Index, after: Index, deps: map<Key, set<I64>>)
    requires Reverses(before, deps) && forall e :: Bucket(after, e) == Bucket(before, e)
    ensures Reverses(after, deps)
  {
    forall e, k ensures k in Bucket(after, e) <==> k in deps && e in Homes(deps[k]) {
      assert k in Bucket(before, e) <==> k in deps && e in Homes(deps[k]);
    }
  }

  lemma SelectedByBuckets(c: Plain, index: Index, capacity: nat, ids: seq<I64>, keys: set<Key>)
    requires Consistent(c, index, capacity)
    requires forall k :: k in keys
               <==> k in Bucket(index, SENTINEL) || exists j :: 0 <= j < |ids| && k in Bucket(index, ids[j])
    ensures keys == Selected(c, ids)
  {
    forall k ensures k in keys <==> k in Selected(c, ids) {
      assert k in Bucket(index, SENTINEL) <==> k in c.deps && SENTINEL in Homes(c.deps[k]);
      assert forall j :: 0 <= j < |ids| ==> (k in Bucket(index, ids[j]) <==> k in c.deps && ids[j] in Homes(c.deps[k]));
    }
  }

  lemma Unlisted(before: Index, after: Index, deps: map<Key, set<I64>>, key: Key)
    requires Reverses(before, deps)
    requires if key in deps then TakenOut(before, after, key, Homes(deps[key])) else after == before
    ensures Reverses(after, deps - {key})
  {
    if key in deps {
      TakenOutReverses(before, after, key, deps);
    } else {
      assert deps - {key} == deps;
    }
  }
}
