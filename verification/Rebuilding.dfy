/** Sets and maps read back in printed order come out in their own order (edn/src/lib.rs, edn/src/types.rs). */
module Rebuilding {
  import opened Sorting
  import opened Values
  import opened Spanned

  lemma EraseIncluded(a: seq<ValueAndSpan>, b: seq<ValueAndSpan>, x: Value)
    requires (forall v :: v in a ==> v in b) && x in EraseAll(a)
    ensures x in EraseAll(b)
  {
    var m :| 0 <= m < |a| && EraseAll(a)[m] == x;
    assert a[m] in b;
    var k :| 0 <= k < |b| && b[k] == a[m];
    assert EraseAll(b)[k] == x;
  }

  /** A set is the same however its elements were arranged when they were read. */
  lemma SetRebuilt(vs: seq<ValueAndSpan>, xs: seq<Value>)
    requires StrictlyAscending(xs, ValueLe) && EraseAll(vs) == xs
    ensures Erase(SSet(SpannedSetFromIter(vs))) == Set(xs)
  {
    var ws := SpannedSetFromIter(vs);
    var es := EraseAll(ws);
    SpannedSetElements(vs);
    SetFromIterStrict(es);
    forall x ensures x in SetFromIter(es) <==> x in xs {
      if x in es { EraseIncluded(ws, vs, x); }
      if x in xs { EraseIncluded(vs, ws, x); }
    }
    AscendingUnique(SetFromIter(es), xs, ValueLe);
    ErasedSetIs(ws, xs);
  }

  lemma MapElements(es: seq<Entry>)
    requires Distinct(es, SameKey)
    ensures forall e :: e in MapFromIter(es) <==> e in es
  {
    var sorted := StableSort(es, KeyLe);
    DistinctPermutation(es, sorted, SameKey);
    DropRepeatsNothing(sorted, SameKey);
    SameElements(sorted, es);
  }

  lemma AscendingDistinct(kvs: seq<Entry>)
    requires StrictlyAscending(kvs, KeyLe)
    ensures Distinct(kvs, SameKey)
  {
    forall i, j | 0 <= i < j < |kvs| ensures !SameKey(kvs[i], kvs[j]) && !SameKey(kvs[j], kvs[i]) {
      ValueOrderTotal(kvs[i].key, kvs[j].key, kvs[i].key);
    }
  }

  predicate SameErasedKey(a: SpannedEntry, b: SpannedEntry) {
    WithoutSpans(a.key) == WithoutSpans(b.key)
  }

  lemma ErasedDistinct(ps: seq<SpannedEntry>)
    ensures Distinct(ErasePairs(ps), SameKey) <==> Distinct(ps, SameErasedKey)
    ensures Distinct(ps, SameErasedKey) ==> Distinct(ps, SameSpannedKey)
  {
    var es := ErasePairs(ps);
    forall i, j | 0 <= i < |ps| && 0 <= j < |ps| ensures SameKey(es[i], es[j]) == SameErasedKey(ps[i], ps[j]) {
      assert es[i] == EraseEntry(ps[i]) && es[j] == EraseEntry(ps[j]);
    }
  }

  lemma EraseEntryIncluded(a: seq<SpannedEntry>, b: seq<SpannedEntry>, e: Entry)
    requires (forall v :: v in a ==> v in b) && e in ErasePairs(a)
    ensures e in ErasePairs(b)
  {
    var m :| 0 <= m < |a| && ErasePairs(a)[m] == e;
    assert a[m] in b;
    var k :| 0 <= k < |b| && b[k] == a[m];
    assert ErasePairs(b)[k] == e;
  }

  lemma ReadKeysDistinct(ps: seq<SpannedEntry>, kvs: seq<Entry>)
    requires StrictlyAscending(kvs, KeyLe) && multiset(ErasePairs(ps)) == multiset(kvs)
    ensures Distinct(ps, SameErasedKey) && Distinct(ps, SameSpannedKey)
  {
    AscendingDistinct(kvs);
    DistinctPermutation(kvs, ErasePairs(ps), SameKey);
    ErasedDistinct(ps);
  }

  lemma CollectedEntries(ps: seq<SpannedEntry>, ws: seq<SpannedEntry>)
    requires Distinct(ps, SameErasedKey) && multiset(ws) == multiset(ps)
    ensures Distinct(ErasePairs(ws), SameKey)
    ensures forall e :: e in ErasePairs(ws) <==> e in ErasePairs(ps)
  {
    DistinctPermutation(ps, ws, SameErasedKey);
    ErasedDistinct(ws);
    SameElements(ws, ps);
    forall e ensures e in ErasePairs(ws) <==> e in ErasePairs(ps) {
      if e in ErasePairs(ws) { EraseEntryIncluded(ws, ps, e); }
      if e in ErasePairs(ps) { EraseEntryIncluded(ps, ws, e); }
    }
  }

  lemma MapCollected(es: seq<Entry>, rs: seq<Entry>, kvs: seq<Entry>)
    requires StrictlyAscending(kvs, KeyLe) && Distinct(es, SameKey)
    requires multiset(rs) == multiset(kvs) && forall e :: e in es <==> e in rs
    ensures MapFromIter(es) == kvs
  {
    SameElements(rs, kvs);
    MapElements(es);
    MapFromIterStrict(es);
    AscendingUnique(MapFromIter(es), kvs, KeyLe);
  }

  lemma ErasedMapIs(ws: seq<SpannedEntry>, kvs: seq<Entry>)
    requires MapFromIter(ErasePairs(ws)) == kvs
    ensures Erase(SMap(ws)) == Map(kvs)
  {
  }

  lemma ErasedSetIs(ws: seq<ValueAndSpan>, xs: seq<Value>)
    requires SetFromIter(EraseAll(ws)) == xs
    ensures Erase(SSet(ws)) == Set(xs)
  {
  }

  /** A map is the same however its entries were arranged when they were read. */
  lemma MapRebuilt(ps: seq<SpannedEntry>, kvs: seq<Entry>)
    requires StrictlyAscending(kvs, KeyLe) && multiset(ErasePairs(ps)) == multiset(kvs)
    ensures Erase(SMap(SpannedMapFromIter(ps))) == Map(kvs)
  {
    var ws := SpannedMapFromIter(ps);
    var es, rs := ErasePairs(ws), ErasePairs(ps);
    ReadKeysDistinct(ps, kvs);
    SpannedMapElements(ps);
    CollectedEntries(ps, ws);
    MapCollected(es, rs, kvs);
    ErasedMapIs(ws, kvs);
  }
}
