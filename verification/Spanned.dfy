/** Values with source spans, their order, and the erasure of spans (edn/src/types.rs). */
module Spanned {
  import opened Prelude
  import opened Orders
  import opened Sorting
  import opened Values

  predicate IsCollection(v: Value) {
    v.Vector? || v.List? || v.Set? || v.Map?
  }

  type AtomValue = v: Value | !IsCollection(v) witness Nil

  /** Offsets are cast from `usize` to `u32`. */
  type U32 = x: int | 0 <= x < 0x1_0000_0000

  datatype Span = Span(start: U32, end: U32)

  function NewSpan(start: nat, end: nat): Span {
    Span(start % 0x1_0000_0000, end % 0x1_0000_0000)
  }

  /** The parallel of `Value` whose collections hold spanned children. Atoms are shared. */
  datatype SpannedValue =
    | Atom(v: AtomValue)
    | SVector(vs: seq<ValueAndSpan>)
    | SList(ls: seq<ValueAndSpan>)
    | SSet(es: seq<ValueAndSpan>)
    | SMap(kvs: seq<SpannedEntry>)

  datatype ValueAndSpan = ValueAndSpan(inner: SpannedValue, span: Span)

  datatype SpannedEntry = SpannedEntry(key: ValueAndSpan, val: ValueAndSpan)

  function SNesting(v: SpannedValue): nat
    decreases v, 1
  {
    match v
    case Atom(_) => 0
    case SVector(xs) => 1 + SNestingAll(xs)
    case SList(xs) => 1 + SNestingAll(xs)
    case SSet(xs) => 1 + SNestingAll(xs)
    case SMap(kvs) => 1 + SNestingPairs(kvs)
  }

  function SNestingOf(v: ValueAndSpan): nat
    decreases v, 1
  {
    SNesting(v.inner)
  }

  function SNestingAll(xs: seq<ValueAndSpan>): (n: nat)
    decreases xs, 0
    ensures forall i :: 0 <= i < |xs| ==> SNestingOf(xs[i]) <= n
  {
    if xs == [] then 0 else Max(SNestingOf(xs[0]), SNestingAll(xs[1..]))
  }

  function SNestingEntry(e: SpannedEntry): nat
    decreases e, 1
  {
    Max(SNestingOf(e.key), SNestingOf(e.val))
  }

  function SNestingPairs(kvs: seq<SpannedEntry>): (n: nat)
    decreases kvs, 0
    ensures forall i :: 0 <= i < |kvs| ==> SNestingEntry(kvs[i]) <= n
  {
    if kvs == [] then 0 else Max(SNestingEntry(kvs[0]), SNestingPairs(kvs[1..]))
  }

  function SPrecedence(v: SpannedValue): int {
    match v
    case Atom(a) => Precedence(a)
    case SVector(_) => 12
    case SList(_) => 13
    case SSet(_) => 14
    case SMap(_) => 15
  }

  /** The same comparison as for `Value`, over spanned children. */
  function SCmp(a: SpannedValue, b: SpannedValue): Ordering
    decreases SNesting(a) + SNesting(b), 0
  {
    match a
    case Atom(x) => if b.Atom? then Cmp(x, b.v) else CmpInt(SPrecedence(a), SPrecedence(b))
    case SVector(x) => if b.SVector? then SLexAll(b.vs, x) else CmpInt(SPrecedence(a), SPrecedence(b))
    case SList(x) => if b.SList? then SLexAll(b.ls, x) else CmpInt(SPrecedence(a), SPrecedence(b))
    case SSet(x) => if b.SSet? then SLexAll(b.es, x) else CmpInt(SPrecedence(a), SPrecedence(b))
    case SMap(x) => if b.SMap? then SLexPairs(b.kvs, x) else CmpInt(SPrecedence(a), SPrecedence(b))
  }

  /** Values with spans compare by the value alone. */
  function SCmpOf(a: ValueAndSpan, b: ValueAndSpan): Ordering
    decreases SNestingOf(a) + SNestingOf(b), 1
  {
    SCmp(a.inner, b.inner)
  }

  function SLexAll(a: seq<ValueAndSpan>, b: seq<ValueAndSpan>): Ordering
    decreases SNestingAll(a) + SNestingAll(b), |a| + 2
  {
    if a == [] && b == [] then Equal
    else if a == [] then Less
    else if b == [] then Greater
    else Then(SCmpOf(a[0], b[0]), SLexAll(a[1..], b[1..]))
  }

  function SCmpEntry(a: SpannedEntry, b: SpannedEntry): Ordering
    decreases SNestingEntry(a) + SNestingEntry(b), 2
  {
    Then(SCmpOf(a.key, b.key), SCmpOf(a.val, b.val))
  }

  function SLexPairs(a: seq<SpannedEntry>, b: seq<SpannedEntry>): Ordering
    decreases SNestingPairs(a) + SNestingPairs(b), |a| + 3
  {
    if a == [] && b == [] then Equal
    else if a == [] then Less
    else if b == [] then Greater
    else Then(SCmpEntry(a[0], b[0]), SLexPairs(a[1..], b[1..]))
  }

  predicate SpannedLe(a: ValueAndSpan, b: ValueAndSpan) {
    !SCmpOf(a, b).Greater?
  }

  predicate SpannedKeyLe(a: SpannedEntry, b: SpannedEntry) {
    SpannedLe(a.key, b.key)
  }

  // `BTreeSet::from_iter` and `BTreeMap::from_iter`: a stable sort by `Ord`, after which an element
  // whose successor has an `==` key is dropped. Derived equality looks at spans, the order does not.

  predicate SameValue(a: Value, b: Value) { a == b }
  predicate SameKey(a: Entry, b: Entry) { a.key == b.key }
  predicate SameSpanned(a: ValueAndSpan, b: ValueAndSpan) { a == b }
  predicate SameSpannedKey(a: SpannedEntry, b: SpannedEntry) { a.key == b.key }

  function SetFromIter(xs: seq<Value>): seq<Value> {
    DropRepeats(StableSort(xs, ValueLe), SameValue)
  }

  function MapFromIter(kvs: seq<Entry>): seq<Entry> {
    DropRepeats(StableSort(kvs, KeyLe), SameKey)
  }

  function SpannedSetFromIter(xs: seq<ValueAndSpan>): seq<ValueAndSpan> {
    DropRepeats(StableSort(xs, SpannedLe), SameSpanned)
  }

  function SpannedMapFromIter(kvs: seq<SpannedEntry>): seq<SpannedEntry> {
    DropRepeats(StableSort(kvs, SpannedKeyLe), SameSpannedKey)
  }

  /** `From<SpannedValue> for Value`: sets and maps are collected anew. */
  function Erase(v: SpannedValue): Value
    decreases v, 1
  {
    match v
    case Atom(a) => a
    case SVector(xs) => Vector(EraseAll(xs))
    case SList(xs) => List(EraseAll(xs))
    case SSet(xs) => Set(SetFromIter(EraseAll(xs)))
    case SMap(kvs) => Map(MapFromIter(ErasePairs(kvs)))
  }

  function WithoutSpans(v: ValueAndSpan): Value
    decreases v, 1
  {
    Erase(v.inner)
  }

  function EraseAll(xs: seq<ValueAndSpan>): (r: seq<Value>)
    decreases xs, 0
    ensures |r| == |xs|
    ensures forall i :: 0 <= i < |xs| ==> r[i] == WithoutSpans(xs[i])
  {
    if xs == [] then [] else [WithoutSpans(xs[0])] + EraseAll(xs[1..])
  }

  function EraseEntry(e: SpannedEntry): Entry
    decreases e, 1
  {
    Entry(WithoutSpans(e.key), WithoutSpans(e.val))
  }

  function ErasePairs(kvs: seq<SpannedEntry>): (r: seq<Entry>)
    decreases kvs, 0
    ensures |r| == |kvs|
    ensures forall i :: 0 <= i < |kvs| ==> r[i] == EraseEntry(kvs[i])
  {
    if kvs == [] then [] else [EraseEntry(kvs[0])] + ErasePairs(kvs[1..])
  }

  // ---- Well-formed values: what the tree collections guarantee ----

  ghost predicate WellFormed(v: Value)
    decreases v, 1
  {
    match v
    case Vector(xs) => AllWellFormed(xs)
    case List(xs) => AllWellFormed(xs)
    case Set(xs) => AllWellFormed(xs) && StrictlyAscending(xs, ValueLe)
    case Map(kvs) => PairsWellFormed(kvs) && StrictlyAscending(kvs, KeyLe)
    case _ => true
  }

  ghost predicate AllWellFormed(xs: seq<Value>)
    decreases xs, 0
  {
    forall i :: 0 <= i < |xs| ==> WellFormed(xs[i])
  }

  ghost predicate EntryWellFormed(e: Entry)
    decreases e, 1
  {
    WellFormed(e.key) && WellFormed(e.val)
  }

  ghost predicate PairsWellFormed(kvs: seq<Entry>)
    decreases kvs, 0
  {
    forall i :: 0 <= i < |kvs| ==> EntryWellFormed(kvs[i])
  }

  lemma ValueLePreorder()
    ensures TotalPreorder(ValueLe)
    ensures forall x, y :: ValueLe(x, y) && ValueLe(y, x) ==> SameValue(x, y)
  {
    forall x: Value, y: Value ensures (ValueLe(x, y) || ValueLe(y, x)) && (ValueLe(x, y) && ValueLe(y, x) ==> x == y) {
      ValueOrderTotal(x, y, x);
    }
    forall x: Value, y: Value, z: Value | ValueLe(x, y) && ValueLe(y, z) ensures ValueLe(x, z) {
      ValueOrderTotal(x, y, z);
    }
  }

  lemma KeyLePreorder()
    ensures TotalPreorder(KeyLe)
    ensures forall x, y :: KeyLe(x, y) && KeyLe(y, x) ==> SameKey(x, y)
  {
    ValueLePreorder();
    assert forall x: Entry, y: Entry :: KeyLe(x, y) == ValueLe(x.key, y.key);
  }

  /** A collected set is strictly ascending and holds exactly the collected elements. */
  lemma SetFromIterStrict(xs: seq<Value>)
    ensures StrictlyAscending(SetFromIter(xs), ValueLe)
    ensures forall x :: x in SetFromIter(xs) <==> x in xs
  {
    ValueLePreorder();
    var sorted := StableSort(xs, ValueLe);
    StableSortAscending(xs, ValueLe);
    DropRepeatsStrict(sorted, ValueLe, SameValue);
    forall x ensures x in SetFromIter(xs) <==> x in xs {
      assert x in xs <==> x in multiset(xs);
      assert x in sorted <==> x in multiset(sorted);
      if x in sorted {
        var i :| 0 <= i < |sorted| && sorted[i] == x;
        DropRepeatsKeeps(sorted, SameValue, i);
      }
    }
  }

  ghost predicate LastOfKey(kvs: seq<Entry>, i: int) {
    0 <= i < |kvs| && forall j :: i < j < |kvs| ==> kvs[j].key != kvs[i].key
  }

  /** A collected map holds, in order of its keys, exactly the last entry of every collected key. */
  lemma MapFromIterExactly(kvs: seq<Entry>)
    ensures StrictlyAscending(MapFromIter(kvs), KeyLe)
    ensures forall i :: LastOfKey(kvs, i) ==> kvs[i] in MapFromIter(kvs)
    ensures forall e :: e in MapFromIter(kvs) ==> exists i :: LastOfKey(kvs, i) && kvs[i] == e
  {
    MapFromIterStrict(kvs);
    forall i | LastOfKey(kvs, i) ensures kvs[i] in MapFromIter(kvs) {
      LastEntryStays(kvs, i);
    }
    forall e | e in MapFromIter(kvs) ensures exists i :: LastOfKey(kvs, i) && kvs[i] == e {
      OnlyLastEntryStays(kvs, e);
    }
  }

  lemma EquivalentKeys(a: Entry, b: Entry)
    ensures KeyLe(a, b) && KeyLe(b, a) <==> a.key == b.key
  {
    ValueOrderTotal(a.key, b.key, a.key);
  }

  lemma LastEntryStays(kvs: seq<Entry>, i: int)
    requires LastOfKey(kvs, i)
    ensures kvs[i] in MapFromIter(kvs)
  {
    var e, sorted := kvs[i], StableSort(kvs, KeyLe);
    KeyLePreorder();
    forall j | 0 <= j < |kvs| ensures KeyLe(e, kvs[j]) && KeyLe(kvs[j], e) <==> kvs[j].key == e.key {
      EquivalentKeys(e, kvs[j]);
    }
    LastEquivalent(kvs, e, KeyLe, i);
    StableSortKeepsEquivalents(kvs, e, KeyLe);
    var k := FindLastEquivalent(sorted, e, KeyLe);
    LastEquivalent(sorted, e, KeyLe, k);
    assert sorted[k] == e;
    if k + 1 < |sorted| {
      EquivalentKeys(e, sorted[k + 1]);
    }
    DropRepeatsKeepsLast(sorted, SameKey, k);
  }

  lemma OnlyLastEntryStays(kvs: seq<Entry>, e: Entry)
    requires e in MapFromIter(kvs)
    ensures exists i :: LastOfKey(kvs, i) && kvs[i] == e
  {
    MapFromIterStrict(kvs);
    KeyLePreorder();
    var a :| 0 <= a < |kvs| && kvs[a] == e;
    SomeEquivalent(kvs, e, KeyLe, a);
    var i := FindLastEquivalent(kvs, e, KeyLe);
    EquivalentKeys(e, kvs[i]);
    forall j | i < j < |kvs| ensures kvs[j].key != kvs[i].key {
      EquivalentKeys(e, kvs[j]);
    }
    LastEntryStays(kvs, i);
    SameKeySameEntry(MapFromIter(kvs), e, kvs[i]);
  }

  lemma SameKeySameEntry(es: seq<Entry>, a: Entry, b: Entry)
    requires StrictlyAscending(es, KeyLe) && a in es && b in es && a.key == b.key
    ensures a == b
  {
    var i :| 0 <= i < |es| && es[i] == a;
    var j :| 0 <= j < |es| && es[j] == b;
    EquivalentKeys(a, b);
  }

  lemma MapFromIterStrict(kvs: seq<Entry>)
    ensures StrictlyAscending(MapFromIter(kvs), KeyLe)
    ensures forall e :: e in MapFromIter(kvs) ==> e in kvs
  {
    KeyLePreorder();
    var sorted := StableSort(kvs, KeyLe);
    StableSortAscending(kvs, KeyLe);
    DropRepeatsStrict(sorted, KeyLe, SameKey);
    forall e | e in MapFromIter(kvs) ensures e in kvs {
      assert e in sorted;
      assert e in multiset(sorted);
    }
  }

  /** Collecting a strictly ascending sequence changes nothing, and only then. */
  lemma SetFromIterIdentity(xs: seq<Value>)
    ensures SetFromIter(xs) == xs <==> StrictlyAscending(xs, ValueLe)
  {
    SetFromIterStrict(xs);
    if StrictlyAscending(xs, ValueLe) {
      SortOfAscending(xs, ValueLe);
      DropRepeatsNothing(xs, SameValue);
    }
  }

  lemma MapFromIterIdentity(kvs: seq<Entry>)
    ensures MapFromIter(kvs) == kvs <==> StrictlyAscending(kvs, KeyLe)
  {
    MapFromIterStrict(kvs);
    if StrictlyAscending(kvs, KeyLe) {
      SortOfAscending(kvs, KeyLe);
      DropRepeatsNothing(kvs, SameKey);
    }
  }

  /** Erasing spans always yields a well-formed value, whatever the spanned collections hold. */
  lemma {:induction false} EraseWellFormed(v: SpannedValue)
    ensures WellFormed(Erase(v))
    decreases v, 1
  {
    match v
    case Atom(_) =>
    case SVector(xs) => EraseAllWellFormed(xs);
    case SList(xs) => EraseAllWellFormed(xs);
    case SSet(xs) =>
      EraseAllWellFormed(xs);
      SetFromIterStrict(EraseAll(xs));
      assert forall x :: x in SetFromIter(EraseAll(xs)) ==> x in EraseAll(xs);
    case SMap(kvs) =>
      ErasePairsWellFormed(kvs);
      MapFromIterStrict(ErasePairs(kvs));
  }

  lemma {:induction false} EraseOfWellFormed(v: ValueAndSpan)
    ensures WellFormed(WithoutSpans(v))
    decreases v, 1
  {
    EraseWellFormed(v.inner);
  }

  lemma {:induction false} EraseAllWellFormed(xs: seq<ValueAndSpan>)
    ensures AllWellFormed(EraseAll(xs))
    ensures forall x :: x in EraseAll(xs) ==> WellFormed(x)
    decreases xs, 0
  {
    forall i | 0 <= i < |xs| ensures WellFormed(EraseAll(xs)[i]) {
      EraseOfWellFormed(xs[i]);
    }
  }

  lemma {:induction false} EraseEntryWellFormed(e: SpannedEntry)
    ensures EntryWellFormed(EraseEntry(e))
    decreases e, 1
  {
    EraseOfWellFormed(e.key);
    EraseOfWellFormed(e.val);
  }

  lemma {:induction false} ErasePairsWellFormed(kvs: seq<SpannedEntry>)
    ensures PairsWellFormed(ErasePairs(kvs))
    ensures forall e :: e in ErasePairs(kvs) ==> EntryWellFormed(e)
    decreases kvs, 0
  {
    forall i | 0 <= i < |kvs| ensures EntryWellFormed(ErasePairs(kvs)[i]) {
      EraseEntryWellFormed(kvs[i]);
    }
  }

  // ---- Nesting of collected sets and maps ----

  lemma {:induction false} NestingByElements(xs: seq<ValueAndSpan>, n: nat)
    ensures SNestingAll(xs) <= n <==> forall x :: x in xs ==> SNestingOf(x) <= n
  {
    if xs != [] {
      var rest := xs[1..];
      NestingByElements(rest, n);
      assert xs[0] in xs && forall x :: x in rest ==> x in xs;
      if SNestingAll(xs) <= n {
        forall x | x in xs ensures SNestingOf(x) <= n {
          assert x == xs[0] || x in rest;
        }
      }
    }
  }

  /** Collecting a spanned set keeps its elements: only identical elements are dropped. */
  lemma SpannedSetElements(xs: seq<ValueAndSpan>)
    ensures forall x :: x in SpannedSetFromIter(xs) <==> x in xs
  {
    var sorted := StableSort(xs, SpannedLe);
    forall x ensures x in SpannedSetFromIter(xs) <==> x in xs {
      assert x in xs <==> x in multiset(xs);
      assert x in sorted <==> x in multiset(sorted);
      if x in sorted {
        var i :| 0 <= i < |sorted| && sorted[i] == x;
        DropRepeatsKeeps(sorted, SameSpanned, i);
      }
    }
  }

  lemma SpannedSetNesting(xs: seq<ValueAndSpan>)
    ensures SNestingAll(SpannedSetFromIter(xs)) == SNestingAll(xs)
  {
    var ys := SpannedSetFromIter(xs);
    SpannedSetElements(xs);
    NestingByElements(xs, SNestingAll(xs));
    NestingByElements(ys, SNestingAll(xs));
    NestingByElements(xs, SNestingAll(ys));
    NestingByElements(ys, SNestingAll(ys));
  }

  lemma {:induction false} NestingByEntries(kvs: seq<SpannedEntry>, n: nat)
    ensures SNestingPairs(kvs) <= n <==> forall e :: e in kvs ==> SNestingEntry(e) <= n
  {
    if kvs != [] {
      var rest := kvs[1..];
      NestingByEntries(rest, n);
      assert kvs[0] in kvs && forall e :: e in rest ==> e in kvs;
      if SNestingPairs(kvs) <= n {
        forall e | e in kvs ensures SNestingEntry(e) <= n {
          assert e == kvs[0] || e in rest;
        }
      }
    }
  }

  /** Collecting a spanned map keeps every entry when no two keys are identical, span included. */
  lemma SpannedMapElements(kvs: seq<SpannedEntry>)
    requires Distinct(kvs, SameSpannedKey)
    ensures multiset(SpannedMapFromIter(kvs)) == multiset(kvs)
    ensures forall e :: e in SpannedMapFromIter(kvs) <==> e in kvs
  {
    var sorted := StableSort(kvs, SpannedKeyLe);
    DistinctPermutation(kvs, sorted, SameSpannedKey);
    DropRepeatsNothing(sorted, SameSpannedKey);
    forall e ensures e in SpannedMapFromIter(kvs) <==> e in kvs {
      assert e in kvs <==> e in multiset(kvs);
      assert e in sorted <==> e in multiset(sorted);
    }
  }

  lemma SpannedMapNesting(kvs: seq<SpannedEntry>)
    requires Distinct(kvs, SameSpannedKey)
    ensures SNestingPairs(SpannedMapFromIter(kvs)) == SNestingPairs(kvs)
  {
    var ys := SpannedMapFromIter(kvs);
    SpannedMapElements(kvs);
    NestingByEntries(kvs, SNestingPairs(kvs));
    NestingByEntries(ys, SNestingPairs(kvs));
    NestingByEntries(kvs, SNestingPairs(ys));
    NestingByEntries(ys, SNestingPairs(ys));
  }

  /**
   * Spans are 32 bits wide: a key read again 4 GiB further on carries the same span, and its first entry is
   * dropped.
   */
  lemma WrappedSpansMerge(key: AtomValue, start: nat, end: nat, v: ValueAndSpan, w: ValueAndSpan)
    ensures var far := 0x1_0000_0000;
            var a := SpannedEntry(ValueAndSpan(Atom(key), NewSpan(start, end)), v);
            var b := SpannedEntry(ValueAndSpan(Atom(key), NewSpan(start + far, end + far)), w);
            SpannedMapFromIter([a, b]) == [b]
  {
    var far := 0x1_0000_0000;
    var a := SpannedEntry(ValueAndSpan(Atom(key), NewSpan(start, end)), v);
    var b := SpannedEntry(ValueAndSpan(Atom(key), NewSpan(start + far, end + far)), w);
    assert (start + far) % far == start % far && (end + far) % far == end % far;
    ValueOrderTotal(key, key, key);
    assert SCmp(Atom(key), Atom(key)) == Equal;
    SameKeyMerges(a, b);
  }

  lemma SameKeyMerges(a: SpannedEntry, b: SpannedEntry)
    requires a.key == b.key && SCmp(a.key.inner, b.key.inner) == Equal
    ensures SpannedMapFromIter([a, b]) == [b]
  {
    var es := [a, b];
    assert SpannedKeyLe(a, b);
    SortOfAscending(es, SpannedKeyLe);
    assert es[1..] == [b] && SameSpannedKey(a, b);
    assert DropRepeats([b], SameSpannedKey) == [b];
  }
}
