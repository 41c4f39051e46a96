/** Erasing spans, and when it loses nothing (edn/src/types.rs). */
module Erasure {
  import opened Prelude
  import opened Orders
  import opened Sorting
  import opened Values
  import opened Spanned

  // ---- Forgetting spans and nothing else ----

  /** The value as it is held, with repeated elements if there are any. */
  function Flat(v: SpannedValue): Value
    decreases v, 1
  {
    match v
    case Atom(a) => a
    case SVector(xs) => Vector(FlatAll(xs))
    case SList(xs) => List(FlatAll(xs))
    case SSet(xs) => Set(FlatAll(xs))
    case SMap(kvs) => Map(FlatPairs(kvs))
  }

  function FlatOf(v: ValueAndSpan): Value
    decreases v, 1
  {
    Flat(v.inner)
  }

  function FlatAll(xs: seq<ValueAndSpan>): (r: seq<Value>)
    ensures |r| == |xs|
    ensures forall i :: 0 <= i < |xs| ==> r[i] == FlatOf(xs[i])
    decreases xs, 0
  {
    if xs == [] then [] else [FlatOf(xs[0])] + FlatAll(xs[1..])
  }

  function FlatEntry(e: SpannedEntry): Entry
    decreases e, 1
  {
    Entry(FlatOf(e.key), FlatOf(e.val))
  }

  function FlatPairs(kvs: seq<SpannedEntry>): (r: seq<Entry>)
    ensures |r| == |kvs|
    ensures forall i :: 0 <= i < |kvs| ==> r[i] == FlatEntry(kvs[i])
    decreases kvs, 0
  {
    if kvs == [] then [] else [FlatEntry(kvs[0])] + FlatPairs(kvs[1..])
  }

  // ---- The order ignores spans ----

  lemma CollectionRank(v: Value)
    requires IsCollection(v)
    ensures Precedence(v) == (if v.Vector? then 12 else if v.List? then 13 else if v.Set? then 14 else 15)
  {
  }

  lemma AtomRank(v: AtomValue)
    ensures Precedence(v) < 12 || Precedence(v) == 16
  {
  }

  lemma FlatPrecedence(a: SpannedValue)
    requires !a.Atom?
    ensures Precedence(Flat(a)) == SPrecedence(a) && IsCollection(Flat(a))
  {
    CollectionRank(Flat(a));
  }

  lemma ByRank(x: Value, y: Value)
    requires Precedence(x) != Precedence(y) && (IsCollection(x) || IsCollection(y))
    ensures Cmp(x, y) == CmpInt(Precedence(x), Precedence(y))
  {
  }

  lemma DifferentKinds(a: SpannedValue, b: SpannedValue)
    requires !(a.SVector? && b.SVector?) && !(a.SList? && b.SList?) && !(a.SSet? && b.SSet?) && !(a.SMap? && b.SMap?)
    ensures SCmp(a, b) == Cmp(Flat(a), Flat(b))
  {
    if a.Atom? && !b.Atom? {
      AtomRank(a.v);
      FlatPrecedence(b);
      ByRank(a.v, Flat(b));
    } else if !a.Atom? && b.Atom? {
      AtomRank(b.v);
      FlatPrecedence(a);
      ByRank(Flat(a), b.v);
    } else if !a.Atom? {
      FlatPrecedence(a);
      FlatPrecedence(b);
      ByRank(Flat(a), Flat(b));
    }
  }

  /** For all values with spans, the order is the plain order of what they hold. */
  lemma {:induction false} OrderIgnoresSpans(a: SpannedValue, b: SpannedValue)
    ensures SCmp(a, b) == Cmp(Flat(a), Flat(b))
    decreases SNesting(a) + SNesting(b), 0
  {
    if a.SVector? && b.SVector? {
      AllIgnoreSpans(b.vs, a.vs);
    } else if a.SList? && b.SList? {
      AllIgnoreSpans(b.ls, a.ls);
    } else if a.SSet? && b.SSet? {
      AllIgnoreSpans(b.es, a.es);
      CmpSets(FlatAll(a.es), FlatAll(b.es));
    } else if a.SMap? && b.SMap? {
      PairsIgnoreSpans(b.kvs, a.kvs);
      CmpMaps(FlatPairs(a.kvs), FlatPairs(b.kvs));
    } else {
      DifferentKinds(a, b);
    }
  }

  lemma {:induction false} AllIgnoreSpans(a: seq<ValueAndSpan>, b: seq<ValueAndSpan>)
    ensures SLexAll(a, b) == LexValues(FlatAll(a), FlatAll(b))
    decreases SNestingAll(a) + SNestingAll(b), |a| + 2
  {
    if a != [] && b != [] {
      OrderIgnoresSpans(a[0].inner, b[0].inner);
      AllIgnoreSpans(a[1..], b[1..]);
    }
  }

  lemma {:induction false} EntryIgnoresSpans(a: SpannedEntry, b: SpannedEntry)
    ensures SCmpEntry(a, b) == CmpEntry(FlatEntry(a), FlatEntry(b))
    decreases SNestingEntry(a) + SNestingEntry(b), 2
  {
    assert SNestingEntry(a) == Max(SNesting(a.key.inner), SNesting(a.val.inner));
    assert SNestingEntry(b) == Max(SNesting(b.key.inner), SNesting(b.val.inner));
    OrderIgnoresSpans(a.key.inner, b.key.inner);
    OrderIgnoresSpans(a.val.inner, b.val.inner);
  }

  lemma {:induction false} PairsIgnoreSpans(a: seq<SpannedEntry>, b: seq<SpannedEntry>)
    ensures SLexPairs(a, b) == LexPairs(FlatPairs(a), FlatPairs(b))
    decreases SNestingPairs(a) + SNestingPairs(b), |a| + 3
  {
    if a != [] && b != [] {
      EntryIgnoresSpans(a[0], b[0]);
      PairsIgnoreSpans(a[1..], b[1..]);
    }
  }

  // ---- Values without repetition ----

  /** Every set and map inside is strictly ascending by the spanned order. */
  ghost predicate Canonical(v: SpannedValue)
    decreases v, 1
  {
    match v
    case Atom(_) => true
    case SVector(xs) => AllCanonical(xs)
    case SList(xs) => AllCanonical(xs)
    case SSet(xs) => AllCanonical(xs) && StrictlyAscending(xs, SpannedLe)
    case SMap(kvs) => PairsCanonical(kvs) && StrictlyAscending(kvs, SpannedKeyLe)
  }

  ghost predicate CanonicalOf(v: ValueAndSpan)
    decreases v, 1
  {
    Canonical(v.inner)
  }

  ghost predicate AllCanonical(xs: seq<ValueAndSpan>)
    decreases xs, 0
  {
    forall i :: 0 <= i < |xs| ==> CanonicalOf(xs[i])
  }

  ghost predicate EntryCanonical(e: SpannedEntry)
    decreases e, 1
  {
    CanonicalOf(e.key) && CanonicalOf(e.val)
  }

  ghost predicate PairsCanonical(kvs: seq<SpannedEntry>)
    decreases kvs, 0
  {
    forall i :: 0 <= i < |kvs| ==> EntryCanonical(kvs[i])
  }

  /** Two sequences compared alike at every pair of positions are strictly ascending together. */
  lemma SameComparisons<S, T>(xs: seq<S>, p: (S, S) -> bool, ys: seq<T>, q: (T, T) -> bool)
    requires |xs| == |ys|
    requires forall i, j :: 0 <= i < |xs| && 0 <= j < |xs| ==> p(xs[i], xs[j]) == q(ys[i], ys[j])
    ensures StrictlyAscending(xs, p) <==> StrictlyAscending(ys, q)
  {
  }

  lemma FlatAscending(xs: seq<ValueAndSpan>)
    ensures StrictlyAscending(xs, SpannedLe) <==> StrictlyAscending(FlatAll(xs), ValueLe)
  {
    var fs := FlatAll(xs);
    forall i, j | 0 <= i < |xs| && 0 <= j < |xs| ensures SpannedLe(xs[i], xs[j]) == ValueLe(fs[i], fs[j]) {
      OrderIgnoresSpans(xs[i].inner, xs[j].inner);
    }
    SameComparisons(xs, SpannedLe, fs, ValueLe);
  }

  lemma KeysIgnoreSpans(a: SpannedEntry, b: SpannedEntry)
    ensures SpannedKeyLe(a, b) == KeyLe(FlatEntry(a), FlatEntry(b))
  {
    OrderIgnoresSpans(a.key.inner, b.key.inner);
  }

  lemma FlatKeysAscending(kvs: seq<SpannedEntry>)
    ensures StrictlyAscending(kvs, SpannedKeyLe) <==> StrictlyAscending(FlatPairs(kvs), KeyLe)
  {
    var fs := FlatPairs(kvs);
    forall i, j | 0 <= i < |kvs| && 0 <= j < |kvs| ensures SpannedKeyLe(kvs[i], kvs[j]) == KeyLe(fs[i], fs[j]) {
      KeysIgnoreSpans(kvs[i], kvs[j]);
    }
    SameComparisons(kvs, SpannedKeyLe, fs, KeyLe);
  }

  lemma {:induction false} CanonicalIsWellFormed(v: SpannedValue)
    ensures Canonical(v) <==> WellFormed(Flat(v))
    decreases v, 1
  {
    if v.SVector? {
      AllCanonicalIsWellFormed(v.vs);
    } else if v.SList? {
      AllCanonicalIsWellFormed(v.ls);
    } else if v.SSet? {
      SetCanonicalIsWellFormed(v.es);
    } else if v.SMap? {
      MapCanonicalIsWellFormed(v.kvs);
    }
  }

  lemma {:induction false} SetCanonicalIsWellFormed(xs: seq<ValueAndSpan>)
    ensures Canonical(SSet(xs)) <==> WellFormed(Set(FlatAll(xs)))
    decreases xs, 1
  {
    AllCanonicalIsWellFormed(xs);
    FlatAscending(xs);
    SetUnfolded(xs, FlatAll(xs));
  }

  lemma SetUnfolded(xs: seq<ValueAndSpan>, es: seq<Value>)
    ensures Canonical(SSet(xs)) <==> AllCanonical(xs) && StrictlyAscending(xs, SpannedLe)
    ensures WellFormed(Set(es)) <==> AllWellFormed(es) && StrictlyAscending(es, ValueLe)
  {
  }

  lemma {:induction false} MapCanonicalIsWellFormed(kvs: seq<SpannedEntry>)
    ensures Canonical(SMap(kvs)) <==> WellFormed(Map(FlatPairs(kvs)))
    decreases kvs, 1
  {
    PairsCanonicalIsWellFormed(kvs);
    FlatKeysAscending(kvs);
    MapUnfolded(kvs, FlatPairs(kvs));
  }

  lemma MapUnfolded(kvs: seq<SpannedEntry>, es: seq<Entry>)
    ensures Canonical(SMap(kvs)) <==> PairsCanonical(kvs) && StrictlyAscending(kvs, SpannedKeyLe)
    ensures WellFormed(Map(es)) <==> PairsWellFormed(es) && StrictlyAscending(es, KeyLe)
  {
  }

  lemma {:induction false} OneCanonicalIsWellFormed(v: ValueAndSpan)
    ensures CanonicalOf(v) <==> WellFormed(FlatOf(v))
    decreases v, 1
  {
    CanonicalIsWellFormed(v.inner);
  }

  lemma {:induction false} AllCanonicalIsWellFormed(xs: seq<ValueAndSpan>)
    ensures AllCanonical(xs) <==> AllWellFormed(FlatAll(xs))
    decreases xs, 0
  {
    var fs := FlatAll(xs);
    forall i | 0 <= i < |xs| ensures CanonicalOf(xs[i]) <==> WellFormed(fs[i]) {
      OneCanonicalIsWellFormed(xs[i]);
    }
    assert AllCanonical(xs) ==> forall i :: 0 <= i < |fs| ==> WellFormed(fs[i]);
    assert AllWellFormed(fs) ==> forall i :: 0 <= i < |xs| ==> CanonicalOf(xs[i]);
  }

  lemma {:induction false} PairsCanonicalIsWellFormed(kvs: seq<SpannedEntry>)
    ensures PairsCanonical(kvs) <==> PairsWellFormed(FlatPairs(kvs))
    decreases kvs, 0
  {
    var fs := FlatPairs(kvs);
    forall i | 0 <= i < |kvs| ensures EntryCanonical(kvs[i]) <==> EntryWellFormed(fs[i]) {
      EntryCanonicalIsWellFormed(kvs[i]);
    }
    assert PairsCanonical(kvs) ==> forall i :: 0 <= i < |fs| ==> EntryWellFormed(fs[i]);
    assert PairsWellFormed(fs) ==> forall i :: 0 <= i < |kvs| ==> EntryCanonical(kvs[i]);
  }

  lemma {:induction false} EntryCanonicalIsWellFormed(e: SpannedEntry)
    ensures EntryCanonical(e) <==> EntryWellFormed(FlatEntry(e))
    decreases e, 1
  {
    OneCanonicalIsWellFormed(e.key);
    OneCanonicalIsWellFormed(e.val);
  }

  // ---- Erasing loses nothing exactly there ----

  lemma {:induction false} EraseOfCanonical(v: SpannedValue)
    requires Canonical(v)
    ensures Erase(v) == Flat(v)
    decreases v, 1
  {
    match v
    case Atom(_) =>
    case SVector(xs) => EraseAllOfCanonical(xs);
    case SList(xs) => EraseAllOfCanonical(xs);
    case SSet(xs) =>
      EraseAllOfCanonical(xs);
      FlatAscending(xs);
      SetFromIterIdentity(FlatAll(xs));
    case SMap(kvs) =>
      ErasePairsOfCanonical(kvs);
      FlatKeysAscending(kvs);
      MapFromIterIdentity(FlatPairs(kvs));
  }

  lemma {:induction false} EraseOneOfCanonical(v: ValueAndSpan)
    requires CanonicalOf(v)
    ensures WithoutSpans(v) == FlatOf(v)
    decreases v, 1
  {
    EraseOfCanonical(v.inner);
  }

  lemma {:induction false} EraseEntryOfCanonical(e: SpannedEntry)
    requires EntryCanonical(e)
    ensures EraseEntry(e) == FlatEntry(e)
    decreases e, 1
  {
    EraseOneOfCanonical(e.key);
    EraseOneOfCanonical(e.val);
  }

  lemma {:induction false} EraseAllOfCanonical(xs: seq<ValueAndSpan>)
    requires AllCanonical(xs)
    ensures EraseAll(xs) == FlatAll(xs)
    decreases xs, 0
  {
    forall i | 0 <= i < |xs| ensures EraseAll(xs)[i] == FlatAll(xs)[i] {
      EraseOneOfCanonical(xs[i]);
    }
  }

  lemma {:induction false} ErasePairsOfCanonical(kvs: seq<SpannedEntry>)
    requires PairsCanonical(kvs)
    ensures ErasePairs(kvs) == FlatPairs(kvs)
    decreases kvs, 0
  {
    forall i | 0 <= i < |kvs| ensures ErasePairs(kvs)[i] == FlatPairs(kvs)[i] {
      EraseEntryOfCanonical(kvs[i]);
    }
  }

  /** Erasing neither merges nor reorders anything, at any depth, exactly if no set or map repeats an element. */
  lemma ErasesNothingExactly(v: SpannedValue)
    ensures Erase(v) == Flat(v) <==> Canonical(v)
  {
    EraseWellFormed(v);
    CanonicalIsWellFormed(v);
    if Canonical(v) {
      EraseOfCanonical(v);
    }
  }

  // ---- The pull-back ----

  const NO_SPAN := Span(0, 0)

  /** Some spanned form of a value. */
  function Lift(v: Value): SpannedValue
    decreases v, 1
  {
    match v
    case Vector(xs) => SVector(LiftAll(xs))
    case List(xs) => SList(LiftAll(xs))
    case Set(xs) => SSet(LiftAll(xs))
    case Map(kvs) => SMap(LiftPairs(kvs))
    case _ => Atom(v)
  }

  function LiftAll(xs: seq<Value>): seq<ValueAndSpan>
    decreases xs, 0
  {
    if xs == [] then [] else [ValueAndSpan(Lift(xs[0]), NO_SPAN)] + LiftAll(xs[1..])
  }

  function LiftEntry(e: Entry): SpannedEntry
    decreases e, 1
  {
    SpannedEntry(ValueAndSpan(Lift(e.key), NO_SPAN), ValueAndSpan(Lift(e.val), NO_SPAN))
  }

  function LiftPairs(kvs: seq<Entry>): seq<SpannedEntry>
    decreases kvs, 0
  {
    if kvs == [] then [] else [LiftEntry(kvs[0])] + LiftPairs(kvs[1..])
  }

  lemma {:induction false} FlatOfLift(v: Value)
    ensures Flat(Lift(v)) == v
    decreases v, 1
  {
    match v
    case Vector(xs) => FlatOfLiftAll(xs);
    case List(xs) => FlatOfLiftAll(xs);
    case Set(xs) => FlatOfLiftAll(xs);
    case Map(kvs) => FlatOfLiftPairs(kvs);
    case _ =>
  }

  lemma {:induction false} FlatOfLiftAll(xs: seq<Value>)
    ensures FlatAll(LiftAll(xs)) == xs
    decreases xs, 0
  {
    if xs != [] {
      FlatOfLift(xs[0]);
      FlatOfLiftAll(xs[1..]);
      assert LiftAll(xs)[1..] == LiftAll(xs[1..]);
      assert xs == [xs[0]] + xs[1..];
    }
  }

  lemma {:induction false} FlatOfLiftEntry(e: Entry)
    ensures FlatEntry(LiftEntry(e)) == e
    decreases e, 1
  {
    FlatOfLift(e.key);
    FlatOfLift(e.val);
  }

  lemma {:induction false} FlatOfLiftPairs(kvs: seq<Entry>)
    ensures FlatPairs(LiftPairs(kvs)) == kvs
    decreases kvs, 0
  {
    if kvs != [] {
      FlatOfLiftEntry(kvs[0]);
      FlatOfLiftPairs(kvs[1..]);
      assert LiftPairs(kvs)[1..] == LiftPairs(kvs[1..]);
      assert kvs == [kvs[0]] + kvs[1..];
    }
  }

  ghost predicate PulledBack(a: SpannedValue, b: SpannedValue) {
    SCmp(a, b) == Cmp(Erase(a), Erase(b))
  }

  lemma PullBack(a: SpannedValue, b: SpannedValue)
    requires Canonical(a) && Canonical(b)
    ensures PulledBack(a, b)
  {
    OrderIgnoresSpans(a, b);
    EraseOfCanonical(a);
    EraseOfCanonical(b);
  }

  /**
   * Comparing with spans is comparing what is erased, against all values without repetition, exactly for such
   * values.
   */
  lemma PullBackExactly(a: SpannedValue)
    ensures Canonical(a) <==> forall b :: Canonical(b) ==> PulledBack(a, b)
  {
    if Canonical(a) {
      forall b | Canonical(b) ensures PulledBack(a, b) {
        PullBack(a, b);
      }
    } else {
      var b := Lift(Erase(a));
      FlatOfLift(Erase(a));
      EraseWellFormed(a);
      CanonicalIsWellFormed(b);
      EraseOfCanonical(b);
      OrderIgnoresSpans(a, b);
      ErasesNothingExactly(a);
      ValueOrderTotal(Flat(a), Erase(a), Flat(a));
      ValueOrderTotal(Erase(a), Erase(a), Erase(a));
      assert Canonical(b) && !PulledBack(a, b);
    }
  }

  /**
   * Reading one number twice into a set keeps both, because they carry different spans, and erasing the spans then
   * merges them: with such sets the order is no pull-back.
   */
  lemma RepeatedElementsMerge(n: I64, s: Span, t: Span)
    requires s != t
    ensures var x, y := ValueAndSpan(Atom(Integer(n)), s), ValueAndSpan(Atom(Integer(n)), t);
            && SpannedSetFromIter([x, y]) == [x, y]
            && Erase(SSet([x, y])) == Erase(SSet([x])) && !SCmp(SSet([x, y]), SSet([x])).Equal?
  {
    var x, y := ValueAndSpan(Atom(Integer(n)), s), ValueAndSpan(Atom(Integer(n)), t);
    BothKept(n, x, y);
    MergedOnErase(n, x, y);
    assert SLexAll([x][1..], [x, y][1..]) == Less;
    assert SLexAll([x], [x, y]) == Less;
  }

  lemma {:induction false} BothKept(n: I64, x: ValueAndSpan, y: ValueAndSpan)
    requires x.inner == y.inner == Atom(Integer(n)) && x != y
    ensures SCmpOf(x, x).Equal? && SpannedSetFromIter([x, y]) == [x, y]
  {
    var xs := [x, y];
    assert Cmp(Integer(n), Integer(n)) == Equal;
    assert SpannedLe(x, y);
    TwoSorted(x, y, SpannedLe);
    assert xs[1..] == [y];
    assert DropRepeats(xs[1..], SameSpanned) == [y];
  }

  lemma AtomErases(x: ValueAndSpan, v: AtomValue)
    requires x.inner == Atom(v)
    ensures WithoutSpans(x) == v
  {
  }

  lemma {:induction false} MergedOnErase(n: I64, x: ValueAndSpan, y: ValueAndSpan)
    requires x.inner == y.inner == Atom(Integer(n))
    ensures Erase(SSet([x, y])) == Set([Integer(n)]) && Erase(SSet([x])) == Set([Integer(n)])
  {
    var v := Integer(n);
    var vs, one := [v, v], [v];
    AtomErases(x, v);
    AtomErases(y, v);
    var xy, only := EraseAll([x, y]), EraseAll([x]);
    assert xy[0] == v && xy[1] == v && only[0] == v;
    assert xy == vs && only == one;
    ValueOrderTotal(v, v, v);
    TwoSorted(v, v, ValueLe);
    assert vs[1..] == one;
    assert DropRepeats(one, SameValue) == one;
    SortOfAscending(one, ValueLe);
    assert SetFromIter(vs) == one && SetFromIter(one) == one;
  }

  lemma TwoSorted<T(!new)>(x: T, y: T, le: (T, T) -> bool)
    requires le(x, y)
    ensures StableSort([x, y], le) == [x, y]
  {
    SortOfAscending([x, y], le);
  }
}
