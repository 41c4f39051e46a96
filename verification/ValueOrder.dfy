/** Which order the hand-written comparison of values is (edn/src/types.rs), told without the comparison. */
module ValueOrder {
  import opened Orders
  import opened Names
  import opened Values

  // ---- Kinds ----

  datatype Kind =
    | NilKind | BooleanKind | IntegerKind | BigIntegerKind | FloatKind | InstantKind | TextKind | UuidKind
    | PlainSymbolKind | NamespacedSymbolKind | KeywordKind | VectorKind | ListKind | SetKind | MapKind | BytesKind

  /** The kinds of values from the least to the greatest. */
  const KINDS: seq<Kind> := [
    NilKind, BooleanKind, IntegerKind, BigIntegerKind, FloatKind, InstantKind, TextKind, UuidKind,
    PlainSymbolKind, NamespacedSymbolKind, KeywordKind, VectorKind, ListKind, SetKind, MapKind, BytesKind]

  function KindOf(v: Value): Kind {
    match v
    case Nil => NilKind
    case Boolean(_) => BooleanKind
    case Integer(_) => IntegerKind
    case Instant(_) => InstantKind
    case BigInteger(_) => BigIntegerKind
    case Float(_) => FloatKind
    case Text(_) => TextKind
    case Uuid(_) => UuidKind
    case PlainSymbol(_) => PlainSymbolKind
    case NamespacedSymbol(_) => NamespacedSymbolKind
    case Keyword(_) => KeywordKind
    case Vector(_) => VectorKind
    case List(_) => ListKind
    case Set(_) => SetKind
    case Map(_) => MapKind
    case Bytes(_) => BytesKind
  }

  ghost predicate LesserKind(a: Kind, b: Kind) {
    exists i, j :: 0 <= i < j < |KINDS| && KINDS[i] == a && KINDS[j] == b
  }

  // ---- Atoms ----

  /** How far two sequences agree. */
  function Agreement<T(==)>(a: seq<T>, b: seq<T>): (k: nat)
    ensures k <= |a| && k <= |b| && a[..k] == b[..k] && (k < |a| && k < |b| ==> a[k] != b[k])
  {
    if a == [] || b == [] || a[0] != b[0] then 0
    else
      var k := Agreement(a[1..], b[1..]);
      assert a[..k + 1] == [a[0]] + a[1..][..k] && b[..k + 1] == [b[0]] + b[1..][..k];
      k + 1
  }

  /** Where they part, `a` ends or has the smaller character. */
  predicate Earlier(a: string, b: string) {
    var k := Agreement(a, b);
    k < |b| && (k < |a| ==> a[k] < b[k])
  }

  predicate EarlierInts(a: seq<int>, b: seq<int>) {
    var k := Agreement(a, b);
    k < |b| && (k < |a| ==> a[k] < b[k])
  }

  function NamespaceText(n: Name): string {
    if Namespace(n).Some? then Namespace(n).value else ""
  }

  /** The namespace decides, and the name among names of one namespace; no namespace is like an empty one. */
  ghost predicate EarlierName(a: Name, b: Name) {
    if NamespaceText(a) != NamespaceText(b) then Earlier(NamespaceText(a), NamespaceText(b))
    else Earlier(NameOf(a), NameOf(b))
  }

  predicate LessFloat(a: Float, b: Float) {
    match a
    case NegInfinity => !b.NegInfinity?
    case Finite(x) => b.PosInfinity? || b.NaN? || (b.Finite? && x < b.x)
    case PosInfinity => b.NaN?
    case NaN => false
  }

  // ---- Values ----

  /** The lesser kind comes first. Within a kind the greater value comes first, so collections turn it round again. */
  ghost predicate Before(a: Value, b: Value)
    decreases Nesting(a) + Nesting(b), 0
  {
    if KindOf(a) != KindOf(b) then LesserKind(KindOf(a), KindOf(b)) else
    match a
    case Nil => false
    case Boolean(x) => x && !b.b
    case Integer(x) => b.i < x
    case Instant(x) => b.at < x
    case BigInteger(x) => b.n < x
    case Float(x) => LessFloat(b.f, x)
    case Text(x) => Earlier(b.text, x)
    case Uuid(x) => b.u < x
    case PlainSymbol(x) => Earlier(b.sym, x)
    case NamespacedSymbol(x) => EarlierName(b.nsym, x)
    case Keyword(x) => EarlierName(b.kw, x)
    case Vector(x) => EarlierValues(b.vs, x)
    case List(x) => EarlierValues(b.ls, x)
    case Set(x) => EarlierValues(b.es, x)
    case Map(x) => EarlierEntries(b.kvs, x)
    case Bytes(x) => EarlierInts(b.bs, x)
  }

  /** Where they part, `a` ends or has the element that comes first. */
  ghost predicate EarlierValues(a: seq<Value>, b: seq<Value>)
    decreases NestingAll(a) + NestingAll(b), 1
  {
    var k := Agreement(a, b);
    k < |b| && (k < |a| ==> Before(a[k], b[k]))
  }

  /** The key decides, and the value among entries of one key. */
  ghost predicate EarlierEntry(a: Entry, b: Entry)
    decreases NestingEntry(a) + NestingEntry(b), 1
  {
    if a.key != b.key then Before(a.key, b.key) else Before(a.val, b.val)
  }

  ghost predicate EarlierEntries(a: seq<Entry>, b: seq<Entry>)
    decreases NestingPairs(a) + NestingPairs(b), 2
  {
    var k := Agreement(a, b);
    k < |b| && (k < |a| ==> EarlierEntry(a[k], b[k]))
  }

  // ---- Sequences ----

  lemma {:induction false} IntsMean(a: seq<int>, b: seq<int>)
    ensures LexInts(a, b).Less? <==> EarlierInts(a, b)
  {
    if a != [] && b != [] {
      IntsMean(a[1..], b[1..]);
    }
  }

  lemma StringsMean(a: string, b: string)
    ensures CmpString(a, b).Less? <==> Earlier(a, b)
  {
    IntsMean(CodePoints(a), CodePoints(b));
    SameAgreement(a, b);
  }

  lemma {:induction false} SameAgreement(a: string, b: string)
    ensures Agreement(CodePoints(a), CodePoints(b)) == Agreement(a, b)
  {
    if a != [] && b != [] && a[0] == b[0] {
      assert CodePoints(a)[1..] == CodePoints(a[1..]) && CodePoints(b)[1..] == CodePoints(b[1..]);
      SameAgreement(a[1..], b[1..]);
    }
  }

  lemma NamesMean(a: Name, b: Name)
    ensures CmpName(a, b).Less? <==> EarlierName(a, b)
  {
    var (an, a1) := Components(a);
    var (bn, b1) := Components(b);
    assert an == NamespaceText(a) && a1 == NameOf(a) && bn == NamespaceText(b) && b1 == NameOf(b);
    StringsMean(an, bn);
    StringsMean(a1, b1);
    CmpStringTotal(an, bn, "");
  }

  lemma {:induction false} ValuesMean(a: seq<Value>, b: seq<Value>)
    ensures LexValues(a, b).Less? <==> EarlierValues(a, b)
    decreases NestingAll(a) + NestingAll(b), |a| + 1
  {
    if a != [] && b != [] {
      OrderMeans(a[0], b[0]);
      CmpEqual(a[0], b[0]);
      ValuesMean(a[1..], b[1..]);
    }
  }

  lemma {:induction false} EntryMeans(a: Entry, b: Entry)
    ensures CmpEntry(a, b).Less? <==> EarlierEntry(a, b)
    decreases NestingEntry(a) + NestingEntry(b), 1
  {
    CmpEqual(a.key, b.key);
    OrderMeans(a.key, b.key);
    OrderMeans(a.val, b.val);
  }

  lemma {:induction false} EntriesMean(a: seq<Entry>, b: seq<Entry>)
    ensures LexPairs(a, b).Less? <==> EarlierEntries(a, b)
    decreases NestingPairs(a) + NestingPairs(b), |a| + 2
  {
    if a != [] && b != [] {
      EntryMeans(a[0], b[0]);
      CmpEntryEqual(a[0], b[0]);
      EntriesMean(a[1..], b[1..]);
    }
  }

  // ---- The order ----

  /** The rank of a kind among the numbers that the code gives them: keywords have two. */
  lemma RankOf(v: Value, i: nat)
    requires i < |KINDS| && KINDS[i] == KindOf(v)
    ensures Precedence(v) == i + (if i > 10 then 1 else if v.Keyword? && IsNamespaced(v.kw) then 1 else 0)
    ensures v.Keyword? <==> i == 10
  {
  }

  function PlaceOf(k: Kind): (i: nat)
    ensures i < |KINDS| && KINDS[i] == k
  {
    match k
    case NilKind => 0
    case BooleanKind => 1
    case IntegerKind => 2
    case BigIntegerKind => 3
    case FloatKind => 4
    case InstantKind => 5
    case TextKind => 6
    case UuidKind => 7
    case PlainSymbolKind => 8
    case NamespacedSymbolKind => 9
    case KeywordKind => 10
    case VectorKind => 11
    case ListKind => 12
    case SetKind => 13
    case MapKind => 14
    case BytesKind => 15
  }

  lemma OnePlace(i: nat, k: Kind)
    requires i < |KINDS| && KINDS[i] == k
    ensures i == PlaceOf(k)
  {
  }

  lemma LesserPlace(a: Kind, b: Kind)
    ensures LesserKind(a, b) <==> PlaceOf(a) < PlaceOf(b)
  {
    if LesserKind(a, b) {
      var i, j :| 0 <= i < j < |KINDS| && KINDS[i] == a && KINDS[j] == b;
      OnePlace(i, a);
      OnePlace(j, b);
    }
  }

  lemma OneKind(a: Value, b: Value)
    ensures SameKind(a, b) <==> KindOf(a) == KindOf(b)
  {
    RankOf(a, PlaceOf(KindOf(a)));
    RankOf(b, PlaceOf(KindOf(b)));
  }

  lemma KindsMean(a: Value, b: Value)
    requires KindOf(a) != KindOf(b)
    ensures Precedence(a) < Precedence(b) <==> LesserKind(KindOf(a), KindOf(b))
  {
    var i, j := PlaceOf(KindOf(a)), PlaceOf(KindOf(b));
    LesserPlace(KindOf(a), KindOf(b));
    RankOf(a, i);
    RankOf(b, j);
    assert KINDS[i] != KINDS[j];
  }

  /** The comparison is this order. */
  lemma {:induction false} OrderMeans(a: Value, b: Value)
    ensures Cmp(a, b).Less? <==> Before(a, b)
    decreases Nesting(a) + Nesting(b), 0
  {
    OneKind(a, b);
    if KindOf(a) != KindOf(b) {
      KindsMean(a, b);
    } else {
      match a
      case Text(x) => StringsMean(b.text, x);
      case PlainSymbol(x) => StringsMean(b.sym, x);
      case NamespacedSymbol(x) => NamesMean(b.nsym, x);
      case Keyword(x) => NamesMean(b.kw, x);
      case Vector(x) => ValuesMean(b.vs, x);
      case List(x) => ValuesMean(b.ls, x);
      case Set(x) => ValuesMean(b.es, x);
      case Map(x) => EntriesMean(b.kvs, x);
      case Bytes(x) => IntsMean(b.bs, x);
      case _ =>
    }
  }

  /** All three answers: before, the same, or after. */
  lemma OrderExactly(a: Value, b: Value)
    ensures Cmp(a, b) == if Before(a, b) then Less else if a == b then Equal else Greater
    ensures Before(a, b) <==> Cmp(b, a).Greater?
  {
    OrderMeans(a, b);
    CmpEqual(a, b);
    CmpFlip(a, b);
  }

  /** Collections that first differ in one element compare as these do, the other way round; a part comes last. */
  lemma FirstDifferenceDecides(p: seq<Value>, x: Value, y: Value, r: seq<Value>, s: seq<Value>)
    ensures var a, b := p + [x] + r, p + [y] + s;
            && (x != y ==> Cmp(Vector(a), Vector(b)) == Cmp(List(a), List(b)) == Cmp(Set(a), Set(b)) == Cmp(y, x))
            && Cmp(Vector(p), Vector(a)) == Cmp(List(p), List(a)) == Cmp(Set(p), Set(a)) == Greater
  {
    PartingDecides(p, x, y, r, s);
    ByElements(p + [x] + r, p + [y] + s);
    ByElements(p, p + [x] + r);
  }

  lemma PartingDecides(p: seq<Value>, x: Value, y: Value, r: seq<Value>, s: seq<Value>)
    ensures x != y ==> LexValues(p + [y] + s, p + [x] + r) == Cmp(y, x)
    ensures LexValues(p + [x] + r, p) == Greater
  {
    CommonPrefix(p, [x] + r, [y] + s);
    CommonPrefix(p, [], [x] + r);
    assert p + ([x] + r) == p + [x] + r && p + ([y] + s) == p + [y] + s && p + [] == p;
    CmpEqual(y, x);
  }

  lemma {:induction false} ByElements(a: seq<Value>, b: seq<Value>)
    ensures Cmp(Vector(a), Vector(b)) == Cmp(List(a), List(b)) == Cmp(Set(a), Set(b)) == LexValues(b, a)
  {
  }

  lemma {:induction false} CommonPrefix(p: seq<Value>, r: seq<Value>, s: seq<Value>)
    ensures LexValues(p + s, p + r) == LexValues(s, r)
  {
    if p == [] {
      assert p + s == s && p + r == r;
    } else {
      CommonPrefix(p[1..], r, s);
      assert (p + s)[1..] == p[1..] + s && (p + r)[1..] == p[1..] + r;
      CmpEqual(p[0], p[0]);
    }
  }

  /** The same for maps: the keys of the first entries that differ decide, and among equal keys the values. */
  lemma FirstEntryDecides(p: seq<Entry>, x: Entry, y: Entry, r: seq<Entry>, s: seq<Entry>)
    ensures var a, b := p + [x] + r, p + [y] + s;
            && (x.key != y.key ==> Cmp(Map(a), Map(b)) == Cmp(y.key, x.key))
            && (x.key == y.key && x.val != y.val ==> Cmp(Map(a), Map(b)) == Cmp(y.val, x.val))
            && Cmp(Map(p), Map(a)) == Greater
  {
    CommonEntries(p, [x] + r, [y] + s);
    CommonEntries(p, [], [x] + r);
    assert p + ([x] + r) == p + [x] + r && p + ([y] + s) == p + [y] + s && p + [] == p;
    CmpEqual(y.key, x.key);
    CmpEqual(y.val, x.val);
  }

  lemma {:induction false} CommonEntries(p: seq<Entry>, r: seq<Entry>, s: seq<Entry>)
    ensures LexPairs(p + s, p + r) == LexPairs(s, r)
  {
    if p == [] {
      assert p + s == s && p + r == r;
    } else {
      CommonEntries(p[1..], r, s);
      assert (p + s)[1..] == p[1..] + s && (p + r)[1..] == p[1..] + r;
      CmpEntryEqual(p[0], p[0]);
    }
  }
}
