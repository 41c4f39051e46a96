/** EDN values and their hand-written order (edn/src/types.rs). */
module Values {
  import opened Prelude
  import opened Orders
  import opened Names

  /** `OrderedFloat<f64>`: NaN equals itself and is greatest; the two zeroes are equal. */
  datatype Float = NegInfinity | Finite(x: real) | PosInfinity | NaN

  /** Sets and maps list their elements in tree order; `WellFormed` says that it is the order of `Cmp`. */
  datatype Value =
    | Nil
    | Boolean(b: bool)
    | Integer(i: I64)
    | Instant(at: int)
    | BigInteger(n: int)
    | Float(f: Float)
    | Text(text: string)
    | Uuid(u: nat)
    | PlainSymbol(sym: string)
    | NamespacedSymbol(nsym: QualifiedName)
    | Keyword(kw: Name)
    | Vector(vs: seq<Value>)
    | List(ls: seq<Value>)
    | Set(es: seq<Value>)
    | Map(kvs: seq<Entry>)
    | Bytes(bs: seq<Byte>)

  datatype Entry = Entry(key: Value, val: Value)

  /** Number of nested collections; zero for an atom. */
  function Nesting(v: Value): nat
    decreases v, 1
  {
    match v
    case Vector(xs) => 1 + NestingAll(xs)
    case List(xs) => 1 + NestingAll(xs)
    case Set(xs) => 1 + NestingAll(xs)
    case Map(kvs) => 1 + NestingPairs(kvs)
    case _ => 0
  }

  function NestingAll(xs: seq<Value>): (n: nat)
    decreases xs, 0
    ensures forall i :: 0 <= i < |xs| ==> Nesting(xs[i]) <= n
  {
    if xs == [] then 0 else Max(Nesting(xs[0]), NestingAll(xs[1..]))
  }

  function NestingEntry(e: Entry): nat
    decreases e, 1
  {
    Max(Nesting(e.key), Nesting(e.val))
  }

  function NestingPairs(kvs: seq<Entry>): (n: nat)
    decreases kvs, 0
    ensures forall i :: 0 <= i < |kvs| ==> NestingEntry(kvs[i]) <= n
  {
    if kvs == [] then 0 else Max(NestingEntry(kvs[0]), NestingPairs(kvs[1..]))
  }

  function Precedence(v: Value): int {
    match v
    case Nil => 0
    case Boolean(_) => 1
    case Integer(_) => 2
    case BigInteger(_) => 3
    case Float(_) => 4
    case Instant(_) => 5
    case Text(_) => 6
    case Uuid(_) => 7
    case PlainSymbol(_) => 8
    case NamespacedSymbol(_) => 9
    case Keyword(k) => if !IsNamespaced(k) then 10 else 11
    case Vector(_) => 12
    case List(_) => 13
    case Set(_) => 14
    case Map(_) => 15
    case Bytes(_) => 16
  }

  function CmpBool(a: bool, b: bool): Ordering {
    if a == b then Equal else if b then Less else Greater
  }

  function FloatRank(f: Float): int {
    match f
    case NegInfinity => 0
    case Finite(_) => 1
    case PosInfinity => 2
    case NaN => 3
  }

  function CmpFloat(a: Float, b: Float): Ordering {
    if a.Finite? && b.Finite? then CmpReal(a.x, b.x) else CmpInt(FloatRank(a), FloatRank(b))
  }

  predicate SameKind(a: Value, b: Value) {
    Precedence(a) == Precedence(b) || (a.Keyword? && b.Keyword?)
  }

  /** The order of `Value`. Values of different kinds compare by rank; keywords, plain or not, are one
      kind. Values of one kind compare with their arguments exchanged, so inside collections the
      direction turns round at every level. */
  function Cmp(a: Value, b: Value): Ordering
    decreases Nesting(a) + Nesting(b), 0
  {
    if !SameKind(a, b) then CmpInt(Precedence(a), Precedence(b)) else
    match a
    case Nil => Equal
    case Boolean(x) => CmpBool(b.b, x)
    case Integer(x) => CmpInt(b.i, x)
    case Instant(x) => CmpInt(b.at, x)
    case BigInteger(x) => CmpInt(b.n, x)
    case Float(x) => CmpFloat(b.f, x)
    case Text(x) => CmpString(b.text, x)
    case Uuid(x) => CmpInt(b.u, x)
    case PlainSymbol(x) => CmpString(b.sym, x)
    case NamespacedSymbol(x) => CmpName(b.nsym, x)
    case Keyword(x) => CmpName(b.kw, x)
    case Vector(x) => LexValues(b.vs, x)
    case List(x) => LexValues(b.ls, x)
    case Set(x) => LexValues(b.es, x)
    case Map(x) => LexPairs(b.kvs, x)
    case Bytes(x) => LexInts(b.bs, x)
  }

  function LexValues(a: seq<Value>, b: seq<Value>): Ordering
    decreases NestingAll(a) + NestingAll(b), |a| + 1
  {
    if a == [] && b == [] then Equal
    else if a == [] then Less
    else if b == [] then Greater
    else Then(Cmp(a[0], b[0]), LexValues(a[1..], b[1..]))
  }

  /** Key and value of one map entry, as Rust compares a pair. */
  function CmpEntry(a: Entry, b: Entry): Ordering
    decreases NestingEntry(a) + NestingEntry(b), 1
  {
    Then(Cmp(a.key, b.key), Cmp(a.val, b.val))
  }

  function LexPairs(a: seq<Entry>, b: seq<Entry>): Ordering
    decreases NestingPairs(a) + NestingPairs(b), |a| + 2
  {
    if a == [] && b == [] then Equal
    else if a == [] then Less
    else if b == [] then Greater
    else Then(CmpEntry(a[0], b[0]), LexPairs(a[1..], b[1..]))
  }

  lemma CmpMaps(x: seq<Entry>, y: seq<Entry>)
    ensures Cmp(Map(x), Map(y)) == LexPairs(y, x)
  {
  }

  lemma CmpSets(x: seq<Value>, y: seq<Value>)
    ensures Cmp(Set(x), Set(y)) == LexValues(y, x)
  {
  }

  /** Only equal values compare Equal. */
  lemma {:induction false} CmpEqual(a: Value, b: Value)
    ensures Cmp(a, b).Equal? <==> a == b
    decreases Nesting(a) + Nesting(b), 0
  {
    if SameKind(a, b) {
      match a
      case Text(x) => CmpStringTotal(b.text, x, x);
      case PlainSymbol(x) => CmpStringTotal(b.sym, x, x);
      case NamespacedSymbol(x) => CmpNameTotal(b.nsym, x, x);
      case Keyword(x) => CmpNameTotal(b.kw, x, x);
      case Bytes(x) => LexIntsEqual(b.bs, x);
      case Vector(x) => LexValuesEqual(b.vs, x);
      case List(x) => LexValuesEqual(b.ls, x);
      case Set(x) => LexValuesEqual(b.es, x);
      case Map(x) => LexPairsEqual(b.kvs, x);
      case _ =>
    }
  }

  lemma {:induction false} LexValuesEqual(a: seq<Value>, b: seq<Value>)
    ensures LexValues(a, b).Equal? <==> a == b
    decreases NestingAll(a) + NestingAll(b), |a| + 1
  {
    if a != [] && b != [] {
      CmpEqual(a[0], b[0]);
      LexValuesEqual(a[1..], b[1..]);
      assert a == [a[0]] + a[1..] && b == [b[0]] + b[1..];
    }
  }

  lemma {:induction false} LexPairsEqual(a: seq<Entry>, b: seq<Entry>)
    ensures LexPairs(a, b).Equal? <==> a == b
    decreases NestingPairs(a) + NestingPairs(b), |a| + 1
  {
    if a != [] && b != [] {
      CmpEqual(a[0].key, b[0].key);
      CmpEqual(a[0].val, b[0].val);
      LexPairsEqual(a[1..], b[1..]);
      assert a == [a[0]] + a[1..] && b == [b[0]] + b[1..];
    }
  }

  /** Exchanging the arguments turns the answer round. */
  lemma {:induction false} CmpFlip(a: Value, b: Value)
    ensures Cmp(b, a) == Flip(Cmp(a, b))
    decreases Nesting(a) + Nesting(b), 0
  {
    if SameKind(a, b) {
      match a
      case Text(x) => CmpStringTotal(b.text, x, x);
      case PlainSymbol(x) => CmpStringTotal(b.sym, x, x);
      case NamespacedSymbol(x) => CmpNameTotal(b.nsym, x, x);
      case Keyword(x) => CmpNameTotal(b.kw, x, x);
      case Bytes(x) => LexIntsFlip(b.bs, x);
      case Vector(x) => LexValuesFlip(b.vs, x);
      case List(x) => LexValuesFlip(b.ls, x);
      case Set(x) => LexValuesFlip(b.es, x);
      case Map(x) => LexPairsFlip(b.kvs, x);
      case _ =>
    }
  }

  lemma {:induction false} LexValuesFlip(a: seq<Value>, b: seq<Value>)
    ensures LexValues(b, a) == Flip(LexValues(a, b))
    decreases NestingAll(a) + NestingAll(b), |a| + 1
  {
    if a != [] && b != [] {
      CmpFlip(a[0], b[0]);
      LexValuesFlip(a[1..], b[1..]);
    }
  }

  lemma {:induction false} LexPairsFlip(a: seq<Entry>, b: seq<Entry>)
    ensures LexPairs(b, a) == Flip(LexPairs(a, b))
    decreases NestingPairs(a) + NestingPairs(b), |a| + 1
  {
    if a != [] && b != [] {
      CmpFlip(a[0].key, b[0].key);
      CmpFlip(a[0].val, b[0].val);
      LexPairsFlip(a[1..], b[1..]);
    }
  }

  /** Less is transitive. */
  lemma {:induction false} CmpTransitive(a: Value, b: Value, c: Value)
    requires Cmp(a, b).Less? && Cmp(b, c).Less?
    ensures Cmp(a, c).Less?
    decreases Nesting(a) + Nesting(b) + Nesting(c), 0
  {
    if SameKind(a, b) && SameKind(b, c) {
      match a
      case Text(x) => CmpStringTotal(c.text, b.text, x);
      case PlainSymbol(x) => CmpStringTotal(c.sym, b.sym, x);
      case NamespacedSymbol(x) => CmpNameTotal(c.nsym, b.nsym, x);
      case Keyword(x) => CmpNameTotal(c.kw, b.kw, x);
      case Bytes(x) => LexIntsTransitive(c.bs, b.bs, x);
      case Vector(x) => LexValuesTransitive(c.vs, b.vs, x);
      case List(x) => LexValuesTransitive(c.ls, b.ls, x);
      case Set(x) => LexValuesTransitive(c.es, b.es, x);
      case Map(x) => LexPairsTransitive(c.kvs, b.kvs, x);
      case _ =>
    }
  }

  lemma {:induction false} LexValuesTransitive(a: seq<Value>, b: seq<Value>, c: seq<Value>)
    requires LexValues(a, b).Less? && LexValues(b, c).Less?
    ensures LexValues(a, c).Less?
    decreases NestingAll(a) + NestingAll(b) + NestingAll(c), |a| + 1
  {
    if a != [] {
      CmpEqual(a[0], b[0]);
      CmpEqual(b[0], c[0]);
      if Cmp(a[0], b[0]).Less? && Cmp(b[0], c[0]).Less? {
        CmpTransitive(a[0], b[0], c[0]);
      } else if a[0] == b[0] == c[0] {
        CmpEqual(a[0], c[0]);
        LexValuesTransitive(a[1..], b[1..], c[1..]);
      }
    }
  }

  lemma {:induction false} LexPairsTransitive(a: seq<Entry>, b: seq<Entry>, c: seq<Entry>)
    requires LexPairs(a, b).Less? && LexPairs(b, c).Less?
    ensures LexPairs(a, c).Less?
    decreases NestingPairs(a) + NestingPairs(b) + NestingPairs(c), |a| + 3
  {
    if a != [] {
      CmpEntryEqual(a[0], b[0]);
      CmpEntryEqual(b[0], c[0]);
      if CmpEntry(a[0], b[0]).Less? && CmpEntry(b[0], c[0]).Less? {
        CmpEntryTransitive(a[0], b[0], c[0]);
      } else if a[0] == b[0] == c[0] {
        CmpEntryEqual(a[0], c[0]);
        LexPairsTransitive(a[1..], b[1..], c[1..]);
      }
    }
  }

  lemma CmpEntryEqual(x: Entry, y: Entry)
    ensures CmpEntry(x, y).Equal? <==> x == y
  {
    CmpEqual(x.key, y.key);
    CmpEqual(x.val, y.val);
  }

  lemma {:induction false} CmpEntryTransitive(x: Entry, y: Entry, z: Entry)
    requires CmpEntry(x, y).Less? && CmpEntry(y, z).Less?
    ensures CmpEntry(x, z).Less?
    decreases NestingEntry(x) + NestingEntry(y) + NestingEntry(z), 2
  {
    CmpEqual(x.key, y.key);
    CmpEqual(y.key, z.key);
    if Cmp(x.key, y.key).Less? && Cmp(y.key, z.key).Less? {
      CmpTransitive(x.key, y.key, z.key);
    } else if x.key == y.key == z.key {
      CmpEqual(x.key, z.key);
      CmpTransitive(x.val, y.val, z.val);
    }
  }

  predicate ValueLe(a: Value, b: Value) {
    !Cmp(a, b).Greater?
  }

  predicate KeyLe(a: Entry, b: Entry) {
    ValueLe(a.key, b.key)
  }

  /** The order of `Value` is total: antisymmetric, transitive, Equal only for equal values. */
  lemma ValueOrderTotal(a: Value, b: Value, c: Value)
    ensures ValueLe(a, b) || ValueLe(b, a)
    ensures ValueLe(a, b) && ValueLe(b, a) <==> a == b
    ensures ValueLe(a, b) && ValueLe(b, c) ==> ValueLe(a, c)
    ensures Cmp(a, b).Equal? <==> a == b
    ensures Cmp(b, a) == Flip(Cmp(a, b))
  {
    CmpFlip(a, b);
    CmpEqual(a, b);
    CmpEqual(b, c);
    if Cmp(a, b).Less? && Cmp(b, c).Less? {
      CmpTransitive(a, b, c);
    }
  }
}
