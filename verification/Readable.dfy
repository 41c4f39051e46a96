/** Which names the grammar can produce, and that it produces no others (edn/src/lib.rs). */
module Readable {
  import opened Prelude
  import opened Names
  import opened Values
  import opened Spanned
  import opened Sorting
  import opened Lexical
  import opened Parser

  /** `symbol_name()` */
  predicate NameShape(t: string) {
    t != "" && IsInitial(t[0]) && forall k :: 0 <= k < |t| ==> IsSubsequent(t[k])
  }

  /** `plain_symbol_name()` */
  predicate PlainShape(t: string) {
    NameShape(t) || t == "..." || t == "."
  }

  /** `symbol_namespace()` */
  predicate NamespaceShape(t: string) {
    NamespaceEnd(t, 0) == Some(|t|)
  }

  /** Ordered choice reads a number, `nil`, `true` or `false` before a symbol. */
  predicate Shadowed(t: string) {
    (t != "" && IsDigit(t[0])) || "nil" <= t || "true" <= t || "false" <= t
  }

  predicate QualifiedShape(n: Name) {
    n.boundary > 0 ==> NamespaceShape(n.components[..n.boundary])
  }

  /** The names in `v` are ones the grammar accepts in their place. */
  predicate IsReadable(v: Value)
    decreases v, 1
  {
    match v
    case PlainSymbol(t) => PlainShape(t) && !Shadowed(t)
    case NamespacedSymbol(n) => QualifiedShape(n) && PlainShape(NameOf(n)) && !Shadowed(n.components)
    case Keyword(n) => QualifiedShape(n) && NameShape(NameOf(n))
    case Vector(xs) => AllReadable(xs)
    case List(xs) => AllReadable(xs)
    case Set(xs) => AllReadable(xs)
    case Map(kvs) => PairsReadable(kvs)
    case _ => true
  }

  predicate AllReadable(xs: seq<Value>)
    decreases xs, 0
  {
    forall i :: 0 <= i < |xs| ==> IsReadable(xs[i])
  }

  predicate EntryReadable(e: Entry)
    decreases e, 1
  {
    IsReadable(e.key) && IsReadable(e.val)
  }

  predicate PairsReadable(kvs: seq<Entry>)
    decreases kvs, 0
  {
    forall i :: 0 <= i < |kvs| ==> EntryReadable(kvs[i])
  }

  // ---- Greedy runs look only at what they consume and the next character ----

  lemma OccursAt(s: string, i: nat, t: string, k: nat)
    requires Occurs(s, i, t) && k < |t|
    ensures s[i + k] == t[k]
  {
    assert s[i..i + |t|][k] == s[i + k];
  }

  lemma {:induction false} RunLocal(s: string, i: nat, t: string, k: nat, p: char -> bool)
    requires Occurs(s, i, t) && k <= |t|
    ensures var e := Run(t, k, p); e < |t| ==> Run(s, i + k, p) == i + e
    ensures Run(t, k, p) == |t| ==> Run(s, i + k, p) == Run(s, i + |t|, p)
    decreases |t| - k
  {
    if k < |t| {
      OccursAt(s, i, t, k);
      if p(t[k]) {
        RunLocal(s, i, t, k + 1, p);
      }
    }
  }

  lemma RunTo(s: string, i: nat, j: nat, p: char -> bool)
    requires i <= j <= |s| && (forall k :: i <= k < j ==> p(s[k])) && (j < |s| ==> !p(s[j]))
    ensures Run(s, i, p) == j
  {
  }

  lemma {:induction false} DottedSlice(s: string, i: nat, t: string, k: nat)
    requires Occurs(s, i, t) && k <= |t| && DottedEnd(s, i + k) == i + |t|
    ensures DottedEnd(t, k) == |t|
    decreases |t| - k
  {
    if k < |t| {
      OccursAt(s, i, t, k);
      RunLocal(s, i, t, k + 1, IsSubsequent);
      DottedSlice(s, i, t, Run(t, k + 1, IsSubsequent));
    }
  }

  /** Before a solidus, a run of name characters ends in the input where it ends in the text. */
  lemma RunEmbed(s: string, i: nat, t: string, k: nat)
    requires Occurs(s, i, t) && k <= |t| && i + |t| < |s| && s[i + |t|] == '/'
    ensures Run(s, i + k, IsSubsequent) == i + Run(t, k, IsSubsequent)
  {
    RunLocal(s, i, t, k, IsSubsequent);
    assert !IsSubsequent('/');
    RunTo(s, i + |t|, i + |t|, IsSubsequent);
  }

  lemma {:induction false} DottedEmbed(s: string, i: nat, t: string, k: nat)
    requires Occurs(s, i, t) && k <= |t| && DottedEnd(t, k) == |t|
    requires i + |t| < |s| && s[i + |t|] == '/'
    ensures DottedEnd(s, i + k) == i + |t|
    decreases |t| - k
  {
    if k < |t| {
      OccursAt(s, i, t, k);
      RunEmbed(s, i, t, k + 1);
      DottedEmbed(s, i, t, Run(t, k + 1, IsSubsequent));
    }
  }

  /** A namespace read from the input is one on its own. */
  lemma NamespaceSlice(s: string, i: nat, e: nat)
    requires i <= |s| && NamespaceEnd(s, i) == Some(e)
    ensures NamespaceShape(s[i..e])
  {
    var t := s[i..e];
    OccursAt(s, i, t, 0);
    RunLocal(s, i, t, 1, IsSubsequent);
    DottedSlice(s, i, t, Run(t, 1, IsSubsequent));
  }

  /** A namespace before a solidus is read whole. */
  lemma NamespaceEmbed(s: string, i: nat, t: string)
    requires NamespaceShape(t) && Occurs(s, i, t) && i + |t| < |s| && s[i + |t|] == '/'
    ensures QualifierEnd(s, i) == Some(i + |t|)
  {
    OccursAt(s, i, t, 0);
    RunEmbed(s, i, t, 1);
    DottedEmbed(s, i, t, Run(t, 1, IsSubsequent));
    assert NamespaceEnd(s, i) == Some(i + |t|);
  }

  // ---- Everything the grammar reads is readable ----

  lemma NameSlice(s: string, i: nat)
    requires i <= |s|
    ensures NameEnd(s, i).Some? ==> NameShape(s[i..NameEnd(s, i).value])
    ensures PlainNameEnd(s, i).Some? ==> PlainShape(s[i..PlainNameEnd(s, i).value])
  {
    StartsWithSlice(s, i, "...");
    StartsWithSlice(s, i, ".");
    var j := Run(s, i, IsInitial);
    if j > i {
      var e := Run(s, j, IsSubsequent);
      var t := s[i..e];
      forall k | 0 <= k < |t| ensures IsSubsequent(t[k]) {
        assert t[k] == s[i + k];
      }
    }
  }

  /** Where a number, `nil` or a boolean could be read, ordered choice never reaches a symbol. */
  lemma NotShadowed(h: Host, s: string, i: nat, j: nat)
    requires i < j <= |s| && LiteralRule(h, s, i).NoMatch?
    ensures !Shadowed(s[i..j])
  {
    var t := s[i..j];
    assert t[0] == s[i];
    assert IsDigit(s[i]) ==> Run(s, i, IsDigit) > i;
    assert FloatRule(h, s, i).NoMatch?;
    PrefixStarts(s, i, j, "nil");
    PrefixStarts(s, i, j, "true");
    PrefixStarts(s, i, j, "false");
  }

  lemma PrefixStarts(s: string, i: nat, j: nat, lit: string)
    requires i <= j <= |s|
    ensures lit <= s[i..j] ==> StartsWith(s, i, lit)
  {
    if lit <= s[i..j] {
      assert s[i..i + |lit|] == s[i..j][..|lit|];
      StartsWithSlice(s, i, lit);
    }
  }

  lemma QualifiedParts(ns: string, name: string)
    requires ns != "" && name != ""
    ensures var n := Namespaced(ns, name).value;
            n.components == ns + "/" + name && n.components[..n.boundary] == ns && NameOf(n) == name && n.boundary > 0
  {
    PartsRoundTrip(Some(ns), name, RawName("a", 0));
  }

  lemma ReadableParts(ns: string, name: string)
    requires NamespaceShape(ns) && PlainShape(name)
    ensures ns != "" && name != "" && Namespaced(ns, name).Some?
    ensures var n := Namespaced(ns, name).value;
            && n.boundary > 0
            && (NameShape(name) ==> IsReadable(Keyword(n)))
            && (!Shadowed(ns + "/" + name) ==> IsReadable(NamespacedSymbol(n)))
  {
    QualifiedParts(ns, name);
  }

  lemma SliceJoin(s: string, i: nat, e: nat, j: nat)
    requires i <= e < j <= |s| && s[e] == '/'
    ensures s[i..j] == s[i..e] + "/" + s[e + 1..j]
  {
  }

  lemma QualifiedSymbolReadable(s: string, i: nat, e: nat, j: nat)
    requires i < e < |s| && NamespaceShape(s[i..e]) && s[e] == '/'
    requires PlainNameEnd(s, e + 1) == Some(j) && !Shadowed(s[i..j])
    ensures var r := QualifiedSymbol(s, i, e); r.Match? ==> IsReadable(r.value.v)
  {
    NameSlice(s, e + 1);
    SliceJoin(s, i, e, j);
    ReadableParts(s[i..e], s[e + 1..j]);
    NameIsReadable(QualifiedSymbol(s, i, e), NamespacedSymbol(Namespaced(s[i..e], s[e + 1..j]).value), j);
  }

  lemma NameIsReadable(r: Outcome<SpannedValue>, v: AtomValue, next: nat)
    requires r == Match(Atom(v), next) && IsReadable(v)
    ensures r.Match? ==> IsReadable(r.value.v)
  {
  }

  lemma KeywordParts(s: string, i: nat, j: nat, ns: string, name: string)
    requires i <= |s| && NameEnd(s, i) == Some(j) && NamespaceShape(ns) && name == s[i..j]
    ensures Namespaced(ns, name).Some? && IsReadable(Keyword(Namespaced(ns, name).value))
  {
    NameSlice(s, i);
    ReadableParts(ns, name);
  }

  lemma QualifiedKeywordReadable(s: string, i: nat, e: nat)
    requires i < e < |s| && NamespaceShape(s[i..e])
    ensures var r := QualifiedKeyword(s, i, e); r.Match? ==> IsReadable(r.value.v)
  {
    var p := NameEnd(s, e + 1);
    if p.Some? {
      var ns, name := s[i..e], s[e + 1..p.value];
      KeywordParts(s, e + 1, p.value, ns, name);
      NameIsReadable(QualifiedKeyword(s, i, e), Keyword(Namespaced(ns, name).value), p.value);
    }
  }

  lemma BareReadable(s: string, i: nat)
    requires i <= |s|
    ensures var r := BareSymbol(s, i); r.Match? && !Shadowed(s[i..r.next]) ==> IsReadable(r.value.v)
    ensures var r := BareKeyword(s, i); r.Match? ==> IsReadable(r.value.v)
  {
    NameSlice(s, i);
  }

  lemma SymbolReadable(s: string, i: nat)
    requires i <= |s| && SymbolRule(s, i).Match? && !Shadowed(s[i..SymbolRule(s, i).next])
    ensures IsReadable(SymbolRule(s, i).value.v)
  {
    var r := SymbolRule(s, i);
    var q := QualifierEnd(s, i);
    if q.Some? {
      var e := q.value;
      assert r == QualifiedSymbol(s, i, e);
      assert PlainNameEnd(s, e + 1) == Some(r.next);
      NamespaceSlice(s, i, e);
      QualifiedSymbolReadable(s, i, e, r.next);
    } else {
      BareReadable(s, i);
    }
  }

  lemma KeywordReadable(s: string, i: nat)
    requires i <= |s| && KeywordRule(s, i).Match?
    ensures IsReadable(KeywordRule(s, i).value.v)
  {
    var q := QualifierEnd(s, i + 1);
    if q.Some? {
      NamespaceSlice(s, i + 1, q.value);
      QualifiedKeywordReadable(s, i + 1, q.value);
    } else {
      BareReadable(s, i + 1);
    }
  }

  lemma AtomReadable(h: Host, s: string, i: nat)
    requires i <= |s| && AtomRule(h, s, i).Match?
    ensures IsReadable(AtomRule(h, s, i).value.v)
  {
    if LiteralRule(h, s, i).NoMatch? {
      if KeywordRule(s, i).Match? {
        KeywordReadable(s, i);
      } else {
        NotShadowed(h, s, i, SymbolRule(s, i).next);
        SymbolReadable(s, i);
      }
    } else {
      UnnamedReadable(AtomRule(h, s, i).value.v);
    }
  }

  lemma UnnamedReadable(v: Value)
    requires !v.PlainSymbol? && !v.NamespacedSymbol? && !v.Keyword? && !IsCollection(v)
    ensures IsReadable(v)
  {
  }

  // ---- Collections ----

  ghost predicate ReadableValues(vs: seq<ValueAndSpan>) {
    forall x :: x in vs ==> IsReadable(WithoutSpans(x))
  }

  ghost predicate ReadableEntries(kvs: seq<SpannedEntry>) {
    forall e :: e in kvs ==> EntryReadable(EraseEntry(e))
  }

  lemma SetReadable(vs: seq<ValueAndSpan>)
    requires ReadableValues(vs)
    ensures IsReadable(Erase(SSet(SpannedSetFromIter(vs))))
  {
    var ws := SpannedSetFromIter(vs);
    SpannedSetElements(vs);
    SetFromIterStrict(EraseAll(ws));
    ErasedReadable(ws, SetFromIter(EraseAll(ws)));
  }

  lemma ErasedReadable(ws: seq<ValueAndSpan>, r: seq<Value>)
    requires ReadableValues(ws) && forall x :: x in r ==> x in EraseAll(ws)
    ensures AllReadable(r)
  {
    var es := EraseAll(ws);
    forall k | 0 <= k < |r| ensures IsReadable(r[k]) {
      assert r[k] in es;
      var m :| 0 <= m < |es| && es[m] == r[k];
      assert es[m] == WithoutSpans(ws[m]);
    }
  }

  lemma MapReadable(kvs: seq<SpannedEntry>)
    requires ReadableEntries(kvs)
    ensures IsReadable(Erase(SMap(SpannedMapFromIter(kvs))))
  {
    var sorted := StableSort(kvs, SpannedKeyLe);
    var ws := SpannedMapFromIter(kvs);
    forall e | e in ws ensures e in kvs {
      assert e in sorted;
      assert e in multiset(sorted);
    }
    MapFromIterStrict(ErasePairs(ws));
    ErasedEntriesReadable(ws, MapFromIter(ErasePairs(ws)));
  }

  lemma ErasedEntriesReadable(ws: seq<SpannedEntry>, r: seq<Entry>)
    requires ReadableEntries(ws) && forall e :: e in r ==> e in ErasePairs(ws)
    ensures PairsReadable(r)
  {
    var es := ErasePairs(ws);
    forall k | 0 <= k < |r| ensures EntryReadable(r[k]) {
      assert r[k] in es;
      var m :| 0 <= m < |es| && es[m] == r[k];
      assert es[m] == EraseEntry(ws[m]);
    }
  }

  lemma SequenceReadable(vs: seq<ValueAndSpan>)
    requires ReadableValues(vs)
    ensures IsReadable(Erase(SVector(vs))) && IsReadable(Erase(SList(vs)))
  {
    assert AllReadable(EraseAll(vs));
  }

  /** Whatever `value` reads, with or without the rest of the input, holds only readable names. */
  lemma {:induction false} ValueReadable(h: Host, s: string, i: nat, stack: nat)
    requires i <= |s|
    ensures var r := ParseValue(h, s, i, stack); r.Match? ==> IsReadable(WithoutSpans(r.value))
    decreases |s| - i, 5
  {
    InnerReadable(h, s, Skip(s, i), stack);
  }

  lemma {:induction false} InnerReadable(h: Host, s: string, i: nat, stack: nat)
    requires i <= |s|
    ensures var r := ParseInner(h, s, i, stack); r.Match? ==> IsReadable(Erase(r.value))
    decreases |s| - i, 4
  {
    var a := AtomRule(h, s, i);
    if a.Match? {
      AtomReadable(h, s, i);
    } else if a.NoMatch? {
      SequencesReadable(h, s, i, stack);
      SetsReadable(h, s, i, stack);
    }
  }

  lemma {:induction false} SequencesReadable(h: Host, s: string, i: nat, stack: nat)
    requires i <= |s|
    ensures var r := ListRule(h, s, i, stack); r.Match? ==> IsReadable(Erase(r.value))
    ensures var r := VectorRule(h, s, i, stack); r.Match? ==> IsReadable(Erase(r.value))
    decreases |s| - i, 3
  {
    BracketedReadable(h, s, i, "(", ')', stack);
    BracketedReadable(h, s, i, "[", ']', stack);
    var l, v := Bracketed(h, s, i, "(", ')', stack), Bracketed(h, s, i, "[", ']', stack);
    if l.Match? { SequenceReadable(l.value); }
    if v.Match? { SequenceReadable(v.value); }
  }

  lemma {:induction false} SetsReadable(h: Host, s: string, i: nat, stack: nat)
    requires i <= |s|
    ensures var r := SetRule(h, s, i, stack); r.Match? ==> IsReadable(Erase(r.value))
    ensures var r := MapRule(h, s, i, stack); r.Match? ==> IsReadable(Erase(r.value))
    decreases |s| - i, 3
  {
    BracketedReadable(h, s, i, "#{", '}', stack);
    BracedReadable(h, s, i, stack);
    var e, m := Bracketed(h, s, i, "#{", '}', stack), Braced(h, s, i, stack);
    if e.Match? { SetReadable(e.value); }
    if m.Match? { MapReadable(m.value); }
  }

  lemma {:induction false} BracketedReadable(h: Host, s: string, i: nat, open: string, close: char, stack: nat)
    requires i <= |s| && open != ""
    ensures var r := Bracketed(h, s, i, open, close, stack); r.Match? ==> ReadableValues(r.value)
    decreases |s| - i, 2
  {
    if StartsWith(s, i, open) && stack > 0 {
      ManyReadable(h, s, Skip(s, i + |open|), stack - 1);
    }
  }

  lemma {:induction false} BracedReadable(h: Host, s: string, i: nat, stack: nat)
    requires i <= |s|
    ensures var r := Braced(h, s, i, stack); r.Match? ==> ReadableEntries(r.value)
    decreases |s| - i, 2
  {
    if StartsWith(s, i, "{") && stack > 0 {
      ManyPairsReadable(h, s, Skip(s, i + 1), stack - 1);
    }
  }

  lemma {:induction false} ManyReadable(h: Host, s: string, i: nat, stack: nat)
    requires i <= |s|
    ensures var r := ParseMany(h, s, i, stack); r.Match? ==> ReadableValues(r.value)
    decreases |s| - i, 6
  {
    var r := ParseValue(h, s, i, stack);
    if r.Match? {
      ValueReadable(h, s, i, stack);
      ManyReadable(h, s, r.next, stack);
    }
  }

  lemma {:induction false} ManyPairsReadable(h: Host, s: string, i: nat, stack: nat)
    requires i <= |s|
    ensures var r := ParsePairs(h, s, i, stack); r.Match? ==> ReadableEntries(r.value)
    decreases |s| - i, 7
  {
    var r := ParsePair(h, s, i, stack);
    if r.Match? {
      PairReadable(h, s, i, stack);
      ManyPairsReadable(h, s, r.next, stack);
    }
  }

  lemma {:induction false} PairReadable(h: Host, s: string, i: nat, stack: nat)
    requires i <= |s|
    ensures var r := ParsePair(h, s, i, stack); r.Match? ==> EntryReadable(EraseEntry(r.value))
    decreases |s| - i, 6
  {
    var r := ParsePair(h, s, i, stack);
    if r.Match? {
      var k, v := PairIs(h, s, i, stack, r);
      ValueReadable(h, s, i, stack);
      ValueReadable(h, s, k.next, stack);
    }
  }
}
