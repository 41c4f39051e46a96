/** When the pattern matcher finds every match there is (edn/src/matcher.rs). */
module MatcherComplete {
  import opened Values
  import opened Spanned
  import opened Matching
  import opened MatcherLaws

  // ---- Patterns that tell values apart ----

  /** Some bindings let the value satisfy the pattern. */
  ghost predicate Fits(v: Value, p: Value) {
    exists u: Table :: Satisfies(v, p, u)
  }

  /** The pattern refuses the value under all bindings, and binds nothing. */
  ghost predicate Refuses(p: Value, v: Value) {
    forall t: Table :: Match(v, p, t) == Verdict(false, t)
  }

  /** A value that fits one of the patterns is refused by all others. */
  ghost predicate Discriminating(ps: seq<Value>) {
    forall v, j, k :: 0 <= j < |ps| && 0 <= k < |ps| && j != k && Fits(v, ps[j]) ==> Refuses(ps[k], v)
  }

  ghost predicate EntryFits(a: Entry, b: Entry) {
    exists u: Table :: EntrySatisfies(a, b, u)
  }

  ghost predicate EntryRefuses(b: Entry, a: Entry) {
    forall t: Table :: MatchEntry(a, b, t) == Verdict(false, t)
  }

  ghost predicate EntriesDiscriminating(ps: seq<Entry>) {
    forall e, j, k :: 0 <= j < |ps| && 0 <= k < |ps| && j != k && EntryFits(e, ps[j]) ==> EntryRefuses(ps[k], e)
  }

  /** The elements of a set or map hold no placeholder, or tell values apart. */
  ghost predicate Orderly(p: Value)
    decreases p, 1
  {
    match p
    case Vector(ps) => AllOrderly(ps)
    case List(ps) => AllOrderly(ps)
    case Set(ps) => Fixed(p) || (AllOrderly(ps) && Discriminating(ps))
    case Map(kvs) => Fixed(p) || (EntriesOrderly(kvs) && EntriesDiscriminating(kvs))
    case _ => true
  }

  ghost predicate AllOrderly(ps: seq<Value>)
    decreases ps, 0
  {
    forall i :: 0 <= i < |ps| ==> Orderly(ps[i])
  }

  ghost predicate EntryOrderly(e: Entry)
    decreases e, 1
  {
    Orderly(e.key) && Orderly(e.val)
  }

  ghost predicate EntriesOrderly(kvs: seq<Entry>)
    decreases kvs, 0
  {
    forall i :: 0 <= i < |kvs| ==> EntryOrderly(kvs[i])
  }

  // ---- Completeness ----

  /** Any bindings that make the pattern match make the matcher succeed, and contain what it binds. */
  lemma {:induction false} MatchLeast(v: Value, p: Value, t: Table, u: Table)
    requires Orderly(p) && Extends(t, u) && Satisfies(v, p, u)
    ensures Match(v, p, t).ok && Extends(Match(v, p, t).table, u)
    decreases p, 1
  {
    if MatchesAny(p) || IsPlaceholder(p) {
    } else if v.Vector? && p.Vector? {
      AllLeast(v.vs, p.vs, t, u);
    } else if v.List? && p.List? {
      AllLeast(v.ls, p.ls, t, u);
    } else if Fixed(p) {
      FixedMatch(v, p, t, u);
    } else if v.Set? && p.Set? {
      SetsLeast(v.es, p.es, t, u);
    } else if v.Map? && p.Map? {
      MapsLeast(v.kvs, p.kvs, t, u);
    }
  }

  lemma {:induction false} AllLeast(vs: seq<Value>, ps: seq<Value>, t: Table, u: Table)
    requires AllOrderly(ps) && Extends(t, u) && AllSatisfy(vs, ps, u)
    ensures MatchAll(vs, ps, t).ok && Extends(MatchAll(vs, ps, t).table, u)
    decreases ps, 0
  {
    if ps != [] {
      AllSatisfyCons(vs, ps, u);
      MatchLeast(vs[0], ps[0], t, u);
      AllLeast(vs[1..], ps[1..], Match(vs[0], ps[0], t).table, u);
    }
  }

  // Sets.

  lemma {:induction false} SetsLeast(vs: seq<Value>, ps: seq<Value>, t: Table, u: Table)
    requires AllOrderly(ps) && Discriminating(ps) && Extends(t, u) && SetSatisfies(vs, ps, u)
    ensures MatchSets(vs, ps, t).ok && Extends(MatchSets(vs, ps, t).table, u)
    decreases ps, 4
  {
    EveryValueLeast(vs, ps, t, u);
    var there := EveryValue(vs, ps, t);
    EveryPatternLeast(vs, ps, 0, there.table, u);
    assert ps[0..] == ps;
  }

  lemma {:induction false} EveryValueLeast(vs: seq<Value>, ps: seq<Value>, t: Table, u: Table)
    requires AllOrderly(ps) && Discriminating(ps) && Extends(t, u) && AllHavePattern(vs, ps, u)
    ensures EveryValue(vs, ps, t).ok && Extends(EveryValue(vs, ps, t).table, u)
    decreases ps, 3, |vs|
  {
    if vs != [] {
      var j := PatternOf(vs[0], ps, u);
      SomePatternLeast(vs[0], ps, 0, j, t, u);
      assert ps[0..] == ps;
      EveryValueLeast(vs[1..], ps, SomePattern(vs[0], ps, t).table, u);
    }
  }

  lemma PatternOf(v: Value, ps: seq<Value>, u: Table) returns (j: nat)
    requires HasPattern(v, ps, u)
    ensures j < |ps| && Satisfies(v, ps[j], u)
  {
    j :| 0 <= j < |ps| && Satisfies(v, ps[j], u);
  }

  /** The patterns before the one that `v` satisfies refuse it. */
  lemma {:induction false} SomePatternLeast(v: Value, ps: seq<Value>, i: nat, j: nat, t: Table, u: Table)
    requires AllOrderly(ps) && Discriminating(ps) && Extends(t, u) && i <= j < |ps| && Satisfies(v, ps[j], u)
    ensures SomePattern(v, ps[i..], t).ok && Extends(SomePattern(v, ps[i..], t).table, u)
    decreases ps, 2, j - i
  {
    if i == j {
      MatchLeast(v, ps[j], t, u);
    } else {
      Refused(v, ps, j, i, t, u);
      assert ps[i..][1..] == ps[i + 1..];
      SomePatternLeast(v, ps, i + 1, j, t, u);
    }
  }

  lemma Refused(v: Value, ps: seq<Value>, j: nat, k: nat, t: Table, u: Table)
    requires Discriminating(ps) && j < |ps| && k < |ps| && j != k && Satisfies(v, ps[j], u)
    ensures Match(v, ps[k], t) == Verdict(false, t)
  {
    assert Fits(v, ps[j]);
    assert Refuses(ps[k], v);
  }

  lemma {:induction false} EveryPatternLeast(vs: seq<Value>, ps: seq<Value>, j: nat, t: Table, u: Table)
    requires AllOrderly(ps) && Discriminating(ps) && Extends(t, u) && SetSatisfies(vs, ps, u) && j <= |ps|
    ensures EveryPattern(vs, ps[j..], t).ok && Extends(EveryPattern(vs, ps[j..], t).table, u)
    decreases ps, 3, |ps| - j
  {
    if j < |ps| {
      assert HasValue(vs, ps[j], u);
      var n := ValueOf(vs, ps[j], u);
      SomeValueLeast(vs, ps, 0, n, j, t, u);
      assert vs[0..] == vs && ps[j..][1..] == ps[j + 1..];
      EveryPatternLeast(vs, ps, j + 1, SomeValue(vs, ps[j], t).table, u);
    }
  }

  lemma ValueOf(vs: seq<Value>, p: Value, u: Table) returns (n: nat)
    requires HasValue(vs, p, u)
    ensures n < |vs| && Satisfies(vs[n], p, u)
  {
    n :| 0 <= n < |vs| && Satisfies(vs[n], p, u);
  }

  /** A value that does not satisfy the pattern satisfies another one, so that this one refuses it. */
  lemma {:induction false} SomeValueLeast(vs: seq<Value>, ps: seq<Value>, i: nat, n: nat, j: nat, t: Table, u: Table)
    requires AllOrderly(ps) && Discriminating(ps) && Extends(t, u) && AllHavePattern(vs, ps, u)
    requires j < |ps| && i <= n < |vs| && Satisfies(vs[n], ps[j], u)
    ensures SomeValue(vs[i..], ps[j], t).ok && Extends(SomeValue(vs[i..], ps[j], t).table, u)
    decreases ps, 2, n - i
  {
    if Satisfies(vs[i], ps[j], u) {
      MatchLeast(vs[i], ps[j], t, u);
    } else {
      assert HasPattern(vs[i], ps, u);
      var k := PatternOf(vs[i], ps, u);
      Refused(vs[i], ps, k, j, t, u);
      assert vs[i..][1..] == vs[i + 1..];
      SomeValueLeast(vs, ps, i + 1, n, j, t, u);
    }
  }

  // The same for the entries of maps.

  lemma {:induction false} EntryLeast(a: Entry, b: Entry, t: Table, u: Table)
    requires EntryOrderly(b) && Extends(t, u) && EntrySatisfies(a, b, u)
    ensures MatchEntry(a, b, t).ok && Extends(MatchEntry(a, b, t).table, u)
    decreases b, 2
  {
    MatchLeast(a.key, b.key, t, u);
    MatchLeast(a.val, b.val, Match(a.key, b.key, t).table, u);
  }

  lemma {:induction false} MapsLeast(vs: seq<Entry>, ps: seq<Entry>, t: Table, u: Table)
    requires EntriesOrderly(ps) && EntriesDiscriminating(ps) && Extends(t, u) && MapSatisfies(vs, ps, u)
    ensures MatchMaps(vs, ps, t).ok && Extends(MatchMaps(vs, ps, t).table, u)
    decreases ps, 4
  {
    EveryEntryLeast(vs, ps, t, u);
    var there := EveryEntry(vs, ps, t);
    EveryEntryPatternLeast(vs, ps, 0, there.table, u);
    assert ps[0..] == ps;
  }

  lemma {:induction false} EveryEntryLeast(vs: seq<Entry>, ps: seq<Entry>, t: Table, u: Table)
    requires EntriesOrderly(ps) && EntriesDiscriminating(ps) && Extends(t, u) && AllHaveEntryPattern(vs, ps, u)
    ensures EveryEntry(vs, ps, t).ok && Extends(EveryEntry(vs, ps, t).table, u)
    decreases ps, 3, |vs|
  {
    if vs != [] {
      var j := EntryPatternOf(vs[0], ps, u);
      SomeEntryPatternLeast(vs[0], ps, 0, j, t, u);
      assert ps[0..] == ps;
      EveryEntryLeast(vs[1..], ps, SomeEntryPattern(vs[0], ps, t).table, u);
    }
  }

  lemma EntryPatternOf(v: Entry, ps: seq<Entry>, u: Table) returns (j: nat)
    requires HasEntryPattern(v, ps, u)
    ensures j < |ps| && EntrySatisfies(v, ps[j], u)
  {
    j :| 0 <= j < |ps| && EntrySatisfies(v, ps[j], u);
  }

  lemma {:induction false} SomeEntryPatternLeast(v: Entry, ps: seq<Entry>, i: nat, j: nat, t: Table, u: Table)
    requires EntriesOrderly(ps) && EntriesDiscriminating(ps) && Extends(t, u)
    requires i <= j < |ps| && EntrySatisfies(v, ps[j], u)
    ensures SomeEntryPattern(v, ps[i..], t).ok && Extends(SomeEntryPattern(v, ps[i..], t).table, u)
    decreases ps, 2, j - i
  {
    if i == j {
      EntryLeast(v, ps[j], t, u);
    } else {
      EntryRefused(v, ps, j, i, t, u);
      assert ps[i..][1..] == ps[i + 1..];
      SomeEntryPatternLeast(v, ps, i + 1, j, t, u);
    }
  }

  lemma EntryRefused(v: Entry, ps: seq<Entry>, j: nat, k: nat, t: Table, u: Table)
    requires EntriesDiscriminating(ps) && j < |ps| && k < |ps| && j != k && EntrySatisfies(v, ps[j], u)
    ensures MatchEntry(v, ps[k], t) == Verdict(false, t)
  {
    assert EntryFits(v, ps[j]);
    assert EntryRefuses(ps[k], v);
  }

  lemma {:induction false} EveryEntryPatternLeast(vs: seq<Entry>, ps: seq<Entry>, j: nat, t: Table, u: Table)
    requires EntriesOrderly(ps) && EntriesDiscriminating(ps) && Extends(t, u) && MapSatisfies(vs, ps, u) && j <= |ps|
    ensures EveryEntryPattern(vs, ps[j..], t).ok && Extends(EveryEntryPattern(vs, ps[j..], t).table, u)
    decreases ps, 3, |ps| - j
  {
    if j < |ps| {
      assert HasEntry(vs, ps[j], u);
      var n := EntryOf(vs, ps[j], u);
      SomeEntryLeast(vs, ps, 0, n, j, t, u);
      assert vs[0..] == vs && ps[j..][1..] == ps[j + 1..];
      EveryEntryPatternLeast(vs, ps, j + 1, SomeEntry(vs, ps[j], t).table, u);
    }
  }

  lemma EntryOf(vs: seq<Entry>, p: Entry, u: Table) returns (n: nat)
    requires HasEntry(vs, p, u)
    ensures n < |vs| && EntrySatisfies(vs[n], p, u)
  {
    n :| 0 <= n < |vs| && EntrySatisfies(vs[n], p, u);
  }

  lemma {:induction false} SomeEntryLeast(vs: seq<Entry>, ps: seq<Entry>, i: nat, n: nat, j: nat, t: Table, u: Table)
    requires EntriesOrderly(ps) && EntriesDiscriminating(ps) && Extends(t, u) && AllHaveEntryPattern(vs, ps, u)
    requires j < |ps| && i <= n < |vs| && EntrySatisfies(vs[n], ps[j], u)
    ensures SomeEntry(vs[i..], ps[j], t).ok && Extends(SomeEntry(vs[i..], ps[j], t).table, u)
    decreases ps, 2, n - i
  {
    if EntrySatisfies(vs[i], ps[j], u) {
      EntryLeast(vs[i], ps[j], t, u);
    } else {
      assert HasEntryPattern(vs[i], ps, u);
      var k := EntryPatternOf(vs[i], ps, u);
      EntryRefused(vs[i], ps, k, j, t, u);
      assert vs[i..][1..] == vs[i + 1..];
      SomeEntryLeast(vs, ps, i + 1, n, j, t, u);
    }
  }

  /**
   * For orderly patterns: true exactly if some extension of the bindings satisfies the pattern, and then the table is
   * the least such extension.
   */
  lemma MatchExactly(v: Value, p: Value, t: Table)
    requires Orderly(p)
    ensures Match(v, p, t).ok <==> exists u :: Extends(t, u) && Satisfies(v, p, u)
    ensures forall u :: Extends(t, u) && Satisfies(v, p, u) ==> Extends(Match(v, p, t).table, u)
  {
    MatchSound(v, p, t);
    forall u | Extends(t, u) && Satisfies(v, p, u) ensures Match(v, p, t).ok && Extends(Match(v, p, t).table, u) {
      MatchLeast(v, p, t, u);
    }
  }

  // ---- Which patterns tell values apart ----

  /** An atom that matches itself only. */
  predicate IsConstant(p: Value) {
    !IsPlaceholder(p) && !MatchesAny(p) && !p.Vector? && !p.List? && !p.Set? && !p.Map?
  }

  lemma ConstantMatch(v: Value, p: Value, t: Table)
    requires IsConstant(p)
    ensures Match(v, p, t) == Verdict(v == p, t) && (Satisfies(v, p, t) <==> v == p)
  {
  }

  lemma KeysDiffer(kvs: seq<Entry>, j: nat, k: nat)
    requires WellFormed(Map(kvs)) && j < |kvs| && k < |kvs| && j != k
    ensures kvs[j].key != kvs[k].key
  {
    CmpEqual(kvs[j].key, kvs[k].key);
    CmpEqual(kvs[k].key, kvs[j].key);
  }

  /** With one element there is nothing to tell apart. */
  lemma SingletonsOrderly(p: Value, e: Entry)
    requires Orderly(p) && EntryOrderly(e)
    ensures Orderly(Set([p])) && Orderly(Map([e]))
  {
    assert Discriminating([p]) && EntriesDiscriminating([e]);
    assert AllOrderly([p]) && EntriesOrderly([e]);
  }

  /** A map pattern with constant keys and orderly values is orderly. */
  lemma ConstantKeysOrderly(kvs: seq<Entry>)
    requires WellFormed(Map(kvs))
    requires forall i :: 0 <= i < |kvs| ==> IsConstant(kvs[i].key) && Orderly(kvs[i].val)
    ensures Orderly(Map(kvs))
  {
    forall e, j, k | 0 <= j < |kvs| && 0 <= k < |kvs| && j != k && EntryFits(e, kvs[j])
      ensures EntryRefuses(kvs[k], e)
    {
      var u: Table :| EntrySatisfies(e, kvs[j], u);
      ConstantMatch(e.key, kvs[j].key, u);
      KeysDiffer(kvs, j, k);
      OtherKeyRefused(e, kvs[k]);
    }
    assert forall i :: 0 <= i < |kvs| ==> EntryOrderly(kvs[i]);
    assert EntriesDiscriminating(kvs);
  }

  lemma OtherKeyRefused(a: Entry, b: Entry)
    requires IsConstant(b.key) && a.key != b.key
    ensures EntryRefuses(b, a)
  {
    forall t: Table ensures MatchEntry(a, b, t) == Verdict(false, t) {
      ConstantMatch(a.key, b.key, t);
    }
  }

  /** A set of vectors that begin with different constants is orderly if its elements are. */
  lemma ConstantHeadsOrderly(ps: seq<Value>)
    requires AllOrderly(ps)
    requires forall i :: 0 <= i < |ps| ==> ps[i].Vector? && ps[i].vs != [] && IsConstant(ps[i].vs[0])
    requires forall i, j :: 0 <= i < j < |ps| ==> ps[i].vs[0] != ps[j].vs[0]
    ensures Orderly(Set(ps))
  {
    forall v, j, k | 0 <= j < |ps| && 0 <= k < |ps| && j != k && Fits(v, ps[j]) ensures Refuses(ps[k], v) {
      var u: Table :| Satisfies(v, ps[j], u);
      HeadFits(v, ps[j], u);
      ConstantMatch(v.vs[0], ps[j].vs[0], u);
      OtherHeadRefused(v, ps[k]);
    }
    assert Discriminating(ps);
  }

  lemma HeadFits(v: Value, p: Value, u: Table)
    requires p.Vector? && p.vs != [] && Satisfies(v, p, u)
    ensures v.Vector? && v.vs != [] && Satisfies(v.vs[0], p.vs[0], u)
  {
    assert v.Vector? ==> AllSatisfy(v.vs, p.vs, u);
  }

  lemma OtherHeadRefused(v: Value, p: Value)
    requires v.Vector? && p.Vector? && v.vs != [] && p.vs != [] && IsConstant(p.vs[0]) && v.vs[0] != p.vs[0]
    ensures Refuses(p, v)
  {
    forall t: Table ensures Match(v, p, t) == Verdict(false, t) {
      ConstantMatch(v.vs[0], p.vs[0], t);
      assert MatchAll(v.vs, p.vs, t) == Verdict(false, t);
    }
  }
}
