/** Sets in patterns are matched greedily and need no one-to-one correspondence (edn/src/matcher.rs). */
module MatcherSets {
  import opened Orders
  import opened Values
  import opened Spanned
  import opened Matching
  import opened MatcherLaws

  // ---- Sets are matched greedily ----

  function Pair(a: Value, b: Value): Value {
    Vector([a, b])
  }

  lemma SomeOfTwo(v: Value, c: Value, d: Value, t: Table)
    ensures var first := Match(v, c, t);
            SomePattern(v, [c, d], t)
            == if first.ok then first else Match(v, d, first.table)
  {
    var first := Match(v, c, t);
    assert [c, d][1..] == [d] && [d][1..] == [];
    assert SomePattern(v, [], Match(v, d, first.table).table) == Verdict(false, Match(v, d, first.table).table);
    assert SomePattern(v, [d], first.table) == Match(v, d, first.table);
  }

  lemma SecondFails(a: Value, b: Value, ps: seq<Value>, t: Table)
    requires |ps| == 2 && SomePattern(a, ps, t).ok && !SomePattern(b, ps, SomePattern(a, ps, t).table).ok
    ensures !MatchSets([a, b], ps, t).ok
  {
    assert [a, b][1..] == [b];
    assert EveryValue([b], ps, SomePattern(a, ps, t).table) == SomePattern(b, ps, SomePattern(a, ps, t).table);
  }

  /** A failed attempt leaves its bindings behind, so a pattern with a satisfying binding can be rejected. */
  lemma SetMatchIncomplete()
    ensures var v := Set([Pair(Integer(1), Integer(2)), Pair(Integer(3), Integer(4))]);
            var p := Set([Pair(PlainSymbol("?x"), Integer(4)), Pair(PlainSymbol("?y"), Integer(2))]);
            Satisfies(v, p, map["?x" := Integer(3), "?y" := Integer(1)]) && !Match(v, p, map[]).ok
  {
    var x, y := PlainSymbol("?x"), PlainSymbol("?y");
    var a, b := Pair(Integer(1), Integer(2)), Pair(Integer(3), Integer(4));
    var c, d := Pair(x, Integer(4)), Pair(y, Integer(2));
    GreedyBinds(a, c, d, x, y);
    GreedyFails(b, c, d, x, y);
    SecondFails(a, b, [c, d], map[]);
    SwappedSatisfies(a, b, c, d, x, y);
  }

  /** The two sets are in the order in which the tree collections keep them. */
  lemma RejectedSetsAreWellFormed()
    ensures WellFormed(Set([Pair(Integer(1), Integer(2)), Pair(Integer(3), Integer(4))]))
    ensures WellFormed(Set([Pair(PlainSymbol("?x"), Integer(4)), Pair(PlainSymbol("?y"), Integer(2))]))
  {
    PairsWellFormed(Integer(1), Integer(2), Integer(3), Integer(4));
    SymbolsAscend();
    PairsWellFormed(PlainSymbol("?x"), Integer(4), PlainSymbol("?y"), Integer(2));
  }

  /** The set of two pairs is in order if their first components are, the other way round. */
  lemma {:induction false} PairsWellFormed(a: Value, b: Value, c: Value, d: Value)
    requires Cmp(c, a) == Less && Cmp(a, c) == Greater && Simple(a) && Simple(b) && Simple(c) && Simple(d)
    ensures WellFormed(Set([Pair(a, b), Pair(c, d)]))
  {
    PairsCompare(a, b, c, d);
    var xs := [Pair(a, b), Pair(c, d)];
    assert Cmp(xs[0], xs[1]) == Less && Cmp(xs[1], xs[0]) == Greater;
    assert WellFormed(xs[0]) && WellFormed(xs[1]);
  }

  lemma SymbolsAscend()
    ensures Cmp(PlainSymbol("?y"), PlainSymbol("?x")) == Less && Cmp(PlainSymbol("?x"), PlainSymbol("?y")) == Greater
  {
    var x, y := CodePoints("?x"), CodePoints("?y");
    assert x[0] == y[0] && x[1] == 120 && y[1] == 121;
    assert x[1..][0] == 120 && y[1..][0] == 121;
    assert LexInts(x[1..], y[1..]) == Less && LexInts(y[1..], x[1..]) == Greater;
  }

  lemma GreedyBinds(a: Value, c: Value, d: Value, x: Value, y: Value)
    requires x == PlainSymbol("?x") && y == PlainSymbol("?y") && a == Pair(Integer(1), Integer(2))
    requires c == Pair(x, Integer(4)) && d == Pair(y, Integer(2))
    ensures SomePattern(a, [c, d], map[]) == Verdict(true, map["?x" := Integer(1), "?y" := Integer(1)])
  {
    PairMatch(Integer(1), Integer(2), x, Integer(4), map[]);
    PairMatch(Integer(1), Integer(2), y, Integer(2), map["?x" := Integer(1)]);
    SomeOfTwo(a, c, d, map[]);
  }

  lemma GreedyFails(b: Value, c: Value, d: Value, x: Value, y: Value)
    requires x == PlainSymbol("?x") && y == PlainSymbol("?y") && b == Pair(Integer(3), Integer(4))
    requires c == Pair(x, Integer(4)) && d == Pair(y, Integer(2))
    ensures !SomePattern(b, [c, d], map["?x" := Integer(1), "?y" := Integer(1)]).ok
  {
    var t: Table := map["?x" := Integer(1), "?y" := Integer(1)];
    PairMatch(Integer(3), Integer(4), x, Integer(4), t);
    PairMatch(Integer(3), Integer(4), y, Integer(2), t);
    SomeOfTwo(b, c, d, t);
  }

  lemma SwappedSatisfies(a: Value, b: Value, c: Value, d: Value, x: Value, y: Value)
    requires x == PlainSymbol("?x") && y == PlainSymbol("?y")
    requires a == Pair(Integer(1), Integer(2)) && b == Pair(Integer(3), Integer(4))
    requires c == Pair(x, Integer(4)) && d == Pair(y, Integer(2))
    ensures Satisfies(Set([a, b]), Set([c, d]), map["?x" := Integer(3), "?y" := Integer(1)])
  {
    var u: Table := map["?x" := Integer(3), "?y" := Integer(1)];
    PairSatisfies(Integer(3), Integer(4), x, Integer(4), u);
    PairSatisfies(Integer(1), Integer(2), y, Integer(2), u);
    var vs, ps := [a, b], [c, d];
    SwapSatisfies(vs, ps, u);
  }

  lemma {:induction false} SwapSatisfies(vs: seq<Value>, ps: seq<Value>, u: Table)
    requires |vs| == |ps| == 2 && Satisfies(vs[1], ps[0], u) && Satisfies(vs[0], ps[1], u)
    ensures SetSatisfies(vs, ps, u)
  {
    assert HasPattern(vs[0], ps, u) && HasPattern(vs[1], ps, u);
    assert HasValue(vs, ps[0], u) && HasValue(vs, ps[1], u);
  }

  lemma {:induction false} OneMatch(b: Value, q: Value, t: Table)
    ensures MatchAll([b], [q], t) == Match(b, q, t)
  {
    var first := Match(b, q, t);
    var vs, ps := [b], [q];
    assert vs[1..] == [] && ps[1..] == [];
    assert MatchAll(vs[1..], ps[1..], first.table) == Verdict(true, first.table);
  }

  lemma {:induction false} PairMatch(a: Value, b: Value, p: Value, q: Value, t: Table)
    ensures var first := Match(a, p, t);
            Match(Pair(a, b), Pair(p, q), t) == if first.ok then Match(b, q, first.table) else first
  {
    var vs, ps := [a, b], [p, q];
    assert vs[1..] == [b] && ps[1..] == [q];
    OneMatch(b, q, Match(a, p, t).table);
    assert Match(Pair(a, b), Pair(p, q), t) == MatchAll(vs, ps, t);
  }

  lemma PairSatisfies(a: Value, b: Value, p: Value, q: Value, t: Table)
    requires Satisfies(a, p, t) && Satisfies(b, q, t)
    ensures Satisfies(Pair(a, b), Pair(p, q), t)
  {
  }

  // ---- Two patterns may share a value ----

  /** Before a pattern that matches anything no value looks further. */
  lemma {:induction false} WildcardFirst(vs: seq<Value>, ps: seq<Value>, t: Table)
    requires ps != [] && MatchesAny(ps[0])
    ensures EveryValue(vs, ps, t) == Verdict(true, t)
  {
    if vs != [] {
      assert SomePattern(vs[0], ps, t) == Verdict(true, t);
      WildcardFirst(vs[1..], ps, t);
    }
  }

  lemma {:induction false} FirstValueServes(vs: seq<Value>, ps: seq<Value>, t: Table)
    requires vs != [] && forall j :: 0 <= j < |ps| ==> Match(vs[0], ps[j], t) == Verdict(true, t)
    ensures EveryPattern(vs, ps, t) == Verdict(true, t)
  {
    if ps != [] {
      assert SomeValue(vs, ps[0], t) == Verdict(true, t);
      FirstValueServes(vs, ps[1..], t);
    }
  }

  /** One value can serve all patterns if the first of them is a wildcard. */
  lemma OneValueServesAll(vs: seq<Value>, ps: seq<Value>, t: Table)
    requires |vs| == |ps| > 0 && MatchesAny(ps[0])
    requires forall j :: 0 <= j < |ps| ==> Match(vs[0], ps[j], t) == Verdict(true, t)
    ensures MatchSets(vs, ps, t) == Verdict(true, t)
  {
    WildcardFirst(vs, ps, t);
    FirstValueServes(vs, ps, t);
  }

  /** Both pair patterns fit the first value only, and the set is accepted. */
  lemma PatternsShareAValue()
    ensures var any := PlainSymbol("_");
            var vs := [Pair(Integer(1), Integer(2)), Pair(Integer(5), Integer(6)), Pair(Integer(7), Integer(8))];
            var ps := [any, Pair(any, Integer(2)), Pair(Integer(1), any)];
            && WellFormed(Set(vs)) && WellFormed(Set(ps))
            && Match(Set(vs), Set(ps), map[]).ok
            && forall i, j :: 1 <= i < 3 && 1 <= j < 3 ==> !Satisfies(vs[i], ps[j], map[])
  {
    var any := PlainSymbol("_");
    var vs := [Pair(Integer(1), Integer(2)), Pair(Integer(5), Integer(6)), Pair(Integer(7), Integer(8))];
    var ps := [any, Pair(any, Integer(2)), Pair(Integer(1), any)];
    AscendingPairs();
    SharedPatterns(any);
    FirstServes(vs, ps, any);
    OthersDoNot(vs, ps, any);
  }

  lemma FirstServes(vs: seq<Value>, ps: seq<Value>, any: Value)
    requires any == PlainSymbol("_") && |vs| == 3 && vs[0] == Pair(Integer(1), Integer(2))
    requires ps == [any, Pair(any, Integer(2)), Pair(Integer(1), any)]
    ensures Match(Set(vs), Set(ps), map[]).ok
  {
    PairMatch(Integer(1), Integer(2), any, Integer(2), map[]);
    PairMatch(Integer(1), Integer(2), Integer(1), any, map[]);
    OneValueServesAll(vs, ps, map[]);
  }

  lemma OthersDoNot(vs: seq<Value>, ps: seq<Value>, any: Value)
    requires any == PlainSymbol("_") && |vs| == 3 && |ps| == 3
    requires vs[1] == Pair(Integer(5), Integer(6)) && vs[2] == Pair(Integer(7), Integer(8))
    requires ps[1] == Pair(any, Integer(2)) && ps[2] == Pair(Integer(1), any)
    ensures forall i, j :: 1 <= i < 3 && 1 <= j < 3 ==> !Satisfies(vs[i], ps[j], map[])
  {
    forall i, j | 1 <= i < 3 && 1 <= j < 3 ensures !Satisfies(vs[i], ps[j], map[]) {
      NoFit(vs[i], ps[j], any);
    }
  }

  lemma AscendingPairs()
    ensures WellFormed(Set([Pair(Integer(1), Integer(2)), Pair(Integer(5), Integer(6)), Pair(Integer(7), Integer(8))]))
  {
    PairsCompare(Integer(1), Integer(2), Integer(5), Integer(6));
    PairsCompare(Integer(1), Integer(2), Integer(7), Integer(8));
    PairsCompare(Integer(5), Integer(6), Integer(7), Integer(8));
    ThreeWellFormed(Pair(Integer(1), Integer(2)), Pair(Integer(5), Integer(6)), Pair(Integer(7), Integer(8)));
  }

  lemma SharedPatterns(any: Value)
    requires any == PlainSymbol("_")
    ensures WellFormed(Set([any, Pair(any, Integer(2)), Pair(Integer(1), any)]))
  {
    PairsCompare(any, Integer(2), Integer(1), any);
    SymbolFirst("_", any, Integer(2));
    SymbolFirst("_", Integer(1), any);
    ThreeWellFormed(any, Pair(any, Integer(2)), Pair(Integer(1), any));
  }

  lemma {:induction false} SymbolFirst(name: string, a: Value, b: Value)
    ensures Cmp(PlainSymbol(name), Pair(a, b)) == Less && Cmp(Pair(a, b), PlainSymbol(name)) == Greater
  {
  }

  /** Pairs compare by their first components, the other way round. */
  lemma {:induction false} PairsCompare(a: Value, b: Value, c: Value, d: Value)
    requires Cmp(c, a) == Less && Cmp(a, c) == Greater && Simple(a) && Simple(b) && Simple(c) && Simple(d)
    ensures Cmp(Pair(a, b), Pair(c, d)) == Less && Cmp(Pair(c, d), Pair(a, b)) == Greater
    ensures WellFormed(Pair(a, b)) && WellFormed(Pair(c, d))
  {
    assert LexValues([c, d], [a, b]) == Less;
    assert LexValues([a, b], [c, d]) == Greater;
  }

  predicate Simple(v: Value) {
    !v.Set? && !v.Map? && !v.Vector? && !v.List?
  }

  lemma {:induction false} ThreeWellFormed(a: Value, b: Value, c: Value)
    requires WellFormed(a) && WellFormed(b) && WellFormed(c)
    requires Cmp(a, b) == Less && Cmp(b, a) == Greater && Cmp(a, c) == Less && Cmp(c, a) == Greater
    requires Cmp(b, c) == Less && Cmp(c, b) == Greater
    ensures WellFormed(Set([a, b, c]))
  {
    var xs := [a, b, c];
    assert forall i :: 0 <= i < 3 ==> WellFormed(xs[i]);
    assert forall i, j :: 0 <= i < j < 3 ==> Cmp(xs[i], xs[j]) == Less && Cmp(xs[j], xs[i]) == Greater;
  }

  lemma NoFit(v: Value, p: Value, any: Value)
    requires any == PlainSymbol("_") && (p == Pair(any, Integer(2)) || p == Pair(Integer(1), any))
    requires v.Vector? && |v.vs| == 2 && v.vs[0] != Integer(1) && v.vs[1] != Integer(2)
    ensures !Satisfies(v, p, map[])
  {
    var k := if p == Pair(any, Integer(2)) then 1 else 0;
    assert !Satisfies(v.vs[k], p.vs[k], map[]);
  }

  // ---- When they do not ----

  /** Value number `i` satisfies pattern number `j`. */
  ghost predicate Serves(vs: seq<Value>, ps: seq<Value>, t: Table, i: int, j: int) {
    0 <= i < |vs| && 0 <= j < |ps| && Satisfies(vs[i], ps[j], t)
  }

  /** No value satisfies two of the patterns. */
  ghost predicate Exclusive(vs: seq<Value>, ps: seq<Value>, t: Table) {
    forall i, j, k :: Serves(vs, ps, t, i, j) && Serves(vs, ps, t, i, k) ==> j == k
  }

  ghost predicate Chosen(vs: seq<Value>, ps: seq<Value>, t: Table, f: seq<int>) {
    |f| <= |ps| && forall j :: 0 <= j < |f| ==> Serves(vs, ps, t, f[j], j)
  }

  /** `f` gives every pattern a value of its own, and every value is given. */
  ghost predicate OneToOne(vs: seq<Value>, ps: seq<Value>, t: Table, f: seq<int>) {
    |f| == |ps| == |vs| && Chosen(vs, ps, t, f) && forall j, k :: 0 <= j < k < |f| ==> f[j] != f[k]
  }

  /**
   * If no value satisfies two patterns of a set, whatever the placeholders not yet bound will stand for, an accepted
   * set is matched one to one.
   */
  lemma ExclusiveIsOneToOne(vs: seq<Value>, ps: seq<Value>, t: Table) returns (f: seq<int>)
    requires Match(Set(vs), Set(ps), t).ok && forall u :: Extends(t, u) ==> Exclusive(vs, ps, u)
    ensures OneToOne(vs, ps, Match(Set(vs), Set(ps), t).table, f)
  {
    var u := Match(Set(vs), Set(ps), t).table;
    MatchSound(Set(vs), Set(ps), t);
    f := Choices(vs, ps, u, |ps|);
    DistinctChoices(vs, ps, u, f);
  }

  /** Patterns without placeholders are exclusive under all tables or under none. */
  lemma FixedExclusive(vs: seq<Value>, ps: seq<Value>, t: Table, u: Table)
    requires AllFixed(ps) && Exclusive(vs, ps, t)
    ensures Exclusive(vs, ps, u)
  {
    forall i, j, k | Serves(vs, ps, u, i, j) && Serves(vs, ps, u, i, k) ensures j == k {
      FixedServes(vs, ps, t, u, i, j);
      FixedServes(vs, ps, t, u, i, k);
    }
  }

  lemma FixedServes(vs: seq<Value>, ps: seq<Value>, t: Table, u: Table, i: int, j: int)
    requires AllFixed(ps) && Serves(vs, ps, u, i, j)
    ensures Serves(vs, ps, t, i, j)
  {
    FixedMatch(vs[i], ps[j], t, t);
    FixedMatch(vs[i], ps[j], t, u);
  }

  /** For patterns without placeholders it is enough that no value satisfies two of them under any one table. */
  lemma FixedExclusiveIsOneToOne(vs: seq<Value>, ps: seq<Value>, t: Table, any: Table) returns (f: seq<int>)
    requires AllFixed(ps) && Exclusive(vs, ps, any) && Match(Set(vs), Set(ps), t).ok
    ensures OneToOne(vs, ps, t, f)
  {
    forall u | Extends(t, u) ensures Exclusive(vs, ps, u) {
      FixedExclusive(vs, ps, any, u);
    }
    f := ExclusiveIsOneToOne(vs, ps, t);
    FixedMatch(Set(vs), Set(ps), t, t);
  }

  lemma DistinctChoices(vs: seq<Value>, ps: seq<Value>, u: Table, f: seq<int>)
    requires Chosen(vs, ps, u, f) && Exclusive(vs, ps, u)
    ensures forall j, k :: 0 <= j < k < |f| ==> f[j] != f[k]
  {
    forall j, k | 0 <= j < k < |f| ensures f[j] != f[k] {
      assert Serves(vs, ps, u, f[j], j) && Serves(vs, ps, u, f[k], k);
    }
  }

  lemma {:induction false} Choices(vs: seq<Value>, ps: seq<Value>, u: Table, n: nat) returns (f: seq<int>)
    requires n <= |ps| && forall j :: 0 <= j < |ps| ==> HasValue(vs, ps[j], u)
    ensures |f| == n && Chosen(vs, ps, u, f)
  {
    if n == 0 {
      f := [];
    } else {
      var g := Choices(vs, ps, u, n - 1);
      assert HasValue(vs, ps[n - 1], u);
      var i :| 0 <= i < |vs| && Satisfies(vs[i], ps[n - 1], u);
      f := g + [i];
      forall j | 0 <= j < n ensures Serves(vs, ps, u, f[j], j) {
        assert j < n - 1 ==> f[j] == g[j];
      }
    }
  }
}
