/** A rejection of the pattern matcher is justified by the bindings it has made (edn/src/matcher.rs). */
module MatcherRejects {
  import opened Values
  import opened Matching
  import opened MatcherLaws

  // No bindings that contain those a failed match leaves satisfy its pattern.

  lemma {:induction false} MatchFinal(v: Value, p: Value, t: Table, u: Table)
    requires !Match(v, p, t).ok && Extends(Match(v, p, t).table, u)
    ensures !Satisfies(v, p, u)
    decreases p, 1
  {
    if IsPlaceholder(p) {
    } else if v.Vector? && p.Vector? {
      AllFinal(v.vs, p.vs, t, u);
    } else if v.List? && p.List? {
      AllFinal(v.ls, p.ls, t, u);
    } else if v.Set? && p.Set? {
      SetsFinal(v.es, p.es, t, u);
    } else if v.Map? && p.Map? {
      MapsFinal(v.kvs, p.kvs, t, u);
    }
  }

  lemma {:induction false} AllFinal(vs: seq<Value>, ps: seq<Value>, t: Table, u: Table)
    requires !MatchAll(vs, ps, t).ok && Extends(MatchAll(vs, ps, t).table, u)
    ensures !AllSatisfy(vs, ps, u)
    decreases ps, 0
  {
    if vs != [] && ps != [] {
      var first := Match(vs[0], ps[0], t);
      AllSatisfyCons(vs, ps, u);
      if first.ok {
        AllFinal(vs[1..], ps[1..], first.table, u);
      } else {
        MatchFinal(vs[0], ps[0], t, u);
      }
    }
  }

  lemma {:induction false} SomePatternFinal(v: Value, ps: seq<Value>, t: Table, u: Table)
    requires !SomePattern(v, ps, t).ok && Extends(SomePattern(v, ps, t).table, u)
    ensures !HasPattern(v, ps, u)
    decreases ps, 2
  {
    if ps != [] {
      var first := Match(v, ps[0], t);
      SomePatternSound(v, ps[1..], first.table);
      MatchFinal(v, ps[0], t, u);
      SomePatternFinal(v, ps[1..], first.table, u);
      HasPatternCons(v, ps, u);
    }
  }

  lemma {:induction false} SomeValueFinal(vs: seq<Value>, p: Value, t: Table, u: Table)
    requires !SomeValue(vs, p, t).ok && Extends(SomeValue(vs, p, t).table, u)
    ensures !HasValue(vs, p, u)
    decreases p, 2, |vs|
  {
    if vs != [] {
      var first := Match(vs[0], p, t);
      SomeValueSound(vs[1..], p, first.table);
      MatchFinal(vs[0], p, t, u);
      SomeValueFinal(vs[1..], p, first.table, u);
      HasValueCons(vs, p, u);
    }
  }

  lemma {:induction false} EveryValueFinal(vs: seq<Value>, ps: seq<Value>, t: Table, u: Table)
    requires !EveryValue(vs, ps, t).ok && Extends(EveryValue(vs, ps, t).table, u)
    ensures exists i :: 0 <= i < |vs| && !HasPattern(vs[i], ps, u)
    decreases ps, 3, |vs|
  {
    var first := SomePattern(vs[0], ps, t);
    if first.ok {
      EveryValueFinal(vs[1..], ps, first.table, u);
      var i :| 0 <= i < |vs[1..]| && !HasPattern(vs[1..][i], ps, u);
      assert vs[1..][i] == vs[i + 1];
    } else {
      SomePatternFinal(vs[0], ps, t, u);
    }
  }

  lemma {:induction false} EveryPatternFinal(vs: seq<Value>, ps: seq<Value>, t: Table, u: Table)
    requires !EveryPattern(vs, ps, t).ok && Extends(EveryPattern(vs, ps, t).table, u)
    ensures exists j :: 0 <= j < |ps| && !HasValue(vs, ps[j], u)
    decreases ps, 2
  {
    var first := SomeValue(vs, ps[0], t);
    if first.ok {
      EveryPatternFinal(vs, ps[1..], first.table, u);
      var j :| 0 <= j < |ps[1..]| && !HasValue(vs, ps[1..][j], u);
      assert ps[1..][j] == ps[j + 1];
    } else {
      SomeValueFinal(vs, ps[0], t, u);
    }
  }

  lemma {:induction false} SetsFinal(vs: seq<Value>, ps: seq<Value>, t: Table, u: Table)
    requires !MatchSets(vs, ps, t).ok && Extends(MatchSets(vs, ps, t).table, u)
    ensures !SetSatisfies(vs, ps, u)
    decreases ps, 4
  {
    if |vs| == |ps| {
      var there := EveryValue(vs, ps, t);
      if there.ok {
        EveryPatternFinal(vs, ps, there.table, u);
      } else {
        EveryValueFinal(vs, ps, t, u);
      }
    }
  }

  // The same for the entries of maps.

  lemma {:induction false} EntryFinal(a: Entry, b: Entry, t: Table, u: Table)
    requires !MatchEntry(a, b, t).ok && Extends(MatchEntry(a, b, t).table, u)
    ensures !EntrySatisfies(a, b, u)
    decreases b, 2
  {
    var key := Match(a.key, b.key, t);
    if key.ok {
      MatchFinal(a.val, b.val, key.table, u);
    } else {
      MatchFinal(a.key, b.key, t, u);
    }
  }

  lemma {:induction false} SomeEntryPatternFinal(v: Entry, ps: seq<Entry>, t: Table, u: Table)
    requires !SomeEntryPattern(v, ps, t).ok && Extends(SomeEntryPattern(v, ps, t).table, u)
    ensures !HasEntryPattern(v, ps, u)
    decreases ps, 2
  {
    if ps != [] {
      var first := MatchEntry(v, ps[0], t);
      SomeEntryPatternSound(v, ps[1..], first.table);
      EntryFinal(v, ps[0], t, u);
      SomeEntryPatternFinal(v, ps[1..], first.table, u);
      HasEntryPatternCons(v, ps, u);
    }
  }

  lemma {:induction false} SomeEntryFinal(vs: seq<Entry>, p: Entry, t: Table, u: Table)
    requires !SomeEntry(vs, p, t).ok && Extends(SomeEntry(vs, p, t).table, u)
    ensures !HasEntry(vs, p, u)
    decreases p, 3, |vs|
  {
    if vs != [] {
      var first := MatchEntry(vs[0], p, t);
      SomeEntrySound(vs[1..], p, first.table);
      EntryFinal(vs[0], p, t, u);
      SomeEntryFinal(vs[1..], p, first.table, u);
      HasEntryCons(vs, p, u);
    }
  }

  lemma {:induction false} EveryEntryFinal(vs: seq<Entry>, ps: seq<Entry>, t: Table, u: Table)
    requires !EveryEntry(vs, ps, t).ok && Extends(EveryEntry(vs, ps, t).table, u)
    ensures exists i :: 0 <= i < |vs| && !HasEntryPattern(vs[i], ps, u)
    decreases ps, 3, |vs|
  {
    var first := SomeEntryPattern(vs[0], ps, t);
    if first.ok {
      EveryEntryFinal(vs[1..], ps, first.table, u);
      var i :| 0 <= i < |vs[1..]| && !HasEntryPattern(vs[1..][i], ps, u);
      assert vs[1..][i] == vs[i + 1];
    } else {
      SomeEntryPatternFinal(vs[0], ps, t, u);
    }
  }

  lemma {:induction false} EveryEntryPatternFinal(vs: seq<Entry>, ps: seq<Entry>, t: Table, u: Table)
    requires !EveryEntryPattern(vs, ps, t).ok && Extends(EveryEntryPattern(vs, ps, t).table, u)
    ensures exists j :: 0 <= j < |ps| && !HasEntry(vs, ps[j], u)
    decreases ps, 2
  {
    var first := SomeEntry(vs, ps[0], t);
    if first.ok {
      EveryEntryPatternFinal(vs, ps[1..], first.table, u);
      var j :| 0 <= j < |ps[1..]| && !HasEntry(vs, ps[1..][j], u);
      assert ps[1..][j] == ps[j + 1];
    } else {
      SomeEntryFinal(vs, ps[0], t, u);
    }
  }

  lemma {:induction false} MapsFinal(vs: seq<Entry>, ps: seq<Entry>, t: Table, u: Table)
    requires !MatchMaps(vs, ps, t).ok && Extends(MatchMaps(vs, ps, t).table, u)
    ensures !MapSatisfies(vs, ps, u)
    decreases ps, 4
  {
    if |vs| == |ps| {
      var there := EveryEntry(vs, ps, t);
      if there.ok {
        EveryEntryPatternFinal(vs, ps, there.table, u);
      } else {
        EveryEntryFinal(vs, ps, t, u);
      }
    }
  }

  /**
   * For all patterns, sets and maps included: the matcher says yes exactly if the bindings it ends with satisfy the
   * pattern, and exactly if some extension of them does. So it misses a match only by a binding it made too early.
   */
  lemma VerdictExactly(v: Value, p: Value, t: Table)
    ensures var r := Match(v, p, t);
            && (r.ok <==> Satisfies(v, p, r.table))
            && (r.ok <==> exists u :: Extends(r.table, u) && Satisfies(v, p, u))
  {
    var r := Match(v, p, t);
    MatchSound(v, p, t);
    assert Extends(r.table, r.table);
    if !r.ok {
      forall u | Extends(r.table, u) ensures !Satisfies(v, p, u) {
        MatchFinal(v, p, t, u);
      }
    }
  }
}
