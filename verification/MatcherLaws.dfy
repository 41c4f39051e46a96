/** Soundness of the pattern matcher for all patterns, and its completeness (edn/src/matcher.rs). */
module MatcherLaws {
  import opened Values
  import opened Matching

  ghost predicate Extends(t: Table, u: Table) {
    forall k :: k in t ==> k in u && u[k] == t[k]
  }

  // ---- More bindings never hurt ----

  lemma {:induction false} SatisfiesMonotone(v: Value, p: Value, t: Table, u: Table)
    requires Satisfies(v, p, t) && Extends(t, u)
    ensures Satisfies(v, p, u)
    decreases p, 1
  {
    if MatchesAny(p) || IsPlaceholder(p) {
    } else if v.Vector? && p.Vector? {
      AllMonotone(v.vs, p.vs, t, u);
    } else if v.List? && p.List? {
      AllMonotone(v.ls, p.ls, t, u);
    } else if v.Set? && p.Set? {
      SetMonotone(v.es, p.es, t, u);
    } else if v.Map? && p.Map? {
      MapMonotone(v.kvs, p.kvs, t, u);
    }
  }

  lemma {:induction false} AllMonotone(vs: seq<Value>, ps: seq<Value>, t: Table, u: Table)
    requires AllSatisfy(vs, ps, t) && Extends(t, u)
    ensures AllSatisfy(vs, ps, u)
    decreases ps, 0
  {
    forall i | 0 <= i < |ps| ensures Satisfies(vs[i], ps[i], u) {
      SatisfiesMonotone(vs[i], ps[i], t, u);
    }
  }

  lemma {:induction false} SetMonotone(vs: seq<Value>, ps: seq<Value>, t: Table, u: Table)
    requires SetSatisfies(vs, ps, t) && Extends(t, u)
    ensures SetSatisfies(vs, ps, u)
    decreases ps, 1
  {
    forall i | 0 <= i < |vs| ensures HasPattern(vs[i], ps, u) {
      HasPatternMonotone(vs[i], ps, t, u);
    }
    forall j | 0 <= j < |ps| ensures HasValue(vs, ps[j], u) {
      HasValueMonotone(vs, ps[j], t, u);
    }
  }

  lemma {:induction false} HasPatternMonotone(v: Value, ps: seq<Value>, t: Table, u: Table)
    requires HasPattern(v, ps, t) && Extends(t, u)
    ensures HasPattern(v, ps, u)
    decreases ps, 0
  {
    var j :| 0 <= j < |ps| && Satisfies(v, ps[j], t);
    SatisfiesMonotone(v, ps[j], t, u);
  }

  lemma {:induction false} HasValueMonotone(vs: seq<Value>, p: Value, t: Table, u: Table)
    requires HasValue(vs, p, t) && Extends(t, u)
    ensures HasValue(vs, p, u)
    decreases p, 2
  {
    var i :| 0 <= i < |vs| && Satisfies(vs[i], p, t);
    SatisfiesMonotone(vs[i], p, t, u);
  }

  lemma {:induction false} MapMonotone(vs: seq<Entry>, ps: seq<Entry>, t: Table, u: Table)
    requires MapSatisfies(vs, ps, t) && Extends(t, u)
    ensures MapSatisfies(vs, ps, u)
    decreases ps, 1
  {
    forall i | 0 <= i < |vs| ensures HasEntryPattern(vs[i], ps, u) {
      HasEntryPatternMonotone(vs[i], ps, t, u);
    }
    forall j | 0 <= j < |ps| ensures HasEntry(vs, ps[j], u) {
      HasEntryMonotone(vs, ps[j], t, u);
    }
  }

  lemma {:induction false} EntryMonotone(a: Entry, b: Entry, t: Table, u: Table)
    requires EntrySatisfies(a, b, t) && Extends(t, u)
    ensures EntrySatisfies(a, b, u)
    decreases b, 2
  {
    SatisfiesMonotone(a.key, b.key, t, u);
    SatisfiesMonotone(a.val, b.val, t, u);
  }

  lemma {:induction false} HasEntryPatternMonotone(v: Entry, ps: seq<Entry>, t: Table, u: Table)
    requires HasEntryPattern(v, ps, t) && Extends(t, u)
    ensures HasEntryPattern(v, ps, u)
    decreases ps, 0
  {
    var j :| 0 <= j < |ps| && EntrySatisfies(v, ps[j], t);
    EntryMonotone(v, ps[j], t, u);
  }

  lemma {:induction false} HasEntryMonotone(vs: seq<Entry>, p: Entry, t: Table, u: Table)
    requires HasEntry(vs, p, t) && Extends(t, u)
    ensures HasEntry(vs, p, u)
    decreases p, 3
  {
    var i :| 0 <= i < |vs| && EntrySatisfies(vs[i], p, t);
    EntryMonotone(vs[i], p, t, u);
  }

  // ---- Soundness ----

  // A match extends the table, also when it fails, and a successful one satisfies the pattern under it.

  lemma {:induction false} MatchSound(v: Value, p: Value, t: Table)
    ensures var r := Match(v, p, t); Extends(t, r.table) && (r.ok ==> Satisfies(v, p, r.table))
    decreases p, 1
  {
    if MatchesAny(p) || IsPlaceholder(p) {
    } else if v.Vector? && p.Vector? {
      AllSound(v.vs, p.vs, t);
    } else if v.List? && p.List? {
      AllSound(v.ls, p.ls, t);
    } else if v.Set? && p.Set? {
      SetsSound(v.es, p.es, t);
    } else if v.Map? && p.Map? {
      MapsSound(v.kvs, p.kvs, t);
    }
  }

  lemma {:induction false} AllSound(vs: seq<Value>, ps: seq<Value>, t: Table)
    ensures var r := MatchAll(vs, ps, t); Extends(t, r.table) && (r.ok ==> AllSatisfy(vs, ps, r.table))
    decreases ps, 0
  {
    if vs != [] && ps != [] {
      var first, r := Match(vs[0], ps[0], t), MatchAll(vs, ps, t);
      MatchSound(vs[0], ps[0], t);
      if first.ok {
        AllSound(vs[1..], ps[1..], first.table);
        if r.ok {
          SatisfiesMonotone(vs[0], ps[0], first.table, r.table);
          forall i | 0 <= i < |ps| ensures Satisfies(vs[i], ps[i], r.table) {
            if i > 0 {
              assert vs[1..][i - 1] == vs[i] && ps[1..][i - 1] == ps[i];
            }
          }
        }
      }
    }
  }

  lemma {:induction false} SomePatternSound(v: Value, ps: seq<Value>, t: Table)
    ensures var r := SomePattern(v, ps, t); Extends(t, r.table) && (r.ok ==> HasPattern(v, ps, r.table))
    decreases ps, 2
  {
    if ps != [] {
      var first, r := Match(v, ps[0], t), SomePattern(v, ps, t);
      MatchSound(v, ps[0], t);
      if !first.ok {
        SomePatternSound(v, ps[1..], first.table);
        if r.ok {
          var j :| 0 <= j < |ps[1..]| && Satisfies(v, ps[1..][j], r.table);
          assert Satisfies(v, ps[j + 1], r.table);
        }
      }
    }
  }

  lemma {:induction false} SomeValueSound(vs: seq<Value>, p: Value, t: Table)
    ensures var r := SomeValue(vs, p, t); Extends(t, r.table) && (r.ok ==> HasValue(vs, p, r.table))
    decreases p, 2, |vs|
  {
    if vs != [] {
      var first, r := Match(vs[0], p, t), SomeValue(vs, p, t);
      MatchSound(vs[0], p, t);
      if !first.ok {
        SomeValueSound(vs[1..], p, first.table);
        if r.ok {
          var i :| 0 <= i < |vs[1..]| && Satisfies(vs[1..][i], p, r.table);
          assert Satisfies(vs[i + 1], p, r.table);
        }
      }
    }
  }

  lemma {:induction false} EveryValueSound(vs: seq<Value>, ps: seq<Value>, t: Table)
    ensures var r := EveryValue(vs, ps, t);
            Extends(t, r.table) && (r.ok ==> forall i :: 0 <= i < |vs| ==> HasPattern(vs[i], ps, r.table))
    decreases ps, 3, |vs|
  {
    if vs != [] {
      var first, r := SomePattern(vs[0], ps, t), EveryValue(vs, ps, t);
      SomePatternSound(vs[0], ps, t);
      if first.ok {
        EveryValueSound(vs[1..], ps, first.table);
        if r.ok {
          HasPatternMonotone(vs[0], ps, first.table, r.table);
          forall i | 0 <= i < |vs| ensures HasPattern(vs[i], ps, r.table) {
            assert i > 0 ==> vs[1..][i - 1] == vs[i];
          }
        }
      }
    }
  }

  lemma {:induction false} EveryPatternSound(vs: seq<Value>, ps: seq<Value>, t: Table)
    ensures var r := EveryPattern(vs, ps, t);
            Extends(t, r.table) && (r.ok ==> forall j :: 0 <= j < |ps| ==> HasValue(vs, ps[j], r.table))
    decreases ps, 2
  {
    if ps != [] {
      var first, r := SomeValue(vs, ps[0], t), EveryPattern(vs, ps, t);
      SomeValueSound(vs, ps[0], t);
      if first.ok {
        EveryPatternSound(vs, ps[1..], first.table);
        if r.ok {
          HasValueMonotone(vs, ps[0], first.table, r.table);
          forall j | 0 <= j < |ps| ensures HasValue(vs, ps[j], r.table) {
            assert j > 0 ==> ps[1..][j - 1] == ps[j];
          }
        }
      }
    }
  }

  lemma {:induction false} SetsSound(vs: seq<Value>, ps: seq<Value>, t: Table)
    ensures var r := MatchSets(vs, ps, t); Extends(t, r.table) && (r.ok ==> SetSatisfies(vs, ps, r.table))
    decreases ps, 4
  {
    if |vs| == |ps| {
      var there, r := EveryValue(vs, ps, t), MatchSets(vs, ps, t);
      EveryValueSound(vs, ps, t);
      EveryPatternSound(vs, ps, there.table);
      if r.ok {
        forall i | 0 <= i < |vs| ensures HasPattern(vs[i], ps, r.table) {
          HasPatternMonotone(vs[i], ps, there.table, r.table);
        }
      }
    }
  }

  // The same for the entries of maps.

  lemma {:induction false} EntrySound(a: Entry, b: Entry, t: Table)
    ensures var r := MatchEntry(a, b, t); Extends(t, r.table) && (r.ok ==> EntrySatisfies(a, b, r.table))
    decreases b, 2
  {
    var key, r := Match(a.key, b.key, t), MatchEntry(a, b, t);
    MatchSound(a.key, b.key, t);
    if key.ok {
      MatchSound(a.val, b.val, key.table);
      SatisfiesMonotone(a.key, b.key, key.table, r.table);
    }
  }

  lemma {:induction false} SomeEntryPatternSound(v: Entry, ps: seq<Entry>, t: Table)
    ensures var r := SomeEntryPattern(v, ps, t); Extends(t, r.table) && (r.ok ==> HasEntryPattern(v, ps, r.table))
    decreases ps, 2
  {
    if ps != [] {
      var first, r := MatchEntry(v, ps[0], t), SomeEntryPattern(v, ps, t);
      EntrySound(v, ps[0], t);
      if !first.ok {
        SomeEntryPatternSound(v, ps[1..], first.table);
        if r.ok {
          var j :| 0 <= j < |ps[1..]| && EntrySatisfies(v, ps[1..][j], r.table);
          assert EntrySatisfies(v, ps[j + 1], r.table);
        }
      }
    }
  }

  lemma {:induction false} SomeEntrySound(vs: seq<Entry>, p: Entry, t: Table)
    ensures var r := SomeEntry(vs, p, t); Extends(t, r.table) && (r.ok ==> HasEntry(vs, p, r.table))
    decreases p, 3, |vs|
  {
    if vs != [] {
      var first, r := MatchEntry(vs[0], p, t), SomeEntry(vs, p, t);
      EntrySound(vs[0], p, t);
      if !first.ok {
        SomeEntrySound(vs[1..], p, first.table);
        if r.ok {
          var i :| 0 <= i < |vs[1..]| && EntrySatisfies(vs[1..][i], p, r.table);
          assert EntrySatisfies(vs[i + 1], p, r.table);
        }
      }
    }
  }

  lemma {:induction false} EveryEntrySound(vs: seq<Entry>, ps: seq<Entry>, t: Table)
    ensures var r := EveryEntry(vs, ps, t);
            Extends(t, r.table) && (r.ok ==> forall i :: 0 <= i < |vs| ==> HasEntryPattern(vs[i], ps, r.table))
    decreases ps, 3, |vs|
  {
    if vs != [] {
      var first, r := SomeEntryPattern(vs[0], ps, t), EveryEntry(vs, ps, t);
      SomeEntryPatternSound(vs[0], ps, t);
      if first.ok {
        EveryEntrySound(vs[1..], ps, first.table);
        if r.ok {
          HasEntryPatternMonotone(vs[0], ps, first.table, r.table);
          forall i | 0 <= i < |vs| ensures HasEntryPattern(vs[i], ps, r.table) {
            assert i > 0 ==> vs[1..][i - 1] == vs[i];
          }
        }
      }
    }
  }

  lemma {:induction false} EveryEntryPatternSound(vs: seq<Entry>, ps: seq<Entry>, t: Table)
    ensures var r := EveryEntryPattern(vs, ps, t);
            Extends(t, r.table) && (r.ok ==> forall j :: 0 <= j < |ps| ==> HasEntry(vs, ps[j], r.table))
    decreases ps, 2
  {
    if ps != [] {
      var first, r := SomeEntry(vs, ps[0], t), EveryEntryPattern(vs, ps, t);
      SomeEntrySound(vs, ps[0], t);
      if first.ok {
        EveryEntryPatternSound(vs, ps[1..], first.table);
        if r.ok {
          HasEntryMonotone(vs, ps[0], first.table, r.table);
          forall j | 0 <= j < |ps| ensures HasEntry(vs, ps[j], r.table) {
            assert j > 0 ==> ps[1..][j - 1] == ps[j];
          }
        }
      }
    }
  }

  lemma {:induction false} MapsSound(vs: seq<Entry>, ps: seq<Entry>, t: Table)
    ensures var r := MatchMaps(vs, ps, t); Extends(t, r.table) && (r.ok ==> MapSatisfies(vs, ps, r.table))
    decreases ps, 4
  {
    if |vs| == |ps| {
      var there, r := EveryEntry(vs, ps, t), MatchMaps(vs, ps, t);
      EveryEntrySound(vs, ps, t);
      EveryEntryPatternSound(vs, ps, there.table);
      if r.ok {
        forall i | 0 <= i < |vs| ensures HasEntryPattern(vs[i], ps, r.table) {
          HasEntryPatternMonotone(vs[i], ps, there.table, r.table);
        }
      }
    }
  }

  // ---- Parts whose placeholders are bound ----

  /** Every placeholder in the pattern is bound. */
  predicate Bound(p: Value, w: Table)
    decreases p, 1
  {
    match p
    case Vector(ps) => AllBound(ps, w)
    case List(ps) => AllBound(ps, w)
    case Set(ps) => AllBound(ps, w)
    case Map(kvs) => PairsBound(kvs, w)
    case _ => IsPlaceholder(p) ==> p.sym in w
  }

  predicate AllBound(ps: seq<Value>, w: Table)
    decreases ps, 0
  {
    forall i :: 0 <= i < |ps| ==> Bound(ps[i], w)
  }

  predicate EntryBound(e: Entry, w: Table)
    decreases e, 1
  {
    Bound(e.key, w) && Bound(e.val, w)
  }

  predicate PairsBound(kvs: seq<Entry>, w: Table)
    decreases kvs, 0
  {
    forall i :: 0 <= i < |kvs| ==> EntryBound(kvs[i], w)
  }

  /** Such a pattern is decided by these bindings, whatever is added to them, and adds none. */
  lemma {:induction false} BoundMatch(v: Value, p: Value, w: Table, t: Table, u: Table)
    requires Bound(p, w) && Extends(w, t) && Extends(w, u)
    ensures Match(v, p, t) == Verdict(Satisfies(v, p, u), t)
    decreases p, 1
  {
    if MatchesAny(p) || IsPlaceholder(p) {
    } else if v.Vector? && p.Vector? {
      BoundAll(v.vs, p.vs, w, t, u);
    } else if v.List? && p.List? {
      BoundAll(v.ls, p.ls, w, t, u);
    } else if v.Set? && p.Set? {
      BoundSets(v.es, p.es, w, t, u);
    } else if v.Map? && p.Map? {
      BoundMaps(v.kvs, p.kvs, w, t, u);
    }
  }

  lemma {:induction false} BoundAll(vs: seq<Value>, ps: seq<Value>, w: Table, t: Table, u: Table)
    requires AllBound(ps, w) && Extends(w, t) && Extends(w, u)
    ensures MatchAll(vs, ps, t) == Verdict(AllSatisfy(vs, ps, u), t)
    decreases ps, 0
  {
    if vs != [] && ps != [] {
      BoundMatch(vs[0], ps[0], w, t, u);
      BoundAll(vs[1..], ps[1..], w, t, u);
      AllSatisfyCons(vs, ps, u);
    }
  }

  lemma {:induction false} AllSatisfyCons(vs: seq<Value>, ps: seq<Value>, u: Table)
    requires vs != [] && ps != []
    ensures AllSatisfy(vs, ps, u) <==> Satisfies(vs[0], ps[0], u) && AllSatisfy(vs[1..], ps[1..], u)
  {
    if Satisfies(vs[0], ps[0], u) && AllSatisfy(vs[1..], ps[1..], u) {
      forall i | 0 <= i < |ps| ensures Satisfies(vs[i], ps[i], u) {
        assert i > 0 ==> Satisfies(vs[1..][i - 1], ps[1..][i - 1], u);
      }
    }
    if AllSatisfy(vs, ps, u) {
      forall i | 0 <= i < |ps[1..]| ensures Satisfies(vs[1..][i], ps[1..][i], u) {
        assert Satisfies(vs[i + 1], ps[i + 1], u);
      }
    }
  }

  lemma {:induction false} HasPatternCons(v: Value, ps: seq<Value>, u: Table)
    requires ps != []
    ensures HasPattern(v, ps, u) <==> Satisfies(v, ps[0], u) || HasPattern(v, ps[1..], u)
  {
    if HasPattern(v, ps[1..], u) {
      var j :| 0 <= j < |ps[1..]| && Satisfies(v, ps[1..][j], u);
      assert Satisfies(v, ps[j + 1], u);
    }
    if HasPattern(v, ps, u) && !Satisfies(v, ps[0], u) {
      var j :| 0 <= j < |ps| && Satisfies(v, ps[j], u);
      assert Satisfies(v, ps[1..][j - 1], u);
    }
  }

  lemma {:induction false} HasValueCons(vs: seq<Value>, p: Value, u: Table)
    requires vs != []
    ensures HasValue(vs, p, u) <==> Satisfies(vs[0], p, u) || HasValue(vs[1..], p, u)
  {
    if HasValue(vs[1..], p, u) {
      var i :| 0 <= i < |vs[1..]| && Satisfies(vs[1..][i], p, u);
      assert Satisfies(vs[i + 1], p, u);
    }
    if HasValue(vs, p, u) && !Satisfies(vs[0], p, u) {
      var i :| 0 <= i < |vs| && Satisfies(vs[i], p, u);
      assert Satisfies(vs[1..][i - 1], p, u);
    }
  }

  lemma {:induction false} BoundSomePattern(v: Value, ps: seq<Value>, w: Table, t: Table, u: Table)
    requires AllBound(ps, w) && Extends(w, t) && Extends(w, u)
    ensures SomePattern(v, ps, t) == Verdict(HasPattern(v, ps, u), t)
    decreases ps, 2
  {
    if ps != [] {
      BoundMatch(v, ps[0], w, t, u);
      BoundSomePattern(v, ps[1..], w, t, u);
      HasPatternCons(v, ps, u);
    }
  }

  lemma {:induction false} BoundSomeValue(vs: seq<Value>, p: Value, w: Table, t: Table, u: Table)
    requires Bound(p, w) && Extends(w, t) && Extends(w, u)
    ensures SomeValue(vs, p, t) == Verdict(HasValue(vs, p, u), t)
    decreases p, 2, |vs|
  {
    if vs != [] {
      BoundMatch(vs[0], p, w, t, u);
      BoundSomeValue(vs[1..], p, w, t, u);
      HasValueCons(vs, p, u);
    }
  }

  ghost predicate AllHavePattern(vs: seq<Value>, ps: seq<Value>, u: Table) {
    forall i :: 0 <= i < |vs| ==> HasPattern(vs[i], ps, u)
  }

  ghost predicate AllHaveValue(vs: seq<Value>, ps: seq<Value>, u: Table) {
    forall j :: 0 <= j < |ps| ==> HasValue(vs, ps[j], u)
  }

  lemma {:induction false} BoundEveryValue(vs: seq<Value>, ps: seq<Value>, w: Table, t: Table, u: Table)
    requires AllBound(ps, w) && Extends(w, t) && Extends(w, u)
    ensures EveryValue(vs, ps, t) == Verdict(AllHavePattern(vs, ps, u), t)
    decreases ps, 3, |vs|
  {
    if vs != [] {
      BoundSomePattern(vs[0], ps, w, t, u);
      BoundEveryValue(vs[1..], ps, w, t, u);
      assert vs == [vs[0]] + vs[1..];
      assert AllHavePattern(vs, ps, u) <==> HasPattern(vs[0], ps, u) && AllHavePattern(vs[1..], ps, u);
    }
  }

  lemma {:induction false} BoundEveryPattern(vs: seq<Value>, ps: seq<Value>, w: Table, t: Table, u: Table)
    requires AllBound(ps, w) && Extends(w, t) && Extends(w, u)
    ensures EveryPattern(vs, ps, t) == Verdict(AllHaveValue(vs, ps, u), t)
    decreases ps, 2
  {
    if ps != [] {
      BoundSomeValue(vs, ps[0], w, t, u);
      BoundEveryPattern(vs, ps[1..], w, t, u);
      assert ps == [ps[0]] + ps[1..];
      assert AllHaveValue(vs, ps, u) <==> HasValue(vs, ps[0], u) && AllHaveValue(vs, ps[1..], u);
    }
  }

  lemma {:induction false} BoundSets(vs: seq<Value>, ps: seq<Value>, w: Table, t: Table, u: Table)
    requires AllBound(ps, w) && Extends(w, t) && Extends(w, u)
    ensures MatchSets(vs, ps, t) == Verdict(SetSatisfies(vs, ps, u), t)
    decreases ps, 4
  {
    BoundEveryValue(vs, ps, w, t, u);
    BoundEveryPattern(vs, ps, w, t, u);
    assert SetSatisfies(vs, ps, u) <==> |vs| == |ps| && AllHavePattern(vs, ps, u) && AllHaveValue(vs, ps, u);
  }

  // The same for the entries of maps.

  lemma {:induction false} BoundEntry(a: Entry, b: Entry, w: Table, t: Table, u: Table)
    requires EntryBound(b, w) && Extends(w, t) && Extends(w, u)
    ensures MatchEntry(a, b, t) == Verdict(EntrySatisfies(a, b, u), t)
    decreases b, 2
  {
    BoundMatch(a.key, b.key, w, t, u);
    BoundMatch(a.val, b.val, w, t, u);
  }

  lemma {:induction false} HasEntryPatternCons(v: Entry, ps: seq<Entry>, u: Table)
    requires ps != []
    ensures HasEntryPattern(v, ps, u) <==> EntrySatisfies(v, ps[0], u) || HasEntryPattern(v, ps[1..], u)
  {
    if HasEntryPattern(v, ps[1..], u) {
      var j :| 0 <= j < |ps[1..]| && EntrySatisfies(v, ps[1..][j], u);
      assert EntrySatisfies(v, ps[j + 1], u);
    }
    if HasEntryPattern(v, ps, u) && !EntrySatisfies(v, ps[0], u) {
      var j :| 0 <= j < |ps| && EntrySatisfies(v, ps[j], u);
      assert EntrySatisfies(v, ps[1..][j - 1], u);
    }
  }

  lemma {:induction false} HasEntryCons(vs: seq<Entry>, p: Entry, u: Table)
    requires vs != []
    ensures HasEntry(vs, p, u) <==> EntrySatisfies(vs[0], p, u) || HasEntry(vs[1..], p, u)
  {
    if HasEntry(vs[1..], p, u) {
      var i :| 0 <= i < |vs[1..]| && EntrySatisfies(vs[1..][i], p, u);
      assert EntrySatisfies(vs[i + 1], p, u);
    }
    if HasEntry(vs, p, u) && !EntrySatisfies(vs[0], p, u) {
      var i :| 0 <= i < |vs| && EntrySatisfies(vs[i], p, u);
      assert EntrySatisfies(vs[1..][i - 1], p, u);
    }
  }

  lemma {:induction false} BoundSomeEntryPattern(v: Entry, ps: seq<Entry>, w: Table, t: Table, u: Table)
    requires PairsBound(ps, w) && Extends(w, t) && Extends(w, u)
    ensures SomeEntryPattern(v, ps, t) == Verdict(HasEntryPattern(v, ps, u), t)
    decreases ps, 2
  {
    if ps != [] {
      BoundEntry(v, ps[0], w, t, u);
      BoundSomeEntryPattern(v, ps[1..], w, t, u);
      HasEntryPatternCons(v, ps, u);
    }
  }

  lemma {:induction false} BoundSomeEntry(vs: seq<Entry>, p: Entry, w: Table, t: Table, u: Table)
    requires EntryBound(p, w) && Extends(w, t) && Extends(w, u)
    ensures SomeEntry(vs, p, t) == Verdict(HasEntry(vs, p, u), t)
    decreases p, 3, |vs|
  {
    if vs != [] {
      BoundEntry(vs[0], p, w, t, u);
      BoundSomeEntry(vs[1..], p, w, t, u);
      HasEntryCons(vs, p, u);
    }
  }

  ghost predicate AllHaveEntryPattern(vs: seq<Entry>, ps: seq<Entry>, u: Table) {
    forall i :: 0 <= i < |vs| ==> HasEntryPattern(vs[i], ps, u)
  }

  ghost predicate AllHaveEntry(vs: seq<Entry>, ps: seq<Entry>, u: Table) {
    forall j :: 0 <= j < |ps| ==> HasEntry(vs, ps[j], u)
  }

  lemma {:induction false} BoundEveryEntry(vs: seq<Entry>, ps: seq<Entry>, w: Table, t: Table, u: Table)
    requires PairsBound(ps, w) && Extends(w, t) && Extends(w, u)
    ensures EveryEntry(vs, ps, t) == Verdict(AllHaveEntryPattern(vs, ps, u), t)
    decreases ps, 3, |vs|
  {
    if vs != [] {
      BoundSomeEntryPattern(vs[0], ps, w, t, u);
      BoundEveryEntry(vs[1..], ps, w, t, u);
      assert vs == [vs[0]] + vs[1..];
      assert AllHaveEntryPattern(vs, ps, u) <==> HasEntryPattern(vs[0], ps, u) && AllHaveEntryPattern(vs[1..], ps, u);
    }
  }

  lemma {:induction false} BoundEveryEntryPattern(vs: seq<Entry>, ps: seq<Entry>, w: Table, t: Table, u: Table)
    requires PairsBound(ps, w) && Extends(w, t) && Extends(w, u)
    ensures EveryEntryPattern(vs, ps, t) == Verdict(AllHaveEntry(vs, ps, u), t)
    decreases ps, 2
  {
    if ps != [] {
      BoundSomeEntry(vs, ps[0], w, t, u);
      BoundEveryEntryPattern(vs, ps[1..], w, t, u);
      assert ps == [ps[0]] + ps[1..];
      assert AllHaveEntry(vs, ps, u) <==> HasEntry(vs, ps[0], u) && AllHaveEntry(vs, ps[1..], u);
    }
  }

  lemma {:induction false} BoundMaps(vs: seq<Entry>, ps: seq<Entry>, w: Table, t: Table, u: Table)
    requires PairsBound(ps, w) && Extends(w, t) && Extends(w, u)
    ensures MatchMaps(vs, ps, t) == Verdict(MapSatisfies(vs, ps, u), t)
    decreases ps, 4
  {
    BoundEveryEntry(vs, ps, w, t, u);
    BoundEveryEntryPattern(vs, ps, w, t, u);
    assert MapSatisfies(vs, ps, u) <==> |vs| == |ps| && AllHaveEntryPattern(vs, ps, u) && AllHaveEntry(vs, ps, u);
  }

  /** What satisfies a pattern binds all its placeholders. */
  lemma {:induction false} SatisfiesBinds(v: Value, p: Value, t: Table)
    requires Satisfies(v, p, t)
    ensures Bound(p, t)
    decreases p, 1
  {
    if MatchesAny(p) || IsPlaceholder(p) {
    } else if v.Vector? && p.Vector? {
      AllBinds(v.vs, p.vs, t);
    } else if v.List? && p.List? {
      AllBinds(v.ls, p.ls, t);
    } else if v.Set? && p.Set? {
      SetBinds(v.es, p.es, t);
    } else if v.Map? && p.Map? {
      MapBinds(v.kvs, p.kvs, t);
    }
  }

  lemma {:induction false} AllBinds(vs: seq<Value>, ps: seq<Value>, t: Table)
    requires AllSatisfy(vs, ps, t)
    ensures AllBound(ps, t)
    decreases ps, 0
  {
    forall i | 0 <= i < |ps| ensures Bound(ps[i], t) {
      SatisfiesBinds(vs[i], ps[i], t);
    }
  }

  lemma {:induction false} SetBinds(vs: seq<Value>, ps: seq<Value>, t: Table)
    requires SetSatisfies(vs, ps, t)
    ensures AllBound(ps, t)
    decreases ps, 1
  {
    forall j | 0 <= j < |ps| ensures Bound(ps[j], t) {
      assert HasValue(vs, ps[j], t);
      ServedBinds(vs, ps[j], t);
    }
  }

  lemma {:induction false} ServedBinds(vs: seq<Value>, p: Value, t: Table)
    requires HasValue(vs, p, t)
    ensures Bound(p, t)
    decreases p, 2
  {
    var i :| 0 <= i < |vs| && Satisfies(vs[i], p, t);
    SatisfiesBinds(vs[i], p, t);
  }

  lemma {:induction false} MapBinds(vs: seq<Entry>, ps: seq<Entry>, t: Table)
    requires MapSatisfies(vs, ps, t)
    ensures PairsBound(ps, t)
    decreases ps, 1
  {
    forall j | 0 <= j < |ps| ensures EntryBound(ps[j], t) {
      assert HasEntry(vs, ps[j], t);
      ServedEntryBinds(vs, ps[j], t);
    }
  }

  lemma {:induction false} ServedEntryBinds(vs: seq<Entry>, p: Entry, t: Table)
    requires HasEntry(vs, p, t)
    ensures EntryBound(p, t)
    decreases p, 3
  {
    var i :| 0 <= i < |vs| && EntrySatisfies(vs[i], p, t);
    SatisfiesBinds(vs[i].key, p.key, t);
    SatisfiesBinds(vs[i].val, p.val, t);
  }

  /** Every pattern whose placeholders are all bound is decided, and nothing is bound. */
  lemma BoundExactly(v: Value, p: Value, t: Table)
    requires Bound(p, t)
    ensures Match(v, p, t) == Verdict(Satisfies(v, p, t), t)
  {
    BoundMatch(v, p, t, t, t);
  }

  /** Bindings that satisfy a pattern are found: every pattern matches under them, and so it does a second time. */
  lemma SatisfiedMatches(v: Value, p: Value, t: Table)
    ensures Satisfies(v, p, t) ==> Match(v, p, t) == Verdict(true, t)
    ensures Match(v, p, t).ok ==> Match(v, p, Match(v, p, t).table) == Match(v, p, t)
  {
    if Satisfies(v, p, t) {
      SatisfiesBinds(v, p, t);
      BoundExactly(v, p, t);
    }
    var r := Match(v, p, t);
    if r.ok {
      MatchSound(v, p, t);
      SatisfiesBinds(v, p, r.table);
      BoundExactly(v, p, r.table);
    }
  }

  // ---- Parts without placeholders ----

  /** No placeholder anywhere in the pattern. */
  predicate Fixed(p: Value) {
    Bound(p, map[])
  }

  predicate AllFixed(ps: seq<Value>) {
    AllBound(ps, map[])
  }

  /** Such a pattern is decided whatever the bindings are, and leaves them alone. */
  lemma FixedMatch(v: Value, p: Value, t: Table, u: Table)
    requires Fixed(p)
    ensures Match(v, p, t) == Verdict(Satisfies(v, p, u), t)
  {
    BoundMatch(v, p, map[], t, u);
  }
}
