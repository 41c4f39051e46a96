/** What the guard lets through nests no deeper than the guard allows, however long the input (edn/src/depth.rs). */
module NestingBound {
  import opened Sorting
  import opened Spanned
  import opened Lexical
  import opened Depth
  import opened Parser
  import opened Recursion

  /** Collecting a map drops entries, it adds none: with two keys alike the value may only nest less. */
  lemma CollectedMapNestsLess(kvs: seq<SpannedEntry>)
    ensures SNestingPairs(SpannedMapFromIter(kvs)) <= SNestingPairs(kvs)
  {
    var sorted := StableSort(kvs, SpannedKeyLe);
    forall e | e in SpannedMapFromIter(kvs) ensures e in kvs {
      assert e in sorted;
      assert e in multiset(sorted) && e in multiset(kvs);
    }
    NestingByEntries(kvs, SNestingPairs(kvs));
    NestingByEntries(SpannedMapFromIter(kvs), SNestingPairs(kvs));
  }

  lemma {:induction false} ValueNests(h: Host, s: string, i: nat, stack: nat)
    requires i <= |s|
    ensures var r := ParseValue(h, s, i, stack); r.Match? ==> SNesting(r.value.inner) <= stack
    decreases |s| - i, 5
  {
    InnerNests(h, s, Skip(s, i), stack);
  }

  lemma {:induction false} InnerNests(h: Host, s: string, i: nat, stack: nat)
    requires i <= |s|
    ensures var r := ParseInner(h, s, i, stack); r.Match? ==> SNesting(r.value) <= stack
    decreases |s| - i, 4
  {
    BracketedNests(h, s, i, "(", ')', stack, Bracketed(h, s, i, "(", ')', stack));
    BracketedNests(h, s, i, "[", ']', stack, Bracketed(h, s, i, "[", ']', stack));
    SetNests(h, s, i, stack);
    MapNests(h, s, i, stack);
  }

  lemma {:induction false} BracketedNests(h: Host, s: string, i: nat, open: string, close: char, stack: nat,
                                          r: Outcome<seq<ValueAndSpan>>)
    requires i <= |s| && open != "" && r == Bracketed(h, s, i, open, close, stack)
    ensures r.Match? ==> 1 + SNestingAll(r.value) <= stack
    decreases |s| - i, 2
  {
    if r.Match? {
      var b, start, body := BracketedIs(h, s, i, open, close, stack, r);
      InsideNests(h, s, i, start, stack - 1, body, r);
    }
  }

  lemma {:induction false} InsideNests(h: Host, s: string, i: nat, start: nat, stack: nat,
                                       body: Outcome<seq<ValueAndSpan>>, r: Outcome<seq<ValueAndSpan>>)
    requires i < start <= |s| && body == ParseMany(h, s, start, stack) && body.Match?
    requires r.Match? && r.value == body.value
    ensures 1 + SNestingAll(r.value) <= stack + 1
    decreases |s| - i, 1
  {
    ManyNest(h, s, start, stack);
  }

  lemma {:induction false} SetNests(h: Host, s: string, i: nat, stack: nat)
    requires i <= |s|
    ensures var r := SetRule(h, s, i, stack); r.Match? ==> SNesting(r.value) <= stack
    decreases |s| - i, 3
  {
    var e := Bracketed(h, s, i, "#{", '}', stack);
    BracketedNests(h, s, i, "#{", '}', stack, e);
    if e.Match? {
      SpannedSetNesting(e.value);
    }
  }

  lemma {:induction false} MapNests(h: Host, s: string, i: nat, stack: nat)
    requires i <= |s|
    ensures var r := MapRule(h, s, i, stack); r.Match? ==> SNesting(r.value) <= stack
    decreases |s| - i, 3
  {
    var e := Braced(h, s, i, stack);
    if e.Match? {
      var b, start, body := BracedIs(h, s, i, stack, e);
      PairsNest(h, s, start, stack - 1);
      CollectedMapNestsLess(e.value);
    }
  }

  lemma {:induction false} ManyNest(h: Host, s: string, i: nat, stack: nat)
    requires i <= |s|
    ensures var r := ParseMany(h, s, i, stack); r.Match? ==> SNestingAll(r.value) <= stack
    decreases |s| - i, 6
  {
    ValueNests(h, s, i, stack);
    var r := ParseValue(h, s, i, stack);
    if r.Match? {
      ManyNest(h, s, r.next, stack);
      var all := ParseMany(h, s, r.next, stack);
      if all.Match? {
        assert ([r.value] + all.value)[1..] == all.value;
      }
    }
  }

  lemma {:induction false} PairNests(h: Host, s: string, i: nat, stack: nat)
    requires i <= |s|
    ensures var r := ParsePair(h, s, i, stack); r.Match? ==> SNestingEntry(r.value) <= stack
    decreases |s| - i, 6
  {
    var r := ParsePair(h, s, i, stack);
    if r.Match? {
      var k, v := PairIs(h, s, i, stack, r);
      ValueNests(h, s, i, stack);
      ValueNests(h, s, k.next, stack);
    }
  }

  lemma {:induction false} PairsNest(h: Host, s: string, i: nat, stack: nat)
    requires i <= |s|
    ensures var r := ParsePairs(h, s, i, stack); r.Match? ==> SNestingPairs(r.value) <= stack
    decreases |s| - i, 7
  {
    PairNests(h, s, i, stack);
    var r := ParsePair(h, s, i, stack);
    if r.Match? {
      PairsNest(h, s, r.next, stack);
      var all := ParsePairs(h, s, r.next, stack);
      if all.Match? {
        assert ([r.value] + all.value)[1..] == all.value;
      }
    }
  }

  /** Whatever its length, an accepted input that passes the scan is a value nested at most `max` deep. */
  lemma GuardBoundsNesting(h: Host, s: string, v: ValueAndSpan, stack: nat, max: nat)
    requires Accepts(h, s, stack, v) && NestingOk(s, max)
    ensures SNesting(v.inner) <= max
  {
    GuardIsExact(h, s, v, stack, max);
    ValueNests(h, s, 0, max);
  }
}
