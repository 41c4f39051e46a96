/** A live answer stored after the invalidation that should have dropped it (mentatd/src/server.rs). */
module StaleStore {
  import opened Prelude
  import opened Json
  import opened PlainCache
  import opened CacheKeys
  import opened Serving

  /** A query has been answered from the empty database and not yet stored; meanwhile a transaction committed. */
  function Race(phase: Phase, db: Db, dirty: seq<Json>): State {
    START.(inFlight := [Request(Live("q", []), None, phase)], db := db, dirty := dirty)
  }

  lemma RaceBegins(w: World, c: Config, report: Json, rest: seq<Step>)
    requires w.query("q", [], []) == Some(JInteger(0))
    ensures var steps := [Ask("q", [], None, 0, 0), Lookup(0, 0), Fetch(0, true), Commit(Tx(1, Some(report)))] + rest;
            var s := Race(Fetched(JInteger(0), 0), [Tx(1, Some(report))], [report]);
            After(w, c, START, steps) == After(w, c, s, rest) && (Legal(w, c, START, steps) <==> Legal(w, c, s, rest))
  {
    var asked, missed := Race(Asked, [], []), Race(Missed, [], []);
    var fetched := Race(Fetched(JInteger(0), 0), [], []);
    var s := Race(Fetched(JInteger(0), 0), [Tx(1, Some(report))], [report]);
    assert Apply(w, c, START, Ask("q", [], None, 0, 0)) == asked;
    assert Apply(w, c, fetched, Commit(Tx(1, Some(report)))) == s;
    var r3 := [Commit(Tx(1, Some(report)))] + rest;
    var r2 := [Fetch(0, true)] + r3;
    var r1 := [Lookup(0, 0)] + r2;
    Unfold(w, c, fetched, Commit(Tx(1, Some(report))), rest, s);
    Unfold(w, c, missed, Fetch(0, true), r3, fetched);
    Unfold(w, c, asked, Lookup(0, 0), r2, missed);
    Unfold(w, c, START, Ask("q", [], None, 0, 0), r1, asked);
    assert [Ask("q", [], None, 0, 0), Lookup(0, 0), Fetch(0, true), Commit(Tx(1, Some(report)))] + rest
        == [Ask("q", [], None, 0, 0)] + r1;
  }

  lemma RaceStates(w: World, c: Config, s0: State) returns (s1: State, s2: State, s3: State, s4: State)
    requires TextRoundTrips(w) && w.query("q", [], []) == Some(JInteger(0))
    requires c.capacity > 0 && |s0.dirty| == 1 && s0.log == []
    requires s0.inFlight == [Request(Live("q", []), None, Fetched(JInteger(0), 0))]
    ensures s1 == Apply(w, c, s0, Invalidate(0)) && s2 == Apply(w, c, s1, Store(0, 0))
    ensures s3 == Apply(w, c, s2, Ask("q", [], None, 0, 0)) && s4 == Apply(w, c, s3, Lookup(0, 0))
    ensures s4.db == s0.db && |s4.log| == 2 && s4.log[1] == Served(Live("q", []), None, JInteger(0))
  {
    var src := Live("q", []);
    assert Value(w, [], src) == Some(JInteger(0));
    s1 := Apply(w, c, s0, Invalidate(0));
    s2 := Apply(w, c, s1, Store(0, 0));
    s3 := Apply(w, c, s2, Ask("q", [], None, 0, 0));
    s4 := Apply(w, c, s3, Lookup(0, 0));
    StoredLate(w, c, s1);
    AskedAgain(w, c, s2);
  }

  lemma StoredLate(w: World, c: Config, s: State)
    requires c.capacity > 0 && s.log == [] && s.inFlight == [Request(Live("q", []), None, Fetched(JInteger(0), 0))]
    ensures var s' := Apply(w, c, s, Store(0, 0));
            && KeyOf(Live("q", [])) in s'.cache.entries
            && s'.cache.entries[KeyOf(Live("q", []))] == CacheEntry(w.show(JInteger(0)), 0)
            && s'.inFlight == [] && |s'.log| == 1 && s'.db == s.db
  {
  }

  lemma AskedAgain(w: World, c: Config, s: State)
    requires w.read(w.show(JInteger(0))) == Some(JInteger(0)) && s.inFlight == []
    requires KeyOf(Live("q", [])) in s.cache.entries
    requires s.cache.entries[KeyOf(Live("q", []))] == CacheEntry(w.show(JInteger(0)), 0)
    ensures var s' := Apply(w, c, Apply(w, c, s, Ask("q", [], None, 0, 0)), Lookup(0, 0));
            s'.db == s.db && s'.log == s.log + [Served(Live("q", []), None, JInteger(0))]
  {
    assert Apply(w, c, s, Ask("q", [], None, 0, 0)).inFlight == [Request(Live("q", []), None, Asked)];
  }

  lemma RaceEnds(w: World, c: Config, report: Json) returns (s: State)
    requires TextRoundTrips(w) && c.capacity > 0 && w.query("q", [], []) == Some(JInteger(0))
    ensures var s0 := Race(Fetched(JInteger(0), 0), [Tx(1, Some(report))], [report]);
            var steps := [Invalidate(0), Store(0, 0), Ask("q", [], None, 0, 0), Lookup(0, 0)];
            After(w, c, s0, steps) == s && Legal(w, c, s0, steps)
    ensures s.db == [Tx(1, Some(report))] && |s.log| == 2 && s.log[1] == Served(Live("q", []), None, JInteger(0))
  {
    var s0 := Race(Fetched(JInteger(0), 0), [Tx(1, Some(report))], [report]);
    var s1, s2, s3, s4 := RaceStates(w, c, s0);
    s := s4;
    var r2 := [Ask("q", [], None, 0, 0)] + [Lookup(0, 0)];
    var r1 := [Store(0, 0)] + r2;
    Unfold(w, c, s3, Lookup(0, 0), [], s);
    Unfold(w, c, s2, Ask("q", [], None, 0, 0), [Lookup(0, 0)], s3);
    Unfold(w, c, s1, Store(0, 0), r2, s2);
    Unfold(w, c, s0, Invalidate(0), r1, s1);
    assert [Lookup(0, 0)] == [Lookup(0, 0)] + [];
    assert [Invalidate(0), Store(0, 0), Ask("q", [], None, 0, 0), Lookup(0, 0)] == [Invalidate(0)] + r1;
  }

  /** With requests in flight at once a live hit can be stale: an answer fetched before a commit is stored after it. */
  lemma StoreAfterInvalidationIsStale(w: World, c: Config, report: Json)
    requires TextRoundTrips(w) && c.capacity > 0 && forall db :: w.query("q", [], db) == Some(JInteger(|db|))
    ensures var steps := [Ask("q", [], None, 0, 0), Lookup(0, 0), Fetch(0, true), Commit(Tx(1, Some(report)))]
                       + [Invalidate(0), Store(0, 0), Ask("q", [], None, 0, 0), Lookup(0, 0)];
            var s := After(w, c, START, steps);
            && Legal(w, c, START, steps)
            && |s.log| == 2 && s.log[1].src == Live("q", []) && Some(s.log[1].json) != Value(w, s.db, s.log[1].src)
  {
    RaceBegins(w, c, report, [Invalidate(0), Store(0, 0), Ask("q", [], None, 0, 0), Lookup(0, 0)]);
    var s := RaceEnds(w, c, report);
  }

  lemma Unfold(w: World, c: Config, s: State, step: Step, rest: seq<Step>, next: State)
    requires next == Apply(w, c, s, step)
    ensures After(w, c, s, [step] + rest) == After(w, c, next, rest)
    ensures Legal(w, c, s, [step] + rest) <==> Allowed(s, step) && Legal(w, c, next, rest)
  {
    assert ([step] + rest)[1..] == rest;
  }
}
