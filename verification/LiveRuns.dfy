/**
 * Live answers with requests in flight at once (mentatd/src/server.rs): they are current whenever no committed report
 * waits to be used for invalidation, if no answer is stored after an invalidation that would have dropped it.
 */
module LiveRuns {
  import opened Prelude
  import opened Json
  import opened PlainCache
  import opened CacheKeys
  import opened Serving
  import Coherence

  /** The transaction drops an answer with these dependencies. */
  ghost predicate Affects(tx: Tx, deps: set<I64>) {
    tx.report.Some? && Coherence.Drops(tx.report.value, deps)
  }

  /** Every transaction from number `n` on that affects the dependencies has its report waiting. */
  ghost predicate Awaited(db: Db, dirty: seq<Json>, n: nat, deps: set<I64>) {
    forall i :: n <= i < |db| && Affects(db[i], deps) ==> db[i].report.value in dirty
  }

  /** The answer was right after `n` transactions, and whatever may have changed it since is waiting. */
  ghost predicate RightAt(w: World, db: Db, dirty: seq<Json>, src: Source, j: Json, n: nat) {
    n <= |db| && Value(w, db[..n], src) == Some(j) && Awaited(db, dirty, n, DepsOf(src, j))
  }

  /** A cached live answer. */
  ghost predicate EntryRight(w: World, s: State, src: Source)
    requires KeyOf(src) in s.cache.entries
  {
    var k := KeyOf(src);
    k in s.cache.deps && exists j, n: nat ::
      && RightAt(w, s.db, s.dirty, src, j, n) && s.cache.entries[k].result == w.show(j)
      && s.cache.deps[k] == DepsOf(src, j)
  }

  ghost predicate RequestRight(w: World, s: State, r: Request) {
    !r.src.AsOf? && r.phase.Fetched? ==>
      r.phase.at <= |s.db| && Value(w, s.db[..r.phase.at], r.src) == Some(r.phase.json)
  }

  ghost predicate AllRight(w: World, s: State) {
    && (forall src: Source :: !src.AsOf? && KeyOf(src) in s.cache.entries ==> EntryRight(w, s, src))
    && (forall i :: 0 <= i < |s.inFlight| ==> RequestRight(w, s, s.inFlight[i]))
    && (forall i :: 0 <= i < |s.db| ==> s.db[i].report.Some?)
  }

  /**
   * The condition: reports can be read, and when a live answer is stored, whatever affects it since its fetch
   * is waiting.
   */
  ghost predicate Timely(s: State, step: Step) {
    match step
    case Commit(tx) => tx.report.Some?
    case Store(i, _) =>
      i < |s.inFlight| && s.inFlight[i].phase.Fetched? && !s.inFlight[i].src.AsOf? ==>
        var r := s.inFlight[i];
        Awaited(s.db, s.dirty, r.phase.at, DepsOf(r.src, r.phase.json))
    case _ => true
  }

  ghost predicate TimelyRun(w: World, c: Config, s: State, steps: seq<Step>)
    decreases |steps|
  {
    steps != [] ==> Timely(s, steps[0]) && TimelyRun(w, c, Apply(w, c, s, steps[0]), steps[1..])
  }

  // ---- Right answers become current ones ----

  /** With nothing waiting, an answer that was right is right. */
  lemma {:induction false} RightIsCurrent(w: World, db: Db, src: Source, j: Json, n: nat)
    requires Coherence.Suffices(w) && !src.AsOf? && RightAt(w, db, [], src, j, n)
    requires forall i :: 0 <= i < |db| ==> db[i].report.Some?
    ensures Value(w, db, src) == Some(j)
    decreases |db| - n
  {
    if n == |db| {
      assert db[..n] == db;
    } else {
      var tx := db[n];
      assert !Affects(tx, DepsOf(src, j));
      assert Coherence.Readable(db[..n]) && Coherence.Slips(w, src, db[..n], tx);
      assert db[..n + 1] == db[..n] + [tx];
      RightIsCurrent(w, db, src, j, n + 1);
    }
  }

  // ---- Steps ----

  lemma CommittedRight(w: World, db: Db, dirty: seq<Json>, src: Source, j: Json, n: nat, tx: Tx)
    requires RightAt(w, db, dirty, src, j, n) && tx.report.Some?
    ensures RightAt(w, db + [tx], dirty + [tx.report.value], src, j, n)
  {
    assert (db + [tx])[..n] == db[..n];
  }

  lemma CommitRight(w: World, c: Config, s: State, tx: Tx)
    requires AllRight(w, s) && tx.report.Some?
    ensures AllRight(w, Apply(w, c, s, Commit(tx)))
  {
    var s' := Apply(w, c, s, Commit(tx));
    forall src: Source | !src.AsOf? && KeyOf(src) in s'.cache.entries ensures EntryRight(w, s', src) {
      assert EntryRight(w, s, src);
      var j, n: nat :| RightAt(w, s.db, s.dirty, src, j, n)
        && s.cache.entries[KeyOf(src)].result == w.show(j) && s.cache.deps[KeyOf(src)] == DepsOf(src, j);
      CommittedRight(w, s.db, s.dirty, src, j, n, tx);
    }
    forall i | 0 <= i < |s'.inFlight| ensures RequestRight(w, s', s'.inFlight[i]) {
      var r := s.inFlight[i];
      assert RequestRight(w, s, r);
      if !r.src.AsOf? && r.phase.Fetched? {
        assert s'.db[..r.phase.at] == s.db[..r.phase.at];
      }
    }
  }

  /** What an invalidation leaves is not affected by the report it used. */
  lemma SparedAwaited(db: Db, dirty: seq<Json>, i: nat, n: nat, deps: set<I64>)
    requires i < |dirty| && Awaited(db, dirty, n, deps) && !Coherence.Drops(dirty[i], deps)
    ensures Awaited(db, dirty[..i] + dirty[i + 1..], n, deps)
  {
    var left := dirty[..i] + dirty[i + 1..];
    forall k | n <= k < |db| && Affects(db[k], deps) ensures db[k].report.value in left {
      var report := db[k].report.value;
      var p :| 0 <= p < |dirty| && dirty[p] == report;
      assert p != i;
      assert left[if p < i then p else p - 1] == report;
    }
  }

  lemma InvalidateRight(w: World, c: Config, s: State, i: nat)
    requires AllRight(w, s) && i < |s.dirty|
    ensures AllRight(w, Apply(w, c, s, Invalidate(i)))
  {
    var s' := Apply(w, c, s, Invalidate(i));
    forall src: Source | !src.AsOf? && KeyOf(src) in s'.cache.entries ensures EntryRight(w, s', src) {
      var k := KeyOf(src);
      assert EntryRight(w, s, src);
      var j, n: nat :| RightAt(w, s.db, s.dirty, src, j, n)
        && s.cache.entries[k].result == w.show(j) && s.cache.deps[k] == DepsOf(src, j);
      Coherence.SparedExactly(s.cache, s.dirty[i], k);
      SparedAwaited(s.db, s.dirty, i, n, s.cache.deps[k]);
      assert RightAt(w, s'.db, s'.dirty, src, j, n);
    }
    forall k | 0 <= k < |s'.inFlight| ensures RequestRight(w, s', s'.inFlight[k]) {
      assert RequestRight(w, s, s.inFlight[k]);
    }
  }

  /** Fewer entries, and requests that were there or have fetched nothing. */
  lemma FewerRight(w: World, s: State, s': State)
    requires AllRight(w, s) && s'.db == s.db && s'.dirty == s.dirty
    requires forall k :: k in s'.cache.entries ==>
               k in s.cache.entries && s'.cache.entries[k] == s.cache.entries[k]
               && (k in s.cache.deps ==> k in s'.cache.deps && s'.cache.deps[k] == s.cache.deps[k])
    requires forall i :: 0 <= i < |s'.inFlight| ==> s'.inFlight[i] in s.inFlight || !s'.inFlight[i].phase.Fetched?
    ensures AllRight(w, s')
  {
    forall src: Source | !src.AsOf? && KeyOf(src) in s'.cache.entries ensures EntryRight(w, s', src) {
      assert EntryRight(w, s, src);
    }
    forall i | 0 <= i < |s'.inFlight| ensures RequestRight(w, s', s'.inFlight[i]) {
      var r := s'.inFlight[i];
      if r in s.inFlight {
        var k :| 0 <= k < |s.inFlight| && s.inFlight[k] == r;
        assert RequestRight(w, s, s.inFlight[k]);
      }
    }
  }

  lemma LookupRight(w: World, c: Config, s: State, i: nat, now: nat)
    requires AllRight(w, s) && i < |s.inFlight| && s.inFlight[i].phase.Asked?
    ensures AllRight(w, LookedUp(w, c, s, i, now))
  {
    var s' := LookedUp(w, c, s, i, now);
    forall k | 0 <= k < |s'.inFlight| ensures s'.inFlight[k] in s.inFlight || !s'.inFlight[k].phase.Fetched? {
      if |s'.inFlight| < |s.inFlight| {
        assert s'.inFlight[k] == s.inFlight[if k < i then k else k + 1];
      }
    }
    FewerRight(w, s, s');
  }

  lemma FetchRight(w: World, s: State, i: nat, reachable: bool)
    requires AllRight(w, s) && i < |s.inFlight|
    ensures AllRight(w, FetchedOne(w, s, i, reachable))
  {
    var s' := FetchedOne(w, s, i, reachable);
    assert s.db[..|s.db|] == s.db;
    forall src: Source | !src.AsOf? && KeyOf(src) in s'.cache.entries ensures EntryRight(w, s', src) {
      assert EntryRight(w, s, src);
    }
    forall k | 0 <= k < |s'.inFlight| ensures RequestRight(w, s', s'.inFlight[k]) {
      assert RequestRight(w, s, s.inFlight[if |s'.inFlight| == |s.inFlight| || k < i then k else k + 1]);
    }
  }

  lemma InsertedRight(w: World, c: Config, s: State, i: nat, now: nat, src: Source)
    requires AllRight(w, s) && i < |s.inFlight| && s.inFlight[i].phase.Fetched? && Timely(s, Store(i, now))
    requires !src.AsOf? && KeyOf(src) in Stored(w, c, s, i, now).cache.entries
    ensures EntryRight(w, Stored(w, c, s, i, now), src)
  {
    var s', r := Stored(w, c, s, i, now), s.inFlight[i];
    if c.capacity > 0 && KeyOf(src) == KeyOf(r.src) {
      KeysNeverCollide(src, r.src);
      assert RequestRight(w, s, r);
      assert RightAt(w, s'.db, s'.dirty, src, r.phase.json, r.phase.at);
    } else {
      assert EntryRight(w, s, src);
    }
  }

  lemma StoreRight(w: World, c: Config, s: State, i: nat, now: nat)
    requires AllRight(w, s) && i < |s.inFlight| && s.inFlight[i].phase.Fetched? && Timely(s, Store(i, now))
    ensures AllRight(w, Stored(w, c, s, i, now))
  {
    var s' := Stored(w, c, s, i, now);
    forall src: Source | !src.AsOf? && KeyOf(src) in s'.cache.entries ensures EntryRight(w, s', src) {
      InsertedRight(w, c, s, i, now, src);
    }
    forall k | 0 <= k < |s'.inFlight| ensures RequestRight(w, s', s'.inFlight[k]) {
      assert RequestRight(w, s, s.inFlight[if k < i then k else k + 1]);
    }
  }

  lemma AskRight(w: World, s: State, s': State, r: Request)
    requires AllRight(w, s) && !r.phase.Fetched? && s'.db == s.db && s'.dirty == s.dirty && s'.cache == s.cache
    requires s'.inFlight == s.inFlight || s'.inFlight == s.inFlight + [r]
    ensures AllRight(w, s')
  {
    FewerRight(w, s, s');
  }

  lemma StepRight(w: World, c: Config, s: State, step: Step)
    requires AllRight(w, s) && Timely(s, step)
    ensures AllRight(w, Apply(w, c, s, step))
  {
    var s' := Apply(w, c, s, step);
    match step
    case ReadBasis => AskRight(w, s, s', Request(Pull("", 0), None, Asked));
    case RecordSnapshot(_, _, _) => AskRight(w, s, s', Request(Pull("", 0), None, Asked));
    case Ask(q, args, dbId, now, later) =>
      if |s'.inFlight| > |s.inFlight| {
        AskRight(w, s, s', s'.inFlight[|s.inFlight|]);
      } else {
        AskRight(w, s, s', Request(Pull("", 0), None, Asked));
      }
    case AskPull(p, e) => AskRight(w, s, s', Request(Pull(p, e), None, Asked));
    case Lookup(i, now) =>
      if i < |s.inFlight| && s.inFlight[i].phase.Asked? {
        LookupRight(w, c, s, i, now);
      }
    case Fetch(i, reachable) =>
      if i < |s.inFlight| && s.inFlight[i].phase.Missed? {
        FetchRight(w, s, i, reachable);
      }
    case Store(i, now) =>
      if i < |s.inFlight| && s.inFlight[i].phase.Fetched? {
        StoreRight(w, c, s, i, now);
      }
    case Commit(tx) => CommitRight(w, c, s, tx);
    case Invalidate(i) =>
      if i < |s.dirty| {
        InvalidateRight(w, c, s, i);
      }
    case Cleanup(_) => AskRight(w, s, s', Request(Pull("", 0), None, Asked));
  }

  lemma {:induction false} RunRight(w: World, c: Config, s: State, steps: seq<Step>)
    requires AllRight(w, s) && TimelyRun(w, c, s, steps)
    ensures AllRight(w, After(w, c, s, steps))
    decreases |steps|
  {
    if steps != [] {
      StepRight(w, c, s, steps[0]);
      RunRight(w, c, Apply(w, c, s, steps[0]), steps[1..]);
    }
  }

  // ---- Answers ----

  lemma HitCurrent(w: World, c: Config, s: State, i: nat, now: nat)
    requires TextRoundTrips(w) && Coherence.Suffices(w) && AllRight(w, s) && s.dirty == []
    requires i < |s.inFlight| && !s.inFlight[i].src.AsOf?
    requires Answer(s.cache, KeyOf(s.inFlight[i].src), now, c.ttl).Some?
    ensures w.read(Answer(s.cache, KeyOf(s.inFlight[i].src), now, c.ttl).value) == Value(w, s.db, s.inFlight[i].src)
  {
    var src := s.inFlight[i].src;
    assert EntryRight(w, s, src);
    var j, n: nat :| RightAt(w, s.db, s.dirty, src, j, n)
      && s.cache.entries[KeyOf(src)].result == w.show(j) && s.cache.deps[KeyOf(src)] == DepsOf(src, j);
    RightIsCurrent(w, s.db, src, j, n);
  }

  lemma StoredCurrent(w: World, s: State, i: nat, now: nat)
    requires Coherence.Suffices(w) && AllRight(w, s) && s.dirty == [] && Timely(s, Store(i, now))
    requires i < |s.inFlight| && s.inFlight[i].phase.Fetched? && !s.inFlight[i].src.AsOf?
    ensures Value(w, s.db, s.inFlight[i].src) == Some(s.inFlight[i].phase.json)
  {
    var r := s.inFlight[i];
    assert RequestRight(w, s, r);
    RightIsCurrent(w, s.db, r.src, r.phase.json, r.phase.at);
  }

  /**
   * Over every interleaved run that keeps the condition, a live query or pull that is answered while no report is
   * waiting gets the answer of the current database, from the cache or not.
   */
  lemma LiveAnswersAreCurrent(w: World, c: Config, steps: seq<Step>, step: Step)
    requires TextRoundTrips(w) && Coherence.Suffices(w) && TimelyRun(w, c, START, steps)
    requires var s := After(w, c, START, steps); s.dirty == [] && Timely(s, step)
    ensures var s := After(w, c, START, steps);
            var log := Apply(w, c, s, step).log;
            |log| > |s.log| ==>
              var e := log[|s.log|];
              e.src.AsOf? || Value(w, s.db, e.src) == Some(e.json)
  {
    RunRight(w, c, START, steps);
    var s := After(w, c, START, steps);
    match step
    case Lookup(i, now) =>
      if i < |s.inFlight| && !s.inFlight[i].src.AsOf? && Answer(s.cache, KeyOf(s.inFlight[i].src), now, c.ttl).Some? {
        HitCurrent(w, c, s, i, now);
      }
    case Store(i, now) =>
      if i < |s.inFlight| && s.inFlight[i].phase.Fetched? && !s.inFlight[i].src.AsOf? {
        StoredCurrent(w, s, i, now);
      }
    case _ =>
  }
}
