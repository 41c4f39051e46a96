/** Live answers of a server that handles one request at a time (mentatd/src/server.rs). */
module Coherence {
  import opened Prelude
  import opened Json
  import opened PlainCache
  import opened CacheKeys
  import opened Serving
  import opened LiveServer

  // ---- What the recorded entities must suffice for ----

  /** An answer with these dependencies is dropped when a transaction with this report is committed. */
  ghost predicate Drops(report: Json, deps: set<I64>) {
    deps == {} || SENTINEL in deps || Hit(deps, report) || !exists e: I64 :: Changes(Some(report), e)
  }

  /** The transaction does not drop the live answer. */
  ghost predicate Slips(w: World, src: Source, db: Db, tx: Tx) {
    && !src.AsOf? && tx.report.Some? && Value(w, db, src).Some?
    && !Drops(tx.report.value, DepsOf(src, Value(w, db, src).value))
  }

  ghost predicate Readable(db: Db) {
    forall i :: 0 <= i < |db| ==> db[i].report.Some?
  }

  /** No transaction changes a live answer that it does not drop. */
  ghost predicate Suffices(w: World) {
    forall src: Source, db: Db, tx: Tx ::
      Readable(db) && Slips(w, src, db, tx) ==> Value(w, db + [tx], src) == Value(w, db, src)
  }

  // ---- Coherence ----

  /** Every cached live answer is the one the database gives now, with its entities recorded. */
  ghost predicate Coherent(w: World, db: Db, cache: Plain) {
    forall src: Source :: !src.AsOf? && KeyOf(src) in cache.entries ==> Current(w, db, cache, src)
  }

  ghost predicate Current(w: World, db: Db, cache: Plain, src: Source)
    requires KeyOf(src) in cache.entries
  {
    var k, v := KeyOf(src), Value(w, db, src);
    && v.Some? && cache.entries[k].result == w.show(v.value)
    && k in cache.deps && cache.deps[k] == DepsOf(src, v.value)
  }

  lemma FewerCoherent(w: World, db: Db, cache: Plain, less: Plain)
    requires Coherent(w, db, cache)
    requires forall k :: k in less.entries ==>
               k in cache.entries && less.entries[k] == cache.entries[k]
               && (k in cache.deps ==> k in less.deps && less.deps[k] == cache.deps[k])
    ensures Coherent(w, db, less)
  {
    forall src: Source | !src.AsOf? && KeyOf(src) in less.entries ensures Current(w, db, less, src) {
      assert Current(w, db, cache, src);
    }
  }

  lemma RequestCoherent(w: World, c: Config, db: Db, cache: Plain, src: Source, now: nat, reachable: bool)
    requires Coherent(w, db, cache)
    ensures Coherent(w, db, AfterRequest(w, c, db, cache, src, now, reachable))
  {
    var left := AfterGet(cache, KeyOf(src), now, c.ttl);
    FewerCoherent(w, db, cache, left);
    if reachable && Value(w, db, src).Some? {
      InsertCoherent(w, c, db, left, src, now);
    }
  }

  lemma InsertCoherent(w: World, c: Config, db: Db, cache: Plain, src: Source, now: nat)
    requires Coherent(w, db, cache) && Value(w, db, src).Some?
    ensures var v := Value(w, db, src).value;
            Coherent(w, db, AfterInsert(cache, c.capacity, KeyOf(src), CacheEntry(w.show(v), now), DepsOf(src, v)))
  {
    var v := Value(w, db, src).value;
    var more := AfterInsert(cache, c.capacity, KeyOf(src), CacheEntry(w.show(v), now), DepsOf(src, v));
    forall other: Source | !other.AsOf? && KeyOf(other) in more.entries ensures Current(w, db, more, other) {
      if KeyOf(other) == KeyOf(src) {
        KeysNeverCollide(other, src);
      } else {
        assert Current(w, db, cache, other);
      }
    }
  }

  /** What is left of the cache is what the report does not drop. */
  lemma SparedExactly(cache: Plain, report: Json, k: Key)
    requires k in cache.entries && k in cache.deps
    ensures k in Spared(cache, report).entries <==> !Drops(report, cache.deps[k])
    ensures k in Spared(cache, report).entries ==>
              Spared(cache, report).entries[k] == cache.entries[k] && k in Spared(cache, report).deps
              && Spared(cache, report).deps[k] == cache.deps[k]
  {
    assert k in Affected(cache, report)
      <==> cache.deps[k] == {} || SENTINEL in cache.deps[k] || Hit(cache.deps[k], report);
  }

  /** A transaction whose report can be read keeps the cache coherent, in the targeted and in the clearing branch. */
  lemma TransactCoherent(w: World, db: Db, cache: Plain, tx: Tx)
    requires Suffices(w) && Readable(db) && Coherent(w, db, cache) && tx.report.Some?
    ensures Coherent(w, db + [tx], AfterTransact(cache, tx))
  {
    var left := AfterTransact(cache, tx);
    forall src: Source | !src.AsOf? && KeyOf(src) in left.entries ensures Current(w, db + [tx], left, src) {
      assert Current(w, db, cache, src);
      SparedExactly(cache, tx.report.value, KeyOf(src));
      assert Slips(w, src, db, tx);
    }
  }

  /** With any other transaction a coherent cache can be left stale. */
  lemma UnreadableReportLeavesStale(tx: Tx, show: Json -> string, read: string -> Option<Json>)
    requires tx.report.None? && TextRoundTrips(CountingWorld(show, read))
    ensures var w := CountingWorld(show, read);
            var key := KeyOf(Live("q", []));
            var cache := Plain(map[key := CacheEntry(show(JInteger(0)), 0)], [key], map[key := {}]);
            Suffices(w) && Coherent(w, [], cache) && !Coherent(w, [tx], AfterTransact(cache, tx))
  {
    var w := CountingWorld(show, read);
    var src := Live("q", []);
    var cache := Plain(map[KeyOf(src) := CacheEntry(show(JInteger(0)), 0)], [KeyOf(src)], map[KeyOf(src) := {}]);
    forall other: Source | !other.AsOf? && KeyOf(other) in cache.entries ensures Current(w, [], cache, other) {
      KeysNeverCollide(other, src);
    }
    assert Value(w, [], src) == Some(JInteger(0)) && Value(w, [tx], src) == Some(JInteger(1));
    assert w.read(show(JInteger(0))) != w.read(show(JInteger(1)));
    assert !Current(w, [tx], cache, src);
  }

  /** A database whose every query counts the transactions. */
  function CountingWorld(show: Json -> string, read: string -> Option<Json>): World {
    World((q, args, db: Db) => Some(JInteger(|db|)), (p, e, db: Db) => None, show, read)
  }

  // ---- Runs ----

  datatype Op = Serve(src: Source, now: nat, reachable: bool) | Transaction(tx: Tx)

  datatype Seen = Seen(db: Db, cache: Plain)

  ghost function Apply(w: World, c: Config, s: Seen, op: Op): Seen {
    match op
    case Serve(src, now, reachable) => s.(cache := AfterRequest(w, c, s.db, s.cache, src, now, reachable))
    case Transaction(tx) => Seen(s.db + [tx], AfterTransact(s.cache, tx))
  }

  ghost function Run(w: World, c: Config, ops: seq<Op>): Seen {
    if ops == [] then Seen([], EMPTY) else Apply(w, c, Run(w, c, ops[..|ops| - 1]), ops[|ops| - 1])
  }

  ghost predicate AllReadable(ops: seq<Op>) {
    forall i :: 0 <= i < |ops| && ops[i].Transaction? ==> ops[i].tx.report.Some?
  }

  /** The response to a request after a run. */
  ghost function ResponseAfter(w: World, c: Config, ops: seq<Op>, src: Source, now: nat, reachable: bool): Option<Json>
  {
    Response(w, c, Run(w, c, ops).db, Run(w, c, ops).cache, src, now, reachable)
  }

  lemma {:induction false} RunCoherent(w: World, c: Config, ops: seq<Op>)
    requires Suffices(w) && AllReadable(ops)
    ensures Readable(Run(w, c, ops).db) && Coherent(w, Run(w, c, ops).db, Run(w, c, ops).cache)
  {
    if ops != [] {
      var before, op := ops[..|ops| - 1], ops[|ops| - 1];
      RunCoherent(w, c, before);
      var s := Run(w, c, before);
      match op {
        case Serve(src, now, reachable) => RequestCoherent(w, c, s.db, s.cache, src, now, reachable);
        case Transaction(tx) => TransactCoherent(w, s.db, s.cache, tx);
      }
    }
  }

  /** After every sequential run with readable reports, live answers are those of the current database. */
  ghost predicate AlwaysCurrent(w: World, c: Config) {
    forall ops: seq<Op>, src: Source, now: nat, reachable: bool :: AllReadable(ops) && !src.AsOf? ==>
      IsCurrent(w, c, ops, src, now, reachable)
  }

  ghost predicate IsCurrent(w: World, c: Config, ops: seq<Op>, src: Source, now: nat, reachable: bool) {
    var r := ResponseAfter(w, c, ops, src, now, reachable);
    r.Some? ==> r == Value(w, Run(w, c, ops).db, src)
  }

  lemma SufficientIsCurrent(w: World, c: Config, ops: seq<Op>, src: Source, now: nat, reachable: bool)
    requires TextRoundTrips(w) && Suffices(w) && AllReadable(ops) && !src.AsOf?
    ensures IsCurrent(w, c, ops, src, now, reachable)
  {
    RunCoherent(w, c, ops);
    var s := Run(w, c, ops);
    if KeyOf(src) in s.cache.entries {
      assert Current(w, s.db, s.cache, src);
    }
  }

  // ---- A run that shows the difference ----

  function Transactions(db: Db): seq<Op> {
    if db == [] then [] else Transactions(db[..|db| - 1]) + [Transaction(db[|db| - 1])]
  }

  lemma RunMore(w: World, c: Config, ops: seq<Op>, op: Op)
    ensures Run(w, c, ops + [op]) == Apply(w, c, Run(w, c, ops), op)
  {
    assert (ops + [op])[..|ops|] == ops;
  }

  lemma {:induction false} TransactionsRun(w: World, c: Config, db: Db)
    requires Readable(db)
    ensures Run(w, c, Transactions(db)) == Seen(db, EMPTY) && AllReadable(Transactions(db))
  {
    if db != [] {
      var before, tx := db[..|db| - 1], db[|db| - 1];
      TransactionsRun(w, c, before);
      RunMore(w, c, Transactions(before), Transaction(tx));
      assert before + [tx] == db;
      EmptyStays(tx);
    }
  }

  lemma EmptyStays(tx: Tx)
    ensures AfterTransact(EMPTY, tx) == EMPTY
  {
    if tx.report.Some? {
      assert Without(EMPTY, Affected(EMPTY, tx.report.value)) == EMPTY;
    }
  }

  /** Asked once, the answer is cached; the transaction lets it slip; asked again, the old answer comes back. */
  lemma SlippedAnswerIsServed(w: World, c: Config, src: Source, db: Db, tx: Tx)
    requires TextRoundTrips(w) && c.capacity > 0 && Readable(db) && Slips(w, src, db, tx)
    ensures var ops := Transactions(db) + [Serve(src, 0, true)] + [Transaction(tx)];
            && AllReadable(ops) && Run(w, c, ops).db == db + [tx]
            && ResponseAfter(w, c, ops, src, 0, false) == Value(w, db, src)
  {
    var first := Transactions(db);
    TransactionsRun(w, c, db);
    RunMore(w, c, first, Serve(src, 0, true));
    RunMore(w, c, first + [Serve(src, 0, true)], Transaction(tx));
    FirstAnswerCached(w, c, src, db);
    var cache := AfterRequest(w, c, db, EMPTY, src, 0, true);
    SparedExactly(cache, tx.report.value, KeyOf(src));
    CachedIsServed(w, c, db, db + [tx], AfterTransact(cache, tx), src);
  }

  lemma CachedIsServed(w: World, c: Config, db: Db, now: Db, cache: Plain, src: Source)
    requires TextRoundTrips(w) && Value(w, db, src).Some? && KeyOf(src) in cache.entries
    requires cache.entries[KeyOf(src)] == CacheEntry(w.show(Value(w, db, src).value), 0)
    ensures Response(w, c, now, cache, src, 0, false) == Value(w, db, src)
  {
  }

  lemma FirstAnswerCached(w: World, c: Config, src: Source, db: Db)
    requires c.capacity > 0 && Value(w, db, src).Some?
    ensures var v, key := Value(w, db, src).value, KeyOf(src);
            var cache := AfterRequest(w, c, db, EMPTY, src, 0, true);
            && key in cache.entries && cache.entries[key] == CacheEntry(w.show(v), 0)
            && key in cache.deps && cache.deps[key] == DepsOf(src, v)
  {
  }

  /** Live answers are always current exactly if no transaction changes a live answer that it does not drop. */
  lemma CurrentExactly(w: World, c: Config)
    requires TextRoundTrips(w) && c.capacity > 0
    ensures AlwaysCurrent(w, c) <==> Suffices(w)
  {
    if Suffices(w) {
      forall ops: seq<Op>, src: Source, now: nat, reachable: bool | AllReadable(ops) && !src.AsOf?
        ensures IsCurrent(w, c, ops, src, now, reachable)
      {
        SufficientIsCurrent(w, c, ops, src, now, reachable);
      }
    } else {
      var src: Source, db: Db, tx: Tx :|
        Readable(db) && Slips(w, src, db, tx) && Value(w, db + [tx], src) != Value(w, db, src);
      var ops := StaleRun(w, c, src, db, tx);
    }
  }

  lemma StaleRun(w: World, c: Config, src: Source, db: Db, tx: Tx) returns (ops: seq<Op>)
    requires TextRoundTrips(w) && c.capacity > 0 && Readable(db) && Slips(w, src, db, tx)
    requires Value(w, db + [tx], src) != Value(w, db, src)
    ensures AllReadable(ops) && !IsCurrent(w, c, ops, src, 0, false)
  {
    SlippedAnswerIsServed(w, c, src, db, tx);
    ops := Transactions(db) + [Serve(src, 0, true)] + [Transaction(tx)];
  }

  // ---- The integers of a result do not suffice ----

  /** The result of a query for all entities, when there are `n`. */
  function EntityRows(n: nat): seq<Json> {
    if n == 0 then [] else EntityRows(n - 1) + [JArray([JInteger(n)])]
  }

  function Entities(n: nat): Json {
    JObject([Field("results", JArray(EntityRows(n)))])
  }

  /** The report of a transaction that creates one entity. */
  function Creates(e: I64): Tx {
    Tx(e, Some(JObject([Field("tx-data", JArray([JArray([JInteger(e)])]))])))
  }

  lemma CreatesChanges(e: I64, x: I64)
    ensures Changes(Creates(e).report, x) <==> x == e
  {
    var datoms := [JArray([JInteger(e)])];
    assert Items(Creates(e).report.value, "tx-data") == Some(datoms);
    assert Heads(datoms[0], x) <==> x == e;
  }

  lemma OneEntity()
    ensures ResultEntities(Entities(1)) == {1}
  {
    var rows := EntityRows(1);
    assert rows == [JArray([JInteger(1)])];
    assert Items(Entities(1), "results") == Some(rows);
    forall e: I64 ensures e in RowsEntities(rows) <==> e == 1 {
      assert rows[0] in rows;
      assert JInteger(e) in rows[0].items <==> e == 1;
    }
  }

  /** A new entity changes the answer to the query for all entities and touches none of the recorded ones. */
  lemma NewEntityIsMissed(w: World)
    requires w.query("q", [], [Creates(1)]) == Some(Entities(1))
    requires w.query("q", [], [Creates(1)] + [Creates(2)]) == Some(Entities(2))
    ensures Slips(w, Live("q", []), [Creates(1)], Creates(2)) && !Suffices(w)
  {
    NotDropped();
    MoreRows();
    NotSufficient(w, Live("q", []), [Creates(1)], Creates(2));
  }

  lemma NotSufficient(w: World, src: Source, db: Db, tx: Tx)
    requires Readable(db) && Slips(w, src, db, tx) && Value(w, db + [tx], src) != Value(w, db, src)
    ensures !Suffices(w)
  {
  }

  lemma NotDropped()
    ensures !Drops(Creates(2).report.value, ResultEntities(Entities(1)))
  {
    OneEntity();
    CreatesChanges(2, 2);
    CreatesChanges(2, 1);
  }

  lemma MoreRows()
    ensures Entities(1) != Entities(2)
  {
    assert |EntityRows(1)| == 1 && |EntityRows(2)| == 2;
  }
}
