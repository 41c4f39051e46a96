/**
 * Requests of any number of clients in flight at once (mentatd/src/server.rs): every cache, snapshot and
 * database access is one step, and the steps of different requests interleave freely.
 */
module Serving {
  import opened Prelude
  import opened Json
  import opened PlainCache
  import opened CacheKeys
  import opened Snapshots

  /** A committed transaction and its report; `None` is a report that is not JSON. */
  datatype Tx = Tx(id: I64, report: Option<Json>)

  type Db = seq<Tx>

  /** The database's answers over the transactions a request may see, and JSON text. */
  datatype World = World(
    query: (string, seq<string>, Db) -> Option<Json>,
    pull: (string, I64, Db) -> Option<Json>,
    show: Json -> string,
    read: string -> Option<Json>
  )

  datatype Config = Config(capacity: nat, ttl: nat, snapshotTtl: nat)

  /** `COALESCE(MAX(tx), 0)` */
  function Basis(db: Db): I64 {
    if db == [] then 0
    else if |db| == 1 then db[0].id
    else
      var before, last := Basis(db[..|db| - 1]), db[|db| - 1].id;
      if before < last then last else before
  }

  /** The transactions an `asOf` query sees. */
  function Visible(db: Db, t: I64): Db {
    if db == [] then []
    else
      var before, last := Visible(db[..|db| - 1], t), db[|db| - 1];
      if last.id <= t then before + [last] else before
  }

  /** What the database answers now. */
  function Value(w: World, db: Db, src: Source): Option<Json> {
    match src
    case Live(q, args) => w.query(q, args, db)
    case AsOf(q, args, t) => w.query(q, args, Visible(db, t))
    case Pull(p, e) => w.pull(p, e, db)
  }

  /** The text of every answer of the database is read back as that answer. */
  ghost predicate TextRoundTrips(w: World) {
    forall db, src :: Value(w, db, src).Some? ==> w.read(w.show(Value(w, db, src).value)) == Value(w, db, src)
  }

  function DepsOf(src: Source, j: Json): set<I64> {
    if src.Pull? then {src.entity} + AllIntegers(j) else ResultEntities(j)
  }

  /** A pull records its entity and exactly the integers that occur in the result, a query those in its columns. */
  lemma DependenciesExactly(src: Source, j: Json, e: I64)
    ensures e in DepsOf(src, j) <==>
              if src.Pull? then e == src.entity || Within(JInteger(e), j)
              else Items(j, "results").Some?
                   && exists row :: row in Items(j, "results").value && row.JArray? && JInteger(e) in row.items
  {
    AllIntegersExactly(j, e);
  }

  // ---- States and steps ----

  /** A fetched answer remembers how many transactions the database held. */
  datatype Phase = Asked | Missed | Fetched(json: Json, at: nat)

  datatype Request = Request(src: Source, dbId: Option<string>, phase: Phase)

  datatype Served = Served(src: Source, dbId: Option<string>, json: Json)

  /**
   * `bases` are the basis values read and not yet recorded, `issued` remembers every snapshot ever recorded, and
   * `dirty` are the committed reports not yet used to invalidate.
   */
  datatype State = State(
    db: Db,
    cache: Plain,
    snapshots: Table,
    bases: seq<I64>,
    issued: map<string, I64>,
    inFlight: seq<Request>,
    dirty: seq<Json>,
    log: seq<Served>
  )

  const START := State([], EMPTY, map[], [], map[], [], [], [])

  datatype Step =
    | ReadBasis
    | RecordSnapshot(i: nat, id: string, now: nat)
    | Ask(query: string, args: seq<string>, dbId: Option<string>, now: nat, later: nat)
    | AskPull(pattern: string, entity: I64)
    | Lookup(i: nat, now: nat)
    | Fetch(i: nat, reachable: bool)
    | Store(i: nat, now: nat)
    | Commit(tx: Tx)
    | Invalidate(i: nat)
    | Cleanup(now: nat)

  /** New snapshot ids are fresh and transaction ids grow. */
  ghost predicate Allowed(s: State, step: Step) {
    match step
    case RecordSnapshot(_, id, _) => id !in s.issued
    case Commit(tx) => Basis(s.db) < tx.id
    case _ => true
  }

  ghost function Apply(w: World, c: Config, s: State, step: Step): State {
    match step
    case ReadBasis => s.(bases := s.bases + [Basis(s.db)])
    case RecordSnapshot(i, id, now) => if i < |s.bases| then Recorded(s, i, id, now) else s
    case Ask(q, args, dbId, now, later) => Resolved(c, s, q, args, dbId, now, later)
    case AskPull(p, e) => s.(inFlight := s.inFlight + [Request(Pull(p, e), None, Asked)])
    case Lookup(i, now) => if i < |s.inFlight| && s.inFlight[i].phase.Asked? then LookedUp(w, c, s, i, now) else s
    case Fetch(i, reachable) =>
      if i < |s.inFlight| && s.inFlight[i].phase.Missed? then FetchedOne(w, s, i, reachable) else s
    case Store(i, now) => if i < |s.inFlight| && s.inFlight[i].phase.Fetched? then Stored(w, c, s, i, now) else s
    case Commit(tx) => s.(db := s.db + [tx], dirty := if tx.report.Some? then s.dirty + [tx.report.value] else s.dirty)
    case Invalidate(i) =>
      if i < |s.dirty|
      then s.(cache := Spared(s.cache, s.dirty[i]), dirty := s.dirty[..i] + s.dirty[i + 1..])
      else s
    case Cleanup(now) =>
      s.(snapshots := map id | id in s.snapshots && Alive(s.snapshots[id], now, c.snapshotTtl) :: s.snapshots[id])
  }

  function Recorded(s: State, i: nat, id: string, now: nat): State
    requires i < |s.bases|
  {
    s.(snapshots := s.snapshots[id := Snapshot(s.bases[i], now)], issued := s.issued[id := s.bases[i]],
       bases := s.bases[..i] + s.bases[i + 1..])
  }

  /** The entries a transaction with this report does not touch; nothing if it names no entity. */
  ghost function Spared(cache: Plain, report: Json): Plain {
    if exists e: I64 :: Changes(Some(report), e) then Without(cache, Affected(cache, report)) else EMPTY
  }

  ghost function Affected(cache: Plain, report: Json): set<Key> {
    set k | k in cache.deps && (cache.deps[k] == {} || SENTINEL in cache.deps[k] || Hit(cache.deps[k], report))
  }

  ghost predicate Hit(deps: set<I64>, report: Json) {
    exists e: I64 :: e in deps && Changes(Some(report), e)
  }

  /** Any list of the changed entities invalidates the same entries. */
  lemma SparedByList(cache: Plain, report: Json, ids: seq<I64>)
    requires forall e: I64 :: e in ids <==> Changes(Some(report), e)
    ensures Spared(cache, report) == if ids == [] then EMPTY else AfterInvalidate(cache, ids)
  {
    if ids != [] {
      assert ids[0] in ids;
      forall k | k in cache.deps ensures Hit(cache.deps[k], report) <==> Meets(cache.deps[k], ids) {
        if Hit(cache.deps[k], report) {
          var e: I64 :| e in cache.deps[k] && Changes(Some(report), e);
          var i :| 0 <= i < |ids| && ids[i] == e;
        }
        if Meets(cache.deps[k], ids) {
          var i :| 0 <= i < |ids| && ids[i] in cache.deps[k];
          assert ids[i] in ids;
        }
      }
      assert Affected(cache, report) == Selected(cache, ids);
    }
  }

  function Resolved(c: Config, s: State, q: string, args: seq<string>, dbId: Option<string>, now: nat,
                    later: nat): State {
    if dbId.None? then s.(inFlight := s.inFlight + [Request(Live(q, args), None, Asked)])
    else
      var found := Found(s.snapshots, dbId.value, now, later, c.snapshotTtl);
      var left := s.(snapshots := AfterLookup(s.snapshots, dbId.value, now, later, c.snapshotTtl));
      if found.None? then left
      else left.(inFlight := s.inFlight + [Request(AsOf(q, args, found.value.basisT), dbId, Asked)])
  }

  function Dropped(rs: seq<Request>, i: nat): seq<Request>
    requires i < |rs|
  {
    rs[..i] + rs[i + 1..]
  }

  function LookedUp(w: World, c: Config, s: State, i: nat, now: nat): State
    requires i < |s.inFlight|
  {
    var r := s.inFlight[i];
    var text := Answer(s.cache, KeyOf(r.src), now, c.ttl);
    var left := s.(cache := AfterGet(s.cache, KeyOf(r.src), now, c.ttl));
    if text.None? then left.(inFlight := s.inFlight[i := r.(phase := Missed)])
    else if w.read(text.value).None? then left.(inFlight := Dropped(s.inFlight, i))
    else left.(inFlight := Dropped(s.inFlight, i), log := s.log + [Served(r.src, r.dbId, w.read(text.value).value)])
  }

  function FetchedOne(w: World, s: State, i: nat, reachable: bool): State
    requires i < |s.inFlight|
  {
    var r := s.inFlight[i];
    var v := Value(w, s.db, r.src);
    if reachable && v.Some? then s.(inFlight := s.inFlight[i := r.(phase := Fetched(v.value, |s.db|))])
    else s.(inFlight := Dropped(s.inFlight, i))
  }

  function Stored(w: World, c: Config, s: State, i: nat, now: nat): State
    requires i < |s.inFlight| && s.inFlight[i].phase.Fetched?
  {
    var r := s.inFlight[i];
    var j := r.phase.json;
    var cache := if c.capacity == 0 then s.cache
                 else AfterInsert(s.cache, c.capacity, KeyOf(r.src), CacheEntry(w.show(j), now), DepsOf(r.src, j));
    s.(cache := cache, inFlight := Dropped(s.inFlight, i), log := s.log + [Served(r.src, r.dbId, j)])
  }

  ghost predicate Legal(w: World, c: Config, s: State, steps: seq<Step>)
    decreases |steps|
  {
    steps != [] ==> Allowed(s, steps[0]) && Legal(w, c, Apply(w, c, s, steps[0]), steps[1..])
  }

  ghost function After(w: World, c: Config, s: State, steps: seq<Step>): State
    decreases |steps|
  {
    if steps == [] then s else After(w, c, Apply(w, c, s, steps[0]), steps[1..])
  }

  // ---- Invariant ----

  /** What was cached for a snapshot is what the database still answers for it. */
  ghost predicate CacheFaithful(w: World, db: Db, cache: Plain) {
    forall q, args, t :: KeyOf(AsOf(q, args, t)) in cache.entries ==>
      Settled(w, db, AsOf(q, args, t)) && Shows(w, db, AsOf(q, args, t), cache.entries[KeyOf(AsOf(q, args, t))].result)
  }

  ghost predicate Settled(w: World, db: Db, src: Source)
    requires src.AsOf?
  {
    src.t <= Basis(db) && Value(w, db, src).Some?
  }

  ghost predicate Shows(w: World, db: Db, src: Source, text: string) {
    Value(w, db, src).Some? && text == w.show(Value(w, db, src).value)
  }

  ghost predicate RequestFaithful(w: World, s: State, r: Request) {
    && (r.dbId.Some? <==> r.src.AsOf?)
    && (r.src.AsOf? ==> r.dbId.value in s.issued && s.issued[r.dbId.value] == r.src.t && r.src.t <= Basis(s.db))
    && (r.src.AsOf? && r.phase.Fetched? ==> Value(w, s.db, r.src) == Some(r.phase.json))
  }

  ghost predicate ServedFaithful(w: World, s: State, e: Served) {
    && (e.dbId.Some? <==> e.src.AsOf?)
    && (e.src.AsOf? ==> e.dbId.value in s.issued && s.issued[e.dbId.value] == e.src.t && e.src.t <= Basis(s.db)
                        && Value(w, s.db, e.src) == Some(e.json))
  }

  ghost predicate SnapshotsFaithful(s: State) {
    && (forall id :: id in s.snapshots ==> id in s.issued && s.snapshots[id].basisT == s.issued[id])
    && (forall id :: id in s.issued ==> s.issued[id] <= Basis(s.db))
    && (forall i :: 0 <= i < |s.bases| ==> s.bases[i] <= Basis(s.db))
  }

  ghost predicate Faithful(w: World, s: State) {
    && SnapshotsFaithful(s)
    && CacheFaithful(w, s.db, s.cache)
    && (forall i :: 0 <= i < |s.inFlight| ==> RequestFaithful(w, s, s.inFlight[i]))
    && (forall i :: 0 <= i < |s.log| ==> ServedFaithful(w, s, s.log[i]))
  }

  // ---- A settled answer never changes ----

  lemma BasisGrows(db: Db, tx: Tx)
    requires Basis(db) < tx.id
    ensures Basis(db + [tx]) == tx.id
  {
    assert (db + [tx])[..|db|] == db;
  }

  lemma VisibleSettled(db: Db, tx: Tx, t: I64)
    requires t <= Basis(db) < tx.id
    ensures Visible(db + [tx], t) == Visible(db, t)
  {
    assert (db + [tx])[..|db|] == db;
  }

  lemma ValueSettled(w: World, db: Db, tx: Tx, src: Source)
    requires src.AsOf? && src.t <= Basis(db) < tx.id
    ensures Value(w, db + [tx], src) == Value(w, db, src)
  {
    VisibleSettled(db, tx, src.t);
  }

  /** At the moment a basis is read it sees every transaction. */
  lemma {:induction false} SnapshotSeesEverything(db: Db, t: I64)
    requires Basis(db) <= t
    ensures Visible(db, t) == db
  {
    if db != [] {
      var before := db[..|db| - 1];
      if before != [] {
        SnapshotSeesEverything(before, t);
      }
      assert db == before + [db[|db| - 1]];
    }
  }

  // ---- Each step keeps the invariant ----

  lemma FewerEntries(w: World, db: Db, cache: Plain, less: Plain)
    requires CacheFaithful(w, db, cache)
    requires forall k :: k in less.entries ==> k in cache.entries && less.entries[k] == cache.entries[k]
    ensures CacheFaithful(w, db, less)
  {
  }

  lemma OneMoreEntry(w: World, db: Db, cache: Plain, capacity: nat, src: Source, entry: CacheEntry, deps: set<I64>)
    requires CacheFaithful(w, db, cache)
    requires src.AsOf? ==> Settled(w, db, src) && Shows(w, db, src, entry.result)
    ensures CacheFaithful(w, db, AfterInsert(cache, capacity, KeyOf(src), entry, deps))
  {
    var more := AfterInsert(cache, capacity, KeyOf(src), entry, deps);
    forall q, args, t | KeyOf(AsOf(q, args, t)) in more.entries
      ensures Settled(w, db, AsOf(q, args, t))
      ensures Shows(w, db, AsOf(q, args, t), more.entries[KeyOf(AsOf(q, args, t))].result)
    {
      if KeyOf(AsOf(q, args, t)) == KeyOf(src) {
        KeysNeverCollide(AsOf(q, args, t), src);
      }
    }
  }

  lemma CommitFaithful(w: World, c: Config, s: State, tx: Tx)
    requires Faithful(w, s) && Basis(s.db) < tx.id
    ensures Faithful(w, Apply(w, c, s, Commit(tx)))
  {
    var s' := Apply(w, c, s, Commit(tx));
    BasisGrows(s.db, tx);
    forall q, args, t | KeyOf(AsOf(q, args, t)) in s.cache.entries
      ensures Settled(w, s'.db, AsOf(q, args, t))
      ensures Shows(w, s'.db, AsOf(q, args, t), s.cache.entries[KeyOf(AsOf(q, args, t))].result)
    {
      ValueSettled(w, s.db, tx, AsOf(q, args, t));
    }
    forall i | 0 <= i < |s.inFlight| ensures RequestFaithful(w, s', s.inFlight[i]) {
      if s.inFlight[i].src.AsOf? {
        ValueSettled(w, s.db, tx, s.inFlight[i].src);
      }
    }
    forall i | 0 <= i < |s.log| ensures ServedFaithful(w, s', s.log[i]) {
      if s.log[i].src.AsOf? {
        ValueSettled(w, s.db, tx, s.log[i].src);
      }
    }
  }

  lemma HitFaithful(w: World, c: Config, s: State, src: Source, now: nat)
    requires CacheFaithful(w, s.db, s.cache) && TextRoundTrips(w) && src.AsOf?
    requires Answer(s.cache, KeyOf(src), now, c.ttl).Some?
    ensures w.read(Answer(s.cache, KeyOf(src), now, c.ttl).value) == Value(w, s.db, src) && Value(w, s.db, src).Some?
  {
    assert src == AsOf(src.query, src.args, src.t);
    assert Shows(w, s.db, src, s.cache.entries[KeyOf(src)].result);
  }

  lemma LookupFaithful(w: World, c: Config, s: State, i: nat, now: nat)
    requires Faithful(w, s) && TextRoundTrips(w) && i < |s.inFlight| && s.inFlight[i].phase.Asked?
    ensures Faithful(w, LookedUp(w, c, s, i, now))
  {
    var r := s.inFlight[i];
    FewerEntries(w, s.db, s.cache, AfterGet(s.cache, KeyOf(r.src), now, c.ttl));
    if r.src.AsOf? && Answer(s.cache, KeyOf(r.src), now, c.ttl).Some? {
      HitFaithful(w, c, s, r.src, now);
    }
    LookupRequests(w, c, s, i, now, LookedUp(w, c, s, i, now));
  }

  lemma LookupRequests(w: World, c: Config, s: State, i: nat, now: nat, s': State)
    requires Faithful(w, s) && i < |s.inFlight| && s.inFlight[i].phase.Asked? && s' == LookedUp(w, c, s, i, now)
    ensures forall k :: 0 <= k < |s'.inFlight| ==> RequestFaithful(w, s', s'.inFlight[k])
  {
    var missed := Answer(s.cache, KeyOf(s.inFlight[i].src), now, c.ttl).None?;
    forall k | 0 <= k < |s'.inFlight| ensures RequestFaithful(w, s', s'.inFlight[k]) {
      assert RequestFaithful(w, s, s.inFlight[if missed || k < i then k else k + 1]);
    }
  }

  lemma StoreFaithful(w: World, c: Config, s: State, i: nat, now: nat)
    requires Faithful(w, s) && i < |s.inFlight| && s.inFlight[i].phase.Fetched?
    ensures Faithful(w, Stored(w, c, s, i, now))
  {
    var r := s.inFlight[i];
    var j := r.phase.json;
    OneMoreEntry(w, s.db, s.cache, c.capacity, r.src, CacheEntry(w.show(j), now), DepsOf(r.src, j));
    var s' := Stored(w, c, s, i, now);
    forall k | 0 <= k < |s'.inFlight| ensures RequestFaithful(w, s', s'.inFlight[k]) {
      assert RequestFaithful(w, s, s.inFlight[if k < i then k else k + 1]);
    }
  }

  lemma FetchFaithful(w: World, s: State, i: nat, reachable: bool)
    requires Faithful(w, s) && i < |s.inFlight|
    ensures Faithful(w, FetchedOne(w, s, i, reachable))
  {
    var s' := FetchedOne(w, s, i, reachable);
    forall k | 0 <= k < |s'.inFlight| ensures RequestFaithful(w, s', s'.inFlight[k]) {
      assert RequestFaithful(w, s, s.inFlight[if |s'.inFlight| == |s.inFlight| || k < i then k else k + 1]);
    }
  }

  lemma AskFaithful(w: World, c: Config, s: State, q: string, args: seq<string>, dbId: Option<string>, now: nat,
                    later: nat)
    requires Faithful(w, s)
    ensures Faithful(w, Resolved(c, s, q, args, dbId, now, later))
  {
    var s' := Resolved(c, s, q, args, dbId, now, later);
    forall k | 0 <= k < |s'.inFlight| ensures RequestFaithful(w, s', s'.inFlight[k]) {
      assert k < |s.inFlight| ==> RequestFaithful(w, s, s.inFlight[k]);
    }
  }

  lemma RecordFaithful(w: World, s: State, i: nat, id: string, now: nat)
    requires Faithful(w, s) && i < |s.bases| && id !in s.issued
    ensures Faithful(w, Recorded(s, i, id, now))
  {
    var s' := Recorded(s, i, id, now);
    forall k | 0 <= k < |s'.bases| ensures s'.bases[k] <= Basis(s'.db) {
      assert s'.bases[k] == s.bases[if k < i then k else k + 1];
    }
    forall k | 0 <= k < |s.inFlight| ensures RequestFaithful(w, s', s'.inFlight[k]) {
      assert RequestFaithful(w, s, s.inFlight[k]);
    }
    forall k | 0 <= k < |s.log| ensures ServedFaithful(w, s', s'.log[k]) {
      assert ServedFaithful(w, s, s.log[k]);
    }
  }

  lemma ReadFaithful(w: World, c: Config, s: State)
    requires Faithful(w, s)
    ensures Faithful(w, Apply(w, c, s, ReadBasis))
  {
    var s' := Apply(w, c, s, ReadBasis);
    forall k | 0 <= k < |s.inFlight| ensures RequestFaithful(w, s', s'.inFlight[k]) {
      assert RequestFaithful(w, s, s.inFlight[k]);
    }
    forall k | 0 <= k < |s.log| ensures ServedFaithful(w, s', s'.log[k]) {
      assert ServedFaithful(w, s, s.log[k]);
    }
  }

  lemma StepFaithful(w: World, c: Config, s: State, step: Step)
    requires Faithful(w, s) && TextRoundTrips(w) && Allowed(s, step)
    ensures Faithful(w, Apply(w, c, s, step))
  {
    match step
    case ReadBasis =>
      ReadFaithful(w, c, s);
    case RecordSnapshot(i, id, now) =>
      if i < |s.bases| {
        RecordFaithful(w, s, i, id, now);
      }
    case Ask(q, args, dbId, now, later) => AskFaithful(w, c, s, q, args, dbId, now, later);
    case AskPull(p, e) =>
    case Lookup(i, now) =>
      if i < |s.inFlight| && s.inFlight[i].phase.Asked? {
        LookupFaithful(w, c, s, i, now);
      }
    case Fetch(i, reachable) =>
      if i < |s.inFlight| && s.inFlight[i].phase.Missed? {
        FetchFaithful(w, s, i, reachable);
      }
    case Store(i, now) =>
      if i < |s.inFlight| && s.inFlight[i].phase.Fetched? {
        StoreFaithful(w, c, s, i, now);
      }
    case Commit(tx) => CommitFaithful(w, c, s, tx);
    case Invalidate(i) =>
      if i < |s.dirty| {
        FewerEntries(w, s.db, s.cache, Spared(s.cache, s.dirty[i]));
      }
    case Cleanup(now) =>
  }

  lemma {:induction false} RunFaithful(w: World, c: Config, s: State, steps: seq<Step>)
    requires Faithful(w, s) && TextRoundTrips(w) && Legal(w, c, s, steps)
    ensures Faithful(w, After(w, c, s, steps))
    decreases |steps|
  {
    if steps != [] {
      StepFaithful(w, c, s, steps[0]);
      RunFaithful(w, c, Apply(w, c, s, steps[0]), steps[1..]);
    }
  }

  ghost predicate SameQuery(a: Served, b: Served) {
    !a.src.Pull? && !b.src.Pull? && a.src.query == b.src.query && a.src.args == b.src.args && a.dbId == b.dbId
  }

  /**
   * Repeatable reads: over every run, successful queries with one query, arguments and db-id get one answer,
   * hit or miss, and it is the one over the transactions that had been committed when its basis was read.
   */
  lemma RepeatableReads(w: World, c: Config, steps: seq<Step>, i: nat, j: nat)
    requires TextRoundTrips(w) && Legal(w, c, START, steps)
    requires var log := After(w, c, START, steps).log;
             i < |log| && j < |log| && log[i].dbId.Some? && SameQuery(log[i], log[j])
    ensures var s := After(w, c, START, steps);
            && s.log[i].json == s.log[j].json && s.log[i].dbId.value in s.issued
            && var seen := Visible(s.db, s.issued[s.log[i].dbId.value]);
               w.query(s.log[i].src.query, s.log[i].src.args, seen) == Some(s.log[i].json)
  {
    RunFaithful(w, c, START, steps);
    var s := After(w, c, START, steps);
    assert ServedFaithful(w, s, s.log[i]) && ServedFaithful(w, s, s.log[j]);
    assert s.log[i].src == s.log[j].src;
  }
}
