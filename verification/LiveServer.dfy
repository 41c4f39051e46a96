/** The server handling one request at a time (mentatd/src/server.rs). */
module LiveServer {
  import opened Prelude
  import opened Json
  import opened PlainCache
  import opened CacheKeys
  import opened QueryCaching
  import opened Snapshots
  import opened Serving

  // ---- One request ----

  /** The response; `None` is an error. */
  function Response(w: World, c: Config, db: Db, cache: Plain, src: Source, now: nat, reachable: bool): Option<Json> {
    var text := Answer(cache, KeyOf(src), now, c.ttl);
    if text.Some? then w.read(text.value) else if reachable then Value(w, db, src) else None
  }

  function AfterRequest(w: World, c: Config, db: Db, cache: Plain, src: Source, now: nat, reachable: bool): Plain {
    var left := AfterGet(cache, KeyOf(src), now, c.ttl);
    var v := Value(w, db, src);
    if Answer(cache, KeyOf(src), now, c.ttl).Some? || !reachable || v.None? || c.capacity == 0 then left
    else AfterInsert(left, c.capacity, KeyOf(src), CacheEntry(w.show(v.value), now), DepsOf(src, v.value))
  }

  /** A committed transaction whose report cannot be read returns an error before it invalidates anything. */
  ghost function AfterTransact(cache: Plain, tx: Tx): Plain {
    if tx.report.None? then cache else Spared(cache, tx.report.value)
  }

  class Server {
    const cache: QueryCache
    const dbs: DbValueCache

    constructor (capacity: nat, ttl: nat, snapshotTtl: nat)
      ensures fresh(cache) && fresh(dbs) && cache.Valid() && cache.View() == EMPTY && dbs.snapshots == map[]
      ensures Setup() == Config(capacity, ttl, snapshotTtl)
    {
      cache := new QueryCache(capacity, ttl);
      dbs := new DbValueCache(snapshotTtl);
    }

    function Setup(): Config {
      Config(if cache.enabled then cache.capacity else 0, cache.ttl, dbs.ttl)
    }

    /** `Operation::DbSnapshot` */
    method TakeSnapshot(db: Db, id: string, now: nat) returns (dbId: string, basisT: I64)
      modifies dbs
      ensures dbId == id && basisT == Basis(db)
      ensures dbs.snapshots == old(dbs.snapshots)[id := Snapshot(Basis(db), now)]
    {
      basisT := Basis(db);
      dbId := dbs.CreateSnapshot(id, basisT, now);
    }

    /** `Operation::Query`: an unknown or expired db-id is an error and leaves the cache alone. */
    method Query(w: World, db: Db, query: string, args: seq<string>, dbId: Option<string>, now: nat, later: nat,
                 reachable: bool)
      returns (r: Option<Json>)
      requires cache.Valid()
      modifies cache, dbs
      ensures cache.Valid()
      ensures dbs.snapshots == if dbId.None? then old(dbs.snapshots)
                               else AfterLookup(old(dbs.snapshots), dbId.value, now, later, dbs.ttl)
      ensures var src := SourceOf(old(dbs.snapshots), query, args, dbId, now, later, dbs.ttl);
              if src.None? then r == None && cache.View() == old(cache.View())
              else && r == Response(w, Setup(), db, old(cache.View()), src.value, now, reachable)
                   && cache.View() == AfterRequest(w, Setup(), db, old(cache.View()), src.value, now, reachable)
    {
      var basisT: Option<I64> := None;
      if dbId.Some? {
        basisT := dbs.GetBasisT(dbId.value, now, later);
        if basisT.None? {
          return None;
        }
      }
      var src := if basisT.Some? then AsOf(query, args, basisT.value) else Live(query, args);
      r := Serve(w, db, src, now, reachable);
    }

    /** `Operation::Pull` */
    method PullEntity(w: World, db: Db, pattern: string, entity: I64, now: nat, reachable: bool)
      returns (r: Option<Json>)
      requires cache.Valid()
      modifies cache
      ensures cache.Valid()
      ensures r == Response(w, Setup(), db, old(cache.View()), Pull(pattern, entity), now, reachable)
      ensures cache.View() == AfterRequest(w, Setup(), db, old(cache.View()), Pull(pattern, entity), now, reachable)
    {
      r := Serve(w, db, Pull(pattern, entity), now, reachable);
    }

    method Serve(w: World, db: Db, src: Source, now: nat, reachable: bool) returns (r: Option<Json>)
      requires cache.Valid()
      modifies cache
      ensures cache.Valid()
      ensures r == Response(w, Setup(), db, old(cache.View()), src, now, reachable)
      ensures cache.View() == AfterRequest(w, Setup(), db, old(cache.View()), src, now, reachable)
    {
      var key := KeyOf(src);
      var text := cache.Get(key.query, key.args, now);
      if text.Some? {
        return w.read(text.value);
      }
      r := None;
      if reachable {
        r := Value(w, db, src);
        if r.Some? {
          var deps: set<I64>;
          if src.Pull? {
            deps := {src.entity} + AllIntegers(r.value);
          } else {
            deps := ExtractResultEntities(r.value);
          }
          cache.InsertWithDeps(key.query, key.args, w.show(r.value), deps, now);
        }
      }
    }

    /** `Operation::Transact`, once the database has committed `tx`. */
    method Transact(tx: Tx) returns (ok: bool)
      requires cache.Valid()
      modifies cache
      ensures cache.Valid() && cache.View() == AfterTransact(old(cache.View()), tx)
      ensures ok == tx.report.Some?
    {
      if tx.report.None? {
        return false;
      }
      var ids := ExtractChangedEntities(tx.report);
      SparedByList(cache.View(), tx.report.value, ids);
      if ids == [] {
        cache.Invalidate();
      } else {
        var removed := cache.InvalidateEntities(ids);
      }
      return true;
    }
  }

  /** What a query reads from, if its db-id still answers. */
  function SourceOf(table: Table, query: string, args: seq<string>, dbId: Option<string>, now: nat, later: nat,
                    ttl: nat):
    Option<Source>
  {
    if dbId.None? then Some(Live(query, args))
    else
      var found := Found(table, dbId.value, now, later, ttl);
      if found.None? then None else Some(AsOf(query, args, found.value.basisT))
  }
}
