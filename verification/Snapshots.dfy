/** Database snapshots named by an id (mentatd/src/db_cache.rs). */
module Snapshots {
  import opened Prelude

  datatype Snapshot = Snapshot(basisT: I64, createdAt: nat)

  type Table = map<string, Snapshot>

  predicate Alive(s: Snapshot, now: nat, ttl: nat) {
    Elapsed(now, s.createdAt) < ttl
  }

  /** Less than the TTL has passed since it was created; the age of what was created later is zero. */
  predicate Younger(s: Snapshot, now: nat, ttl: nat) {
    now < s.createdAt + ttl && ttl > 0
  }

  /** A snapshot answers if it is alive at the first or, under the write lock, at the second look. */
  predicate Answers(table: Table, id: string, now: nat, later: nat, ttl: nat) {
    id in table && (Alive(table[id], now, ttl) || Alive(table[id], later, ttl))
  }

  function Found(table: Table, id: string, now: nat, later: nat, ttl: nat): Option<Snapshot> {
    if Answers(table, id, now, later, ttl) then Some(table[id]) else None
  }

  function AfterLookup(table: Table, id: string, now: nat, later: nat, ttl: nat): Table {
    if Answers(table, id, now, later, ttl) then table else table - {id}
  }

  class DbValueCache {
    const ttl: nat
    var snapshots: Table

    constructor (ttl: nat)
      ensures snapshots == map[] && this.ttl == ttl
    {
      this.ttl, snapshots := ttl, map[];
    }

    /** `id` is the new UUID. */
    method CreateSnapshot(id: string, basisT: I64, now: nat) returns (dbId: string)
      modifies this`snapshots
      ensures dbId == id && snapshots == old(snapshots)[id := Snapshot(basisT, now)]
    {
      snapshots := snapshots[id := Snapshot(basisT, now)];
      return id;
    }

    method GetSnapshot(id: string, now: nat, later: nat) returns (r: Option<Snapshot>)
      modifies this`snapshots
      ensures r == Found(old(snapshots), id, now, later, ttl)
      ensures now <= later ==> (r.Some? <==> id in old(snapshots) && Younger(old(snapshots)[id], now, ttl))
      ensures r.Some? ==> r.value == old(snapshots)[id]
      ensures snapshots == AfterLookup(old(snapshots), id, now, later, ttl)
    {
      if id !in snapshots {
        assert snapshots - {id} == snapshots;
        return None;
      }
      if Alive(snapshots[id], now, ttl) || Alive(snapshots[id], later, ttl) {
        return Some(snapshots[id]);
      }
      snapshots := snapshots - {id};
      return None;
    }

    method GetBasisT(id: string, now: nat, later: nat) returns (r: Option<I64>)
      modifies this`snapshots
      ensures r == var s := Found(old(snapshots), id, now, later, ttl); if s.Some? then Some(s.value.basisT) else None
      ensures snapshots == AfterLookup(old(snapshots), id, now, later, ttl)
    {
      if id !in snapshots {
        assert snapshots - {id} == snapshots;
        return None;
      }
      if Alive(snapshots[id], now, ttl) || Alive(snapshots[id], later, ttl) {
        return Some(snapshots[id].basisT);
      }
      snapshots := snapshots - {id};
      return None;
    }

    method CleanupExpired(now: nat)
      modifies this`snapshots
      ensures forall id :: id in snapshots <==> id in old(snapshots) && Younger(old(snapshots)[id], now, ttl)
      ensures forall id :: id in snapshots ==> snapshots[id] == old(snapshots)[id]
    {
      snapshots := map id | id in snapshots && Alive(snapshots[id], now, ttl) :: snapshots[id];
    }
  }
}
