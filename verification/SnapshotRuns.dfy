/** How long a snapshot answers (mentatd/src/db_cache.rs). */
module SnapshotRuns {
  import opened Prelude
  import opened Snapshots

  datatype Op =
    | Create(id: string, basisT: I64, now: nat)
    | Ask(id: string, now: nat, later: nat)
    | Cleanup(now: nat)

  function After(table: Table, ttl: nat, op: Op): Table {
    match op
    case Create(id, basisT, now) => table[id := Snapshot(basisT, now)]
    case Ask(id, now, later) => AfterLookup(table, id, now, later, ttl)
    case Cleanup(now) => map id | id in table && Alive(table[id], now, ttl) :: table[id]
  }

  function Run(ttl: nat, ops: seq<Op>): Table {
    if ops == [] then map[] else After(Run(ttl, ops[..|ops| - 1]), ttl, ops[|ops| - 1])
  }

  /** The latest look at the clock that an operation takes. */
  function Clock(op: Op): nat {
    if op.Ask? then op.later else op.now
  }

  /** The snapshot `id` was created by operation `i` and by none after it. */
  predicate CreatedBy(ops: seq<Op>, id: string, i: nat) {
    && i < |ops| && ops[i].Create? && ops[i].id == id
    && forall j :: i < j < |ops| ==> !(ops[j].Create? && ops[j].id == id)
  }

  /** While a snapshot is younger than the TTL no operation removes it. */
  lemma {:induction false} YoungIsKept(ttl: nat, ops: seq<Op>, id: string, i: nat, now: nat)
    requires CreatedBy(ops, id, i) && forall j :: i < j < |ops| ==> Clock(ops[j]) <= now
    requires Younger(Snapshot(ops[i].basisT, ops[i].now), now, ttl)
    ensures id in Run(ttl, ops) && Run(ttl, ops)[id] == Snapshot(ops[i].basisT, ops[i].now)
  {
    var n := |ops| - 1;
    if i < n {
      YoungIsKept(ttl, ops[..n], id, i, now);
      assert Clock(ops[n]) <= now;
    }
  }

  /** Whatever is in the table was created under its id. */
  lemma {:induction false} KeptIsCreated(ttl: nat, ops: seq<Op>, id: string, i: nat)
    requires CreatedBy(ops, id, i) && id in Run(ttl, ops)
    ensures Run(ttl, ops)[id] == Snapshot(ops[i].basisT, ops[i].now)
  {
    var n := |ops| - 1;
    if i < n {
      KeptIsCreated(ttl, ops[..n], id, i);
    }
  }

  /** After every run a snapshot answers exactly while it is younger than the TTL, and with the basis it was given. */
  lemma AnswersWhileYoung(ttl: nat, ops: seq<Op>, id: string, i: nat, now: nat, later: nat)
    requires CreatedBy(ops, id, i) && now <= later && forall j :: i < j < |ops| ==> Clock(ops[j]) <= now
    ensures var s := Snapshot(ops[i].basisT, ops[i].now);
            Found(Run(ttl, ops), id, now, later, ttl) == if Younger(s, now, ttl) then Some(s) else None
  {
    var s := Snapshot(ops[i].basisT, ops[i].now);
    if Younger(s, now, ttl) {
      YoungIsKept(ttl, ops, id, i, now);
    } else if id in Run(ttl, ops) {
      KeptIsCreated(ttl, ops, id, i);
    }
  }
}
