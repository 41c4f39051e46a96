/** Any number of backends, each with private copies of the schemas of many stores (pg_mentat/src/cache.rs). */
module Backends {
  import opened SchemaCaching

  /** The copies by store name and the thread-local bypass flag. */
  datatype Session = Session(copies: map<string, Cache>, bypass: bool)

  function CopyOf(s: Session, store: string): Cache {
    if store in s.copies then s.copies[store] else NEW_CACHE
  }

  // ---- The object ----

  class Backend {
    var bypass: bool
    var caches: map<string, SchemaCache>

    /** Different stores have different caches. */
    ghost predicate Valid()
      reads this
    {
      forall a, b :: a in caches && b in caches && a != b ==> caches[a] != caches[b]
    }

    ghost function View(): Session
      reads this, caches.Values
    {
      Session(map s | s in caches :: caches[s].View(), bypass)
    }

    constructor ()
      ensures Valid() && View() == Session(map[], false)
    {
      bypass, caches := false, map[];
    }

    /** `get_cache_for_store` */
    method GetOrCreate(store: string) returns (c: SchemaCache)
      requires Valid()
      modifies this`caches
      ensures Valid() && bypass == old(bypass) && store in caches && c == caches[store]
      ensures forall s :: s in old(caches) ==> s in caches && caches[s] == old(caches[s])
      ensures store in old(caches) ==> caches == old(caches)
      ensures store !in old(caches) ==> caches == old(caches)[store := c] && fresh(c) && c.View() == NEW_CACHE
    {
      if store in caches {
        return caches[store];
      }
      c := new SchemaCache();
      caches := caches[store := c];
    }

    method BeginTxCacheBypass(store: string, h: History)
      requires Valid()
      modifies this, caches.Values
      ensures Valid() && View().bypass
      ensures CopyOf(View(), store) == Begun(old(CopyOf(View(), store)), h)
      ensures forall s :: s != store ==> CopyOf(View(), s) == old(CopyOf(View(), s))
    {
      var c := GetOrCreate(store);
      c.Begin(h);
      bypass := true;
    }

    method EndTxCacheBypass()
      modifies this`bypass
      ensures View() == old(View()).(bypass := false)
    {
      bypass := false;
    }

    /** `invalidate_store_cache` */
    method InvalidateStore(store: string)
      requires Valid()
      modifies caches.Values
      ensures Valid() && View().bypass == old(View().bypass)
      ensures store in caches ==> CopyOf(View(), store) == Invalidated(old(CopyOf(View(), store)))
      ensures forall s :: s != store || s !in caches ==> CopyOf(View(), s) == old(CopyOf(View(), s))
    {
      if store in caches {
        caches[store].Invalidate();
      }
    }
  }

  // ---- The protocol ----

  /** The committed history of every store, and the backends. */
  datatype System = System(histories: map<string, History>, sessions: map<nat, Session>)

  const FIRST: History := [Tables([], [])]

  function HistoryOf(y: System, store: string): History {
    if store in y.histories then y.histories[store] else FIRST
  }

  function SessionOf(y: System, b: nat): Session {
    if b in y.sessions then y.sessions[b] else Session(map[], false)
  }

  function Copy(y: System, b: nat, store: string): Cache {
    CopyOf(SessionOf(y, b), store)
  }

  datatype Step =
    | Lookup(backend: nat, store: string)
    | Begin(backend: nat, store: string)
    | End(backend: nat)
    | Invalidate(backend: nat, store: string)
    | ChangeSchema(backend: nat, store: string, tables: Tables)

  function WithCopy(y: System, b: nat, store: string, c: Cache): System {
    var s := SessionOf(y, b);
    y.(sessions := y.sessions[b := s.(copies := s.copies[store := c])])
  }

  function WithBypass(y: System, b: nat, bypass: bool): System {
    y.(sessions := y.sessions[b := SessionOf(y, b).(bypass := bypass)])
  }

  /** A schema change commits its rows and the bumped generation together, and drops the writer's own copy. */
  function Apply(y: System, step: Step): System {
    match step
    case Lookup(b, store) =>
      WithCopy(y, b, store, Fresh(Copy(y, b, store), HistoryOf(y, store), SessionOf(y, b).bypass))
    case Begin(b, store) => WithBypass(WithCopy(y, b, store, Begun(Copy(y, b, store), HistoryOf(y, store))), b, true)
    case End(b) => WithBypass(y, b, false)
    case Invalidate(b, store) => WithCopy(y, b, store, Invalidated(Copy(y, b, store)))
    case ChangeSchema(b, store, t) =>
      var left := WithCopy(y, b, store, Invalidated(Copy(y, b, store)));
      left.(histories := left.histories[store := HistoryOf(y, store) + [t]])
  }

  /** Every copy in the system is faithful. */
  ghost predicate AllFaithful(y: System) {
    forall b, store :: SchemaCaching.Faithful(Copy(y, b, store), HistoryOf(y, store))
  }

  lemma StepFaithful(y: System, step: Step)
    requires AllFaithful(y)
    ensures AllFaithful(Apply(y, step))
  {
    var y' := Apply(y, step);
    forall b, store ensures SchemaCaching.Faithful(Copy(y', b, store), HistoryOf(y', store)) {
      assert SchemaCaching.Faithful(Copy(y, b, store), HistoryOf(y, store));
      var c, h := Copy(y, b, store), HistoryOf(y, store);
      match step {
        case Lookup(b', s) =>
          if b' == b && s == store {
            FreshFaithful(c, h, SessionOf(y, b).bypass);
          }
        case Begin(b', s) =>
          if b' == b && s == store {
            BegunFaithful(c, h);
          }
        case End(_) =>
        case Invalidate(_, _) =>
        case ChangeSchema(_, s, t) =>
          if s == store {
            LongerHistory(c, h, t);
          }
      }
    }
  }

  // ---- Runs ----

  ghost predicate IsRun(states: seq<System>, steps: seq<Step>) {
    |states| == |steps| + 1 && forall k :: 0 <= k < |steps| ==> states[k + 1] == Apply(states[k], steps[k])
  }

  /** Any committed schemas, and no backend has looked at them. */
  ghost predicate Initial(y: System) {
    y.sessions == map[]
  }

  lemma {:induction false} RunFaithful(states: seq<System>, steps: seq<Step>, k: nat)
    requires IsRun(states, steps) && AllFaithful(states[0]) && k < |states|
    ensures AllFaithful(states[k])
  {
    if k > 0 {
      RunFaithful(states, steps, k - 1);
      StepFaithful(states[k - 1], steps[k - 1]);
    }
  }

  /**
   * The generation protocol: in every reachable state each warm copy equals the schema of its generation, which
   * never exceeds the shared one, and a lookup outside a bypass answers from the current committed schema.
   */
  lemma LookupsAreCurrent(states: seq<System>, steps: seq<Step>, k: nat)
    requires IsRun(states, steps) && Initial(states[0]) && k < |steps|
    ensures AllFaithful(states[k])
    ensures steps[k].Lookup? && !SessionOf(states[k], steps[k].backend).bypass ==>
              var c := Copy(states[k + 1], steps[k].backend, steps[k].store);
              c.warmed && c.maps == Loaded(Current(HistoryOf(states[k], steps[k].store)))
  {
    RunFaithful(states, steps, k);
    if steps[k].Lookup? {
      var b, store := steps[k].backend, steps[k].store;
      assert SchemaCaching.Faithful(Copy(states[k], b, store), HistoryOf(states[k], store));
      FreshFaithful(Copy(states[k], b, store), HistoryOf(states[k], store), SessionOf(states[k], b).bypass);
    }
  }

  // ---- The bypass window ----

  /** The generation a lookup under the bypass would answer from. */
  function Floor(y: System, b: nat, store: string): int {
    if Copy(y, b, store).warmed then Copy(y, b, store).localGen else Generation(HistoryOf(y, store))
  }

  /** No step of any backend lets it go backwards. */
  lemma FloorRises(y: System, step: Step, b: nat, store: string)
    requires AllFaithful(y)
    ensures Floor(y, b, store) <= Floor(Apply(y, step), b, store)
  {
    var c, h := Copy(y, b, store), HistoryOf(y, store);
    assert SchemaCaching.Faithful(c, h);
    FreshFaithful(c, h, SessionOf(y, b).bypass);
    BegunFaithful(c, h);
  }

  lemma {:induction false} FloorNeverFalls(states: seq<System>, steps: seq<Step>, b: nat, store: string, i: nat, j: nat)
    requires IsRun(states, steps) && AllFaithful(states[0]) && i <= j < |states|
    ensures Floor(states[i], b, store) <= Floor(states[j], b, store)
  {
    if i < j {
      FloorNeverFalls(states, steps, b, store, i, j - 1);
      RunFaithful(states, steps, j - 1);
      FloorRises(states[j - 1], steps[j - 1], b, store);
    }
  }

  /** From step `from` on, backend `b` stays inside the window it opened for `store`. */
  ghost predicate Window(steps: seq<Step>, b: nat, store: string, from: nat, until: nat) {
    && from < until <= |steps| && steps[from] == Begin(b, store)
    && forall k :: from < k < until ==> steps[k] != End(b)
  }

  lemma {:induction false} StaysInBypass(states: seq<System>, steps: seq<Step>, b: nat, store: string, from: nat,
                                         until: nat)
    requires IsRun(states, steps) && Window(steps, b, store, from, until)
    ensures SessionOf(states[until], b).bypass
    decreases until
  {
    if from + 1 < until {
      StaysInBypass(states, steps, b, store, from, until - 1);
      assert steps[until - 1] != End(b);
    }
  }

  /** The generation the lookup at step `k` answered from. */
  function AnsweredFrom(states: seq<System>, steps: seq<Step>, k: nat): int
    requires |states| == |steps| + 1 && k < |steps| && steps[k].Lookup?
  {
    Copy(states[k + 1], steps[k].backend, steps[k].store).localGen
  }

  lemma LookupUnderBypass(states: seq<System>, steps: seq<Step>, b: nat, store: string, from: nat, k: nat)
    requires IsRun(states, steps) && AllFaithful(states[0])
    requires from < k < |steps| && Window(steps, b, store, from, k) && steps[k] == Lookup(b, store)
    ensures AnsweredFrom(states, steps, k) == Floor(states[k], b, store) == Floor(states[k + 1], b, store)
    ensures 1 <= AnsweredFrom(states, steps, k) <= Generation(HistoryOf(states[k], store))
    ensures Copy(states[k + 1], b, store).maps
         == Loaded(HistoryOf(states[k], store)[AnsweredFrom(states, steps, k) - 1])
  {
    RunFaithful(states, steps, k);
    StaysInBypass(states, steps, b, store, from, k);
    assert SchemaCaching.Faithful(Copy(states[k], b, store), HistoryOf(states[k], store));
    FreshFaithful(Copy(states[k], b, store), HistoryOf(states[k], store), true);
  }

  /** The window opens at the generation current at that moment. */
  lemma WindowOpens(states: seq<System>, steps: seq<Step>, b: nat, store: string, from: nat)
    requires IsRun(states, steps) && AllFaithful(states[0]) && from < |steps| && steps[from] == Begin(b, store)
    ensures Floor(states[from + 1], b, store) == Generation(HistoryOf(states[from], store))
    ensures Copy(states[from + 1], b, store).warmed
  {
    RunFaithful(states, steps, from);
    assert SchemaCaching.Faithful(Copy(states[from], b, store), HistoryOf(states[from], store));
    BegunFaithful(Copy(states[from], b, store), HistoryOf(states[from], store));
  }

  /**
   * Inside a window all lookups in its store answer from committed generations no older than the one current
   * when it was opened, and never going backwards.
   */
  lemma BypassWindow(states: seq<System>, steps: seq<Step>, b: nat, store: string, from: nat, i: nat, j: nat)
    requires IsRun(states, steps) && Initial(states[0])
    requires from < i <= j < |steps| && Window(steps, b, store, from, j)
    requires steps[i] == Lookup(b, store) && steps[j] == Lookup(b, store)
    ensures Generation(HistoryOf(states[from], store)) <= AnsweredFrom(states, steps, i)
    ensures AnsweredFrom(states, steps, i) <= AnsweredFrom(states, steps, j) <= Generation(HistoryOf(states[j], store))
    ensures Copy(states[j + 1], b, store).maps
         == Loaded(HistoryOf(states[j], store)[AnsweredFrom(states, steps, j) - 1])
  {
    WindowOpens(states, steps, b, store, from);
    FloorNeverFalls(states, steps, b, store, from + 1, i);
    FloorNeverFalls(states, steps, b, store, i, j);
    WindowPrefix(steps, b, store, from, i, j);
    LookupUnderBypass(states, steps, b, store, from, i);
    LookupUnderBypass(states, steps, b, store, from, j);
    RunFaithful(states, steps, j);
    assert SchemaCaching.Faithful(Copy(states[j], b, store), HistoryOf(states[j], store));
  }

  lemma WindowPrefix(steps: seq<Step>, b: nat, store: string, from: nat, i: nat, j: nat)
    requires Window(steps, b, store, from, j) && from < i <= j
    ensures Window(steps, b, store, from, i)
  {
  }

  /** The steps of backend `b` that drop its copy of `store` or open the window anew. */
  predicate Drops(step: Step, b: nat, store: string) {
    match step
    case Invalidate(b', s) => b' == b && s == store
    case ChangeSchema(b', s, _) => b' == b && s == store
    case Begin(b', s) => b' == b && s == store
    case _ => false
  }

  lemma {:induction false} OneGeneration(states: seq<System>, steps: seq<Step>, b: nat, store: string, from: nat,
                                         until: nat)
    requires IsRun(states, steps) && AllFaithful(states[0]) && Window(steps, b, store, from, until)
    requires forall k :: from < k < until ==> !Drops(steps[k], b, store)
    ensures Copy(states[until], b, store) == Copy(states[from + 1], b, store) && Copy(states[until], b, store).warmed
    decreases until
  {
    if from + 1 < until {
      OneGeneration(states, steps, b, store, from, until - 1);
      StaysInBypass(states, steps, b, store, from, until - 1);
      assert !Drops(steps[until - 1], b, store) && states[until] == Apply(states[until - 1], steps[until - 1]);
    } else {
      WindowOpens(states, steps, b, store, from);
    }
  }

  /**
   * If the store is not invalidated inside the window, every lookup answers from the generation current at its
   * start.
   */
  lemma QuietWindow(states: seq<System>, steps: seq<Step>, b: nat, store: string, from: nat, k: nat)
    requires IsRun(states, steps) && Initial(states[0])
    requires from < k < |steps| && Window(steps, b, store, from, k) && steps[k] == Lookup(b, store)
    requires forall j :: from < j < k ==> !Drops(steps[j], b, store)
    ensures AnsweredFrom(states, steps, k) == Generation(HistoryOf(states[from], store))
  {
    OneGeneration(states, steps, b, store, from, k);
    WindowOpens(states, steps, b, store, from);
    LookupUnderBypass(states, steps, b, store, from, k);
  }
}
