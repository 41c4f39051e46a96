/** A backend's private copy of a store's schema (pg_mentat/src/cache.rs). */
module SchemaCaching {
  import opened Prelude

  datatype AttributeInfo = AttributeInfo(
    valueType: string,
    cardinality: string,
    uniqueConstraint: Option<string>,
    fulltext: bool,
    indexed: bool,
    component: bool,
    noHistory: bool
  )

  /** Rows as selected; `None` is a null or unreadable column. */
  datatype AttributeRow = AttributeRow(
    entid: Option<I64>,
    ident: Option<string>,
    valueType: Option<string>,
    cardinality: Option<string>,
    uniqueConstraint: Option<string>,
    fulltext: Option<bool>,
    indexed: Option<bool>,
    component: Option<bool>,
    noHistory: Option<bool>
  )

  datatype IdentRow = IdentRow(ident: Option<string>, entid: Option<I64>)

  /** The committed contents of a store's `schema` and `idents` tables. */
  datatype Tables = Tables(attributes: seq<AttributeRow>, idents: seq<IdentRow>)

  /** What has been committed for a store: generation `g` left it with `history[g - 1]`. */
  type History = h: seq<Tables> | h != [] witness [Tables([], [])]

  function Generation(h: History): nat {
    |h|
  }

  function Current(h: History): Tables {
    h[|h| - 1]
  }

  // ---- The maps of a loaded schema ----

  datatype Maps = Maps(attrs: map<I64, AttributeInfo>, idents: map<string, I64>, entids: map<I64, string>)

  const NO_MAPS := Maps(map[], map[], map[])

  predicate Usable(r: AttributeRow) {
    r.entid.Some? && r.ident.Some? && r.valueType.Some? && r.cardinality.Some?
  }

  function Flag(b: Option<bool>): bool {
    b.Some? && b.value
  }

  function InfoOf(r: AttributeRow): AttributeInfo
    requires Usable(r)
  {
    AttributeInfo(r.valueType.value, r.cardinality.value, r.uniqueConstraint,
                  Flag(r.fulltext), Flag(r.indexed), Flag(r.component), Flag(r.noHistory))
  }

  function AddAttribute(m: Maps, r: AttributeRow): Maps {
    if !Usable(r) then m
    else Maps(m.attrs[r.entid.value := InfoOf(r)], m.idents[r.ident.value := r.entid.value],
              m.entids[r.entid.value := r.ident.value])
  }

  function AddIdent(m: Maps, r: IdentRow): Maps {
    if r.ident.None? || r.entid.None? then m
    else m.(idents := if r.ident.value in m.idents then m.idents else m.idents[r.ident.value := r.entid.value],
            entids := if r.entid.value in m.entids then m.entids else m.entids[r.entid.value := r.ident.value])
  }

  function WithAttributes(m: Maps, rows: seq<AttributeRow>): Maps {
    if rows == [] then m else AddAttribute(WithAttributes(m, rows[..|rows| - 1]), rows[|rows| - 1])
  }

  function WithIdents(m: Maps, rows: seq<IdentRow>): Maps {
    if rows == [] then m else AddIdent(WithIdents(m, rows[..|rows| - 1]), rows[|rows| - 1])
  }

  function Loaded(t: Tables): Maps {
    WithIdents(WithAttributes(NO_MAPS, t.attributes), t.idents)
  }

  // ---- What loading means ----

  ghost predicate NamedBy(rows: seq<AttributeRow>, ident: string, i: nat) {
    i < |rows| && Usable(rows[i]) && rows[i].ident.value == ident
  }

  /** The last attribute row that names an ident decides, whatever the `idents` table says. */
  lemma LastAttributeRowDecides(t: Tables, ident: string, i: nat)
    requires NamedBy(t.attributes, ident, i) && forall j :: i < j ==> !NamedBy(t.attributes, ident, j)
    ensures ident in Loaded(t).idents && Loaded(t).idents[ident] == t.attributes[i].entid.value
  {
    LastAttributeRow(t.attributes, ident, i);
    assert t.idents[..0] == [];
    IdentsKept(WithAttributes(NO_MAPS, t.attributes), t.idents, 0, ident);
  }

  lemma {:induction false} LastAttributeRow(rows: seq<AttributeRow>, ident: string, i: nat)
    requires NamedBy(rows, ident, i) && forall j :: i < j ==> !NamedBy(rows, ident, j)
    ensures var m := WithAttributes(NO_MAPS, rows); ident in m.idents && m.idents[ident] == rows[i].entid.value
  {
    var n := |rows| - 1;
    if i < n {
      assert !NamedBy(rows, ident, n);
      var rest := rows[..n];
      assert NamedBy(rest, ident, i);
      forall j | i < j ensures !NamedBy(rest, ident, j) {
        assert !NamedBy(rows, ident, j);
      }
      LastAttributeRow(rest, ident, i);
    }
  }

  ghost predicate DescribedBy(rows: seq<AttributeRow>, entid: I64, i: nat) {
    i < |rows| && Usable(rows[i]) && rows[i].entid.value == entid
  }

  /** Column by column; a flag that is null is not set. */
  predicate Describes(a: AttributeInfo, r: AttributeRow) {
    && r.valueType == Some(a.valueType) && r.cardinality == Some(a.cardinality)
    && a.uniqueConstraint == r.uniqueConstraint
    && (a.fulltext <==> r.fulltext == Some(true)) && (a.indexed <==> r.indexed == Some(true))
    && (a.component <==> r.component == Some(true)) && (a.noHistory <==> r.noHistory == Some(true))
  }

  /** The last attribute row of an entid decides its attribute and its ident, whatever the `idents` table says. */
  lemma LastRowOfEntidDecides(t: Tables, entid: I64, i: nat)
    requires DescribedBy(t.attributes, entid, i) && forall j :: i < j ==> !DescribedBy(t.attributes, entid, j)
    ensures var m := Loaded(t);
            && entid in m.attrs && Describes(m.attrs[entid], t.attributes[i])
            && entid in m.entids && m.entids[entid] == t.attributes[i].ident.value
  {
    LastRowOfEntid(t.attributes, entid, i);
    assert t.idents[..0] == [];
    EntidsKept(WithAttributes(NO_MAPS, t.attributes), t.idents, 0, entid);
    AttributesKept(WithAttributes(NO_MAPS, t.attributes), t.idents);
  }

  /** No row of the `idents` table adds an attribute: an entid has one exactly if some attribute row is its own. */
  lemma AttributesAreDescribed(t: Tables, entid: I64)
    ensures entid in Loaded(t).attrs <==> exists i :: DescribedBy(t.attributes, entid, i)
  {
    AttributesKept(WithAttributes(NO_MAPS, t.attributes), t.idents);
    DescribedAttributes(t.attributes, entid);
  }

  lemma {:induction false} LastRowOfEntid(rows: seq<AttributeRow>, entid: I64, i: nat)
    requires DescribedBy(rows, entid, i) && forall j :: i < j ==> !DescribedBy(rows, entid, j)
    ensures var m := WithAttributes(NO_MAPS, rows);
            && entid in m.attrs && m.attrs[entid] == InfoOf(rows[i])
            && entid in m.entids && m.entids[entid] == rows[i].ident.value
  {
    var n := |rows| - 1;
    if i < n {
      assert !DescribedBy(rows, entid, n);
      var rest := rows[..n];
      assert DescribedBy(rest, entid, i);
      forall j | i < j ensures !DescribedBy(rest, entid, j) {
        assert !DescribedBy(rows, entid, j);
      }
      LastRowOfEntid(rest, entid, i);
    }
  }

  lemma {:induction false} AttributesKept(m: Maps, rows: seq<IdentRow>)
    ensures WithIdents(m, rows).attrs == m.attrs
  {
    if rows != [] {
      AttributesKept(m, rows[..|rows| - 1]);
    }
  }

  lemma {:induction false} DescribedAttributes(rows: seq<AttributeRow>, entid: I64)
    ensures entid in WithAttributes(NO_MAPS, rows).attrs <==> exists i :: DescribedBy(rows, entid, i)
  {
    if rows != [] {
      var n := |rows| - 1;
      var rest := rows[..n];
      DescribedAttributes(rest, entid);
      if i: nat :| DescribedBy(rest, entid, i) {
        assert DescribedBy(rows, entid, i);
      } else if i: nat :| DescribedBy(rows, entid, i) {
        assert i < n ==> DescribedBy(rest, entid, i);
      }
      assert DescribedBy(rows, entid, n) <==> Usable(rows[n]) && rows[n].entid.value == entid;
    }
  }

  predicate Pairs(r: IdentRow, ident: string, entid: I64) {
    r == IdentRow(Some(ident), Some(entid))
  }

  /** For an ident that no attribute row names, the first complete `idents` row of the ident decides. */
  lemma FirstIdentRowDecides(t: Tables, ident: string, i: nat, entid: I64)
    requires i < |t.idents| && Pairs(t.idents[i], ident, entid)
    requires forall j :: 0 <= j < i ==> forall e :: !Pairs(t.idents[j], ident, e)
    requires forall j :: !NamedBy(t.attributes, ident, j)
    ensures ident in Loaded(t).idents && Loaded(t).idents[ident] == entid
  {
    var m := WithAttributes(NO_MAPS, t.attributes);
    UnnamedIsAbsent(t.attributes, ident);
    var before := t.idents[..i];
    if ident in WithIdents(m, before).idents {
      ResolvedIdentsAreNamed(m, before, ident);
    }
    AddedAt(m, t.idents, i);
    IdentsKept(m, t.idents, i + 1, ident);
  }

  /** For an entid without an attribute row, the first complete `idents` row of the entid decides. */
  lemma FirstEntidRowDecides(t: Tables, entid: I64, i: nat, ident: string)
    requires i < |t.idents| && Pairs(t.idents[i], ident, entid)
    requires forall j :: 0 <= j < i ==> forall n :: !Pairs(t.idents[j], n, entid)
    requires forall j :: !DescribedBy(t.attributes, entid, j)
    ensures entid in Loaded(t).entids && Loaded(t).entids[entid] == ident
  {
    var m := WithAttributes(NO_MAPS, t.attributes);
    UndescribedIsAbsent(t.attributes, entid);
    var before := t.idents[..i];
    if entid in WithIdents(m, before).entids {
      ResolvedEntidsAreNamed(m, before, entid);
    }
    AddedAt(m, t.idents, i);
    EntidsKept(m, t.idents, i + 1, entid);
  }

  lemma {:induction false} UnnamedIsAbsent(rows: seq<AttributeRow>, ident: string)
    requires forall j :: !NamedBy(rows, ident, j)
    ensures ident !in WithAttributes(NO_MAPS, rows).idents
  {
    if rows != [] {
      var n := |rows| - 1;
      assert !NamedBy(rows, ident, n);
      forall j: nat ensures !NamedBy(rows[..n], ident, j) {
        assert !NamedBy(rows, ident, j);
      }
      UnnamedIsAbsent(rows[..n], ident);
    }
  }

  lemma {:induction false} UndescribedIsAbsent(rows: seq<AttributeRow>, entid: I64)
    requires forall j :: !DescribedBy(rows, entid, j)
    ensures entid !in WithAttributes(NO_MAPS, rows).entids
  {
    if rows != [] {
      var n := |rows| - 1;
      assert !DescribedBy(rows, entid, n);
      forall j: nat ensures !DescribedBy(rows[..n], entid, j) {
        assert !DescribedBy(rows, entid, j);
      }
      UndescribedIsAbsent(rows[..n], entid);
    }
  }

  lemma AddedAt(m: Maps, rows: seq<IdentRow>, i: nat)
    requires i < |rows|
    ensures WithIdents(m, rows[..i + 1]) == AddIdent(WithIdents(m, rows[..i]), rows[i])
  {
    assert rows[..i + 1][..i] == rows[..i];
  }

  lemma {:induction false} IdentsKept(m: Maps, rows: seq<IdentRow>, i: nat, ident: string)
    requires i <= |rows| && ident in WithIdents(m, rows[..i]).idents
    ensures ident in WithIdents(m, rows).idents
    ensures WithIdents(m, rows).idents[ident] == WithIdents(m, rows[..i]).idents[ident]
  {
    if i < |rows| {
      var before := rows[..|rows| - 1];
      assert before[..i] == rows[..i];
      IdentsKept(m, before, i, ident);
    } else {
      assert rows[..i] == rows;
    }
  }

  lemma {:induction false} EntidsKept(m: Maps, rows: seq<IdentRow>, i: nat, entid: I64)
    requires i <= |rows| && entid in WithIdents(m, rows[..i]).entids
    ensures entid in WithIdents(m, rows).entids
    ensures WithIdents(m, rows).entids[entid] == WithIdents(m, rows[..i]).entids[entid]
  {
    if i < |rows| {
      var before := rows[..|rows| - 1];
      assert before[..i] == rows[..i];
      EntidsKept(m, before, i, entid);
    } else {
      assert rows[..i] == rows;
    }
  }

  lemma {:induction false} ResolvedEntidsAreNamed(m: Maps, rows: seq<IdentRow>, entid: I64)
    requires entid in WithIdents(m, rows).entids && entid !in m.entids
    ensures exists i :: 0 <= i < |rows| && Pairs(rows[i], WithIdents(m, rows).entids[entid], entid)
  {
    var n := |rows| - 1;
    var rest := rows[..n];
    if entid in WithIdents(m, rest).entids {
      ResolvedEntidsAreNamed(m, rest, entid);
      var i :| 0 <= i < |rest| && Pairs(rest[i], WithIdents(m, rest).entids[entid], entid);
      assert rows[i] == rest[i];
    } else {
      assert rows[n].entid == Some(entid);
    }
  }

  /** Only named idents resolve: every entry comes from a usable row. */
  lemma {:induction false} ResolvedIdentsAreNamed(m: Maps, rows: seq<IdentRow>, ident: string)
    requires ident in WithIdents(m, rows).idents && ident !in m.idents
    ensures exists i :: 0 <= i < |rows| && Pairs(rows[i], ident, WithIdents(m, rows).idents[ident])
  {
    var n := |rows| - 1;
    var rest := rows[..n];
    if ident in WithIdents(m, rest).idents {
      ResolvedIdentsAreNamed(m, rest, ident);
      var i :| 0 <= i < |rest| && Pairs(rest[i], ident, WithIdents(m, rest).idents[ident]);
      assert rows[i] == rest[i];
    } else {
      assert rows[n].ident == Some(ident);
    }
  }

  // ---- The cache as a value ----

  datatype Cache = Cache(warmed: bool, localGen: int, maps: Maps)

  const NEW_CACHE := Cache(false, 0, NO_MAPS)

  function Warm(c: Cache, h: History): Cache {
    if c.warmed then c
    else Cache(true, Generation(h), WithIdents(WithAttributes(c.maps, Current(h).attributes), Current(h).idents))
  }

  function Invalidated(c: Cache): Cache {
    c.(warmed := false, maps := NO_MAPS)
  }

  function Reloaded(c: Cache, h: History): Cache {
    if Generation(h) > c.localGen then Warm(Invalidated(c), h) else c
  }

  function Fresh(c: Cache, h: History, bypass: bool): Cache {
    if !c.warmed then Warm(c, h) else if bypass then c else Reloaded(c, h)
  }

  /** The copy of `begin_tx_cache_bypass`, before the flag is set. */
  function Begun(c: Cache, h: History): Cache {
    if c.warmed then Reloaded(c, h) else Warm(c, h)
  }

  /** A warm copy holds the schema of its recorded generation, which has been committed; a cold one holds nothing. */
  ghost predicate Faithful(c: Cache, h: History) {
    if c.warmed then 1 <= c.localGen <= Generation(h) && c.maps == Loaded(h[c.localGen - 1])
    else c.maps == NO_MAPS && c.localGen <= Generation(h)
  }

  // ---- The object ----

  class SchemaCache {
    var warmed: bool
    var localGen: int
    var attrsById: map<I64, AttributeInfo>
    var identsToEntid: map<string, I64>
    var entidsToIdent: map<I64, string>

    function View(): Cache
      reads this
    {
      Cache(warmed, localGen, Maps(attrsById, identsToEntid, entidsToIdent))
    }

    constructor ()
      ensures View() == NEW_CACHE
    {
      warmed, localGen := false, 0;
      attrsById, identsToEntid, entidsToIdent := map[], map[], map[];
    }

    /** One read-only call sequence sees one committed state. */
    method WarmUp(h: History)
      modifies this
      ensures View() == Warm(old(View()), h)
    {
      if warmed {
        return;
      }
      LoadAttributes(Current(h).attributes);
      LoadIdents(Current(h).idents);
      localGen := Generation(h);
      warmed := true;
    }

    method LoadAttributes(rows: seq<AttributeRow>)
      modifies this`attrsById, this`identsToEntid, this`entidsToIdent
      ensures View().maps == WithAttributes(old(View().maps), rows)
    {
      for i := 0 to |rows|
        invariant View().maps == WithAttributes(old(View().maps), rows[..i])
      {
        var r := rows[i];
        assert rows[..i + 1][..i] == rows[..i];
        if r.entid.None? || r.ident.None? || r.valueType.None? || r.cardinality.None? {
          continue;
        }
        attrsById := attrsById[r.entid.value := InfoOf(r)];
        identsToEntid := identsToEntid[r.ident.value := r.entid.value];
        entidsToIdent := entidsToIdent[r.entid.value := r.ident.value];
      }
      assert rows[..|rows|] == rows;
    }

    method LoadIdents(rows: seq<IdentRow>)
      modifies this`identsToEntid, this`entidsToIdent
      ensures View().maps == WithIdents(old(View().maps), rows)
    {
      for i := 0 to |rows|
        invariant View().maps == WithIdents(old(View().maps), rows[..i])
      {
        var r := rows[i];
        assert rows[..i + 1][..i] == rows[..i];
        if r.ident.None? || r.entid.None? {
          continue;
        }
        if r.ident.value !in identsToEntid {
          identsToEntid := identsToEntid[r.ident.value := r.entid.value];
        }
        if r.entid.value !in entidsToIdent {
          entidsToIdent := entidsToIdent[r.entid.value := r.ident.value];
        }
      }
      assert rows[..|rows|] == rows;
    }

    method EnsureFresh(h: History, bypass: bool)
      modifies this
      ensures View() == Fresh(old(View()), h, bypass)
    {
      if !warmed {
        WarmUp(h);
        return;
      }
      if bypass {
        return;
      }
      if Generation(h) > localGen {
        Invalidate();
        WarmUp(h);
      }
    }

    method Begin(h: History)
      modifies this
      ensures View() == Begun(old(View()), h)
    {
      if warmed {
        if Generation(h) > localGen {
          Invalidate();
          WarmUp(h);
        }
      } else {
        WarmUp(h);
      }
    }

    method Invalidate()
      modifies this
      ensures View() == Invalidated(old(View()))
    {
      attrsById, identsToEntid, entidsToIdent := map[], map[], map[];
      warmed := false;
    }

    /** A faithful copy outside a bypass answers from the current committed schema. */
    method GetAttribute(h: History, bypass: bool, attrId: I64) returns (r: Option<AttributeInfo>)
      requires Faithful(View(), h)
      modifies this
      ensures View() == Fresh(old(View()), h, bypass) && Faithful(View(), h)
      ensures !bypass ==> r == Get(Loaded(Current(h)).attrs, attrId)
      ensures r == Get(Loaded(h[localGen - 1]).attrs, attrId)
    {
      FreshFaithful(View(), h, bypass);
      EnsureFresh(h, bypass);
      return Get(attrsById, attrId);
    }

    method ResolveIdent(h: History, bypass: bool, ident: string) returns (r: Option<I64>)
      requires Faithful(View(), h)
      modifies this
      ensures View() == Fresh(old(View()), h, bypass) && Faithful(View(), h)
      ensures !bypass ==> r == Get(Loaded(Current(h)).idents, ident)
      ensures r == Get(Loaded(h[localGen - 1]).idents, ident)
    {
      FreshFaithful(View(), h, bypass);
      EnsureFresh(h, bypass);
      return Get(identsToEntid, ident);
    }

    method GetIdent(h: History, bypass: bool, entid: I64) returns (r: Option<string>)
      requires Faithful(View(), h)
      modifies this
      ensures View() == Fresh(old(View()), h, bypass) && Faithful(View(), h)
      ensures !bypass ==> r == Get(Loaded(Current(h)).entids, entid)
      ensures r == Get(Loaded(h[localGen - 1]).entids, entid)
    {
      FreshFaithful(View(), h, bypass);
      EnsureFresh(h, bypass);
      return Get(entidsToIdent, entid);
    }

    method GetAttributeByIdent(h: History, bypass: bool, ident: string) returns (r: Option<AttributeInfo>)
      requires Faithful(View(), h)
      modifies this
      ensures View() == Fresh(old(View()), h, bypass) && Faithful(View(), h)
      ensures !bypass ==> r == ByIdent(Loaded(Current(h)), ident)
      ensures r == ByIdent(Loaded(h[localGen - 1]), ident)
    {
      FreshFaithful(View(), h, bypass);
      EnsureFresh(h, bypass);
      if ident !in identsToEntid {
        return None;
      }
      return Get(attrsById, identsToEntid[ident]);
    }
  }

  function Get<K, V>(m: map<K, V>, k: K): Option<V> {
    if k in m then Some(m[k]) else None
  }

  function ByIdent(m: Maps, ident: string): Option<AttributeInfo> {
    if ident in m.idents then Get(m.attrs, m.idents[ident]) else None
  }

  // ---- One copy ----

  lemma FreshFaithful(c: Cache, h: History, bypass: bool)
    requires Faithful(c, h)
    ensures Faithful(Fresh(c, h, bypass), h) && Fresh(c, h, bypass).warmed
    ensures !bypass ==> Fresh(c, h, bypass).localGen == Generation(h) && Fresh(c, h, bypass).maps == Loaded(Current(h))
  {
  }

  lemma BegunFaithful(c: Cache, h: History)
    requires Faithful(c, h)
    ensures Faithful(Begun(c, h), h) && Begun(c, h).warmed && Begun(c, h).localGen == Generation(h)
  {
  }

  lemma LongerHistory(c: Cache, h: History, t: Tables)
    requires Faithful(c, h)
    ensures Faithful(c, h + [t])
  {
  }
}
