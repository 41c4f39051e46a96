/** Pattern matching with placeholders (edn/src/matcher.rs). */
module Matching {
  import opened Values

  type Table = map<string, Value>

  datatype Verdict = Verdict(ok: bool, table: Table)

  predicate MatchesAny(p: Value) {
    p.PlainSymbol? && p.sym != "" && p.sym[0] == '_'
  }

  predicate IsPlaceholder(p: Value) {
    p.PlainSymbol? && p.sym != "" && p.sym[0] == '?'
  }

  // ---- What a match means ----

  /** `v` satisfies the pattern `p` when placeholders stand for what `t` says. */
  ghost predicate Satisfies(v: Value, p: Value, t: Table)
    decreases p, 1
  {
    if MatchesAny(p) then true
    else if IsPlaceholder(p) then p.sym in t && t[p.sym] == v
    else if v.Vector? && p.Vector? then AllSatisfy(v.vs, p.vs, t)
    else if v.List? && p.List? then AllSatisfy(v.ls, p.ls, t)
    else if v.Set? && p.Set? then SetSatisfies(v.es, p.es, t)
    else if v.Map? && p.Map? then MapSatisfies(v.kvs, p.kvs, t)
    else v == p
  }

  ghost predicate AllSatisfy(vs: seq<Value>, ps: seq<Value>, t: Table)
    decreases ps, 0
  {
    |vs| == |ps| && forall i :: 0 <= i < |ps| ==> Satisfies(vs[i], ps[i], t)
  }

  ghost predicate SetSatisfies(vs: seq<Value>, ps: seq<Value>, t: Table)
    decreases ps, 1
  {
    && |vs| == |ps|
    && (forall i :: 0 <= i < |vs| ==> HasPattern(vs[i], ps, t))
    && (forall j :: 0 <= j < |ps| ==> HasValue(vs, ps[j], t))
  }

  ghost predicate HasPattern(v: Value, ps: seq<Value>, t: Table)
    decreases ps, 0
  {
    exists j :: 0 <= j < |ps| && Satisfies(v, ps[j], t)
  }

  ghost predicate HasValue(vs: seq<Value>, p: Value, t: Table)
    decreases p, 2
  {
    exists i :: 0 <= i < |vs| && Satisfies(vs[i], p, t)
  }

  ghost predicate EntrySatisfies(a: Entry, b: Entry, t: Table)
    decreases b, 2
  {
    Satisfies(a.key, b.key, t) && Satisfies(a.val, b.val, t)
  }

  ghost predicate MapSatisfies(vs: seq<Entry>, ps: seq<Entry>, t: Table)
    decreases ps, 1
  {
    && |vs| == |ps|
    && (forall i :: 0 <= i < |vs| ==> HasEntryPattern(vs[i], ps, t))
    && (forall j :: 0 <= j < |ps| ==> HasEntry(vs, ps[j], t))
  }

  ghost predicate HasEntryPattern(v: Entry, ps: seq<Entry>, t: Table)
    decreases ps, 0
  {
    exists j :: 0 <= j < |ps| && EntrySatisfies(v, ps[j], t)
  }

  ghost predicate HasEntry(vs: seq<Entry>, p: Entry, t: Table)
    decreases p, 3
  {
    exists i :: 0 <= i < |vs| && EntrySatisfies(vs[i], p, t)
  }

  // ---- What the matcher does ----

  function Match(v: Value, p: Value, t: Table): Verdict
    decreases p, 1
  {
    if MatchesAny(p) then Verdict(true, t)
    else if IsPlaceholder(p) then
      if p.sym in t then Verdict(v == t[p.sym], t) else Verdict(true, t[p.sym := v])
    else if v.Vector? && p.Vector? then MatchAll(v.vs, p.vs, t)
    else if v.List? && p.List? then MatchAll(v.ls, p.ls, t)
    else if v.Set? && p.Set? then MatchSets(v.es, p.es, t)
    else if v.Map? && p.Map? then MatchMaps(v.kvs, p.kvs, t)
    else Verdict(v == p, t)
  }

  /** `diff_with(..).is_none()`: elements are compared until the first difference. */
  function MatchAll(vs: seq<Value>, ps: seq<Value>, t: Table): Verdict
    decreases ps, 0
  {
    if vs == [] || ps == [] then Verdict(vs == [] && ps == [], t)
    else
      var first := Match(vs[0], ps[0], t);
      if first.ok then MatchAll(vs[1..], ps[1..], first.table) else first
  }

  function MatchSets(vs: seq<Value>, ps: seq<Value>, t: Table): Verdict
    decreases ps, 4
  {
    if |vs| != |ps| then Verdict(false, t)
    else
      var there := EveryValue(vs, ps, t);
      if there.ok then EveryPattern(vs, ps, there.table) else there
  }

  /** Every value has some pattern. */
  function EveryValue(vs: seq<Value>, ps: seq<Value>, t: Table): Verdict
    decreases ps, 3, |vs|
  {
    if vs == [] then Verdict(true, t)
    else
      var first := SomePattern(vs[0], ps, t);
      if first.ok then EveryValue(vs[1..], ps, first.table) else first
  }

  function SomePattern(v: Value, ps: seq<Value>, t: Table): Verdict
    decreases ps, 2
  {
    if ps == [] then Verdict(false, t)
    else
      var first := Match(v, ps[0], t);
      if first.ok then first else SomePattern(v, ps[1..], first.table)
  }

  /** Every pattern has some value. */
  function EveryPattern(vs: seq<Value>, ps: seq<Value>, t: Table): Verdict
    decreases ps, 2
  {
    if ps == [] then Verdict(true, t)
    else
      var first := SomeValue(vs, ps[0], t);
      if first.ok then EveryPattern(vs, ps[1..], first.table) else first
  }

  function SomeValue(vs: seq<Value>, p: Value, t: Table): Verdict
    decreases p, 2, |vs|
  {
    if vs == [] then Verdict(false, t)
    else
      var first := Match(vs[0], p, t);
      if first.ok then first else SomeValue(vs[1..], p, first.table)
  }

  function MatchEntry(a: Entry, b: Entry, t: Table): Verdict
    decreases b, 2
  {
    var key := Match(a.key, b.key, t);
    if key.ok then Match(a.val, b.val, key.table) else key
  }

  function MatchMaps(vs: seq<Entry>, ps: seq<Entry>, t: Table): Verdict
    decreases ps, 4
  {
    if |vs| != |ps| then Verdict(false, t)
    else
      var there := EveryEntry(vs, ps, t);
      if there.ok then EveryEntryPattern(vs, ps, there.table) else there
  }

  function EveryEntry(vs: seq<Entry>, ps: seq<Entry>, t: Table): Verdict
    decreases ps, 3, |vs|
  {
    if vs == [] then Verdict(true, t)
    else
      var first := SomeEntryPattern(vs[0], ps, t);
      if first.ok then EveryEntry(vs[1..], ps, first.table) else first
  }

  function SomeEntryPattern(v: Entry, ps: seq<Entry>, t: Table): Verdict
    decreases ps, 2
  {
    if ps == [] then Verdict(false, t)
    else
      var first := MatchEntry(v, ps[0], t);
      if first.ok then first else SomeEntryPattern(v, ps[1..], first.table)
  }

  function EveryEntryPattern(vs: seq<Entry>, ps: seq<Entry>, t: Table): Verdict
    decreases ps, 2
  {
    if ps == [] then Verdict(true, t)
    else
      var first := SomeEntry(vs, ps[0], t);
      if first.ok then EveryEntryPattern(vs, ps[1..], first.table) else first
  }

  function SomeEntry(vs: seq<Entry>, p: Entry, t: Table): Verdict
    decreases p, 3, |vs|
  {
    if vs == [] then Verdict(false, t)
    else
      var first := MatchEntry(vs[0], p, t);
      if first.ok then first else SomeEntry(vs[1..], p, first.table)
  }

  // ---- The object ----

  class Matcher {
    var placeholders: Table

    constructor ()
      ensures placeholders == map[]
    {
      placeholders := map[];
    }

    method MatchInternal(v: Value, p: Value) returns (ok: bool)
      modifies this
      ensures Verdict(ok, placeholders) == Match(v, p, old(placeholders))
      decreases p, 1
    {
      if MatchesAny(p) {
        return true;
      }
      if IsPlaceholder(p) {
        if p.sym !in placeholders {
          placeholders := placeholders[p.sym := v];
        }
        return v == placeholders[p.sym];
      }
      if v.Vector? && p.Vector? {
        ok := NoDifference(v.vs, p.vs);
      } else if v.List? && p.List? {
        ok := NoDifference(v.ls, p.ls);
      } else if v.Set? && p.Set? {
        ok := SameSets(v.es, p.es);
      } else if v.Map? && p.Map? {
        ok := SameMaps(v.kvs, p.kvs);
      } else {
        ok := v == p;
      }
    }

    method NoDifference(vs: seq<Value>, ps: seq<Value>) returns (ok: bool)
      modifies this
      ensures Verdict(ok, placeholders) == MatchAll(vs, ps, old(placeholders))
      decreases ps, 0
    {
      var i := 0;
      while i < |vs| && i < |ps|
        invariant i <= |vs| && i <= |ps|
        invariant MatchAll(vs[i..], ps[i..], placeholders) == MatchAll(vs, ps, old(placeholders))
      {
        ok := MatchInternal(vs[i], ps[i]);
        if !ok {
          return;
        }
        assert vs[i..][1..] == vs[i + 1..] && ps[i..][1..] == ps[i + 1..];
        i := i + 1;
      }
      return i == |vs| && i == |ps|;
    }

    method SameSets(vs: seq<Value>, ps: seq<Value>) returns (ok: bool)
      modifies this
      ensures Verdict(ok, placeholders) == MatchSets(vs, ps, old(placeholders))
      decreases ps, 4
    {
      if |vs| != |ps| {
        return false;
      }
      for i := 0 to |vs|
        invariant EveryValue(vs[i..], ps, placeholders) == EveryValue(vs, ps, old(placeholders))
      {
        ok := AnyPattern(vs[i], ps);
        if !ok {
          return;
        }
        assert vs[i..][1..] == vs[i + 1..];
      }
      ghost var middle := placeholders;
      for j := 0 to |ps|
        invariant EveryPattern(vs, ps[j..], placeholders) == EveryPattern(vs, ps, middle)
      {
        ok := AnyValue(vs, ps[j]);
        if !ok {
          return;
        }
        assert ps[j..][1..] == ps[j + 1..];
      }
      return true;
    }

    method AnyPattern(v: Value, ps: seq<Value>) returns (ok: bool)
      modifies this
      ensures Verdict(ok, placeholders) == SomePattern(v, ps, old(placeholders))
      decreases ps, 2
    {
      for j := 0 to |ps|
        invariant SomePattern(v, ps[j..], placeholders) == SomePattern(v, ps, old(placeholders))
      {
        ok := MatchInternal(v, ps[j]);
        if ok {
          return;
        }
        assert ps[j..][1..] == ps[j + 1..];
      }
      return false;
    }

    method AnyValue(vs: seq<Value>, p: Value) returns (ok: bool)
      modifies this
      ensures Verdict(ok, placeholders) == SomeValue(vs, p, old(placeholders))
      decreases p, 2
    {
      for i := 0 to |vs|
        invariant SomeValue(vs[i..], p, placeholders) == SomeValue(vs, p, old(placeholders))
      {
        ok := MatchInternal(vs[i], p);
        if ok {
          return;
        }
        assert vs[i..][1..] == vs[i + 1..];
      }
      return false;
    }

    method SameMaps(vs: seq<Entry>, ps: seq<Entry>) returns (ok: bool)
      modifies this
      ensures Verdict(ok, placeholders) == MatchMaps(vs, ps, old(placeholders))
      decreases ps, 4
    {
      if |vs| != |ps| {
        return false;
      }
      for i := 0 to |vs|
        invariant EveryEntry(vs[i..], ps, placeholders) == EveryEntry(vs, ps, old(placeholders))
      {
        ok := AnyEntryPattern(vs[i], ps);
        if !ok {
          return;
        }
        assert vs[i..][1..] == vs[i + 1..];
      }
      ghost var middle := placeholders;
      for j := 0 to |ps|
        invariant EveryEntryPattern(vs, ps[j..], placeholders) == EveryEntryPattern(vs, ps, middle)
      {
        ok := AnyEntry(vs, ps[j]);
        if !ok {
          return;
        }
        assert ps[j..][1..] == ps[j + 1..];
      }
      return true;
    }

    method AnyEntryPattern(v: Entry, ps: seq<Entry>) returns (ok: bool)
      modifies this
      ensures Verdict(ok, placeholders) == SomeEntryPattern(v, ps, old(placeholders))
      decreases ps, 2
    {
      for j := 0 to |ps|
        invariant SomeEntryPattern(v, ps[j..], placeholders) == SomeEntryPattern(v, ps, old(placeholders))
      {
        ok := SameEntry(v, ps[j]);
        if ok {
          return;
        }
        assert ps[j..][1..] == ps[j + 1..];
      }
      return false;
    }

    method AnyEntry(vs: seq<Entry>, p: Entry) returns (ok: bool)
      modifies this
      ensures Verdict(ok, placeholders) == SomeEntry(vs, p, old(placeholders))
      decreases p, 3
    {
      for i := 0 to |vs|
        invariant SomeEntry(vs[i..], p, placeholders) == SomeEntry(vs, p, old(placeholders))
      {
        ok := SameEntry(vs[i], p);
        if ok {
          return;
        }
        assert vs[i..][1..] == vs[i + 1..];
      }
      return false;
    }

    method SameEntry(a: Entry, b: Entry) returns (ok: bool)
      modifies this
      ensures Verdict(ok, placeholders) == MatchEntry(a, b, old(placeholders))
      decreases b, 2
    {
      ok := MatchInternal(a.key, b.key);
      if ok {
        ok := MatchInternal(a.val, b.val);
      }
    }
  }
}
