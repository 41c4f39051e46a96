/** Namespaceable names: one string and the index of its dividing solidus (edn/src/namespaceable_name.rs). */
module Names {
  import opened Prelude
  import opened Orders

  datatype RawName = RawName(components: string, boundary: nat) {
    /** What the constructors guarantee: a non-empty name, after a non-empty namespace if there is one. */
    predicate Valid() {
      if boundary == 0 then components != ""
      else boundary + 1 < |components| && components[boundary] == '/'
    }
  }

  type Name = n: RawName | n.Valid() witness RawName("a", 0)

  /** A name that has a namespace. */
  type QualifiedName = n: Name | n.boundary > 0 witness RawName("a/a", 1)

  predicate IsNamespaced(n: Name) {
    n.boundary > 0
  }

  function Namespace(n: Name): Option<string> {
    if n.boundary > 0 then Some(n.components[..n.boundary]) else None
  }

  function NameOf(n: Name): (r: string)
    ensures r != ""
  {
    if n.boundary == 0 then n.components else n.components[n.boundary + 1..]
  }

  /** The pair compared by the order; a missing namespace counts as the empty string. */
  function Components(n: Name): (string, string) {
    if n.boundary > 0 then (n.components[..n.boundary], n.components[n.boundary + 1..])
    else ("", n.components)
  }

  /** `None` stands for the panic on an empty name. */
  function Plain(name: string): Option<Name> {
    if name == "" then None else Some(RawName(name, 0))
  }

  /** `None` stands for the panic on an empty name or namespace. */
  function Namespaced(ns: string, name: string): Option<Name> {
    if name == "" || ns == "" then None else Some(RawName(ns + "/" + name, |ns|))
  }

  function New(ns: Option<string>, name: string): Option<Name> {
    match ns
    case Some(x) => Namespaced(x, name)
    case None => Plain(name)
  }

  /** Taking a name apart and putting it together are inverse to each other, even when a
      part holds a solidus of its own. */
  lemma PartsRoundTrip(ns: Option<string>, name: string, n: Name)
    ensures New(Namespace(n), NameOf(n)) == Some(n)
    ensures var m := New(ns, name);
            if name == "" || ns == Some("") then m.None?
            else m.Some? && Namespace(m.value) == ns && NameOf(m.value) == name
  {
    if n.boundary > 0 {
      assert n.components == n.components[..n.boundary] + "/" + n.components[n.boundary + 1..];
    }
    if ns.Some? && name != "" && ns.value != "" {
      var c := ns.value + "/" + name;
      assert c[..|ns.value|] == ns.value && c[|ns.value| + 1..] == name;
    }
  }

  predicate IsBackward(n: Name) {
    NameOf(n)[0] == '_'
  }

  /** Strips one leading underscore, or adds one. `None` is the panic when nothing is left. */
  function ToReversed(n: Name): Option<Name> {
    var name := NameOf(n);
    if name[0] == '_' then New(Namespace(n), name[1..]) else New(Namespace(n), "_" + name)
  }

  /** Forward, or one underscore followed by a non-empty forward name. */
  predicate ProperlyDirected(n: Name) {
    IsBackward(n) ==> |NameOf(n)| > 1 && NameOf(n)[1] != '_'
  }

  /** The documentation calls `to_reversed` its own inverse without restriction. It is one exactly on
      the names with at most one leading underscore, and there it always changes the direction. */
  lemma ReversedTwice(n: Name)
    ensures ProperlyDirected(n) <==>
            (ToReversed(n).Some? && ToReversed(ToReversed(n).value) == Some(n))
    ensures ProperlyDirected(n) ==> IsBackward(ToReversed(n).value) == !IsBackward(n)
    ensures ToReversed(n).None? <==> NameOf(n) == "_"
  {
    var name := NameOf(n);
    PartsRoundTrip(Namespace(n), name, n);
    var once := if name[0] == '_' then name[1..] else "_" + name;
    PartsRoundTrip(Namespace(n), once, n);
    assert Namespace(n) != Some("");
    if once != "" {
      var twice := if once[0] == '_' then once[1..] else "_" + once;
      PartsRoundTrip(Namespace(n), twice, n);
      assert ToReversed(ToReversed(n).value) == New(Namespace(n), twice);
      if name[0] == '_' && once[0] != '_' {
        assert twice == name;
      } else if name[0] != '_' {
        assert twice == name;
      } else {
        assert |twice| < |name|;
      }
    }
  }

  /** Two underscores: reversing once leaves a backward name, reversing twice loses both. */
  lemma DoubleUnderscoreIsNotRestored()
    ensures var n := RawName("__b", 0);
            ToReversed(n) == Some(RawName("_b", 0)) && ToReversed(RawName("_b", 0)) == Some(RawName("b", 0))
  {
    assert "__b"[1..] == "_b";
    assert "_b"[1..] == "b";
  }

  /** Namespace first, then name. */
  function CmpName(a: Name, b: Name): Ordering {
    var (an, a1) := Components(a);
    var (bn, b1) := Components(b);
    Then(CmpString(an, bn), CmpString(a1, b1))
  }

  lemma ComponentsInjective(a: Name, b: Name)
    requires Components(a) == Components(b)
    ensures a == b
  {
    if a.boundary > 0 {
      assert a.components == a.components[..a.boundary] + "/" + a.components[a.boundary + 1..];
    }
    if b.boundary > 0 {
      assert b.components == b.components[..b.boundary] + "/" + b.components[b.boundary + 1..];
    }
    assert |Components(a).0| == a.boundary && |Components(b).0| == b.boundary;
  }

  /** Names are totally ordered. */
  lemma CmpNameTotal(a: Name, b: Name, c: Name)
    ensures CmpName(a, b).Equal? <==> a == b
    ensures CmpName(b, a) == Flip(CmpName(a, b))
    ensures CmpName(a, b).Less? && CmpName(b, c).Less? ==> CmpName(a, c).Less?
  {
    var (an, a1) := Components(a);
    var (bn, b1) := Components(b);
    var (cn, c1) := Components(c);
    CmpStringTotal(an, bn, cn);
    CmpStringTotal(a1, b1, c1);
    CmpStringTotal(bn, cn, an);
    CmpStringTotal(an, cn, bn);
    if CmpName(a, b).Equal? {
      ComponentsInjective(a, b);
    }
  }
}
