/** Grouping of rule clauses by the name of their head (edn/src/lib.rs). */
module RuleGroups {
  import opened Orders
  import opened Sorting

  /** `rest` stands for the arguments of the head and the body. */
  datatype RuleClause = RuleClause(name: string, rest: string)

  datatype Rule = Rule(name: string, clauses: seq<RuleClause>)

  predicate Below(a: string, b: string) {
    CmpString(a, b).Less?
  }

  predicate NameLe(a: RuleClause, b: RuleClause) {
    !CmpString(a.name, b.name).Greater?
  }

  /** `rule_map.entry(name).or_default().push(clause)`; the tree map is its entries in ascending order. */
  function Push(groups: seq<Rule>, c: RuleClause): (r: seq<Rule>) {
    if groups == [] || Below(c.name, groups[0].name) then [Rule(c.name, [c])] + groups
    else if c.name == groups[0].name then [Rule(c.name, groups[0].clauses + [c])] + groups[1..]
    else [groups[0]] + Push(groups[1..], c)
  }

  function Pushed(clauses: seq<RuleClause>): seq<Rule> {
    if clauses == [] then [] else Push(Pushed(clauses[..|clauses| - 1]), clauses[|clauses| - 1])
  }

  /** `rule_definitions` */
  method RuleDefinitions(clauses: seq<RuleClause>) returns (rules: seq<Rule>)
    ensures rules == Pushed(clauses)
    ensures Grouped(rules, clauses) && Flatten(rules) == StableSort(clauses, NameLe)
  {
    rules := [];
    for i := 0 to |clauses|
      invariant rules == Pushed(clauses[..i])
    {
      assert clauses[..i + 1][..i] == clauses[..i];
      rules := Push(rules, clauses[i]);
    }
    assert clauses[..|clauses|] == clauses;
    PushedGrouped(clauses);
    GroupingIsStableSort(clauses);
  }

  // ---- What a grouping is ----

  function Named(clauses: seq<RuleClause>, name: string): seq<RuleClause> {
    if clauses == [] then []
    else (if clauses[0].name == name then [clauses[0]] else []) + Named(clauses[1..], name)
  }

  function Flatten(groups: seq<Rule>): seq<RuleClause> {
    if groups == [] then [] else groups[0].clauses + Flatten(groups[1..])
  }

  ghost predicate NamesAscend(groups: seq<Rule>) {
    forall i, j :: 0 <= i < j < |groups| ==> Below(groups[i].name, groups[j].name)
  }

  /** Every rule holds all the clauses of its name in source order, and there is a rule for every name. */
  ghost predicate Grouped(groups: seq<Rule>, clauses: seq<RuleClause>) {
    && NamesAscend(groups)
    && (forall i :: 0 <= i < |groups| ==> groups[i].clauses != [])
    && (forall i :: 0 <= i < |groups| ==> groups[i].clauses == Named(clauses, groups[i].name))
    && (forall c :: c in clauses ==> exists i :: 0 <= i < |groups| && groups[i].name == c.name)
  }

  // ---- Pushing ----

  /** The clauses filed under a name. */
  function Filed(groups: seq<Rule>, name: string): seq<RuleClause> {
    if groups == [] then [] else if groups[0].name == name then groups[0].clauses else Filed(groups[1..], name)
  }

  lemma BelowOrder(a: string, b: string, c: string)
    ensures Below(a, b) ==> a != b && !Below(b, a)
    ensures Below(a, b) && Below(b, c) ==> Below(a, c)
    ensures Below(a, b) || a == b || Below(b, a)
  {
    CmpStringTotal(a, b, c);
  }

  lemma {:induction false} PushFiles(groups: seq<Rule>, c: RuleClause, name: string)
    requires NamesAscend(groups)
    ensures Filed(Push(groups, c), name) == Filed(groups, name) + if name == c.name then [c] else []
  {
    if groups == [] {
    } else if Below(c.name, groups[0].name) {
      assert ([Rule(c.name, [c])] + groups)[1..] == groups;
      if name == c.name {
        NotFiled(groups, name);
      }
    } else if c.name == groups[0].name {
      assert ([Rule(c.name, groups[0].clauses + [c])] + groups[1..])[1..] == groups[1..];
    } else {
      assert ([groups[0]] + Push(groups[1..], c))[1..] == Push(groups[1..], c);
      PushFiles(groups[1..], c, name);
    }
  }

  lemma {:induction false} NotFiled(groups: seq<Rule>, name: string)
    requires NamesAscend(groups) && (groups != [] ==> Below(name, groups[0].name))
    ensures Filed(groups, name) == []
  {
    if groups != [] {
      BelowOrder(name, groups[0].name, name);
      if |groups| > 1 {
        assert Below(groups[0].name, groups[1].name);
        BelowOrder(name, groups[0].name, groups[1].name);
      }
      NotFiled(groups[1..], name);
    }
  }

  lemma {:induction false} PushAscends(groups: seq<Rule>, c: RuleClause)
    requires NamesAscend(groups)
    ensures NamesAscend(Push(groups, c))
    ensures forall g :: g in Push(groups, c) ==> g.name == c.name || exists h :: h in groups && h.name == g.name
  {
    if groups == [] {
    } else if Below(c.name, groups[0].name) {
      forall j | 0 <= j < |groups| ensures Below(c.name, groups[j].name) {
        assert j > 0 ==> Below(groups[0].name, groups[j].name);
        BelowOrder(c.name, groups[0].name, groups[j].name);
      }
    } else if c.name != groups[0].name {
      var rest := Push(groups[1..], c);
      PushAscends(groups[1..], c);
      forall j | 0 <= j < |rest| ensures Below(groups[0].name, rest[j].name) {
        assert rest[j] in rest;
        BelowOrder(c.name, groups[0].name, c.name);
        if rest[j].name != c.name {
          var h :| h in groups[1..] && h.name == rest[j].name;
        }
      }
    }
  }

  ghost predicate AllNamed(clauses: seq<RuleClause>, name: string) {
    forall j :: 0 <= j < |clauses| ==> clauses[j].name == name
  }

  /** Every rule is non-empty and holds only clauses of its name. */
  ghost predicate Homogeneous(groups: seq<Rule>) {
    forall i :: 0 <= i < |groups| ==>
      groups[i].clauses != [] && AllNamed(groups[i].clauses, groups[i].name)
  }

  lemma {:induction false} PushHomogeneous(groups: seq<Rule>, c: RuleClause)
    requires Homogeneous(groups)
    ensures Homogeneous(Push(groups, c))
  {
    if groups != [] && !Below(c.name, groups[0].name) && c.name != groups[0].name {
      PushHomogeneous(groups[1..], c);
    }
  }

  lemma {:induction false} NamedSnoc(clauses: seq<RuleClause>, c: RuleClause, name: string)
    ensures Named(clauses + [c], name) == Named(clauses, name) + if name == c.name then [c] else []
  {
    if clauses != [] {
      NamedSnoc(clauses[1..], c, name);
      assert (clauses + [c])[1..] == clauses[1..] + [c];
    }
  }

  lemma {:induction false} PushedShape(clauses: seq<RuleClause>)
    ensures NamesAscend(Pushed(clauses)) && Homogeneous(Pushed(clauses))
  {
    if clauses != [] {
      var before, c := clauses[..|clauses| - 1], clauses[|clauses| - 1];
      PushedShape(before);
      PushAscends(Pushed(before), c);
      PushHomogeneous(Pushed(before), c);
    }
  }

  lemma {:induction false} PushedFiles(clauses: seq<RuleClause>, name: string)
    ensures Filed(Pushed(clauses), name) == Named(clauses, name)
  {
    if clauses != [] {
      var before, c := clauses[..|clauses| - 1], clauses[|clauses| - 1];
      PushedFiles(before, name);
      PushedShape(before);
      PushFiles(Pushed(before), c, name);
      NamedSnoc(before, c, name);
      assert before + [c] == clauses;
    }
  }

  lemma {:induction false} FiledAt(groups: seq<Rule>, i: nat)
    requires NamesAscend(groups) && i < |groups|
    ensures Filed(groups, groups[i].name) == groups[i].clauses
  {
    if i > 0 {
      assert Below(groups[0].name, groups[i].name);
      BelowOrder(groups[0].name, groups[i].name, groups[i].name);
      FiledAt(groups[1..], i - 1);
    }
  }

  lemma {:induction false} FiledSomewhere(groups: seq<Rule>, name: string)
    requires Filed(groups, name) != []
    ensures exists i :: 0 <= i < |groups| && groups[i].name == name
  {
    if groups[0].name != name {
      FiledSomewhere(groups[1..], name);
      var i :| 0 <= i < |groups[1..]| && groups[1..][i].name == name;
      assert groups[i + 1].name == name;
    }
  }

  lemma {:induction false} NamedSome(clauses: seq<RuleClause>, c: RuleClause)
    requires c in clauses
    ensures c in Named(clauses, c.name)
  {
    if clauses[0] != c {
      NamedSome(clauses[1..], c);
    }
  }

  /**
   * The grouping is a partition: distinct ascending names, every clause in the one rule of its name, in source
   * order.
   */
  lemma PushedGrouped(clauses: seq<RuleClause>)
    ensures Grouped(Pushed(clauses), clauses)
  {
    var groups := Pushed(clauses);
    PushedShape(clauses);
    forall i | 0 <= i < |groups| ensures groups[i].clauses == Named(clauses, groups[i].name) {
      FiledAt(groups, i);
      PushedFiles(clauses, groups[i].name);
    }
    forall c | c in clauses ensures exists i :: 0 <= i < |groups| && groups[i].name == c.name {
      PushedFiles(clauses, c.name);
      NamedSome(clauses, c);
      FiledSomewhere(groups, c.name);
    }
  }

  // ---- The stable sort ----

  lemma NameLePreorder()
    ensures TotalPreorder(NameLe)
  {
    forall a: RuleClause, b: RuleClause ensures NameLe(a, b) || NameLe(b, a) {
      CmpStringTotal(a.name, b.name, a.name);
    }
    forall a: RuleClause, b: RuleClause, c: RuleClause | NameLe(a, b) && NameLe(b, c) ensures NameLe(a, c) {
      CmpStringTotal(a.name, b.name, c.name);
      CmpStringTotal(b.name, c.name, a.name);
      CmpStringTotal(c.name, b.name, a.name);
    }
  }

  lemma {:induction false} EquivalentsAreNamed(clauses: seq<RuleClause>, k: RuleClause)
    ensures Equivalents(clauses, k, NameLe) == Named(clauses, k.name)
  {
    if clauses != [] {
      CmpStringTotal(k.name, clauses[0].name, k.name);
      EquivalentsAreNamed(clauses[1..], k);
    }
  }

  lemma {:induction false} NamedConcat(a: seq<RuleClause>, b: seq<RuleClause>, name: string)
    ensures Named(a + b, name) == Named(a, name) + Named(b, name)
  {
    if a == [] {
      assert a + b == b;
    } else {
      var first := if a[0].name == name then [a[0]] else [];
      assert (a + b)[1..] == a[1..] + b && (a + b)[0] == a[0];
      NamedConcat(a[1..], b, name);
      assert first + (Named(a[1..], name) + Named(b, name)) == (first + Named(a[1..], name)) + Named(b, name);
    }
  }

  lemma {:induction false} NamedUniform(a: seq<RuleClause>, own: string, name: string)
    requires forall j :: 0 <= j < |a| ==> a[j].name == own
    ensures Named(a, name) == if name == own then a else []
  {
    if a != [] {
      NamedUniform(a[1..], own, name);
    }
  }

  lemma {:induction false} FlattenNamed(groups: seq<Rule>, name: string)
    requires NamesAscend(groups) && Homogeneous(groups)
    ensures Named(Flatten(groups), name) == Filed(groups, name)
  {
    if groups != [] {
      NamedConcat(groups[0].clauses, Flatten(groups[1..]), name);
      NamedUniform(groups[0].clauses, groups[0].name, name);
      FlattenNamed(groups[1..], name);
      if name == groups[0].name {
        if |groups| > 1 {
          assert Below(groups[0].name, groups[1].name);
        }
        NotFiled(groups[1..], name);
      }
    }
  }

  /** Every clause of the flattened groups belongs to one of them. */
  lemma {:induction false} FlattenFrom(groups: seq<Rule>, i: nat) returns (g: nat)
    requires Homogeneous(groups) && i < |Flatten(groups)|
    ensures g < |groups| && Flatten(groups)[i].name == groups[g].name
  {
    var n := |groups[0].clauses|;
    if i < n {
      g := 0;
    } else {
      g := FlattenFrom(groups[1..], i - n);
      g := g + 1;
    }
  }

  lemma {:induction false} FlattenAscends(groups: seq<Rule>)
    requires NamesAscend(groups) && Homogeneous(groups)
    ensures Ascending(Flatten(groups), NameLe)
  {
    if groups != [] {
      var first, rest := groups[0].clauses, Flatten(groups[1..]);
      FlattenAscends(groups[1..]);
      forall i, j | 0 <= i < j < |first + rest| ensures NameLe((first + rest)[i], (first + rest)[j]) {
        CmpStringTotal(groups[0].name, groups[0].name, groups[0].name);
        if i < |first| <= j {
          var g := FlattenFrom(groups[1..], j - |first|);
          assert Below(groups[0].name, groups[g + 1].name);
        }
      }
    }
  }

  /** Concatenating the rules gives the stable sort of the clauses by head name. */
  lemma GroupingIsStableSort(clauses: seq<RuleClause>)
    ensures Flatten(Pushed(clauses)) == StableSort(clauses, NameLe)
  {
    var flat, sorted := Flatten(Pushed(clauses)), StableSort(clauses, NameLe);
    NameLePreorder();
    PushedShape(clauses);
    FlattenAscends(Pushed(clauses));
    StableSortAscending(clauses, NameLe);
    forall k ensures Equivalents(flat, k, NameLe) == Equivalents(sorted, k, NameLe) {
      EquivalentsAreNamed(flat, k);
      FlattenNamed(Pushed(clauses), k.name);
      PushedFiles(clauses, k.name);
      EquivalentsAreNamed(clauses, k);
      StableSortKeepsEquivalents(clauses, k, NameLe);
    }
    StableSortUnique(flat, sorted, NameLe);
  }
}
