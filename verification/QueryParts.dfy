/** Assembly of a query from its parts, in whatever order they are written (edn/src/query.rs). */
module QueryParts {
  import opened Prelude

  /** A parsed piece whose contents do not matter here. */
  type Form = string

  datatype Binding = BindScalar(name: Form) | OtherBinding(form: Form)

  datatype Limit = Unlimited | Limited(form: Form)

  datatype QueryPart =
    | FindSpec(spec: Form)
    | WithVars(vars: seq<Form>)
    | InVars(vars: seq<Form>)
    | InBindings(bindings: seq<Binding>)
    | LimitTo(limit: Limit)
    | OffsetBy(offset: Limit)
    | WhereClauses(clauses: seq<Form>)
    | OrderBy(order: seq<Form>)
    | Distinct
    | Rules(rules: seq<Form>)

  datatype ParsedQuery = ParsedQuery(
    findSpec: Form,
    with: seq<Form>,
    inVars: seq<Form>,
    inBindings: seq<Binding>,
    limit: Limit,
    offset: Limit,
    whereClauses: seq<Form>,
    order: Option<seq<Form>>,
    distinct: bool,
    rules: seq<Form>
  )

  datatype Result<T> = Ok(value: T) | Err(message: string)

  // ---- What has been seen so far ----

  datatype Slots = Slots(
    findSpec: Option<Form>,
    with: Option<seq<Form>>,
    inVars: Option<seq<Form>>,
    inBindings: Option<seq<Binding>>,
    limit: Option<Limit>,
    offset: Option<Limit>,
    whereClauses: Option<seq<Form>>,
    order: Option<seq<Form>>,
    distinct: bool,
    rules: Option<seq<Form>>
  )

  const NOTHING := Slots(None, None, None, None, None, None, None, None, false, None)

  predicate Taken(s: Slots, p: QueryPart) {
    match p
    case FindSpec(_) => s.findSpec.Some?
    case WithVars(_) => s.with.Some?
    case InVars(_) => s.inVars.Some?
    case InBindings(_) => s.inBindings.Some?
    case LimitTo(_) => s.limit.Some?
    case OffsetBy(_) => s.offset.Some?
    case WhereClauses(_) => s.whereClauses.Some?
    case OrderBy(_) => s.order.Some?
    case Distinct => false
    case Rules(_) => s.rules.Some?
  }

  function Fill(s: Slots, p: QueryPart): Slots {
    match p
    case FindSpec(x) => s.(findSpec := Some(x))
    case WithVars(x) => s.(with := Some(x))
    case InVars(x) => s.(inVars := Some(x))
    case InBindings(x) => s.(inBindings := Some(x))
    case LimitTo(x) => s.(limit := Some(x))
    case OffsetBy(x) => s.(offset := Some(x))
    case WhereClauses(x) => s.(whereClauses := Some(x))
    case OrderBy(x) => s.(order := Some(x))
    case Distinct => s.(distinct := true)
    case Rules(x) => s.(rules := Some(x))
  }

  function Repeated(p: QueryPart): string {
    "find query has repeated " + match p
    case FindSpec(_) => ":find"
    case WithVars(_) => ":with"
    case InVars(_) => ":in"
    case InBindings(_) => ":in"
    case LimitTo(_) => ":limit"
    case OffsetBy(_) => ":offset"
    case WhereClauses(_) => ":where"
    case OrderBy(_) => ":order"
    case Distinct => ":distinct"
    case Rules(_) => ":rules"
  }

  function Scan(parts: seq<QueryPart>): Result<Slots> {
    if parts == [] then Ok(NOTHING)
    else
      var p := parts[|parts| - 1];
      match Scan(parts[..|parts| - 1])
      case Err(e) => Err(e)
      case Ok(s) => if Taken(s, p) then Err(Repeated(p)) else Ok(Fill(s, p))
  }

  function Or<T>(o: Option<T>, default: T): T {
    if o.Some? then o.value else default
  }

  function Scalars(bs: seq<Binding>): seq<Form> {
    if bs == [] then [] else (if bs[0].BindScalar? then [bs[0].name] else []) + Scalars(bs[1..])
  }

  function Finish(s: Slots): Result<ParsedQuery> {
    if s.findSpec.None? then Err("expected :find")
    else if s.whereClauses.None? then Err("expected :where")
    else
      var bindings := Or(s.inBindings, []);
      Ok(ParsedQuery(s.findSpec.value, Or(s.with, []), Or(s.inVars, Scalars(bindings)), bindings,
                     Or(s.limit, Unlimited), Or(s.offset, Unlimited), s.whereClauses.value, s.order, s.distinct,
                     Or(s.rules, [])))
  }

  function Assembled(parts: seq<QueryPart>): Result<ParsedQuery> {
    match Scan(parts)
    case Err(e) => Err(e)
    case Ok(s) => Finish(s)
  }

  /** `ParsedQuery::from_parts` */
  method FromParts(parts: seq<QueryPart>) returns (r: Result<ParsedQuery>)
    ensures r == Assembled(parts)
    ensures r.Ok? <==> WellAssorted(parts)
    ensures r.Ok? ==> HoldsParts(r.value, parts)
  {
    AcceptedExactly(parts);
    if Assembled(parts).Ok? {
      QueryHoldsParts(parts);
    }
    var findSpec: Option<Form>, with: Option<seq<Form>>, inVars: Option<seq<Form>> := None, None, None;
    var inBindings: Option<seq<Binding>>, limit: Option<Limit>, offset: Option<Limit> := None, None, None;
    var whereClauses: Option<seq<Form>>, order: Option<seq<Form>>, rules: Option<seq<Form>> := None, None, None;
    var distinct := false;
    for i := 0 to |parts|
      invariant Scan(parts[..i])
             == Ok(Slots(findSpec, with, inVars, inBindings, limit, offset, whereClauses, order, distinct, rules))
    {
      var p := parts[i];
      ghost var s := Slots(findSpec, with, inVars, inBindings, limit, offset, whereClauses, order, distinct, rules);
      ScanNext(parts, i);
      if Taken(s, p) {
        RepeatFound(parts, i);
      }
      match p {
        case FindSpec(x) =>
          if findSpec.Some? {
            return Err("find query has repeated :find");
          }
          findSpec := Some(x);
        case WithVars(x) =>
          if with.Some? {
            return Err("find query has repeated :with");
          }
          with := Some(x);
        case InVars(x) =>
          if inVars.Some? {
            return Err("find query has repeated :in");
          }
          inVars := Some(x);
        case InBindings(x) =>
          if inBindings.Some? {
            return Err("find query has repeated :in");
          }
          inBindings := Some(x);
        case LimitTo(x) =>
          if limit.Some? {
            return Err("find query has repeated :limit");
          }
          limit := Some(x);
        case OffsetBy(x) =>
          if offset.Some? {
            return Err("find query has repeated :offset");
          }
          offset := Some(x);
        case WhereClauses(x) =>
          if whereClauses.Some? {
            return Err("find query has repeated :where");
          }
          whereClauses := Some(x);
        case OrderBy(x) =>
          if order.Some? {
            return Err("find query has repeated :order");
          }
          order := Some(x);
        case Distinct =>
          distinct := true;
        case Rules(x) =>
          if rules.Some? {
            return Err("find query has repeated :rules");
          }
          rules := Some(x);
      }
    }
    assert parts[..|parts|] == parts;
    return Finish(Slots(findSpec, with, inVars, inBindings, limit, offset, whereClauses, order, distinct, rules));
  }

  lemma ScanNext(parts: seq<QueryPart>, i: nat)
    requires i < |parts| && Scan(parts[..i]).Ok?
    ensures var s := Scan(parts[..i]).value;
            Scan(parts[..i + 1]) == if Taken(s, parts[i]) then Err(Repeated(parts[i])) else Ok(Fill(s, parts[i]))
  {
    assert parts[..i + 1][..i] == parts[..i];
  }

  lemma RepeatFound(parts: seq<QueryPart>, i: nat)
    requires i < |parts| && Scan(parts[..i]).Ok? && Taken(Scan(parts[..i]).value, parts[i])
    ensures Assembled(parts) == Err(Repeated(parts[i]))
  {
    ScanNext(parts, i);
    ErrorStays(parts, i + 1);
  }

  lemma {:induction false} ErrorStays(parts: seq<QueryPart>, i: nat)
    requires i <= |parts| && Scan(parts[..i]).Err?
    ensures Scan(parts) == Scan(parts[..i])
  {
    if i < |parts| {
      var before := parts[..|parts| - 1];
      assert before[..i] == parts[..i];
      ErrorStays(before, i);
    } else {
      assert parts[..i] == parts;
    }
  }

  // ---- Acceptance ----

  datatype Kind = Find | With | InV | InB | Lim | Off | Where | Ord | Dist | Rule

  function KindOf(p: QueryPart): Kind {
    match p
    case FindSpec(_) => Find
    case WithVars(_) => With
    case InVars(_) => InV
    case InBindings(_) => InB
    case LimitTo(_) => Lim
    case OffsetBy(_) => Off
    case WhereClauses(_) => Where
    case OrderBy(_) => Ord
    case Distinct => Dist
    case Rules(_) => Rule
  }

  function Count(parts: seq<QueryPart>, k: Kind): nat {
    if parts == [] then 0
    else Count(parts[..|parts| - 1], k) + if KindOf(parts[|parts| - 1]) == k then 1 else 0
  }

  ghost predicate NoneRepeated(parts: seq<QueryPart>) {
    forall k :: k != Dist ==> Count(parts, k) <= 1
  }

  /** `:find` and `:where` once, every other kind except `:distinct` at most once. */
  ghost predicate WellAssorted(parts: seq<QueryPart>) {
    Count(parts, Find) == 1 && Count(parts, Where) == 1 && NoneRepeated(parts)
  }

  /** The part that filled a slot. */
  function PartIn(s: Slots, k: Kind): Option<QueryPart> {
    match k
    case Find => if s.findSpec.Some? then Some(FindSpec(s.findSpec.value)) else None
    case With => if s.with.Some? then Some(WithVars(s.with.value)) else None
    case InV => if s.inVars.Some? then Some(InVars(s.inVars.value)) else None
    case InB => if s.inBindings.Some? then Some(InBindings(s.inBindings.value)) else None
    case Lim => if s.limit.Some? then Some(LimitTo(s.limit.value)) else None
    case Off => if s.offset.Some? then Some(OffsetBy(s.offset.value)) else None
    case Where => if s.whereClauses.Some? then Some(WhereClauses(s.whereClauses.value)) else None
    case Ord => if s.order.Some? then Some(OrderBy(s.order.value)) else None
    case Dist => if s.distinct then Some(Distinct) else None
    case Rule => if s.rules.Some? then Some(Rules(s.rules.value)) else None
  }

  lemma FillSlot(s: Slots, p: QueryPart, k: Kind)
    ensures PartIn(Fill(s, p), k) == if k == KindOf(p) then Some(p) else PartIn(s, k)
    ensures Taken(s, p) <==> KindOf(p) != Dist && PartIn(s, KindOf(p)).Some?
  {
  }

  lemma SlotsByParts(s: Slots, t: Slots)
    requires forall k :: PartIn(s, k) == PartIn(t, k)
    ensures s == t
  {
    assert PartIn(s, Find) == PartIn(t, Find) && PartIn(s, With) == PartIn(t, With);
    assert PartIn(s, InV) == PartIn(t, InV) && PartIn(s, InB) == PartIn(t, InB);
    assert PartIn(s, Lim) == PartIn(t, Lim) && PartIn(s, Off) == PartIn(t, Off);
    assert PartIn(s, Where) == PartIn(t, Where) && PartIn(s, Ord) == PartIn(t, Ord);
    assert PartIn(s, Dist) == PartIn(t, Dist) && PartIn(s, Rule) == PartIn(t, Rule);
  }

  /** The scan succeeds exactly if nothing is repeated, and then its slots hold exactly the parts. */
  lemma {:induction false} ScanExactly(parts: seq<QueryPart>)
    ensures Scan(parts).Ok? <==> NoneRepeated(parts)
    ensures Scan(parts).Ok? ==> forall k :: SlotCorrect(Scan(parts).value, parts, k)
  {
    if parts != [] {
      var n := |parts| - 1;
      var before, p := parts[..n], parts[n];
      ScanExactly(before);
      if Scan(before).Ok? {
        var s := Scan(before).value;
        assert SlotCorrect(s, before, KindOf(p));
        FillSlot(s, p, KindOf(p));
        if Taken(s, p) {
          assert Count(parts, KindOf(p)) == 2;
        } else {
          forall k ensures SlotCorrect(Fill(s, p), parts, k) && (k != Dist ==> Count(parts, k) <= 1) {
            FillSlot(s, p, k);
            SlotStep(s, before, p, parts, k);
          }
        }
      } else {
        var k :| k != Dist && Count(before, k) > 1;
        assert Count(parts, k) > 1;
      }
    }
  }

  /** The slot of kind `k` is filled exactly if such a part occurs, and with one that occurs. */
  ghost predicate SlotCorrect(s: Slots, parts: seq<QueryPart>, k: Kind) {
    && (PartIn(s, k).Some? <==> Count(parts, k) > 0)
    && (forall p :: p in parts && KindOf(p) == k ==> PartIn(s, k) == Some(p))
  }

  lemma SlotStep(s: Slots, before: seq<QueryPart>, p: QueryPart, parts: seq<QueryPart>, k: Kind)
    requires parts == before + [p] && !Taken(s, p) && SlotCorrect(s, before, k)
    requires k != Dist ==> Count(before, k) <= 1
    ensures SlotCorrect(Fill(s, p), parts, k) && (k != Dist ==> Count(parts, k) <= 1)
  {
    assert parts[..|parts| - 1] == before;
    FillSlot(s, p, k);
    forall q | q in parts && KindOf(q) == k ensures PartIn(Fill(s, p), k) == Some(q) {
      if q != p {
        assert q in before;
      }
    }
  }

  lemma AcceptedExactly(parts: seq<QueryPart>)
    ensures Assembled(parts).Ok? <==> WellAssorted(parts)
  {
    ScanExactly(parts);
    if Scan(parts).Ok? {
      assert SlotCorrect(Scan(parts).value, parts, Find) && SlotCorrect(Scan(parts).value, parts, Where);
    }
  }

  // ---- Contents ----

  ghost predicate NoneOf(parts: seq<QueryPart>, k: Kind) {
    forall p :: p in parts ==> KindOf(p) != k
  }

  /** Every field of the query is what the part of its kind holds, or the default of the kind. */
  ghost predicate HoldsParts(q: ParsedQuery, parts: seq<QueryPart>) {
    && FindSpec(q.findSpec) in parts && WhereClauses(q.whereClauses) in parts
    && (forall x :: WithVars(x) in parts ==> q.with == x) && (NoneOf(parts, With) ==> q.with == [])
    && (forall x :: InBindings(x) in parts ==> q.inBindings == x) && (NoneOf(parts, InB) ==> q.inBindings == [])
    && (forall x :: InVars(x) in parts ==> q.inVars == x) && (NoneOf(parts, InV) ==> q.inVars == Scalars(q.inBindings))
    && (forall x :: LimitTo(x) in parts ==> q.limit == x) && (NoneOf(parts, Lim) ==> q.limit == Unlimited)
    && (forall x :: OffsetBy(x) in parts ==> q.offset == x) && (NoneOf(parts, Off) ==> q.offset == Unlimited)
    && (forall x :: Rules(x) in parts ==> q.rules == x) && (NoneOf(parts, Rule) ==> q.rules == [])
    && (forall x :: OrderBy(x) in parts <==> q.order == Some(x))
    && (q.distinct <==> Distinct in parts)
  }

  /** The scalar bindings, in their order. */
  lemma {:induction false} ScalarsInOrder(a: seq<Binding>, b: seq<Binding>, name: Form, form: Form)
    ensures Scalars(a + b) == Scalars(a) + Scalars(b)
    ensures Scalars([BindScalar(name)]) == [name] && Scalars([OtherBinding(form)]) == []
  {
    if a == [] {
      assert a + b == b;
    } else {
      ScalarsInOrder(a[1..], b, name, form);
      assert (a + b)[1..] == a[1..] + b;
    }
  }

  /** A slot that is filled holds a part that occurs. */
  lemma SlotOccurs(s: Slots, parts: seq<QueryPart>, k: Kind)
    requires SlotCorrect(s, parts, k)
    ensures PartIn(s, k).Some? ==> PartIn(s, k).value in parts
    ensures PartIn(s, k).None? ==> forall p :: p in parts ==> KindOf(p) != k
  {
    if PartIn(s, k).Some? {
      SomeOfKind(parts, k);
    }
  }

  lemma QueryHoldsParts(parts: seq<QueryPart>)
    requires Assembled(parts).Ok?
    ensures HoldsParts(Assembled(parts).value, parts)
  {
    ScanExactly(parts);
    var s := Scan(parts).value;
    assert forall k :: SlotCorrect(s, parts, k);
    SlotOccurs(s, parts, Find);
    SlotOccurs(s, parts, Where);
    VariablesHeld(s, parts);
    LimitsHeld(s, parts);
    OrderAndDistinct(s, parts);
  }

  lemma VariablesHeld(s: Slots, parts: seq<QueryPart>)
    requires SlotCorrect(s, parts, With) && SlotCorrect(s, parts, InV) && SlotCorrect(s, parts, InB)
    ensures (forall x :: WithVars(x) in parts ==> s.with == Some(x)) && (NoneOf(parts, With) ==> s.with.None?)
    ensures (forall x :: InVars(x) in parts ==> s.inVars == Some(x)) && (NoneOf(parts, InV) ==> s.inVars.None?)
    ensures forall x :: InBindings(x) in parts ==> s.inBindings == Some(x)
    ensures NoneOf(parts, InB) ==> s.inBindings.None?
  {
    SlotOccurs(s, parts, With);
    SlotOccurs(s, parts, InV);
    SlotOccurs(s, parts, InB);
    forall x | WithVars(x) in parts ensures s.with == Some(x) {
      assert KindOf(WithVars(x)) == With;
    }
    forall x | InVars(x) in parts ensures s.inVars == Some(x) {
      assert KindOf(InVars(x)) == InV;
    }
    forall x | InBindings(x) in parts ensures s.inBindings == Some(x) {
      assert KindOf(InBindings(x)) == InB;
    }
  }

  lemma LimitsHeld(s: Slots, parts: seq<QueryPart>)
    requires SlotCorrect(s, parts, Lim) && SlotCorrect(s, parts, Off) && SlotCorrect(s, parts, Rule)
    ensures (forall x :: LimitTo(x) in parts ==> s.limit == Some(x)) && (NoneOf(parts, Lim) ==> s.limit.None?)
    ensures (forall x :: OffsetBy(x) in parts ==> s.offset == Some(x)) && (NoneOf(parts, Off) ==> s.offset.None?)
    ensures (forall x :: Rules(x) in parts ==> s.rules == Some(x)) && (NoneOf(parts, Rule) ==> s.rules.None?)
  {
    SlotOccurs(s, parts, Lim);
    SlotOccurs(s, parts, Off);
    SlotOccurs(s, parts, Rule);
    forall x | LimitTo(x) in parts ensures s.limit == Some(x) {
      assert KindOf(LimitTo(x)) == Lim;
    }
    forall x | OffsetBy(x) in parts ensures s.offset == Some(x) {
      assert KindOf(OffsetBy(x)) == Off;
    }
    forall x | Rules(x) in parts ensures s.rules == Some(x) {
      assert KindOf(Rules(x)) == Rule;
    }
  }

  lemma OrderAndDistinct(s: Slots, parts: seq<QueryPart>)
    requires SlotCorrect(s, parts, Ord) && SlotCorrect(s, parts, Dist)
    ensures forall x :: OrderBy(x) in parts <==> s.order == Some(x)
    ensures s.distinct <==> Distinct in parts
  {
    SlotOccurs(s, parts, Ord);
    SlotOccurs(s, parts, Dist);
    forall x ensures OrderBy(x) in parts <==> s.order == Some(x) {
      assert KindOf(OrderBy(x)) == Ord;
    }
    assert KindOf(Distinct) == Dist;
  }

  // ---- Errors ----

  /** The keyword that introduces a part. */
  const KEYWORDS: map<Kind, string> := map[
    Find := ":find", With := ":with", InV := ":in", InB := ":in", Lim := ":limit", Off := ":offset",
    Where := ":where", Ord := ":order", Rule := ":rules"]

  /** A part of this kind stands before place `i`, and may stand once only. */
  ghost predicate RepeatsAt(parts: seq<QueryPart>, i: nat) {
    i < |parts| && KindOf(parts[i]) != Dist && exists j :: 0 <= j < i && KindOf(parts[j]) == KindOf(parts[i])
  }

  lemma {:induction false} CountedOnce(parts: seq<QueryPart>, k: Kind)
    requires k != Dist && forall j :: 0 <= j < |parts| ==> !RepeatsAt(parts, j)
    ensures Count(parts, k) <= 1
  {
    if parts != [] {
      var n := |parts| - 1;
      var before := parts[..n];
      forall j | 0 <= j < n ensures !RepeatsAt(before, j) {
        assert !RepeatsAt(parts, j);
      }
      CountedOnce(before, k);
      if KindOf(parts[n]) == k && Count(before, k) > 0 {
        SomeOfKind(before, k);
        var p :| p in before && KindOf(p) == k;
        var j :| 0 <= j < n && before[j] == p;
        assert RepeatsAt(parts, n);
      }
    }
  }

  /** The first repeated part is reported; without one, a missing `:find`, then a missing `:where`. */
  lemma ErrorsInOrder(parts: seq<QueryPart>, i: nat)
    requires forall j :: 0 <= j < i ==> !RepeatsAt(parts, j)
    ensures RepeatsAt(parts, i) ==>
              Assembled(parts) == Err("find query has repeated " + KEYWORDS[KindOf(parts[i])])
    ensures i >= |parts| && NoneOf(parts, Find) ==> Assembled(parts) == Err("expected :find")
    ensures i >= |parts| && !NoneOf(parts, Find) && NoneOf(parts, Where) ==> Assembled(parts) == Err("expected :where")
  {
    if RepeatsAt(parts, i) {
      FirstRepeat(parts, i);
      RepeatFound(parts, i);
    } else if i >= |parts| {
      forall k | k != Dist ensures Count(parts, k) <= 1 {
        CountedOnce(parts, k);
      }
      ScanExactly(parts);
      var s := Scan(parts).value;
      assert SlotCorrect(s, parts, Find) && SlotCorrect(s, parts, Where);
      SlotOccurs(s, parts, Find);
      SlotOccurs(s, parts, Where);
    }
  }

  lemma FirstRepeat(parts: seq<QueryPart>, i: nat)
    requires RepeatsAt(parts, i) && forall j :: 0 <= j < i ==> !RepeatsAt(parts, j)
    ensures Scan(parts[..i]).Ok? && Taken(Scan(parts[..i]).value, parts[i])
  {
    var before, k := parts[..i], KindOf(parts[i]);
    forall j | 0 <= j < i ensures !RepeatsAt(before, j) {
      assert !RepeatsAt(parts, j);
    }
    forall l | l != Dist ensures Count(before, l) <= 1 {
      CountedOnce(before, l);
    }
    ScanExactly(before);
    var s := Scan(before).value;
    var j :| 0 <= j < i && KindOf(parts[j]) == k;
    assert before[j] in before && SlotCorrect(s, before, k);
    FillSlot(s, parts[i], k);
  }

  // ---- Order ----

  lemma {:induction false} CountWithout(parts: seq<QueryPart>, i: nat, k: Kind)
    requires i < |parts|
    ensures Count(parts, k) == Count(parts[..i] + parts[i + 1..], k) + if KindOf(parts[i]) == k then 1 else 0
  {
    var n := |parts| - 1;
    if i == n {
      assert parts[..i] + parts[i + 1..] == parts[..n];
    } else {
      CountWithout(parts[..n], i, k);
      var left := parts[..i] + parts[i + 1..];
      assert left[..|left| - 1] == parts[..n][..i] + parts[..n][i + 1..];
      assert left[|left| - 1] == parts[n];
    }
  }

  lemma LeftOver(parts: seq<QueryPart>, i: nat)
    requires i < |parts|
    ensures multiset(parts[..i] + parts[i + 1..]) == multiset(parts) - multiset{parts[i]}
  {
    assert parts == parts[..i] + [parts[i]] + parts[i + 1..];
  }

  lemma FindPart(parts: seq<QueryPart>, perm: seq<QueryPart>, n: nat) returns (i: nat)
    requires multiset(parts) == multiset(perm) && n < |parts|
    ensures i < |perm| && perm[i] == parts[n]
  {
    assert parts[n] in multiset(parts);
    i :| 0 <= i < |perm| && perm[i] == parts[n];
  }

  lemma {:induction false} CountPermuted(parts: seq<QueryPart>, perm: seq<QueryPart>, k: Kind)
    requires multiset(parts) == multiset(perm)
    ensures Count(parts, k) == Count(perm, k)
    decreases |parts|
  {
    if parts == [] {
      assert |perm| == |multiset(perm)| == 0;
    } else {
      var n := |parts| - 1;
      var i := FindPart(parts, perm, n);
      var left := perm[..i] + perm[i + 1..];
      LeftOver(perm, i);
      LeftOver(parts, n);
      assert parts[..n] + parts[n + 1..] == parts[..n];
      CountPermuted(parts[..n], left, k);
      CountWithout(perm, i, k);
    }
  }

  lemma SomeOfKind(parts: seq<QueryPart>, k: Kind)
    requires Count(parts, k) > 0
    ensures exists p :: p in parts && KindOf(p) == k
  {
    if KindOf(parts[|parts| - 1]) != k {
      SomeOfKind(parts[..|parts| - 1], k);
      var p :| p in parts[..|parts| - 1] && KindOf(p) == k;
      assert p in parts;
    }
  }

  lemma SameSlot(s: Slots, t: Slots, parts: seq<QueryPart>, perm: seq<QueryPart>, k: Kind)
    requires multiset(parts) == multiset(perm) && SlotCorrect(s, parts, k) && SlotCorrect(t, perm, k)
    ensures PartIn(s, k) == PartIn(t, k)
  {
    CountPermuted(parts, perm, k);
    if Count(parts, k) > 0 {
      SomeOfKind(parts, k);
      var p :| p in parts && KindOf(p) == k;
      assert p in multiset(parts);
    }
  }

  /** The order of the parts decides neither whether they are accepted nor the query they make. */
  lemma OrderIndependent(parts: seq<QueryPart>, perm: seq<QueryPart>)
    requires multiset(parts) == multiset(perm)
    ensures Assembled(parts).Ok? <==> Assembled(perm).Ok?
    ensures Assembled(parts).Ok? ==> Assembled(parts) == Assembled(perm)
  {
    AcceptedExactly(parts);
    AcceptedExactly(perm);
    forall k ensures Count(parts, k) == Count(perm, k) {
      CountPermuted(parts, perm, k);
    }
    ScanExactly(parts);
    ScanExactly(perm);
    if Scan(parts).Ok? {
      var s, t := Scan(parts).value, Scan(perm).value;
      forall k ensures PartIn(s, k) == PartIn(t, k) {
        assert SlotCorrect(s, parts, k) && SlotCorrect(t, perm, k);
        SameSlot(s, t, parts, perm, k);
      }
      SlotsByParts(s, t);
    }
  }

  /** The error message does depend on the order. */
  lemma MessageDependsOnOrder()
    ensures var f, l := FindSpec("?x"), LimitTo(Unlimited);
            && Assembled([f, f, l, l]) == Err("find query has repeated :find")
            && Assembled([l, l, f, f]) == Err("find query has repeated :limit")
  {
    var f, l := FindSpec("?x"), LimitTo(Unlimited);
    TwiceFirst(f, [l, l]);
    TwiceFirst(l, [f, f]);
    assert [f, f] + [l, l] == [f, f, l, l] && [l, l] + [f, f] == [l, l, f, f];
  }

  lemma TwiceFirst(p: QueryPart, rest: seq<QueryPart>)
    requires KindOf(p) != Dist
    ensures Assembled([p, p] + rest) == Err(Repeated(p))
  {
    var parts := [p, p] + rest;
    assert parts[..0] == [] && parts[..1] == [p] && parts[..2] == [p, p];
    ScanNext(parts, 0);
    FillSlot(NOTHING, p, KindOf(p));
    FillSlot(Fill(NOTHING, p), p, KindOf(p));
    ScanNext(parts, 1);
    ErrorStays(parts, 2);
  }
}
