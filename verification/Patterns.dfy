/** Query patterns and the rewriting of reversed attributes (edn/src/query.rs, edn/src/namespaceable_name.rs). */
module Patterns {
  import opened Prelude
  import opened Names

  /** Places of entity, attribute, transaction and the added flag. */
  datatype NonValuePlace = Placeholder | Variable(name: string) | Entid(id: I64) | Ident(ident: Name)

  /** `constant` stands for any constant that is neither an integer nor a keyword. */
  datatype ValuePlace =
    | AnyValue
    | ValueVariable(name: string)
    | EntidOrInteger(n: I64)
    | IdentOrKeyword(kw: Name)
    | Constant(constant: string)

  datatype Pattern = Pattern(
    source: Option<string>,
    entity: NonValuePlace,
    attribute: NonValuePlace,
    value: ValuePlace,
    tx: NonValuePlace,
    added: NonValuePlace
  )

  datatype Construction = Built(pattern: Pattern) | Rejected | Panicked

  function ToValuePlace(p: NonValuePlace): ValuePlace {
    match p
    case Placeholder => AnyValue
    case Variable(x) => ValueVariable(x)
    case Entid(x) => EntidOrInteger(x)
    case Ident(k) => IdentOrKeyword(k)
  }

  function ToNonValuePlace(p: ValuePlace): Option<NonValuePlace> {
    match p
    case AnyValue => Some(Placeholder)
    case ValueVariable(x) => Some(Variable(x))
    case EntidOrInteger(x) => if x >= 0 then Some(Entid(x)) else None
    case IdentOrKeyword(k) => Some(Ident(k))
    case Constant(_) => None
  }

  /** `Pattern::new` */
  function NewPattern(p: Pattern): Construction {
    if !(p.attribute.Ident? && IsBackward(p.attribute.ident)) then Built(p)
    else
      var e := ToNonValuePlace(p.value);
      if e.None? then Rejected
      else
        var a := ToReversed(p.attribute.ident);
        if a.None? then Panicked
        else Built(Pattern(p.source, e.value, Ident(a.value), ToValuePlace(p.entity), p.tx, p.added))
  }

  // ---- What a pattern denotes ----

  datatype TypedValue = Ref(id: I64) | Long(n: I64) | Kw(kw: Name) | Other(constant: string)

  datatype Datom = Datom(e: I64, a: I64, v: TypedValue, tx: I64, added: I64)

  /** What variables are bound to, and the entity each ident names. */
  datatype Env = Env(bound: string -> TypedValue, resolve: Name -> Option<I64>)

  predicate MatchesId(p: NonValuePlace, env: Env, id: I64) {
    match p
    case Placeholder => true
    case Variable(x) => env.bound(x) == Ref(id)
    case Entid(n) => n == id
    case Ident(k) => env.resolve(k) == Some(id)
  }

  predicate MatchesTyped(p: ValuePlace, env: Env, v: TypedValue) {
    match p
    case AnyValue => true
    case ValueVariable(x) => env.bound(x) == v
    case EntidOrInteger(n) => v == Ref(n) || v == Long(n)
    case IdentOrKeyword(k) => v == Kw(k) || (v.Ref? && env.resolve(k) == Some(v.id))
    case Constant(c) => v == Other(c)
  }

  /** A pattern read forwards. */
  predicate Matches(p: Pattern, env: Env, d: Datom) {
    && MatchesId(p.entity, env, d.e) && MatchesId(p.attribute, env, d.a) && MatchesTyped(p.value, env, d.v)
    && MatchesId(p.tx, env, d.tx) && MatchesId(p.added, env, d.added)
  }

  /**
   * A pattern whose attribute is the forward attribute `f` written backwards: the datom is read from its
   * value, which is a reference, to its entity.
   */
  predicate MatchesReversed(p: Pattern, f: Name, env: Env, d: Datom) {
    && d.v.Ref? && MatchesId(p.entity, env, d.v.id) && env.resolve(f) == Some(d.a)
    && MatchesTyped(p.value, env, Ref(d.e)) && MatchesId(p.tx, env, d.tx) && MatchesId(p.added, env, d.added)
  }

  /** `f` is a forward name and `k` is its reversed spelling. */
  predicate Spells(k: Name, f: Name) {
    !IsBackward(f) && IsBackward(k) && Namespace(k) == Namespace(f) && NameOf(k) == "_" + NameOf(f)
  }

  /** What the pattern denotes, in whichever direction its attribute is written. */
  ghost predicate Denotes(p: Pattern, env: Env, d: Datom) {
    if p.attribute.Ident? && IsBackward(p.attribute.ident)
    then exists f: Name :: Spells(p.attribute.ident, f) && MatchesReversed(p, f, env, d)
    else Matches(p, env, d)
  }

  ghost predicate UsesForwardAttribute(p: Pattern) {
    p.attribute.Ident? ==> !IsBackward(p.attribute.ident)
  }

  // ---- The places keep their meaning ----

  lemma PlaceInValue(p: NonValuePlace, env: Env, id: I64)
    ensures MatchesTyped(ToValuePlace(p), env, Ref(id)) <==> MatchesId(p, env, id)
  {
  }

  /** In the entity place, or nowhere: what is refused there matches no entity. */
  lemma PlaceInEntity(p: ValuePlace, env: Env, id: I64)
    requires id >= 0
    ensures MatchesTyped(p, env, Ref(id)) <==> ToNonValuePlace(p).Some? && MatchesId(ToNonValuePlace(p).value, env, id)
  {
  }

  // ---- Names ----

  /** A backward name spells a forward one exactly if it has one underscore and something after it. */
  lemma SpellsExactly(k: Name)
    requires IsBackward(k)
    ensures ProperlyDirected(k) <==> exists f: Name :: Spells(k, f)
    ensures forall f: Name :: Spells(k, f) ==> ToReversed(k) == Some(f) && ToReversed(f) == Some(k)
  {
    var rest := NameOf(k)[1..];
    PartsRoundTrip(Namespace(k), rest, k);
    assert NameOf(k) == "_" + rest;
    if ProperlyDirected(k) {
      assert Spells(k, New(Namespace(k), rest).value);
    }
    forall f: Name | Spells(k, f) ensures ToReversed(k) == Some(f) && ToReversed(f) == Some(k) {
      PartsRoundTrip(Namespace(k), rest, f);
      assert ("_" + NameOf(f))[1..] == NameOf(f);
    }
  }

  // ---- The rewriting ----

  /**
   * The whole of it for properly directed names: the datoms of a reference attribute are matched exactly as
   * denoted.
   */
  lemma NewPatternPreservesMeaning(p: Pattern, env: Env, d: Datom)
    requires p.attribute.Ident? ==> ProperlyDirected(p.attribute.ident)
    requires d.e >= 0
    ensures var r := NewPattern(p);
            match r
            case Built(q) =>
              && UsesForwardAttribute(q) && q.source == p.source
              && (Denotes(p, env, d) ==> Matches(q, env, d))
              && (d.v.Ref? ==> (Matches(q, env, d) <==> Denotes(p, env, d)))
            case Rejected => !Denotes(p, env, d)
            case Panicked => false
  {
    if p.attribute.Ident? && IsBackward(p.attribute.ident) {
      var k := p.attribute.ident;
      SpellsExactly(k);
      ReversedTwice(k);
      var f: Name :| Spells(k, f);
      PlaceInEntity(p.value, env, d.e);
      if d.v.Ref? {
        PlaceInValue(p.entity, env, d.v.id);
      }
      assert Denotes(p, env, d) <==> MatchesReversed(p, f, env, d);
    }
  }

  /** It is rejected exactly if the attribute is backward and the value place can be no entity. */
  lemma RejectedExactly(p: Pattern)
    ensures NewPattern(p).Rejected? <==>
              p.attribute.Ident? && IsBackward(p.attribute.ident)
              && (p.value.Constant? || (p.value.EntidOrInteger? && p.value.n < 0))
    ensures NewPattern(p).Panicked? <==>
              p.attribute.Ident? && NameOf(p.attribute.ident) == "_" && !NewPattern(p).Rejected?
  {
    if p.attribute.Ident? {
      ReversedTwice(p.attribute.ident);
    }
  }

  /** The rewritten pattern has a forward attribute exactly if the name was properly directed. */
  lemma ForwardExactly(p: Pattern)
    requires NewPattern(p).Built?
    ensures UsesForwardAttribute(NewPattern(p).pattern)
       <==> (p.attribute.Ident? ==> ProperlyDirected(p.attribute.ident))
  {
    if p.attribute.Ident? && IsBackward(p.attribute.ident) {
      var k := p.attribute.ident;
      PartsRoundTrip(Namespace(k), NameOf(k)[1..], k);
    }
  }

  /** A second construction changes nothing once the attribute is forward. */
  lemma NewPatternTwice(p: Pattern)
    requires NewPattern(p).Built? && (p.attribute.Ident? ==> ProperlyDirected(p.attribute.ident))
    ensures NewPattern(NewPattern(p).pattern) == NewPattern(p)
  {
    ForwardExactly(p);
  }

  // ---- Values that are no references ----

  /** The pattern is one that `Pattern::new` turns round. */
  ghost predicate TurnedRound(p: Pattern) {
    p.attribute.Ident? && IsBackward(p.attribute.ident) && ProperlyDirected(p.attribute.ident) && NewPattern(p).Built?
  }

  /** The entity place is a variable that stands in another place too. */
  predicate Pinned(p: Pattern) {
    p.entity.Variable? && (p.value == ValueVariable(p.entity.name) || p.tx == p.entity || p.added == p.entity)
  }

  /** Built and written pattern agree on a datom. */
  ghost predicate Agree(p: Pattern, env: Env, d: Datom) {
    NewPattern(p).Built? && (Matches(NewPattern(p).pattern, env, d) <==> Denotes(p, env, d))
  }

  /** The second occurrence makes the variable a reference. */
  lemma PinnedAgrees(p: Pattern, env: Env, d: Datom)
    requires TurnedRound(p) && Pinned(p) && d.e >= 0
    ensures Agree(p, env, d)
  {
    NewPatternPreservesMeaning(p, env, d);
    var q := NewPattern(p).pattern;
    if Matches(q, env, d) {
      assert env.bound(p.entity.name) == d.v && d.v.Ref?;
    }
  }

  /** A value that is no reference and fits the place once it stands in the value position. */
  function PlainFor(p: NonValuePlace): TypedValue {
    match p
    case Entid(n) => Long(n)
    case Ident(k) => Kw(k)
    case _ => Long(0)
  }

  function IdFor(p: NonValuePlace): I64 {
    if p.Entid? then p.id else 0
  }

  /** Without a second occurrence some plain value is matched by the built pattern only. */
  lemma UnpinnedMatchesPlainValue(p: Pattern) returns (env: Env, d: Datom)
    requires TurnedRound(p) && !Pinned(p)
    ensures d.e >= 0 && !d.v.Ref? && Matches(NewPattern(p).pattern, env, d) && !Denotes(p, env, d)
  {
    var q := NewPattern(p).pattern;
    var own := if p.entity.Variable? then Some(p.entity.name) else None;
    env := Env(x => if own == Some(x) then Long(0) else Ref(0), k => Some(0));
    d := Datom(IdFor(q.entity), 0, PlainFor(p.entity), IdFor(p.tx), IdFor(p.added));
  }

  /**
   * A pattern that is turned round matches what it denotes, on all datoms, exactly if its entity place is a variable
   * that stands in another place too; otherwise it also matches values that are no references.
   */
  lemma AgreesExactly(p: Pattern)
    requires TurnedRound(p)
    ensures Pinned(p) <==> forall env: Env, d: Datom :: d.e >= 0 ==> Agree(p, env, d)
  {
    if Pinned(p) {
      forall env: Env, d: Datom | d.e >= 0 ensures Agree(p, env, d) {
        PinnedAgrees(p, env, d);
      }
    } else {
      var env, d := UnpinnedMatchesPlainValue(p);
      assert !Agree(p, env, d);
    }
  }

  /** The pattern `[_ :_b _]`, spelled out. */
  lemma RewrittenMatchesPlainValues()
    ensures var p := Pattern(None, Placeholder, Ident(RawName("_b", 0)), AnyValue, Placeholder, Placeholder);
            exists env: Env, d: Datom :: d.e >= 0 && !Agree(p, env, d)
  {
    var p := Pattern(None, Placeholder, Ident(RawName("_b", 0)), AnyValue, Placeholder, Placeholder);
    assert "_b"[1..] == "b";
    AgreesExactly(p);
  }
}
