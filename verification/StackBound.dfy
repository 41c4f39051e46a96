/** What the flat scan says about the recursive grammar: it bounds the recursion exactly
    (edn/src/depth.rs against edn/src/lib.rs). */
module StackBound {
  import opened Lexical
  import opened Depth
  import opened Parser

  predicate Special(c: char) {
    IsOpen(c as int) || IsClose(c as int) || c == '"' || c == ';'
  }

  /** No character between `i` and `j` means anything to the scanner in code. */
  ghost predicate Unremarkable(s: string, i: nat, j: nat) {
    i <= j <= |s| && forall k :: i <= k < j ==> !Special(s[k])
  }

  /** Started in code before `i`, the scanner is in the same state before `j` and at the same depth in between. */
  ghost predicate Level(s: string, i: nat, j: nat) {
    && i <= j <= |s|
    && (At(s, i).lex.Code? ==>
          At(s, j) == At(s, i) && forall k :: i <= k <= j ==> DepthAt(s, k) == DepthAt(s, i))
  }

  lemma {:induction false} UnremarkableLevel(s: string, i: nat, j: nat)
    requires Unremarkable(s, i, j)
    ensures Level(s, i, j)
  {
    if i < j && At(s, i).lex.Code? {
      UnremarkableLevel(s, i, j - 1);
      assert !Special(s[j - 1]);
      NextState(s, j - 1);
    }
  }

  lemma LevelTrans(s: string, i: nat, m: nat, j: nat)
    requires Level(s, i, m) && Level(s, m, j)
    ensures Level(s, i, j)
  {
  }

  /** A string literal of ordinary characters between two quotes. */
  lemma {:induction false} InsideString(s: string, i: nat, j: nat)
    requires 0 < i <= j <= |s| && At(s, i).lex.Str?
    requires forall k :: i <= k < j ==> IsNormal(s[k])
    ensures forall k :: i <= k <= j ==> At(s, k) == At(s, i)
  {
    if i < j {
      InsideString(s, i, j - 1);
      NextState(s, j - 1);
    }
  }

  lemma QuotedLevel(s: string, i: nat, j: nat)
    requires i < j < |s| && s[i] == '"' && s[j] == '"'
    requires forall k :: i < k < j ==> IsNormal(s[k])
    ensures Level(s, i, j + 1)
  {
    if At(s, i).lex.Code? {
      NextState(s, i);
      InsideString(s, i + 1, j);
      NextState(s, j);
    }
  }

  /** A tag, blanks, and a quoted literal. */
  lemma TaggedLevel(s: string, i: nat, j: nat, e: nat)
    requires Unremarkable(s, i, j) && j < e < |s| && s[j] == '"' && s[e] == '"'
    requires forall k :: j < k < e ==> IsNormal(s[k])
    ensures Level(s, i, e + 1)
  {
    UnremarkableLevel(s, i, j);
    QuotedLevel(s, j, e);
    LevelTrans(s, i, j, e + 1);
  }

  // ---- Every lexical rule is level ----

  lemma LiteralUnremarkable(s: string, i: nat, lit: string)
    requires StartsWith(s, i, lit) && forall k :: 0 <= k < |lit| ==> !Special(lit[k])
    ensures Unremarkable(s, i, i + |lit|)
  {
    forall k | i <= k < i + |lit| ensures !Special(s[k]) {
      StartsWithAt(s, i, lit, k - i);
    }
  }

  lemma UnremarkableTrans(s: string, i: nat, m: nat, j: nat)
    requires Unremarkable(s, i, m) && Unremarkable(s, m, j)
    ensures Unremarkable(s, i, j)
  {
  }

  lemma TagUnremarkable(s: string, i: nat, tag: string)
    requires StartsWith(s, i, tag) && forall k :: 0 <= k < |tag| ==> !Special(tag[k])
    ensures var b := Blanks(s, i + |tag|); b.Some? ==> Unremarkable(s, i, b.value)
  {
    LiteralUnremarkable(s, i, tag);
    var b := Blanks(s, i + |tag|);
    if b.Some? {
      assert Unremarkable(s, i + |tag|, b.value);
      UnremarkableTrans(s, i, i + |tag|, b.value);
    }
  }

  lemma ConstantsLevel(s: string, i: nat)
    requires i <= |s|
    ensures NilRule(s, i).Match? ==> Unremarkable(s, i, NilRule(s, i).next)
    ensures BooleanRule(s, i).Match? ==> Unremarkable(s, i, BooleanRule(s, i).next)
  {
    if StartsWith(s, i, "nil") { LiteralUnremarkable(s, i, "nil"); }
    if StartsWith(s, i, "true") { LiteralUnremarkable(s, i, "true"); }
    if StartsWith(s, i, "false") { LiteralUnremarkable(s, i, "false"); }
  }

  lemma NanLevel(s: string, i: nat)
    requires i <= |s|
    ensures NanRule(s, i).Match? ==> Unremarkable(s, i, NanRule(s, i).next)
  {
    if NanRule(s, i).Match? {
      TagUnremarkable(s, i, "#f");
      var j := Blanks(s, i + 2).value;
      LiteralUnremarkable(s, j, "NaN");
      UnremarkableTrans(s, i, j, j + 3);
    }
  }

  lemma InfinityLevel(s: string, i: nat)
    requires i <= |s|
    ensures InfinityRule(s, i).Match? ==> Unremarkable(s, i, InfinityRule(s, i).next)
  {
    if InfinityRule(s, i).Match? {
      TagUnremarkable(s, i, "#f");
      var j := Blanks(s, i + 2).value;
      LiteralUnremarkable(s, j + 1, "Infinity");
      UnremarkableTrans(s, i, j, j + 9);
    }
  }

  lemma SignedDigitsUnremarkable(s: string, i: nat)
    requires i <= |s|
    ensures SignedDigits(s, i).Some? ==> Unremarkable(s, i, SignedDigits(s, i).value)
  {
  }

  lemma NumberLevel(h: Host, s: string, i: nat)
    requires i <= |s|
    ensures NumberRule(h, s, i).Match? ==> Unremarkable(s, i, NumberRule(h, s, i).next)
  {
    SignedDigitsUnremarkable(s, i);
    RadixRulesLevel(s, i);
    if SignedDigits(s, i).Some? {
      FloatTailUnremarkable(s, SignedDigits(s, i).value);
    }
  }

  lemma RadixRulesLevel(s: string, i: nat)
    requires i <= |s|
    ensures BasedRule(s, i).Match? ==> Unremarkable(s, i, BasedRule(s, i).next)
    ensures HexRule(s, i).Match? ==> Unremarkable(s, i, HexRule(s, i).next)
    ensures OctalRule(s, i).Match? ==> Unremarkable(s, i, OctalRule(s, i).next)
  {
    if StartsWith(s, i, "0x") { LiteralUnremarkable(s, i, "0x"); }
  }

  lemma FloatTailUnremarkable(s: string, i: nat)
    requires i <= |s|
    ensures Unremarkable(s, i, FractionEnd(s, i))
    ensures Unremarkable(s, i, ExponentEnd(s, FractionEnd(s, i)))
  {
    var f := FractionEnd(s, i);
    if f < |s| {
      SignedDigitsUnremarkable(s, f + 1);
    }
  }

  lemma {:induction false} FitsNormal(s: string, i: nat, template: string)
    requires Fits(s, i, template)
    ensures forall k :: i <= k < i + |template| ==> IsNormal(s[k])
    decreases |template|
  {
    if template != "" {
      FitsNormal(s, i + 1, template[1..]);
    }
  }

  lemma TimestampNormal(s: string, i: nat)
    requires i <= |s| && TimestampEnd(s, i).Some?
    ensures forall k :: i <= k < TimestampEnd(s, i).value ==> IsNormal(s[k])
  {
    FitsNormal(s, i, DATE_TIME);
    var f := FractionEnd(s, i + 19);
    assert forall k :: i + 19 <= k < f ==> IsNormal(s[k]);
    if s[f] != 'Z' {
      FitsNormal(s, f + 1, ZONE);
    }
  }

  lemma InstStringLevel(h: Host, s: string, i: nat)
    requires i <= |s|
    ensures InstStringRule(h, s, i).Match? ==> Level(s, i, InstStringRule(h, s, i).next)
  {
    if InstStringRule(h, s, i).Match? {
      var j := Blanks(s, i + 5).value;
      var e := QuotedTimestamp(s, j).value;
      TagUnremarkable(s, i, "#inst");
      TimestampNormal(s, j + 1);
      TaggedLevel(s, i, j, e);
    }
  }

  lemma InstTicksLevel(h: Host, s: string, i: nat, tag: string, unit: nat, nanos: nat)
    requires i <= |s| && tag != "" && unit > 0 && forall k :: 0 <= k < |tag| ==> !Special(tag[k])
    ensures var r := InstTicksRule(h, s, i, tag, unit, nanos); r.Match? ==> Unremarkable(s, i, r.next)
  {
    if StartsWith(s, i, tag) { TagUnremarkable(s, i, tag); }
  }

  lemma InstLevel(h: Host, s: string, i: nat)
    requires i <= |s|
    ensures InstRule(h, s, i).Match? ==> Level(s, i, InstRule(h, s, i).next)
  {
    InstTicksLevel(h, s, i, "#instmillis", 1000, 1_000_000);
    InstTicksLevel(h, s, i, "#instmicros", 1_000_000, 1000);
    InstStringLevel(h, s, i);
    var r := InstRule(h, s, i);
    if r.Match? && Unremarkable(s, i, r.next) {
      UnremarkableLevel(s, i, r.next);
    }
  }

  lemma UuidLevel(s: string, i: nat)
    requires i <= |s|
    ensures UuidRule(s, i).Match? ==> Level(s, i, UuidRule(s, i).next)
  {
    if UuidRule(s, i).Match? {
      var j := Blanks(s, i + 5).value;
      TagUnremarkable(s, i, "#uuid");
      FitsNormal(s, j + 1, UUID);
      TaggedLevel(s, i, j, j + 37);
    }
  }

  lemma BytesLevel(s: string, i: nat)
    requires i <= |s|
    ensures BytesRule(s, i).Match? ==> Unremarkable(s, i, BytesRule(s, i).next)
  {
    if StartsWith(s, i, "#bytes") { TagUnremarkable(s, i, "#bytes"); }
  }

  /** The items of a string literal keep the scanner inside the string. */
  lemma {:induction false} TextItemsInside(s: string, i: nat)
    requires 0 < i <= |s| && At(s, i).lex.Str?
    ensures var j := TextItems(s, i).1;
            At(s, j) == At(s, i) && forall k :: i <= k <= j ==> DepthAt(s, k) == DepthAt(s, i)
    decreases |s| - i
  {
    if SpecialChar(s, i).Some? {
      NextState(s, i);
      NextState(s, i + 1);
      TextItemsInside(s, i + 2);
    } else {
      var e := Run(s, i, IsNormal);
      InsideString(s, i, e);
      if e > i {
        TextItemsInside(s, e);
      }
    }
  }

  lemma TextLevel(s: string, i: nat)
    requires i <= |s|
    ensures TextRule(s, i).Match? ==> Level(s, i, TextRule(s, i).next)
  {
    if TextRule(s, i).Match? && At(s, i).lex.Code? {
      NextState(s, i);
      TextItemsInside(s, i + 1);
      NextState(s, TextItems(s, i + 1).1);
    }
  }

  lemma {:induction false} DottedUnremarkable(s: string, i: nat)
    requires i <= |s|
    ensures Unremarkable(s, i, DottedEnd(s, i))
    decreases |s| - i
  {
    if i < |s| && s[i] == '.' && Run(s, i + 1, IsSubsequent) > i + 1 {
      DottedUnremarkable(s, Run(s, i + 1, IsSubsequent));
    }
  }

  lemma QualifierUnremarkable(s: string, i: nat)
    requires i <= |s|
    ensures QualifierEnd(s, i).Some? ==> Unremarkable(s, i, QualifierEnd(s, i).value + 1)
  {
    if i < |s| {
      DottedUnremarkable(s, Run(s, i + 1, IsSubsequent));
    }
  }

  lemma NameUnremarkable(s: string, i: nat)
    requires i <= |s|
    ensures NameEnd(s, i).Some? ==> Unremarkable(s, i, NameEnd(s, i).value)
    ensures PlainNameEnd(s, i).Some? ==> Unremarkable(s, i, PlainNameEnd(s, i).value)
  {
    if StartsWith(s, i, "...") { LiteralUnremarkable(s, i, "..."); }
    if StartsWith(s, i, ".") { LiteralUnremarkable(s, i, "."); }
  }

  lemma SymbolLevel(s: string, i: nat)
    requires i <= |s|
    ensures SymbolRule(s, i).Match? ==> Unremarkable(s, i, SymbolRule(s, i).next)
  {
    var q := QualifierEnd(s, i);
    if q.Some? {
      QualifierUnremarkable(s, i);
      QualifiedUnremarkable(s, i, q.value);
    } else {
      NameUnremarkable(s, i);
    }
  }

  lemma QualifiedUnremarkable(s: string, i: nat, e: nat)
    requires i < e < |s| && Unremarkable(s, i, e + 1)
    ensures QualifiedSymbol(s, i, e).Match? ==> Unremarkable(s, i, QualifiedSymbol(s, i, e).next)
    ensures QualifiedKeyword(s, i, e).Match? ==> Unremarkable(s, i, QualifiedKeyword(s, i, e).next)
  {
    NameUnremarkable(s, e + 1);
  }

  lemma KeywordLevel(s: string, i: nat)
    requires i <= |s|
    ensures KeywordRule(s, i).Match? ==> Unremarkable(s, i, KeywordRule(s, i).next)
  {
    if i < |s| && s[i] == ':' {
      assert Unremarkable(s, i, i + 1);
      var q := QualifierEnd(s, i + 1);
      if q.Some? {
        QualifierUnremarkable(s, i + 1);
        UnremarkableTrans(s, i, i + 1, q.value + 1);
        QualifiedUnremarkable(s, i + 1, q.value);
      } else {
        NameUnremarkable(s, i + 1);
      }
    }
  }

  lemma LiteralLevel(h: Host, s: string, i: nat)
    requires i <= |s|
    ensures LiteralRule(h, s, i).Match? ==> Level(s, i, LiteralRule(h, s, i).next)
  {
    ConstantsLevel(s, i);
    NanLevel(s, i);
    InfinityLevel(s, i);
    NumberLevel(h, s, i);
    InstLevel(h, s, i);
    UuidLevel(s, i);
    BytesLevel(s, i);
    TextLevel(s, i);
    var r := LiteralRule(h, s, i);
    if r.Match? && Unremarkable(s, i, r.next) {
      UnremarkableLevel(s, i, r.next);
    }
  }

  lemma AtomLevel(h: Host, s: string, i: nat)
    requires i <= |s|
    ensures AtomRule(h, s, i).Match? ==> Level(s, i, AtomRule(h, s, i).next)
  {
    LiteralLevel(h, s, i);
    SymbolLevel(s, i);
    KeywordLevel(s, i);
    var r := AtomRule(h, s, i);
    if r.Match? && Unremarkable(s, i, r.next) {
      UnremarkableLevel(s, i, r.next);
    }
  }

  // ---- Blanks and comments ----

  /** The scanner is in code, or the input is used up (perhaps inside a last comment). */
  ghost predicate Ready(s: string, i: nat) {
    i <= |s| && (At(s, i).lex.Code? || i == |s|)
  }

  /** From `i` to `j` the depth never exceeds its value at `i` by more than `stack`, and is back at `j`. */
  ghost predicate Within(s: string, i: nat, j: nat, stack: nat) {
    && i <= j <= |s|
    && DepthAt(s, j) == DepthAt(s, i)
    && forall k :: i <= k <= j ==> DepthAt(s, k) <= DepthAt(s, i) + stack
  }

  lemma {:induction false} CommentInside(s: string, i: nat, j: nat)
    requires 0 < i <= j <= |s| && At(s, i).lex.Comment? && forall k :: i <= k < j ==> NotEol(s[k])
    ensures forall k :: i <= k <= j ==> At(s, k) == At(s, i)
  {
    if i < j {
      CommentInside(s, i, j - 1);
      NextState(s, j - 1);
    }
  }

  lemma CommentLevel(s: string, i: nat)
    requires i < |s| && s[i] == ';' && At(s, i).lex.Code?
    ensures Ready(s, CommentEnd(s, i)) && Within(s, i, CommentEnd(s, i), 0)
  {
    var e := Run(s, i + 1, NotEol);
    NextState(s, i);
    CommentInside(s, i + 1, e);
    if e < |s| {
      NextState(s, e);
    }
  }

  lemma WithinTrans(s: string, i: nat, m: nat, j: nat, stack: nat)
    requires Within(s, i, m, stack) && Within(s, m, j, stack)
    ensures Within(s, i, j, stack)
  {
  }

  lemma {:induction false} SkipLevel(s: string, i: nat)
    requires Ready(s, i)
    ensures Ready(s, Skip(s, i)) && Within(s, i, Skip(s, i), 0)
    decreases |s| - i
  {
    if i < |s| && IsBlank(s[i]) {
      NextState(s, i);
      SkipLevel(s, i + 1);
      WithinTrans(s, i, i + 1, Skip(s, i), 0);
    } else if i < |s| && s[i] == ';' {
      CommentLevel(s, i);
      SkipLevel(s, CommentEnd(s, i));
      WithinTrans(s, i, CommentEnd(s, i), Skip(s, i), 0);
    }
  }

  // ---- The recursive rules ----

  /** The scanner's account of one attempt of a rule at `i` with `stack` levels left. */
  ghost predicate Accounted<T>(s: string, i: nat, stack: nat, r: Outcome<T>)
    requires i <= |s|
  {
    && (r.Match? ==> Within(s, i, r.next, stack) && Ready(s, r.next))
    && (r.Overflow? ==> exists k :: i <= k <= |s| && DepthAt(s, k) > DepthAt(s, i) + stack)
  }

  lemma {:induction false} ValueAccounted(h: Host, s: string, i: nat, stack: nat)
    requires Ready(s, i)
    ensures Accounted(s, i, stack, ParseValue(h, s, i, stack))
    decreases |s| - i, 5
  {
    var start := Skip(s, i);
    SkipLevel(s, i);
    InnerAccounted(h, s, start, stack);
    var r := ParseInner(h, s, start, stack);
    if r.Match? {
      SkipLevel(s, r.next);
    }
  }

  lemma OrAccounted<T>(s: string, i: nat, stack: nat, a: Outcome<T>, b: Outcome<T>)
    requires i <= |s| && Accounted(s, i, stack, a) && Accounted(s, i, stack, b)
    ensures Accounted(s, i, stack, Or(a, b))
  {
  }

  lemma AtomAccounted(h: Host, s: string, i: nat, stack: nat)
    requires Ready(s, i)
    ensures Accounted(s, i, stack, AtomRule(h, s, i))
  {
    AtomLevel(h, s, i);
  }

  lemma {:induction false} InnerAccounted(h: Host, s: string, i: nat, stack: nat)
    requires Ready(s, i)
    ensures Accounted(s, i, stack, ParseInner(h, s, i, stack))
    decreases |s| - i, 4
  {
    AtomAccounted(h, s, i, stack);
    CollectionsAccounted(h, s, i, stack);
    var a, l, v := AtomRule(h, s, i), ListRule(h, s, i, stack), VectorRule(h, s, i, stack);
    var m, e := MapRule(h, s, i, stack), SetRule(h, s, i, stack);
    OrAccounted(s, i, stack, m, e);
    OrAccounted(s, i, stack, v, Or(m, e));
    OrAccounted(s, i, stack, l, Or(v, Or(m, e)));
    OrAccounted(s, i, stack, a, Or(l, Or(v, Or(m, e))));
  }

  lemma {:induction false} CollectionsAccounted(h: Host, s: string, i: nat, stack: nat)
    requires Ready(s, i)
    ensures Accounted(s, i, stack, ListRule(h, s, i, stack))
    ensures Accounted(s, i, stack, VectorRule(h, s, i, stack))
    ensures Accounted(s, i, stack, SetRule(h, s, i, stack))
    ensures Accounted(s, i, stack, MapRule(h, s, i, stack))
    decreases |s| - i, 3
  {
    BracketedAccounted(h, s, i, "(", ')', stack);
    BracketedAccounted(h, s, i, "[", ']', stack);
    BracketedAccounted(h, s, i, "#{", '}', stack);
    BracedAccounted(h, s, i, stack);
  }

  /** An opening bracket in code: `open` ends with it and holds no other special character. */
  ghost predicate Opener(open: string) {
    && open != "" && IsOpen(open[|open| - 1] as int)
    && forall k :: 0 <= k < |open| - 1 ==> !Special(open[k])
  }

  /** A level deeper from `i` to `b`. */
  ghost predicate Deeper(s: string, i: nat, b: nat) {
    && i < b <= |s| && At(s, i).lex.Code?
    && At(s, b) == At(s, i).(depth := DepthAt(s, i) + 1)
    && forall k :: i <= k < b ==> DepthAt(s, k) == DepthAt(s, i)
  }

  lemma OpenerDeepens(s: string, i: nat, open: string)
    requires Opener(open) && StartsWith(s, i, open) && At(s, i).lex.Code?
    ensures Deeper(s, i, i + |open|)
  {
    var m := i + |open| - 1;
    StartsWithAt(s, i, open, |open| - 1);
    forall k | i <= k < m ensures !Special(s[k]) {
      StartsWithAt(s, i, open, k - i);
    }
    UnremarkableLevel(s, i, m);
    NextState(s, m);
  }

  lemma CloserAccounted(s: string, i: nat, b: nat, e: nat, stack: nat)
    requires Deeper(s, i, b) && Within(s, b, e, stack) && e < |s| && At(s, e).lex.Code? && IsClose(s[e] as int)
    ensures Within(s, i, e + 1, stack + 1) && Ready(s, e + 1)
  {
    NextState(s, e);
  }

  /** A body read one level deeper and then its closing bracket. */
  lemma ClosedAccounted<T>(s: string, i: nat, b: nat, stack: nat, body: Outcome<T>, close: char)
    requires Deeper(s, i, b) && stack > 0 && IsClose(close as int) && Accounted(s, b, stack - 1, body)
    ensures Accounted(s, i, stack, Closed(s, body, close))
  {
    if body.Match? {
      SkipLevel(s, body.next);
      var e := Skip(s, body.next);
      WithinTrans(s, b, body.next, e, stack - 1);
      if e < |s| && s[e] == close {
        CloserAccounted(s, i, b, e, stack - 1);
      }
    }
  }

  lemma {:induction false} BracketedAccounted(h: Host, s: string, i: nat, open: string, close: char, stack: nat)
    requires Ready(s, i) && Opener(open) && IsClose(close as int)
    ensures Accounted(s, i, stack, Bracketed(h, s, i, open, close, stack))
    decreases |s| - i, 2
  {
    if StartsWith(s, i, open) {
      var b := i + |open|;
      OpenerDeepens(s, i, open);
      if stack > 0 {
        SkipLevel(s, b);
        ManyAccounted(h, s, Skip(s, b), stack - 1);
        ClosedAccounted(s, i, b, stack, ParseMany(h, s, Skip(s, b), stack - 1), close);
      }
    }
  }

  lemma {:induction false} BracedAccounted(h: Host, s: string, i: nat, stack: nat)
    requires Ready(s, i)
    ensures Accounted(s, i, stack, Braced(h, s, i, stack))
    decreases |s| - i, 2
  {
    if StartsWith(s, i, "{") {
      var b := i + 1;
      OpenerDeepens(s, i, "{");
      if stack > 0 {
        SkipLevel(s, b);
        PairsAccounted(h, s, Skip(s, b), stack - 1);
        ClosedAccounted(s, i, b, stack, ParsePairs(h, s, Skip(s, b), stack - 1), '}');
      }
    }
  }

  lemma {:induction false} ManyAccounted(h: Host, s: string, i: nat, stack: nat)
    requires Ready(s, i)
    ensures Accounted(s, i, stack, ParseMany(h, s, i, stack))
    decreases |s| - i, 6
  {
    ValueAccounted(h, s, i, stack);
    var r := ParseValue(h, s, i, stack);
    if r.Match? {
      ManyAccounted(h, s, r.next, stack);
    }
  }

  lemma {:induction false} PairsAccounted(h: Host, s: string, i: nat, stack: nat)
    requires Ready(s, i)
    ensures Accounted(s, i, stack, ParsePairs(h, s, i, stack))
    decreases |s| - i, 6
  {
    ValueAccounted(h, s, i, stack);
    var k := ParseValue(h, s, i, stack);
    if k.Match? {
      ValueAccounted(h, s, k.next, stack);
      var v := ParseValue(h, s, k.next, stack);
      if v.Match? {
        PairsAccounted(h, s, v.next, stack);
      }
    }
  }
}
