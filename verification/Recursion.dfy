/** The depth guard is exact: it refuses just the inputs on which the grammar would recurse too
    deeply (edn/src/depth.rs against edn/src/lib.rs). */
module Recursion {
  import opened Prelude
  import opened Sorting
  import opened Spanned
  import opened Lexical
  import opened Depth
  import opened Parser
  import opened StackBound
  import opened Attempts

  /** Where the stack runs out the scanner counts one level more, so what it accepts is enough. */
  lemma GuardPreventsOverflow(h: Host, s: string, max: nat, stack: nat)
    requires NestingOk(s, max) && max <= stack
    ensures !ParseValue(h, s, 0, stack).Overflow?
  {
    StartsInCode(s);
    if ParseValue(h, s, 0, stack).Overflow? {
      var k := OverflowIsDeep(h, s, 0, stack);
    }
  }

  // ---- More stack changes nothing ----

  /** `b` is what `a` would have been with more stack. */
  ghost predicate SameUnlessOverflow<T>(a: Outcome<T>, b: Outcome<T>) {
    a.Overflow? || a == b
  }

  lemma {:induction false} ValueMonotone(h: Host, s: string, i: nat, stack: nat, more: nat)
    requires i <= |s| && stack <= more
    ensures SameUnlessOverflow(ParseValue(h, s, i, stack), ParseValue(h, s, i, more))
    decreases |s| - i, 5
  {
    InnerMonotone(h, s, Skip(s, i), stack, more);
  }

  lemma OrMonotone<T>(a: Outcome<T>, b: Outcome<T>, c: Outcome<T>, d: Outcome<T>)
    requires SameUnlessOverflow(a, b) && SameUnlessOverflow(c, d)
    ensures SameUnlessOverflow(Or(a, c), Or(b, d))
  {
  }

  lemma {:induction false} InnerMonotone(h: Host, s: string, i: nat, stack: nat, more: nat)
    requires i <= |s| && stack <= more
    ensures SameUnlessOverflow(ParseInner(h, s, i, stack), ParseInner(h, s, i, more))
    decreases |s| - i, 4
  {
    CollectionsMonotone(h, s, i, stack, more);
    var l, l' := ListRule(h, s, i, stack), ListRule(h, s, i, more);
    var v, v' := VectorRule(h, s, i, stack), VectorRule(h, s, i, more);
    var m, m' := MapRule(h, s, i, stack), MapRule(h, s, i, more);
    var e, e' := SetRule(h, s, i, stack), SetRule(h, s, i, more);
    OrMonotone(m, m', e, e');
    OrMonotone(v, v', Or(m, e), Or(m', e'));
    OrMonotone(l, l', Or(v, Or(m, e)), Or(v', Or(m', e')));
    var a := AtomRule(h, s, i);
    OrMonotone(a, a, Or(l, Or(v, Or(m, e))), Or(l', Or(v', Or(m', e'))));
  }

  lemma {:induction false} CollectionsMonotone(h: Host, s: string, i: nat, stack: nat, more: nat)
    requires i <= |s| && stack <= more
    ensures SameUnlessOverflow(ListRule(h, s, i, stack), ListRule(h, s, i, more))
    ensures SameUnlessOverflow(VectorRule(h, s, i, stack), VectorRule(h, s, i, more))
    ensures SameUnlessOverflow(SetRule(h, s, i, stack), SetRule(h, s, i, more))
    ensures SameUnlessOverflow(MapRule(h, s, i, stack), MapRule(h, s, i, more))
    decreases |s| - i, 3
  {
    BracketedMonotone(h, s, i, "(", ')', stack, more);
    BracketedMonotone(h, s, i, "[", ']', stack, more);
    BracketedMonotone(h, s, i, "#{", '}', stack, more);
    BracedMonotone(h, s, i, stack, more);
  }

  lemma {:induction false} BracketedMonotone(h: Host, s: string, i: nat, open: string, close: char, stack: nat,
                                             more: nat)
    requires i <= |s| && stack <= more && open != ""
    ensures SameUnlessOverflow(Bracketed(h, s, i, open, close, stack), Bracketed(h, s, i, open, close, more))
    decreases |s| - i, 2
  {
    if StartsWith(s, i, open) && stack > 0 {
      ManyMonotone(h, s, Skip(s, i + |open|), stack - 1, more - 1);
    }
  }

  lemma {:induction false} BracedMonotone(h: Host, s: string, i: nat, stack: nat, more: nat)
    requires i <= |s| && stack <= more
    ensures SameUnlessOverflow(Braced(h, s, i, stack), Braced(h, s, i, more))
    decreases |s| - i, 2
  {
    if StartsWith(s, i, "{") && stack > 0 {
      PairsMonotone(h, s, Skip(s, i + 1), stack - 1, more - 1);
    }
  }

  lemma {:induction false} ManyMonotone(h: Host, s: string, i: nat, stack: nat, more: nat)
    requires i <= |s| && stack <= more
    ensures SameUnlessOverflow(ParseMany(h, s, i, stack), ParseMany(h, s, i, more))
    decreases |s| - i, 6
  {
    ValueMonotone(h, s, i, stack, more);
    var r := ParseValue(h, s, i, stack);
    if r.Match? {
      ManyMonotone(h, s, r.next, stack, more);
    }
  }

  lemma {:induction false} PairMonotone(h: Host, s: string, i: nat, stack: nat, more: nat)
    requires i <= |s| && stack <= more
    ensures SameUnlessOverflow(ParsePair(h, s, i, stack), ParsePair(h, s, i, more))
    decreases |s| - i, 6
  {
    ValueMonotone(h, s, i, stack, more);
    var r := ParseValue(h, s, i, stack);
    if r.Match? {
      ValueMonotone(h, s, r.next, stack, more);
    }
  }

  lemma {:induction false} PairsMonotone(h: Host, s: string, i: nat, stack: nat, more: nat)
    requires i <= |s| && stack <= more
    ensures SameUnlessOverflow(ParsePairs(h, s, i, stack), ParsePairs(h, s, i, more))
    decreases |s| - i, 7
  {
    PairMonotone(h, s, i, stack, more);
    var r := ParsePair(h, s, i, stack);
    if r.Match? {
      PairsMonotone(h, s, r.next, stack, more);
    }
  }

  /** The guarded entry point is independent of the machine: on every input, every stack of at least
      256 levels gives the same answer, and that answer is never a stack overflow. */
  lemma EntryPointIndependentOfStack(h: Host, s: string, stack: nat)
    requires stack >= MAX_NESTING
    ensures ParseTop(h, s, stack) == ParseTop(h, s, MAX_NESTING)
    ensures NestingOk(s, MAX_NESTING) ==> !ParseValue(h, s, 0, stack).Overflow?
  {
    ValueMonotone(h, s, 0, MAX_NESTING, stack);
    if NestingOk(s, MAX_NESTING) {
      GuardPreventsOverflow(h, s, MAX_NESTING, MAX_NESTING);
    }
  }

  /** For an input the grammar accepts, the scan accepts `max` exactly when `max` levels suffice. */
  lemma GuardIsExact(h: Host, s: string, v: ValueAndSpan, stack: nat, max: nat)
    requires Accepts(h, s, stack, v)
    ensures NestingOk(s, max) <==> Accepts(h, s, max, v)
  {
    StartsInCode(s);
    if Accepts(h, s, max, v) {
      ValueAccounted(h, s, 0, max);
    }
    if NestingOk(s, max) {
      GuardPreventsOverflow(h, s, max, max);
      ValueMonotone(h, s, 0, max, if stack < max then max else stack);
      ValueMonotone(h, s, 0, stack, if stack < max then max else stack);
    }
  }

  // ---- The scanner's peak is the nesting of the value read ----

  /** From `i` to `j` the depth comes back and rises by exactly `n` in between. */
  ghost predicate Peaks(s: string, i: nat, j: nat, n: nat) {
    Within(s, i, j, n) && exists k :: i <= k <= j && DepthAt(s, k) == DepthAt(s, i) + n
  }

  lemma PeaksTrans(s: string, i: nat, m: nat, j: nat, a: nat, b: nat)
    requires Peaks(s, i, m, a) && Peaks(s, m, j, b)
    ensures Peaks(s, i, j, Max(a, b))
  {
    if a < b {
      var k :| m <= k <= j && DepthAt(s, k) == DepthAt(s, m) + b;
      assert DepthAt(s, k) == DepthAt(s, i) + b;
    } else {
      var k :| i <= k <= m && DepthAt(s, k) == DepthAt(s, i) + a;
    }
  }

  lemma FlatPeaks(s: string, i: nat, j: nat)
    requires Within(s, i, j, 0)
    ensures Peaks(s, i, j, 0)
  {
    assert DepthAt(s, i) == DepthAt(s, i) + 0;
  }

  lemma ClosedPeaks(s: string, i: nat, b: nat, e: nat, n: nat)
    requires Deeper(s, i, b) && Peaks(s, b, e, n) && e < |s| && At(s, e).lex.Code? && IsClose(s[e] as int)
    ensures Peaks(s, i, e + 1, n + 1)
  {
    CloserAccounted(s, i, b, e, n);
    var k :| b <= k <= e && DepthAt(s, k) == DepthAt(s, b) + n;
    assert DepthAt(s, k) == DepthAt(s, i) + (n + 1);
  }

  /** Every offset into the input fits the `u32` that a span records. */
  ghost predicate SpansFit(s: string) {
    ByteOffset(s, |s|) <= 0x1_0000_0000
  }

  lemma {:induction false} OffsetsIncrease(s: string, i: nat, j: nat)
    requires i <= j <= |s|
    ensures ByteOffset(s, i) + (j - i) <= ByteOffset(s, j)
  {
    if i < j {
      OffsetsIncrease(s, i, j - 1);
    }
  }

  /** Keys read one after the other carry different spans. */
  lemma {:induction false} KeysDistinct(h: Host, s: string, i: nat, stack: nat)
    requires i <= |s| && SpansFit(s)
    ensures var r := ParsePairs(h, s, i, stack);
            r.Match? ==>
              && Distinct(r.value, SameSpannedKey)
              && forall a :: 0 <= a < |r.value| ==> r.value[a].key.span.start >= ByteOffset(s, i)
    decreases |s| - i
  {
    var r := ParsePairs(h, s, i, stack);
    var p := ParsePair(h, s, i, stack);
    if r.Match? && p.Match? {
      KeysDistinct(h, s, p.next, stack);
      FirstKeySpan(h, s, i, stack);
      var rest := ParsePairs(h, s, p.next, stack).value;
      assert r.value == [p.value] + rest;
      OffsetsIncrease(s, i, p.next);
    }
  }

  lemma SpanStart(start: nat, end: nat)
    requires start < 0x1_0000_0000
    ensures NewSpan(start, end).start == start
  {
  }

  lemma ValueSpan(h: Host, s: string, i: nat, stack: nat)
    requires i <= |s| && SpansFit(s)
    ensures var r := ParseValue(h, s, i, stack);
            r.Match? ==> ByteOffset(s, i) <= r.value.span.start < ByteOffset(s, r.next)
  {
    var r := ParseValue(h, s, i, stack);
    if r.Match? {
      var start := Skip(s, i);
      var end := ParseInner(h, s, start, stack).next;
      var a, b := ByteOffset(s, start), ByteOffset(s, end);
      assert r.value.span == NewSpan(a, b);
      OffsetsIncrease(s, i, start);
      OffsetsIncrease(s, start, r.next);
      OffsetsIncrease(s, r.next, |s|);
      SpanStart(a, b);
    }
  }

  lemma FirstKeySpan(h: Host, s: string, i: nat, stack: nat)
    requires i <= |s| && SpansFit(s)
    ensures var r := ParsePair(h, s, i, stack);
            r.Match? ==> ByteOffset(s, i) <= r.value.key.span.start < ByteOffset(s, r.next)
  {
    var r := ParsePair(h, s, i, stack);
    if r.Match? {
      var k := ParseValue(h, s, i, stack);
      assert r.value.key == k.value && k.next <= r.next;
      ValueSpan(h, s, i, stack);
      OffsetsIncrease(s, k.next, r.next);
    }
  }

  lemma {:induction false} ValuePeaks(h: Host, s: string, i: nat, stack: nat)
    requires Ready(s, i) && SpansFit(s)
    ensures var r := ParseValue(h, s, i, stack); r.Match? ==> Peaks(s, i, r.next, SNesting(r.value.inner))
    decreases |s| - i, 5
  {
    var start := Skip(s, i);
    SkipLevel(s, i);
    FlatPeaks(s, i, start);
    var r := ParseInner(h, s, start, stack);
    if r.Match? {
      InnerPeaks(h, s, start, stack);
      InnerAccounted(h, s, start, stack);
      SkipLevel(s, r.next);
      FlatPeaks(s, r.next, Skip(s, r.next));
      PeaksTrans(s, i, start, r.next, 0, SNesting(r.value));
      PeaksTrans(s, i, r.next, Skip(s, r.next), SNesting(r.value), 0);
    }
  }

  lemma {:induction false} InnerPeaks(h: Host, s: string, i: nat, stack: nat)
    requires Ready(s, i) && SpansFit(s)
    ensures var r := ParseInner(h, s, i, stack); r.Match? ==> Peaks(s, i, r.next, SNesting(r.value))
    decreases |s| - i, 4
  {
    var a := AtomRule(h, s, i);
    if a.Match? {
      AtomAccounted(h, s, i, 0);
      FlatPeaks(s, i, a.next);
    } else if a.NoMatch? {
      CollectionsPeak(h, s, i, stack);
    }
  }

  lemma {:induction false} CollectionsPeak(h: Host, s: string, i: nat, stack: nat)
    requires Ready(s, i) && SpansFit(s)
    ensures var r := ListRule(h, s, i, stack); r.Match? ==> Peaks(s, i, r.next, SNesting(r.value))
    ensures var r := VectorRule(h, s, i, stack); r.Match? ==> Peaks(s, i, r.next, SNesting(r.value))
    ensures var r := SetRule(h, s, i, stack); r.Match? ==> Peaks(s, i, r.next, SNesting(r.value))
    ensures var r := MapRule(h, s, i, stack); r.Match? ==> Peaks(s, i, r.next, SNesting(r.value))
    decreases |s| - i, 3
  {
    BracketedPeaks(h, s, i, "(", ')', stack, Bracketed(h, s, i, "(", ')', stack));
    BracketedPeaks(h, s, i, "[", ']', stack, Bracketed(h, s, i, "[", ']', stack));
    SetPeaks(h, s, i, stack);
    MapPeaks(h, s, i, stack);
  }

  lemma {:induction false} SetPeaks(h: Host, s: string, i: nat, stack: nat)
    requires Ready(s, i) && SpansFit(s)
    ensures var r := SetRule(h, s, i, stack); r.Match? ==> Peaks(s, i, r.next, SNesting(r.value))
    decreases |s| - i, 2, 1
  {
    var e := Bracketed(h, s, i, "#{", '}', stack);
    BracketedPeaks(h, s, i, "#{", '}', stack, e);
    if e.Match? {
      SpannedSetNesting(e.value);
    }
  }

  /** A bracket opened between `i` and `b`, and the blanks after it. */
  ghost predicate Opened(s: string, i: nat, b: nat) {
    Deeper(s, i, b) && Ready(s, Skip(s, b)) && Peaks(s, b, Skip(s, b), 0)
  }

  lemma OpenedPeaks(s: string, i: nat, open: string, b: nat)
    requires Ready(s, i) && Opener(open) && StartsWith(s, i, open) && b == i + |open|
    ensures Opened(s, i, b)
  {
    OpenerDeepens(s, i, open);
    SkipLevel(s, b);
    FlatPeaks(s, b, Skip(s, b));
  }

  lemma {:induction false} BracketedPeaks(h: Host, s: string, i: nat, open: string, close: char, stack: nat,
                                          r: Outcome<seq<ValueAndSpan>>)
    requires Ready(s, i) && SpansFit(s) && Opener(open) && IsClose(close as int)
    requires r == Bracketed(h, s, i, open, close, stack)
    ensures r.Match? ==> Peaks(s, i, r.next, 1 + SNestingAll(r.value))
    decreases |s| - i, 2, 0
  {
    if r.Match? {
      var b, start, body := BracketedIs(h, s, i, open, close, stack, r);
      OpenedPeaks(s, i, open, b);
      InsidePeaks(h, s, i, b, start, close, stack - 1, body, r);
    }
  }

  lemma {:induction false} InsidePeaks(h: Host, s: string, i: nat, b: nat, start: nat, close: char, stack: nat,
                                       body: Outcome<seq<ValueAndSpan>>, r: Outcome<seq<ValueAndSpan>>)
    requires Opened(s, i, b) && start == Skip(s, b) && IsClose(close as int) && SpansFit(s)
    requires body == ParseMany(h, s, start, stack) && body.Match? && r == Closed(s, body, close) && r.Match?
    ensures Peaks(s, i, r.next, 1 + SNestingAll(r.value))
    decreases |s| - b, 7
  {
    ManyPeaks(h, s, start, stack);
    BodyPeaks(s, i, b, start, body, close, SNestingAll(r.value), r);
  }

  lemma {:induction false} InsideMapPeaks(h: Host, s: string, i: nat, b: nat, start: nat, stack: nat,
                                          body: Outcome<seq<SpannedEntry>>, r: Outcome<seq<SpannedEntry>>)
    requires Opened(s, i, b) && start == Skip(s, b) && SpansFit(s)
    requires body == ParsePairs(h, s, start, stack) && body.Match? && r == Closed(s, body, '}') && r.Match?
    ensures Peaks(s, i, r.next, 1 + SNestingPairs(r.value))
    decreases |s| - b, 8
  {
    PairsPeak(h, s, start, stack);
    BodyPeaks(s, i, b, start, body, '}', SNestingPairs(r.value), r);
  }

  lemma BracketedIs(h: Host, s: string, i: nat, open: string, close: char, stack: nat, r: Outcome<seq<ValueAndSpan>>)
    returns (b: nat, start: nat, body: Outcome<seq<ValueAndSpan>>)
    requires i <= |s| && open != "" && r == Bracketed(h, s, i, open, close, stack) && r.Match?
    ensures StartsWith(s, i, open) && b == i + |open| && b <= |s| && start == Skip(s, b) && stack > 0
    ensures body == ParseMany(h, s, start, stack - 1) && body.Match? && body.next <= |s|
    ensures r == Closed(s, body, close) && r.value == body.value
  {
    b, start := i + |open|, Skip(s, i + |open|);
    body := ParseMany(h, s, start, stack - 1);
  }

  lemma BracedIs(h: Host, s: string, i: nat, stack: nat, r: Outcome<seq<SpannedEntry>>)
    returns (b: nat, start: nat, body: Outcome<seq<SpannedEntry>>)
    requires i <= |s| && r == Braced(h, s, i, stack) && r.Match?
    ensures StartsWith(s, i, "{") && b == i + 1 && b <= |s| && start == Skip(s, b) && stack > 0
    ensures body == ParsePairs(h, s, start, stack - 1) && body.Match? && body.next <= |s|
    ensures r == Closed(s, body, '}') && r.value == body.value
  {
    b, start := i + 1, Skip(s, i + 1);
    body := ParsePairs(h, s, start, stack - 1);
  }

  /** Blanks, a body that peaks at `n`, blanks and a closing bracket, all one level deeper. */
  lemma BodyPeaks<T>(s: string, i: nat, b: nat, start: nat, body: Outcome<T>, close: char, n: nat, r: Outcome<T>)
    requires Opened(s, i, b) && start == Skip(s, b) && IsClose(close as int) && body.Match?
    requires Peaks(s, start, body.next, n) && Ready(s, body.next)
    requires r == Closed(s, body, close) && r.Match?
    ensures Peaks(s, i, r.next, 1 + n)
  {
    var e := Skip(s, body.next);
    SkipLevel(s, body.next);
    FlatPeaks(s, body.next, e);
    PeaksTrans(s, b, start, body.next, 0, n);
    PeaksTrans(s, b, body.next, e, n, 0);
    ClosedPeaks(s, i, b, e, n);
  }

  lemma {:induction false} MapPeaks(h: Host, s: string, i: nat, stack: nat)
    requires Ready(s, i) && SpansFit(s)
    ensures var r := MapRule(h, s, i, stack); r.Match? ==> Peaks(s, i, r.next, SNesting(r.value))
    decreases |s| - i, 2, 1
  {
    BracedPeaks(h, s, i, stack);
    var e := Braced(h, s, i, stack);
    if e.Match? {
      CollectedNesting(h, s, i, stack, e);
    }
  }

  /** No entry is dropped when the map is collected, so nothing nests less. */
  lemma CollectedNesting(h: Host, s: string, i: nat, stack: nat, e: Outcome<seq<SpannedEntry>>)
    requires i <= |s| && SpansFit(s) && e == Braced(h, s, i, stack) && e.Match?
    ensures SNestingPairs(SpannedMapFromIter(e.value)) == SNestingPairs(e.value)
  {
    var b, start, body := BracedIs(h, s, i, stack, e);
    KeysDistinct(h, s, start, stack - 1);
    SpannedMapNesting(e.value);
  }

  lemma {:induction false} BracedPeaks(h: Host, s: string, i: nat, stack: nat)
    requires Ready(s, i) && SpansFit(s)
    ensures var r := Braced(h, s, i, stack); r.Match? ==> Peaks(s, i, r.next, 1 + SNestingPairs(r.value))
    decreases |s| - i, 2, 0
  {
    var r := Braced(h, s, i, stack);
    if r.Match? {
      var b, start, body := BracedIs(h, s, i, stack, r);
      OpenedPeaks(s, i, "{", b);
      InsideMapPeaks(h, s, i, b, start, stack - 1, body, r);
    }
  }

  lemma {:induction false} ManyPeaks(h: Host, s: string, i: nat, stack: nat)
    requires Ready(s, i) && SpansFit(s)
    ensures var r := ParseMany(h, s, i, stack);
            r.Match? ==> Peaks(s, i, r.next, SNestingAll(r.value)) && Ready(s, r.next)
    decreases |s| - i, 6
  {
    var r := ParseValue(h, s, i, stack);
    if r.NoMatch? {
      FlatPeaks(s, i, i);
    } else if r.Match? {
      ValueAccounted(h, s, i, stack);
      ValuePeaks(h, s, i, stack);
      ManyPeaks(h, s, r.next, stack);
      var all := ParseMany(h, s, r.next, stack);
      if all.Match? {
        assert ([r.value] + all.value)[1..] == all.value;
        PeaksTrans(s, i, r.next, all.next, SNesting(r.value.inner), SNestingAll(all.value));
      }
    }
  }

  lemma {:induction false} PairPeaks(h: Host, s: string, i: nat, stack: nat)
    requires Ready(s, i) && SpansFit(s)
    ensures var r := ParsePair(h, s, i, stack);
            r.Match? ==> Peaks(s, i, r.next, SNestingEntry(r.value)) && Ready(s, r.next)
    decreases |s| - i, 6
  {
    var r := ParsePair(h, s, i, stack);
    if r.Match? {
      var k := ParseValue(h, s, i, stack);
      ValueAccounted(h, s, i, stack);
      ValuePeaks(h, s, i, stack);
      ValueAccounted(h, s, k.next, stack);
      ValuePeaks(h, s, k.next, stack);
      PeaksTrans(s, i, k.next, r.next, SNesting(r.value.key.inner), SNesting(r.value.val.inner));
    }
  }

  lemma {:induction false} PairsPeak(h: Host, s: string, i: nat, stack: nat)
    requires Ready(s, i) && SpansFit(s)
    ensures var r := ParsePairs(h, s, i, stack);
            r.Match? ==> Peaks(s, i, r.next, SNestingPairs(r.value)) && Ready(s, r.next)
    decreases |s| - i, 7
  {
    var r := ParsePair(h, s, i, stack);
    if r.NoMatch? {
      FlatPeaks(s, i, i);
    } else if r.Match? {
      PairPeaks(h, s, i, stack);
      PairsPeak(h, s, r.next, stack);
      var all := ParsePairs(h, s, r.next, stack);
      if all.Match? {
        assert ([r.value] + all.value)[1..] == all.value;
        PeaksTrans(s, i, r.next, all.next, SNestingEntry(r.value), SNestingPairs(all.value));
      }
    }
  }

  /** For an accepted input the scan says Ok exactly when the value read nests at most `max` deep. */
  lemma GuardMeasuresNesting(h: Host, s: string, v: ValueAndSpan, stack: nat, max: nat)
    requires Accepts(h, s, stack, v) && SpansFit(s)
    ensures NestingOk(s, max) <==> SNesting(v.inner) <= max
  {
    StartsInCode(s);
    ValuePeaks(h, s, 0, stack);
    var n := SNesting(v.inner);
    var k :| 0 <= k <= |s| && DepthAt(s, k) == DepthAt(s, 0) + n;
    assert NestingOk(s, max) ==> DepthAt(s, k) <= max;
  }
}
