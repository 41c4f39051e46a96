/**
 * Every attempt the grammar makes to read a value, whether it succeeds or not (edn/src/lib.rs), against the depth the
 * scanner counts there (edn/src/depth.rs).
 */
module Attempts {
  import opened Spanned
  import opened Lexical
  import opened Depth
  import opened Parser
  import opened StackBound

  /** `value()` tried at a position with some levels of stack left. */
  datatype Attempt = Attempt(pos: nat, stack: nat)

  predicate IsOpening(open: string) {
    open == "(" || open == "[" || open == "#{" || open == "{"
  }

  predicate Opens(s: string, a: Attempt, open: string) {
    a.pos <= |s| && IsOpening(open) && StartsWith(s, Skip(s, a.pos), open)
  }

  /** The first element of the collection that opens at `a`. */
  predicate Inside(s: string, a: Attempt, b: Attempt, open: string) {
    Opens(s, a, open) && a.stack > 0 && b == Attempt(Skip(s, Skip(s, a.pos) + |open|), a.stack - 1)
  }

  /** The element after the one read at `a`. */
  predicate Beside(h: Host, s: string, a: Attempt, b: Attempt) {
    a.pos <= |s| && var r := ParseValue(h, s, a.pos, a.stack); r.Match? && b == Attempt(r.next, a.stack)
  }

  ghost predicate Follows(h: Host, s: string, a: Attempt, b: Attempt) {
    Beside(h, s, a, b) || exists open :: Inside(s, a, b, open)
  }

  /** Attempts, each made because of the one before. */
  ghost predicate Path(h: Host, s: string, p: seq<Attempt>) {
    p != [] && forall k :: 0 <= k < |p| - 1 ==> Follows(h, s, p[k], p[k + 1])
  }

  // ---- The scanner counts the brackets around an attempt ----

  ghost predicate Tracked(s: string, a: Attempt, b: Attempt) {
    && Ready(s, a.pos) && Ready(s, b.pos) && b.stack <= a.stack
    && DepthAt(s, b.pos) == DepthAt(s, a.pos) + (a.stack - b.stack)
  }

  lemma OpeningIsOpener(open: string)
    requires IsOpening(open)
    ensures Opener(open)
  {
  }

  lemma InsideTracked(s: string, a: Attempt, b: Attempt, open: string)
    requires Ready(s, a.pos) && Inside(s, a, b, open)
    ensures Tracked(s, a, b)
  {
    var start := Skip(s, a.pos);
    SkipLevel(s, a.pos);
    OpeningIsOpener(open);
    StartsWithAt(s, start, open, 0);
    OpenerDeepens(s, start, open);
    SkipLevel(s, start + |open|);
  }

  lemma BesideTracked(h: Host, s: string, a: Attempt, b: Attempt)
    requires Ready(s, a.pos) && Beside(h, s, a, b)
    ensures Tracked(s, a, b)
  {
    ValueAccounted(h, s, a.pos, a.stack);
  }

  lemma FollowsTracked(h: Host, s: string, a: Attempt, b: Attempt)
    requires Ready(s, a.pos) && Follows(h, s, a, b)
    ensures Tracked(s, a, b)
  {
    if Beside(h, s, a, b) {
      BesideTracked(h, s, a, b);
    } else {
      var open :| Inside(s, a, b, open);
      InsideTracked(s, a, b, open);
    }
  }

  /** At every attempt, also one that fails, the scanner's depth has risen by exactly the brackets entered. */
  lemma {:induction false} AttemptsTracked(h: Host, s: string, p: seq<Attempt>, k: nat)
    requires Path(h, s, p) && Ready(s, p[0].pos) && k < |p|
    ensures Tracked(s, p[0], p[k])
  {
    if k > 0 {
      AttemptsTracked(h, s, p, k - 1);
      assert Follows(h, s, p[k - 1], p[k]);
      FollowsTracked(h, s, p[k - 1], p[k]);
    }
  }

  // ---- Running out of stack is such an attempt ----

  /** An opening bracket for which no stack is left. */
  ghost predicate Stuck(s: string, a: Attempt) {
    a.stack == 0 && exists open :: Opens(s, a, open)
  }

  /** A path from `(i, stack)` to an opening bracket for which no stack is left. */
  ghost predicate Exhausts(h: Host, s: string, i: nat, stack: nat, p: seq<Attempt>) {
    Path(h, s, p) && p[0] == Attempt(i, stack) && Stuck(s, p[|p| - 1])
  }

  lemma Prepend(h: Host, s: string, a: Attempt, p: seq<Attempt>)
    requires p != [] && Exhausts(h, s, p[0].pos, p[0].stack, p) && Follows(h, s, a, p[0])
    ensures Exhausts(h, s, a.pos, a.stack, [a] + p)
  {
    var q := [a] + p;
    forall k | 0 <= k < |q| - 1 ensures Follows(h, s, q[k], q[k + 1]) {
      assert k > 0 ==> q[k] == p[k - 1] && q[k + 1] == p[k];
    }
    assert q[|q| - 1] == p[|p| - 1];
  }

  lemma {:induction false} ValueExhausts(h: Host, s: string, i: nat, stack: nat) returns (p: seq<Attempt>)
    requires i <= |s| && ParseValue(h, s, i, stack).Overflow?
    ensures Exhausts(h, s, i, stack, p)
    decreases |s| - i, 5
  {
    var a := Attempt(i, stack);
    var open, b := ValueOpens(h, s, i, stack, a);
    p := OpenedExhausts(h, s, a, open, b);
  }

  lemma {:induction false} OpenedExhausts(h: Host, s: string, a: Attempt, open: string, b: nat)
    returns (p: seq<Attempt>)
    requires Opens(s, a, open) && a.pos < b <= |s| && b == Skip(s, Skip(s, a.pos) + |open|)
    requires a.stack > 0 ==> BodyOverflows(h, s, b, open, a.stack - 1)
    ensures Exhausts(h, s, a.pos, a.stack, p)
    decreases |s| - a.pos, 4
  {
    if a.stack == 0 {
      p := [a];
    } else {
      p := BodyExhausts(h, s, a.pos, b, open, a.stack - 1);
      assert Inside(s, a, p[0], open);
      Prepend(h, s, a, p);
      p := [a] + p;
    }
  }

  /** The body of a collection rule, after its bracket and the blanks that follow, runs out of stack. */
  ghost predicate BodyOverflows(h: Host, s: string, b: nat, open: string, stack: nat)
    requires b <= |s|
  {
    if open == "{" then ParsePairs(h, s, b, stack).Overflow? else ParseMany(h, s, b, stack).Overflow?
  }

  lemma ValueOpens(h: Host, s: string, i: nat, stack: nat, a: Attempt) returns (open: string, b: nat)
    requires i <= |s| && ParseValue(h, s, i, stack).Overflow? && a == Attempt(i, stack)
    ensures Opens(s, a, open) && i < b <= |s| && b == Skip(s, Skip(s, i) + |open|)
    ensures stack > 0 ==> BodyOverflows(h, s, b, open, stack - 1)
  {
    open := OverflowOpens(h, s, Skip(s, i), stack);
    b := Skip(s, Skip(s, i) + |open|);
  }

  lemma {:induction false} BodyExhausts(h: Host, s: string, i: nat, b: nat, open: string, stack: nat)
    returns (p: seq<Attempt>)
    requires i < b <= |s| && BodyOverflows(h, s, b, open, stack)
    ensures Exhausts(h, s, b, stack, p)
    decreases |s| - i, 0
  {
    if open == "{" {
      p := PairsExhaust(h, s, b, stack);
    } else {
      p := ManyExhaust(h, s, b, stack);
    }
  }

  /** Only a collection rule overflows, at its bracket or in its body. */
  lemma OverflowOpens(h: Host, s: string, i: nat, stack: nat) returns (open: string)
    requires i <= |s| && ParseInner(h, s, i, stack).Overflow?
    ensures IsOpening(open) && StartsWith(s, i, open) && i + |open| <= |s|
    ensures stack > 0 && open == "{" ==> ParsePairs(h, s, Skip(s, i + 1), stack - 1).Overflow?
    ensures stack > 0 && open != "{" ==> ParseMany(h, s, Skip(s, i + |open|), stack - 1).Overflow?
  {
    OverflowRule(h, s, i, stack);
    if Bracketed(h, s, i, "(", ')', stack).Overflow? {
      open := "(";
    } else if Bracketed(h, s, i, "[", ']', stack).Overflow? {
      open := "[";
    } else if Braced(h, s, i, stack).Overflow? {
      open := "{";
    } else {
      open := "#{";
    }
    OverflowBody(h, s, i, open, stack);
  }

  lemma OverflowRule(h: Host, s: string, i: nat, stack: nat)
    requires i <= |s| && ParseInner(h, s, i, stack).Overflow?
    ensures || Bracketed(h, s, i, "(", ')', stack).Overflow? || Bracketed(h, s, i, "[", ']', stack).Overflow?
            || Braced(h, s, i, stack).Overflow? || Bracketed(h, s, i, "#{", '}', stack).Overflow?
  {
  }

  lemma OverflowBody(h: Host, s: string, i: nat, open: string, stack: nat)
    requires i <= |s| && IsOpening(open)
    requires if open == "{" then Braced(h, s, i, stack).Overflow?
             else exists close :: Bracketed(h, s, i, open, close, stack).Overflow?
    ensures StartsWith(s, i, open) && i + |open| <= |s|
    ensures stack > 0 && open == "{" ==> ParsePairs(h, s, Skip(s, i + 1), stack - 1).Overflow?
    ensures stack > 0 && open != "{" ==> ParseMany(h, s, Skip(s, i + |open|), stack - 1).Overflow?
  {
  }

  lemma {:induction false} ManyExhaust(h: Host, s: string, i: nat, stack: nat) returns (p: seq<Attempt>)
    requires i <= |s| && ParseMany(h, s, i, stack).Overflow?
    ensures Exhausts(h, s, i, stack, p)
    decreases |s| - i, 6
  {
    var r := ParseValue(h, s, i, stack);
    if r.Overflow? {
      p := ValueExhausts(h, s, i, stack);
    } else {
      p := ManyExhaust(h, s, r.next, stack);
      assert Beside(h, s, Attempt(i, stack), p[0]);
      Prepend(h, s, Attempt(i, stack), p);
      p := [Attempt(i, stack)] + p;
    }
  }

  lemma {:induction false} PairsExhaust(h: Host, s: string, i: nat, stack: nat) returns (p: seq<Attempt>)
    requires i <= |s| && ParsePairs(h, s, i, stack).Overflow?
    ensures Exhausts(h, s, i, stack, p)
    decreases |s| - i, 6
  {
    var k := ParseValue(h, s, i, stack);
    PairsOverflow(h, s, i, stack, k);
    if k.Overflow? {
      p := ValueExhausts(h, s, i, stack);
    } else {
      p := AfterKeyExhausts(h, s, k.next, stack);
      assert Beside(h, s, Attempt(i, stack), p[0]);
      Prepend(h, s, Attempt(i, stack), p);
      p := [Attempt(i, stack)] + p;
    }
  }

  /** The rest of a map from the value of an entry on overflows. */
  predicate OverflowsAfterKey(h: Host, s: string, i: nat, stack: nat)
    requires i <= |s|
  {
    var v := ParseValue(h, s, i, stack);
    v.Overflow? || (v.Match? && ParsePairs(h, s, v.next, stack).Overflow?)
  }

  lemma PairsOverflow(h: Host, s: string, i: nat, stack: nat, k: Outcome<ValueAndSpan>)
    requires i <= |s| && ParsePairs(h, s, i, stack).Overflow? && k == ParseValue(h, s, i, stack)
    ensures k.Overflow? || (k.Match? && OverflowsAfterKey(h, s, k.next, stack))
  {
  }

  lemma {:induction false} AfterKeyExhausts(h: Host, s: string, i: nat, stack: nat) returns (p: seq<Attempt>)
    requires i <= |s| && OverflowsAfterKey(h, s, i, stack)
    ensures Exhausts(h, s, i, stack, p)
    decreases |s| - i, 6
  {
    var v := ParseValue(h, s, i, stack);
    if v.Overflow? {
      p := ValueExhausts(h, s, i, stack);
    } else {
      p := PairsExhaust(h, s, v.next, stack);
      assert Beside(h, s, Attempt(i, stack), p[0]);
      Prepend(h, s, Attempt(i, stack), p);
      p := [Attempt(i, stack)] + p;
    }
  }

  /** Out of stack at some attempt, the scanner counts one level more than the stack right after its bracket. */
  lemma OverflowIsDeep(h: Host, s: string, i: nat, stack: nat) returns (k: nat)
    requires Ready(s, i) && ParseValue(h, s, i, stack).Overflow?
    ensures i <= k <= |s| && DepthAt(s, k) == DepthAt(s, i) + stack + 1
  {
    var p := ValueExhausts(h, s, i, stack);
    var last := p[|p| - 1];
    AttemptsTracked(h, s, p, |p| - 1);
    var open :| Opens(s, last, open);
    var start := Skip(s, last.pos);
    SkipLevel(s, last.pos);
    OpeningIsOpener(open);
    StartsWithAt(s, start, open, 0);
    OpenerDeepens(s, start, open);
    PathForward(h, s, p, |p| - 1);
    k := start + |open|;
  }

  lemma {:induction false} PathForward(h: Host, s: string, p: seq<Attempt>, k: nat)
    requires Path(h, s, p) && k < |p|
    ensures p[0].pos <= p[k].pos
  {
    if k > 0 {
      PathForward(h, s, p, k - 1);
      assert Follows(h, s, p[k - 1], p[k]);
    }
  }
}
