/** The recursive part of the round trip: every layout of a value is read back as that value. */
module ReadBack {
  import opened Sorting
  import opened Values
  import opened Spanned
  import opened Lexical
  import opened Parser
  import opened Printer
  import opened Readable
  import opened AtomReadBack
  import opened Rebuilding
  import opened RoundTrip

  /** A value of the fragment, as the tree collections keep it, whose names the grammar accepts. */
  ghost predicate Good(v: Value) {
    InFragment(v) && IsReadable(v) && WellFormed(v)
  }

  ghost predicate AllGood(xs: seq<Value>) {
    forall i :: 0 <= i < |xs| ==> Good(xs[i])
  }

  ghost predicate GoodEntry(e: Entry) {
    Good(e.key) && Good(e.val)
  }

  ghost predicate GoodPairs(kvs: seq<Entry>) {
    forall i :: 0 <= i < |kvs| ==> GoodEntry(kvs[i])
  }

  /** The children of a good collection are good. */
  lemma GoodChildren(v: Value, xs: seq<Value>)
    requires Good(v) && (v == Vector(xs) || v == List(xs) || v == Set(xs))
    ensures AllGood(xs) && (v.Set? ==> StrictlyAscending(xs, ValueLe))
  {
    assert AllInFragment(xs) && AllReadable(xs) && AllWellFormed(xs);
    forall i | 0 <= i < |xs| ensures Good(xs[i]) {
      assert InFragment(xs[i]) && IsReadable(xs[i]) && WellFormed(xs[i]);
    }
  }

  lemma GoodEntries(v: Value, kvs: seq<Entry>)
    requires Good(v) && v == Map(kvs)
    ensures GoodPairs(kvs) && StrictlyAscending(kvs, KeyLe)
  {
    assert PairsInFragment(kvs) && PairsReadable(kvs) && PairsWellFormed(kvs);
    forall i | 0 <= i < |kvs| ensures GoodEntry(kvs[i]) {
      assert EntryInFragment(kvs[i]) && EntryReadable(kvs[i]) && EntryWellFormed(kvs[i]);
    }
  }

  // ---- What is read at a bracket ----

  lemma NoNames(s: string, i: nat)
    requires i <= |s| && (i < |s| ==> !IsInitial(s[i]) && s[i] != '.' && s[i] != ':')
    ensures KeywordRule(s, i).NoMatch? && SymbolRule(s, i).NoMatch?
  {
    RunTo(s, i, i, IsInitial);
    NotStarts(s, i, "...", 0);
    NotStarts(s, i, ".", 0);
    assert NamespaceEnd(s, i).None?;
  }

  predicate IsBracket(c: char) {
    c == '(' || c == '[' || c == '{' || c == ')' || c == ']' || c == '}'
  }

  lemma NoAtomAtBracket(h: Host, s: string, i: nat)
    requires i < |s| && IsBracket(s[i])
    ensures AtomRule(h, s, i).NoMatch?
  {
    NoLiteral(h, s, i);
    NoNames(s, i);
  }

  lemma NoTaggedAtHash(h: Host, s: string, i: nat)
    requires i + 1 < |s| && s[i] == '#' && s[i + 1] == '{'
    ensures NanRule(s, i).NoMatch? && InfinityRule(s, i).NoMatch? && InstRule(h, s, i).NoMatch?
    ensures UuidRule(s, i).NoMatch? && BytesRule(s, i).NoMatch?
  {
    NotStarts(s, i, "#f", 1);
    NotStarts(s, i, "#instmillis", 1);
    NotStarts(s, i, "#instmicros", 1);
    NotStarts(s, i, "#inst", 1);
    NotStarts(s, i, "#uuid", 1);
    NotStarts(s, i, "#bytes", 1);
  }

  lemma NoAtomAtHash(h: Host, s: string, i: nat)
    requires i + 1 < |s| && s[i] == '#' && s[i + 1] == '{'
    ensures AtomRule(h, s, i).NoMatch?
  {
    NoTaggedAtHash(h, s, i);
    NoConstant(s, i);
    NoNumber(h, s, i);
    NoNames(s, i);
  }

  /** None of the four bracketed alternatives opens with `c`. */
  lemma NotOpened(h: Host, s: string, i: nat, stack: nat)
    requires i < |s|
    ensures s[i] != '(' ==> ListRule(h, s, i, stack).NoMatch?
    ensures s[i] != '[' ==> VectorRule(h, s, i, stack).NoMatch?
    ensures s[i] != '{' ==> MapRule(h, s, i, stack).NoMatch?
    ensures s[i] != '#' ==> SetRule(h, s, i, stack).NoMatch?
  {
    if s[i] != '(' { NotStarts(s, i, "(", 0); }
    if s[i] != '[' { NotStarts(s, i, "[", 0); }
    if s[i] != '{' { NotStarts(s, i, "{", 0); }
    if s[i] != '#' { NotStarts(s, i, "#{", 0); }
  }

  /** At a closing bracket no value is read, so repetition stops there. */
  lemma CloserStops(h: Host, s: string, i: nat, stack: nat)
    requires i < |s| && (s[i] == ')' || s[i] == ']' || s[i] == '}')
    ensures ParseValue(h, s, i, stack).NoMatch?
  {
    SkipNothing(s, i);
    NoAtomAtBracket(h, s, i);
    NotOpened(h, s, i, stack);
    assert ParseInner(h, s, i, stack).NoMatch?;
  }

  lemma NothingMore(h: Host, s: string, i: nat, stack: nat)
    requires i < |s| && (s[i] == ')' || s[i] == ']' || s[i] == '}')
    ensures ParseMany(h, s, i, stack) == Match([], i) && ParsePairs(h, s, i, stack) == Match([], i)
  {
    CloserStops(h, s, i, stack);
    assert ParsePair(h, s, i, stack).NoMatch?;
  }

  // ---- Outcomes ----

  /** Reading `v` with `stack` levels left ends at `next` with that value, or overflows if it nests deeper. */
  ghost predicate Reads(r: Outcome<ValueAndSpan>, v: Value, next: nat, stack: nat) {
    if Nesting(v) <= stack then r.Match? && r.next == next && WithoutSpans(r.value) == v else r.Overflow?
  }

  ghost predicate ReadsInner(r: Outcome<SpannedValue>, v: Value, next: nat, stack: nat) {
    if Nesting(v) <= stack then r.Match? && r.next == next && Erase(r.value) == v else r.Overflow?
  }

  ghost predicate ReadsMany(r: Outcome<seq<ValueAndSpan>>, xs: seq<Value>, next: nat, stack: nat) {
    if NestingAll(xs) <= stack then r.Match? && r.next == next && EraseAll(r.value) == xs else r.Overflow?
  }

  ghost predicate ReadsEntry(r: Outcome<SpannedEntry>, e: Entry, next: nat, stack: nat) {
    if NestingEntry(e) <= stack then r.Match? && r.next == next && EraseEntry(r.value) == e else r.Overflow?
  }

  ghost predicate ReadsPairs(r: Outcome<seq<SpannedEntry>>, kvs: seq<Entry>, next: nat, stack: nat) {
    if NestingPairs(kvs) <= stack then r.Match? && r.next == next && ErasePairs(r.value) == kvs else r.Overflow?
  }

  lemma ValueOfInner(h: Host, s: string, i: nat, stack: nat, v: Value, end: nat, next: nat,
                     inner: Outcome<SpannedValue>, r: Outcome<ValueAndSpan>)
    requires i <= end <= |s| && Skip(s, i) == i && Skip(s, end) == next
    requires inner == ParseInner(h, s, i, stack) && r == ParseValue(h, s, i, stack)
    requires ReadsInner(inner, v, end, stack)
    ensures Reads(r, v, next, stack)
  {
  }

  lemma {:induction false} ErasedCons(v: ValueAndSpan, vs: seq<ValueAndSpan>, xs: seq<Value>)
    requires xs != [] && WithoutSpans(v) == xs[0] && EraseAll(vs) == xs[1..]
    ensures EraseAll([v] + vs) == xs
  {
    assert ([v] + vs)[1..] == vs;
    assert EraseAll([v] + vs) == [WithoutSpans(v)] + EraseAll(vs);
    assert xs == [xs[0]] + xs[1..];
  }

  /** One more element in front. */
  lemma ManyStep(h: Host, s: string, i: nat, stack: nat, xs: seq<Value>, mid: nat, next: nat,
                 first: Outcome<ValueAndSpan>, rest: Outcome<seq<ValueAndSpan>>, r: Outcome<seq<ValueAndSpan>>)
    requires xs != [] && i <= mid <= |s|
    requires first == ParseValue(h, s, i, stack) && Reads(first, xs[0], mid, stack)
    requires rest == ParseMany(h, s, mid, stack) && ReadsMany(rest, xs[1..], next, stack)
    requires r == ParseMany(h, s, i, stack)
    ensures ReadsMany(r, xs, next, stack)
  {
    if first.Match? && rest.Match? {
      ErasedCons(first.value, rest.value, xs);
    }
  }

  lemma EntryStep(h: Host, s: string, i: nat, stack: nat, e: Entry, mid: nat, next: nat,
                  key: Outcome<ValueAndSpan>, val: Outcome<ValueAndSpan>, r: Outcome<SpannedEntry>)
    requires i <= mid <= |s|
    requires key == ParseValue(h, s, i, stack) && Reads(key, e.key, mid, stack)
    requires val == ParseValue(h, s, mid, stack) && Reads(val, e.val, next, stack)
    requires r == ParsePair(h, s, i, stack)
    ensures ReadsEntry(r, e, next, stack)
  {
  }

  lemma PairsStep(h: Host, s: string, i: nat, stack: nat, kvs: seq<Entry>, mid: nat, next: nat,
                  first: Outcome<SpannedEntry>, rest: Outcome<seq<SpannedEntry>>, r: Outcome<seq<SpannedEntry>>)
    requires kvs != [] && i <= mid <= |s|
    requires first == ParsePair(h, s, i, stack) && ReadsEntry(first, kvs[0], mid, stack)
    requires rest == ParsePairs(h, s, mid, stack) && ReadsPairs(rest, kvs[1..], next, stack)
    requires r == ParsePairs(h, s, i, stack)
    ensures ReadsPairs(r, kvs, next, stack)
  {
    if first.Match? && rest.Match? {
      assert ([first.value] + rest.value)[1..] == rest.value;
      assert kvs == [kvs[0]] + kvs[1..];
    }
  }

  predicate IsCloser(c: char) {
    c == ')' || c == ']' || c == '}'
  }

  /** Reading one level deeper. */
  ghost predicate ReadsBracket(r: Outcome<seq<ValueAndSpan>>, xs: seq<Value>, next: nat, stack: nat) {
    if 1 + NestingAll(xs) <= stack then r.Match? && r.next == next && EraseAll(r.value) == xs else r.Overflow?
  }

  ghost predicate ReadsBrace(r: Outcome<seq<SpannedEntry>>, kvs: seq<Entry>, next: nat, stack: nat) {
    if 1 + NestingPairs(kvs) <= stack then r.Match? && r.next == next && ErasePairs(r.value) == kvs else r.Overflow?
  }

  lemma SetStep(h: Host, s: string, i: nat, stack: nat, xs: seq<Value>, end: nat,
                b: Outcome<seq<ValueAndSpan>>, r: Outcome<SpannedValue>)
    requires StartsWith(s, i, "#{") && StrictlyAscending(xs, ValueLe)
    requires b == Bracketed(h, s, i, "#{", '}', stack) && r == ParseInner(h, s, i, stack)
    requires ReadsBracket(b, xs, end, stack)
    ensures ReadsInner(r, Set(xs), end, stack)
  {
    OnlySet(h, s, i, stack);
    if b.Match? {
      SetRebuilt(b.value, xs);
    }
  }

  lemma OnlySet(h: Host, s: string, i: nat, stack: nat)
    requires StartsWith(s, i, "#{")
    ensures ParseInner(h, s, i, stack) == SetRule(h, s, i, stack)
  {
    NoAtomAtHash(h, s, i);
    NotOpened(h, s, i, stack);
  }

  lemma OnlyMap(h: Host, s: string, i: nat, stack: nat)
    requires StartsWith(s, i, "{")
    ensures ParseInner(h, s, i, stack) == MapRule(h, s, i, stack)
  {
    NoAtomAtBracket(h, s, i);
    NotOpened(h, s, i, stack);
  }

  lemma MapStep(h: Host, s: string, i: nat, stack: nat, kvs: seq<Entry>, end: nat,
                m: Outcome<seq<SpannedEntry>>, r: Outcome<SpannedValue>)
    requires StartsWith(s, i, "{") && StrictlyAscending(kvs, KeyLe)
    requires m == Braced(h, s, i, stack) && r == ParseInner(h, s, i, stack)
    requires NestingPairs(Reverse(kvs)) == NestingPairs(kvs) && ReadsBrace(m, Reverse(kvs), end, stack)
    ensures ReadsInner(r, Map(kvs), end, stack)
  {
    OnlyMap(h, s, i, stack);
    MapRuleIs(h, s, i, stack, m, r);
    MapOutcome(kvs, end, stack, m, r);
  }

  lemma MapOutcome(kvs: seq<Entry>, end: nat, stack: nat, m: Outcome<seq<SpannedEntry>>, r: Outcome<SpannedValue>)
    requires StrictlyAscending(kvs, KeyLe) && NestingPairs(Reverse(kvs)) == NestingPairs(kvs)
    requires ReadsBrace(m, Reverse(kvs), end, stack)
    requires m.Match? ==> r == Match(SMap(SpannedMapFromIter(m.value)), m.next)
    requires m.Overflow? ==> r.Overflow?
    ensures ReadsInner(r, Map(kvs), end, stack)
  {
    if m.Match? {
      ReversedRebuilt(m.value, kvs);
    }
    MapNesting(kvs, NestingPairs(kvs));
    InnerOutcome(Map(kvs), NestingPairs(kvs), end, stack, m, r);
  }

  lemma MapNesting(kvs: seq<Entry>, n: nat)
    requires n == NestingPairs(kvs)
    ensures Nesting(Map(kvs)) == 1 + n
  {
  }

  lemma InnerOutcome(v: Value, n: nat, end: nat, stack: nat, m: Outcome<seq<SpannedEntry>>, r: Outcome<SpannedValue>)
    requires Nesting(v) == 1 + n && (if 1 + n <= stack then m.Match? && m.next == end else m.Overflow?)
    requires m.Match? ==> r.Match? && r.next == m.next && Erase(r.value) == v
    requires m.Overflow? ==> r.Overflow?
    ensures ReadsInner(r, v, end, stack)
  {
  }

  lemma ReversedRebuilt(ps: seq<SpannedEntry>, kvs: seq<Entry>)
    requires StrictlyAscending(kvs, KeyLe) && ErasePairs(ps) == Reverse(kvs)
    ensures Erase(SMap(SpannedMapFromIter(ps))) == Map(kvs)
  {
    ReverseElements(kvs);
    MapRebuilt(ps, kvs);
  }

  lemma MapRuleIs(h: Host, s: string, i: nat, stack: nat, m: Outcome<seq<SpannedEntry>>, r: Outcome<SpannedValue>)
    requires i <= |s| && m == Braced(h, s, i, stack) && r == MapRule(h, s, i, stack)
    ensures m.Match? ==> r == Match(SMap(SpannedMapFromIter(m.value)), m.next)
    ensures m.Overflow? ==> r.Overflow?
  {
  }

  /** The bracketed body ends right before its closing bracket. */
  lemma BracketStep(h: Host, s: string, i: nat, stack: nat, open: string, close: char, b: nat, xs: seq<Value>, end: nat,
                    r: Outcome<seq<ValueAndSpan>>)
    requires StartsWith(s, i, open) && open != "" && b == i + |open| && Skip(s, b) == b
    requires b <= end < |s| && s[end] == close && IsCloser(close) && r == Bracketed(h, s, i, open, close, stack)
    requires stack > 0 ==> ReadsMany(ParseMany(h, s, b, stack - 1), xs, end, stack - 1)
    ensures ReadsBracket(r, xs, end + 1, stack)
  {
    SkipNothing(s, end);
  }

  lemma BraceStep(h: Host, s: string, i: nat, stack: nat, b: nat, kvs: seq<Entry>, end: nat,
                  r: Outcome<seq<SpannedEntry>>)
    requires StartsWith(s, i, "{") && b == i + 1 && b <= end < |s| && s[end] == '}' && Skip(s, b) == b
    requires stack > 0 ==> ReadsPairs(ParsePairs(h, s, b, stack - 1), kvs, end, stack - 1)
    requires r == Braced(h, s, i, stack)
    ensures ReadsBrace(r, kvs, end + 1, stack)
  {
    SkipNothing(s, end);
  }

  // ---- Where the pieces of a layout stand ----

  lemma {:induction false} BodyFirst(xs: seq<Value>, indent: nat, body: string)
    requires AllGood(xs) && Renders(Concat(Intersperse(Docs(xs))), indent, body)
    ensures if xs == [] then body == "" else body != "" && Starter(body[0])
  {
    if |xs| == 1 {
      assert Docs(xs) == [AsDoc(xs[0])];
      OneRendered(AsDoc(xs[0]), indent, body);
      RenderedFirst(xs[0], indent, body);
    } else if |xs| > 1 {
      var k, m := ManyRendered(Docs(xs), indent, body);
      RenderedFirst(xs[0], indent, body[..k]);
    }
  }

  lemma {:induction false} PairsFirst(kvs: seq<Entry>, indent: nat, body: string)
    requires GoodPairs(kvs) && Renders(Concat(Intersperse(EntryDocs(kvs))), indent, body)
    ensures if kvs == [] then body == "" else body != "" && Starter(body[0])
  {
    if |kvs| == 1 {
      assert EntryDocs(kvs) == [EntryDoc(kvs[0])];
      OneRendered(EntryDoc(kvs[0]), indent, body);
      EntryFirst(kvs[0], indent, body);
    } else if |kvs| > 1 {
      var k, m := ManyRendered(EntryDocs(kvs), indent, body);
      EntryFirst(kvs[0], indent, body[..k]);
    }
  }

  lemma EntryFirst(e: Entry, indent: nat, out: string)
    requires GoodEntry(e) && Renders(EntryDoc(e), indent, out)
    ensures out != "" && Starter(out[0])
  {
    var k, m := EntryRendered(e, indent, out);
    RenderedFirst(e.key, indent, out[..k]);
  }

  /** A text cut at `k` and `m`, with a gap between. */
  lemma CutOccurs(s: string, i: nat, body: string, k: nat, m: nat)
    requires Occurs(s, i, body) && k < m <= |body| && Gap(body[k..m])
    ensures Token(s, i, body[..k]) && Occurs(s, i + k, body[k..m]) && Occurs(s, i + m, body[m..])
  {
    assert body == body[..k] + (body[k..m] + body[m..]);
    OccursParts(s, i, body[..k], body[k..m] + body[m..]);
    OccursParts(s, i + k, body[k..m], body[m..]);
    OccursAt(s, i + k, body[k..m], 0);
  }

  /** A body cut at a gap: the piece before it is delimited, and after the gap the other piece is reached. */
  lemma Cut(s: string, i: nat, body: string, k: nat, m: nat) returns (left: string, cut: nat, right: string, next: nat)
    requires Occurs(s, i, body) && k < m < |body| && Gap(body[k..m]) && Starter(body[m])
    ensures left == body[..k] && Token(s, i, left) && cut == i + |left| && cut <= |s| && next == Skip(s, cut)
    ensures right == body[m..] && Occurs(s, next, right) && next + |right| == i + |body|
  {
    CutOccurs(s, i, body, k, m);
    left, cut, right, next := body[..k], i + k, body[m..], i + m;
    OccursAt(s, next, right, 0);
    SkipGap(s, cut, body[k..m]);
  }

  lemma BracketOccurs(s: string, i: nat, open: string, body: string, close: char)
    requires Occurs(s, i, open + body + [close]) && IsCloser(close)
    ensures var b, end := i + |open|, i + |open| + |body|;
            StartsWith(s, i, open) && Occurs(s, b, body) && end < |s| && s[end] == close
  {
    OccursParts(s, i, open + body, [close]);
    OccursParts(s, i, open, body);
    OccursAt(s, i + |open| + |body|, [close], 0);
    StartsWithSlice(s, i, open);
  }

  /** Nothing is skipped after an opening bracket. */
  lemma NothingAfterOpen(s: string, b: nat, body: string)
    requires Occurs(s, b, body) && b + |body| < |s| && IsCloser(s[b + |body|])
    requires body != "" ==> Starter(body[0])
    ensures Skip(s, b) == b
  {
    if body != "" {
      OccursAt(s, b, body, 0);
    }
    SkipNothing(s, b);
  }

  // ---- Laid out values ----

  /** A layout of `v` stands in `s` from `i` to `end`, delimited. */
  ghost predicate Laid(s: string, i: nat, v: Value, indent: nat, out: string, end: nat) {
    Good(v) && Renders(AsDoc(v), indent, out) && Token(s, i, out) && end == i + |out|
  }

  ghost predicate LaidEntry(s: string, i: nat, e: Entry, indent: nat, out: string, end: nat) {
    GoodEntry(e) && Renders(EntryDoc(e), indent, out) && Token(s, i, out) && end == i + |out|
  }

  /** A layout of the interspersed `xs` stands in `s` from `i` to the closing bracket at `end`. */
  ghost predicate LaidMany(s: string, i: nat, xs: seq<Value>, indent: nat, body: string, end: nat) {
    && AllGood(xs) && Renders(Concat(Intersperse(Docs(xs))), indent, body)
    && Occurs(s, i, body) && end == i + |body| && end < |s| && IsCloser(s[end])
  }

  ghost predicate LaidPairs(s: string, i: nat, kvs: seq<Entry>, indent: nat, body: string, end: nat) {
    && GoodPairs(kvs) && Renders(Concat(Intersperse(EntryDocs(kvs))), indent, body)
    && Occurs(s, i, body) && end == i + |body| && end < |s| && IsCloser(s[end])
  }

  lemma LaidStart(s: string, i: nat, v: Value, indent: nat, out: string, end: nat)
    requires Laid(s, i, v, indent, out, end)
    ensures i < end <= |s| && Skip(s, i) == i
  {
    RenderedFirst(v, indent, out);
    OccursAt(s, i, out, 0);
    SkipNothing(s, i);
  }

  lemma LaidOne(s: string, i: nat, xs: seq<Value>, indent: nat, body: string, end: nat)
    requires LaidMany(s, i, xs, indent, body, end) && |xs| == 1
    ensures Laid(s, i, xs[0], indent, body, end) && Skip(s, end) == end
  {
    assert Docs(xs) == [AsDoc(xs[0])];
    OneRendered(AsDoc(xs[0]), indent, body);
    SkipNothing(s, end);
  }

  lemma FirstRendered(xs: seq<Value>, indent: nat, body: string) returns (k: nat, m: nat)
    requires |xs| > 1 && AllGood(xs) && Renders(Concat(Intersperse(Docs(xs))), indent, body)
    ensures k < m < |body| && Gap(body[k..m]) && Starter(body[m])
    ensures Renders(AsDoc(xs[0]), indent, body[..k])
    ensures Renders(Concat(Intersperse(Docs(xs[1..]))), indent, body[m..])
  {
    k, m := ManyRendered(Docs(xs), indent, body);
    BodyFirst(xs[1..], indent, body[m..]);
  }

  lemma LaidFirst(s: string, i: nat, xs: seq<Value>, indent: nat, body: string, end: nat)
    returns (out: string, cut: nat, rest: string, next: nat)
    requires LaidMany(s, i, xs, indent, body, end) && |xs| > 1
    ensures Laid(s, i, xs[0], indent, out, cut) && cut <= |s| && next == Skip(s, cut)
    ensures LaidMany(s, next, xs[1..], indent, rest, end)
  {
    var k, m := FirstRendered(xs, indent, body);
    out, cut, rest, next := Cut(s, i, body, k, m);
  }

  lemma LaidOnePair(s: string, i: nat, kvs: seq<Entry>, indent: nat, body: string, end: nat)
    requires LaidPairs(s, i, kvs, indent, body, end) && |kvs| == 1
    ensures LaidEntry(s, i, kvs[0], indent, body, end) && Skip(s, end) == end
  {
    assert EntryDocs(kvs) == [EntryDoc(kvs[0])];
    OneRendered(EntryDoc(kvs[0]), indent, body);
    SkipNothing(s, end);
  }

  lemma FirstPairRendered(kvs: seq<Entry>, indent: nat, body: string) returns (k: nat, m: nat)
    requires |kvs| > 1 && GoodPairs(kvs) && Renders(Concat(Intersperse(EntryDocs(kvs))), indent, body)
    ensures k < m < |body| && Gap(body[k..m]) && Starter(body[m])
    ensures Renders(EntryDoc(kvs[0]), indent, body[..k])
    ensures Renders(Concat(Intersperse(EntryDocs(kvs[1..]))), indent, body[m..])
  {
    k, m := ManyRendered(EntryDocs(kvs), indent, body);
    PairsFirst(kvs[1..], indent, body[m..]);
  }

  lemma LaidFirstPair(s: string, i: nat, kvs: seq<Entry>, indent: nat, body: string, end: nat)
    returns (out: string, cut: nat, rest: string, next: nat)
    requires LaidPairs(s, i, kvs, indent, body, end) && |kvs| > 1
    ensures LaidEntry(s, i, kvs[0], indent, out, cut) && cut <= |s| && next == Skip(s, cut)
    ensures LaidPairs(s, next, kvs[1..], indent, rest, end)
  {
    var k, m := FirstPairRendered(kvs, indent, body);
    out, cut, rest, next := Cut(s, i, body, k, m);
  }

  lemma HalvesRendered(e: Entry, indent: nat, out: string) returns (k: nat, m: nat)
    requires GoodEntry(e) && Renders(EntryDoc(e), indent, out)
    ensures k < m < |out| && Gap(out[k..m]) && Starter(out[m])
    ensures Renders(AsDoc(e.key), indent, out[..k]) && Renders(AsDoc(e.val), indent, out[m..])
  {
    k, m := EntryRendered(e, indent, out);
    RenderedFirst(e.val, indent, out[m..]);
  }

  lemma LaidHalves(s: string, i: nat, e: Entry, indent: nat, out: string, end: nat)
    returns (left: string, cut: nat, right: string, next: nat)
    requires LaidEntry(s, i, e, indent, out, end)
    ensures Laid(s, i, e.key, indent, left, cut) && cut <= |s| && next == Skip(s, cut)
    ensures Laid(s, next, e.val, indent, right, end)
  {
    var k, m := HalvesRendered(e, indent, out);
    left, cut, right, next := Cut(s, i, out, k, m);
  }

  lemma BodyRendered(open: string, close: char, xs: seq<Value>, indent: nat, out: string) returns (body: string)
    requires AllGood(xs) && Renders(Bracket(open, Docs(xs), [close]), indent, out)
    ensures out == open + body + [close] && Renders(Concat(Intersperse(Docs(xs))), indent + |open|, body)
    ensures body != "" ==> Starter(body[0])
  {
    body := BracketParts(open, Docs(xs), [close], indent, out);
    BodyFirst(xs, indent + |open|, body);
  }

  /** A bracketed sequence and what is inside. */
  lemma LaidBody(s: string, i: nat, open: string, close: char, xs: seq<Value>, indent: nat, out: string)
    returns (body: string, b: nat, end: nat)
    requires AllGood(xs) && IsCloser(close)
    requires Renders(Bracket(open, Docs(xs), [close]), indent, out) && Occurs(s, i, out)
    ensures StartsWith(s, i, open) && b == i + |open| && b <= end && end + 1 == i + |out| && Skip(s, b) == b
    ensures LaidMany(s, b, xs, indent + |open|, body, end) && s[end] == close
  {
    body := BodyRendered(open, close, xs, indent, out);
    b, end := i + |open|, i + |open| + |body|;
    BracketOccurs(s, i, open, body, close);
    NothingAfterOpen(s, b, body);
  }

  lemma EntriesRendered(kvs: seq<Entry>, indent: nat, out: string) returns (body: string)
    requires GoodPairs(kvs) && Renders(Bracket("{", EntryDocs(kvs), "}"), indent, out)
    ensures out == "{" + body + "}" && Renders(Concat(Intersperse(EntryDocs(kvs))), indent + 1, body)
    ensures body != "" ==> Starter(body[0])
  {
    body := BracketParts("{", EntryDocs(kvs), "}", indent, out);
    PairsFirst(kvs, indent + 1, body);
  }

  lemma LaidEntries(s: string, i: nat, kvs: seq<Entry>, indent: nat, out: string)
    returns (body: string, b: nat, end: nat)
    requires GoodPairs(kvs) && Renders(Bracket("{", EntryDocs(kvs), "}"), indent, out) && Occurs(s, i, out)
    ensures StartsWith(s, i, "{") && b == i + 1 && b <= end && end + 1 == i + |out| && Skip(s, b) == b
    ensures LaidPairs(s, b, kvs, indent + 1, body, end) && s[end] == '}'
  {
    body := EntriesRendered(kvs, indent, out);
    b, end := i + 1, i + 1 + |body|;
    BracketOccurs(s, i, "{", body, '}');
    NothingAfterOpen(s, b, body);
  }

  // ---- The recursion ----

  lemma {:induction false} ValueReads(h: Host, s: string, i: nat, stack: nat, v: Value, indent: nat, out: string,
                                      end: nat, next: nat, r: Outcome<ValueAndSpan>)
    requires Laid(s, i, v, indent, out, end) && next == Skip(s, end) && r == ParseValue(h, s, i, stack)
    ensures Reads(r, v, next, stack)
    decreases Nesting(v), 1
  {
    LaidStart(s, i, v, indent, out, end);
    var inner := ParseInner(h, s, i, stack);
    InnerReads(h, s, i, stack, v, indent, out, end, inner);
    ValueOfInner(h, s, i, stack, v, end, next, inner, r);
  }

  lemma {:induction false} InnerReads(h: Host, s: string, i: nat, stack: nat, v: Value, indent: nat, out: string,
                                      end: nat, r: Outcome<SpannedValue>)
    requires Laid(s, i, v, indent, out, end) && r == ParseInner(h, s, i, stack)
    ensures ReadsInner(r, v, end, stack)
    decreases Nesting(v), 0
  {
    if v.Vector? {
      GoodChildren(v, v.vs);
      VectorReads(h, s, i, stack, v.vs, indent, out, end, r);
    } else if v.List? {
      GoodChildren(v, v.ls);
      ListReads(h, s, i, stack, v.ls, indent, out, end, r);
    } else if v.Set? {
      GoodChildren(v, v.es);
      SetReads(h, s, i, stack, v.es, indent, out, end, r);
    } else if v.Map? {
      GoodEntries(v, v.kvs);
      MapDocIs(v.kvs);
      MapReads(h, s, i, stack, v.kvs, indent, out, end, r);
    } else {
      AtomReads(h, s, i, v, out);
    }
  }

  lemma {:induction false} VectorReads(h: Host, s: string, i: nat, stack: nat, xs: seq<Value>, indent: nat, out: string,
                                       end: nat, r: Outcome<SpannedValue>)
    requires AllGood(xs) && Renders(AsDoc(Vector(xs)), indent, out) && Occurs(s, i, out) && end == i + |out|
    requires r == ParseInner(h, s, i, stack)
    ensures ReadsInner(r, Vector(xs), end, stack)
    decreases NestingAll(xs), 4
  {
    var b := Bracketed(h, s, i, "[", ']', stack);
    SequenceReads(h, s, i, stack, "[", ']', xs, indent, out, end, b);
    NoAtomAtBracket(h, s, i);
    NotOpened(h, s, i, stack);
  }

  lemma {:induction false} ListReads(h: Host, s: string, i: nat, stack: nat, xs: seq<Value>, indent: nat, out: string,
                                     end: nat, r: Outcome<SpannedValue>)
    requires AllGood(xs) && Renders(AsDoc(List(xs)), indent, out) && Occurs(s, i, out) && end == i + |out|
    requires r == ParseInner(h, s, i, stack)
    ensures ReadsInner(r, List(xs), end, stack)
    decreases NestingAll(xs), 4
  {
    var b := Bracketed(h, s, i, "(", ')', stack);
    SequenceReads(h, s, i, stack, "(", ')', xs, indent, out, end, b);
    NoAtomAtBracket(h, s, i);
    NotOpened(h, s, i, stack);
  }

  lemma {:induction false} SetReads(h: Host, s: string, i: nat, stack: nat, xs: seq<Value>, indent: nat, out: string,
                                    end: nat, r: Outcome<SpannedValue>)
    requires AllGood(xs) && Renders(Bracket("#{", Docs(xs), "}"), indent, out) && Occurs(s, i, out) && end == i + |out|
    requires StrictlyAscending(xs, ValueLe) && r == ParseInner(h, s, i, stack)
    ensures ReadsInner(r, Set(xs), end, stack)
    decreases NestingAll(xs), 4
  {
    var b := Bracketed(h, s, i, "#{", '}', stack);
    SequenceReads(h, s, i, stack, "#{", '}', xs, indent, out, end, b);
    SetStep(h, s, i, stack, xs, end, b, r);
  }

  lemma {:induction false} SequenceReads(h: Host, s: string, i: nat, stack: nat, open: string, close: char,
                                         xs: seq<Value>, indent: nat, out: string, end: nat,
                                         r: Outcome<seq<ValueAndSpan>>)
    requires AllGood(xs) && open != "" && IsCloser(close) && end == i + |out|
    requires Renders(Bracket(open, Docs(xs), [close]), indent, out) && Occurs(s, i, out)
    requires r == Bracketed(h, s, i, open, close, stack)
    ensures StartsWith(s, i, open) && ReadsBracket(r, xs, end, stack)
    decreases NestingAll(xs), 3, 1
  {
    var body, b, last := LaidBody(s, i, open, close, xs, indent, out);
    BodyReads(h, s, i, stack, open, close, b, xs, indent + |open|, body, last, r);
  }

  lemma {:induction false} BodyReads(h: Host, s: string, i: nat, stack: nat, open: string, close: char, b: nat,
                                     xs: seq<Value>, indent: nat, body: string, last: nat,
                                     r: Outcome<seq<ValueAndSpan>>)
    requires StartsWith(s, i, open) && open != "" && b == i + |open| && b <= last && Skip(s, b) == b
    requires LaidMany(s, b, xs, indent, body, last) && s[last] == close && IsCloser(close)
    requires r == Bracketed(h, s, i, open, close, stack)
    ensures ReadsBracket(r, xs, last + 1, stack)
    decreases NestingAll(xs), 3, 0
  {
    if stack > 0 {
      ManyReads(h, s, b, stack - 1, xs, indent, body, last, ParseMany(h, s, b, stack - 1));
    }
    BracketStep(h, s, i, stack, open, close, b, xs, last, r);
  }

  lemma {:induction false} ManyReads(h: Host, s: string, i: nat, stack: nat, xs: seq<Value>, indent: nat, body: string,
                                     end: nat, r: Outcome<seq<ValueAndSpan>>)
    requires LaidMany(s, i, xs, indent, body, end) && r == ParseMany(h, s, i, stack)
    ensures ReadsMany(r, xs, end, stack)
    decreases NestingAll(xs), 2, |xs|, 1
  {
    if |xs| == 0 {
      NothingMore(h, s, end, stack);
    } else if |xs| == 1 {
      LaidOne(s, i, xs, indent, body, end);
      OnlyRead(h, s, i, stack, xs, indent, body, end, r);
    } else {
      var out, cut, rest, next := LaidFirst(s, i, xs, indent, body, end);
      FirstAndRestRead(h, s, i, stack, xs, indent, out, rest, cut, next, end, r);
    }
  }

  lemma {:induction false} OnlyRead(h: Host, s: string, i: nat, stack: nat, xs: seq<Value>, indent: nat, out: string,
                                    end: nat, r: Outcome<seq<ValueAndSpan>>)
    requires |xs| == 1 && Laid(s, i, xs[0], indent, out, end) && Skip(s, end) == end < |s| && IsCloser(s[end])
    requires r == ParseMany(h, s, i, stack)
    ensures ReadsMany(r, xs, end, stack)
    decreases NestingAll(xs), 2, |xs|, 0
  {
    var first, rest := ParseValue(h, s, i, stack), ParseMany(h, s, end, stack);
    ValueReads(h, s, i, stack, xs[0], indent, out, end, end, first);
    NothingMore(h, s, end, stack);
    ManyStep(h, s, i, stack, xs, end, end, first, rest, r);
  }

  lemma {:induction false} FirstAndRestRead(h: Host, s: string, i: nat, stack: nat, xs: seq<Value>, indent: nat,
                                            out: string, body: string, cut: nat, next: nat, end: nat,
                                            r: Outcome<seq<ValueAndSpan>>)
    requires |xs| > 1 && Laid(s, i, xs[0], indent, out, cut) && next == Skip(s, cut)
    requires LaidMany(s, next, xs[1..], indent, body, end) && r == ParseMany(h, s, i, stack)
    ensures ReadsMany(r, xs, end, stack)
    decreases NestingAll(xs), 2, |xs|, 0
  {
    var first, rest := ParseValue(h, s, i, stack), ParseMany(h, s, next, stack);
    ValueReads(h, s, i, stack, xs[0], indent, out, cut, next, first);
    ManyReads(h, s, next, stack, xs[1..], indent, body, end, rest);
    ManyStep(h, s, i, stack, xs, next, end, first, rest, r);
  }

  lemma {:induction false} EntryReads(h: Host, s: string, i: nat, stack: nat, e: Entry, indent: nat, out: string,
                                      end: nat, next: nat, r: Outcome<SpannedEntry>)
    requires LaidEntry(s, i, e, indent, out, end) && next == Skip(s, end) && r == ParsePair(h, s, i, stack)
    ensures ReadsEntry(r, e, next, stack)
    decreases NestingEntry(e), 3
  {
    var left, cut, right, mid := LaidHalves(s, i, e, indent, out, end);
    HalvesRead(h, s, i, stack, e, indent, left, right, cut, mid, end, next, r);
  }

  lemma {:induction false} HalvesRead(h: Host, s: string, i: nat, stack: nat, e: Entry, indent: nat,
                                      left: string, right: string, cut: nat, mid: nat, end: nat, next: nat,
                                      r: Outcome<SpannedEntry>)
    requires Laid(s, i, e.key, indent, left, cut) && mid == Skip(s, cut)
    requires Laid(s, mid, e.val, indent, right, end) && next == Skip(s, end) && r == ParsePair(h, s, i, stack)
    ensures ReadsEntry(r, e, next, stack)
    decreases NestingEntry(e), 2
  {
    var key, val := ParseValue(h, s, i, stack), ParseValue(h, s, mid, stack);
    ValueReads(h, s, i, stack, e.key, indent, left, cut, mid, key);
    ValueReads(h, s, mid, stack, e.val, indent, right, end, next, val);
    EntryStep(h, s, i, stack, e, mid, next, key, val, r);
  }

  lemma {:induction false} PairsRead(h: Host, s: string, i: nat, stack: nat, kvs: seq<Entry>, indent: nat, body: string,
                                     end: nat, r: Outcome<seq<SpannedEntry>>)
    requires LaidPairs(s, i, kvs, indent, body, end) && r == ParsePairs(h, s, i, stack)
    ensures ReadsPairs(r, kvs, end, stack)
    decreases NestingPairs(kvs), 4, |kvs|, 1
  {
    if |kvs| == 0 {
      NothingMore(h, s, end, stack);
    } else if |kvs| == 1 {
      LaidOnePair(s, i, kvs, indent, body, end);
      OnlyPairRead(h, s, i, stack, kvs, indent, body, end, r);
    } else {
      var out, cut, rest, next := LaidFirstPair(s, i, kvs, indent, body, end);
      FirstAndRestPairsRead(h, s, i, stack, kvs, indent, out, rest, cut, next, end, r);
    }
  }

  lemma {:induction false} OnlyPairRead(h: Host, s: string, i: nat, stack: nat, kvs: seq<Entry>, indent: nat,
                                        out: string, end: nat, r: Outcome<seq<SpannedEntry>>)
    requires |kvs| == 1 && LaidEntry(s, i, kvs[0], indent, out, end) && Skip(s, end) == end < |s| && IsCloser(s[end])
    requires r == ParsePairs(h, s, i, stack)
    ensures ReadsPairs(r, kvs, end, stack)
    decreases NestingPairs(kvs), 4, |kvs|, 0
  {
    var first, rest := ParsePair(h, s, i, stack), ParsePairs(h, s, end, stack);
    EntryReads(h, s, i, stack, kvs[0], indent, out, end, end, first);
    NothingMore(h, s, end, stack);
    PairsStep(h, s, i, stack, kvs, end, end, first, rest, r);
  }

  lemma {:induction false} FirstAndRestPairsRead(h: Host, s: string, i: nat, stack: nat, kvs: seq<Entry>, indent: nat,
                                                 out: string, body: string, cut: nat, next: nat, end: nat,
                                                 r: Outcome<seq<SpannedEntry>>)
    requires |kvs| > 1 && LaidEntry(s, i, kvs[0], indent, out, cut) && next == Skip(s, cut)
    requires LaidPairs(s, next, kvs[1..], indent, body, end) && r == ParsePairs(h, s, i, stack)
    ensures ReadsPairs(r, kvs, end, stack)
    decreases NestingPairs(kvs), 4, |kvs|, 0
  {
    var first, rest := ParsePair(h, s, i, stack), ParsePairs(h, s, next, stack);
    EntryReads(h, s, i, stack, kvs[0], indent, out, cut, next, first);
    PairsRead(h, s, next, stack, kvs[1..], indent, body, end, rest);
    PairsStep(h, s, i, stack, kvs, next, end, first, rest, r);
  }

  /** A braced map whose entries stand in the order `es`. */
  lemma {:induction false} BraceReads(h: Host, s: string, i: nat, stack: nat, es: seq<Entry>, indent: nat, out: string,
                                      end: nat, r: Outcome<seq<SpannedEntry>>)
    requires GoodPairs(es) && Renders(Bracket("{", EntryDocs(es), "}"), indent, out) && Occurs(s, i, out)
    requires end == i + |out| && r == Braced(h, s, i, stack)
    ensures StartsWith(s, i, "{") && ReadsBrace(r, es, end, stack)
    decreases NestingPairs(es), 5
  {
    var body, b, last := LaidEntries(s, i, es, indent, out);
    if stack > 0 {
      PairsRead(h, s, b, stack - 1, es, indent + 1, body, last, ParsePairs(h, s, b, stack - 1));
    }
    BraceStep(h, s, i, stack, b, es, last, r);
  }

  lemma {:induction false} PairsNesting(kvs: seq<Entry>, n: nat)
    ensures NestingPairs(kvs) <= n <==> forall e :: e in kvs ==> NestingEntry(e) <= n
  {
    if kvs != [] {
      var rest := kvs[1..];
      PairsNesting(rest, n);
      assert kvs[0] in kvs && forall e :: e in rest ==> e in kvs;
      if NestingPairs(kvs) <= n {
        forall e | e in kvs ensures NestingEntry(e) <= n {
          assert e == kvs[0] || e in rest;
        }
      }
    }
  }

  lemma ReversedPairs(kvs: seq<Entry>)
    requires GoodPairs(kvs)
    ensures GoodPairs(Reverse(kvs)) && NestingPairs(Reverse(kvs)) == NestingPairs(kvs)
  {
    var es := Reverse(kvs);
    ReverseElements(kvs);
    SameElements(es, kvs);
    PairsNesting(es, NestingPairs(kvs));
    PairsNesting(kvs, NestingPairs(kvs));
    PairsNesting(es, NestingPairs(es));
    PairsNesting(kvs, NestingPairs(es));
    forall i | 0 <= i < |es| ensures GoodEntry(es[i]) {
      assert es[i] in kvs;
    }
  }

  lemma MapDocIs(kvs: seq<Entry>)
    ensures AsDoc(Map(kvs)) == Bracket("{", EntryDocs(Reverse(kvs)), "}")
  {
    ReversedDocs(kvs);
  }

  lemma {:induction false} MapReads(h: Host, s: string, i: nat, stack: nat, kvs: seq<Entry>, indent: nat, out: string,
                                    end: nat, r: Outcome<SpannedValue>)
    requires GoodPairs(kvs) && Renders(Bracket("{", EntryDocs(Reverse(kvs)), "}"), indent, out)
    requires Occurs(s, i, out) && end == i + |out|
    requires StrictlyAscending(kvs, KeyLe) && r == ParseInner(h, s, i, stack)
    ensures ReadsInner(r, Map(kvs), end, stack)
    decreases NestingPairs(kvs), 6
  {
    var m := Braced(h, s, i, stack);
    ReversedPairs(kvs);
    BraceReads(h, s, i, stack, Reverse(kvs), indent, out, end, m);
    MapStep(h, s, i, stack, kvs, end, m, r);
  }
}
