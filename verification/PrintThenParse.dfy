/** `Value::to_pretty` followed by `parse::value` (edn/src/pretty_print.rs, edn/src/lib.rs, edn/src/depth.rs). */
module PrintThenParse {
  import opened Prelude
  import opened Values
  import opened Spanned
  import opened Lexical
  import opened Depth
  import opened Parser
  import opened Recursion
  import opened Printer
  import opened Readable
  import opened AtomReadBack
  import opened RoundTrip
  import opened ReadBack
  import opened Literals

  /** The entry point reads `out` as `v`, up to spans. */
  ghost predicate ReadsBack(h: Host, out: string, v: Value, stack: nat) {
    var r := ParseTop(h, out, stack);
    r.Accepted? && WithoutSpans(r.v) == v
  }

  /** Any layout of a readable value, read with any stack. */
  lemma WholeReads(h: Host, v: Value, out: string, stack: nat)
    requires Good(v) && Prints(v, out)
    ensures Reads(ParseValue(h, out, 0, stack), v, |out|, stack)
  {
    WholeLaid(v, out);
    ValueReads(h, out, 0, stack, v, 0, out, |out|, |out|, ParseValue(h, out, 0, stack));
  }

  lemma WholeLaid(v: Value, out: string)
    requires Good(v) && Prints(v, out)
    ensures Laid(out, 0, v, 0, out, |out|) && Skip(out, |out|) == |out|
  {
    WholeToken(out);
  }

  lemma WholeToken(out: string)
    ensures Token(out, 0, out) && Skip(out, |out|) == |out|
  {
    assert out[0..] == out;
    SkipNothing(out, |out|);
  }

  /** The nesting scan measures exactly the nesting of the printed value. */
  lemma PrintedNesting(h: Host, v: Value, out: string, max: nat)
    requires InFragment(v) && WellFormed(v) && IsReadable(v) && Prints(v, out)
    ensures NestingOk(out, max) <==> Nesting(v) <= max
  {
    var n := Nesting(v);
    WholeReads(h, v, out, n);
    WholeReads(h, v, out, max);
    GuardIsExact(h, out, ParseValue(h, out, 0, n).value, n, max);
    if n <= max {
      ValueMonotone(h, out, 0, n, max);
    }
  }

  /** What the entry point makes of a printed value whose names are readable. */
  lemma ReadableReadsBack(h: Host, v: Value, out: string, stack: nat)
    requires InFragment(v) && WellFormed(v) && IsReadable(v) && Prints(v, out) && stack >= MAX_NESTING
    ensures if Nesting(v) <= MAX_NESTING then ReadsBack(h, out, v, stack) else ParseTop(h, out, stack).TooDeep?
  {
    PrintedNesting(h, v, out, MAX_NESTING);
    WholeReads(h, v, out, stack);
  }

  /** The round trip holds exactly for readable names and at most `MAX_NESTING` levels, for every layout. */
  lemma RoundTripExactly(h: Host, v: Value, out: string, stack: nat)
    requires InFragment(v) && WellFormed(v) && Prints(v, out) && stack >= MAX_NESTING
    ensures ReadsBack(h, out, v, stack) <==> IsReadable(v) && Nesting(v) <= MAX_NESTING
  {
    if ReadsBack(h, out, v, stack) {
      ValueReadable(h, out, 0, stack);
      ReadableReadsBack(h, v, out, stack);
    }
    if IsReadable(v) {
      ReadableReadsBack(h, v, out, stack);
    }
  }

  /** Blanks and comments around a layout change nothing, brackets in the comments included. */
  lemma SurroundedReadsBack(h: Host, v: Value, before: seq<Piece>, out: string, after: seq<Piece>, s: string,
                            stack: nat)
    requires Good(v) && Prints(v, out) && Nesting(v) <= MAX_NESTING <= stack
    requires IsGap(before) && IsGap(after) && (after != [] ==> after[0] == Blank(' ') || after[0] == Blank('\n'))
    requires s == GapText(before) + out + GapText(after)
    ensures ReadsBack(h, s, v, stack)
  {
    var i := |GapText(before)|;
    var end := i + |out|;
    ThreePieces(GapText(before), out, GapText(after), s);
    GapDelimits(s, end, after);
    PieceLaid(s, i, v, out, end);
    GapBefore(s, before, i);
    GapAfter(s, end, after);
    LaidAccepted(h, s, i, v, out, end, stack);
  }

  lemma GapBefore(s: string, ps: seq<Piece>, i: nat)
    requires IsGap(ps) && Occurs(s, 0, GapText(ps)) && i == |GapText(ps)| && Skip(s, i) == i
    ensures Skip(s, 0) == i
  {
    GapSkipped(s, 0, ps, GapText(ps), i);
  }

  lemma GapAfter(s: string, end: nat, ps: seq<Piece>)
    requires IsGap(ps) && Occurs(s, end, GapText(ps)) && end + |GapText(ps)| == |s|
    ensures Skip(s, end) == |s|
  {
    GapSkipped(s, end, ps, GapText(ps), |s|);
    SkipNothing(s, |s|);
  }

  lemma GapDelimits(s: string, end: nat, ps: seq<Piece>)
    requires Occurs(s, end, GapText(ps)) && end + |GapText(ps)| == |s|
    requires ps != [] ==> ps[0] == Blank(' ') || ps[0] == Blank('\n')
    ensures Delimited(s, end)
  {
    if ps != [] {
      OccursAt(s, end, GapText(ps), 0);
    }
  }

  /** A layout in its place. */
  lemma PieceLaid(s: string, i: nat, v: Value, out: string, end: nat)
    requires Good(v) && Prints(v, out) && Occurs(s, i, out) && Delimited(s, end) && end == i + |out|
    ensures Laid(s, i, v, 0, out, end) && i < |s| && Skip(s, i) == i && !IsBlank(s[i]) && s[i] != ';'
  {
    LaidStart(s, i, v, 0, out, end);
    VisibleStart(s, i);
  }

  lemma VisibleStart(s: string, i: nat)
    requires i < |s| && Skip(s, i) == i
    ensures !IsBlank(s[i]) && s[i] != ';'
  {
  }

  lemma LaidAccepted(h: Host, s: string, i: nat, v: Value, out: string, end: nat, stack: nat)
    requires Laid(s, i, v, 0, out, end) && Skip(s, 0) == i && Skip(s, end) == |s|
    requires Nesting(v) <= MAX_NESTING <= stack
    ensures ReadsBack(h, s, v, stack)
  {
    SurroundedReads(h, v, s, i, out, end, stack);
    SurroundedReads(h, v, s, i, out, end, MAX_NESTING);
    WholeAccepted(h, s, v, stack);
  }

  lemma WholeAccepted(h: Host, s: string, v: Value, stack: nat)
    requires Nesting(v) <= MAX_NESTING <= stack && Reads(ParseValue(h, s, 0, stack), v, |s|, stack)
    requires Reads(ParseValue(h, s, 0, MAX_NESTING), v, |s|, MAX_NESTING)
    ensures ReadsBack(h, s, v, stack)
  {
    GuardIsExact(h, s, ParseValue(h, s, 0, MAX_NESTING).value, MAX_NESTING, MAX_NESTING);
  }

  lemma SurroundedReads(h: Host, v: Value, s: string, i: nat, out: string, end: nat, stack: nat)
    requires Laid(s, i, v, 0, out, end) && Skip(s, 0) == i && Skip(s, end) == |s|
    ensures Reads(ParseValue(h, s, 0, stack), v, |s|, stack)
  {
    LaidStart(s, i, v, 0, out, end);
    ValueReads(h, s, i, stack, v, 0, out, end, |s|, ParseValue(h, s, i, stack));
    SameStart(h, s, i, stack);
  }

  lemma SameStart(h: Host, s: string, i: nat, stack: nat)
    requires i <= |s| && Skip(s, 0) == i && Skip(s, i) == i
    ensures ParseValue(h, s, 0, stack) == ParseValue(h, s, i, stack)
  {
  }

  lemma ThreePieces(a: string, b: string, c: string, s: string)
    requires s == a + b + c
    ensures Occurs(s, 0, a) && Occurs(s, |a|, b) && Occurs(s, |a| + |b|, c) && |s| == |a| + |b| + |c|
  {
    assert s[0..|a|] == a && s[|a|..|a| + |b|] == b && s[|a| + |b|..|s|] == c;
  }

  /** Two values with a common layout are equal. */
  lemma LayoutDeterminesValue(h: Host, v: Value, w: Value, out: string)
    requires Good(v) && Good(w) && Prints(v, out) && Prints(w, out)
    ensures v == w
  {
    var stack := Max(Nesting(v), Nesting(w));
    WholeReads(h, v, out, stack);
    WholeReads(h, w, out, stack);
  }

  /** One value after another is never accepted, whatever blanks stand between them. */
  lemma TwoValuesRejected(h: Host, v: Value, w: Value, a: string, gap: string, b: string, stack: nat)
    requires Good(v) && Good(w) && Prints(v, a) && Prints(w, b)
    requires gap != "" && forall k :: 0 <= k < |gap| ==> gap[k] == ' ' || gap[k] == '\n'
    ensures !ParseTop(h, a + gap + b, stack).Accepted?
  {
    var s, m := a + gap + b, |a| + |gap|;
    ThreePieces(a, gap, b, s);
    OccursAt(s, |a|, gap, 0);
    PieceLaid(s, 0, v, a, |a|);
    PieceLaid(s, m, w, b, |s|);
    SkipGap(s, |a|, gap);
    ValueReads(h, s, 0, stack, v, 0, a, |a|, m, ParseValue(h, s, 0, stack));
    PartRejected(h, s, v, m, stack);
  }

  lemma PartRejected(h: Host, s: string, v: Value, m: nat, stack: nat)
    requires Reads(ParseValue(h, s, 0, stack), v, m, stack) && m < |s|
    ensures !ParseTop(h, s, stack).Accepted?
  {
  }

  lemma {:induction false} OffsetCountsBytes(s: string, i: nat)
    requires i <= |s|
    ensures ByteOffset(s, i) == |Encode(s[..i])|
  {
    if i > 0 {
      OffsetCountsBytes(s, i - 1);
      assert s[..i][..i - 1] == s[..i - 1];
    }
  }

  /** Wherever a layout stands, the span of the value read covers its bytes and no others. */
  lemma LaidSpan(h: Host, s: string, i: nat, stack: nat, v: Value, indent: nat, out: string, end: nat)
    requires Laid(s, i, v, indent, out, end) && Nesting(v) <= stack
    ensures var r := ParseValue(h, s, i, stack);
            r.Match? && r.value.span == NewSpan(|Encode(s[..i])|, |Encode(s[..end])|)
  {
    LaidStart(s, i, v, indent, out, end);
    InnerReads(h, s, i, stack, v, indent, out, end, ParseInner(h, s, i, stack));
    OffsetCountsBytes(s, i);
    OffsetCountsBytes(s, end);
  }

  /** A symbol that begins with `nil` is printed but not read back: the constant shadows it. */
  lemma ShadowedSymbolIsLost(h: Host, stack: nat)
    requires stack >= MAX_NESTING
    ensures Prints(PlainSymbol("nilable"), "nilable") && !ReadsBack(h, "nilable", PlainSymbol("nilable"), stack)
  {
    var v := PlainSymbol("nilable");
    assert AsDoc(v) == Txt(AtomText(v));
    assert "nil" <= "nilable";
    RoundTripExactly(h, v, "nilable", stack);
  }
}
