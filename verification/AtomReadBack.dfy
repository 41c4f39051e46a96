/** Printed atoms are read back (edn/src/pretty_print.rs against edn/src/lib.rs). */
module AtomReadBack {
  import opened Prelude
  import opened Names
  import opened Values
  import opened Spanned
  import opened Lexical
  import opened Printer
  import opened Readable

  /** What follows a value in printed text: a blank, a newline, a closing bracket, or nothing. */
  predicate IsDelimiter(c: char) {
    c == ' ' || c == '\n' || c == ')' || c == ']' || c == '}'
  }

  predicate Delimited(s: string, j: nat) {
    j == |s| || (j < |s| && IsDelimiter(s[j]))
  }

  /** `t` stands in `s` at `i` and is delimited. */
  ghost predicate Token(s: string, i: nat, t: string) {
    Occurs(s, i, t) && Delimited(s, i + |t|)
  }

  /** A literal that starts where the delimited text `t` stands is a prefix of `t`. */
  lemma LiteralPrefix(s: string, i: nat, t: string, lit: string)
    requires Token(s, i, t) && StartsWith(s, i, lit)
    requires forall k :: 0 <= k < |lit| ==> !IsDelimiter(lit[k])
    ensures lit <= t
  {
    if |t| < |lit| {
      StartsWithAt(s, i, lit, |t|);
    }
    StartsWithSlice(s, i, lit);
    assert s[i..i + |lit|] == s[i..i + |t|][..|lit|];
  }

  lemma OccursParts(s: string, i: nat, a: string, b: string)
    requires Occurs(s, i, a + b)
    ensures Occurs(s, i, a) && Occurs(s, i + |a|, b)
  {
    var w := a + b;
    assert s[i..i + |a|] == s[i..i + |w|][..|a|];
    assert s[i + |a|..i + |a| + |b|] == s[i..i + |w|][|a|..];
  }

  lemma OccursThree(s: string, i: nat, a: string, c: char, b: string)
    requires Occurs(s, i, a + [c] + b)
    ensures Occurs(s, i, a) && i + |a| < |s| && s[i + |a|] == c && Occurs(s, i + |a| + 1, b)
  {
    OccursParts(s, i, a + [c], b);
    OccursParts(s, i, a, [c]);
    OccursAt(s, i + |a|, [c], 0);
  }

  lemma NotStarts(s: string, i: nat, lit: string, k: nat)
    requires k < |lit| && (i + k >= |s| || s[i + k] != lit[k])
    ensures !StartsWith(s, i, lit)
  {
    if StartsWith(s, i, lit) {
      StartsWithAt(s, i, lit, k);
    }
  }

  // ---- Numbers ----

  lemma {:induction false} DecimalReads(n: nat)
    ensures RadixValue(Decimal(n), 10) == Some(n)
    ensures forall k :: 0 <= k < |Decimal(n)| ==> IsDigit(Decimal(n)[k])
    ensures Decimal(n)[0] == '0' ==> |Decimal(n)| == 1
  {
    var d := Decimal(n);
    if n < 10 {
      assert d[..0] == "";
    } else {
      DecimalReads(n / 10);
      assert d[..|d| - 1] == Decimal(n / 10);
    }
  }

  lemma SignedReads(n: int)
    ensures SignedValue(Signed(n)) == Some(n)
    ensures var t := Signed(n);
            && t != "" && (IsDigit(t[0]) || (t[0] == '-' && |t| > 1))
            && (forall k :: 1 <= k < |t| ==> IsDigit(t[k]))
            && (t[0] == '0' ==> |t| == 1)
  {
    DecimalReads(if n < 0 then -n else n);
    if n < 0 {
      assert Signed(n)[1..] == Decimal(-n);
    }
  }

  lemma SignedDigitsAt(s: string, i: nat, n: int)
    requires var t := Signed(n); Occurs(s, i, t) && (i + |t| == |s| || !IsDigit(s[i + |t|]))
    ensures SignedDigits(s, i) == Some(i + |Signed(n)|)
  {
    var t := Signed(n);
    SignedReads(n);
    forall k | 0 <= k < |t| ensures s[i + k] == t[k] {
      OccursAt(s, i, t, k);
    }
    var j := if t[0] == '-' then i + 1 else i;
    assert s[i + 0] == t[0];
    forall m | j <= m < i + |t| ensures IsDigit(s[m]) {
      assert s[i + (m - i)] == t[m - i];
    }
    RunTo(s, j, i + |t|, IsDigit);
  }

  lemma BigintReads(h: Host, s: string, i: nat, n: int)
    requires var t := Signed(n); Occurs(s, i, t) && i + |t| < |s| && s[i + |t|] == 'N'
    ensures NumberRule(h, s, i) == Match(Atom(BigInteger(n)), i + |Signed(n)| + 1)
  {
    SignedDigitsAt(s, i, n);
    SignedReads(n);
    assert BigintRule(s, i) == Match(Atom(BigInteger(n)), i + |Signed(n)| + 1);
  }

  lemma NotRadix(s: string, i: nat, n: int)
    requires Token(s, i, Signed(n))
    ensures BasedRule(s, i).NoMatch? && HexRule(s, i).NoMatch? && OctalRule(s, i).NoMatch?
  {
    var t := Signed(n);
    var e := i + |t|;
    SignedReads(n);
    forall k | 0 <= k < |t| ensures s[i + k] == t[k] {
      OccursAt(s, i, t, k);
    }
    assert s[i + 0] == t[0];
    assert |t| > 1 ==> s[i + 1] == t[1];
    if |t| > 2 { assert s[i + 2] == t[2]; }
    assert i + 1 < |s| ==> IsDigit(s[i + 1]) || IsDelimiter(s[i + 1]);
    assert |t| > 1 && i + 2 < |s| ==> IsDigit(s[i + 2]) || IsDelimiter(s[i + 2]);
    var b := BaseEnd(s, i);
    assert b.Some? && b.value < |s| ==> s[b.value] != 'r';
    NotStarts(s, i, "0x", 1);
    if s[i] == '0' {
      RunTo(s, i + 1, i + 1, IsOctal);
    }
  }

  lemma IntegerReads(h: Host, s: string, i: nat, n: I64)
    requires Token(s, i, Signed(n))
    ensures NumberRule(h, s, i) == Match(Atom(Integer(n)), i + |Signed(n)|)
  {
    NotRadix(s, i, n);
    SignedIntegerReads(s, i, n);
    OrAmongNone(BigintRule(s, i), BasedRule(s, i), HexRule(s, i), OctalRule(s, i), IntegerRule(s, i),
                FloatRule(h, s, i));
  }

  /** The fifth choice is taken if the four before it do not match. */
  lemma OrAmongNone<T>(a: Outcome<T>, b: Outcome<T>, c: Outcome<T>, d: Outcome<T>, e: Outcome<T>, f: Outcome<T>)
    requires a.NoMatch? && b.NoMatch? && c.NoMatch? && d.NoMatch? && e.Match?
    ensures Or(a, Or(b, Or(c, Or(d, Or(e, f))))) == e
  {
  }

  lemma SignedIntegerReads(s: string, i: nat, n: I64)
    requires Token(s, i, Signed(n))
    ensures BigintRule(s, i).NoMatch? && IntegerRule(s, i) == Match(Atom(Integer(n)), i + |Signed(n)|)
  {
    SignedDigitsAt(s, i, n);
    SignedReads(n);
    var e := i + |Signed(n)|;
    assert BigintRule(s, i).NoMatch?;
    assert IntegerRule(s, i) == Match(Atom(Integer(n)), e);
  }

  // ---- Text ----

  /** An ordinary character prolongs the literal by itself, however the run is cut. */
  lemma NormalFirst(s: string, i: nat)
    requires i < |s| && IsNormal(s[i])
    ensures TextItems(s, i) == ([s[i]] + TextItems(s, i + 1).0, TextItems(s, i + 1).1)
  {
    var e := Run(s, i, IsNormal);
    assert e == Run(s, i + 1, IsNormal);
    if e > i + 1 {
      assert s[i..e] == [s[i]] + s[i + 1..e];
      var (t, j) := TextItems(s, e);
      assert TextItems(s, i + 1) == (s[i + 1..e] + t, j);
      assert s[i..e] + t == [s[i]] + (s[i + 1..e] + t);
    } else {
      assert s[i..e] == [s[i]];
    }
  }

  lemma {:induction false} EscapedReads(s: string, i: nat, t: string)
    requires Occurs(s, i, Escaped(t)) && i + |Escaped(t)| < |s| && s[i + |Escaped(t)|] == '"'
    ensures TextItems(s, i) == (t, i + |Escaped(t)|)
    decreases |t|
  {
    if t != "" {
      var w := EscapedStep(s, i, t, Escaped(t));
      EscapedReads(s, i + w, t[1..]);
      assert t == [t[0]] + t[1..];
      if IsNormal(t[0]) {
        NormalFirst(s, i);
      }
    } else {
      RunTo(s, i, i, IsNormal);
    }
  }

  /** One escaped character and what follows it. */
  lemma EscapedStep(s: string, i: nat, t: string, x: string) returns (w: nat)
    requires t != "" && x == Escaped(t) && Occurs(s, i, x)
    ensures w == (if IsNormal(t[0]) then 1 else 2) && |x| == w + |Escaped(t[1..])| && Occurs(s, i + w, Escaped(t[1..]))
    ensures IsNormal(t[0]) ==> i < |s| && s[i] == t[0]
    ensures !IsNormal(t[0]) ==> i < |s| && !IsNormal(s[i]) && SpecialChar(s, i) == Some(t[0])
  {
    var rest := Escaped(t[1..]);
    w := |x| - |rest|;
    assert x == x[..w] + rest;
    OccursParts(s, i, x[..w], rest);
    OccursAt(s, i, x, 0);
    if !IsNormal(t[0]) {
      OccursAt(s, i, x, 1);
    }
  }

  lemma QuotedOccurs(s: string, i: nat, x: string)
    requires Occurs(s, i, "\"" + x + "\"")
    ensures i + 1 + |x| < |s| && s[i] == '"' && Occurs(s, i + 1, x) && s[i + 1 + |x|] == '"'
  {
    OccursParts(s, i, "\"" + x, "\"");
    OccursParts(s, i, "\"", x);
    OccursAt(s, i, "\"", 0);
    OccursAt(s, i + 1 + |x|, "\"", 0);
  }

  lemma TextReads(s: string, i: nat, t: string)
    requires Occurs(s, i, "\"" + Escaped(t) + "\"")
    ensures TextRule(s, i) == Match(Atom(Text(t)), i + |Escaped(t)| + 2)
  {
    QuotedOccurs(s, i, Escaped(t));
    EscapedReads(s, i + 1, t);
  }

  // ---- Names ----

  /** A delimited name ends where it is delimited. */
  lemma NameReads(s: string, i: nat, t: string)
    requires NameShape(t) && Token(s, i, t)
    ensures NameEnd(s, i) == Some(i + |t|) && PlainNameEnd(s, i) == Some(i + |t|)
    ensures QualifierEnd(s, i).None?
  {
    var e := i + |t|;
    forall m | i <= m < e ensures IsSubsequent(s[m]) {
      OccursAt(s, i, t, m - i);
    }
    OccursAt(s, i, t, 0);
    DelimiterEndsRuns(s, e);
    var j := Run(s, i, IsInitial);
    assert i < j <= e;
    RunTo(s, j, e, IsSubsequent);
    RunTo(s, i + 1, e, IsSubsequent);
    assert DottedEnd(s, e) == e;
  }

  lemma DelimiterEndsRuns(s: string, e: nat)
    requires Delimited(s, e)
    ensures e < |s| ==> !IsSubsequent(s[e]) && !IsInitial(s[e]) && s[e] != '.' && s[e] != '/'
  {
  }

  /** The two symbols made of dots. */
  lemma DotsRead(s: string, i: nat, t: string)
    requires (t == "..." || t == ".") && Token(s, i, t)
    ensures PlainNameEnd(s, i) == Some(i + |t|) && QualifierEnd(s, i).None?
  {
    OccursAt(s, i, t, 0);
    StartsWithSlice(s, i, t);
    RunTo(s, i, i, IsInitial);
    if t == "." {
      NotStarts(s, i, "...", 1);
    }
  }

  lemma PlainReads(s: string, i: nat, t: string)
    requires PlainShape(t) && Token(s, i, t)
    ensures PlainNameEnd(s, i) == Some(i + |t|) && QualifierEnd(s, i).None?
  {
    if NameShape(t) {
      NameReads(s, i, t);
    } else {
      DotsRead(s, i, t);
    }
  }

  /** Where the parts of a qualified name stand. */
  lemma PartsOccur(s: string, i: nat, n: QualifiedName, ns: string, name: string, e: nat, j: nat)
    requires Occurs(s, i, n.components) && e == i + n.boundary && j == i + |n.components|
    requires ns == n.components[..n.boundary] && name == NameOf(n)
    ensures Occurs(s, i, ns) && e == i + |ns| && i < e < j <= |s| && s[e] == '/'
    ensures Occurs(s, e + 1, name) && e + 1 + |name| == j && s[i..e] == ns && s[e + 1..j] == name
    ensures Namespaced(ns, name) == Some(n)
  {
    assert n.components == ns + "/" + name;
    OccursThree(s, i, ns, '/', name);
  }

  lemma QualifiedSymbolIs(s: string, i: nat, e: nat, j: nat, n: QualifiedName)
    requires i < e < j <= |s| && PlainNameEnd(s, e + 1) == Some(j) && QualifierEnd(s, i) == Some(e)
    requires Namespaced(s[i..e], s[e + 1..j]) == Some(n)
    ensures SymbolRule(s, i) == Match(Atom(NamespacedSymbol(n)), j)
  {
  }

  lemma QualifiedKeywordIs(s: string, i: nat, e: nat, j: nat, n: Name)
    requires 0 < i < e < j <= |s| && NameEnd(s, e + 1) == Some(j) && QualifierEnd(s, i) == Some(e) && s[i - 1] == ':'
    requires Namespaced(s[i..e], s[e + 1..j]) == Some(n)
    ensures KeywordRule(s, i - 1) == Match(Atom(Keyword(n)), j)
  {
  }

  lemma PlainReadsTo(s: string, i: nat, t: string, j: nat)
    requires PlainShape(t) && Occurs(s, i, t) && Delimited(s, j) && j == i + |t|
    ensures i <= |s| && PlainNameEnd(s, i) == Some(j)
    ensures NameShape(t) ==> NameEnd(s, i) == Some(j)
  {
    PlainReads(s, i, t);
    if NameShape(t) {
      NameReads(s, i, t);
    }
  }

  lemma NamespaceReadsTo(s: string, i: nat, t: string, e: nat)
    requires NamespaceShape(t) && Occurs(s, i, t) && e == i + |t| && e < |s| && s[e] == '/'
    ensures i < e && QualifierEnd(s, i) == Some(e)
  {
    NamespaceEmbed(s, i, t);
  }

  lemma PiecesRead(s: string, i: nat, ns: string, name: string, e: nat, j: nat)
    requires NamespaceShape(ns) && Occurs(s, i, ns) && e == i + |ns| && e < |s| && s[e] == '/'
    requires PlainShape(name) && Occurs(s, e + 1, name) && j == e + 1 + |name| && Delimited(s, j)
    ensures QualifierEnd(s, i) == Some(e) && PlainNameEnd(s, e + 1) == Some(j)
    ensures NameShape(name) ==> NameEnd(s, e + 1) == Some(j)
  {
    NamespaceReadsTo(s, i, ns, e);
    PlainReadsTo(s, e + 1, name, j);
  }

  /** Where a qualified name is divided and ends, and that it is put together again. */
  lemma QualifiedPositions(s: string, i: nat, n: QualifiedName, e: nat, j: nat)
    requires NamespaceShape(n.components[..n.boundary]) && PlainShape(NameOf(n))
    requires Occurs(s, i, n.components) && Delimited(s, j) && e == i + n.boundary && j == i + |n.components|
    ensures i < e < j <= |s| && QualifierEnd(s, i) == Some(e) && PlainNameEnd(s, e + 1) == Some(j)
    ensures NameShape(NameOf(n)) ==> NameEnd(s, e + 1) == Some(j)
    ensures Namespaced(s[i..e], s[e + 1..j]) == Some(n)
  {
    var ns, name := n.components[..n.boundary], NameOf(n);
    PartsOccur(s, i, n, ns, name, e, j);
    PiecesRead(s, i, ns, name, e, j);
  }

  lemma PlainSymbolReads(s: string, i: nat, t: string)
    requires PlainShape(t) && Token(s, i, t)
    ensures SymbolRule(s, i) == Match(Atom(PlainSymbol(t)), i + |t|)
  {
    PlainReads(s, i, t);
  }

  lemma PlainKeywordReads(s: string, i: nat, n: Name)
    requires n.boundary == 0 && IsReadable(Keyword(n)) && i > 0 && i <= |s| && s[i - 1] == ':'
    requires Token(s, i, n.components)
    ensures KeywordRule(s, i - 1) == Match(Atom(Keyword(n)), i + |n.components|)
  {
    NameReads(s, i, n.components);
    assert BareKeyword(s, i) == Match(Atom(Keyword(n)), i + |n.components|);
  }

  // ---- Ordered choice ----

  /** Characters with which no literal before the keywords begins. */
  predicate BeginsNoLiteral(c: char) {
    c != 'n' && c != 't' && c != 'f' && c != '#' && c != '"' && !IsSign(c) && !IsDigit(c)
  }

  lemma NoTagged(h: Host, s: string, i: nat)
    requires i <= |s| && (i < |s| ==> s[i] != '#')
    ensures NanRule(s, i).NoMatch? && InfinityRule(s, i).NoMatch? && InstRule(h, s, i).NoMatch?
    ensures UuidRule(s, i).NoMatch? && BytesRule(s, i).NoMatch?
  {
    NotStarts(s, i, "#f", 0);
    NotStarts(s, i, "#instmillis", 0);
    NotStarts(s, i, "#instmicros", 0);
    NotStarts(s, i, "#inst", 0);
    NotStarts(s, i, "#uuid", 0);
    NotStarts(s, i, "#bytes", 0);
  }

  lemma NoNumber(h: Host, s: string, i: nat)
    requires i <= |s| && (i < |s| ==> !IsDigit(s[i]) && !IsSign(s[i]))
    ensures NumberRule(h, s, i).NoMatch?
  {
    RunTo(s, i, i, IsDigit);
    assert SignedDigits(s, i).None?;
    NotStarts(s, i, "0x", 0);
  }

  lemma NoConstant(s: string, i: nat)
    requires i <= |s| && (i < |s| ==> s[i] != 'n' && s[i] != 't' && s[i] != 'f')
    ensures NilRule(s, i).NoMatch? && BooleanRule(s, i).NoMatch?
  {
    NotStarts(s, i, "nil", 0);
    NotStarts(s, i, "true", 0);
    NotStarts(s, i, "false", 0);
  }

  lemma NoLiteral(h: Host, s: string, i: nat)
    requires i <= |s| && (i < |s| ==> BeginsNoLiteral(s[i]))
    ensures LiteralRule(h, s, i).NoMatch?
  {
    NoConstant(s, i);
    NoTagged(h, s, i);
    NoNumber(h, s, i);
  }

  lemma SymbolText(n: QualifiedName)
    ensures AtomText(NamespacedSymbol(n)) == n.components
  {
  }

  lemma QualifiedSymbolReads(s: string, i: nat, n: QualifiedName)
    requires IsReadable(NamespacedSymbol(n)) && Token(s, i, n.components)
    ensures SymbolRule(s, i) == Match(Atom(NamespacedSymbol(n)), i + |n.components|)
  {
    var e, j := i + n.boundary, i + |n.components|;
    QualifiedPositions(s, i, n, e, j);
    QualifiedSymbolIs(s, i, e, j, n);
  }

  lemma QualifiedSymbolAtomReads(h: Host, s: string, i: nat, n: QualifiedName)
    requires IsReadable(NamespacedSymbol(n)) && Token(s, i, n.components)
    ensures AtomRule(h, s, i) == Match(Atom(NamespacedSymbol(n)), i + |n.components|)
  {
    NamespaceFirst(n);
    SymbolUnshadowed(h, s, i, n.components);
    QualifiedSymbolReads(s, i, n);
  }

  lemma PlainSymbolAtomReads(h: Host, s: string, i: nat, t: string)
    requires IsReadable(PlainSymbol(t)) && Token(s, i, t)
    ensures AtomRule(h, s, i) == Match(Atom(PlainSymbol(t)), i + |t|)
  {
    SymbolUnshadowed(h, s, i, t);
    PlainSymbolReads(s, i, t);
  }

  lemma NamespaceFirst(n: QualifiedName)
    requires NamespaceShape(n.components[..n.boundary])
    ensures IsInitial(n.components[0])
  {
    assert n.components[..n.boundary][0] == n.components[0];
  }

  /** No earlier alternative takes the text of a readable symbol. */
  lemma SymbolUnshadowed(h: Host, s: string, i: nat, t: string)
    requires t != "" && (IsInitial(t[0]) || t[0] == '.') && !Shadowed(t) && Token(s, i, t)
    ensures LiteralRule(h, s, i).NoMatch? && KeywordRule(s, i).NoMatch?
  {
    OccursAt(s, i, t, 0);
    NoTagged(h, s, i);
    NoNumber(h, s, i);
    if StartsWith(s, i, "nil") { LiteralPrefix(s, i, t, "nil"); }
    if StartsWith(s, i, "true") { LiteralPrefix(s, i, t, "true"); }
    if StartsWith(s, i, "false") { LiteralPrefix(s, i, t, "false"); }
  }

  lemma KeywordReads(s: string, i: nat, n: Name)
    requires IsReadable(Keyword(n)) && 0 < i <= |s| && s[i - 1] == ':'
    requires Token(s, i, n.components)
    ensures KeywordRule(s, i - 1) == Match(Atom(Keyword(n)), i + |n.components|)
  {
    if n.boundary > 0 {
      var e, j := i + n.boundary, i + |n.components|;
      assert PlainShape(NameOf(n));
      QualifiedPositions(s, i, n, e, j);
      QualifiedKeywordIs(s, i, e, j, n);
    } else {
      PlainKeywordReads(s, i, n);
    }
  }

  lemma AfterColon(s: string, i: nat, t: string)
    requires Token(s, i, ":" + t)
    ensures i < |s| && s[i] == ':' && Token(s, i + 1, t)
  {
    OccursParts(s, i, ":", t);
    OccursAt(s, i, ":", 0);
  }

  lemma KeywordAtomReads(h: Host, s: string, i: nat, n: Name)
    requires IsReadable(Keyword(n)) && Token(s, i, ":" + n.components)
    ensures AtomRule(h, s, i) == Match(Atom(Keyword(n)), i + 1 + |n.components|)
  {
    AfterColon(s, i, n.components);
    NoLiteral(h, s, i);
    KeywordReads(s, i + 1, n);
  }

  lemma TextAtomReads(h: Host, s: string, i: nat, t: string)
    requires Occurs(s, i, "\"" + Escaped(t) + "\"")
    ensures AtomRule(h, s, i) == Match(Atom(Text(t)), i + |Escaped(t)| + 2)
  {
    QuotedOccurs(s, i, Escaped(t));
    NoConstant(s, i);
    NoTagged(h, s, i);
    NoNumber(h, s, i);
    TextReads(s, i, t);
  }

  lemma SignedFirst(s: string, i: nat, n: int)
    requires Occurs(s, i, Signed(n))
    ensures i < |s| && (IsDigit(s[i]) || s[i] == '-')
  {
    SignedReads(n);
    OccursAt(s, i, Signed(n), 0);
  }

  lemma IntegerAtomReads(h: Host, s: string, i: nat, n: I64)
    requires Token(s, i, Signed(n))
    ensures AtomRule(h, s, i) == Match(Atom(Integer(n)), i + |Signed(n)|)
  {
    SignedFirst(s, i, n);
    NoConstant(s, i);
    NoTagged(h, s, i);
    IntegerReads(h, s, i, n);
  }

  lemma BigintAtomReads(h: Host, s: string, i: nat, n: int)
    requires Occurs(s, i, Signed(n) + "N")
    ensures AtomRule(h, s, i) == Match(Atom(BigInteger(n)), i + |Signed(n)| + 1)
  {
    OccursParts(s, i, Signed(n), "N");
    OccursAt(s, i + |Signed(n)|, "N", 0);
    SignedFirst(s, i, n);
    NoConstant(s, i);
    NoTagged(h, s, i);
    BigintReads(h, s, i, n);
  }

  lemma ConstantReads(h: Host, s: string, i: nat, v: Value)
    requires (v.Nil? || v.Boolean?) && Occurs(s, i, AtomText(v))
    ensures AtomRule(h, s, i) == Match(Atom(v), i + |AtomText(v)|)
  {
    OccursAt(s, i, AtomText(v), 0);
    StartsWithSlice(s, i, AtomText(v));
    if v.Nil? {
      assert NilRule(s, i) == Match(Atom(v), i + 3);
    } else {
      NotStarts(s, i, "nil", 0);
      NoTagged(h, s, i);
      if !v.b {
        NotStarts(s, i, "true", 0);
      }
      assert BooleanRule(s, i) == Match(Atom(v), i + |AtomText(v)|);
    }
  }

  lemma SymbolAtomReads(h: Host, s: string, i: nat, v: AtomValue, t: string)
    requires v.NamespacedSymbol? && IsReadable(v) && t == AtomText(v) && Token(s, i, t)
    ensures AtomRule(h, s, i) == Match(Atom(v), i + |t|)
  {
    SymbolText(v.nsym);
    QualifiedSymbolAtomReads(h, s, i, v.nsym);
  }

  /** Printed and delimited, a readable atom of the fragment is read back as itself. */
  lemma AtomReads(h: Host, s: string, i: nat, v: AtomValue, t: string)
    requires InFragment(v) && IsReadable(v) && t == AtomText(v)
    requires Token(s, i, t)
    ensures AtomRule(h, s, i) == Match(Atom(v), i + |t|)
  {
    if v.Nil? || v.Boolean? {
      ConstantReads(h, s, i, v);
    } else if v.Integer? {
      IntegerAtomReads(h, s, i, v.i);
    } else if v.BigInteger? {
      BigintAtomReads(h, s, i, v.n);
    } else if v.Keyword? {
      KeywordAtomReads(h, s, i, v.kw);
    } else if v.PlainSymbol? {
      PlainSymbolAtomReads(h, s, i, t);
    } else if v.Text? {
      TextAtomReads(h, s, i, v.text);
    } else {
      SymbolAtomReads(h, s, i, v, t);
    }
  }
}
