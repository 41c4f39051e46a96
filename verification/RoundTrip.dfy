/** Printing and reading are inverse (edn/src/pretty_print.rs, edn/src/lib.rs, edn/src/types.rs:144-150). */
module RoundTrip {
  import opened Sorting
  import opened Values
  import opened Spanned
  import opened Lexical
  import opened Printer
  import opened Readable
  import opened AtomReadBack

  // ---- Layouts ----

  /** A line as a blank or as a newline with indentation. */
  ghost predicate Gap(g: string) {
    g != "" && IsDelimiter(g[0]) && forall k :: 0 <= k < |g| ==> g[k] == ' ' || g[k] == '\n'
  }

  lemma LineIsGap(indent: nat, g: string)
    requires Renders(Line, indent, g)
    ensures Gap(g)
  {
  }

  lemma BracketParts(open: string, ds: seq<Doc>, close: string, indent: nat, out: string) returns (body: string)
    requires Renders(Bracket(open, ds, close), indent, out)
    ensures out == open + body + close && Renders(Concat(Intersperse(ds)), indent + |open|, body)
  {
    var inner := Nest(|open|, Concat(Intersperse(ds)));
    var d := Append(Append(Txt(open), inner), Txt(close));
    assert Renders(d, indent, out);
    var k :| 0 <= k <= |out| && Renders(d.left, indent, out[..k]) && Renders(d.right, indent, out[k..]);
    var w := out[..k];
    var j :| 0 <= j <= |w| && Renders(Txt(open), indent, w[..j]) && Renders(inner, indent, w[j..]);
    body := w[j..];
    assert out == w + close && w == open + body;
  }

  lemma OneRendered(d: Doc, indent: nat, body: string)
    requires Renders(Concat(Intersperse([d])), indent, body)
    ensures Renders(d, indent, body)
  {
    assert Concat([d]) == Append(d, Concat([d][1..]));
    assert [d][1..] == [];
    var k :| 0 <= k <= |body| && Renders(d, indent, body[..k]) && Renders(Empty, indent, body[k..]);
    assert body[..k] == body;
  }

  lemma ConcatMany(ds: seq<Doc>)
    requires |ds| > 1
    ensures Concat(Intersperse(ds)) == Append(ds[0], Append(Line, Concat(Intersperse(ds[1..]))))
  {
    var rest := Intersperse(ds[1..]);
    var all := [ds[0], Line] + rest;
    assert all[1..] == [Line] + rest;
    assert ([Line] + rest)[1..] == rest;
  }

  lemma ManyRendered(ds: seq<Doc>, indent: nat, body: string) returns (k: nat, m: nat)
    requires |ds| > 1 && Renders(Concat(Intersperse(ds)), indent, body)
    ensures k < m <= |body| && Gap(body[k..m])
    ensures Renders(ds[0], indent, body[..k]) && Renders(Concat(Intersperse(ds[1..])), indent, body[m..])
  {
    ConcatMany(ds);
    var tail := Append(Line, Concat(Intersperse(ds[1..])));
    k :| 0 <= k <= |body| && Renders(ds[0], indent, body[..k]) && Renders(tail, indent, body[k..]);
    var w := body[k..];
    var j :| 0 <= j <= |w| && Renders(Line, indent, w[..j]) && Renders(tail.right, indent, w[j..]);
    LineIsGap(indent, w[..j]);
    m := k + j;
    assert body[k..m] == w[..j] && body[m..] == w[j..];
  }

  /** The two halves of one map entry. */
  lemma EntryRendered(e: Entry, indent: nat, out: string) returns (k: nat, m: nat)
    requires Renders(EntryDoc(e), indent, out)
    ensures k < m <= |out| && Gap(out[k..m])
    ensures Renders(AsDoc(e.key), indent, out[..k]) && Renders(AsDoc(e.val), indent, out[m..])
  {
    var d := Append(Append(AsDoc(e.key), Line), AsDoc(e.val));
    assert Renders(d, indent, out);
    m :| 0 <= m <= |out| && Renders(d.left, indent, out[..m]) && Renders(d.right, indent, out[m..]);
    var w := out[..m];
    k :| 0 <= k <= |w| && Renders(AsDoc(e.key), indent, w[..k]) && Renders(Line, indent, w[k..]);
    LineIsGap(indent, w[k..]);
    assert out[..k] == w[..k] && out[k..m] == w[k..];
  }

  lemma {:induction false} ReversedDocs(kvs: seq<Entry>)
    ensures Reverse(EntryDocs(kvs)) == EntryDocs(Reverse(kvs))
  {
    if kvs != [] {
      var n := |kvs| - 1;
      DocsSplit(kvs, n);
      ReversedDocs(kvs[..n]);
      var ds := EntryDocs(kvs);
      assert ds[n] == EntryDoc(kvs[n]) && ds[..n] == EntryDocs(kvs[..n]);
      assert ([kvs[n]] + Reverse(kvs[..n]))[1..] == Reverse(kvs[..n]);
    }
  }

  lemma {:induction false} DocsSplit(kvs: seq<Entry>, n: nat)
    requires |kvs| == n + 1
    ensures EntryDocs(kvs) == EntryDocs(kvs[..n]) + [EntryDoc(kvs[n])]
  {
    if n > 0 {
      DocsSplit(kvs[1..], n - 1);
      assert kvs[1..][..n - 1] == kvs[..n][1..];
    } else {
      assert kvs[1..] == [];
    }
  }

  // ---- Blanks ----

  lemma SkipNothing(s: string, i: nat)
    requires i <= |s| && (i < |s| ==> !IsBlank(s[i]) && s[i] != ';')
    ensures Skip(s, i) == i
  {
  }

  lemma {:induction false} SkipGap(s: string, i: nat, g: string)
    requires Occurs(s, i, g) && (forall k :: 0 <= k < |g| ==> g[k] == ' ' || g[k] == '\n')
    requires i + |g| < |s| && !IsBlank(s[i + |g|]) && s[i + |g|] != ';'
    ensures Skip(s, i) == i + |g|
    decreases |g|
  {
    if g == "" {
      SkipNothing(s, i);
    } else {
      OccursAt(s, i, g, 0);
      assert s[i + 1..i + |g|] == s[i..i + |g|][1..];
      SkipGap(s, i + 1, g[1..]);
    }
  }

  /** Where a printed value starts, nothing is skipped. */
  predicate Starter(c: char) {
    !IsBlank(c) && c != ';' && !IsDelimiter(c)
  }

  lemma RenderedFirst(v: Value, indent: nat, out: string)
    requires InFragment(v) && IsReadable(v) && Renders(AsDoc(v), indent, out)
    ensures out != "" && Starter(out[0])
  {
    if v.Vector? {
      var body := BracketParts("[", Docs(v.vs), "]", indent, out);
    } else if v.List? {
      var body := BracketParts("(", Docs(v.ls), ")", indent, out);
    } else if v.Set? {
      var body := BracketParts("#{", Docs(v.es), "}", indent, out);
    } else if v.Map? {
      var body := BracketParts("{", Reverse(EntryDocs(v.kvs)), "}", indent, out);
    } else {
      AtomFirst(v);
    }
  }

  lemma AtomFirst(v: AtomValue)
    requires InFragment(v) && IsReadable(v)
    ensures AtomText(v) != "" && Starter(AtomText(v)[0])
  {
    if v.Integer? {
      SignedReads(v.i);
    } else if v.BigInteger? {
      SignedReads(v.n);
    } else if v.NamespacedSymbol? {
      SymbolText(v.nsym);
      NamespaceFirst(v.nsym);
    }
  }
}
