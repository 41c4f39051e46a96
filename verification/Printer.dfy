/** The pretty printer (edn/src/pretty_print.rs) over the documents of the `pretty` crate. */
module Printer {
  import opened Names
  import opened Values
  import opened Sorting

  datatype Doc =
    | Empty
    | Txt(text: string)
    | Line
    | Append(left: Doc, right: Doc)
    | Nest(width: nat, inner: Doc)
    | Group(doc: Doc)

  function Spaces(n: nat): (r: string)
    ensures |r| == n && forall i :: 0 <= i < n ==> r[i] == ' '
  {
    if n == 0 then "" else Spaces(n - 1) + " "
  }

  /** `out` is a layout of `d`. Each line may come out as a blank or as a newline with the current
      indentation; a renderer's choices for some width are among these. */
  ghost predicate Renders(d: Doc, indent: nat, out: string) {
    match d
    case Empty => out == ""
    case Txt(t) => out == t
    case Line => out == " " || out == "\n" + Spaces(indent)
    case Append(a, b) => exists k :: 0 <= k <= |out| && Renders(a, indent, out[..k]) && Renders(b, indent, out[k..])
    case Nest(n, a) => Renders(a, indent + n, out)
    case Group(a) => Renders(a, indent, out)
  }

  function Concat(ds: seq<Doc>): Doc {
    if ds == [] then Empty else Append(ds[0], Concat(ds[1..]))
  }

  function Intersperse(ds: seq<Doc>): seq<Doc> {
    if |ds| <= 1 then ds else [ds[0], Line] + Intersperse(ds[1..])
  }

  // ---- Atoms ----

  /** What `escape_text` writes between the quotes. */
  function Escaped(t: string): string {
    if t == "" then ""
    else (if t[0] == '"' then "\\\"" else if t[0] == '\\' then "\\\\" else [t[0]]) + Escaped(t[1..])
  }

  lemma {:induction false} EscapedAppend(t: string, c: char)
    ensures Escaped(t + [c]) == Escaped(t) + Escaped([c])
  {
    if t == "" {
      assert "" + [c] == [c];
    } else {
      EscapedAppend(t[1..], c);
      assert (t + [c])[1..] == t[1..] + [c];
    }
  }

  /** The loop of `escape_text`. */
  method EscapeText(t: string) returns (out: string)
    ensures out == "\"" + Escaped(t) + "\""
  {
    out := "\"";
    for i := 0 to |t|
      invariant out == "\"" + Escaped(t[..i])
    {
      EscapedAppend(t[..i], t[i]);
      assert t[..i + 1] == t[..i] + [t[i]];
      assert [t[i]][1..] == "";
      match t[i]
      case '"' => out := out + "\\\"";
      case '\\' => out := out + "\\\\";
      case c => out := out + [c];
    }
    assert t[..|t|] == t;
    out := out + "\"";
  }

  function Digit(n: nat): char
    requires n < 10
  {
    '0' + n as char
  }

  function Decimal(n: nat): (r: string)
    ensures r != ""
  {
    if n < 10 then [Digit(n)] else Decimal(n / 10) + [Digit(n % 10)]
  }

  function Signed(n: int): string {
    if n < 0 then "-" + Decimal(-n) else Decimal(n)
  }

  /** Values of this model's round trip: no floats, instants, UUIDs or bytes. */
  predicate InFragment(v: Value)
    decreases v, 1
  {
    match v
    case Float(_) => false
    case Instant(_) => false
    case Uuid(_) => false
    case Bytes(_) => false
    case Vector(xs) => AllInFragment(xs)
    case List(xs) => AllInFragment(xs)
    case Set(xs) => AllInFragment(xs)
    case Map(kvs) => PairsInFragment(kvs)
    case _ => true
  }

  predicate AllInFragment(xs: seq<Value>)
    decreases xs, 0
  {
    forall i :: 0 <= i < |xs| ==> InFragment(xs[i])
  }

  predicate EntryInFragment(e: Entry)
    decreases e, 1
  {
    InFragment(e.key) && InFragment(e.val)
  }

  predicate PairsInFragment(kvs: seq<Entry>)
    decreases kvs, 0
  {
    forall i :: 0 <= i < |kvs| ==> EntryInFragment(kvs[i])
  }

  /** The text of an atom of the fragment; empty for anything else. */
  function AtomText(v: Value): string {
    match v
    case Nil => "nil"
    case Boolean(b) => if b then "true" else "false"
    case Integer(i) => Signed(i)
    case BigInteger(n) => Signed(n) + "N"
    case Text(t) => "\"" + Escaped(t) + "\""
    case PlainSymbol(t) => t
    case NamespacedSymbol(n) => n.components[..n.boundary] + "/" + NameOf(n)
    case Keyword(n) => ":" + n.components
    case _ => ""
  }

  // ---- Collections ----

  /** `bracket`: the body is indented by the width of the opening bracket. */
  function Bracket(open: string, ds: seq<Doc>, close: string): Doc {
    Group(Append(Append(Txt(open), Nest(|open|, Concat(Intersperse(ds)))), Txt(close)))
  }

  /** `as_doc`. A map is printed from its last entry to its first. */
  function AsDoc(v: Value): Doc
    decreases v, 1
  {
    match v
    case Vector(xs) => Bracket("[", Docs(xs), "]")
    case List(xs) => Bracket("(", Docs(xs), ")")
    case Set(xs) => Bracket("#{", Docs(xs), "}")
    case Map(kvs) => Bracket("{", Reverse(EntryDocs(kvs)), "}")
    case _ => Txt(AtomText(v))
  }

  function Docs(xs: seq<Value>): (r: seq<Doc>)
    ensures |r| == |xs|
    decreases xs, 0
  {
    if xs == [] then [] else [AsDoc(xs[0])] + Docs(xs[1..])
  }

  function EntryDoc(e: Entry): Doc
    decreases e, 1
  {
    Group(Append(Append(AsDoc(e.key), Line), AsDoc(e.val)))
  }

  function EntryDocs(kvs: seq<Entry>): (r: seq<Doc>)
    ensures |r| == |kvs|
    decreases kvs, 0
  {
    if kvs == [] then [] else [EntryDoc(kvs[0])] + EntryDocs(kvs[1..])
  }

  /** Some layout of the whole value. */
  ghost predicate Prints(v: Value, out: string) {
    Renders(AsDoc(v), 0, out)
  }
}
