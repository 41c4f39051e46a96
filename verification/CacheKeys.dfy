/** The keys under which answers are cached (mentatd/src/server.rs). */
module CacheKeys {
  import opened Prelude
  import opened Json
  import opened PlainCache
  import opened Printer
  import opened AtomReadBack

  /** What an answer was computed from. */
  datatype Source =
    | Live(query: string, args: seq<string>)
    | AsOf(query: string, args: seq<string>, t: I64)
    | Pull(pattern: string, entity: I64)

  const PULL := "__pull__:"

  function KeyOf(src: Source): Key {
    match src
    case Live(q, args) => Key(q, ArgsJson(args))
    case AsOf(q, args, t) => Key(q, ArgsJson(args) + "@" + Signed(t))
    case Pull(p, e) => Key(PULL + p, Signed(e))
  }

  /** Different sources never share a key. */
  lemma KeysNeverCollide(a: Source, b: Source)
    requires KeyOf(a) == KeyOf(b)
    ensures a == b
  {
    KeyShape(a);
    KeyShape(b);
    match a {
      case Live(_, x) => ArgsJsonInjective(x, b.args);
      case AsOf(_, x, t) =>
        LastAtSplits(ArgsJson(x), ArgsJson(b.args), t, b.t);
        ArgsJsonInjective(x, b.args);
      case Pull(p, e) =>
        Cancel(PULL, p, b.pattern);
        SignedReads(e);
        SignedReads(b.entity);
    }
  }

  /** The argument part of a query key starts with a bracket, and that of a live query also ends with one. */
  lemma KeyShape(src: Source)
    ensures var k := KeyOf(src).args; k != "" && (k[0] == '[' <==> !src.Pull?) && (k[|k| - 1] == ']' <==> src.Live?)
  {
    match src
    case Live(_, args) => ArgsJsonLast(args);
    case AsOf(_, _, t) => SignedReads(t);
    case Pull(_, e) => SignedReads(e);
  }

  /** A number holds no `@`, so the last one separates. */
  lemma LastAtSplits(x: string, y: string, m: I64, n: I64)
    requires x + "@" + Signed(m) == y + "@" + Signed(n)
    ensures x == y && m == n
  {
    var l, r := x + "@" + Signed(m), y + "@" + Signed(n);
    NotAfterAt(x, Signed(m), m, |y|);
    NotAfterAt(y, Signed(n), n, |x|);
    assert l[|x|] == '@' && r[|y|] == '@';
    assert x == l[..|x|] && y == r[..|y|];
    assert Signed(m) == l[|x| + 1..] && Signed(n) == r[|y| + 1..];
    SignedReads(m);
    SignedReads(n);
  }

  lemma NotAfterAt(x: string, t: string, n: I64, k: nat)
    requires t == Signed(n)
    ensures |x| < k < |x + "@" + t| ==> (x + "@" + t)[k] != '@'
  {
    SignedReads(n);
    if |x| < k < |x + "@" + t| {
      assert (x + "@" + t)[k] == t[k - |x| - 1];
    }
  }
}
