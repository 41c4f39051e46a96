/** Three-way comparison of integers and strings, as Rust's `Ord::cmp` defines it. */
module Orders {

  datatype Ordering = Less | Equal | Greater

  function Flip(o: Ordering): Ordering {
    match o
    case Less => Greater
    case Equal => Equal
    case Greater => Less
  }

  /** `o.then(p)`: the second comparison decides only when the first one is Equal. */
  function Then(o: Ordering, p: Ordering): Ordering {
    if o.Equal? then p else o
  }

  function CmpInt(a: int, b: int): Ordering {
    if a < b then Less else if a == b then Equal else Greater
  }

  function CmpReal(a: real, b: real): Ordering {
    if a < b then Less else if a == b then Equal else Greater
  }

  /** Lexicographic order; a proper prefix comes first. */
  function LexInts(a: seq<int>, b: seq<int>): Ordering {
    if a == [] && b == [] then Equal
    else if a == [] then Less
    else if b == [] then Greater
    else Then(CmpInt(a[0], b[0]), LexInts(a[1..], b[1..]))
  }

  lemma {:induction false} LexIntsEqual(a: seq<int>, b: seq<int>)
    ensures LexInts(a, b).Equal? <==> a == b
  {
    if a != [] && b != [] {
      LexIntsEqual(a[1..], b[1..]);
      assert a == [a[0]] + a[1..] && b == [b[0]] + b[1..];
    }
  }

  lemma {:induction false} LexIntsFlip(a: seq<int>, b: seq<int>)
    ensures LexInts(b, a) == Flip(LexInts(a, b))
  {
    if a != [] && b != [] {
      LexIntsFlip(a[1..], b[1..]);
    }
  }

  lemma {:induction false} LexIntsTransitive(a: seq<int>, b: seq<int>, c: seq<int>)
    requires LexInts(a, b).Less? && LexInts(b, c).Less?
    ensures LexInts(a, c).Less?
  {
    if a != [] && b != [] && c != [] && a[0] == b[0] && b[0] == c[0] {
      LexIntsTransitive(a[1..], b[1..], c[1..]);
    }
  }

  function CodePoints(s: string): (r: seq<int>)
    ensures |r| == |s|
    ensures forall i :: 0 <= i < |s| ==> r[i] == s[i] as int
  {
    seq(|s|, i requires 0 <= i < |s| => s[i] as int)
  }

  /** Order of UTF-8 strings: bytewise order coincides with the order of code points. */
  function CmpString(a: string, b: string): Ordering {
    LexInts(CodePoints(a), CodePoints(b))
  }

  /** Strings are totally ordered: only equal strings compare Equal, swapping the
      arguments flips the answer, and Less is transitive. */
  lemma CmpStringTotal(a: string, b: string, c: string)
    ensures CmpString(a, b).Equal? <==> a == b
    ensures CmpString(b, a) == Flip(CmpString(a, b))
    ensures CmpString(a, b).Less? && CmpString(b, c).Less? ==> CmpString(a, c).Less?
  {
    var x, y, z := CodePoints(a), CodePoints(b), CodePoints(c);
    LexIntsEqual(x, y);
    LexIntsFlip(x, y);
    if x == y {
      forall i | 0 <= i < |a| ensures a[i] == b[i] {
        assert x[i] == y[i];
      }
    }
    if LexInts(x, y).Less? && LexInts(y, z).Less? {
      LexIntsTransitive(x, y, z);
    }
  }
}
