/** Stable sorting and the way Rust's ordered collections are built from an iterator. */
module Sorting {

  /** `le` is a total preorder: any two elements are related, and it is transitive. */
  ghost predicate TotalPreorder<T(!new)>(le: (T, T) -> bool) {
    && (forall x, y :: le(x, y) || le(y, x))
    && (forall x, y, z :: le(x, y) && le(y, z) ==> le(x, z))
  }

  ghost predicate Ascending<T>(xs: seq<T>, le: (T, T) -> bool) {
    forall i, j :: 0 <= i < j < |xs| ==> le(xs[i], xs[j])
  }

  /** Ascending with no two elements equivalent. */
  ghost predicate StrictlyAscending<T>(xs: seq<T>, le: (T, T) -> bool) {
    forall i, j :: 0 <= i < j < |xs| ==> le(xs[i], xs[j]) && !le(xs[j], xs[i])
  }

  /** Puts `x` before the first element it does not exceed, hence before its equals. */
  function InsertStable<T>(x: T, xs: seq<T>, le: (T, T) -> bool): (r: seq<T>)
    ensures multiset(r) == multiset([x]) + multiset(xs)
    ensures |r| == |xs| + 1
  {
    if xs == [] || le(x, xs[0]) then [x] + xs
    else
      assert xs == [xs[0]] + xs[1..];
      [xs[0]] + InsertStable(x, xs[1..], le)
  }

  /** Insertion sort from the right, so earlier elements end up before their equals. */
  function StableSort<T>(xs: seq<T>, le: (T, T) -> bool): (r: seq<T>)
    ensures multiset(r) == multiset(xs)
    ensures |r| == |xs|
  {
    if xs == [] then [] else
      assert xs == [xs[0]] + xs[1..];
      InsertStable(xs[0], StableSort(xs[1..], le), le)
  }

  lemma {:induction false} InsertAscending<T(!new)>(x: T, xs: seq<T>, le: (T, T) -> bool)
    requires TotalPreorder(le) && Ascending(xs, le)
    ensures Ascending(InsertStable(x, xs, le), le)
  {
    if xs == [] {
    } else if le(x, xs[0]) {
      var r := [x] + xs;
      forall i, j | 0 <= i < j < |r| ensures le(r[i], r[j]) {
        if i == 0 && j > 1 {
          assert le(xs[0], xs[j - 1]);
        }
      }
    } else {
      var tail := InsertStable(x, xs[1..], le);
      InsertAscending(x, xs[1..], le);
      var r := [xs[0]] + tail;
      forall j | 0 < j < |r| ensures le(r[0], r[j]) {
        assert tail[j - 1] in multiset(tail);
        assert tail[j - 1] in multiset([x]) + multiset(xs[1..]);
        if tail[j - 1] != x {
          assert tail[j - 1] in xs[1..];
        }
      }
    }
  }

  /** The result is sorted; together with the multiset postcondition of StableSort it is
      a sorted permutation of the input. */
  lemma {:induction false} StableSortAscending<T(!new)>(xs: seq<T>, le: (T, T) -> bool)
    requires TotalPreorder(le)
    ensures Ascending(StableSort(xs, le), le)
  {
    if xs != [] {
      StableSortAscending(xs[1..], le);
      InsertAscending(xs[0], StableSort(xs[1..], le), le);
    }
  }

  /** The elements of `xs` equivalent to `k`, in order. */
  function Equivalents<T>(xs: seq<T>, k: T, le: (T, T) -> bool): seq<T> {
    if xs == [] then []
    else (if le(k, xs[0]) && le(xs[0], k) then [xs[0]] else []) + Equivalents(xs[1..], k, le)
  }

  lemma {:induction false} InsertKeepsEquivalents<T(!new)>(x: T, xs: seq<T>, k: T, le: (T, T) -> bool)
    requires TotalPreorder(le)
    ensures Equivalents(InsertStable(x, xs, le), k, le) == Equivalents([x] + xs, k, le)
  {
    assert ([x] + xs)[1..] == xs;
    if xs == [] || le(x, xs[0]) {
    } else {
      var r := InsertStable(x, xs, le);
      assert r[1..] == InsertStable(x, xs[1..], le);
      InsertKeepsEquivalents(x, xs[1..], k, le);
      assert ([x] + xs[1..])[1..] == xs[1..];
    }
  }

  /** Stability: elements that compare equal keep their order. */
  lemma {:induction false} StableSortKeepsEquivalents<T(!new)>(xs: seq<T>, k: T, le: (T, T) -> bool)
    requires TotalPreorder(le)
    ensures Equivalents(StableSort(xs, le), k, le) == Equivalents(xs, k, le)
  {
    if xs != [] {
      var rest := StableSort(xs[1..], le);
      StableSortKeepsEquivalents(xs[1..], k, le);
      InsertKeepsEquivalents(xs[0], rest, k, le);
      assert ([xs[0]] + rest)[1..] == rest;
    }
  }

  /** Ascending sequences that agree on every class of equivalent elements are equal: there is one stable sort. */
  lemma {:induction false} StableSortUnique<T(!new)>(xs: seq<T>, ys: seq<T>, le: (T, T) -> bool)
    requires TotalPreorder(le) && Ascending(xs, le) && Ascending(ys, le)
    requires forall k :: Equivalents(xs, k, le) == Equivalents(ys, k, le)
    ensures xs == ys
  {
    if ys != [] {
      SameHead(ys, xs, le);
    }
    if xs != [] {
      SameHead(xs, ys, le);
      forall k ensures Equivalents(xs[1..], k, le) == Equivalents(ys[1..], k, le) {
        assert Equivalents(xs, k, le) == Equivalents(ys, k, le);
        EquivalentsOfTail(xs, k, le);
        EquivalentsOfTail(ys, k, le);
      }
      StableSortUnique(xs[1..], ys[1..], le);
      assert xs == [xs[0]] + xs[1..] && ys == [ys[0]] + ys[1..];
    }
  }

  lemma EquivalentsOfTail<T(!new)>(xs: seq<T>, k: T, le: (T, T) -> bool)
    requires xs != []
    ensures var n := if le(k, xs[0]) && le(xs[0], k) then 1 else 0;
            n <= |Equivalents(xs, k, le)| && Equivalents(xs[1..], k, le) == Equivalents(xs, k, le)[n..]
  {
  }

  lemma SameHead<T(!new)>(xs: seq<T>, ys: seq<T>, le: (T, T) -> bool)
    requires TotalPreorder(le) && Ascending(xs, le) && Ascending(ys, le) && xs != []
    requires forall k :: Equivalents(xs, k, le) == Equivalents(ys, k, le)
    ensures ys != [] && xs[0] == ys[0]
  {
    var x := xs[0];
    assert Equivalents(xs, x, le) == Equivalents(ys, x, le);
    HeadBelow(ys, x, le);
    var y := ys[0];
    assert Equivalents(xs, y, le) == Equivalents(ys, y, le);
    HeadBelow(xs, y, le);
    assert Equivalents(xs, x, le)[0] == x;
    assert Equivalents(ys, x, le)[0] == y;
  }

  lemma {:induction false} HeadBelow<T(!new)>(xs: seq<T>, k: T, le: (T, T) -> bool)
    requires TotalPreorder(le) && Ascending(xs, le) && Equivalents(xs, k, le) != []
    ensures xs != [] && le(xs[0], k)
  {
    if !(le(k, xs[0]) && le(xs[0], k)) {
      HeadBelow(xs[1..], k, le);
      assert le(xs[0], xs[1]);
    }
  }

  lemma {:induction false} SortOfAscending<T(!new)>(xs: seq<T>, le: (T, T) -> bool)
    requires Ascending(xs, le)
    ensures StableSort(xs, le) == xs
  {
    if xs != [] {
      SortOfAscending(xs[1..], le);
      if |xs| > 1 {
        assert le(xs[0], xs[1]);
      }
    }
  }

  function Reverse<T>(xs: seq<T>): (r: seq<T>)
    ensures |r| == |xs|
  {
    if xs == [] then [] else [xs[|xs| - 1]] + Reverse(xs[..|xs| - 1])
  }

  /** Drops every element that is `same` as its successor: of a run, the last one stays. */
  function DropRepeats<T>(xs: seq<T>, same: (T, T) -> bool): (r: seq<T>)
    ensures |r| <= |xs|
    ensures forall x :: x in r ==> x in xs
  {
    if |xs| < 2 then xs
    else if same(xs[0], xs[1]) then DropRepeats(xs[1..], same)
    else [xs[0]] + DropRepeats(xs[1..], same)
  }

  lemma {:induction false} DropRepeatsNothing<T(!new)>(xs: seq<T>, same: (T, T) -> bool)
    requires forall i :: 0 <= i < |xs| - 1 ==> !same(xs[i], xs[i + 1])
    ensures DropRepeats(xs, same) == xs
  {
    if |xs| >= 2 {
      assert !same(xs[0], xs[0 + 1]);
      forall i | 0 <= i < |xs[1..]| - 1 ensures !same(xs[1..][i], xs[1..][i + 1]) {
        assert !same(xs[i + 1], xs[i + 1 + 1]);
      }
      DropRepeatsNothing(xs[1..], same);
    }
  }

  /** What is dropped is `same` as something kept, when `same` is transitive. */
  lemma {:induction false} DropRepeatsKeeps<T(!new)>(xs: seq<T>, same: (T, T) -> bool, i: nat)
    requires i < |xs|
    requires forall x, y, z :: same(x, y) && same(y, z) ==> same(x, z)
    ensures exists y :: y in DropRepeats(xs, same) && (y == xs[i] || same(xs[i], y))
  {
    if |xs| < 2 {
      assert xs[i] in DropRepeats(xs, same);
    } else if i > 0 {
      DropRepeatsKeeps(xs[1..], same, i - 1);
      assert xs[1..][i - 1] == xs[i];
      var y :| y in DropRepeats(xs[1..], same) && (y == xs[i] || same(xs[i], y));
      assert y in DropRepeats(xs, same);
    } else if same(xs[0], xs[1]) {
      DropRepeatsKeeps(xs[1..], same, 0);
      assert xs[1..][0] == xs[1];
      var y :| y in DropRepeats(xs[1..], same) && (y == xs[1] || same(xs[1], y));
      assert y in DropRepeats(xs, same);
    } else {
      assert xs[0] in DropRepeats(xs, same);
    }
  }

  /** The last of a run of repeats stays. */
  lemma {:induction false} DropRepeatsKeepsLast<T(!new)>(xs: seq<T>, same: (T, T) -> bool, i: nat)
    requires i < |xs| && (i + 1 < |xs| ==> !same(xs[i], xs[i + 1]))
    ensures xs[i] in DropRepeats(xs, same)
  {
    if |xs| >= 2 && i > 0 {
      DropRepeatsKeepsLast(xs[1..], same, i - 1);
    }
  }

  /** The last element equivalent to `k` is the last of its equivalents. */
  lemma {:induction false} LastEquivalent<T(!new)>(xs: seq<T>, k: T, le: (T, T) -> bool, i: nat)
    requires i < |xs| && le(k, xs[i]) && le(xs[i], k)
    requires forall j :: i < j < |xs| ==> !(le(k, xs[j]) && le(xs[j], k))
    ensures var es := Equivalents(xs, k, le); es != [] && es[|es| - 1] == xs[i]
  {
    if i > 0 {
      LastEquivalent(xs[1..], k, le, i - 1);
    } else {
      NoEquivalent(xs[1..], k, le);
    }
  }

  lemma {:induction false} NoEquivalent<T(!new)>(xs: seq<T>, k: T, le: (T, T) -> bool)
    requires forall j :: 0 <= j < |xs| ==> !(le(k, xs[j]) && le(xs[j], k))
    ensures Equivalents(xs, k, le) == []
  {
    if xs != [] {
      NoEquivalent(xs[1..], k, le);
    }
  }

  /** Some element is the last one equivalent to `k`. */
  lemma {:induction false} FindLastEquivalent<T(!new)>(xs: seq<T>, k: T, le: (T, T) -> bool) returns (i: nat)
    requires Equivalents(xs, k, le) != []
    ensures i < |xs| && le(k, xs[i]) && le(xs[i], k)
    ensures forall j :: i < j < |xs| ==> !(le(k, xs[j]) && le(xs[j], k))
  {
    if Equivalents(xs[1..], k, le) != [] {
      i := FindLastEquivalent(xs[1..], k, le);
      i := i + 1;
    } else {
      i := 0;
      forall j | 0 < j < |xs| ensures !(le(k, xs[j]) && le(xs[j], k)) {
        if le(k, xs[j]) && le(xs[j], k) {
          SomeEquivalent(xs[1..], k, le, j - 1);
        }
      }
    }
  }

  lemma {:induction false} SomeEquivalent<T(!new)>(xs: seq<T>, k: T, le: (T, T) -> bool, i: nat)
    requires i < |xs| && le(k, xs[i]) && le(xs[i], k)
    ensures Equivalents(xs, k, le) != []
  {
    if i > 0 {
      SomeEquivalent(xs[1..], k, le, i - 1);
    }
  }

  /** Over an antisymmetric order, removing equal neighbours leaves a strict order. */
  lemma {:induction false} DropRepeatsStrict<T(!new)>(xs: seq<T>, le: (T, T) -> bool, same: (T, T) -> bool)
    requires Ascending(xs, le) && TotalPreorder(le)
    requires forall x, y :: le(x, y) && le(y, x) ==> same(x, y)
    ensures StrictlyAscending(DropRepeats(xs, same), le)
  {
    if |xs| >= 2 {
      DropRepeatsStrict(xs[1..], le, same);
      if !same(xs[0], xs[1]) {
        var rest := DropRepeats(xs[1..], same);
        var r := [xs[0]] + rest;
        forall j | 0 < j < |r| ensures le(r[0], r[j]) && !le(r[j], r[0]) {
          assert rest[j - 1] in xs[1..];
          var m :| 0 <= m < |xs[1..]| && xs[1..][m] == rest[j - 1];
          assert r[j] == xs[m + 1];
          assert le(xs[0], xs[1]) && !le(xs[1], xs[0]);
          if m > 0 {
            assert le(xs[1], xs[m + 1]);
          }
        }
      }
    }
  }

  lemma SameElements<T(!new)>(xs: seq<T>, ys: seq<T>)
    requires multiset(xs) == multiset(ys)
    ensures forall x :: x in xs <==> x in ys
  {
    forall x ensures x in xs <==> x in ys {
      assert x in xs <==> x in multiset(xs);
      assert x in ys <==> x in multiset(ys);
    }
  }

  // ---- Sequences without repetitions ----

  /** No two positions hold elements that are `same`. */
  ghost predicate Distinct<T>(xs: seq<T>, same: (T, T) -> bool) {
    forall i, j :: 0 <= i < j < |xs| ==> !same(xs[i], xs[j]) && !same(xs[j], xs[i])
  }

  lemma {:induction false} OnceIfDistinct<T(!new)>(xs: seq<T>, same: (T, T) -> bool, x: T)
    requires Distinct(xs, same) && same(x, x)
    ensures multiset(xs)[x] <= 1
  {
    if xs != [] {
      var rest := xs[1..];
      assert xs == [xs[0]] + rest;
      assert Distinct(rest, same);
      OnceIfDistinct(rest, same, x);
      if xs[0] == x {
        forall j | 0 <= j < |rest| ensures rest[j] != x {
          assert !same(xs[0], xs[j + 1]);
        }
        assert x !in multiset(rest);
      }
    }
  }

  lemma TwiceIfRepeated<T(!new)>(xs: seq<T>, i: nat, j: nat)
    requires i < j < |xs| && xs[i] == xs[j]
    ensures multiset(xs)[xs[i]] >= 2
  {
    assert xs == xs[..j] + xs[j..];
    assert xs[..j][i] == xs[i] && xs[j..][0] == xs[i];
    assert xs[i] in multiset(xs[..j]) && xs[i] in multiset(xs[j..]);
  }

  /** Whether a sequence repeats itself does not depend on its order. */
  lemma DistinctPermutation<T(!new)>(xs: seq<T>, ys: seq<T>, same: (T, T) -> bool)
    requires Distinct(xs, same) && multiset(xs) == multiset(ys) && forall x :: same(x, x)
    ensures Distinct(ys, same)
  {
    forall i, j | 0 <= i < |ys| && 0 <= j < |ys| && i != j ensures !same(ys[i], ys[j]) {
      assert ys[i] in multiset(ys) && ys[j] in multiset(ys);
      var a :| 0 <= a < |xs| && xs[a] == ys[i];
      var b :| 0 <= b < |xs| && xs[b] == ys[j];
      if a == b {
        TwiceIfRepeated(ys, if i < j then i else j, if i < j then j else i);
        OnceIfDistinct(xs, same, ys[i]);
      }
    }
  }

  /** A strictly ascending sequence is determined by its elements. */
  lemma {:induction false} AscendingUnique<T(!new)>(xs: seq<T>, ys: seq<T>, le: (T, T) -> bool)
    requires StrictlyAscending(xs, le) && StrictlyAscending(ys, le)
    requires forall x :: x in xs <==> x in ys
    ensures xs == ys
  {
    assert (xs != [] ==> xs[0] in ys) && (ys != [] ==> ys[0] in xs);
    if xs != [] && ys != [] {
      var a :| 0 <= a < |ys| && ys[a] == xs[0];
      var b :| 0 <= b < |xs| && xs[b] == ys[0];
      assert a == 0 && b == 0;
      var p, q := xs[1..], ys[1..];
      HeadNotInTail(xs, le);
      HeadNotInTail(ys, le);
      forall x ensures x in p <==> x in q {
        assert x in xs <==> x == xs[0] || x in p;
        assert x in ys <==> x == ys[0] || x in q;
      }
      assert StrictlyAscending(p, le) && StrictlyAscending(q, le);
      AscendingUnique(p, q, le);
      assert xs == [xs[0]] + p && ys == [ys[0]] + q;
    }
  }

  lemma HeadNotInTail<T(!new)>(xs: seq<T>, le: (T, T) -> bool)
    requires xs != [] && StrictlyAscending(xs, le)
    ensures xs[0] !in xs[1..]
  {
    forall j | 0 <= j < |xs[1..]| ensures xs[1..][j] != xs[0] {
      assert le(xs[0], xs[j + 1]) && !le(xs[j + 1], xs[0]);
    }
  }

  lemma {:induction false} ReverseElements<T(!new)>(xs: seq<T>)
    ensures multiset(Reverse(xs)) == multiset(xs)
  {
    if xs != [] {
      var n := |xs| - 1;
      ReverseElements(xs[..n]);
      assert xs == xs[..n] + [xs[n]];
    }
  }
}
