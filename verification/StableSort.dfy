// What VectorImpl::sort computes, on plain sequences, and why it is a stable sort.
module StableSort {

  // A comparison function in the style of strcmp.
  datatype Comparator<!T> = Comparator(compare: (T, T) -> int) {
    function Of(a: T, b: T): int {
      compare(a, b)
    }
  }

  // A comparator whose "not above" relation is a total preorder.
  // Linked holds of everything: it names the triples whose transitivity a proof asks for.
  ghost predicate TotalPreorder<T(!new)>(cmp: Comparator<T>) {
    && (forall a, b :: cmp.Of(a, b) > 0 <==> cmp.Of(b, a) < 0)
    && (forall a, b, c {:trigger Linked(a, b, c)} ::
          Linked(a, b, c) && cmp.Of(a, b) <= 0 && cmp.Of(b, c) <= 0 ==> cmp.Of(a, c) <= 0)
  }

  ghost predicate Linked<T>(a: T, b: T, c: T) {
    true
  }

  // Transitivity, with strictness of either step carrying over.
  lemma Chain<T(!new)>(cmp: Comparator<T>, a: T, b: T, c: T)
    requires TotalPreorder(cmp) && cmp.Of(a, b) <= 0 && cmp.Of(b, c) <= 0
    ensures cmp.Of(a, c) <= 0
    ensures cmp.Of(a, b) < 0 || cmp.Of(b, c) < 0 ==> cmp.Of(a, c) < 0
  {
    assert Linked(a, b, c);
    assert Linked(b, c, a);
    assert Linked(c, a, b);
  }

  // Whether b has to come before a.
  predicate Above<T>(cmp: Comparator<T>, a: T, b: T) {
    cmp.Of(a, b) > 0
  }

  ghost predicate Sorted<T>(cmp: Comparator<T>, s: seq<T>) {
    forall i, j :: 0 <= i < j < |s| ==> cmp.Of(s[i], s[j]) <= 0
  }

  // No element is above its successor.
  ghost predicate NoInversion<T>(cmp: Comparator<T>, s: seq<T>) {
    forall i, j :: 0 <= i < j < |s| && j == i + 1 ==> cmp.Of(s[i], s[j]) <= 0
  }

  // The elements equivalent to x, in order.
  ghost function Class<T>(cmp: Comparator<T>, x: T, s: seq<T>): seq<T> {
    if s == [] then []
    else
      var y := s[|s| - 1];
      Class(cmp, x, s[..|s| - 1]) + if cmp.Of(y, x) == 0 then [y] else []
  }

  // x goes in front of the elements at the end of s that are above it.
  function Insert<T>(cmp: Comparator<T>, s: seq<T>, x: T): seq<T> {
    if s == [] || cmp.Of(s[|s| - 1], x) <= 0 then s + [x]
    else Insert(cmp, s[..|s| - 1], x) + [s[|s| - 1]]
  }

  function InsertionSort<T>(cmp: Comparator<T>, s: seq<T>): seq<T> {
    if s == [] then [] else Insert(cmp, InsertionSort(cmp, s[..|s| - 1]), s[|s| - 1])
  }

  // The place p that Insert finds for x.
  lemma {:induction false} InsertPosition<T>(cmp: Comparator<T>, s: seq<T>, p: nat, x: T)
    requires p <= |s| && (p > 0 ==> !Above(cmp, s[p - 1], x))
    requires forall k :: p <= k < |s| ==> Above(cmp, s[k], x)
    ensures Insert(cmp, s, x) == s[..p] + [x] + s[p..]
  {
    if p < |s| {
      var front := s[..|s| - 1];
      assert Above(cmp, s[|s| - 1], x);
      InsertPosition(cmp, front, p, x);
      assert s[..p] + [x] + s[p..] == (front[..p] + [x] + front[p..]) + [s[|s| - 1]];
    } else {
      assert s[..p] == s;
    }
  }

  lemma {:induction false} InsertKeeps<T>(cmp: Comparator<T>, s: seq<T>, x: T)
    ensures multiset(Insert(cmp, s, x)) == multiset(s) + multiset{x}
    ensures |Insert(cmp, s, x)| == |s| + 1
  {
    if s == [] || cmp.Of(s[|s| - 1], x) <= 0 {
    } else {
      assert s == s[..|s| - 1] + [s[|s| - 1]];
      InsertKeeps(cmp, s[..|s| - 1], x);
    }
  }

  lemma {:induction false} InsertionSortLength<T>(cmp: Comparator<T>, s: seq<T>)
    ensures |InsertionSort(cmp, s)| == |s|
  {
    if s == [] {
    } else {
      InsertionSortLength(cmp, s[..|s| - 1]);
      InsertKeeps(cmp, InsertionSort(cmp, s[..|s| - 1]), s[|s| - 1]);
    }
  }

  // What is not above x stays in front of it.
  lemma AppendSorts<T(!new)>(cmp: Comparator<T>, s: seq<T>, x: T)
    requires TotalPreorder(cmp) && Sorted(cmp, s) && (s == [] || cmp.Of(s[|s| - 1], x) <= 0)
    ensures Sorted(cmp, s + [x])
  {
    forall i | 0 <= i < |s| ensures cmp.Of(s[i], x) <= 0 {
      if i < |s| - 1 {
        Chain(cmp, s[i], s[|s| - 1], x);
      }
    }
  }

  // The last element stays behind all others when x is put in below it.
  lemma {:induction false} LastStays<T(!new)>(cmp: Comparator<T>, front: seq<T>, last: T, x: T)
    requires TotalPreorder(cmp) && Sorted(cmp, front + [last]) && cmp.Of(last, x) > 0
    ensures forall y :: y in Insert(cmp, front, x) ==> cmp.Of(y, last) <= 0
  {
    InsertKeeps(cmp, front, x);
    forall y | y in Insert(cmp, front, x) ensures cmp.Of(y, last) <= 0 {
      assert y in multiset(Insert(cmp, front, x));
      if y != x {
        var k :| 0 <= k < |front| && front[k] == y;
        assert (front + [last])[k] == y && (front + [last])[|front|] == last;
      }
    }
  }

  lemma {:induction false} InsertSorts<T(!new)>(cmp: Comparator<T>, s: seq<T>, x: T)
    requires TotalPreorder(cmp) && Sorted(cmp, s)
    ensures Sorted(cmp, Insert(cmp, s, x))
  {
    if s == [] || cmp.Of(s[|s| - 1], x) <= 0 {
      AppendSorts(cmp, s, x);
    } else {
      var front, last := s[..|s| - 1], s[|s| - 1];
      InsertSorts(cmp, front, x);
      assert s == front + [last];
      LastStays(cmp, front, last, x);
      var t := Insert(cmp, front, x);
      assert forall i :: 0 <= i < |t| ==> t[i] in t;
    }
  }

  lemma {:induction false} ClassAppend<T>(cmp: Comparator<T>, x: T, s: seq<T>, y: T)
    ensures Class(cmp, x, s + [y]) == Class(cmp, x, s) + if cmp.Of(y, x) == 0 then [y] else []
  {
  }

  // An element only moves past strictly larger ones, which are in another class.
  lemma {:induction false} InsertIsStable<T(!new)>(cmp: Comparator<T>, s: seq<T>, x: T, c: T)
    requires TotalPreorder(cmp)
    ensures Class(cmp, c, Insert(cmp, s, x)) == Class(cmp, c, s + [x])
  {
    if s == [] || cmp.Of(s[|s| - 1], x) <= 0 {
    } else {
      var front, last := s[..|s| - 1], s[|s| - 1];
      InsertIsStable(cmp, front, x, c);
      ClassAppend(cmp, c, Insert(cmp, front, x), last);
      ClassAppend(cmp, c, front, x);
      ClassAppend(cmp, c, front, last);
      ClassAppend(cmp, c, s, x);
      assert s == front + [last];
      if cmp.Of(last, c) == 0 && cmp.Of(x, c) == 0 {
        Chain(cmp, last, c, x);
        assert false;
      }
    }
  }

  // The result is sorted, a permutation, and keeps the order of equivalent elements.
  lemma {:induction false} InsertionSortIsStableSort<T(!new)>(cmp: Comparator<T>, s: seq<T>)
    requires TotalPreorder(cmp)
    ensures Sorted(cmp, InsertionSort(cmp, s))
    ensures multiset(InsertionSort(cmp, s)) == multiset(s)
    ensures forall c :: Class(cmp, c, InsertionSort(cmp, s)) == Class(cmp, c, s)
  {
    if s == [] {
    } else {
      var front, last := s[..|s| - 1], s[|s| - 1];
      InsertionSortIsStableSort(cmp, front);
      var t := InsertionSort(cmp, front);
      InsertSorts(cmp, t, last);
      InsertKeeps(cmp, t, last);
      assert s == front + [last];
      forall c ensures Class(cmp, c, InsertionSort(cmp, s)) == Class(cmp, c, s) {
        InsertIsStable(cmp, t, last, c);
        ClassAppend(cmp, c, t, last);
        ClassAppend(cmp, c, front, last);
      }
    }
  }

  // For a total preorder the neighbours decide: without an inversion there is nothing to do.
  lemma {:induction false} NoInversionIsSorted<T(!new)>(cmp: Comparator<T>, s: seq<T>)
    requires TotalPreorder(cmp)
    ensures NoInversion(cmp, s) <==> Sorted(cmp, s)
  {
    if |s| <= 1 {
    } else {
      var front := s[..|s| - 1];
      NoInversionIsSorted(cmp, front);
      if NoInversion(cmp, s) {
        var last := s[|s| - 1];
        forall i | 0 <= i < |front| ensures cmp.Of(s[i], last) <= 0 {
          assert cmp.Of(s[|s| - 2], last) <= 0;
          if i < |s| - 2 {
            assert cmp.Of(front[i], front[|s| - 2]) <= 0;
            Chain(cmp, s[i], s[|s| - 2], last);
          }
        }
        forall i, j | 0 <= i < j < |s| ensures cmp.Of(s[i], s[j]) <= 0 {
          assert j == |s| - 1 || cmp.Of(front[i], front[j]) <= 0;
        }
      }
    }
  }

  lemma {:induction false} NoInversionIsFixed<T>(cmp: Comparator<T>, s: seq<T>)
    requires NoInversion(cmp, s)
    ensures InsertionSort(cmp, s) == s
  {
    if s == [] {
    } else {
      var front := s[..|s| - 1];
      NoInversionIsFixed(cmp, front);
      assert |front| > 0 ==> cmp.Of(s[|s| - 2], s[|s| - 1]) <= 0;
      assert s == front + [s[|s| - 1]];
    }
  }

  lemma NoInversionExtends<T>(cmp: Comparator<T>, c: seq<T>, i: nat)
    requires 0 < i < |c|
    ensures NoInversion(cmp, c[..i + 1]) <==> NoInversion(cmp, c[..i]) && cmp.Of(c[i - 1], c[i]) <= 0
  {
  }

  // The items c after the rounds for the indices below i.
  ghost predicate SortedUpTo<T>(cmp: Comparator<T>, c: seq<T>, i: nat, b: seq<T>) {
    i <= |c| && b == InsertionSort(cmp, c[..i]) + c[i..]
  }

  // One round: whether or not the item at i has to move, the sorted part grows by it; and it has
  // to move, or one before it had to, exactly when the items up to it have an inversion.
  lemma SortRoundStep<T>(cmp: Comparator<T>, c: seq<T>, i: nat, b: seq<T>)
    requires 0 < i < |c| && SortedUpTo(cmp, c, i, b)
    ensures |b| == |c|
    ensures !Above(cmp, b[i - 1], b[i]) ==> SortedUpTo(cmp, c, i + 1, b)
    ensures SortedUpTo(cmp, c, i + 1, Insert(cmp, b[..i], b[i]) + b[i + 1..])
    ensures !NoInversion(cmp, c[..i + 1]) <==> !NoInversion(cmp, c[..i]) || Above(cmp, b[i - 1], b[i])
  {
    var s := InsertionSort(cmp, c[..i]);
    InsertionSortLength(cmp, c[..i]);
    assert c[..i + 1][..i] == c[..i];
    assert InsertionSort(cmp, c[..i + 1]) == Insert(cmp, s, c[i]);
    assert b[..i] == s && b[i] == c[i] && b[i + 1..] == c[i + 1..];
    NoInversionExtends(cmp, c, i);
    if NoInversion(cmp, c[..i]) {
      NoInversionIsFixed(cmp, c[..i]);
    }
  }

  lemma SortRoundsDone<T>(cmp: Comparator<T>, c: seq<T>, b: seq<T>)
    requires SortedUpTo(cmp, c, |c|, b)
    ensures b == InsertionSort(cmp, c) && c[..|c|] == c
  {
    assert c[..|c|] == c && c[|c|..] == [];
  }

  lemma SortRoundsBegin<T>(cmp: Comparator<T>, c: seq<T>)
    ensures if |c| <= 1 then SortedUpTo(cmp, c, |c|, c) && NoInversion(cmp, c)
            else SortedUpTo(cmp, c, 1, c) && NoInversion(cmp, c[..1])
  {
  }
}
