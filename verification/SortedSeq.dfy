// Strictly ordered sequences: what the operations of SortedVectorImpl compute, on plain sequences.
module SortedSeq {
  import opened StableSort

  ghost predicate Strict<T>(cmp: Comparator<T>, s: seq<T>) {
    forall i, j :: 0 <= i < j < |s| ==> cmp.Of(s[i], s[j]) < 0
  }

  // p separates the elements before x from those after it.
  ghost predicate Splits<T>(cmp: Comparator<T>, s: seq<T>, x: T, p: nat) {
    && p <= |s|
    && (forall k :: 0 <= k < p ==> cmp.Of(s[k], x) < 0)
    && (forall k :: p <= k < |s| ==> cmp.Of(s[k], x) > 0)
  }

  // x in its place, over the element equivalent to it if there is one.
  function Put<T>(cmp: Comparator<T>, s: seq<T>, x: T): seq<T> {
    if s == [] then [x]
    else if cmp.Of(s[0], x) < 0 then [s[0]] + Put(cmp, s[1..], x)
    else if cmp.Of(s[0], x) == 0 then [x] + s[1..]
    else [x] + s
  }

  // The elements of t put into s one by one.
  function PutAll<T>(cmp: Comparator<T>, s: seq<T>, t: seq<T>): seq<T> {
    if t == [] then s else Put(cmp, PutAll(cmp, s, t[..|t| - 1]), t[|t| - 1])
  }

  lemma SplitIsUnique<T>(cmp: Comparator<T>, s: seq<T>, x: T, p: nat, q: nat)
    requires Splits(cmp, s, x, p) && Splits(cmp, s, x, q)
    ensures p == q
  {
    if p < |s| {
      assert cmp.Of(s[p], x) > 0;
    }
    if q < |s| {
      assert cmp.Of(s[q], x) > 0;
    }
  }

  lemma {:induction false} PutInserts<T>(cmp: Comparator<T>, s: seq<T>, x: T, p: nat)
    requires Splits(cmp, s, x, p)
    ensures Put(cmp, s, x) == s[..p] + [x] + s[p..]
  {
    if p == 0 {
    } else {
      PutInserts(cmp, s[1..], x, p - 1);
      assert s[..p] + [x] + s[p..] == [s[0]] + (s[1..][..p - 1] + [x] + s[1..][p - 1..]);
    }
  }

  lemma {:induction false} PutReplaces<T(!new)>(cmp: Comparator<T>, s: seq<T>, x: T, p: nat)
    requires TotalPreorder(cmp) && Strict(cmp, s) && p < |s| && cmp.Of(s[p], x) == 0
    ensures Put(cmp, s, x) == s[p := x]
  {
    if p == 0 {
    } else {
      assert cmp.Of(s[0], s[p]) < 0;
      assert cmp.Of(x, s[p]) <= 0;
      Chain(cmp, s[0], s[p], x);
      PutReplaces(cmp, s[1..], x, p - 1);
      assert s[p := x] == [s[0]] + s[1..][p - 1 := x];
    }
  }

  // The elements of the result are x and the elements of s not equivalent to it.
  lemma {:induction false} PutElements<T>(cmp: Comparator<T>, s: seq<T>, x: T)
    ensures forall y :: y in Put(cmp, s, x) ==> y == x || y in s
    ensures x in Put(cmp, s, x)
  {
    if s == [] || cmp.Of(s[0], x) >= 0 {
    } else {
      PutElements(cmp, s[1..], x);
    }
  }

  lemma {:induction false} PutKeepsStrict<T(!new)>(cmp: Comparator<T>, s: seq<T>, x: T)
    requires TotalPreorder(cmp) && Strict(cmp, s)
    ensures Strict(cmp, Put(cmp, s, x))
  {
    if s == [] {
    } else {
      var rest := s[1..];
      if cmp.Of(s[0], x) < 0 {
        PutKeepsStrict(cmp, rest, x);
        PutElements(cmp, rest, x);
        forall y | y in Put(cmp, rest, x) ensures cmp.Of(s[0], y) < 0 {
          assert y == x || y in rest;
        }
      } else {
        forall y | y in rest ensures cmp.Of(x, y) < 0 {
          Chain(cmp, x, s[0], y);
        }
      }
    }
  }

  lemma PutAllStep<T>(cmp: Comparator<T>, s: seq<T>, t: seq<T>, i: nat)
    requires i < |t|
    ensures PutAll(cmp, s, t[..i + 1]) == Put(cmp, PutAll(cmp, s, t[..i]), t[i])
  {
    assert t[..i + 1][..i] == t[..i];
  }

  lemma {:induction false} PutAllKeepsStrict<T(!new)>(cmp: Comparator<T>, s: seq<T>, t: seq<T>)
    requires TotalPreorder(cmp) && Strict(cmp, s)
    ensures Strict(cmp, PutAll(cmp, s, t))
  {
    if t == [] {
    } else {
      PutAllKeepsStrict(cmp, s, t[..|t| - 1]);
      PutKeepsStrict(cmp, PutAll(cmp, s, t[..|t| - 1]), t[|t| - 1]);
    }
  }

  lemma PutBetween<T>(cmp: Comparator<T>, a: seq<T>, b: seq<T>, x: T)
    requires forall k :: 0 <= k < |a| ==> cmp.Of(a[k], x) < 0
    requires forall k :: 0 <= k < |b| ==> cmp.Of(b[k], x) > 0
    ensures Put(cmp, a + b, x) == a + [x] + b
  {
    var s := a + b;
    assert Splits(cmp, s, x, |a|);
    PutInserts(cmp, s, x, |a|);
    assert s[..|a|] == a && s[|a|..] == b;
  }

  lemma AllAbove<T(!new)>(cmp: Comparator<T>, s: seq<T>, x: T)
    requires TotalPreorder(cmp) && Strict(cmp, s) && s != [] && cmp.Of(x, s[0]) < 0
    ensures forall k :: 0 <= k < |s| ==> cmp.Of(s[k], x) > 0
  {
    forall k | 0 <= k < |s| ensures cmp.Of(s[k], x) > 0 {
      if k > 0 {
        Chain(cmp, x, s[0], s[k]);
      }
    }
  }

  // Elements that all come before s end up in front of it.
  lemma {:induction false} PutAllBefore<T(!new)>(cmp: Comparator<T>, s: seq<T>, t: seq<T>)
    requires TotalPreorder(cmp) && Strict(cmp, s) && Strict(cmp, t) && s != []
    requires t != [] ==> cmp.Of(t[|t| - 1], s[0]) < 0
    ensures PutAll(cmp, s, t) == t + s
  {
    if t == [] {
    } else {
      var front, last := t[..|t| - 1], t[|t| - 1];
      if front != [] {
        assert cmp.Of(t[|t| - 2], last) < 0;
        Chain(cmp, t[|t| - 2], last, s[0]);
      }
      PutAllBefore(cmp, s, front);
      AllAbove(cmp, s, last);
      PutBetween(cmp, front, s, last);
      assert t == front + [last];
    }
  }

  lemma AppendLast<T>(s: seq<T>, t: seq<T>)
    requires t != []
    ensures s + t[..|t| - 1] + [] == s + t[..|t| - 1]
    ensures s + t == s + t[..|t| - 1] + [t[|t| - 1]] + []
  {
  }

  // Elements that all come after s end up behind it.
  lemma {:induction false} PutAllAfter<T(!new)>(cmp: Comparator<T>, s: seq<T>, t: seq<T>)
    requires TotalPreorder(cmp) && Strict(cmp, s) && Strict(cmp, t) && s != []
    requires t != [] ==> cmp.Of(t[0], s[|s| - 1]) > 0
    ensures PutAll(cmp, s, t) == s + t
  {
    if t == [] {
    } else {
      var front, last := t[..|t| - 1], t[|t| - 1];
      PutAllAfter(cmp, s, front);
      if front != [] {
        Chain(cmp, s[|s| - 1], t[0], last);
      }
      forall k | 0 <= k < |s| ensures cmp.Of(s[k], last) < 0 {
        if k < |s| - 1 {
          Chain(cmp, s[k], s[|s| - 1], last);
        }
      }
      PutBetween(cmp, s + front, [], last);
      AppendLast(s, t);
    }
  }

  // What SortedVectorImpl::merge(const SortedVectorImpl&) makes of non-empty contents.
  function Merge<T>(cmp: Comparator<T>, s: seq<T>, t: seq<T>): seq<T>
    requires s != []
  {
    if t == [] then s
    else if cmp.Of(t[|t| - 1], s[0]) <= 0 then t + s
    else if cmp.Of(t[0], s[|s| - 1]) >= 0 then s + t
    else PutAll(cmp, s, t)
  }

  // The boundary elements the fast paths of merge look at are equivalent.
  predicate TouchingEnds<T>(cmp: Comparator<T>, s: seq<T>, t: seq<T>)
    requires s != []
  {
    t != [] && (cmp.Of(t[|t| - 1], s[0]) == 0 || (cmp.Of(t[|t| - 1], s[0]) > 0 && cmp.Of(t[0], s[|s| - 1]) == 0))
  }

  // The fast paths of merge agree with adding one by one exactly when no boundary elements are
  // equivalent; otherwise both of these stay and the order is no longer strict.
  lemma {:induction false} FastMergeIsExact<T(!new)>(cmp: Comparator<T>, s: seq<T>, t: seq<T>)
    requires TotalPreorder(cmp) && Strict(cmp, s) && Strict(cmp, t) && s != []
    ensures Merge(cmp, s, t) == PutAll(cmp, s, t) <==> !TouchingEnds(cmp, s, t)
    ensures Strict(cmp, Merge(cmp, s, t)) <==> !TouchingEnds(cmp, s, t)
    ensures Sorted(cmp, Merge(cmp, s, t))
  {
    PutAllKeepsStrict(cmp, s, t);
    if t != [] {
      if cmp.Of(t[|t| - 1], s[0]) <= 0 {
        if cmp.Of(t[|t| - 1], s[0]) < 0 {
          PutAllBefore(cmp, s, t);
        } else {
          assert (t + s)[|t| - 1] == t[|t| - 1] && (t + s)[|t|] == s[0];
        }
        JoinSorted(cmp, t, s);
      } else if cmp.Of(t[0], s[|s| - 1]) >= 0 {
        if cmp.Of(t[0], s[|s| - 1]) > 0 {
          PutAllAfter(cmp, s, t);
        } else {
          assert (s + t)[|s| - 1] == s[|s| - 1] && (s + t)[|s|] == t[0];
        }
        assert cmp.Of(s[|s| - 1], t[0]) <= 0;
        JoinSorted(cmp, s, t);
      }
    }
  }

  lemma JoinSorted<T(!new)>(cmp: Comparator<T>, s: seq<T>, t: seq<T>)
    requires TotalPreorder(cmp) && Strict(cmp, s) && Strict(cmp, t) && s != [] && t != []
    requires cmp.Of(s[|s| - 1], t[0]) <= 0
    ensures Sorted(cmp, s + t)
  {
    forall i, j | 0 <= i < |s| && 0 <= j < |t| ensures cmp.Of(s[i], t[j]) <= 0 {
      if i < |s| - 1 {
        Chain(cmp, s[i], s[|s| - 1], t[0]);
      }
      if j > 0 {
        Chain(cmp, s[i], t[0], t[j]);
      }
    }
  }
}
