// The circular doubly linked list of utils/List.h: a ring of nodes through a sentinel, which is
// both the end of the list and, when the list is empty, its beginning.
module Lists {
  import opened Wrappers

  class Node<T> {
    var val: Option<T>              // None only in the sentinel, which never constructs a value
    var prev: Node<T>
    var next: Node<T>
    ghost var owner: List?<T>       // the list the node is in; null once it is deleted

    constructor (val: Option<T>, ghost owner: List?<T>)
      ensures this.val == val && prev == this && next == this && this.owner == owner
    {
      this.val := val;
      prev, next := this, this;
      this.owner := owner;
    }
  }

  // The index after i, or before i, on a ring of n nodes.
  function After(i: nat, n: nat): nat
  {
    if i + 1 == n then 0 else i + 1
  }

  function Behind(i: nat, n: nat): nat
    requires 0 < n
  {
    if i == 0 then n - 1 else i - 1
  }

  function Steps(i: nat, j: nat, n: nat): nat
    requires i < n && j < n
  {
    if i <= j then j - i else j - i + n
  }

  ghost predicate NextOk<T>(nodes: seq<Node<T>>, i: int)
    reads nodes
  {
    0 <= i < |nodes| ==> nodes[i].next == nodes[After(i, |nodes|)]
  }

  ghost predicate PrevOk<T>(nodes: seq<Node<T>>, i: int)
    reads nodes
  {
    0 <= i < |nodes| ==> nodes[i].prev == nodes[Behind(i, |nodes|)]
  }

  // next and prev run once around all nodes, in opposite directions.
  ghost predicate Ring<T>(nodes: seq<Node<T>>)
    reads nodes
  {
    && (forall i :: NextOk(nodes, i))
    && (forall i :: PrevOk(nodes, i))
  }

  // All in list l, with the values c; the last node is the sentinel.
  ghost predicate Holds<T>(nodes: seq<Node<T>>, c: seq<T>, l: List<T>)
    reads nodes
  {
    && |nodes| == |c| + 1
    && (forall i :: 0 <= i < |nodes| ==> nodes[i].owner == l)
    && (forall i :: 0 <= i < |c| ==> nodes[i].val == Some(c[i]))
  }

  ghost predicate Distinct<T>(s: seq<T>) {
    forall i, j :: 0 <= i < j < |s| ==> s[i] != s[j]
  }

  // The nodes of list l in order, the sentinel last, all of them in repr.
  ghost predicate Shape<T>(nodes: seq<Node<T>>, c: seq<T>, repr: set<Node<T>>, l: List<T>)
    reads nodes, repr
  {
    && Distinct(nodes) && Ring(nodes) && Holds(nodes, c, l)
    && (forall i :: 0 <= i < |nodes| ==> nodes[i] in repr)
    && (forall y :: y in repr ==> y.owner == l)
  }

  // The first k elements are the same.
  ghost predicate Kept<A>(s: seq<A>, s': seq<A>, k: nat) {
    k <= |s| && k <= |s'| && forall j :: 0 <= j < k ==> s'[j] == s[j]
  }

  function Inserted<A>(s: seq<A>, k: nat, x: A): seq<A>
    requires k <= |s|
  {
    s[..k] + [x] + s[k..]
  }

  lemma InsertedShifts<A>(s: seq<A>, k: nat, x: A)
    requires k <= |s|
    ensures var s' := Inserted(s, k, x);
            |s'| == |s| + 1 && s'[k] == x && Kept(s, s', k) && forall j :: k <= j < |s| ==> s'[j + 1] == s[j]
  {
  }

  function Erased<A>(s: seq<A>, k: nat): seq<A>
    requires k < |s|
  {
    s[..k] + s[k + 1..]
  }

  // Inserting m elements of x, from its f-th, one after another at position k; erasing m elements.
  function Spliced<A>(s: seq<A>, k: nat, x: seq<A>, f: nat, m: nat): (r: seq<A>)
    requires k <= |s| && f + m <= |x|
    ensures |r| == |s| + m
  {
    if m == 0 then s else Inserted(Spliced(s, k, x, f, m - 1), k + m - 1, x[f + m - 1])
  }

  lemma InsertedInside<A>(a: seq<A>, y: seq<A>, z: seq<A>, p: nat, v: A)
    requires p == |a| + |y|
    ensures Inserted(a + y + z, p, v) == a + (y + [v]) + z
  {
    assert (a + y + z)[..p] == a + y && (a + y + z)[p..] == z;
  }

  lemma OneLonger<A>(x: seq<A>, f: nat, m: nat)
    requires f < m <= |x|
    ensures x[f..m] == x[f..m - 1] + [x[m - 1]]
  {
  }

  lemma NoneInside<A>(s: seq<A>, k: nat, x: seq<A>, f: nat)
    requires k <= |s| && f <= |x|
    ensures s[..k] + x[f..f] + s[k..] == s
  {
  }

  lemma SplicedStep<A>(s: seq<A>, k: nat, x: seq<A>, f: nat, m: nat)
    requires k <= |s| && f + m < |x|
    ensures Spliced(s, k, x, f, m + 1) == Inserted(Spliced(s, k, x, f, m), k + m, x[f + m])
  {
  }

  lemma {:induction false} SplicedMore<A>(s: seq<A>, k: nat, x: seq<A>, f: nat, m: nat, r: seq<A>)
    requires k <= |s| && f + m < |x|
    requires r == s[..k] + x[f..f + m] + s[k..]
    ensures Inserted(r, k + m, x[f + m]) == s[..k] + x[f..f + m + 1] + s[k..]
  {
    OneLonger(x, f, f + m + 1);
    InsertedInside(s[..k], x[f..f + m], s[k..], k + m, x[f + m]);
  }

  lemma {:induction false} SplicedIs<A>(s: seq<A>, k: nat, x: seq<A>, f: nat, m: nat)
    requires k <= |s| && f + m <= |x|
    ensures Spliced(s, k, x, f, m) == s[..k] + x[f..f + m] + s[k..]
  {
    if m == 0 {
      NoneInside(s, k, x, f);
    } else {
      SplicedIs(s, k, x, f, m - 1);
      SplicedStep(s, k, x, f, m - 1);
      SplicedMore(s, k, x, f, m - 1, Spliced(s, k, x, f, m - 1));
    }
  }

  function Cut<A>(s: seq<A>, k: nat, m: nat): (r: seq<A>)
    requires k + m <= |s|
    ensures |r| == |s| - m
  {
    if m == 0 then s else Erased(Cut(s, k, m - 1), k)
  }

  lemma CutStep<A>(s: seq<A>, k: nat, m: nat)
    requires k + m < |s|
    ensures Cut(s, k, m + 1) == Erased(Cut(s, k, m), k)
  {
  }

  lemma {:induction false} CutIs<A>(s: seq<A>, k: nat, m: nat)
    requires k + m <= |s|
    ensures Cut(s, k, m) == s[..k] + s[k + m..]
  {
    if m == 0 {
    } else {
      CutIs(s, k, m - 1);
    }
  }

  // The first m elements replaced by those of x.
  function Copied<A>(s: seq<A>, x: seq<A>, m: nat): (r: seq<A>)
    requires m <= |s| && m <= |x|
    ensures |r| == |s|
  {
    if m == 0 then s else Copied(s, x, m - 1)[m - 1 := x[m - 1]]
  }

  lemma CopiedStep<A>(s: seq<A>, x: seq<A>, m: nat)
    requires m < |s| && m < |x|
    ensures Copied(s, x, m + 1) == Copied(s, x, m)[m := x[m]]
  {
  }

  lemma {:induction false} CopiedIs<A>(s: seq<A>, x: seq<A>, m: nat)
    requires m <= |s| && m <= |x|
    ensures Copied(s, x, m) == x[..m] + s[m..]
  {
    if m == 0 {
    } else {
      CopiedIs(s, x, m - 1);
    }
  }

  // operator= ends with the elements of x, whether x is the shorter or the longer one.
  lemma {:induction false} CopiedCut<A>(s: seq<A>, x: seq<A>)
    requires |x| <= |s|
    ensures Cut(Copied(s, x, |x|), |x|, |s| - |x|) == x
  {
    CopiedIs(s, x, |x|);
    CutIs(Copied(s, x, |x|), |x|, |s| - |x|);
  }

  lemma {:induction false} CopiedSpliced<A>(s: seq<A>, x: seq<A>)
    requires |s| <= |x|
    ensures Spliced(Copied(s, x, |s|), |s|, x, |s|, |x| - |s|) == x
  {
    var n, t := |s|, Copied(s, x, |s|);
    assert t == x[..n] by {
      CopiedIs(s, x, n);
      assert x[..n] + s[n..] == x[..n];
    }
    SplicedIs(t, n, x, n, |x| - n);
    assert t[..n] + x[n..n + (|x| - n)] + t[n..] == x;
  }

  // What the four pointer writes of insert, and the two of erase, make of a ring.
  lemma InsertLinks<T>(s: seq<Node<T>>, k: nat, x: Node<T>)
    requires k < |s|
    requires forall i :: i != Behind(k, |s|) ==> NextOk(s, i)
    requires forall i :: i != k ==> PrevOk(s, i)
    requires s[Behind(k, |s|)].next == x && x.next == s[k] && s[k].prev == x && x.prev == s[Behind(k, |s|)]
    ensures Ring(Inserted(s, k, x))
  {
    var s' := Inserted(s, k, x);
    forall i ensures NextOk(s', i) && PrevOk(s', i) {
      var j := if i < k then i else i - 1;
      assert i != k && j != Behind(k, |s|) ==> NextOk(s, j);
      assert i != k && j != k ==> PrevOk(s, j);
    }
  }

  lemma EraseLinks<T>(s: seq<Node<T>>, k: nat)
    requires k < |s| - 1
    requires forall i :: i != Behind(k, |s|) ==> NextOk(s, i)
    requires forall i :: i != k + 1 ==> PrevOk(s, i)
    requires s[Behind(k, |s|)].next == s[k + 1] && s[k + 1].prev == s[Behind(k, |s|)]
    ensures Ring(Erased(s, k))
  {
    var s' := Erased(s, k);
    forall i ensures NextOk(s', i) && PrevOk(s', i) {
      var j := if i < k then i else i + 1;
      assert j != Behind(k, |s|) ==> NextOk(s, j);
      assert j != k + 1 ==> PrevOk(s, j);
    }
  }

  lemma InsertHolds<T>(s: seq<Node<T>>, k: nat, x: Node<T>, c: seq<T>, v: T, repr: set<Node<T>>, l: List<T>)
    requires Holds(s, c, l) && Distinct(s) && x !in s && k <= |c| && x.owner == l && x.val == Some(v)
    requires forall i :: 0 <= i < |s| ==> s[i] in repr
    ensures var s' := Inserted(s, k, x);
            Holds(s', Inserted(c, k, v), l) && Distinct(s') && forall i :: 0 <= i < |s'| ==> s'[i] in repr + {x}
  {
  }

  lemma EraseHolds<T>(s: seq<Node<T>>, k: nat, c: seq<T>, repr: set<Node<T>>, l: List<T>)
    requires Distinct(s) && k < |c| && |s| == |c| + 1
    requires forall i :: 0 <= i < |s| ==> s[i] in repr && (i == k || s[i].owner == l)
    requires forall i :: 0 <= i < |c| ==> s[i].val == Some(c[i])
    ensures var s' := Erased(s, k);
            Holds(s', Erased(c, k), l) && Distinct(s') && forall i :: 0 <= i < |s'| ==> s'[i] in repr - {s[k]}
  {
  }

  // An iterator is a node; where a method takes one, a ghost parameter tells its position, which
  // is |contents| for the end.
  class List<T> {
    var middle: Node<T>
    ghost var nodes: seq<Node<T>>   // in list order, the sentinel last
    ghost var contents: seq<T>
    ghost var repr: set<Node<T>>

    ghost predicate Valid()
      reads this, nodes, repr
    {
      Shape(nodes, contents, repr, this) && nodes[|contents|] == middle
    }

    ghost predicate At(it: Node<T>, k: nat)
      reads this
    {
      k < |nodes| && nodes[k] == it
    }

    // prep: a sentinel linked to itself.
    constructor ()
      ensures Valid() && fresh(repr) && contents == []
    {
      middle := new Node<T>(None, null);
      new;
      Prepare();
    }

    ghost method Prepare()
      requires middle.next == middle && middle.prev == middle && middle.val.None?
      modifies this, middle
      ensures Valid() && middle == old(middle) && repr == {middle} && contents == []
    {
      nodes := [middle];
      contents := [];
      repr := {middle};
      middle.owner := this;
    }

    // The copy constructor.
    constructor Copy(src: List<T>)
      requires src.Valid()
      ensures Valid() && fresh(repr) && contents == src.contents && src.Valid() && unchanged(src)
    {
      middle := new Node<T>(None, null);
      new;
      Prepare();
      ghost var first := repr;
      FillFrom(src);
      forall x | x in repr ensures fresh(x) {
        assert x in first || x in repr - first;
      }
    }

    method FillFrom(src: List<T>)
      requires Valid() && src.Valid() && src != this && contents == []
      modifies this, repr
      ensures Valid() && fresh(repr - old(repr)) && contents == src.contents && src.Valid() && unchanged(src)
    {
      var first := src.Begin();
      CopiedSpliced([], src.contents);
      InsertRange(middle, src, first, src.middle, 0, 0, |src.contents|);
    }

    // The pointer writes of insert.
    method LinkBefore(posn: Node<T>, x: Node<T>, ghost k: nat, ghost v: T)
      requires Shape(nodes, contents, repr, this) && k <= |contents| && posn == nodes[k]
      requires x !in repr && x.owner == this && x.val == Some(v)
      modifies repr, x
      ensures Shape(Inserted(nodes, k, x), Inserted(contents, k, v), repr + {x}, this)
    {
      assert PrevOk(nodes, k);
      ghost var n := |nodes|;
      x.next := posn;
      x.prev := posn.prev;
      posn.prev.next := x;
      posn.prev := x;
      forall i ensures i != Behind(k, n) ==> NextOk(nodes, i) {
        assert old(NextOk(nodes, i));
      }
      forall i ensures i != k ==> PrevOk(nodes, i) {
        assert old(PrevOk(nodes, i));
      }
      assert Holds(nodes, contents, this);
      InsertLinks(nodes, k, x);
      InsertHolds(nodes, k, x, contents, v, repr, this);
    }

    ghost method Adopt(nodes': seq<Node<T>>, contents': seq<T>, repr': set<Node<T>>)
      requires Shape(nodes', contents', repr', this) && nodes'[|contents'|] == middle
      modifies `nodes, `contents, `repr
      ensures Valid() && nodes == nodes' && contents == contents' && repr == repr'
    {
      nodes := nodes';
      contents := contents';
      repr := repr';
    }

    // A new node goes before posn.
    method LinkNew(posn: Node<T>, x: Node<T>, val: T, ghost k: nat)
      requires Valid() && At(posn, k) && x !in repr && x.owner == this && x.val == Some(val)
      modifies this, repr, x
      ensures Valid() && middle == old(middle) && repr == old(repr) + {x}
      ensures nodes == Inserted(old(nodes), k, x) && contents == Inserted(old(contents), k, val)
    {
      LinkBefore(posn, x, k, val);
      InsertedShifts(nodes, k, x);
      Adopt(Inserted(nodes, k, x), Inserted(contents, k, val), repr + {x});
    }

    // insert before posn; the result points at the new node.
    method Insert(posn: Node<T>, val: T, ghost k: nat) returns (it: Node<T>)
      requires Valid() && At(posn, k)
      modifies this, repr
      ensures Valid() && middle == old(middle) && At(it, k) && At(posn, k + 1)
      ensures fresh(repr - old(repr)) && fresh(it)
      ensures contents == Inserted(old(contents), k, val)
      ensures Kept(old(nodes), nodes, k) && forall j :: k <= j < |old(nodes)| ==> nodes[j + 1] == old(nodes)[j]
    {
      it := new Node(Some(val), this);
      LinkNew(posn, it, val, k);
      InsertedShifts(old(nodes), k, it);
    }

    // The pointer writes of erase, and the deletion of the node.
    method Unlink(posn: Node<T>, ghost k: nat) returns (pNext: Node<T>)
      requires Shape(nodes, contents, repr, this) && k < |contents| && posn == nodes[k]
      modifies repr
      ensures Shape(Erased(nodes, k), Erased(contents, k), repr - {posn}, this)
      ensures pNext == nodes[k + 1] && posn.owner == null
    {
      assert NextOk(nodes, k) && PrevOk(nodes, k);
      ghost var n := |nodes|;
      pNext := posn.next;
      var pPrev := posn.prev;
      pPrev.next := pNext;
      pNext.prev := pPrev;
      posn.owner := null;
      forall i ensures i != Behind(k, n) ==> NextOk(nodes, i) {
        assert old(NextOk(nodes, i));
      }
      forall i ensures i != k + 1 ==> PrevOk(nodes, i) {
        assert old(PrevOk(nodes, i));
      }
      EraseLinks(nodes, k);
      EraseHolds(nodes, k, contents, repr, this);
    }

    // erase one element; the result points at what followed it.
    method Erase(posn: Node<T>, ghost k: nat) returns (it: Node<T>)
      requires Valid() && At(posn, k) && posn != middle
      modifies this, repr
      ensures Valid() && middle == old(middle) && At(it, k) && posn.owner == null
      ensures repr <= old(repr)
      ensures contents == Erased(old(contents), k)
      ensures Kept(old(nodes), nodes, k) && forall j :: k < j < |old(nodes)| ==> nodes[j - 1] == old(nodes)[j]
    {
      it := Unlink(posn, k);
      Adopt(Erased(nodes, k), Erased(contents, k), repr - {posn});
    }

    method Begin() returns (it: Node<T>)
      requires Valid()
      ensures At(it, 0)
    {
      assert NextOk(nodes, |contents|);
      it := middle.next;
    }

    method Empty() returns (empty: bool)
      requires Valid()
      ensures empty <==> contents == []
    {
      assert NextOk(nodes, |contents|);
      empty := middle.next == middle;
    }

    // How many steps lead from one iterator to another; past the end, around the ring.
    method Distance(first: Node<T>, last: Node<T>, ghost f: nat, ghost e: nat) returns (count: nat)
      requires Valid() && At(first, f) && At(last, e)
      ensures count == Steps(f, e, |nodes|)
    {
      count := 0;
      var it := first;
      ghost var i := f;
      while it != last
        invariant At(it, i)
        invariant count + Steps(i, e, |nodes|) == Steps(f, e, |nodes|)
        decreases Steps(i, e, |nodes|)
      {
        assert NextOk(nodes, i);
        it := it.next;
        count := count + 1;
        i := After(i, |nodes|);
      }
    }

    method Size() returns (count: nat)
      requires Valid()
      ensures count == |contents|
    {
      var first := Begin();
      count := Distance(first, middle, 0, |contents|);
    }

    // ++ on an iterator, except at the end.
    method Next(it: Node<T>, ghost k: nat) returns (following: Node<T>)
      requires Valid() && At(it, k) && it != middle
      ensures k < |contents| && it.val == Some(contents[k]) && At(following, k + 1)
    {
      assert NextOk(nodes, k);
      following := it.next;
    }

    // insert, next to another list.
    method InsertBeside(src: List<T>, posn: Node<T>, val: T, ghost k: nat)
      requires Valid() && src.Valid() && src != this && At(posn, k)
      modifies this, repr
      ensures Valid() && middle == old(middle) && fresh(repr - old(repr))
      ensures src.Valid() && unchanged(src)
      ensures contents == Inserted(old(contents), k, val) && At(posn, k + 1) && Kept(old(nodes), nodes, k)
    {
      var newNode := Insert(posn, val, k);
    }

    // Halfway through a range insert: elements f to i of src were put before posn, where b was.
    ghost predicate Inserting(posn: Node<T>, src: List<T>, from: Node<T>,
                              d: seq<Node<T>>, b: seq<T>, k: nat, f: nat, i: nat)
      reads this, src
    {
      && k <= |b| && f <= i <= |src.contents| && At(posn, k + (i - f)) && src.At(from, i)
      && contents == Spliced(b, k, src.contents, f, i - f) && Kept(d, nodes, k)
    }

    method InsertNext(posn: Node<T>, src: List<T>, from: Node<T>,
                      ghost d: seq<Node<T>>, ghost b: seq<T>, ghost k: nat, ghost f: nat, ghost i: nat)
      returns (following: Node<T>)
      requires Valid() && src.Valid() && src != this && from != src.middle
      requires Inserting(posn, src, from, d, b, k, f, i)
      modifies this, repr
      ensures Valid() && middle == old(middle) && fresh(repr - old(repr))
      ensures src.Valid() && unchanged(src)
      ensures Inserting(posn, src, following, d, b, k, f, i + 1)
    {
      following := src.Next(from, i);
      SplicedStep(b, k, src.contents, f, i - f);
      InsertBeside(src, posn, from.val.value, k + (i - f));
      assert src.nodes[i + 1] == following;
    }

    // insert a range of another list.
    method InsertRange(posn: Node<T>, src: List<T>, first: Node<T>, last: Node<T>,
                       ghost k: nat, ghost f: nat, ghost e: nat)
      requires Valid() && src.Valid() && src != this && At(posn, k) && src.At(first, f) && src.At(last, e) && f <= e
      modifies this, repr
      ensures Valid() && middle == old(middle) && fresh(repr - old(repr))
      ensures src.Valid() && unchanged(src)
      ensures contents == Spliced(old(contents), k, src.contents, f, e - f) && Kept(old(nodes), nodes, k)
    {
      var it := first;
      ghost var i := f;
      while it != last
        invariant Valid() && middle == old(middle) && fresh(repr - old(repr))
        invariant src.Valid() && unchanged(src)
        invariant i <= e && Inserting(posn, src, it, old(nodes), old(contents), k, f, i)
        decreases e - i
      {
        assert i != e;
        it := InsertNext(posn, src, it, old(nodes), old(contents), k, f, i);
        i := i + 1;
      }
      assert i == e;
    }

    // Halfway through a range erase, with the end of the range now at j.
    ghost predicate Erasing(first: Node<T>, last: Node<T>, d: seq<Node<T>>, b: seq<T>, f: nat, e: nat, j: nat)
      reads this
    {
      && f <= j <= e <= |b| && At(first, f) && At(last, j)
      && contents == Cut(b, f, e - j) && Kept(d, nodes, f)
    }

    // The iterator is advanced before its node is deleted.
    method EraseNext(first: Node<T>, last: Node<T>,
                     ghost d: seq<Node<T>>, ghost b: seq<T>, ghost f: nat, ghost e: nat, ghost j: nat)
      returns (following: Node<T>)
      requires Valid() && first != last && f < j && Erasing(first, last, d, b, f, e, j)
      modifies this, repr
      ensures Valid() && middle == old(middle) && repr <= old(repr) && first.owner == null
      ensures Erasing(following, last, d, b, f, e, j - 1)
    {
      following := Next(first, f);
      CutStep(b, f, e - j);
      var it := Erase(first, f);
    }

    // erase a range.
    method EraseRange(first: Node<T>, last: Node<T>, ghost f: nat, ghost e: nat) returns (it: Node<T>)
      requires Valid() && At(first, f) && At(last, e) && f <= e
      modifies this, repr
      ensures Valid() && middle == old(middle) && repr <= old(repr) && it == last
      ensures contents == Cut(old(contents), f, e - f) && Kept(old(nodes), nodes, f)
    {
      var p := first;
      ghost var j := e;
      while p != last
        invariant Valid() && middle == old(middle) && repr <= old(repr)
        invariant Erasing(p, last, old(nodes), old(contents), f, e, j)
        decreases j
      {
        p := EraseNext(p, last, old(nodes), old(contents), f, e, j);
        j := j - 1;
      }
      assert j == f;
      it := last;
    }

    // clear: delete all elements, then close the ring on the sentinel.
    method Clear()
      requires Valid()
      modifies this, repr
      ensures Valid() && middle == old(middle) && nodes == [middle] && contents == [] && repr <= old(repr)
      ensures forall i :: 0 <= i < old(|contents|) ==> old(nodes)[i].owner == null
    {
      assert NextOk(nodes, |contents|);
      var current := middle.next;
      ghost var i := 0;
      while current != middle
        invariant unchanged(this) && i <= |contents| && At(current, i) && middle.owner == this
        invariant forall j :: 0 <= j < i ==> nodes[j].owner == null
        invariant forall j :: i <= j < |nodes| ==> nodes[j].next == old(nodes[j].next)
        decreases |contents| - i
      {
        assert old(NextOk(nodes, i));
        var next := current.next;
        current.owner := null;
        current := next;
        i := i + 1;
      }
      middle.prev := middle;
      middle.next := middle;
      middle.val := None;
      nodes := [middle];
      contents := [];
      repr := {middle};
    }

    // Assignment through an iterator.
    method Overwrite(it: Node<T>, val: T, ghost k: nat)
      requires Valid() && At(it, k) && it != middle
      modifies `contents, it`val
      ensures Valid() && k < |old(contents)| && contents == old(contents)[k := val]
    {
      it.val := Some(val);
      contents := contents[k := val];
      forall i ensures NextOk(nodes, i) && PrevOk(nodes, i) {
        assert old(NextOk(nodes, i)) && old(PrevOk(nodes, i));
      }
    }

    method OverwriteBeside(src: List<T>, it: Node<T>, val: T, ghost k: nat)
      requires Valid() && src.Valid() && src != this && At(it, k) && it != middle
      modifies `contents, it`val
      ensures Valid() && src.Valid() && k < |old(contents)| && contents == old(contents)[k := val]
    {
      Overwrite(it, val, k);
    }

    // Halfway through operator=: the first m elements were overwritten, in the same nodes.
    ghost predicate Assigning(dst: Node<T>, src: List<T>, from: Node<T>, b: seq<T>, m: nat)
      reads this, src
    {
      && m <= |b| == |contents| && m <= |src.contents| && At(dst, m) && src.At(from, m)
      && contents == Copied(b, src.contents, m)
    }

    method AssignNext(dst: Node<T>, src: List<T>, from: Node<T>, ghost b: seq<T>, ghost m: nat)
      returns (dst': Node<T>, from': Node<T>)
      requires Valid() && src.Valid() && src != this
      requires dst != middle && from != src.middle && Assigning(dst, src, from, b, m)
      modifies `contents, dst`val
      ensures Valid() && src.Valid() && Assigning(dst', src, from', b, m + 1)
    {
      from' := src.Next(from, m);
      CopiedStep(b, src.contents, m);
      OverwriteBeside(src, dst, from.val.value, m);
      dst' := Next(dst, m);
    }

    // The loop of operator=.
    method AssignCommon(right: List<T>) returns (dst: Node<T>, from: Node<T>, ghost m: nat)
      requires Valid() && right.Valid() && right != this
      modifies this`contents, repr
      ensures Valid() && right.Valid() && unchanged(right)
      ensures Assigning(dst, right, from, old(contents), m) && (from == right.middle || dst == middle)
    {
      dst := Begin();
      from := right.Begin();
      m := 0;
      while from != right.middle && dst != middle
        invariant Valid() && right.Valid() && unchanged(right)
        invariant Assigning(dst, right, from, old(contents), m)
        decreases |old(contents)| - m
      {
        dst, from := AssignNext(dst, right, from, old(contents), m);
        m := m + 1;
      }
    }

    // operator=: overwrite what is there, then erase what is left over or copy what is missing.
    method Assign(right: List<T>)
      requires Valid() && right.Valid()
      modifies this, repr
      ensures Valid() && middle == old(middle) && contents == old(right.contents) && fresh(repr - old(repr))
      ensures right != this ==> right.Valid() && unchanged(right)
      ensures Kept(old(nodes), nodes, if |contents| < old(|contents|) then |contents| else old(|contents|))
    {
      if this == right {
        return;
      }
      ghost var b := contents;
      ghost var m;
      var dst, from;
      dst, from, m := AssignCommon(right);
      AssignRest(right, dst, from, b, m);
    }

    // The end of operator= when the other list has been walked through: erase what is left over.
    method AssignErase(dst: Node<T>, ghost b: seq<T>, ghost x: seq<T>)
      requires Valid() && |x| <= |b| && contents == Copied(b, x, |x|) && At(dst, |x|)
      modifies this, repr
      ensures Valid() && middle == old(middle) && repr <= old(repr) && contents == x && Kept(old(nodes), nodes, |x|)
    {
      CopiedCut(b, x);
      var it := EraseRange(dst, middle, |x|, |b|);
    }

    // And when this list has been: copy what is missing.
    method AssignInsert(right: List<T>, from: Node<T>, ghost b: seq<T>)
      requires Valid() && right.Valid() && right != this && |b| <= |right.contents|
      requires contents == Copied(b, right.contents, |b|) && right.At(from, |b|)
      modifies this, repr
      ensures Valid() && middle == old(middle) && fresh(repr - old(repr)) && Kept(old(nodes), nodes, |b|)
      ensures right.Valid() && unchanged(right) && contents == right.contents
    {
      CopiedSpliced(b, right.contents);
      InsertRange(middle, right, from, right.middle, |b|, |b|, |right.contents|);
    }

    // The end of operator=: one of the two lists has been walked through.
    method AssignRest(right: List<T>, dst: Node<T>, from: Node<T>, ghost b: seq<T>, ghost m: nat)
      requires Valid() && right.Valid() && right != this && Assigning(dst, right, from, b, m)
      requires from == right.middle || dst == middle
      modifies this, repr
      ensures Valid() && middle == old(middle) && contents == old(right.contents) && fresh(repr - old(repr))
      ensures right.Valid() && unchanged(right)
      ensures Kept(old(nodes), nodes, if |right.contents| < |b| then |right.contents| else |b|)
    {
      if from == right.middle {
        assert m == |right.contents|;
        AssignErase(dst, b, right.contents);
      } else {
        assert m == |b|;
        AssignInsert(right, from, b);
      }
    }
  }
}
