// utils/KeyedVector.h: a sorted vector of key/value pairs used as a finite map.
module KeyedVectors {
  import opened Wrappers
  import opened CopyOnWrite
  import opened StableSort
  import opened SortedSeq
  import opened SortedVectors

  datatype Pair<+K, +V> = Pair(key: K, value: V)

  // operator< of the key type.
  datatype Order<!K> = Order(less: (K, K) -> bool) {
    predicate Lt(a: K, b: K) {
      less(a, b)
    }
  }

  ghost predicate StrictTotalOrder<K(!new)>(less: Order<K>) {
    && (forall a :: !less.Lt(a, a))
    && (forall a, b :: a == b || less.Lt(a, b) || less.Lt(b, a))
    && (forall a, b, c {:trigger Linked(a, b, c)} ::
          Linked(a, b, c) && less.Lt(a, b) && less.Lt(b, c) ==> less.Lt(a, c))
  }

  // compare_type of two pairs, by strictly_order_type of their keys.
  function PairOrder<K, V>(less: Order<K>): Comparator<Pair<K, V>> {
    Comparator((l: Pair<K, V>, r: Pair<K, V>) =>
      (if less.Lt(r.key, l.key) then 1 else 0) - (if less.Lt(l.key, r.key) then 1 else 0))
  }

  lemma PairOrderIsTotal<K(!new), V(!new)>(less: Order<K>)
    requires StrictTotalOrder(less)
    ensures TotalPreorder(PairOrder<K, V>(less))
    ensures forall l: Pair<K, V>, r: Pair<K, V> :: PairOrder(less).Of(l, r) == 0 <==> l.key == r.key
  {
    var cmp := PairOrder<K, V>(less);
    forall l: Pair<K, V>, r: Pair<K, V> ensures cmp.Of(l, r) > 0 <==> less.Lt(r.key, l.key)
                                        ensures cmp.Of(l, r) < 0 <==> less.Lt(l.key, r.key)
    {
      assert Linked(l.key, r.key, l.key);
    }
    forall a: Pair<K, V>, b: Pair<K, V>, c: Pair<K, V> | cmp.Of(a, b) <= 0 && cmp.Of(b, c) <= 0
      ensures cmp.Of(a, c) <= 0
    {
      assert Linked(c.key, a.key, b.key);
      assert Linked(b.key, c.key, a.key);
    }
  }

  ghost predicate DistinctKeys<K, V>(s: seq<Pair<K, V>>) {
    forall i, j :: 0 <= i < j < |s| ==> s[i].key != s[j].key
  }

  // The finite map a sequence of pairs stands for.
  ghost function ToMap<K, V>(s: seq<Pair<K, V>>): (m: map<K, V>)
    requires DistinctKeys(s)
    ensures forall i :: 0 <= i < |s| ==> s[i].key in m && m[s[i].key] == s[i].value
    ensures forall k :: k in m ==> exists i :: 0 <= i < |s| && s[i].key == k
  {
    map i | 0 <= i < |s| :: s[i].key := s[i].value
  }

  lemma StrictIsDistinct<K(!new), V(!new)>(less: Order<K>, s: seq<Pair<K, V>>)
    requires StrictTotalOrder(less) && Strict(PairOrder(less), s)
    ensures DistinctKeys(s)
  {
  }

  // ToMap is determined by the set of pairs.
  lemma ToMapOf<K, V>(s: seq<Pair<K, V>>, m: map<K, V>)
    requires DistinctKeys(s)
    requires forall x :: x in s ==> x.key in m && m[x.key] == x.value
    requires forall k :: k in m ==> Pair(k, m[k]) in s
    ensures ToMap(s) == m
  {
  }

  lemma ToMapMembers<K, V>(s: seq<Pair<K, V>>)
    requires DistinctKeys(s)
    ensures forall x :: x in s ==> x.key in ToMap(s) && ToMap(s)[x.key] == x.value
    ensures forall k :: k in ToMap(s) ==> Pair(k, ToMap(s)[k]) in s
  {
  }

  lemma SpliceIsUpdate<K, V>(s: seq<Pair<K, V>>, p: nat, x: Pair<K, V>)
    requires p <= |s| && DistinctKeys(s) && DistinctKeys(s[..p] + [x] + s[p..])
    ensures ToMap(s[..p] + [x] + s[p..]) == ToMap(s)[x.key := x.value]
  {
    var t := s[..p] + [x] + s[p..];
    assert t[p] == x;
    forall y | y in s ensures y in t && y.key != x.key {
      var i :| 0 <= i < |s| && s[i] == y;
      assert t[if i < p then i else i + 1] == y;
    }
    forall y | y in t ensures y == x || y in s {
      assert s == s[..p] + s[p..];
    }
    ToMapMembers(s);
    ToMapOf(t, ToMap(s)[x.key := x.value]);
  }

  lemma ReplaceIsUpdate<K, V>(s: seq<Pair<K, V>>, p: nat, x: Pair<K, V>)
    requires p < |s| && DistinctKeys(s) && s[p].key == x.key
    ensures DistinctKeys(s[p := x]) && ToMap(s[p := x]) == ToMap(s)[x.key := x.value]
  {
    var t := s[p := x];
    assert t[p] == x;
    forall y | y in s && y.key != x.key ensures y in t {
      var i :| 0 <= i < |s| && s[i] == y;
      assert t[i] == y;
    }
    ToMapMembers(s);
    ToMapOf(t, ToMap(s)[x.key := x.value]);
  }

  lemma CutIsRemoval<K, V>(s: seq<Pair<K, V>>, p: nat)
    requires p < |s| && DistinctKeys(s) && DistinctKeys(Cut(s, p, 1))
    ensures ToMap(Cut(s, p, 1)) == ToMap(s) - {s[p].key}
  {
    var t := Cut(s, p, 1);
    forall y | y in s && y.key != s[p].key ensures y in t {
      var i :| 0 <= i < |s| && s[i] == y;
      assert t[if i < p then i else i - 1] == y;
    }
    forall y | y in t ensures y in s && y.key != s[p].key {
      var i :| 0 <= i < |t| && t[i] == y;
      assert s[if i < p then i else i + 1] == y;
    }
    ToMapMembers(s);
    ToMapOf(t, ToMap(s) - {s[p].key});
  }

  lemma UpdateAfterRemoval<K, V>(m: map<K, V>, key: K, value: V)
    ensures (m - {key})[key := value] == m[key := value]
  {
  }

  // What a search says about the map.
  lemma LookupInMap<K(!new), V(!new)>(less: Order<K>, s: seq<Pair<K, V>>, x: Pair<K, V>, err: int, order: nat)
    requires StrictTotalOrder(less) && DistinctKeys(s)
    requires if err == -1 then Splits(PairOrder(less), s, x, order)
             else 0 <= err < |s| && PairOrder(less).Of(s[err], x) == 0
    ensures err >= 0 <==> x.key in ToMap(s)
    ensures err >= 0 ==> s[err] == Pair(x.key, ToMap(s)[x.key])
  {
    PairOrderIsTotal<K, V>(less);
    if x.key in ToMap(s) {
      var i :| 0 <= i < |s| && s[i].key == x.key;
      assert PairOrder(less).Of(s[i], x) == 0;
    }
  }

  // add and remove, seen on the map.
  lemma PutInMap<K(!new), V(!new)>(less: Order<K>, s: seq<Pair<K, V>>, x: Pair<K, V>)
    requires StrictTotalOrder(less) && Strict(PairOrder(less), s) && DistinctKeys(s)
    ensures DistinctKeys(Put(PairOrder(less), s, x)) && Strict(PairOrder(less), Put(PairOrder(less), s, x))
    ensures ToMap(Put(PairOrder(less), s, x)) == ToMap(s)[x.key := x.value]
  {
    var cmp := PairOrder<K, V>(less);
    PairOrderIsTotal<K, V>(less);
    PutKeepsStrict(cmp, s, x);
    StrictIsDistinct(less, Put(cmp, s, x));
    var err, order := Locate(cmp, s, x);
    if err == -1 {
      PutInserts(cmp, s, x, order);
      SpliceIsUpdate(s, order, x);
    } else {
      PutReplaces(cmp, s, x, err);
      ReplaceIsUpdate(s, err, x);
    }
  }

  lemma RemovedFromMap<K(!new), V(!new)>(less: Order<K>, s: seq<Pair<K, V>>, t: seq<Pair<K, V>>, x: Pair<K, V>, i: int)
    requires StrictTotalOrder(less) && DistinctKeys(s)
    requires Strict(PairOrder(less), t)
    requires i >= 0 ==> i < |s| && PairOrder(less).Of(s[i], x) == 0 && t == Cut(s, i, 1)
    requires i < 0 ==> t == s && forall k :: 0 <= k < |s| ==> PairOrder(less).Of(s[k], x) != 0
    ensures DistinctKeys(t) && ToMap(t) == ToMap(s) - {x.key} && (i >= 0 <==> x.key in ToMap(s))
  {
    PairOrderIsTotal<K, V>(less);
    StrictIsDistinct(less, t);
    if i >= 0 {
      CutIsRemoval(s, i);
    } else {
      assert forall k :: 0 <= k < |s| ==> s[k].key != x.key;
    }
  }

  // Either an equivalent element or a separator exists.
  lemma {:induction false} Locate<T(!new)>(cmp: Comparator<T>, s: seq<T>, x: T) returns (err: int, order: nat)
    requires TotalPreorder(cmp) && Strict(cmp, s)
    ensures if err == -1 then Splits(cmp, s, x, order) else 0 <= err < |s| && cmp.Of(s[err], x) == 0
  {
    if s == [] {
      return -1, 0;
    }
    var last := |s| - 1;
    if cmp.Of(s[last], x) == 0 {
      return last, 0;
    }
    if cmp.Of(s[last], x) < 0 {
      forall k | 0 <= k < last ensures cmp.Of(s[k], x) < 0 {
        Chain(cmp, s[k], s[last], x);
      }
      return -1, |s|;
    }
    err, order := Locate(cmp, s[..last], x);
  }

  class KeyedVector<K(0,!new), V(0,!new)> {
    const vector: SortedVectorImpl<Pair<K, V>>   // mVector
    const less: Order<K>

    constructor (vec: VectorImpl<Pair<K, V>>, less: Order<K>)
      ensures vector.vec == vec && vector.cmp == PairOrder(less) && this.less == less
    {
      vector := new SortedVectorImpl(vec, PairOrder(less));
      this.less := less;
    }

    ghost predicate Valid(W: set<VectorImpl<Pair<K, V>>>)
      reads *
    {
      && VectorImpl.World(W) && vector.vec in W
      && StrictTotalOrder(less) && vector.cmp == PairOrder(less)
      && Strict(vector.cmp, vector.vec.Contents()) && DistinctKeys(vector.vec.Contents())
    }

    ghost function Model(W: set<VectorImpl<Pair<K, V>>>): map<K, V>
      requires Valid(W)
      reads *
    {
      ToMap(vector.vec.Contents())
    }

    // indexOfKey: the key is looked up with a pair whose value does not matter.
    method IndexOfKey(key: K, ghost W: set<VectorImpl<Pair<K, V>>>) returns (i: int)
      requires Valid(W)
      ensures i >= 0 <==> key in Model(W)
      ensures i >= 0 ==> i < vector.vec.count && vector.vec.Contents()[i] == Pair(key, Model(W)[key])
    {
      PairOrderIsTotal<K, V>(less);
      var value: V := *;
      var order;
      i, order := vector.IndexOrderOf(Pair(key, value));
      LookupInMap(less, vector.vec.Contents(), Pair(key, value), i, order);
    }

    // valueFor: the source aborts when the key is missing.
    method ValueFor(key: K, ghost W: set<VectorImpl<Pair<K, V>>>) returns (r: Option<V>)
      requires Valid(W)
      ensures r == if key in Model(W) then Some(Model(W)[key]) else None
    {
      var i := IndexOfKey(key, W);
      if i < 0 {
        return None;
      }
      r := Some(vector.vec.storage.slots[i].value.value);
    }

    // add
    method Add(key: K, value: V, ghost W: set<VectorImpl<Pair<K, V>>>) returns (r: Status)
      requires Valid(W)
      modifies vector.vec, vector.vec.storage
      ensures Valid(W) && Model(W) == old(Model(W))[key := value]
      ensures r.Index? && r.index < vector.vec.count && vector.vec.Contents()[r.index] == Pair(key, value)
      ensures vector.vec.NothingLost() && vector.vec.OwnStorage()
      ensures forall v :: v in W && v != vector.vec ==> v.Contents() == old(v.Contents())
    {
      PairOrderIsTotal<K, V>(less);
      PutInMap(less, vector.vec.Contents(), Pair(key, value));
      r := vector.Add(Pair(key, value), W);
    }

    // removeItem
    method RemoveItem(key: K, ghost W: set<VectorImpl<Pair<K, V>>>) returns (i: int)
      requires Valid(W)
      modifies vector.vec, vector.vec.storage
      ensures Valid(W) && Model(W) == old(Model(W)) - {key} && (i >= 0 <==> key in old(Model(W)))
      ensures vector.vec.NothingLost() && vector.vec.OwnStorage()
      ensures forall v :: v in W && v != vector.vec ==> v.Contents() == old(v.Contents())
    {
      var value: V := *;
      i := RemovePair(Pair(key, value), W);
    }

    method RemovePair(pair: Pair<K, V>, ghost W: set<VectorImpl<Pair<K, V>>>) returns (i: int)
      requires Valid(W)
      modifies vector.vec, vector.vec.storage
      ensures Valid(W) && Model(W) == old(Model(W)) - {pair.key} && (i >= 0 <==> pair.key in old(Model(W)))
      ensures vector.vec.NothingLost() && vector.vec.OwnStorage()
      ensures forall v :: v in W && v != vector.vec ==> v.Contents() == old(v.Contents())
    {
      PairOrderIsTotal<K, V>(less);
      ghost var s := vector.vec.Contents();
      i := vector.Remove(pair, W);
      RemovedFromMap(less, s, vector.vec.Contents(), pair, i);
    }

    // replaceValueFor: removes the pair, then adds it.
    method ReplaceValueFor(key: K, value: V, ghost W: set<VectorImpl<Pair<K, V>>>) returns (r: Status)
      requires Valid(W)
      modifies vector.vec, vector.vec.storage
      ensures Valid(W) && Model(W) == old(Model(W))[key := value]
      ensures r.Index? && r.index < vector.vec.count && vector.vec.Contents()[r.index] == Pair(key, value)
      ensures vector.vec.NothingLost() && vector.vec.OwnStorage()
      ensures forall v :: v in W && v != vector.vec ==> v.Contents() == old(v.Contents())
    {
      UpdateAfterRemoval(Model(W), key, value);
      var _ := RemovePair(Pair(key, value), W);
      r := Add(key, value, W);
    }
  }
}
