// Sorted vectors and keyed vectors: SortedVectorImpl of utils/VectorImpl.cpp and
// utils/KeyedVector.h, on top of the copy-on-write vectors.
module SortedVectors {
  import opened Wrappers
  import opened CopyOnWrite
  import opened StableSort
  import opened SortedSeq

  lemma CutKeepsStrict<T>(cmp: Comparator<T>, s: seq<T>, i: nat)
    requires Strict(cmp, s) && i < |s|
    ensures Strict(cmp, Cut(s, i, 1))
  {
  }

  lemma SpliceAtEnds<T>(c: seq<T>, t: seq<T>)
    ensures Splice(c, 0, t) == t + c && Splice(c, |c|, t) == c + t
  {
  }

  lemma MergeCases<T>(cmp: Comparator<T>, s: seq<T>, t: seq<T>)
    requires s != [] && t != []
    ensures cmp.Of(t[|t| - 1], s[0]) <= 0 ==> MergeContents(cmp, s, t) == t + s
    ensures cmp.Of(t[|t| - 1], s[0]) > 0 && cmp.Of(t[0], s[|s| - 1]) >= 0 ==> MergeContents(cmp, s, t) == s + t
    ensures cmp.Of(t[|t| - 1], s[0]) > 0 && cmp.Of(t[0], s[|s| - 1]) < 0 ==>
              MergeContents(cmp, s, t) == PutAll(cmp, s, t)
  {
  }

  function MergeContents<T>(cmp: Comparator<T>, s: seq<T>, t: seq<T>): seq<T> {
    if s == [] then [] else SortedSeq.Merge(cmp, s, t)
  }

  class SortedVectorImpl<T(0,!new)> {
    const vec: VectorImpl<T>
    const cmp: Comparator<T>   // do_compare

    constructor (vec: VectorImpl<T>, cmp: Comparator<T>)
      ensures this.vec == vec && this.cmp == cmp
    {
      this.vec, this.cmp := vec, cmp;
    }

    // _indexOrderOf: binary search; err is -1 when there is no equivalent item.
    method IndexOrderOf(item: T) returns (err: int, order: nat)
      requires vec.Valid() && TotalPreorder(cmp) && Sorted(cmp, vec.Contents())
      ensures err != -1 ==> 0 <= err == order < vec.count && cmp.Of(vec.Contents()[err], item) == 0
      ensures err == -1 ==> Splits(cmp, vec.Contents(), item, order)
    {
      ghost var c := vec.Contents();
      err, order := -1, 0;
      if vec.count == 0 {
        return;
      }
      var l, h := 0, vec.count - 1;
      while l <= h
        invariant 0 <= l <= h + 1 <= |c|
        invariant forall k :: 0 <= k < l ==> cmp.Of(c[k], item) < 0
        invariant forall k :: h < k < |c| ==> cmp.Of(c[k], item) > 0
      {
        var mid := l + (h - l) / 2;
        var curr := vec.storage.slots[mid].value;
        assert curr == c[mid];
        if cmp.Of(curr, item) == 0 {
          return mid, mid;
        } else if cmp.Of(curr, item) < 0 {
          forall k | l <= k < mid ensures cmp.Of(c[k], item) < 0 {
            Chain(cmp, c[k], c[mid], item);
          }
          l := mid + 1;
        } else {
          forall k | mid < k <= h ensures cmp.Of(c[k], item) > 0 {
            Chain(cmp, item, c[mid], c[k]);
          }
          h := mid - 1;
        }
      }
      order := l;
    }

    // add: inserts the item, or replaces the one equivalent to it.
    method Add(item: T, ghost W: set<VectorImpl<T>>) returns (r: Status)
      requires VectorImpl.World(W) && vec in W && TotalPreorder(cmp) && Strict(cmp, vec.Contents())
      modifies vec, vec.storage
      ensures VectorImpl.World(W) && vec.NothingLost() && vec.OwnStorage()
      ensures vec.Contents() == Put(cmp, old(vec.Contents()), item) && Strict(cmp, vec.Contents())
      ensures r.Index? && r.index < vec.count && vec.Contents()[r.index] == item
      ensures forall v :: v in W && v != vec ==> v.Contents() == old(v.Contents())
    {
      ghost var c := vec.Contents();
      var index, order := IndexOrderOf(item);
      PutKeepsStrict(cmp, c, item);
      if index < 0 {
        PutInserts(cmp, c, item, order);
        r := vec.InsertAt(Some(item), order, 1, W);
        assert Repeat(item, 1) == [item];
      } else {
        PutReplaces(cmp, c, item, index);
        r := vec.ReplaceAt(Some(item), index, W);
      }
    }

    // remove
    method Remove(item: T, ghost W: set<VectorImpl<T>>) returns (i: int)
      requires VectorImpl.World(W) && vec in W && TotalPreorder(cmp) && Strict(cmp, vec.Contents())
      modifies vec, vec.storage
      ensures VectorImpl.World(W) && vec.NothingLost() && vec.OwnStorage() && Strict(cmp, vec.Contents())
      ensures i >= 0 ==> i < |old(vec.Contents())| && cmp.Of(old(vec.Contents())[i], item) == 0
                         && vec.Contents() == Cut(old(vec.Contents()), i, 1)
      ensures i < 0 ==> vec.Contents() == old(vec.Contents())
                        && forall k :: 0 <= k < vec.count ==> cmp.Of(vec.Contents()[k], item) != 0
      ensures forall v :: v in W && v != vec ==> v.Contents() == old(v.Contents())
    {
      var order;
      i, order := IndexOrderOf(item);
      if i >= 0 {
        CutKeepsStrict(cmp, vec.Contents(), i);
        var _ := vec.RemoveItemsAt(i, 1, W);
      }
    }

    // One round of merge(const VectorImpl&): the items t of vector up to i were added to c.
    method MergeNext(vector: VectorImpl<T>, i: nat, ghost c: seq<T>, ghost t: seq<T>, ghost W: set<VectorImpl<T>>)
      requires VectorImpl.World(W) && vec in W && vector in W && vector != vec
      requires TotalPreorder(cmp) && Strict(cmp, vec.Contents())
      requires vector.Contents() == t && i < |t| && vec.Contents() == PutAll(cmp, c, t[..i])
      modifies vec, vec.storage
      ensures VectorImpl.World(W) && vec.NothingLost() && vec.OwnStorage() && Strict(cmp, vec.Contents())
      ensures vec.Contents() == PutAll(cmp, c, t[..i + 1])
      ensures forall v :: v in W && v != vec ==> v.Contents() == old(v.Contents())
    {
      PutAllStep(cmp, c, t, i);
      var item := vector.storage.slots[i].value;
      assert item == vector.Contents()[i];
      var _ := Add(item, W);
    }

    // merge(const VectorImpl&)
    method MergeAll(vector: VectorImpl<T>, ghost W: set<VectorImpl<T>>)
      requires VectorImpl.World(W) && vec in W && vector in W && vector != vec
      requires TotalPreorder(cmp) && Strict(cmp, vec.Contents())
      modifies vec, vec.storage
      ensures VectorImpl.World(W) && vec.NothingLost() && vec.OwnStorage() && Strict(cmp, vec.Contents())
      ensures vec.Contents() == PutAll(cmp, old(vec.Contents()), old(vector.Contents()))
      ensures forall v :: v in W && v != vec ==> v.Contents() == old(v.Contents())
    {
      ghost var t := vector.Contents();
      ghost var c := vec.Contents();
      assert t[..0] == [];
      for i := 0 to vector.count
        invariant VectorImpl.World(W) && Strict(cmp, vec.Contents())
        invariant vec.Contents() == PutAll(cmp, c, t[..i])
        invariant forall v :: v in W && v != vec ==> v.Contents() == old(v.Contents())
        invariant vec.NothingLost() && vec.OwnStorage()
      {
        MergeNext(vector, i, c, t, W);
      }
      assert t[..|t|] == t;
    }

    // merge(const SortedVectorImpl&): the fast paths compare against the receiver's own ends, so
    // it must not be empty unless there is nothing to merge.
    method Merge(vector: SortedVectorImpl<T>, ghost W: set<VectorImpl<T>>)
      requires VectorImpl.World(W) && vec in W && vector.vec in W && vector.vec != vec && vector.cmp == cmp
      requires TotalPreorder(cmp) && Strict(cmp, vec.Contents()) && Strict(cmp, vector.vec.Contents())
      requires vec.count > 0 || vector.vec.count == 0
      modifies vec, vec.storage
      ensures VectorImpl.World(W) && vec.NothingLost() && vec.OwnStorage()
      ensures vec.Contents() == MergeContents(cmp, old(vec.Contents()), old(vector.vec.Contents()))
      ensures forall v :: v in W && v != vec ==> v.Contents() == old(v.Contents())
    {
      ghost var c, t := vec.Contents(), vector.vec.Contents();
      var n := vector.vec.count;
      if n == 0 {
        return;
      }
      var first, last := vec.storage.slots[0].value, vec.storage.slots[vec.count - 1].value;
      var otherFirst, otherLast := vector.vec.storage.slots[0].value, vector.vec.storage.slots[n - 1].value;
      assert first == c[0] && last == c[|c| - 1] && otherFirst == t[0] && otherLast == t[|t| - 1];
      SpliceAtEnds(c, t);
      MergeCases(cmp, c, t);
      if cmp.Of(otherLast, first) <= 0 {
        var _ := vec.InsertVectorAt(vector.vec, 0, W);
      } else if cmp.Of(otherFirst, last) >= 0 {
        var _ := vec.InsertVectorAt(vector.vec, vec.count, W);
      } else {
        MergeAll(vector.vec, W);
      }
    }
  }
}
