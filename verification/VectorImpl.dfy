// Copy-on-write vectors over counted buffers: utils/SharedBuffer.cpp, utils/VectorImpl.cpp and
// the memory-writing functions of utils/TypeHelpers.h.
//
// A buffer is one allocated block, header and data; its size is measured in items
// (mSize / mItemSize).  Isolation is stated for an arbitrary set W of vectors that is closed
// under sharing: see VectorImpl.World.
module CopyOnWrite {
  import opened Wrappers
  import opened TypeHelpers
  import opened StableSort

  const MIN_VECTOR_CAPACITY: nat := 4

  function Max(a: nat, b: nat): nat {
    if a > b then a else b
  }

  // What the modifying operations return: an index or a count, or an error code.
  datatype Status = Index(index: nat) | BadIndex | BadValue | NoMemory

  // Exactly the first count slots hold objects.
  ghost predicate Layout<T>(tr: Traits, s: seq<Slot<T>>, count: nat) {
    && count <= |s|
    && AllLive(s, 0, count)
    && AllFree(tr, s, count, |s| - count)
  }

  // The objects in the first count slots.
  ghost function Items<T>(s: seq<Slot<T>>, count: nat): (r: seq<T>)
    requires count <= |s| && AllLive(s, 0, count)
    ensures |r| == count && forall i :: 0 <= i < count ==> r[i] == s[i].value
  {
    seq(count, i requires 0 <= i < count => s[i].value)
  }

  // c with the items ins put in at index.
  function Splice<T>(c: seq<T>, index: nat, ins: seq<T>): seq<T>
    requires index <= |c|
  {
    c[..index] + ins + c[index..]
  }

  lemma SameItems<T>(s: seq<Slot<T>>, t: seq<Slot<T>>, count: nat)
    requires count <= |s| && count <= |t| && AllLive(s, 0, count)
    requires forall i :: 0 <= i < count ==> t[i] == s[i]
    ensures AllLive(t, 0, count) && Items(t, count) == Items(s, count)
  {
  }

  // The items c, split at where by amount unconstructed slots.
  ghost predicate GapIn<T>(tr: Traits, s: seq<Slot<T>>, where: nat, amount: nat, c: seq<T>) {
    && where <= |c| && |c| + amount <= |s|
    && (forall i :: 0 <= i < where ==> s[i] == Live(c[i]))
    && (forall i :: where + amount <= i < |c| + amount ==> s[i] == Live(c[i - amount]))
    && AllFree(tr, s, where, amount)
    && AllFree(tr, s, |c| + amount, |s| - |c| - amount)
  }

  lemma CopiedWithGap<T>(tr: Traits, s: seq<Slot<T>>, t: seq<Slot<T>>, where: nat, amount: nat, c: seq<T>)
    requires |s| >= |c| && |c| + amount <= |t| && where <= |c|
    requires forall i :: 0 <= i < |c| ==> s[i] == Live(c[i])
    requires forall i :: 0 <= i < where ==> t[i] == s[i]
    requires forall i :: where + amount <= i < |c| + amount ==> t[i] == s[i - amount]
    requires forall i :: where <= i < |t| && !(where + amount <= i < |c| + amount) ==> t[i] == Raw
    ensures GapIn(tr, t, where, amount, c)
  {
  }

  lemma CopiedCut<T>(tr: Traits, s: seq<Slot<T>>, t: seq<Slot<T>>, where: nat, amount: nat, c: seq<T>)
    requires where + amount <= |c| <= |s| && |c| - amount <= |t|
    requires forall i :: 0 <= i < |c| ==> s[i] == Live(c[i])
    requires forall i :: 0 <= i < where ==> t[i] == s[i]
    requires forall i :: where <= i < |c| - amount ==> t[i] == s[i - where + (where + amount)]
    requires forall i :: |c| - amount <= i < |t| ==> t[i] == Raw
    ensures forall i :: 0 <= i < where ==> t[i] == Live(c[i])
    ensures forall i :: where <= i < |c| - amount ==> t[i] == Live(c[i + amount])
    ensures AllFree(tr, t, |c| - amount, |t| - (|c| - amount))
  {
  }

  lemma MovedWithGap<T>(tr: Traits, s: seq<Slot<T>>, t: seq<Slot<T>>, where: nat, amount: nat, c: seq<T>)
    requires where <= |c| && |c| + amount <= |s| && AllFree(tr, s, |c|, |s| - |c|)
    requires forall i :: 0 <= i < |c| ==> s[i] == Live(c[i])
    requires if where == |c| then t == s else Relocated(tr, s, t, where + amount, where, |c| - where)
    ensures GapIn(tr, t, where, amount, c)
  {
  }

  function Repeat<T>(x: T, n: nat): seq<T> {
    seq(n, _ => x)
  }

  // c without the n items from index on.
  function Cut<T>(c: seq<T>, index: nat, n: nat): seq<T>
    requires index + n <= |c|
  {
    c[..index] + c[index + n..]
  }

  // The effect of a round of the insertion in sort: the item at i went to p, the items from p on
  // moved up, and p is where Insert puts it.
  lemma Sifted<T>(cmp: Comparator<T>, m: seq<Slot<T>>, m': seq<Slot<T>>, i: nat, p: nat)
    requires p <= i < |m| == |m'| && AllLive(m, 0, i + 1)
    requires p > 0 ==> !Above(cmp, m[p - 1].value, m[i].value)
    requires forall k :: p <= k < i ==> Above(cmp, m[k].value, m[i].value)
    requires forall k :: 0 <= k < p ==> m'[k] == m[k]
    requires forall k :: p < k <= i ==> m'[k] == m[k - 1]
    requires m'[p] == m[i]
    ensures AllLive(m', 0, i + 1)
    ensures Items(m', i + 1) == Insert(cmp, Items(m, i), m[i].value)
  {
    InsertPosition(cmp, Items(m, i), p, m[i].value);
  }

  class SharedBuffer<T(0)> {
    var refs: int                        // mRefs
    var slots: seq<Slot<T>>              // the memory behind data()
    ghost var freed: bool                // the block went back to the allocator
    ghost var owners: set<VectorImpl<T>> // who holds a reference
    ghost var live: nat                  // how many objects its owners keep in it

    // The count is exact.
    ghost predicate Counted()
      reads this
    {
      !freed && refs == |owners|
    }

    constructor Alloc(capacity: nat, ghost owner: VectorImpl<T>)
      ensures Counted() && owners == {owner} && live == 0
      ensures |slots| == capacity && forall i :: 0 <= i < capacity ==> slots[i] == Raw
    {
      refs := 1;
      slots := seq(capacity, _ => Raw);
      freed := false;
      owners, live := {owner}, 0;
    }

    predicate OnlyOwner()
      reads this
    {
      refs == 1
    }

    method Acquire(ghost owner: VectorImpl<T>)
      requires Counted() && owner !in owners
      modifies `refs, `owners
      ensures Counted() && owners == old(owners) + {owner}
    {
      refs := refs + 1;
      owners := owners + {owner};
    }

    // The block is returned only when nobody holds a reference and no object is left in it.
    method Dealloc(tr: Traits)
      requires !freed && refs == 0 && AllFree(tr, slots, 0, |slots|)
      modifies `freed
      ensures freed
    {
      freed := true;
    }

    // Returns the previous count, like the source.
    method Release(tr: Traits, keepStorage: bool, ghost owner: VectorImpl<T>) returns (prev: int)
      requires Counted() && owner in owners
      requires owners == {owner} && !keepStorage ==> AllFree(tr, slots, 0, |slots|)
      modifies `refs, `owners, `freed
      ensures prev == |old(owners)| && refs == prev - 1 == |owners|
      ensures owners == old(owners) - {owner}
      ensures freed <==> owners == {} && !keepStorage
    {
      ghost var rest := owners - {owner};
      assert owners == rest + {owner};
      owners := rest;
      if OnlyOwner() {
        refs := 0;
        if !keepStorage {
          Dealloc(tr);
        }
        return 1;
      }
      // Without concurrent holders the count is still above one here; the decrement that finds
      // itself last is a step of ConcurrentRelease.
      prev := refs;
      refs := refs - 1;
    }

    method AttemptEdit() returns (sb: SharedBuffer?<T>)
      requires Counted()
      ensures sb == this <==> |owners| == 1
      ensures sb == null || sb == this
    {
      sb := if OnlyOwner() then this else null;
    }

    // A sole owner's block is reallocated; otherwise the owner moves to a resized bitwise copy.
    // The vectors only use it for types whose objects may be copied and dropped bitwise.
    method EditResize(tr: Traits, capacity: nat, ghost owner: VectorImpl<T>) returns (sb: SharedBuffer<T>)
      requires Counted() && owner in owners
      modifies this
      ensures sb.Counted() && sb.owners == {owner} && |sb.slots| == capacity
      ensures forall i :: 0 <= i < capacity && i < |old(slots)| ==> sb.slots[i] == old(slots[i])
      ensures old(owners) == {owner} ==> sb == this
      ensures old(owners) != {owner} ==>
                fresh(sb) && Counted() && owners == old(owners) - {owner} && slots == old(slots) && live == old(live)
    {
      assert owners == (owners - {owner}) + {owner};
      var n := if capacity < |slots| then capacity else |slots|;
      var resized := slots[..n] + seq(capacity - n, _ => Raw);
      if OnlyOwner() {
        assert owners - {owner} == {};
        if |slots| != capacity {
          slots := resized;
        }
        return this;
      }
      sb := new SharedBuffer<T>.Alloc(capacity, owner);
      sb.slots := resized;
      var _ := Release(tr, false, owner);
    }

    // construct_type: a no-op for a trivial constructor, which leaves indeterminate values.
    method ConstructType(tr: Traits, at: nat, n: nat, zero: T)
      requires at + n <= |slots| && AllFree(tr, slots, at, n)
      modifies `slots
      ensures |slots| == |old(slots)| && AllLive(slots, at, n)
      ensures forall i :: 0 <= i < |slots| && !(at <= i < at + n) ==> slots[i] == old(slots[i])
      ensures !tr.trivialCtor ==> forall i :: at <= i < at + n ==> slots[i] == Live(zero)
    {
      for k := 0 to n
        invariant |slots| == |old(slots)|
        invariant forall i :: 0 <= i < |slots| && !(at <= i < at + k) ==> slots[i] == old(slots[i])
        invariant forall i :: at <= i < at + k ==> slots[i].Live? && (!tr.trivialCtor ==> slots[i] == Live(zero))
      {
        assert Free(tr, slots[at + k]);
        if tr.trivialCtor {
          var indeterminate: T := *;
          slots := slots[at + k := Live(indeterminate)];
        } else {
          slots := slots[at + k := Live(zero)];
        }
      }
    }

    // destroy_type
    method DestroyType(tr: Traits, at: nat, n: nat)
      requires at + n <= |slots| && AllLive(slots, at, n)
      modifies `slots
      ensures |slots| == |old(slots)| && AllFree(tr, slots, at, n)
      ensures forall i :: 0 <= i < |slots| && !(at <= i < at + n) ==> slots[i] == old(slots[i])
    {
      if !tr.trivialDtor {
        for k := 0 to n
          invariant |slots| == |old(slots)|
          invariant forall i :: 0 <= i < |slots| && !(at <= i < at + k) ==> slots[i] == old(slots[i])
          invariant forall i :: at <= i < at + k ==> slots[i].Raw?
        {
          assert slots[at + k].Live?;
          slots := slots[at + k := Raw];
        }
      }
    }

    // copy_type: n objects of the memory src, from index s, copy-constructed at index d.
    method CopyType(tr: Traits, d: nat, src: seq<Slot<T>>, s: nat, n: nat)
      requires d + n <= |slots| && AllFree(tr, slots, d, n)
      requires s + n <= |src| && AllLive(src, s, n)
      modifies `slots
      ensures |slots| == |old(slots)|
      ensures forall i :: 0 <= i < |slots| && !(d <= i < d + n) ==> slots[i] == old(slots[i])
      ensures forall i :: d <= i < d + n ==> slots[i] == src[i - d + s]
    {
      for k := 0 to n
        invariant |slots| == |old(slots)|
        invariant forall i :: 0 <= i < |slots| && !(d <= i < d + k) ==> slots[i] == old(slots[i])
        invariant forall i :: d <= i < d + k ==> slots[i] == src[i - d + s]
      {
        assert Free(tr, slots[d + k]) && src[s + k].Live?;
        slots := slots[d + k := src[s + k]];
      }
    }

    // splat_type: n copies of one object.
    method SplatType(tr: Traits, at: nat, what: T, n: nat)
      requires at + n <= |slots| && AllFree(tr, slots, at, n)
      modifies `slots
      ensures |slots| == |old(slots)|
      ensures forall i :: 0 <= i < |slots| && !(at <= i < at + n) ==> slots[i] == old(slots[i])
      ensures forall i :: at <= i < at + n ==> slots[i] == Live(what)
    {
      for k := 0 to n
        invariant |slots| == |old(slots)|
        invariant forall i :: 0 <= i < |slots| && !(at <= i < at + k) ==> slots[i] == old(slots[i])
        invariant forall i :: at <= i < at + k ==> slots[i] == Live(what)
      {
        assert Free(tr, slots[at + k]);
        slots := slots[at + k := Live(what)];
      }
    }

    // alloc and the copies made into the new buffer: the first head items of src at the front,
    // then tail items from index s at index d.
    static method AllocCopy(tr: Traits, capacity: nat, src: seq<Slot<T>>, head: nat, d: nat, s: nat, tail: nat,
                            ghost owner: VectorImpl<T>)
      returns (sb: SharedBuffer<T>)
      requires head <= d && d + tail <= capacity && head <= |src| && s + tail <= |src|
      requires AllLive(src, 0, head) && AllLive(src, s, tail)
      ensures fresh(sb) && sb.Counted() && sb.owners == {owner} && |sb.slots| == capacity && sb.live == head + tail
      ensures forall i :: 0 <= i < head ==> sb.slots[i] == src[i]
      ensures forall i :: d <= i < d + tail ==> sb.slots[i] == src[i - d + s]
      ensures forall i :: 0 <= i < capacity && !(0 <= i < head) && !(d <= i < d + tail) ==> sb.slots[i] == Raw
    {
      sb := new SharedBuffer<T>.Alloc(capacity, owner);
      sb.CopyType(tr, 0, src, 0, head);
      sb.CopyType(tr, d, src, s, tail);
      sb.live := head + tail;
    }

    // memmove of a range whose objects may be relocated bitwise.
    method Memmove(tr: Traits, d: nat, s: nat, n: nat)
      requires d + n <= |slots| && s + n <= |slots| && AllLive(slots, s, n)
      modifies `slots
      ensures Relocated(tr, old(slots), slots, d, s, n)
    {
      var was := slots;
      slots := seq(|was|, i requires 0 <= i < |was| =>
        if d <= i < d + n then was[i - d + s] else if s <= i < s + n then Raw else was[i]);
    }

    // _do_destroy of one item followed by _do_copy over it.
    method Overwrite(tr: Traits, at: nat, what: T)
      requires at < |slots| && slots[at].Live?
      modifies `slots
      ensures slots == old(slots)[at := Live(what)]
    {
      DestroyType(tr, at, 1);
      SplatType(tr, at, what, 1);
    }

    // The loop of one round of the insertion in sort: the items above temp move up by one, each
    // move destroying the target slot and copying its neighbour into it; next is the gap.
    method MoveUp(tr: Traits, cmp: Comparator<T>, i: nat, temp: T) returns (next: nat)
      requires 0 < i < |slots| && AllLive(slots, 0, i + 1)
      modifies `slots
      ensures next <= i && |slots| == |old(slots)|
      ensures forall k :: 0 <= k < next || i < k < |slots| ==> slots[k] == old(slots[k])
      ensures forall k :: next < k <= i ==> slots[k] == old(slots)[k - 1]
      ensures slots[next].Live? && forall k :: next <= k < i ==> Above(cmp, old(slots[k]).value, temp)
      ensures next > 0 ==> !Above(cmp, old(slots[next - 1]).value, temp)
    {
      var j := i - 1;
      next := i;
      while j >= 0 && Above(cmp, slots[j].value, temp)
        invariant -1 <= j < i && next == j + 1 && |slots| == |old(slots)|
        invariant forall k :: 0 <= k <= j + 1 || i < k < |slots| ==> slots[k] == old(slots[k])
        invariant forall k :: j + 1 < k <= i ==> slots[k] == old(slots)[k - 1]
        invariant forall k :: j < k < i ==> Above(cmp, old(slots[k]).value, temp)
      {
        Overwrite(tr, next, slots[j].value);
        next := j;
        j := j - 1;
      }
    }

    // One round of the insertion in sort: the item at i moves down past the items above it.
    method SiftDown(tr: Traits, cmp: Comparator<T>, i: nat)
      requires 0 < i < |slots| && AllLive(slots, 0, i + 1)
      requires Above(cmp, slots[i - 1].value, slots[i].value)
      modifies `slots
      ensures |slots| == |old(slots)| && AllLive(slots, 0, i + 1)
      ensures forall k :: i < k < |slots| ==> slots[k] == old(slots[k])
      ensures Items(slots, i + 1) == Insert(cmp, old(Items(slots, i)), old(slots[i].value))
    {
      var temp := slots[i].value;
      var next := MoveUp(tr, cmp, i, temp);
      Overwrite(tr, next, temp);
      Sifted(cmp, old(slots), slots, i, next);
    }

    // One step of either loop: copy-construct, then destroy the original.
    method MoveItem(tr: Traits, d: nat, s: nat)
      requires d < |slots| && s < |slots| && MoveOne(tr, slots, d, s).Some?
      modifies `slots
      ensures slots == MoveOne(tr, old(slots), d, s).value
    {
      slots := slots[d := slots[s]];
      if !tr.trivialDtor {
        slots := slots[s := Raw];
      }
    }

    // move_forward_type
    method MoveForwardType(tr: Traits, d: nat, s: nat, n: nat)
      requires s <= d && d + n <= |slots| && Movable(tr, slots, d, s, n)
      requires s < d || n == 0 || tr.UsesMemmove()
      modifies `slots
      ensures Relocated(tr, old(slots), slots, d, s, n)
    {
      if tr.UsesMemmove() {
        Memmove(tr, d, s, n);
        return;
      }
      ghost var target := ForwardLoop(tr, slots, d, s, n);
      if s < d {
        ForwardLoopRelocates(tr, slots, d, s, n);
      }
      var k := n;
      while k > 0
        invariant 0 <= k <= n && |slots| == |old(slots)|
        invariant target.Some? && ForwardLoop(tr, slots, d, s, k) == target
      {
        k := k - 1;
        MoveItem(tr, d + k, s + k);
      }
    }

    // move_backward_type
    method MoveBackwardType(tr: Traits, d: nat, s: nat, n: nat)
      requires d <= s && s + n <= |slots| && Movable(tr, slots, d, s, n)
      requires d < s || n == 0 || tr.UsesMemmove()
      modifies `slots
      ensures Relocated(tr, old(slots), slots, d, s, n)
    {
      if tr.UsesMemmove() {
        Memmove(tr, d, s, n);
        return;
      }
      ghost var target := BackwardLoop(tr, slots, d, s, n);
      if d < s {
        BackwardLoopRelocates(tr, slots, d, s, n);
      }
      var to, from, left := d, s, n;
      while left > 0
        invariant to + left == d + n && from + left == s + n && |slots| == |old(slots)|
        invariant target.Some? && BackwardLoop(tr, slots, to, from, left) == target
      {
        MoveItem(tr, to, from);
        to, from, left := to + 1, from + 1, left - 1;
      }
    }
  }

  class VectorImpl<T(0)> {
    var storage: SharedBuffer?<T>        // mStorage
    var count: nat                       // mCount
    const tr: Traits                     // mFlags and the element type's traits
    const zero: T                        // a default-constructed element

    constructor (tr: Traits, zero: T)
      ensures Valid() && Contents() == [] && storage == null
      ensures this.tr == tr && this.zero == zero
    {
      storage, count := null, 0;
      this.tr, this.zero := tr, zero;
    }

    // The buffer is counted exactly, this vector is one of its owners, and the constructed slots
    // are exactly [0, count).
    ghost predicate Valid()
      reads this, storage
    {
      && (storage == null ==> count == 0)
      && (storage != null ==>
            storage.Counted() && this in storage.owners && storage.live == count && Layout(tr, storage.slots, count))
    }

    ghost function Contents(): (c: seq<T>)
      requires Valid()
      reads this, storage
      ensures |c| == count
    {
      if storage == null then [] else Items(storage.slots, count)
    }

    // The owners of the buffer are vectors of W that point at it, other than absent.
    ghost predicate OwnersWithin(W: set<VectorImpl<T>>, absent: VectorImpl?<T>)
      reads *
    {
      storage != null ==>
        forall u :: u in storage.owners ==> u in W && u != absent && u.storage == storage
    }

    // All vectors of W but absent are valid, and each of their buffers is owned by exactly those
    // of them that point at it.
    static ghost predicate WorldWithout(W: set<VectorImpl<T>>, absent: VectorImpl?<T>)
      reads *
    {
      forall v :: v in W && v != absent ==> v.Valid() && v.OwnersWithin(W, absent)
    }

    static ghost predicate World(W: set<VectorImpl<T>>)
      reads *
    {
      WorldWithout(W, null)
    }

    // The vector owns a buffer that no other vector of W uses.
    ghost predicate Isolated(W: set<VectorImpl<T>>)
      reads *
    {
      && storage != null && storage.Counted() && storage.owners == {this}
      && forall v :: v in W && v != this ==> v.storage != storage
    }

    // In a closed world the count is the number of vectors that point at the buffer, and those
    // vectors agree on the number of items.
    static lemma CountIsExact(W: set<VectorImpl<T>>, v: VectorImpl<T>)
      requires World(W) && v in W && v.storage != null
      ensures v.storage.refs == |set u | u in W && u.storage == v.storage|
      ensures forall u :: u in W && u.storage == v.storage ==> u.count == v.count && u.Contents() == v.Contents()
    {
      assert v.OwnersWithin(W, null);
      assert v.storage.owners == set u | u in W && u.storage == v.storage;
    }

    // A buffer that the vector stopped using was freed if and only if nobody else owned it, and one
    // that it still uses has the owners it had.
    twostate predicate NothingLost()
      reads *
    {
      old(storage) != null ==>
        if storage == old(storage) then storage.owners == old(storage.owners)
        else old(storage).freed <==> old(storage.owners) == {this}
    }

    // The vector kept its buffer, has none, or uses one allocated meanwhile.
    twostate predicate OwnStorage()
      reads *
    {
      storage == null || storage == old(storage) || fresh(storage)
    }

    // A valid vector with a buffer of its own joins the rest of the world.
    lemma JoinWorld(W: set<VectorImpl<T>>)
      requires this in W && WorldWithout(W, this) && Isolated(W) && Valid()
      ensures World(W)
    {
    }

    // release_storage: storage itself still points to the buffer afterwards; callers overwrite it.
    method ReleaseStorage(ghost W: set<VectorImpl<T>>)
      requires World(W) && this in W
      modifies storage
      ensures WorldWithout(W, this)
      ensures forall v :: v in W && v != this ==> v.Contents() == old(v.Contents())
      ensures storage != null && old(storage.owners) == {this} ==>
                storage.freed && AllFree(tr, storage.slots, 0, |storage.slots|)
      ensures storage != null && old(storage.owners) != {this} ==> !storage.freed && storage.slots == old(storage.slots)
    {
      if storage != null {
        var prev := storage.Release(tr, true, this);
        if prev == 1 {
          assert old(storage.owners) == {this};
          storage.DestroyType(tr, 0, count);
          storage.live := 0;
          storage.Dealloc(tr);
        }
        forall v | v in W && v != this
          ensures v.Valid() && v.OwnersWithin(W, this) && v.Contents() == old(v.Contents())
        {
          assert old(v.OwnersWithin(W, null));
        }
      }
    }

    // release_storage followed by the assignment of a new buffer to mStorage.
    method ReplaceStorage(sb: SharedBuffer<T>, ghost W: set<VectorImpl<T>>)
      requires World(W) && this in W
      requires sb.Counted() && sb.owners == {this}
      requires forall v :: v in W ==> v.storage != sb
      modifies `storage, storage
      ensures NothingLost()
      ensures WorldWithout(W, this) && storage == sb && Isolated(W)
      ensures forall v :: v in W && v != this ==> v.Contents() == old(v.Contents())
      ensures unchanged(sb)
    {
      ReleaseStorage(W);
      label released:
      storage := sb;
      forall v | v in W && v != this ensures v.Valid() && v.OwnersWithin(W, this) {
        assert old@released(v.Valid() && v.OwnersWithin(W, this));
      }
    }

    // The branch of editArrayImpl for a shared buffer.
    method Detach(ghost W: set<VectorImpl<T>>)
      requires World(W) && this in W && storage != null
      modifies `storage, storage
      ensures NothingLost() && fresh(storage)
      ensures World(W) && Contents() == old(Contents()) && Isolated(W)
      ensures forall v :: v in W && v != this ==> v.Contents() == old(v.Contents())
      ensures |storage.slots| == |old(storage.slots)|
    {
      var copy := SharedBuffer.AllocCopy(tr, |storage.slots|, storage.slots, count, count, count, 0, this);
      SameItems(storage.slots, copy.slots, count);
      ReplaceStorage(copy, W);
      JoinWorld(W);
    }

    // editArrayImpl
    method EditArray(ghost W: set<VectorImpl<T>>)
      requires World(W) && this in W
      modifies `storage, storage
      ensures NothingLost() && OwnStorage()
      ensures World(W) && Contents() == old(Contents())
      ensures forall v :: v in W && v != this ==> v.Contents() == old(v.Contents())
      ensures storage == null <==> old(storage) == null
      ensures storage != null ==> Isolated(W) && |storage.slots| == |old(storage.slots)|
      ensures storage != null && old(storage.owners) == {this} ==> storage == old(storage)
      ensures storage != null && old(storage.owners) != {this} ==> fresh(storage)
    {
      if storage != null {
        assert storage.owners == {this} + (storage.owners - {this});
        var editable := storage.AttemptEdit();
        if editable == null {
          Detach(W);
        }
      }
    }

    ghost function Capacity(): nat
      reads this, storage
    {
      if storage == null then 0 else |storage.slots|
    }

    // The state _grow leaves behind.
    ghost predicate Gapped(where: nat, amount: nat, c: seq<T>)
      reads this, storage
    {
      storage != null && count == |c| + amount && GapIn(tr, storage.slots, where, amount, c)
    }

    // The first branch of _grow: a bitwise resize when the new items go to the end.
    method GrowByResize(amount: nat, capacity: nat, ghost W: set<VectorImpl<T>>)
      requires World(W) && this in W && storage != null && count + amount <= capacity
      requires tr.trivialCopy && tr.trivialDtor
      modifies this, storage
      ensures NothingLost() && OwnStorage()
      ensures WorldWithout(W, this) && Isolated(W) && Gapped(old(count), amount, old(Contents()))
      ensures forall v :: v in W && v != this ==> v.Contents() == old(v.Contents())
      ensures Capacity() == capacity
    {
      storage := storage.EditResize(tr, capacity, this);
      count := count + amount;
      forall v | v in W && v != this ensures v.Valid() && v.OwnersWithin(W, this) && v.storage != storage {
        assert old(v.Valid() && v.OwnersWithin(W, null));
      }
    }

    // The second branch of _grow: a new buffer.
    method GrowByCopy(where: nat, amount: nat, capacity: nat, ghost W: set<VectorImpl<T>>)
      requires World(W) && this in W && where <= count && count + amount <= capacity
      modifies this, storage
      ensures NothingLost() && OwnStorage()
      ensures WorldWithout(W, this) && Isolated(W) && Gapped(where, amount, old(Contents()))
      ensures forall v :: v in W && v != this ==> v.Contents() == old(v.Contents())
      ensures Capacity() == capacity
    {
      var from := if storage == null then [] else storage.slots;
      var sb := SharedBuffer.AllocCopy(tr, capacity, from, where, where + amount, where, count - where, this);
      assert forall i :: where + amount <= i < count + amount ==> sb.slots[i] == from[i - amount];
      CopiedWithGap(tr, from, sb.slots, where, amount, Contents());
      ReplaceStorage(sb, W);
      count := count + amount;
    }

    // Shifting the items from where on in a buffer of the vector's own.
    method OpenGap(where: nat, amount: nat, ghost W: set<VectorImpl<T>>)
      requires World(W) && this in W && Isolated(W) && where <= count && count + amount <= |storage.slots|
      requires amount > 0 || where == count || tr.UsesMemmove()
      modifies `count, storage`slots
      ensures WorldWithout(W, this) && Isolated(W) && Gapped(where, amount, old(Contents()))
      ensures forall v :: v in W && v != this ==> v.Contents() == old(v.Contents())
      ensures Capacity() == old(Capacity())
      ensures amount == 0 ==> World(W) && Contents() == old(Contents())
    {
      if where != count {
        storage.MoveForwardType(tr, where + amount, where, count - where);
      }
      MovedWithGap(tr, old(storage.slots), storage.slots, where, amount, old(Contents()));
      count := count + amount;
      forall v | v in W && v != this ensures v.Valid() && v.OwnersWithin(W, this) {
        assert old(v.Valid() && v.OwnersWithin(W, null));
      }
      if amount == 0 {
        JoinWorld(W);
      }
    }

    // The last branch of _grow: make room in a buffer that is large enough.
    method GrowInPlace(where: nat, amount: nat, ghost W: set<VectorImpl<T>>)
      requires World(W) && this in W && where <= count && storage != null && count + amount <= |storage.slots|
      requires amount > 0 || where == count || tr.UsesMemmove()
      modifies this, storage
      ensures NothingLost() && OwnStorage()
      ensures WorldWithout(W, this) && Isolated(W) && Gapped(where, amount, old(Contents()))
      ensures forall v :: v in W && v != this ==> v.Contents() == old(v.Contents())
      ensures Capacity() == old(Capacity())
      ensures amount == 0 ==> World(W) && Contents() == old(Contents())
    {
      EditArray(W);
      OpenGap(where, amount, W);
    }

    // _grow: makes room for amount items at where.  The result says whether there is a location
    // for them, which can only fail to be when none are asked for.
    method Grow(where: nat, amount: nat, ghost W: set<VectorImpl<T>>) returns (located: bool)
      requires World(W) && this in W && where <= count
      requires amount > 0 || where == count || tr.UsesMemmove()
      modifies this, storage
      ensures NothingLost() && OwnStorage()
      ensures storage == null ==> amount == 0
      ensures amount == 0 ==> World(W) && Contents() == old(Contents())
      ensures storage != null ==> WorldWithout(W, this) && Isolated(W) && Gapped(where, amount, old(Contents()))
      ensures forall v :: v in W && v != this ==> v.Contents() == old(v.Contents())
      ensures located <==> where < Capacity()
      ensures Capacity() == if old(Capacity()) < old(count) + amount
                            then Max(MIN_VECTOR_CAPACITY, old(count) + amount + (old(count) + amount) / 2 + 1)
                            else old(Capacity())
    {
      var newSize := count + amount;
      var capacity := if storage == null then 0 else |storage.slots|;
      if capacity < newSize {
        var newCapacity := Max(MIN_VECTOR_CAPACITY, newSize + newSize / 2 + 1);
        if storage != null && count == where && tr.trivialCopy && tr.trivialDtor {
          GrowByResize(amount, newCapacity, W);
        } else {
          GrowByCopy(where, amount, newCapacity, W);
        }
      } else if storage != null {
        GrowInPlace(where, amount, W);
      }
      located := storage != null && where < |storage.slots|;
    }

    // Once the gap holds objects, the vector is whole again.
    lemma GapFilled(where: nat, amount: nat, c: seq<T>, W: set<VectorImpl<T>>)
      requires this in W && WorldWithout(W, this) && Isolated(W)
      requires where <= |c| && storage.live == count == |c| + amount <= |storage.slots|
      requires forall i :: 0 <= i < where ==> storage.slots[i] == Live(c[i])
      requires forall i :: where + amount <= i < count ==> storage.slots[i] == Live(c[i - amount])
      requires AllLive(storage.slots, where, amount)
      requires AllFree(tr, storage.slots, count, |storage.slots| - count)
      ensures World(W) && Contents() == Splice(c, where, Contents()[where..where + amount])
      ensures forall i :: where <= i < where + amount ==> Contents()[i] == storage.slots[i].value
    {
    }

    // The items _do_splat or _do_construct puts into the gap.
    method FillGap(item: Option<T>, index: nat, numItems: nat, ghost c: seq<T>, ghost W: set<VectorImpl<T>>)
      requires this in W && WorldWithout(W, this) && Isolated(W) && Gapped(index, numItems, c)
      modifies storage`slots, storage`live
      ensures World(W) && Contents() == Splice(c, index, Contents()[index..index + numItems])
      ensures item.Some? ==> Contents()[index..index + numItems] == Repeat(item.value, numItems)
      ensures item.None? && !tr.trivialCtor ==> Contents()[index..index + numItems] == Repeat(zero, numItems)
      ensures forall v :: v in W && v != this ==> v.Contents() == old(v.Contents())
      ensures Capacity() == old(Capacity())
    {
      if item.Some? {
        storage.SplatType(tr, index, item.value, numItems);
      } else {
        storage.ConstructType(tr, index, numItems, zero);
      }
      storage.live := count;
      forall v | v in W && v != this ensures v.Valid() && v.OwnersWithin(W, this) {
        assert old(v.Valid() && v.OwnersWithin(W, this));
      }
      GapFilled(index, numItems, c, W);
    }

    // insertAt: numItems copies of item, or default-constructed items when there is none.
    method InsertAt(item: Option<T>, index: nat, numItems: nat, ghost W: set<VectorImpl<T>>) returns (r: Status)
      requires World(W) && this in W
      requires numItems > 0 || index >= count || tr.UsesMemmove()
      modifies this, storage
      ensures NothingLost() && OwnStorage()
      ensures World(W)
      ensures forall v :: v in W && v != this ==> v.Contents() == old(v.Contents())
      ensures index > old(count) ==> r == BadIndex && Contents() == old(Contents())
      ensures index <= old(count) ==>
                && count == old(count) + numItems
                && Contents() == Splice(old(Contents()), index, Contents()[index..index + numItems])
                && (item.Some? ==> Contents()[index..index + numItems] == Repeat(item.value, numItems))
                && (item.None? && !tr.trivialCtor ==> Contents()[index..index + numItems] == Repeat(zero, numItems))
                && r == if index < Capacity() then Index(index) else NoMemory
    {
      if index > count {
        return BadIndex;
      }
      ghost var c := Contents();
      var located := Grow(index, numItems, W);
      if located {
        FillGap(item, index, numItems, c, W);
        return Index(index);
      }
      r := NoMemory;
    }

    // insertVectorAt, by way of insertArrayAt: the inserted items may lie in shared storage, but
    // not in this vector's own.
    method InsertVectorAt(vector: VectorImpl<T>, index: nat, ghost W: set<VectorImpl<T>>) returns (r: Status)
      requires World(W) && this in W && vector in W && vector != this
      requires vector.count > 0 || index >= count || tr.UsesMemmove()
      modifies this, storage
      ensures NothingLost() && OwnStorage()
      ensures World(W)
      ensures forall v :: v in W && v != this ==> v.Contents() == old(v.Contents())
      ensures index > old(count) ==> r == BadIndex && Contents() == old(Contents())
      ensures index <= old(count) ==>
                && Contents() == Splice(old(Contents()), index, old(vector.Contents()))
                && r == if index < Capacity() then Index(index) else NoMemory
    {
      if index > count {
        return BadIndex;
      }
      ghost var c := Contents();
      var located := Grow(index, vector.count, W);
      if located {
        CopyIntoGap(vector, index, c, W);
        return Index(index);
      }
      assert vector.Contents() == [];
      assert Splice(c, index, []) == c;
      r := NoMemory;
    }

    // The items of vector go into the gap.
    method CopyIntoGap(vector: VectorImpl<T>, index: nat, ghost c: seq<T>, ghost W: set<VectorImpl<T>>)
      requires this in W && WorldWithout(W, this) && Isolated(W) && vector in W && vector != this
      requires Gapped(index, vector.count, c)
      modifies storage`slots, storage`live
      ensures World(W) && Contents() == Splice(c, index, old(vector.Contents()))
      ensures forall v :: v in W && v != this ==> v.Contents() == old(v.Contents())
      ensures Capacity() == old(Capacity())
    {
      var from := if vector.storage == null then [] else vector.storage.slots;
      storage.CopyType(tr, index, from, 0, vector.count);
      storage.live := count;
      forall v | v in W && v != this ensures v.Valid() && v.OwnersWithin(W, this) {
        assert old(v.Valid() && v.OwnersWithin(W, this));
      }
      GapFilled(index, vector.count, c, W);
      assert Contents()[index..index + vector.count] == vector.Contents();
    }

    // Items [0, where) and [where + amount, |c|) of c are what the first count slots hold.
    lemma GapClosed(where: nat, amount: nat, c: seq<T>, W: set<VectorImpl<T>>)
      requires this in W && WorldWithout(W, this) && Isolated(W)
      requires where + amount <= |c| && storage.live == count == |c| - amount <= |storage.slots|
      requires forall i :: 0 <= i < where ==> storage.slots[i] == Live(c[i])
      requires forall i :: where <= i < count ==> storage.slots[i] == Live(c[i + amount])
      requires AllFree(tr, storage.slots, count, |storage.slots| - count)
      ensures World(W) && Contents() == Cut(c, where, amount)
    {
    }

    // The first branch of _shrink: a bitwise resize when the removed items are the last ones.
    method ShrinkByResize(amount: nat, capacity: nat, ghost W: set<VectorImpl<T>>)
      requires World(W) && this in W && storage != null && amount <= count && count - amount <= capacity
      requires tr.trivialCopy && tr.trivialDtor
      modifies this, storage
      ensures NothingLost() && OwnStorage()
      ensures World(W) && Contents() == Cut(old(Contents()), old(count) - amount, amount)
      ensures forall v :: v in W && v != this ==> v.Contents() == old(v.Contents())
      ensures Capacity() == capacity
    {
      ghost var c := Contents();
      storage := storage.EditResize(tr, capacity, this);
      count := count - amount;
      storage.live := count;
      forall v | v in W && v != this ensures v.Valid() && v.OwnersWithin(W, this) && v.storage != storage {
        assert old(v.Valid() && v.OwnersWithin(W, null));
      }
      GapClosed(count, amount, c, W);
    }

    // The second branch of _shrink: a new buffer.
    method ShrinkByCopy(where: nat, amount: nat, capacity: nat, ghost W: set<VectorImpl<T>>)
      requires World(W) && this in W && storage != null && where + amount <= count && count - amount <= capacity
      modifies this, storage
      ensures NothingLost() && OwnStorage()
      ensures World(W) && Contents() == Cut(old(Contents()), where, amount)
      ensures forall v :: v in W && v != this ==> v.Contents() == old(v.Contents())
      ensures Capacity() == capacity
    {
      ghost var c := Contents();
      var sb := SharedBuffer.AllocCopy(tr, capacity, storage.slots, where, where,
                                       where + amount, count - amount - where, this);
      CopiedCut(tr, storage.slots, sb.slots, where, amount, c);
      ReplaceStorage(sb, W);
      count := count - amount;
      GapClosed(where, amount, c, W);
    }

    // The last branch of _shrink, once the buffer is the vector's own.
    method CloseGap(where: nat, amount: nat, ghost W: set<VectorImpl<T>>)
      requires World(W) && this in W && Isolated(W) && where + amount <= count
      requires amount > 0 || where == count || tr.UsesMemmove()
      modifies `count, storage`slots, storage`live
      ensures World(W) && Contents() == Cut(old(Contents()), where, amount)
      ensures forall v :: v in W && v != this ==> v.Contents() == old(v.Contents())
      ensures Capacity() == old(Capacity())
    {
      ghost var c := Contents();
      storage.DestroyType(tr, where, amount);
      if where != count - amount {
        storage.MoveBackwardType(tr, where, where + amount, count - amount - where);
      }
      count := count - amount;
      storage.live := count;
      forall v | v in W && v != this ensures v.Valid() && v.OwnersWithin(W, this) {
        assert old(v.Valid() && v.OwnersWithin(W, null));
      }
      GapClosed(where, amount, c, W);
    }

    // _shrink.  The capacity is not always reduced: an empty vector with room for two or three
    // items gets room for MIN_VECTOR_CAPACITY.
    method Shrink(where: nat, amount: nat, ghost W: set<VectorImpl<T>>)
      requires World(W) && this in W && where + amount <= count
      requires amount > 0 || where == count || tr.UsesMemmove()
      modifies this, storage
      ensures NothingLost() && OwnStorage()
      ensures World(W) && Contents() == Cut(old(Contents()), where, amount)
      ensures forall v :: v in W && v != this ==> v.Contents() == old(v.Contents())
      ensures Capacity() == if old(storage) != null && old(count) - amount < old(Capacity()) / 2
                            then Max(MIN_VECTOR_CAPACITY, (old(count) - amount) * 2)
                            else old(Capacity())
    {
      if storage == null {
        return;
      }
      var newSize := count - amount;
      if newSize < |storage.slots| / 2 {
        var newCapacity := Max(MIN_VECTOR_CAPACITY, newSize * 2);
        if where == newSize && tr.trivialCopy && tr.trivialDtor {
          ShrinkByResize(amount, newCapacity, W);
        } else {
          ShrinkByCopy(where, amount, newCapacity, W);
        }
      } else {
        EditArray(W);
        CloseGap(where, amount, W);
      }
    }

    // removeItemsAt
    method RemoveItemsAt(index: nat, n: nat, ghost W: set<VectorImpl<T>>) returns (r: Status)
      requires World(W) && this in W
      requires n > 0 || index >= count || tr.UsesMemmove()
      modifies this, storage
      ensures NothingLost() && OwnStorage()
      ensures World(W)
      ensures forall v :: v in W && v != this ==> v.Contents() == old(v.Contents())
      ensures index + n > old(count) ==> r == BadValue && Contents() == old(Contents())
      ensures index + n <= old(count) ==> r == Index(index) && Contents() == Cut(old(Contents()), index, n)
    {
      if index + n > count {
        return BadValue;
      }
      Shrink(index, n, W);
      r := Index(index);
    }

    // clear
    method Clear(ghost W: set<VectorImpl<T>>)
      requires World(W) && this in W
      modifies this, storage
      ensures NothingLost() && OwnStorage()
      ensures World(W) && Contents() == []
      ensures forall v :: v in W && v != this ==> v.Contents() == old(v.Contents())
    {
      Shrink(0, count, W);
    }

    // resize
    method Resize(size: nat, ghost W: set<VectorImpl<T>>) returns (r: Status)
      requires World(W) && this in W
      modifies this, storage
      ensures NothingLost() && OwnStorage()
      ensures World(W) && r == Index(size) && count == size
      ensures forall v :: v in W && v != this ==> v.Contents() == old(v.Contents())
      ensures size <= old(count) ==> Contents() == old(Contents())[..size]
      ensures size > old(count) ==>
                && Contents()[..old(count)] == old(Contents())
                && (!tr.trivialCtor ==> Contents()[old(count)..] == Repeat(zero, size - old(count)))
    {
      if size > count {
        var _ := InsertAt(None, count, size - count, W);
      } else if size < count {
        var _ := RemoveItemsAt(size, count - size, W);
      }
      r := Index(size);
    }

    // setCapacity
    method SetCapacity(newCapacity: nat, ghost W: set<VectorImpl<T>>) returns (r: Status)
      requires World(W) && this in W
      modifies this, storage
      ensures NothingLost() && OwnStorage()
      ensures World(W) && Contents() == old(Contents()) && r == Index(Capacity())
      ensures Capacity() == if newCapacity <= count then old(Capacity()) else newCapacity
      ensures forall v :: v in W && v != this ==> v.Contents() == old(v.Contents())
    {
      if newCapacity <= count {
        return Index(if storage == null then 0 else |storage.slots|);
      }
      var from := if storage == null then [] else storage.slots;
      var sb := SharedBuffer.AllocCopy(tr, newCapacity, from, count, count, count, 0, this);
      ReplaceStorage(sb, W);
      JoinWorld(W);
      r := Index(newCapacity);
    }

    // replaceAt: by a copy of prototype, or a default-constructed item when there is none.
    method ReplaceAt(prototype: Option<T>, index: nat, ghost W: set<VectorImpl<T>>) returns (r: Status)
      requires World(W) && this in W
      modifies this, storage
      ensures NothingLost() && OwnStorage()
      ensures World(W)
      ensures forall v :: v in W && v != this ==> v.Contents() == old(v.Contents())
      ensures index >= old(count) ==> r == BadIndex && Contents() == old(Contents())
      ensures index < old(count) ==>
                && r == Index(index) && count == old(count)
                && Contents() == old(Contents())[index := Contents()[index]]
                && (prototype.Some? ==> Contents()[index] == prototype.value)
                && (prototype.None? && !tr.trivialCtor ==> Contents()[index] == zero)
    {
      if index >= count {
        return BadIndex;
      }
      EditArray(W);
      ReplaceItem(prototype, index, W);
      r := Index(index);
    }

    method ReplaceItem(prototype: Option<T>, index: nat, ghost W: set<VectorImpl<T>>)
      requires World(W) && this in W && Isolated(W) && index < count
      modifies storage`slots
      ensures World(W) && Contents() == old(Contents())[index := Contents()[index]]
      ensures prototype.Some? ==> Contents()[index] == prototype.value
      ensures prototype.None? && !tr.trivialCtor ==> Contents()[index] == zero
      ensures forall v :: v in W && v != this ==> v.Contents() == old(v.Contents())
    {
      storage.DestroyType(tr, index, 1);
      if prototype.None? {
        storage.ConstructType(tr, index, 1, zero);
      } else {
        storage.SplatType(tr, index, prototype.value, 1);
      }
      assert storage.slots[index].Live?;
      forall v | v in W && v != this ensures v.Valid() && v.OwnersWithin(W, null) {
        assert old(v.Valid() && v.OwnersWithin(W, null));
      }
    }

    // The buffer of rhs gets one more owner.
    method Share(rhs: VectorImpl<T>, ghost W: set<VectorImpl<T>>)
      requires WorldWithout(W, this) && this in W && rhs in W && rhs != this && rhs.tr == tr
      modifies this, rhs.storage
      ensures World(W) && Contents() == old(rhs.Contents()) && storage == rhs.storage
      ensures forall v :: v in W && v != this ==> v.Contents() == old(v.Contents())
    {
      assert rhs.OwnersWithin(W, this);
      storage, count := rhs.storage, rhs.count;
      if storage != null {
        storage.Acquire(this);
      }
      forall v | v in W && v != this
        ensures v.Valid() && v.OwnersWithin(W, null) && v.Contents() == old(v.Contents())
      {
        assert old(v.Valid() && v.OwnersWithin(W, this));
      }
    }

    // operator=
    method Assign(rhs: VectorImpl<T>, ghost W: set<VectorImpl<T>>)
      requires World(W) && this in W && rhs in W && rhs.tr == tr
      modifies this, storage, rhs.storage
      ensures NothingLost()
      ensures World(W) && Contents() == old(rhs.Contents())
      ensures this != rhs ==> storage == if rhs.count > 0 then rhs.storage else null
      ensures forall v :: v in W && v != this ==> v.Contents() == old(v.Contents())
    {
      if this == rhs {
        return;
      }
      if rhs.count > 0 {
        ReleaseStorage(W);
        Share(rhs, W);
      } else {
        FinishVector(W);
      }
    }

    // The copy constructor shares the buffer, even an unused one.
    constructor Copy(rhs: VectorImpl<T>, ghost W: set<VectorImpl<T>>)
      requires World(W) && rhs in W
      modifies rhs.storage
      ensures World(W + {this}) && Contents() == old(rhs.Contents()) && storage == rhs.storage && tr == rhs.tr
      ensures forall v :: v in W ==> v.Contents() == old(v.Contents())
    {
      storage, count := null, 0;
      tr, zero := rhs.tr, rhs.zero;
      new;
      forall v | v in W ensures v.Valid() && v.OwnersWithin(W + {this}, this) {
        assert old(v.Valid() && v.OwnersWithin(W, null));
      }
      Share(rhs, W + {this});
    }

    // finish_vector
    method FinishVector(ghost W: set<VectorImpl<T>>)
      requires World(W) && this in W
      modifies this, storage
      ensures NothingLost() && OwnStorage()
      ensures World(W) && storage == null && Contents() == []
      ensures forall v :: v in W && v != this ==> v.Contents() == old(v.Contents())
    {
      ReleaseStorage(W);
      label released:
      storage, count := null, 0;
      forall v | v in W && v != this
        ensures v.Valid() && v.OwnersWithin(W, null) && v.Contents() == old@released(v.Contents())
      {
        assert old@released(v.Valid() && v.OwnersWithin(W, this));
      }
    }

    // sort: detaches the vector from its sharers when it meets the first inversion.
    method Sort(cmp: Comparator<T>, ghost W: set<VectorImpl<T>>)
      requires World(W) && this in W
      modifies `storage, storage
      ensures NothingLost() && OwnStorage()
      ensures World(W) && Contents() == InsertionSort(cmp, old(Contents()))
      ensures forall v :: v in W && v != this ==> v.Contents() == old(v.Contents())
      ensures if NoInversion(cmp, old(Contents()))
              then storage == old(storage) && (storage != null ==> unchanged(storage))
              else Isolated(W)
    {
      ghost var c := Contents();
      if count > 1 {
        var i := ScanSorted(cmp);
        if i < count {
          EditArray(W);
          SortRounds(cmp, i, c, W);
        }
      } else {
        SortRoundsBegin(cmp, c);
        SortRoundsDone(cmp, c, c);
      }
    }

    // The rounds of sort's outer loop that find nothing to move: they only read the array, and
    // stop at the first inversion.
    method ScanSorted(cmp: Comparator<T>) returns (i: nat)
      requires Valid() && count > 1
      ensures 0 < i <= count && SortedUpTo(cmp, Contents(), i, Contents()) && NoInversion(cmp, Contents()[..i])
      ensures i < count ==> Above(cmp, Contents()[i - 1], Contents()[i]) && !NoInversion(cmp, Contents())
      ensures i == count ==> NoInversion(cmp, Contents()) && Contents() == InsertionSort(cmp, Contents())
    {
      ghost var c := Contents();
      SortRoundsBegin(cmp, c);
      i := 1;
      while i < count && !Above(cmp, storage.slots[i - 1].value, storage.slots[i].value)
        invariant 0 < i <= count && SortedUpTo(cmp, c, i, c) && NoInversion(cmp, c[..i])
      {
        SortRoundStep(cmp, c, i, c);
        i := i + 1;
      }
      if i < count {
        assert c[i - 1] == storage.slots[i - 1].value && c[i] == storage.slots[i].value;
      } else {
        SortRoundsDone(cmp, c, c);
      }
    }

    // The rounds from the first inversion on, on a buffer of the vector's own.
    method SortRounds(cmp: Comparator<T>, first: nat, ghost c: seq<T>, ghost W: set<VectorImpl<T>>)
      requires World(W) && this in W && Isolated(W)
      requires 0 < first <= count == |c| && SortedUpTo(cmp, c, first, Contents())
      modifies storage`slots
      ensures World(W) && Isolated(W) && Contents() == InsertionSort(cmp, c)
      ensures forall v :: v in W && v != this ==> v.Contents() == old(v.Contents())
    {
      ghost var b := Contents();
      for i := first to count
        invariant World(W) && Isolated(W) && Contents() == b
        invariant SortedUpTo(cmp, c, i, b)
        invariant forall v :: v in W && v != this ==> v.Contents() == old(v.Contents())
      {
        SortRoundStep(cmp, c, i, b);
        if Above(cmp, storage.slots[i - 1].value, storage.slots[i].value) {
          SiftItem(cmp, i, W);
        }
        b := Contents();
      }
      SortRoundsDone(cmp, c, b);
    }

    method SiftItem(cmp: Comparator<T>, i: nat, ghost W: set<VectorImpl<T>>)
      requires World(W) && this in W && Isolated(W) && 0 < i < count
      requires Above(cmp, Contents()[i - 1], Contents()[i])
      modifies storage`slots
      ensures World(W) && Isolated(W)
      ensures Contents() == Insert(cmp, old(Contents())[..i], old(Contents())[i]) + old(Contents())[i + 1..]
      ensures forall v :: v in W && v != this ==> v.Contents() == old(v.Contents())
    {
      ghost var c := Contents();
      storage.SiftDown(tr, cmp, i);
      assert forall k :: 0 <= k < count ==> storage.slots[k].Live?;
      forall v | v in W && v != this ensures v.Valid() && v.OwnersWithin(W, null) {
        assert old(v.Valid() && v.OwnersWithin(W, null));
      }
      assert Items(old(storage.slots), i) == c[..i];
      assert Contents()[..i + 1] == Items(storage.slots, i + 1);
      assert Contents()[i + 1..] == c[i + 1..];
    }
  }
}
