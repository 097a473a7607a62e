// The event queue of TSPLooper as it is stored: post walks a linked list, loop takes its head.
module EventList {
  import opened Wrappers
  import opened TimedQueue
  import opened Lists

  // The walk of post past the events that are due no later.
  method FirstLater(queue: List<Event>, when: int) returns (it: Node<Event>, ghost k: nat)
    requires queue.Valid()
    ensures queue.At(it, k) && k == Place(queue.contents, when)
  {
    it := queue.Begin();
    k := 0;
    while it != queue.middle && it.val.value.when <= when
      invariant k <= |queue.contents| && queue.At(it, k)
      invariant forall i :: 0 <= i < k ==> queue.contents[i].when <= when
      decreases |queue.contents| - k
    {
      it := queue.Next(it, k);
      k := k + 1;
    }
    PlaceIs(queue.contents, when, k);
  }

  // post; goesFirst tells that it signals the queue-changed condition.
  method Post(queue: List<Event>, e: Event) returns (goesFirst: bool)
    requires queue.Valid()
    modifies queue, queue.repr
    ensures queue.Valid() && fresh(queue.repr - old(queue.repr))
    ensures queue.contents == InsertByTime(old(queue.contents), e)
    ensures goesFirst <==> Place(old(queue.contents), e.when) == 0
  {
    ghost var k;
    var it;
    it, k := FirstLater(queue, e.when);
    var first := queue.Begin();
    goesFirst := it == first;
    var added := queue.Insert(it, e, k);
  }

  lemma {:induction false} PlaceIs(q: seq<Event>, when: int, k: nat)
    requires k <= |q| && forall i :: 0 <= i < k ==> q[i].when <= when
    requires k < |q| ==> q[k].when > when
    ensures Place(q, when) == k
  {
  }

  // What loop does under the lock: None means that it waits, forever or until the head is due.
  method Take(queue: List<Event>, now: int) returns (e: Option<Event>)
    requires queue.Valid()
    modifies queue, queue.repr
    ensures queue.Valid() && queue.repr <= old(queue.repr)
    ensures e.Some? <==> old(queue.contents) != [] && old(queue.contents)[0].when <= now
    ensures e.None? ==> queue.contents == old(queue.contents)
    ensures e.Some? ==> old(queue.contents) == [e.value] + queue.contents
  {
    var empty := queue.Empty();
    if empty {
      return None;
    }
    var head := queue.Begin();
    if head.val.value.when > now {
      return None;
    }
    e := head.val;
    var it := queue.Erase(head, 0);
  }
}
