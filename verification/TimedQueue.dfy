// The timed event queue of TSPLooper, on plain sequences: posting, taking, and what holds of
// everything posted and taken so far whatever the clock does.
module TimedQueue {

  // A posted message: when it is due, and how many messages were posted before it.
  datatype Event = Event(when: int, id: nat)

  // An event taken out for delivery, with the clock reading that let it go.
  datatype Taken = Taken(e: Event, now: int)

  // How far post walks: past the events that are not later.
  function Place(q: seq<Event>, when: int): (p: nat)
    ensures p <= |q|
    ensures forall i :: 0 <= i < p ==> q[i].when <= when
    ensures p < |q| ==> q[p].when > when
  {
    if q == [] || q[0].when > when then 0 else 1 + Place(q[1..], when)
  }

  function InsertByTime(q: seq<Event>, e: Event): seq<Event> {
    var p := Place(q, e.when);
    q[..p] + [e] + q[p..]
  }

  // Due earlier, or posted earlier and due at the same time.
  predicate Before(a: Event, b: Event) {
    a.when < b.when || (a.when == b.when && a.id < b.id)
  }

  ghost predicate Ordered(q: seq<Event>) {
    forall i, j :: 0 <= i < j < |q| ==> Before(q[i], q[j])
  }

  // a was posted first and is due no later, so it must not be taken after b.
  predicate GoesFirst(a: Event, b: Event) {
    a.id < b.id && a.when <= b.when
  }

  function Events(taken: seq<Taken>): (r: seq<Event>)
    ensures |r| == |taken| && forall i :: 0 <= i < |taken| ==> r[i] == taken[i].e
  {
    seq(|taken|, i requires 0 <= i < |taken| => taken[i].e)
  }

  // posted, queue and taken are what was posted, what is queued and what was taken so far.
  ghost predicate TimedInv(posted: seq<Event>, queue: seq<Event>, taken: seq<Taken>) {
    && (forall i :: 0 <= i < |posted| ==> posted[i].id == i)
    && multiset(posted) == multiset(queue) + multiset(Events(taken))
    && Ordered(queue)
    && (forall i :: 0 <= i < |taken| ==> taken[i].e.when <= taken[i].now)
    && (forall i, j :: 0 <= i < j < |taken| ==> !GoesFirst(taken[j].e, taken[i].e))
    && (forall i, j :: 0 <= i < |queue| && 0 <= j < |taken| ==> !GoesFirst(queue[i], taken[j].e))
  }

  lemma QueuedIsPosted(posted: seq<Event>, queue: seq<Event>, taken: seq<Taken>)
    requires TimedInv(posted, queue, taken)
    ensures forall i :: 0 <= i < |queue| ==> queue[i] in posted && queue[i].id < |posted|
    ensures forall i :: 0 <= i < |taken| ==> taken[i].e in posted && taken[i].e.id < |posted|
  {
    forall i | 0 <= i < |queue| ensures queue[i] in posted {
      assert queue[i] in multiset(queue);
      assert queue[i] in multiset(posted);
    }
    forall i | 0 <= i < |taken| ensures taken[i].e in posted {
      assert Events(taken)[i] in multiset(Events(taken));
      assert taken[i].e in multiset(posted);
    }
  }

  lemma InsertOrdered(q: seq<Event>, e: Event)
    requires Ordered(q) && forall i :: 0 <= i < |q| ==> q[i].id < e.id
    ensures Ordered(InsertByTime(q, e))
  {
  }

  lemma InsertKeeps(q: seq<Event>, e: Event)
    ensures multiset(InsertByTime(q, e)) == multiset(q) + multiset{e}
    ensures forall x :: x in InsertByTime(q, e) ==> x == e || x in q
  {
    var p := Place(q, e.when);
    assert q == q[..p] + q[p..];
  }

  lemma InsertGoesLate(q: seq<Event>, e: Event, taken: seq<Taken>)
    requires forall i, j :: 0 <= i < |q| && 0 <= j < |taken| ==> !GoesFirst(q[i], taken[j].e)
    requires forall j :: 0 <= j < |taken| ==> taken[j].e.id < e.id
    ensures var q' := InsertByTime(q, e);
            forall i, j :: 0 <= i < |q'| && 0 <= j < |taken| ==> !GoesFirst(q'[i], taken[j].e)
  {
    var q' := InsertByTime(q, e);
    forall i, j | 0 <= i < |q'| && 0 <= j < |taken| ensures !GoesFirst(q'[i], taken[j].e) {
      var p := Place(q, e.when);
      if i != p {
        assert q'[i] == q[if i < p then i else i - 1];
      }
    }
  }

  // Posting, at any clock reading.
  lemma PostKeeps(posted: seq<Event>, queue: seq<Event>, taken: seq<Taken>, when: int)
    requires TimedInv(posted, queue, taken)
    ensures var e := Event(when, |posted|);
            TimedInv(posted + [e], InsertByTime(queue, e), taken)
  {
    var e := Event(when, |posted|);
    QueuedIsPosted(posted, queue, taken);
    InsertOrdered(queue, e);
    InsertKeeps(queue, e);
    InsertGoesLate(queue, e, taken);
  }

  // Taking the head once it is due.
  lemma TakeKeeps(posted: seq<Event>, queue: seq<Event>, taken: seq<Taken>, now: int)
    requires TimedInv(posted, queue, taken) && queue != [] && queue[0].when <= now
    ensures TimedInv(posted, queue[1..], taken + [Taken(queue[0], now)])
  {
    var t' := taken + [Taken(queue[0], now)];
    assert queue == [queue[0]] + queue[1..];
    assert Events(t') == Events(taken) + [queue[0]];
    forall i, j | 0 <= i < j < |t'| ensures !GoesFirst(t'[j].e, t'[i].e) {
      if j == |taken| {
        assert t'[j].e == queue[0] && t'[i] == taken[i];
      }
    }
    forall i, j | 0 <= i < |queue| - 1 && 0 <= j < |t'| ensures !GoesFirst(queue[1..][i], t'[j].e) {
      if j == |taken| {
        assert Before(queue[0], queue[i + 1]);
      } else {
        assert t'[j] == taken[j];
      }
    }
  }

  // Nothing is lost or taken twice, nothing is taken before its time, and an earlier post that is
  // due no later is taken first.
  lemma TakenInOrder(posted: seq<Event>, queue: seq<Event>, taken: seq<Taken>)
    requires TimedInv(posted, queue, taken)
    ensures |posted| == |queue| + |taken|
    ensures forall i, j :: 0 <= i < j < |taken| ==> taken[i].e != taken[j].e
    ensures forall i, j :: 0 <= i < |queue| && 0 <= j < |taken| ==> queue[i] != taken[j].e
    ensures forall i :: 0 <= i < |taken| ==> taken[i].e.when <= taken[i].now
    ensures forall a, b, j :: 0 <= a < b < |posted| && posted[a].when <= posted[b].when
                              && 0 <= j < |taken| && taken[j].e == posted[b] ==>
                                exists i :: 0 <= i < j && taken[i].e == posted[a]
  {
    assert |multiset(posted)| == |multiset(queue)| + |multiset(Events(taken))|;
    PostedOnce(posted);
    forall i, j | 0 <= i < j < |taken| ensures taken[i].e != taken[j].e {
      assert multiset(posted)[taken[i].e] <= 1;
      if taken[i].e == taken[j].e {
        TwiceCounts(Events(taken), i, j);
        assert false;
      }
    }
    forall i, j | 0 <= i < |queue| && 0 <= j < |taken| ensures queue[i] != taken[j].e {
      assert queue[i] in multiset(queue);
      assert Events(taken)[j] in multiset(Events(taken));
      assert multiset(posted)[queue[i]] == multiset(queue)[queue[i]] + multiset(Events(taken))[queue[i]] <= 1;
    }
    forall a, b, j | 0 <= a < b < |posted| && posted[a].when <= posted[b].when
                     && 0 <= j < |taken| && taken[j].e == posted[b]
      ensures exists i :: 0 <= i < j && taken[i].e == posted[a]
    {
      assert posted[a] in multiset(posted);
      assert GoesFirst(posted[a], taken[j].e);
      assert forall i :: 0 <= i < |queue| ==> queue[i] != posted[a];
      assert forall i :: j <= i < |taken| ==> taken[i].e != posted[a];
      assert posted[a] in Events(taken);
      var i :| 0 <= i < |taken| && Events(taken)[i] == posted[a];
    }
  }

  lemma PostedOnce(posted: seq<Event>)
    requires forall i :: 0 <= i < |posted| ==> posted[i].id == i
    ensures forall e :: multiset(posted)[e] <= 1
  {
    if posted == [] {
    } else {
      var front, last := posted[..|posted| - 1], posted[|posted| - 1];
      assert posted == front + [last];
      PostedOnce(front);
      assert last !in front;
    }
  }

  lemma TwiceCounts(s: seq<Event>, i: nat, j: nat)
    requires i < j < |s| && s[i] == s[j]
    ensures multiset(s)[s[i]] >= 2
  {
    assert s == s[..i] + [s[i]] + s[i + 1..j] + [s[j]] + s[j + 1..];
  }
}
