// What the looper and reply protocol promises, over all its runs.
//
// A run lists the steps of any number of posters, waiters, repliers, starters, stoppers and
// looper threads in any interleaving, with any clock readings, spurious wake-ups included.
module LooperTheorems {
  import opened Wrappers
  import opened TimedQueue
  import opened LooperProtocol
  import opened LooperSafety
  import opened LooperResults

  lemma SomeMember(s: set<Tid>)
    ensures s == {} || exists t :: t in s
  {
    if !exists t :: t in s {
      assert s == {};
    }
  }

  // A blocked looper waits without a deadline while the queue is empty, and else until the first
  // event is due.
  predicate WaitsForHead(sh: Shared, l: Lid)
    requires Blocked(sh, l)
  {
    var deadline := sh.loopers[l].pc.deadline;
    && (forall i :: 0 <= i < |sh.queue| ==> deadline.Some? && deadline.value <= sh.queue[i].when)
    && (deadline.Some? ==> sh.queue != [] && deadline.value == sh.queue[0].when)
  }

  // As long as loopers do not overlap, a blocked one has nothing due before its deadline, and is
  // either the current looper or about to be signalled by a stop.
  lemma NoLostWakeup(run: seq<Action>, l: Lid)
    requires Run(run, false).Some? && Blocked(Run(run, false).value.sh, l)
    ensures var s := Run(run, false).value;
            && WaitsForHead(s.sh, l)
            && (Alive(s.sh, l) || exists t :: t in s.calls && SignalAhead(s.calls[t]))
  {
    InvRun(run);
    TimedRun(run, false);
    var s := Run(run, false).value;
    assert LooperOk(s.sh, l);
    HeadIsFirst(s.sh.queue);
    if s.sh.toSignal != {} {
      SomeMember(s.sh.toSignal);
      var t :| t in s.sh.toSignal;
      assert OwnsOk(s.sh, t, s.calls[t]);
    }
  }

  lemma HeadIsFirst(q: seq<Event>)
    requires Ordered(q)
    ensures forall i :: 0 <= i < |q| ==> q[0].when <= q[i].when
  {
  }

  // A blocked waiter has an unanswered token and a looper, or a broadcast is on its way.
  lemma NoLostReply(run: seq<Action>, overlap: bool, t: Tid)
    requires Run(run, overlap).Some?
    requires t in Run(run, overlap).value.calls && Run(run, overlap).value.calls[t] == AwaitBlocked
    ensures var s := Run(run, overlap).value;
            && t in s.sh.tokens
            && (!s.sh.tokens[t].replied || exists u :: u in s.calls && s.calls[u].ReplyNotify?)
            && (s.sh.thread.Some? || exists u :: u in s.calls && BroadcastAhead(s.calls[u]))
  {
    BaseRun(run, overlap);
    var s := Run(run, overlap).value;
    assert BaseOk(s.sh, t, s.calls[t]);
    if s.sh.notifying.Some? {
      assert OwnsOk(s.sh, s.sh.notifying.value, s.calls[s.sh.notifying.value]);
    }
    if s.sh.toBroadcast != {} {
      SomeMember(s.sh.toBroadcast);
      var u :| u in s.sh.toBroadcast;
      assert OwnsOk(s.sh, u, s.calls[u]);
    }
  }

  lemma OthersAccept(sh: Shared, t: Tid, pc: Pc, now: int, l: Lid)
    requires StepCall(sh, t, pc, now, l).Some? && StepReply(sh, t, pc).None?
    ensures StepCall(sh, t, pc, now, l).value.sh.accepted == sh.accepted && !pc.ReplyHave?
  {
  }

  // Only a postReply that finds its token unanswered accepts a reply.
  lemma CallAccepts(sh: Shared, t: Tid, pc: Pc, now: int, l: Lid)
    requires StepCall(sh, t, pc, now, l).Some?
    ensures var sh' := StepCall(sh, t, pc, now, l).value.sh;
            if pc.ReplyHave? && !sh.tokens[pc.token].replied && sh.tokens[pc.token].reply.None?
            then sh'.accepted == sh.accepted[pc.token := pc.msg]
            else sh'.accepted == sh.accepted
  {
    if StepReply(sh, t, pc).None? {
      OthersAccept(sh, t, pc, now, l);
    }
  }

  lemma AcceptedStep(s: State, a: Action, t: Tid)
    requires BaseInv(s) && Step(s, a).Some? && t in s.sh.accepted
    ensures t in Step(s, a).value.sh.accepted && Step(s, a).value.sh.accepted[t] == s.sh.accepted[t]
  {
    match a
    case Proceed(u, now, l) =>
      CallAccepts(s.sh, u, s.calls[u], now, l);
    case Loop(l, now) =>
      LoopMoves(s.sh, l, now);
    case _ =>
  }

  // A token accepts one reply, for good.
  lemma {:induction false} AcceptedOnce(run: seq<Action>, more: seq<Action>, overlap: bool, t: Tid)
    requires Run(run, overlap).Some? && Run(run + more, overlap).Some?
    requires t in Run(run, overlap).value.sh.accepted
    ensures var accepted := Run(run + more, overlap).value.sh.accepted;
            t in accepted && accepted[t] == Run(run, overlap).value.sh.accepted[t]
  {
    if more == [] {
      assert run + more == run;
    } else {
      var before := run + more[..|more| - 1];
      assert (run + more)[..|run + more| - 1] == before;
      AcceptedOnce(run, more[..|more| - 1], overlap, t);
      BaseRun(before, overlap);
      AcceptedStep(Run(before, overlap).value, more[|more| - 1], t);
    }
  }

  // A waiter that returns OK has that very reply.
  lemma ReceivedIsAccepted(run: seq<Action>, overlap: bool, t: Tid)
    requires Run(run, overlap).Some?
    requires t in Run(run, overlap).value.calls
    requires var pc := Run(run, overlap).value.calls[t]; pc.Done? && pc.result.Answer?
    ensures var s := Run(run, overlap).value;
            t in s.sh.accepted && s.calls[t].result.reply == Some(s.sh.accepted[t])
  {
    BaseRun(run, overlap);
    var s := Run(run, overlap).value;
    assert BaseOk(s.sh, t, s.calls[t]);
  }

  // The next step of t is possible at any clock reading.
  ghost predicate CanProceed(s: State, t: Tid) {
    forall now :: EnabledAt(s, t, now)
  }

  ghost predicate EnabledAt(s: State, t: Tid, now: int) {
    exists l :: Step(s, Proceed(t, now, l)).Some?
  }

  lemma SomeoneToSignal(sh: Shared) returns (l: Lid)
    ensures Signal(sh, l).Some?
  {
    if NoneBlocked(sh) {
      l := 0;
    } else {
      l :| l in sh.loopers && Blocked(sh, l);
    }
  }

  // The locks are taken in one order, mRepliesLock before mLock: whoever holds mLock waits for
  // nothing, and whoever holds mRepliesLock waits at most for mLock.
  lemma LockOrder(run: seq<Action>, overlap: bool)
    requires Run(run, overlap).Some?
    ensures var s := Run(run, overlap).value;
            && (s.sh.lock.Some? ==> s.sh.lock.value in s.calls && CanProceed(s, s.sh.lock.value))
            && (s.sh.rlock.Some? ==> s.sh.rlock.value in s.calls)
            && (s.sh.rlock.Some? && s.sh.lock.None? ==> CanProceed(s, s.sh.rlock.value))
  {
    BaseRun(run, overlap);
    var s := Run(run, overlap).value;
    if s.sh.lock.Some? {
      HolderProceeds(s, s.sh.lock.value);
    }
    if s.sh.rlock.Some? && s.sh.lock.None? {
      HolderProceeds(s, s.sh.rlock.value);
    }
  }

  lemma HolderProceeds(s: State, t: Tid)
    requires BaseInv(s) && t in s.calls
    requires HasLock(s.calls[t]) || (HasRLock(s.calls[t]) && s.sh.lock.None?)
    ensures CanProceed(s, t)
  {
    assert BaseOk(s.sh, t, s.calls[t]);
    var l := SomeoneToSignal(s.sh);
    forall now ensures EnabledAt(s, t, now) {
      assert StepCall(s.sh, t, s.calls[t], now, l).Some?;
      assert Step(s, Proceed(t, now, l)).Some?;
    }
  }

  // Nothing can happen any more by itself: no call and no looper can take its next step.
  ghost predicate Stuck(s: State) {
    && (forall t, now, l :: Step(s, Proceed(t, now, l)).None?)
    && (forall l, now :: Step(s, Loop(l, now)).None?)
  }

  lemma FreshId(used: set<int>) returns (id: int)
    ensures id !in used
  {
    id := 0;
    var rest := used;
    while rest != {}
      invariant forall k :: k in used && k !in rest ==> k < id
    {
      SomeMember(rest);
      var k :| k in rest;
      rest := rest - {k};
      id := if k < id then id else k + 1;
    }
  }

  // Where a call is when nothing can happen: back, or waiting for a reply that nobody posted.
  predicate Rests(sh: Shared, t: Tid, pc: Pc) {
    pc.Done? || (pc == AwaitBlocked && sh.thread.Some? && t in sh.tokens && !sh.tokens[t].replied)
  }

  // Where a looper is when nothing can happen.
  predicate Sleeps(sh: Shared, l: Lid)
    requires l in sh.loopers
  {
    sh.loopers[l].pc == LoopExited || (Blocked(sh, l) && Alive(sh, l))
  }

  // No deadlock as long as loopers do not overlap: once nothing can happen by itself, all locks are
  // free, every call has returned except waiters whose token is unanswered while the looper runs,
  // no stop is left waiting for a looper, and every looper has exited or is the current one, asleep.
  lemma QuiescentIsIdle(run: seq<Action>)
    requires Run(run, false).Some? && Stuck(Run(run, false).value)
    ensures var s := Run(run, false).value;
            && s.sh.lock.None? && s.sh.rlock.None?
            && (forall t :: t in s.calls ==> Rests(s.sh, t, s.calls[t]))
            && (forall l :: l in s.sh.loopers ==> Sleeps(s.sh, l))
  {
    var s := Run(run, false).value;
    InvRun(run);
    StuckUnlocked(run);
    forall t | t in s.calls ensures s.calls[t].Done? || s.calls[t] == AwaitBlocked {
      StuckCall(s, t);
    }
    StuckNothingPending(s);
    forall t | t in s.calls ensures Rests(s.sh, t, s.calls[t]) {
      assert BaseOk(s.sh, t, s.calls[t]);
    }
    forall l | l in s.sh.loopers ensures Sleeps(s.sh, l) {
      StuckLooper(s, l);
      assert LooperOk(s.sh, l);
    }
  }

  lemma StuckUnlocked(run: seq<Action>)
    requires Run(run, false).Some? && Stuck(Run(run, false).value)
    ensures var s := Run(run, false).value; s.sh.lock.None? && s.sh.rlock.None?
  {
    var s := Run(run, false).value;
    LockOrder(run, false);
    if s.sh.lock.Some? {
      StuckWaits(s, s.sh.lock.value);
    } else if s.sh.rlock.Some? {
      StuckWaits(s, s.sh.rlock.value);
    }
  }

  lemma StuckWaits(s: State, t: Tid)
    requires Stuck(s)
    ensures !CanProceed(s, t)
  {
    assert !EnabledAt(s, t, 0);
  }

  lemma StuckNothingPending(s: State)
    requires BaseInv(s) && forall t :: t in s.calls ==> s.calls[t].Done? || s.calls[t] == AwaitBlocked
    ensures s.sh.toSignal == {} && s.sh.toBroadcast == {} && s.sh.notifying.None?
  {
    forall t | t in s.calls ensures t !in s.sh.toSignal && t !in s.sh.toBroadcast && s.sh.notifying != Some(t) {
      assert BaseOk(s.sh, t, s.calls[t]);
    }
  }

  lemma StuckLooper(s: State, l: Lid)
    requires s.sh.lock.None? && Stuck(s) && l in s.sh.loopers
    ensures s.sh.loopers[l].pc == LoopExited || Blocked(s.sh, l)
  {
    assert Step(s, Loop(l, 0)).None?;
    assert StepLoop(s.sh, l, 0).None?;
  }

  lemma StuckCall(s: State, t: Tid)
    requires Inv(s) && Stuck(s) && t in s.calls && s.sh.lock.None? && s.sh.rlock.None?
    ensures s.calls[t].Done? || s.calls[t] == AwaitBlocked
  {
    assert BaseOk(s.sh, t, s.calls[t]) && VictimOk(s.sh, s.calls[t]);
    var pc := s.calls[t];
    var l := SomeoneToSignal(s.sh);
    if pc.StartWant? {
      l := FreshId(s.sh.loopers.Keys);
    }
    assert Step(s, Proceed(t, 0, l)).None?;
    assert StepCall(s.sh, t, pc, 0, l).None?;
    if pc.StopJoin? {
      StuckLooper(s, pc.exited);
    }
  }

  // The delay asked for has passed since the post read the clock.
  predicate NotEarly(p: Past, now: int) {
    && p.began.Some? && p.began.value.PostWant? && p.reading.Some?
    && p.reading.value <= now && p.reading.value + p.began.value.delay <= now
  }

  // The queue, whatever the clock does: every message is due as asked, nothing is lost or delivered
  // twice, nothing before its time, ties in posting order, and an earlier post that is due no
  // later goes first.
  lemma DeliveredInOrder(run: seq<Action>, overlap: bool)
    requires Run(run, overlap).Some?
    ensures var sh := Run(run, overlap).value.sh;
            && |sh.posters| == |sh.posted|
            && (forall k :: 0 <= k < |sh.posted| ==>
                  DueAsAsked(PastOf(run, overlap, sh.posters[k]), sh.posted[k].when))
            && Ordered(sh.queue)
            && multiset(sh.posted) == multiset(sh.queue) + multiset(Events(sh.taken))
            && (forall i, j :: 0 <= i < j < |sh.taken| ==> sh.taken[i].e != sh.taken[j].e)
            && (forall i :: 0 <= i < |sh.taken| ==>
                  var e, now := sh.taken[i].e, sh.taken[i].now;
                  && e.when <= now && e.id < |sh.posted| && e == sh.posted[e.id]
                  && NotEarly(PastOf(run, overlap, sh.posters[e.id]), now))
            && (forall a, b, j :: 0 <= a < b < |sh.posted| && sh.posted[a].when <= sh.posted[b].when
                                  && 0 <= j < |sh.taken| && sh.taken[j].e == sh.posted[b] ==>
                                    exists i :: 0 <= i < j && sh.taken[i].e == sh.posted[a])
  {
    TimedRun(run, overlap);
    var sh := Run(run, overlap).value.sh;
    CallRun(run, overlap, 0);
    forall k | 0 <= k < |sh.posted| ensures DueAsAsked(PastOf(run, overlap, sh.posters[k]), sh.posted[k].when) {
      PostedAsAsked(run, overlap, k);
    }
    QueuedIsPosted(sh.posted, sh.queue, sh.taken);
    TakenInOrder(sh.posted, sh.queue, sh.taken);
  }
}
