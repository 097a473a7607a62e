// When start may come between a stop and the exit of the old looper: exactly when the old one
// cannot wait any more; and a rule for callers that makes sure of it.
module LooperOverlap {
  import opened Wrappers
  import opened TimedQueue
  import opened LooperProtocol
  import opened LooperSafety
  import opened LooperTheorems

  // A looper sleeps without a deadline and no signal is on its way, although nobody wants it any
  // more, or an event waits and no other looper is going to take it.
  predicate Lost(sh: Shared, l: Lid) {
    && Blocked(sh, l) && sh.loopers[l].pc == LoopBlocked(None) && sh.toSignal == {}
    && (!Alive(sh, l) || (sh.queue != [] && OthersDoomed(sh, l, l)))
  }

  predicate OthersDoomed(sh: Shared, l: Lid, n: Lid) {
    forall k :: k in sh.loopers && k != l && k != n ==> Doomed(sh.loopers[k])
  }

  // The state after more actions, without a further overlap.
  function Continue(s: State, more: seq<Action>): Option<State> {
    if more == [] then Some(s)
    else
      var mid, a := Continue(s, more[..|more| - 1]), more[|more| - 1];
      if mid.None? || Overlaps(mid.value, a) then None else Step(mid.value, a)
  }

  ghost predicate Leads(s: State, s': State) {
    exists more :: Continue(s, more) == Some(s')
  }

  lemma LeadsHere(s: State)
    ensures Leads(s, s)
  {
    assert Continue(s, []) == Some(s);
  }

  lemma OneMore(s: State, mid: State, a: Action)
    requires Leads(s, mid) && !Overlaps(mid, a) && Step(mid, a).Some?
    ensures Leads(s, Step(mid, a).value)
  {
    var more :| Continue(s, more) == Some(mid);
    assert (more + [a])[..|more + [a]| - 1] == more;
    assert Continue(s, more + [a]) == Step(mid, a);
  }

  lemma {:induction false} ContinueBoth(s: State, a: seq<Action>, b: seq<Action>)
    requires Continue(s, a).Some?
    ensures Continue(s, a + b) == Continue(Continue(s, a).value, b)
  {
    if b == [] {
      assert a + b == a;
    } else {
      assert (a + b)[..|a + b| - 1] == a + b[..|b| - 1];
      ContinueBoth(s, a, b[..|b| - 1]);
    }
  }

  lemma LeadsOn(s: State, mid: State, end: State)
    requires Leads(s, mid) && Leads(mid, end)
    ensures Leads(s, end)
  {
    var a :| Continue(s, a) == Some(mid);
    var b :| Continue(mid, b) == Some(end);
    ContinueBoth(s, a, b);
  }

  // Only one looper moved, and nothing else changed.
  ghost predicate OnlyMoved(s: State, s': State, l: Lid)
    requires l in s.sh.loopers
  {
    l in s'.sh.loopers && s' == s.(sh := LoopGoto(s.sh, l, s'.sh.loopers[l].pc))
  }

  lemma MovedTwice(s: State, mid: State, end: State, l: Lid)
    requires l in s.sh.loopers && OnlyMoved(s, mid, l) && OnlyMoved(mid, end, l)
    ensures OnlyMoved(s, end, l)
  {
    assert LoopGoto(LoopGoto(s.sh, l, mid.sh.loopers[l].pc), l, end.sh.loopers[l].pc).loopers
           == LoopGoto(s.sh, l, end.sh.loopers[l].pc).loopers;
  }

  // A looper at the place before loop() may block, at a suitable clock reading.
  lemma EnterBlocks(s: State, l: Lid) returns (s': State)
    requires s.sh.lock.None? && (s.sh.thread.Some? || s.sh.local) && l in s.sh.loopers
    requires s.sh.loopers[l].pc == LoopEnter
    ensures Leads(s, s') && OnlyMoved(s, s', l) && Blocked(s'.sh, l)
    ensures s.sh.queue == [] ==> s'.sh.loopers[l].pc == LoopBlocked(None)
  {
    var now := if s.sh.queue == [] then 0 else s.sh.queue[0].when - 1;
    LeadsHere(s);
    OneMore(s, s, Loop(l, now));
    s' := Step(s, Loop(l, now)).value;
  }

  // So may any looper that is not doomed.
  lemma MayBlock(s: State, l: Lid) returns (s': State)
    requires s.sh.lock.None? && (s.sh.thread.Some? || s.sh.local) && l in s.sh.loopers
    requires !Doomed(s.sh.loopers[l])
    ensures Leads(s, s') && OnlyMoved(s, s', l) && Blocked(s'.sh, l)
    ensures if Blocked(s.sh, l) then s' == s else s.sh.queue == [] ==> s'.sh.loopers[l].pc == LoopBlocked(None)
    decreases if s.sh.loopers[l].pc == LoopTop then 0 else 1
  {
    if s.sh.loopers[l].pc.LoopBlocked? {
      LeadsHere(s);
      s' := s;
    } else if s.sh.loopers[l].pc == LoopEnter {
      s' := EnterBlocks(s, l);
    } else {
      LeadsHere(s);
      OneMore(s, s, Loop(l, 0));
      var mid := Step(s, Loop(l, 0)).value;
      assert OnlyMoved(s, mid, l);
      if mid.sh.loopers[l].pc == LoopEnter {
        s' := EnterBlocks(mid, l);
      } else {
        s' := MayBlock(mid, l);
      }
      LeadsOn(s, mid, s');
      MovedTwice(s, mid, s', l);
    }
  }

  // Without events it may wait without a deadline, unless it was told to exit in a timed wait.
  lemma MaySleep(s: State, l: Lid) returns (s': State)
    requires s.sh.lock.None? && (s.sh.thread.Some? || s.sh.local) && l in s.sh.loopers && s.sh.queue == []
    requires !Doomed(s.sh.loopers[l])
    requires s.sh.loopers[l].exiting && Blocked(s.sh, l) ==> s.sh.loopers[l].pc == LoopBlocked(None)
    ensures Leads(s, s') && OnlyMoved(s, s', l) && l in s'.sh.loopers && s'.sh.loopers[l].pc == LoopBlocked(None)
  {
    if s.sh.loopers[l].pc == LoopBlocked(None) {
      LeadsHere(s);
      s' := s;
    } else if Blocked(s.sh, l) {
      LeadsHere(s);
      OneMore(s, s, Timeout(l));
      var woken := Step(s, Timeout(l)).value;
      s' := MayBlock(woken, l);
      LeadsOn(s, woken, s');
      MovedTwice(s, woken, s', l);
    } else {
      s' := MayBlock(s, l);
    }
  }

  lemma Enters(s: State, n: Lid)
    requires n in s.sh.loopers && s.sh.loopers[n].pc == LoopTop && !s.sh.loopers[n].exiting
    ensures Leads(s, s.(sh := LoopGoto(s.sh, n, LoopEnter)))
  {
    LeadsHere(s);
    OneMore(s, s, Loop(n, 0));
  }

  lemma Takes(s: State, n: Lid, now: int)
    requires s.sh.lock.None? && (s.sh.thread.Some? || s.sh.local) && n in s.sh.loopers
    requires s.sh.loopers[n].pc == LoopEnter && s.sh.queue != [] && s.sh.queue[0].when == now
    ensures var taken := s.sh.(queue := s.sh.queue[1..], taken := s.sh.taken + [Taken(s.sh.queue[0], now)]);
            Leads(s, s.(sh := LoopGoto(taken, n, LoopDeliver(s.sh.queue[0]))))
  {
    LeadsHere(s);
    OneMore(s, s, Loop(n, now));
  }

  lemma Returns(s: State, n: Lid)
    requires n in s.sh.loopers && s.sh.loopers[n].pc.LoopDeliver?
    ensures Leads(s, s.(sh := LoopGoto(s.sh, n, LoopTop)))
  {
    LeadsHere(s);
    OneMore(s, s, Loop(n, 0));
  }

  lemma GoneAround(sh: Shared, n: Lid, mid: LoopPc, last: LoopPc)
    requires n in sh.loopers && sh.loopers[n].pc == LoopTop
    ensures var p := sh.loopers[n];
            sh.loopers[n := p.(pc := mid)][n := p.(pc := last)][n := p.(pc := LoopTop)] == sh.loopers
  {
  }

  // The looper n delivers the first event of the queue, however late.
  lemma TakeOne(s: State, n: Lid) returns (s': State)
    requires s.sh.lock.None? && (s.sh.thread.Some? || s.sh.local) && n in s.sh.loopers && s.sh.queue != []
    requires s.sh.loopers[n].pc == LoopTop && !s.sh.loopers[n].exiting
    ensures Leads(s, s') && s' == s.(sh := s.sh.(queue := s.sh.queue[1..], taken := s'.sh.taken))
  {
    var e := s.sh.queue[0];
    Enters(s, n);
    var entered := s.(sh := LoopGoto(s.sh, n, LoopEnter));
    Takes(entered, n, e.when);
    var taken := entered.sh.(queue := s.sh.queue[1..], taken := s.sh.taken + [Taken(e, e.when)]);
    var delivering := s.(sh := LoopGoto(taken, n, LoopDeliver(e)));
    LeadsOn(s, entered, delivering);
    Returns(delivering, n);
    s' := s.(sh := LoopGoto(delivering.sh, n, LoopTop));
    LeadsOn(s, delivering, s');
    GoneAround(s.sh, n, LoopEnter, LoopDeliver(e));
  }

  lemma {:induction false} TakeAll(s: State, n: Lid) returns (s': State)
    requires s.sh.lock.None? && (s.sh.thread.Some? || s.sh.local) && n in s.sh.loopers
    requires s.sh.loopers[n].pc == LoopTop && !s.sh.loopers[n].exiting
    ensures Leads(s, s') && s' == s.(sh := s.sh.(queue := [], taken := s'.sh.taken))
    decreases |s.sh.queue|
  {
    if s.sh.queue == [] {
      LeadsHere(s);
      s' := s;
    } else {
      var mid := TakeOne(s, n);
      s' := TakeAll(mid, n);
      LeadsOn(s, mid, s');
    }
  }

  // The stops that are yet to signal; none of them is getting rid of n.
  predicate Pending(s: State, n: Lid) {
    forall t :: t in s.sh.toSignal ==> t in s.calls && SignalAhead(s.calls[t]) && s.calls[t].victim != Some(n)
  }

  // Without events, l is blocked, and n is a looper that can take all signals.
  predicate Scene(s: State, l: Lid, n: Lid) {
    && s.sh.lock.None? && (s.sh.thread.Some? || s.sh.local) && s.sh.queue == [] && Blocked(s.sh, l) && l != n
    && n in s.sh.loopers && !s.sh.loopers[n].exiting && !s.sh.loopers[n].pc.LoopExited? && Pending(s, n)
    && (Blocked(s.sh, n) ==> s.sh.loopers[n].pc == LoopBlocked(None))
  }

  // What the continuation does not touch.
  predicate SameLife(s: State, s': State, l: Lid, n: Lid)
    requires l in s.sh.loopers && n in s.sh.loopers
  {
    && s'.sh.thread == s.sh.thread && s'.sh.local == s.sh.local
    && l in s'.sh.loopers && s'.sh.loopers[l].local == s.sh.loopers[l].local
    && s'.sh.loopers[l].pc == s.sh.loopers[l].pc && (s.sh.loopers[l].exiting ==> s'.sh.loopers[l].exiting)
    && n in s'.sh.loopers && s'.sh.loopers[n].local == s.sh.loopers[n].local
    && (OthersDoomed(s.sh, l, n) ==> OthersDoomed(s'.sh, l, n))
  }

  // StopExit: the victim is told to exit.
  lemma TellVictim(s: State, l: Lid, n: Lid, t: Tid) returns (s': State)
    requires Scene(s, l, n) && t in s.sh.toSignal && s.calls[t].StopExit?
    ensures Leads(s, s') && Scene(s', l, n) && SameLife(s, s', l, n)
    ensures s'.sh.toSignal == s.sh.toSignal && s'.calls[t].StopSignal? && s'.sh.loopers[n] == s.sh.loopers[n]
  {
    LeadsHere(s);
    OneMore(s, s, Proceed(t, 0, n));
    s' := Step(s, Proceed(t, 0, n)).value;
  }

  // StopSignal: n takes the signal.
  lemma SignalOther(s: State, l: Lid, n: Lid, t: Tid) returns (s': State)
    requires Scene(s, l, n) && Blocked(s.sh, n) && t in s.sh.toSignal && s.calls[t].StopSignal?
    ensures Leads(s, s') && Scene(s', l, n) && SameLife(s, s', l, n) && s'.sh.toSignal == s.sh.toSignal - {t}
  {
    LeadsHere(s);
    OneMore(s, s, Proceed(t, 0, n));
    s' := Step(s, Proceed(t, 0, n)).value;
  }

  lemma SceneBlocks(s: State, l: Lid, n: Lid) returns (s': State)
    requires Scene(s, l, n)
    ensures Leads(s, s') && Scene(s', l, n) && SameLife(s, s', l, n)
    ensures Blocked(s'.sh, n) && s'.sh.toSignal == s.sh.toSignal && s'.calls == s.calls
  {
    s' := MayBlock(s, n);
  }

  // All pending signals go to n.
  lemma {:induction false} Drain(s: State, l: Lid, n: Lid) returns (s': State)
    requires Scene(s, l, n)
    ensures Leads(s, s') && Scene(s', l, n) && SameLife(s, s', l, n) && s'.sh.toSignal == {}
    decreases |s.sh.toSignal|
  {
    if s.sh.toSignal == {} {
      LeadsHere(s);
      s' := s;
    } else {
      SomeMember(s.sh.toSignal);
      var t :| t in s.sh.toSignal;
      var mid := SceneBlocks(s, l, n);
      if mid.calls[t].StopExit? {
        var told := TellVictim(mid, l, n, t);
        LeadsOn(s, mid, told);
        mid := told;
      }
      var signalled := SignalOther(mid, l, n, t);
      LeadsOn(s, mid, signalled);
      s' := Drain(signalled, l, n);
      LeadsOn(s, signalled, s');
    }
  }

  lemma ApplyQuietly(s: State, t: Tid, m: Move)
    requires t in s.calls && !m.broadcast
    ensures Apply(s, t, m) == State(m.sh, s.calls[t := m.pc])
  {
    var calls := Apply(s, t, m).calls;
    assert calls.Keys == s.calls.Keys;
    assert forall u :: u in s.calls ==> calls[u] == s.calls[t := m.pc][u];
    assert calls == s.calls[t := m.pc];
  }

  // A step of a stop that has not signalled yet.
  lemma StopGoes(s: State, mid: State, t: Tid, n: Lid, m: Move)
    requires Leads(s, mid) && t in mid.calls && (mid.calls[t].StopWant? || SignalAhead(mid.calls[t]))
    requires StepStop(mid.sh, t, mid.calls[t], n) == Some(m)
    ensures Leads(s, State(m.sh, mid.calls[t := m.pc]))
  {
    OneMore(s, mid, Proceed(t, 0, n));
    assert !m.broadcast && StepCall(mid.sh, t, mid.calls[t], 0, n) == Some(m);
    ApplyQuietly(mid, t, m);
  }

  // One more stop, up to where it signals.
  lemma StopBegins(s: State, n: Lid) returns (t: Tid, s': State)
    requires s.sh.lock.None? && s.sh.toSignal == {} && s.sh.local && s.sh.thread.None?
    ensures Leads(s, s') && t in s'.calls && s'.calls[t] == StopSignal(None, false)
    ensures s'.sh == s.sh.(local := false, toSignal := {t}, toBroadcast := s.sh.toBroadcast + {t})
  {
    t := FreshId(s.calls.Keys);
    LeadsHere(s);
    OneMore(s, s, Call(t, StopWant(false)));
    s' := State(s.sh, s.calls[t := StopWant(false)]);
    var cleared := s.sh.(local := false, toSignal := {} + {t}, toBroadcast := s.sh.toBroadcast + {t});
    StopGoes(s, s', t, n, Move(cleared, StopExit(None, false), false));
    s' := State(cleared, s'.calls[t := StopExit(None, false)]);
    StopGoes(s, s', t, n, Move(cleared, StopSignal(None, false), false));
    s' := State(cleared, s'.calls[t := StopSignal(None, false)]);
  }

  // Loops on calling threads all end with one more stop, whose signal n takes.
  lemma StopLocal(s: State, l: Lid, n: Lid) returns (s': State)
    requires Scene(s, l, n) && Blocked(s.sh, n) && s.sh.toSignal == {} && s.sh.local && s.sh.thread.None?
    requires s.sh.loopers[l].pc == LoopBlocked(None)
    ensures Leads(s, s') && Lost(s'.sh, l)
  {
    var t, told := StopBegins(s, n);
    var m := StepStop(told.sh, t, told.calls[t], n).value;
    StopGoes(s, told, t, n, m);
    s' := State(m.sh, told.calls[t := m.pc]);
  }

  // A looper in an untimed wait is left asleep.
  lemma SleeperIsLost(s: State, l: Lid, n: Lid) returns (s': State)
    requires Scene(s, l, n) && s.sh.loopers[l].pc == LoopBlocked(None)
    requires (s.sh.local <==> s.sh.thread.None?) && s.sh.thread != Some(l)
    ensures Leads(s, s') && Lost(s'.sh, l)
  {
    var drained := Drain(s, l, n);
    if s.sh.local {
      var asleep := SceneBlocks(drained, l, n);
      LeadsOn(s, drained, asleep);
      s' := StopLocal(asleep, l, n);
      LeadsOn(s, asleep, s');
    } else {
      s' := drained;
    }
  }

  // A post, up to where it has read the clock.
  lemma PostBegins(s: State) returns (t: Tid, s': State)
    requires s.sh.lock.None?
    ensures Leads(s, s') && t in s'.calls && s'.calls[t] == PostTimed(0, false) && s'.sh == s.sh.(lock := Some(t))
  {
    t := FreshId(s.calls.Keys);
    LeadsHere(s);
    OneMore(s, s, Call(t, PostWant(0, false)));
    var begun := State(s.sh, s.calls[t := PostWant(0, false)]);
    OneMore(s, begun, Proceed(t, 0, 0));
    var locked := Step(begun, Proceed(t, 0, 0)).value;
    assert locked.calls[t] == PostHave(0, false) && locked.sh == s.sh.(lock := Some(t));
    OneMore(s, locked, Proceed(t, 0, 0));
    s' := Step(locked, Proceed(t, 0, 0)).value;
  }

  // Its signal goes to l.
  lemma PostSignals(s: State, t: Tid, l: Lid) returns (s': State)
    requires t in s.calls && s.calls[t] == PostTimed(0, false) && s.sh.queue == [] && Blocked(s.sh, l)
    ensures Leads(s, s') && t in s'.calls && s'.calls[t] == PostReady(0, false)
    ensures s'.sh == LoopGoto(s.sh, l, LoopWoken)
  {
    LeadsHere(s);
    OneMore(s, s, Proceed(t, 0, l));
    s' := Step(s, Proceed(t, 0, l)).value;
  }

  lemma PostInserts(s: State, t: Tid) returns (s': State)
    requires t in s.calls && s.calls[t] == PostReady(0, false) && s.sh.queue == []
    ensures Leads(s, s') && s'.sh.queue != []
    ensures s'.sh.loopers == s.sh.loopers && s'.sh.toSignal == s.sh.toSignal
  {
    LeadsHere(s);
    OneMore(s, s, Proceed(t, 0, 0));
    s' := Step(s, Proceed(t, 0, 0)).value;
  }

  // A looper that was told to exit in a timed wait takes the signal of a post, and the current one
  // sleeps on.
  lemma EventIsLost(s: State, l: Lid, n: Lid) returns (s': State)
    requires Scene(s, l, n) && s.sh.loopers[l].exiting && OthersDoomed(s.sh, l, n)
    ensures Leads(s, s') && Lost(s'.sh, n)
  {
    var drained := Drain(s, l, n);
    var asleep := SceneBlocks(drained, l, n);
    LeadsOn(s, drained, asleep);
    var t, timed := PostBegins(asleep);
    LeadsOn(s, asleep, timed);
    var signalled := PostSignals(timed, t, l);
    LeadsOn(s, timed, signalled);
    s' := PostInserts(signalled, t);
    LeadsOn(s, signalled, s');
  }

  // The action is a start that creates looper a.l.
  predicate Starts(s: State, a: Action) {
    && a.Proceed? && a.t in s.calls && s.calls[a.t].StartWant?
    && s.sh.lock.None? && s.sh.thread.None? && !s.sh.local && a.l !in s.sh.loopers
  }

  lemma StartSets(s: State, a: Action, l: Lid) returns (s': State)
    requires Inv(s) && Starts(s, a) && l in s.sh.loopers && !Doomed(s.sh.loopers[l])
    ensures Step(s, a) == Some(s') && l != a.l && s'.sh.lock.None?
    ensures (s'.sh.local <==> s'.sh.thread.None?) && s'.sh.thread != Some(l)
    ensures l in s'.sh.loopers && a.l in s'.sh.loopers && s'.sh.loopers[l] == s.sh.loopers[l]
    ensures s'.sh.loopers[a.l].pc == LoopTop && !s'.sh.loopers[a.l].exiting && Pending(s', a.l)
    ensures OthersDoomed(s'.sh, l, a.l)
  {
    s' := Step(s, a).value;
    forall t | t in s'.sh.toSignal
      ensures t in s'.calls && SignalAhead(s'.calls[t]) && s'.calls[t].victim != Some(a.l)
    {
      assert OwnsOk(s.sh, t, s.calls[t]) && VictimOk(s.sh, s.calls[t]);
      assert OwnsOk(s.sh, a.t, s.calls[a.t]);
    }
  }

  // From a start that overlaps, some continuation loses the old looper, or an event.
  lemma OverlapLoses(s: State, a: Action) returns (s': State, lost: Lid)
    requires Inv(s) && Starts(s, a) && Overlaps(s, a)
    ensures Step(s, a).Some? && Leads(Step(s, a).value, s') && Lost(s'.sh, lost)
  {
    var l :| l in s.sh.loopers && !Doomed(s.sh.loopers[l]);
    var started := StartSets(s, a, l);
    var idle := TakeAll(started, a.l);
    if idle.sh.loopers[l].exiting && Blocked(idle.sh, l) {
      assert Scene(idle, l, a.l);
      lost := a.l;
      s' := EventIsLost(idle, l, a.l);
      LeadsOn(started, idle, s');
    } else {
      var asleep := MaySleep(idle, l);
      LeadsOn(started, idle, asleep);
      assert Scene(asleep, l, a.l);
      lost := l;
      s' := SleeperIsLost(asleep, l, a.l);
      LeadsOn(started, asleep, s');
    }
  }

  // Without an overlap nothing ever is.
  lemma {:induction false} RunOn(run: seq<Action>, more: seq<Action>)
    requires Run(run, false).Some?
    ensures Run(run + more, false) == Continue(Run(run, false).value, more)
  {
    if more == [] {
      assert run + more == run;
    } else {
      assert (run + more)[..|run + more| - 1] == run + more[..|more| - 1];
      RunOn(run, more[..|more| - 1]);
    }
  }

  lemma NeverLost(run: seq<Action>, l: Lid)
    requires Run(run, false).Some?
    ensures !Lost(Run(run, false).value.sh, l)
  {
    InvRun(run);
    var sh := Run(run, false).value.sh;
    if Blocked(sh, l) {
      assert LooperOk(sh, l);
    }
  }

  // A start may lose a looper or an event exactly when it overlaps with a looper that may still wait.
  lemma StartIsSafeIff(run: seq<Action>, a: Action)
    requires Run(run, false).Some? && Starts(Run(run, false).value, a)
    ensures Step(Run(run, false).value, a).Some?
    ensures !Overlaps(Run(run, false).value, a) <==>
              forall s', l :: Leads(Step(Run(run, false).value, a).value, s') ==> !Lost(s'.sh, l)
  {
    var s := Run(run, false).value;
    InvRun(run);
    if Overlaps(s, a) {
      var s', l := OverlapLoses(s, a);
    } else {
      var started := Step(s, a).value;
      assert (run + [a])[..|run + [a]| - 1] == run;
      forall s', l | Leads(started, s') ensures !Lost(s'.sh, l) {
        var more :| Continue(started, more) == Some(s');
        RunOn(run + [a], more);
        NeverLost(run + [a] + more, l);
      }
    }
  }
}
