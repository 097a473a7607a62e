// A rule for callers under which loopers never overlap: run no loop on the calling thread, do not
// stop from the looper's own thread, and let no start happen between the moment a stop has taken
// effect and its return.
module LooperCallers {
  import opened Wrappers
  import opened LooperProtocol
  import opened LooperSafety
  import opened LooperTheorems

  // A stop that has taken effect and did not return yet.
  predicate Stopping(pc: Pc) {
    pc.StopExit? || pc.StopSignal? || pc.StopWantR? || pc.StopHaveR? || pc.StopJoin?
  }

  predicate NoneStopping(s: State) {
    forall t :: t in s.calls ==> !Stopping(s.calls[t])
  }

  // Whether the action breaks the rule.
  predicate Careless(s: State, a: Action) {
    || (a.Call? && (a.pc == StartWant(true) || a.pc == StopWant(true)))
    || (a.Proceed? && a.t in s.calls && s.calls[a.t].StartWant? && !NoneStopping(s))
  }

  // The state after a run of careful callers, or None when some action is not possible.
  function Careful(run: seq<Action>): Option<State> {
    if run == [] then Some(INIT)
    else
      var s := Careful(run[..|run| - 1]);
      var a := run[|run| - 1];
      if s.None? || Careless(s.value, a) then None else Step(s.value, a)
  }

  predicate RidOf(pc: Pc, l: Lid) {
    || ((pc.StopExit? || pc.StopSignal? || pc.StopWantR? || pc.StopHaveR?) && pc.victim == Some(l))
    || (pc.StopJoin? && pc.exited == l)
  }

  predicate CallOk(pc: Pc) {
    && (pc.StartWant? ==> !pc.runLocally)
    && (pc.StopWant? || pc.StopExit? || pc.StopSignal? || pc.StopWantR? || pc.StopHaveR? ==> !pc.own)
  }

  // The looper has exited, is the current one, or the call is getting rid of it.
  predicate Held(sh: Shared, pc: Pc, l: Lid) {
    l in sh.loopers && (sh.loopers[l].pc == LoopExited || sh.thread == Some(l) || RidOf(pc, l))
  }

  ghost predicate HeldBySome(s: State, l: Lid) {
    exists t :: t in s.calls && Held(s.sh, s.calls[t], l)
  }

  ghost predicate CarefulInv(s: State) {
    && !s.sh.local
    && (forall t :: t in s.calls ==> CallOk(s.calls[t]))
    && (forall l :: l in s.sh.loopers ==> HeldBySome(s, l))
  }

  // Loopers stay, and what has exited stays so.
  ghost predicate LoopersStay(sh: Shared, sh': Shared) {
    forall l :: l in sh.loopers ==>
      l in sh'.loopers && (sh.loopers[l].pc == LoopExited ==> sh'.loopers[l].pc == LoopExited)
  }

  // A step other than of start and stop.
  predicate Plain(sh: Shared, m: Move) {
    && m.sh.thread == sh.thread && m.sh.local == sh.local && m.sh.loopers.Keys == sh.loopers.Keys
    && !m.pc.StartWant? && !m.pc.StopWant? && !Stopping(m.pc)
  }

  lemma PostStays(sh: Shared, t: Tid, pc: Pc, now: int, n: Lid)
    requires StepPost(sh, t, pc, now, n).Some?
    ensures var m := StepPost(sh, t, pc, now, n).value; Plain(sh, m) && LoopersStay(sh, m.sh)
  {
  }

  lemma AwaitStays(sh: Shared, t: Tid, pc: Pc)
    requires StepAwait(sh, t, pc).Some?
    ensures var m := StepAwait(sh, t, pc).value; Plain(sh, m) && LoopersStay(sh, m.sh)
  {
  }

  lemma ReplyStays(sh: Shared, t: Tid, pc: Pc)
    requires StepReply(sh, t, pc).Some?
    ensures var m := StepReply(sh, t, pc).value; Plain(sh, m) && LoopersStay(sh, m.sh)
  {
  }

  lemma StartHolds(sh: Shared, t: Tid, pc: Pc, n: Lid)
    requires CallOk(pc) && !sh.local && StepStart(sh, pc, n).Some?
    ensures var m := StepStart(sh, pc, n).value;
            && CallOk(m.pc) && !m.sh.local && LoopersStay(sh, m.sh)
            && (m.sh.thread == sh.thread || sh.thread.None?)
            && forall l :: l in m.sh.loopers && l !in sh.loopers ==> m.sh.thread == Some(l)
  {
  }

  lemma StopStays(sh: Shared, t: Tid, pc: Pc, n: Lid)
    requires CallOk(pc) && !sh.local && StepStop(sh, t, pc, n).Some?
    ensures var m := StepStop(sh, t, pc, n).value;
            CallOk(m.pc) && !m.sh.local && LoopersStay(sh, m.sh) && m.sh.loopers.Keys == sh.loopers.Keys
  {
  }

  // From the current looper to the victim, and on until it has exited.
  lemma StopHolds(sh: Shared, t: Tid, pc: Pc, n: Lid, l: Lid)
    requires CallOk(pc) && !sh.local && StepStop(sh, t, pc, n).Some? && l in sh.loopers
    ensures var m := StepStop(sh, t, pc, n).value;
            && (sh.thread == Some(l) ==> m.sh.thread == Some(l) || RidOf(m.pc, l))
            && (RidOf(pc, l) ==> RidOf(m.pc, l) || sh.loopers[l].pc == LoopExited)
  {
  }

  lemma CallHolds(sh: Shared, t: Tid, pc: Pc, now: int, n: Lid)
    requires CallOk(pc) && !sh.local && StepCall(sh, t, pc, now, n).Some?
    ensures var m := StepCall(sh, t, pc, now, n).value;
            && CallOk(m.pc) && !m.sh.local && LoopersStay(sh, m.sh)
            && forall l :: l in m.sh.loopers && (l !in sh.loopers || Held(sh, pc, l)) ==> Held(m.sh, m.pc, l)
  {
    if StepPost(sh, t, pc, now, n).Some? {
      PostStays(sh, t, pc, now, n);
    } else if StepAwait(sh, t, pc).Some? {
      AwaitStays(sh, t, pc);
    } else if StepReply(sh, t, pc).Some? {
      ReplyStays(sh, t, pc);
    } else if StepStart(sh, pc, n).Some? {
      StartHolds(sh, t, pc, n);
    } else {
      StopStays(sh, t, pc, n);
      forall l | l in sh.loopers
        ensures var m := StepStop(sh, t, pc, n).value; Held(sh, pc, l) ==> Held(m.sh, m.pc, l)
      {
        StopHolds(sh, t, pc, n, l);
      }
    }
  }

  // Careful starts do not overlap.
  lemma CarefulIsApart(s: State, a: Action)
    requires CarefulInv(s) && !Careless(s, a)
    ensures !Overlaps(s, a)
  {
    if a.Proceed? && a.t in s.calls && s.calls[a.t].StartWant? && s.sh.thread.None? {
      forall l | l in s.sh.loopers ensures Doomed(s.sh.loopers[l]) {
        var t :| t in s.calls && Held(s.sh, s.calls[t], l);
        assert !Stopping(s.calls[t]);
      }
    }
  }

  lemma ProceedHolds(s: State, t: Tid, now: int, n: Lid, l: Lid)
    requires CarefulInv(s) && !Careless(s, Proceed(t, now, n)) && Step(s, Proceed(t, now, n)).Some?
    requires l in Step(s, Proceed(t, now, n)).value.sh.loopers
    ensures HeldBySome(Step(s, Proceed(t, now, n)).value, l)
  {
    var s', pc := Step(s, Proceed(t, now, n)).value, s.calls[t];
    CallHolds(s.sh, t, pc, now, n);
    if l !in s.sh.loopers || Held(s.sh, pc, l) {
      assert Held(s'.sh, s'.calls[t], l);
    } else {
      var u :| u in s.calls && Held(s.sh, s.calls[u], l);
      assert RidOf(s.calls[u], l) && RidOf(s'.calls[u], l);
      assert Held(s'.sh, s'.calls[u], l);
    }
  }

  lemma CarefulProceed(s: State, t: Tid, now: int, n: Lid)
    requires CarefulInv(s) && !Careless(s, Proceed(t, now, n)) && Step(s, Proceed(t, now, n)).Some?
    ensures CarefulInv(Step(s, Proceed(t, now, n)).value)
  {
    var s' := Step(s, Proceed(t, now, n)).value;
    CallHolds(s.sh, t, s.calls[t], now, n);
    forall l | l in s'.sh.loopers ensures HeldBySome(s', l) {
      ProceedHolds(s, t, now, n, l);
    }
  }

  // A looper's own step: what has exited stays so.
  lemma CarefulLooper(s: State, l: Lid, pc: LoopPc, sh': Shared)
    requires CarefulInv(s) && l in s.sh.loopers && s.sh.loopers[l].pc != LoopExited
    requires sh'.thread == s.sh.thread && sh'.local == s.sh.local
    requires sh'.loopers == s.sh.loopers[l := s.sh.loopers[l].(pc := pc)]
    ensures CarefulInv(s.(sh := sh'))
  {
    var s' := s.(sh := sh');
    forall k | k in sh'.loopers ensures HeldBySome(s', k) {
      var t :| t in s.calls && Held(s.sh, s.calls[t], k);
      assert Held(sh', s'.calls[t], k);
    }
  }

  lemma CarefulCall(s: State, t: Tid, pc: Pc)
    requires CarefulInv(s) && !Careless(s, Call(t, pc)) && Step(s, Call(t, pc)).Some?
    ensures CarefulInv(Step(s, Call(t, pc)).value)
  {
    var s' := Step(s, Call(t, pc)).value;
    forall l | l in s'.sh.loopers ensures HeldBySome(s', l) {
      var u :| u in s.calls && Held(s.sh, s.calls[u], l);
      assert Held(s'.sh, s'.calls[u], l);
    }
  }

  lemma CarefulSpurious(s: State, t: Tid)
    requires CarefulInv(s) && Step(s, Spurious(t)).Some?
    ensures CarefulInv(Step(s, Spurious(t)).value)
  {
    var s' := Step(s, Spurious(t)).value;
    forall l | l in s'.sh.loopers ensures HeldBySome(s', l) {
      var u :| u in s.calls && Held(s.sh, s.calls[u], l);
      assert Held(s'.sh, s'.calls[u], l);
    }
  }

  lemma CarefulStep(s: State, a: Action)
    requires CarefulInv(s) && !Careless(s, a) && Step(s, a).Some?
    ensures CarefulInv(Step(s, a).value)
  {
    match a
    case Call(t, pc) => CarefulCall(s, t, pc);
    case Proceed(t, now, l) => CarefulProceed(s, t, now, l);
    case Loop(l, now) =>
      LoopMoves(s.sh, l, now);
      var sh' := StepLoop(s.sh, l, now).value;
      CarefulLooper(s, l, sh'.loopers[l].pc, sh');
    case Timeout(l) =>
      CarefulLooper(s, l, LoopWoken, LoopGoto(s.sh, l, LoopWoken));
    case Spurious(t) => CarefulSpurious(s, t);
  }

  lemma {:induction false} CarefulRun(run: seq<Action>)
    requires Careful(run).Some?
    ensures CarefulInv(Careful(run).value) && Run(run, false) == Careful(run)
  {
    if run == [] {
    } else {
      var front, a := run[..|run| - 1], run[|run| - 1];
      CarefulRun(front);
      CarefulIsApart(Careful(front).value, a);
      CarefulStep(Careful(front).value, a);
    }
  }

  // So careful callers lose no wake-up.
  lemma CarefulNoLostWakeup(run: seq<Action>, l: Lid)
    requires Careful(run).Some? && Blocked(Careful(run).value.sh, l)
    ensures var s := Careful(run).value;
            && WaitsForHead(s.sh, l)
            && (s.sh.thread == Some(l) || exists t :: t in s.calls && SignalAhead(s.calls[t]))
  {
    CarefulRun(run);
    NoLostWakeup(run, l);
  }

  // And there is no deadlock: every stop returns.
  lemma CarefulIsIdle(run: seq<Action>)
    requires Careful(run).Some? && Stuck(Careful(run).value)
    ensures var s := Careful(run).value;
            && s.sh.lock.None? && s.sh.rlock.None?
            && (forall t :: t in s.calls ==> Rests(s.sh, t, s.calls[t]) && !Stopping(s.calls[t]))
            && (forall l :: l in s.sh.loopers ==>
                  s.sh.loopers[l].pc == LoopExited || (Blocked(s.sh, l) && s.sh.thread == Some(l)))
  {
    CarefulRun(run);
    QuiescentIsIdle(run);
    var s := Careful(run).value;
    forall l | l in s.sh.loopers
      ensures s.sh.loopers[l].pc == LoopExited || (Blocked(s.sh, l) && s.sh.thread == Some(l))
    {
      assert Sleeps(s.sh, l);
    }
  }
}
