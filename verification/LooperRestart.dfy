// What goes wrong when start comes between a stop and the exit of the old looper: stop's one
// signal may wake the new looper, and everything comes to rest with stop waiting for the old one,
// asleep.
module LooperRestart {
  import opened Wrappers
  import opened LooperProtocol
  import opened LooperSafety
  import opened LooperTheorems

  // One state after each action; 0 is the old looper and 1 the new one.
  function Picture(calls: map<Tid, Pc>, thread: Option<Lid>, loopers: map<Lid, Looper>,
                   toSignal: set<Tid>, toBroadcast: set<Tid>): State
  {
    State(INIT.sh.(thread := thread, loopers := loopers, toSignal := toSignal, toBroadcast := toBroadcast), calls)
  }

  function Old(pc: LoopPc): map<Lid, Looper> {
    map[0 := Looper(pc, false, false)]
  }

  function Both(exiting: bool, pc: LoopPc): map<Lid, Looper> {
    map[0 := Looper(LoopBlocked(None), exiting, false), 1 := Looper(pc, false, false)]
  }

  function Calls(stop: Pc): map<Tid, Pc> {
    map[0 := Done(Started), 1 := stop, 2 := Done(Started)]
  }

  const SCENE_0: State := INIT
  const SCENE_1: State := Picture(map[0 := StartWant(false)], None, map[], {}, {})
  const SCENE_2: State := Picture(map[0 := Done(Started)], Some(0), Old(LoopTop), {}, {})
  const SCENE_3: State := Picture(map[0 := Done(Started)], Some(0), Old(LoopEnter), {}, {})
  const SCENE_4: State := Picture(map[0 := Done(Started)], Some(0), Old(LoopBlocked(None)), {}, {})
  const SCENE_5: State :=
    Picture(map[0 := Done(Started), 1 := StopWant(false)], Some(0), Old(LoopBlocked(None)), {}, {})
  const SCENE_6: State :=
    Picture(map[0 := Done(Started), 1 := StopExit(Some(0), false)], None, Old(LoopBlocked(None)), {1}, {1})
  const SCENE_7: State :=
    Picture(map[0 := Done(Started), 1 := StopExit(Some(0), false), 2 := StartWant(false)], None,
            Old(LoopBlocked(None)), {1}, {1})
  const SCENE_8: State := Picture(Calls(StopExit(Some(0), false)), Some(1), Both(false, LoopTop), {1}, {1})
  const SCENE_9: State := Picture(Calls(StopExit(Some(0), false)), Some(1), Both(false, LoopEnter), {1}, {1})
  const SCENE_10: State := Picture(Calls(StopExit(Some(0), false)), Some(1), Both(false, LoopBlocked(None)), {1}, {1})
  const SCENE_11: State := Picture(Calls(StopSignal(Some(0), false)), Some(1), Both(true, LoopBlocked(None)), {1}, {1})
  const SCENE_12: State := Picture(Calls(StopWantR(Some(0), false)), Some(1), Both(true, LoopWoken), {}, {1})
  const SCENE_13: State :=
    State(Picture(Calls(StopWantR(Some(0), false)), Some(1), Both(true, LoopWoken), {}, {1}).sh.(rlock := Some(1)),
          Calls(StopHaveR(Some(0), false)))
  const SCENE_14: State := Picture(Calls(StopJoin(0)), Some(1), Both(true, LoopWoken), {}, {})
  const SCENE_15: State := Picture(Calls(StopJoin(0)), Some(1), Both(true, LoopTop), {}, {})
  const SCENE_16: State := Picture(Calls(StopJoin(0)), Some(1), Both(true, LoopEnter), {}, {})
  const SCENE_17: State := Picture(Calls(StopJoin(0)), Some(1), Both(true, LoopBlocked(None)), {}, {})

  // A step of the stop, in the presence of the others.
  lemma StopTurns(sh: Shared, pc: Pc, l: Lid, m: Move)
    requires BroadcastAhead(pc) && StepStop(sh, 1, pc, l) == Some(m)
    ensures Step(State(sh, Calls(pc)), Proceed(1, 0, l)) == Some(State(m.sh, Calls(m.pc)))
  {
    var s := State(sh, Calls(pc));
    assert StepCall(sh, 1, pc, 0, l) == Some(m);
    assert Apply(s, 1, m).calls == Calls(m.pc);
  }

  lemma AgreeShared(sh: Shared, sh': Shared)
    requires sh.loopers == sh'.loopers && sh.toSignal == sh'.toSignal && sh.toBroadcast == sh'.toBroadcast
    requires sh.(loopers := map[], toSignal := {}, toBroadcast := {})
             == sh'.(loopers := map[], toSignal := {}, toBroadcast := {})
    ensures sh == sh'
  {
  }

  lemma Agree(s: State, s': State)
    requires s.calls == s'.calls && s.sh.loopers == s'.sh.loopers
    requires s.sh.toSignal == s'.sh.toSignal && s.sh.toBroadcast == s'.sh.toBroadcast
    requires s.sh.(loopers := map[], toSignal := {}, toBroadcast := {})
             == s'.sh.(loopers := map[], toSignal := {}, toBroadcast := {})
    ensures s == s'
  {
  }

  // Each action leads from one picture to the next.
  lemma StartIsCalled()
    ensures Step(SCENE_0, Call(0, StartWant(false))) == Some(SCENE_1)
  {
    Agree(Step(SCENE_0, Call(0, StartWant(false))).value, SCENE_1);
  }

  lemma LooperStarts()
    ensures Step(SCENE_1, Proceed(0, 0, 0)) == Some(SCENE_2)
  {
    Agree(Step(SCENE_1, Proceed(0, 0, 0)).value, SCENE_2);
  }

  lemma LooperEnters()
    ensures Step(SCENE_2, Loop(0, 0)) == Some(SCENE_3)
  {
    Agree(Step(SCENE_2, Loop(0, 0)).value, SCENE_3);
  }

  lemma LooperBlocks()
    ensures Step(SCENE_3, Loop(0, 0)) == Some(SCENE_4)
  {
    Agree(Step(SCENE_3, Loop(0, 0)).value, SCENE_4);
  }

  lemma StopIsCalled()
    ensures Step(SCENE_4, Call(1, StopWant(false))) == Some(SCENE_5)
  {
    Agree(Step(SCENE_4, Call(1, StopWant(false))).value, SCENE_5);
  }

  lemma StopClears()
    ensures Step(SCENE_5, Proceed(1, 0, 0)) == Some(SCENE_6)
  {
    Agree(Step(SCENE_5, Proceed(1, 0, 0)).value, SCENE_6);
  }

  lemma RestartIsCalled()
    ensures Step(SCENE_6, Call(2, StartWant(false))) == Some(SCENE_7)
  {
    Agree(Step(SCENE_6, Call(2, StartWant(false))).value, SCENE_7);
  }

  lemma LooperRestarts()
    ensures Step(SCENE_7, Proceed(2, 0, 1)) == Some(SCENE_8)
  {
    Agree(Step(SCENE_7, Proceed(2, 0, 1)).value, SCENE_8);
  }

  lemma RestartEnters()
    ensures Step(SCENE_8, Loop(1, 0)) == Some(SCENE_9)
  {
    Agree(Step(SCENE_8, Loop(1, 0)).value, SCENE_9);
  }

  lemma RestartBlocks()
    ensures Step(SCENE_9, Loop(1, 0)) == Some(SCENE_10)
  {
    Agree(Step(SCENE_9, Loop(1, 0)).value, SCENE_10);
  }

  lemma StopTells()
    ensures Step(SCENE_10, Proceed(1, 0, 0)) == Some(SCENE_11)
  {
    var m := StepStop(SCENE_10.sh, 1, StopExit(Some(0), false), 0).value;
    StopTurns(SCENE_10.sh, StopExit(Some(0), false), 0, m);
    AgreeShared(m.sh, SCENE_11.sh);
  }

  lemma StopSignals()
    ensures Step(SCENE_11, Proceed(1, 0, 1)) == Some(SCENE_12)
  {
    var m := StepStop(SCENE_11.sh, 1, StopSignal(Some(0), false), 1).value;
    StopTurns(SCENE_11.sh, StopSignal(Some(0), false), 1, m);
    AgreeShared(m.sh, SCENE_12.sh);
  }

  lemma StopLocks()
    ensures Step(SCENE_12, Proceed(1, 0, 0)) == Some(SCENE_13)
  {
    var m := StepStop(SCENE_12.sh, 1, StopWantR(Some(0), false), 0).value;
    StopTurns(SCENE_12.sh, StopWantR(Some(0), false), 0, m);
    AgreeShared(m.sh, SCENE_13.sh);
  }

  lemma StopBroadcasts()
    ensures Step(SCENE_13, Proceed(1, 0, 0)) == Some(SCENE_14)
  {
    var m := StepStop(SCENE_13.sh, 1, StopHaveR(Some(0), false), 0).value;
    StopTurns(SCENE_13.sh, StopHaveR(Some(0), false), 0, m);
    AgreeShared(m.sh, SCENE_14.sh);
  }

  lemma RestartTests()
    ensures Step(SCENE_14, Loop(1, 0)) == Some(SCENE_15)
  {
    Agree(Step(SCENE_14, Loop(1, 0)).value, SCENE_15);
  }

  lemma RestartReenters()
    ensures Step(SCENE_15, Loop(1, 0)) == Some(SCENE_16)
  {
    Agree(Step(SCENE_15, Loop(1, 0)).value, SCENE_16);
  }

  lemma RestartSleeps()
    ensures Step(SCENE_16, Loop(1, 0)) == Some(SCENE_17)
  {
    Agree(Step(SCENE_16, Loop(1, 0)).value, SCENE_17);
  }

  lemma OneMore(run: seq<Action>, s: State, a: Action, s': State)
    requires Run(run, true) == Some(s) && Step(s, a) == Some(s')
    ensures Run(run + [a], true) == Some(s')
  {
    assert (run + [a])[..|run + [a]| - 1] == run;
  }

  lemma RunToStop() returns (run: seq<Action>)
    ensures Run(run, true) == Some(SCENE_6)
  {
    run := [];
    StartIsCalled();
    OneMore(run, SCENE_0, Call(0, StartWant(false)), SCENE_1);
    run := run + [Call(0, StartWant(false))];
    LooperStarts();
    OneMore(run, SCENE_1, Proceed(0, 0, 0), SCENE_2);
    run := run + [Proceed(0, 0, 0)];
    LooperEnters();
    OneMore(run, SCENE_2, Loop(0, 0), SCENE_3);
    run := run + [Loop(0, 0)];
    LooperBlocks();
    OneMore(run, SCENE_3, Loop(0, 0), SCENE_4);
    run := run + [Loop(0, 0)];
    StopIsCalled();
    OneMore(run, SCENE_4, Call(1, StopWant(false)), SCENE_5);
    run := run + [Call(1, StopWant(false))];
    StopClears();
    OneMore(run, SCENE_5, Proceed(1, 0, 0), SCENE_6);
    run := run + [Proceed(1, 0, 0)];
  }

  lemma RunToSignal() returns (run: seq<Action>)
    ensures Run(run, true) == Some(SCENE_12)
  {
    run := RunToStop();
    RestartIsCalled();
    OneMore(run, SCENE_6, Call(2, StartWant(false)), SCENE_7);
    run := run + [Call(2, StartWant(false))];
    LooperRestarts();
    OneMore(run, SCENE_7, Proceed(2, 0, 1), SCENE_8);
    run := run + [Proceed(2, 0, 1)];
    RestartEnters();
    OneMore(run, SCENE_8, Loop(1, 0), SCENE_9);
    run := run + [Loop(1, 0)];
    RestartBlocks();
    OneMore(run, SCENE_9, Loop(1, 0), SCENE_10);
    run := run + [Loop(1, 0)];
    StopTells();
    OneMore(run, SCENE_10, Proceed(1, 0, 0), SCENE_11);
    run := run + [Proceed(1, 0, 0)];
    StopSignals();
    OneMore(run, SCENE_11, Proceed(1, 0, 1), SCENE_12);
    run := run + [Proceed(1, 0, 1)];
  }

  lemma RunToRest() returns (run: seq<Action>)
    ensures Run(run, true) == Some(SCENE_17)
  {
    run := RunToSignal();
    StopLocks();
    OneMore(run, SCENE_12, Proceed(1, 0, 0), SCENE_13);
    run := run + [Proceed(1, 0, 0)];
    StopBroadcasts();
    OneMore(run, SCENE_13, Proceed(1, 0, 0), SCENE_14);
    run := run + [Proceed(1, 0, 0)];
    RestartTests();
    OneMore(run, SCENE_14, Loop(1, 0), SCENE_15);
    run := run + [Loop(1, 0)];
    RestartReenters();
    OneMore(run, SCENE_15, Loop(1, 0), SCENE_16);
    run := run + [Loop(1, 0)];
    RestartSleeps();
    OneMore(run, SCENE_16, Loop(1, 0), SCENE_17);
    run := run + [Loop(1, 0)];
  }

  lemma CallsRest()
    ensures forall t, now, l :: Step(SCENE_17, Proceed(t, now, l)).None?
  {
    forall t, now, l ensures Step(SCENE_17, Proceed(t, now, l)).None? {
      if t == 1 {
        assert SCENE_17.calls[t] == StopJoin(0) && SCENE_17.sh.loopers[0].pc != LoopExited;
      }
    }
  }

  lemma LoopersRest()
    ensures forall l, now :: Step(SCENE_17, Loop(l, now)).None?
  {
    forall l, now ensures Step(SCENE_17, Loop(l, now)).None? {
      if l in SCENE_17.sh.loopers {
        assert SCENE_17.sh.loopers[l].pc == LoopBlocked(None);
      }
    }
  }

  lemma RestartCanStrandStop() returns (run: seq<Action>)
    ensures Run(run, true).Some?
    ensures var s := Run(run, true).value;
            && Stuck(s) && s.sh.toSignal == {}
            && 1 in s.calls && s.calls[1] == StopJoin(0)
            && Blocked(s.sh, 0) && !Alive(s.sh, 0)
  {
    run := RunToRest();
    CallsRest();
    LoopersRest();
  }
}
