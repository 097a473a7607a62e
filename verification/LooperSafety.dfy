// What every run of the looper and reply protocol keeps.
//
// The invariants are conditions on the shared state plus conditions on each call.  A step then
// has to re-establish both and leave the conditions of every other call alone, which is shown
// for one other call at a time.
module LooperSafety {
  import opened Wrappers
  import opened TimedQueue
  import opened LooperProtocol

  predicate HasLock(pc: Pc) {
    pc.PostHave? || pc.PostTimed? || pc.PostReady? || pc.AwaitLook?
  }

  predicate HasRLock(pc: Pc) {
    pc.AwaitCheck? || pc.AwaitWantLock? || pc.AwaitLook? || pc.AwaitWait?
    || pc.ReplyHave? || pc.ReplyNotify? || pc.StopHaveR?
  }

  predicate SignalAhead(pc: Pc) {
    pc.StopExit? || pc.StopSignal?
  }

  predicate BroadcastAhead(pc: Pc) {
    SignalAhead(pc) || pc.StopWantR? || pc.StopHaveR?
  }

  // A postAndAwaitResponse that has not returned.
  predicate Waiting(pc: Pc) {
    || (pc.PostWant? && pc.wait) || (pc.PostHave? && pc.wait) || (pc.PostTimed? && pc.wait)
    || (pc.PostReady? && pc.wait)
    || pc.AwaitWant? || pc.AwaitCheck? || pc.AwaitWantLock? || pc.AwaitLook?
    || pc.AwaitWait? || pc.AwaitBlocked? || pc.AwaitWoken?
  }

  // The locks and the pending wake-ups belong to exactly the calls that are at those places.
  predicate OwnsOk(sh: Shared, t: Tid, pc: Pc) {
    && (sh.lock == Some(t) <==> HasLock(pc))
    && (sh.rlock == Some(t) <==> HasRLock(pc))
    && (t in sh.toSignal <==> SignalAhead(pc))
    && (t in sh.toBroadcast <==> BroadcastAhead(pc))
    && (sh.notifying == Some(t) <==> pc.ReplyNotify?)
  }

  function Accepted(sh: Shared, t: Tid): Option<Msg> {
    if t in sh.accepted then Some(sh.accepted[t]) else None
  }

  // The token of a waiter holds the accepted reply until the waiter takes it, and a waiter only
  // blocks on an unanswered token, with the looper running or a stop yet to broadcast.
  predicate WaiterOk(sh: Shared, t: Tid, pc: Pc) {
    && (Waiting(pc) ==> t in sh.tokens && (sh.tokens[t].replied ==> sh.tokens[t].reply == Accepted(sh, t)))
    && (pc.Done? && pc.result.Answer? ==> pc.result.reply.Some? && pc.result.reply == Accepted(sh, t))
    && (pc.ReplyWant? || pc.ReplyHave? ==> pc.token in sh.tokens)
    && (pc.AwaitWantLock? || pc.AwaitLook? || pc.AwaitWait? ==> !sh.tokens[t].replied)
    && (pc.AwaitBlocked? && sh.tokens[t].replied ==> sh.notifying.Some?)
    && (pc.AwaitWait? || pc.AwaitBlocked? ==> sh.thread.Some? || sh.toBroadcast != {})
  }

  // The looper a stop call is getting rid of: gone from mThread, told to exit, and after the
  // signal not blocked any more.  A post that goes first has woken the looper.
  predicate VictimOk(sh: Shared, pc: Pc) {
    && ((pc.StopExit? || pc.StopSignal? || pc.StopWantR? || pc.StopHaveR?) && pc.victim.Some? ==>
          pc.victim.value in sh.loopers && sh.thread != pc.victim && !sh.loopers[pc.victim.value].local)
    && ((pc.StopSignal? || pc.StopWantR? || pc.StopHaveR?) && pc.victim.Some? ==> sh.loopers[pc.victim.value].exiting)
    && ((pc.StopWantR? || pc.StopHaveR?) && pc.victim.Some? ==> !Blocked(sh, pc.victim.value))
    && (pc.StopJoin? ==> pc.exited in sh.loopers && sh.loopers[pc.exited].exiting && !Blocked(sh, pc.exited))
    && (pc.PostReady? && Place(sh.queue, pc.when) == 0 ==> NoneBlocked(sh))
  }

  // What holds of a call however loopers are started.
  predicate BaseOk(sh: Shared, t: Tid, pc: Pc) {
    OwnsOk(sh, t, pc) && WaiterOk(sh, t, pc)
  }

  ghost predicate TokensOk(sh: Shared) {
    && (forall t :: t in sh.tokens ==> (sh.tokens[t].replied <==> t in sh.accepted))
    && (forall t :: t in sh.tokens && !sh.tokens[t].replied ==> sh.tokens[t].reply == None)
    && (forall t :: t in sh.accepted ==> t in sh.tokens)
  }

  predicate Alive(sh: Shared, l: Lid)
    requires l in sh.loopers
  {
    sh.thread == Some(l) || (sh.local && sh.loopers[l].local)
  }

  // A blocked looper has nothing to do before its deadline, and is wanted or about to be woken.
  predicate LooperOk(sh: Shared, l: Lid)
    requires l in sh.loopers
  {
    var p := sh.loopers[l];
    && (p.pc == LoopBlocked(None) ==> sh.queue == [])
    && (p.pc.LoopBlocked? && p.pc.deadline.Some? ==> sh.queue != [] && p.pc.deadline.value == sh.queue[0].when)
    && (p.pc.LoopBlocked? ==> Alive(sh, l) || sh.toSignal != {})
    && (p.exiting ==> !Alive(sh, l) && !p.local)
    && (!Doomed(p) && (sh.thread.Some? || sh.local) ==> Alive(sh, l))
  }

  ghost predicate LoopersOk(sh: Shared) {
    && (forall l :: l in sh.loopers ==> LooperOk(sh, l))
    && (forall k, l :: k in sh.loopers && l in sh.loopers && k != l ==>
          Doomed(sh.loopers[k]) || Doomed(sh.loopers[l]))
    && (sh.thread.Some? ==>
          sh.thread.value in sh.loopers && !sh.loopers[sh.thread.value].local
          && sh.loopers[sh.thread.value].pc != LoopExited)
    && (sh.local ==> sh.thread.None?)
  }

  // Holds in every run.
  ghost predicate BaseInv(s: State) {
    && TokensOk(s.sh)
    && (forall t :: t in s.calls ==> BaseOk(s.sh, t, s.calls[t]))
    && (s.sh.lock.Some? ==> s.sh.lock.value in s.calls)
    && (s.sh.rlock.Some? ==> s.sh.rlock.value in s.calls)
    && (s.sh.notifying.Some? ==> s.sh.notifying.value in s.calls)
    && s.sh.toSignal <= s.calls.Keys && s.sh.toBroadcast <= s.calls.Keys && s.sh.tokens.Keys <= s.calls.Keys
  }

  // Holds as long as no looper is started while a predecessor may still wait.
  ghost predicate Inv(s: State) {
    && BaseInv(s) && LoopersOk(s.sh)
    && forall t :: t in s.calls ==> VictimOk(s.sh, s.calls[t])
  }

  // A step only names itself as the holder of a lock or of a pending wake-up.
  ghost predicate NamesOnly(sh: Shared, t: Tid, sh': Shared) {
    && (sh'.lock == sh.lock || sh'.lock == None || sh'.lock == Some(t))
    && (sh'.rlock == sh.rlock || sh'.rlock == None || sh'.rlock == Some(t))
    && (sh'.notifying == sh.notifying || sh'.notifying == None || sh'.notifying == Some(t))
    && sh'.toSignal <= sh.toSignal + {t} && sh'.toBroadcast <= sh.toBroadcast + {t}
    && sh'.tokens.Keys == sh.tokens.Keys
  }

  // Each kind of step re-establishes the conditions on the shared state and its own, and leaves
  // the condition of any other call u alone.

  lemma PostOwns(sh: Shared, t: Tid, pc: Pc, now: int, l: Lid)
    requires OwnsOk(sh, t, pc) && StepPost(sh, t, pc, now, l).Some?
    ensures var m := StepPost(sh, t, pc, now, l).value; OwnsOk(m.sh, t, m.pc)
  {
  }

  lemma PostTokens(sh: Shared, t: Tid, pc: Pc, now: int, l: Lid)
    requires StepPost(sh, t, pc, now, l).Some?
    ensures var sh' := StepPost(sh, t, pc, now, l).value.sh; sh'.tokens == sh.tokens && sh'.accepted == sh.accepted
  {
  }

  lemma PostWaits(sh: Shared, t: Tid, pc: Pc, now: int, l: Lid)
    requires WaiterOk(sh, t, pc) && StepPost(sh, t, pc, now, l).Some?
    ensures var m := StepPost(sh, t, pc, now, l).value; WaiterOk(m.sh, t, m.pc)
  {
    PostTokens(sh, t, pc, now, l);
  }

  lemma PostBase(sh: Shared, t: Tid, pc: Pc, now: int, l: Lid)
    requires TokensOk(sh) && BaseOk(sh, t, pc) && StepPost(sh, t, pc, now, l).Some?
    ensures var m := StepPost(sh, t, pc, now, l).value;
            TokensOk(m.sh) && BaseOk(m.sh, t, m.pc)
  {
    PostOwns(sh, t, pc, now, l);
    PostTokens(sh, t, pc, now, l);
    PostWaits(sh, t, pc, now, l);
  }

  lemma PostSpares(sh: Shared, t: Tid, pc: Pc, now: int, l: Lid, u: Tid, pcu: Pc)
    requires TokensOk(sh) && BaseOk(sh, t, pc) && StepPost(sh, t, pc, now, l).Some?
    requires t != u && BaseOk(sh, u, pcu)
    ensures var m := StepPost(sh, t, pc, now, l).value; BaseOk(m.sh, u, AfterBroadcast(pcu, m.broadcast))
  {
  }

  lemma AwaitOwns(sh: Shared, t: Tid, pc: Pc)
    requires OwnsOk(sh, t, pc) && StepAwait(sh, t, pc).Some?
    ensures var m := StepAwait(sh, t, pc).value; OwnsOk(m.sh, t, m.pc)
  {
  }

  lemma AwaitTokens(sh: Shared, t: Tid, pc: Pc)
    requires TokensOk(sh) && StepAwait(sh, t, pc).Some?
    ensures TokensOk(StepAwait(sh, t, pc).value.sh)
  {
  }

  lemma AwaitWaits(sh: Shared, t: Tid, pc: Pc)
    requires TokensOk(sh) && OwnsOk(sh, t, pc) && WaiterOk(sh, t, pc) && StepAwait(sh, t, pc).Some?
    ensures var m := StepAwait(sh, t, pc).value; WaiterOk(m.sh, t, m.pc)
  {
  }

  lemma AwaitBase(sh: Shared, t: Tid, pc: Pc)
    requires TokensOk(sh) && BaseOk(sh, t, pc) && StepAwait(sh, t, pc).Some?
    ensures var m := StepAwait(sh, t, pc).value;
            TokensOk(m.sh) && BaseOk(m.sh, t, m.pc)
  {
    AwaitOwns(sh, t, pc);
    AwaitTokens(sh, t, pc);
    AwaitWaits(sh, t, pc);
  }

  lemma AwaitSparesOwner(sh: Shared, t: Tid, pc: Pc, u: Tid, pcu: Pc)
    requires OwnsOk(sh, t, pc) && StepAwait(sh, t, pc).Some? && t != u && OwnsOk(sh, u, pcu)
    ensures var m := StepAwait(sh, t, pc).value; OwnsOk(m.sh, u, AfterBroadcast(pcu, m.broadcast))
  {
  }

  lemma AwaitSpares(sh: Shared, t: Tid, pc: Pc, u: Tid, pcu: Pc)
    requires TokensOk(sh) && BaseOk(sh, t, pc) && StepAwait(sh, t, pc).Some?
    requires t != u && BaseOk(sh, u, pcu)
    ensures var m := StepAwait(sh, t, pc).value; BaseOk(m.sh, u, AfterBroadcast(pcu, m.broadcast))
  {
    AwaitSparesOwner(sh, t, pc, u, pcu);
  }

  lemma ReplyOwns(sh: Shared, t: Tid, pc: Pc)
    requires OwnsOk(sh, t, pc) && StepReply(sh, t, pc).Some?
    ensures var m := StepReply(sh, t, pc).value; OwnsOk(m.sh, t, m.pc)
  {
  }

  lemma ReplyTokens(sh: Shared, t: Tid, pc: Pc)
    requires TokensOk(sh) && StepReply(sh, t, pc).Some?
    ensures TokensOk(StepReply(sh, t, pc).value.sh)
  {
  }

  lemma ReplyBase(sh: Shared, t: Tid, pc: Pc)
    requires TokensOk(sh) && BaseOk(sh, t, pc) && StepReply(sh, t, pc).Some?
    ensures var m := StepReply(sh, t, pc).value;
            TokensOk(m.sh) && BaseOk(m.sh, t, m.pc)
  {
    ReplyOwns(sh, t, pc);
    ReplyTokens(sh, t, pc);
  }

  lemma ReplySparesOwner(sh: Shared, t: Tid, pc: Pc, u: Tid, pcu: Pc)
    requires OwnsOk(sh, t, pc) && StepReply(sh, t, pc).Some? && t != u && OwnsOk(sh, u, pcu)
    ensures var m := StepReply(sh, t, pc).value; OwnsOk(m.sh, u, AfterBroadcast(pcu, m.broadcast))
  {
  }

  lemma ReplySparesWaiter(sh: Shared, t: Tid, pc: Pc, u: Tid, pcu: Pc)
    requires TokensOk(sh) && OwnsOk(sh, t, pc) && StepReply(sh, t, pc).Some? && t != u
    requires OwnsOk(sh, u, pcu) && WaiterOk(sh, u, pcu)
    ensures var m := StepReply(sh, t, pc).value; WaiterOk(m.sh, u, AfterBroadcast(pcu, m.broadcast))
  {
  }

  lemma ReplySpares(sh: Shared, t: Tid, pc: Pc, u: Tid, pcu: Pc)
    requires TokensOk(sh) && BaseOk(sh, t, pc) && StepReply(sh, t, pc).Some?
    requires t != u && BaseOk(sh, u, pcu)
    ensures var m := StepReply(sh, t, pc).value; BaseOk(m.sh, u, AfterBroadcast(pcu, m.broadcast))
  {
    ReplySparesOwner(sh, t, pc, u, pcu);
    ReplySparesWaiter(sh, t, pc, u, pcu);
  }

  lemma StartBase(sh: Shared, t: Tid, pc: Pc, l: Lid)
    requires TokensOk(sh) && BaseOk(sh, t, pc) && StepStart(sh, pc, l).Some?
    ensures var m := StepStart(sh, pc, l).value;
            TokensOk(m.sh) && BaseOk(m.sh, t, m.pc)
  {
  }

  lemma StartSpares(sh: Shared, t: Tid, pc: Pc, l: Lid, u: Tid, pcu: Pc)
    requires TokensOk(sh) && BaseOk(sh, t, pc) && StepStart(sh, pc, l).Some?
    requires t != u && BaseOk(sh, u, pcu)
    ensures var m := StepStart(sh, pc, l).value; BaseOk(m.sh, u, AfterBroadcast(pcu, m.broadcast))
  {
  }

  lemma StopBase(sh: Shared, t: Tid, pc: Pc, l: Lid)
    requires TokensOk(sh) && BaseOk(sh, t, pc) && StepStop(sh, t, pc, l).Some?
    ensures var m := StepStop(sh, t, pc, l).value;
            TokensOk(m.sh) && BaseOk(m.sh, t, m.pc)
  {
  }

  lemma StopSparesOwner(sh: Shared, t: Tid, pc: Pc, l: Lid, u: Tid, pcu: Pc)
    requires OwnsOk(sh, t, pc) && StepStop(sh, t, pc, l).Some? && t != u && OwnsOk(sh, u, pcu)
    ensures var m := StepStop(sh, t, pc, l).value; OwnsOk(m.sh, u, AfterBroadcast(pcu, m.broadcast))
  {
  }

  lemma StopSparesWaiter(sh: Shared, t: Tid, pc: Pc, l: Lid, u: Tid, pcu: Pc)
    requires OwnsOk(sh, t, pc) && StepStop(sh, t, pc, l).Some? && t != u && OwnsOk(sh, u, pcu) && WaiterOk(sh, u, pcu)
    ensures var m := StepStop(sh, t, pc, l).value; WaiterOk(m.sh, u, AfterBroadcast(pcu, m.broadcast))
  {
  }

  lemma StopSpares(sh: Shared, t: Tid, pc: Pc, l: Lid, u: Tid, pcu: Pc)
    requires TokensOk(sh) && BaseOk(sh, t, pc) && StepStop(sh, t, pc, l).Some?
    requires t != u && BaseOk(sh, u, pcu)
    ensures var m := StepStop(sh, t, pc, l).value; BaseOk(m.sh, u, AfterBroadcast(pcu, m.broadcast))
  {
    StopSparesOwner(sh, t, pc, l, u, pcu);
    StopSparesWaiter(sh, t, pc, l, u, pcu);
  }

  lemma CallBase(sh: Shared, t: Tid, pc: Pc, now: int, l: Lid)
    requires TokensOk(sh) && BaseOk(sh, t, pc) && StepCall(sh, t, pc, now, l).Some?
    ensures var m := StepCall(sh, t, pc, now, l).value;
            TokensOk(m.sh) && BaseOk(m.sh, t, m.pc)
  {
    if StepPost(sh, t, pc, now, l).Some? {
      PostBase(sh, t, pc, now, l);
    } else if StepAwait(sh, t, pc).Some? {
      AwaitBase(sh, t, pc);
    } else if StepReply(sh, t, pc).Some? {
      ReplyBase(sh, t, pc);
    } else if StepStart(sh, pc, l).Some? {
      StartBase(sh, t, pc, l);
    } else {
      StopBase(sh, t, pc, l);
    }
  }

  lemma PostNames(sh: Shared, t: Tid, pc: Pc, now: int, l: Lid)
    requires StepPost(sh, t, pc, now, l).Some?
    ensures NamesOnly(sh, t, StepPost(sh, t, pc, now, l).value.sh)
  {
  }

  lemma AwaitNames(sh: Shared, t: Tid, pc: Pc)
    requires StepAwait(sh, t, pc).Some?
    ensures NamesOnly(sh, t, StepAwait(sh, t, pc).value.sh)
  {
  }

  lemma ReplyNames(sh: Shared, t: Tid, pc: Pc)
    requires WaiterOk(sh, t, pc) && StepReply(sh, t, pc).Some?
    ensures NamesOnly(sh, t, StepReply(sh, t, pc).value.sh)
  {
  }

  lemma CallNames(sh: Shared, t: Tid, pc: Pc, now: int, l: Lid)
    requires WaiterOk(sh, t, pc) && StepCall(sh, t, pc, now, l).Some?
    ensures NamesOnly(sh, t, StepCall(sh, t, pc, now, l).value.sh)
  {
    if StepPost(sh, t, pc, now, l).Some? {
      PostNames(sh, t, pc, now, l);
    } else if StepAwait(sh, t, pc).Some? {
      AwaitNames(sh, t, pc);
    } else if StepReply(sh, t, pc).Some? {
      ReplyNames(sh, t, pc);
    } else {
      StartStopNames(sh, t, pc, l);
    }
  }

  lemma StartStopNames(sh: Shared, t: Tid, pc: Pc, l: Lid)
    ensures StepStart(sh, pc, l).Some? ==> NamesOnly(sh, t, StepStart(sh, pc, l).value.sh)
    ensures StepStop(sh, t, pc, l).Some? ==> NamesOnly(sh, t, StepStop(sh, t, pc, l).value.sh)
  {
  }

  lemma CallSpares(sh: Shared, t: Tid, pc: Pc, now: int, l: Lid, u: Tid, pcu: Pc)
    requires TokensOk(sh) && BaseOk(sh, t, pc) && StepCall(sh, t, pc, now, l).Some?
    requires t != u && BaseOk(sh, u, pcu)
    ensures var m := StepCall(sh, t, pc, now, l).value; BaseOk(m.sh, u, AfterBroadcast(pcu, m.broadcast))
  {
    if StepPost(sh, t, pc, now, l).Some? {
      PostSpares(sh, t, pc, now, l, u, pcu);
    } else if StepAwait(sh, t, pc).Some? {
      AwaitSpares(sh, t, pc, u, pcu);
    } else if StepReply(sh, t, pc).Some? {
      ReplySpares(sh, t, pc, u, pcu);
    } else if StepStart(sh, pc, l).Some? {
      StartSpares(sh, t, pc, l, u, pcu);
    } else {
      StopSpares(sh, t, pc, l, u, pcu);
    }
  }

  lemma BaseProceed(s: State, t: Tid, now: int, l: Lid)
    requires BaseInv(s) && Step(s, Proceed(t, now, l)).Some?
    ensures BaseInv(Step(s, Proceed(t, now, l)).value)
  {
    var s' := Step(s, Proceed(t, now, l)).value;
    CallBase(s.sh, t, s.calls[t], now, l);
    CallNames(s.sh, t, s.calls[t], now, l);
    forall u | u in s'.calls ensures BaseOk(s'.sh, u, s'.calls[u]) {
      if u != t {
        CallSpares(s.sh, t, s.calls[t], now, l, u, s.calls[u]);
      }
    }
  }

  // A looper's step moves only itself, and neither blocks nor touches the queue while a call
  // holds mLock.
  ghost predicate OnlyLooper(sh: Shared, l: Lid, sh': Shared)
    requires l in sh.loopers
  {
    && sh'.lock == sh.lock && sh'.rlock == sh.rlock && sh'.notifying == sh.notifying
    && sh'.toSignal == sh.toSignal && sh'.toBroadcast == sh.toBroadcast
    && sh'.tokens == sh.tokens && sh'.accepted == sh.accepted && sh'.repliers == sh.repliers
    && sh'.posted == sh.posted && sh'.posters == sh.posters
    && sh'.thread == sh.thread && sh'.local == sh.local
    && (sh.lock.Some? ==> sh'.queue == sh.queue)
    && l in sh'.loopers && sh'.loopers == sh.loopers[l := sh.loopers[l].(pc := sh'.loopers[l].pc)]
    && (sh'.loopers[l].pc.LoopBlocked? ==> sh.lock.None?)
  }

  lemma GotoMoves(sh: Shared, l: Lid, pc: LoopPc)
    requires l in sh.loopers && (pc.LoopBlocked? ==> sh.lock.None?)
    ensures OnlyLooper(sh, l, LoopGoto(sh, l, pc))
  {
  }

  lemma TakeMoves(sh: Shared, l: Lid, now: int)
    requires l in sh.loopers && sh.lock.None? && sh.queue != []
    ensures OnlyLooper(sh, l, LoopGoto(sh.(queue := sh.queue[1..], taken := sh.taken + [Taken(sh.queue[0], now)]), l,
                                       LoopDeliver(sh.queue[0])))
  {
  }

  lemma EnterMoves(sh: Shared, l: Lid, now: int)
    requires l in sh.loopers && sh.loopers[l].pc == LoopEnter && StepLoop(sh, l, now).Some?
    ensures OnlyLooper(sh, l, StepLoop(sh, l, now).value)
  {
    if sh.thread.None? && !sh.local {
      GotoMoves(sh, l, LoopExited);
    } else if sh.queue == [] {
      GotoMoves(sh, l, LoopBlocked(None));
    } else if sh.queue[0].when > now {
      GotoMoves(sh, l, LoopBlocked(Some(sh.queue[0].when)));
    } else {
      TakeMoves(sh, l, now);
    }
  }

  lemma LoopMoves(sh: Shared, l: Lid, now: int)
    requires l in sh.loopers && StepLoop(sh, l, now).Some?
    ensures OnlyLooper(sh, l, StepLoop(sh, l, now).value)
  {
    match sh.loopers[l].pc
    case LoopTop => GotoMoves(sh, l, if sh.loopers[l].exiting then LoopExited else LoopEnter);
    case LoopEnter => EnterMoves(sh, l, now);
    case _ => GotoMoves(sh, l, LoopTop);
  }

  lemma LooperSpares(sh: Shared, l: Lid, sh': Shared, u: Tid, pcu: Pc)
    requires l in sh.loopers && OnlyLooper(sh, l, sh') && BaseOk(sh, u, pcu)
    ensures BaseOk(sh', u, pcu)
    ensures VictimOk(sh, pcu) && (Blocked(sh', l) ==> !sh.loopers[l].exiting) ==> VictimOk(sh', pcu)
  {
  }

  lemma BaseLooper(s: State, l: Lid, sh': Shared)
    requires BaseInv(s) && l in s.sh.loopers && OnlyLooper(s.sh, l, sh')
    ensures BaseInv(s.(sh := sh'))
  {
  }

  lemma BeginTokens(sh: Shared, t: Tid, pc: Pc)
    requires TokensOk(sh) && t !in sh.tokens
    ensures TokensOk(Begin(sh, t, pc))
  {
  }

  lemma BeginBase(sh: Shared, t: Tid, pc: Pc)
    requires TokensOk(sh) && t !in sh.tokens && Begins(sh, pc)
    requires sh.lock != Some(t) && sh.rlock != Some(t) && sh.notifying != Some(t)
    requires t !in sh.toSignal && t !in sh.toBroadcast
    ensures TokensOk(Begin(sh, t, pc)) && BaseOk(Begin(sh, t, pc), t, pc)
  {
    BeginTokens(sh, t, pc);
  }

  lemma BeginSpares(sh: Shared, t: Tid, pc: Pc, u: Tid, pcu: Pc)
    requires t !in sh.tokens && u != t && BaseOk(sh, u, pcu)
    ensures BaseOk(Begin(sh, t, pc), u, pcu)
    ensures VictimOk(sh, pcu) ==> VictimOk(Begin(sh, t, pc), pcu)
  {
  }

  lemma BaseCall(s: State, t: Tid, pc: Pc)
    requires BaseInv(s) && Step(s, Call(t, pc)).Some?
    ensures BaseInv(Step(s, Call(t, pc)).value)
  {
    BeginBase(s.sh, t, pc);
    forall u | u in s.calls ensures BaseOk(Begin(s.sh, t, pc), u, s.calls[u]) {
      BeginSpares(s.sh, t, pc, u, s.calls[u]);
    }
  }

  lemma BaseStep(s: State, a: Action)
    requires BaseInv(s) && Step(s, a).Some?
    ensures BaseInv(Step(s, a).value)
  {
    match a
    case Call(t, pc) => BaseCall(s, t, pc);
    case Proceed(t, now, l) => BaseProceed(s, t, now, l);
    case Loop(l, now) =>
      LoopMoves(s.sh, l, now);
      BaseLooper(s, l, StepLoop(s.sh, l, now).value);
    case Timeout(l) =>
      WakeMoves(s.sh, l);
      BaseLooper(s, l, LoopGoto(s.sh, l, LoopWoken));
    case Spurious(t) =>
      assert BaseOk(s.sh, t, AwaitBlocked);
      assert BaseOk(s.sh, t, AwaitWoken);
  }

  lemma WakeMoves(sh: Shared, l: Lid)
    requires l in sh.loopers
    ensures OnlyLooper(sh, l, LoopGoto(sh, l, LoopWoken))
  {
  }

  // The same for the conditions on loopers.  Waiting and replying do not touch them.

  lemma PostVictim(sh: Shared, t: Tid, pc: Pc, now: int, l: Lid)
    requires LoopersOk(sh) && VictimOk(sh, pc) && StepPost(sh, t, pc, now, l).Some?
    ensures var m := StepPost(sh, t, pc, now, l).value; VictimOk(m.sh, m.pc)
  {
  }

  lemma PostLoopers(sh: Shared, t: Tid, pc: Pc, now: int, l: Lid)
    requires LoopersOk(sh) && BaseOk(sh, t, pc) && VictimOk(sh, pc) && StepPost(sh, t, pc, now, l).Some?
    ensures var m := StepPost(sh, t, pc, now, l).value; LoopersOk(m.sh) && VictimOk(m.sh, m.pc)
  {
    PostVictim(sh, t, pc, now, l);
  }

  lemma PostSparesVictim(sh: Shared, t: Tid, pc: Pc, now: int, l: Lid, u: Tid, pcu: Pc)
    requires LoopersOk(sh) && BaseOk(sh, t, pc) && VictimOk(sh, pc) && StepPost(sh, t, pc, now, l).Some?
    requires t != u && BaseOk(sh, u, pcu) && VictimOk(sh, pcu)
    ensures var m := StepPost(sh, t, pc, now, l).value; VictimOk(m.sh, AfterBroadcast(pcu, m.broadcast))
  {
  }

  lemma StartLoopers(sh: Shared, t: Tid, pc: Pc, l: Lid)
    requires LoopersOk(sh) && BaseOk(sh, t, pc) && VictimOk(sh, pc) && StepStart(sh, pc, l).Some?
    requires sh.thread.None? && !sh.local ==> AllDoomed(sh)
    ensures var m := StepStart(sh, pc, l).value; LoopersOk(m.sh) && VictimOk(m.sh, m.pc)
  {
  }

  lemma StartSparesVictim(sh: Shared, t: Tid, pc: Pc, l: Lid, u: Tid, pcu: Pc)
    requires LoopersOk(sh) && BaseOk(sh, t, pc) && VictimOk(sh, pc) && StepStart(sh, pc, l).Some?
    requires sh.thread.None? && !sh.local ==> AllDoomed(sh)
    requires t != u && BaseOk(sh, u, pcu) && VictimOk(sh, pcu)
    ensures var m := StepStart(sh, pc, l).value; VictimOk(m.sh, AfterBroadcast(pcu, m.broadcast))
  {
  }

  lemma SignalWakes(sh: Shared, l: Lid)
    requires LoopersOk(sh) && Signal(sh, l).Some?
    ensures LoopersOk(Signal(sh, l).value) && NoneBlocked(Signal(sh, l).value)
  {
  }

  lemma ExitLoopers(sh: Shared, l: Lid)
    requires LoopersOk(sh) && l in sh.loopers && sh.thread != Some(l) && !sh.loopers[l].local
    ensures LoopersOk(sh.(loopers := sh.loopers[l := sh.loopers[l].(exiting := true)]))
  {
  }

  lemma StopLoopers(sh: Shared, t: Tid, pc: Pc, l: Lid)
    requires LoopersOk(sh) && VictimOk(sh, pc) && StepStop(sh, t, pc, l).Some?
    ensures LoopersOk(StepStop(sh, t, pc, l).value.sh)
  {
    if pc.StopExit? && pc.victim.Some? {
      ExitLoopers(sh, pc.victim.value);
    } else if pc.StopSignal? {
      SignalWakes(sh, l);
    }
  }

  lemma StopVictim(sh: Shared, t: Tid, pc: Pc, l: Lid)
    requires LoopersOk(sh) && VictimOk(sh, pc) && StepStop(sh, t, pc, l).Some?
    ensures var m := StepStop(sh, t, pc, l).value; VictimOk(m.sh, m.pc)
  {
  }

  // No looper starts to wait, none is un-told to exit, and mThread is at most cleared.
  ghost predicate VictimsStay(sh: Shared, sh': Shared) {
    && (sh'.thread == sh.thread || sh'.thread.None?) && sh'.queue == sh.queue
    && forall k :: k in sh.loopers ==>
         && k in sh'.loopers && (Blocked(sh', k) ==> Blocked(sh, k)) && sh'.loopers[k].local == sh.loopers[k].local
         && (sh.loopers[k].exiting ==> sh'.loopers[k].exiting)
  }

  lemma StopVictimsStay(sh: Shared, t: Tid, pc: Pc, l: Lid)
    requires StepStop(sh, t, pc, l).Some?
    ensures var sh' := StepStop(sh, t, pc, l).value.sh; VictimsStay(sh, sh') && sh'.loopers.Keys == sh.loopers.Keys
  {
  }

  lemma StopSparesVictim(sh: Shared, t: Tid, pc: Pc, l: Lid, u: Tid, pcu: Pc)
    requires LoopersOk(sh) && BaseOk(sh, t, pc) && VictimOk(sh, pc) && StepStop(sh, t, pc, l).Some?
    requires t != u && BaseOk(sh, u, pcu) && VictimOk(sh, pcu)
    ensures var m := StepStop(sh, t, pc, l).value; VictimOk(m.sh, AfterBroadcast(pcu, m.broadcast))
  {
    StopVictimsStay(sh, t, pc, l);
  }

  // Nothing that the conditions on loopers depend on changed.
  ghost predicate SameLoopers(sh: Shared, sh': Shared) {
    && sh'.loopers == sh.loopers && sh'.thread == sh.thread && sh'.local == sh.local
    && sh'.queue == sh.queue && sh'.toSignal == sh.toSignal
  }

  lemma SameLoopersOk(sh: Shared, sh': Shared)
    requires SameLoopers(sh, sh')
    ensures LoopersOk(sh) ==> LoopersOk(sh')
    ensures forall pc :: VictimOk(sh, pc) ==> VictimOk(sh', pc)
  {
  }

  lemma AwaitIsApart(sh: Shared, t: Tid, pc: Pc)
    requires StepAwait(sh, t, pc).Some?
    ensures var m := StepAwait(sh, t, pc).value;
            SameLoopers(sh, m.sh) && !m.broadcast && forall sh' :: VictimOk(sh', m.pc)
  {
  }

  lemma ReplyIsApart(sh: Shared, t: Tid, pc: Pc)
    requires StepReply(sh, t, pc).Some?
    ensures var m := StepReply(sh, t, pc).value; SameLoopers(sh, m.sh) && forall sh' :: VictimOk(sh', m.pc)
  {
  }

  lemma AwaitLoopers(sh: Shared, t: Tid, pc: Pc)
    requires LoopersOk(sh) && StepAwait(sh, t, pc).Some?
    ensures var m := StepAwait(sh, t, pc).value; LoopersOk(m.sh) && VictimOk(m.sh, m.pc)
  {
    AwaitIsApart(sh, t, pc);
    SameLoopersOk(sh, StepAwait(sh, t, pc).value.sh);
  }

  lemma ReplyLoopers(sh: Shared, t: Tid, pc: Pc)
    requires LoopersOk(sh) && StepReply(sh, t, pc).Some?
    ensures var m := StepReply(sh, t, pc).value; LoopersOk(m.sh) && VictimOk(m.sh, m.pc)
  {
    ReplyIsApart(sh, t, pc);
    SameLoopersOk(sh, StepReply(sh, t, pc).value.sh);
  }

  lemma AwaitSparesVictim(sh: Shared, t: Tid, pc: Pc, pcu: Pc)
    requires VictimOk(sh, pcu) && StepAwait(sh, t, pc).Some?
    ensures var m := StepAwait(sh, t, pc).value; VictimOk(m.sh, AfterBroadcast(pcu, m.broadcast))
  {
    AwaitIsApart(sh, t, pc);
    SameLoopersOk(sh, StepAwait(sh, t, pc).value.sh);
  }

  lemma ReplySparesVictim(sh: Shared, t: Tid, pc: Pc, pcu: Pc)
    requires VictimOk(sh, pcu) && StepReply(sh, t, pc).Some?
    ensures var m := StepReply(sh, t, pc).value; VictimOk(m.sh, AfterBroadcast(pcu, m.broadcast))
  {
    ReplyIsApart(sh, t, pc);
    SameLoopersOk(sh, StepReply(sh, t, pc).value.sh);
  }

  lemma CallLoopers(sh: Shared, t: Tid, pc: Pc, now: int, l: Lid)
    requires LoopersOk(sh) && BaseOk(sh, t, pc) && VictimOk(sh, pc) && StepCall(sh, t, pc, now, l).Some?
    requires pc.StartWant? && sh.thread.None? && !sh.local ==> AllDoomed(sh)
    ensures var m := StepCall(sh, t, pc, now, l).value; LoopersOk(m.sh) && VictimOk(m.sh, m.pc)
  {
    if StepPost(sh, t, pc, now, l).Some? {
      PostLoopers(sh, t, pc, now, l);
    } else if StepAwait(sh, t, pc).Some? {
      AwaitLoopers(sh, t, pc);
    } else if StepReply(sh, t, pc).Some? {
      ReplyLoopers(sh, t, pc);
    } else if StepStart(sh, pc, l).Some? {
      StartLoopers(sh, t, pc, l);
    } else {
      StopLoopers(sh, t, pc, l);
      StopVictim(sh, t, pc, l);
    }
  }

  lemma CallSparesVictim(sh: Shared, t: Tid, pc: Pc, now: int, l: Lid, u: Tid, pcu: Pc)
    requires LoopersOk(sh) && BaseOk(sh, t, pc) && VictimOk(sh, pc) && StepCall(sh, t, pc, now, l).Some?
    requires pc.StartWant? && sh.thread.None? && !sh.local ==> AllDoomed(sh)
    requires t != u && BaseOk(sh, u, pcu) && VictimOk(sh, pcu)
    ensures var m := StepCall(sh, t, pc, now, l).value; VictimOk(m.sh, AfterBroadcast(pcu, m.broadcast))
  {
    if StepPost(sh, t, pc, now, l).Some? {
      PostSparesVictim(sh, t, pc, now, l, u, pcu);
    } else if StepAwait(sh, t, pc).Some? {
      AwaitSparesVictim(sh, t, pc, pcu);
    } else if StepReply(sh, t, pc).Some? {
      ReplySparesVictim(sh, t, pc, pcu);
    } else if StepStart(sh, pc, l).Some? {
      StartSparesVictim(sh, t, pc, l, u, pcu);
    } else {
      StopSparesVictim(sh, t, pc, l, u, pcu);
    }
  }

  lemma InvProceed(s: State, t: Tid, now: int, l: Lid)
    requires Inv(s) && Step(s, Proceed(t, now, l)).Some? && !Overlaps(s, Proceed(t, now, l))
    ensures Inv(Step(s, Proceed(t, now, l)).value)
  {
    var s' := Step(s, Proceed(t, now, l)).value;
    BaseProceed(s, t, now, l);
    CallLoopers(s.sh, t, s.calls[t], now, l);
    forall u | u in s'.calls ensures VictimOk(s'.sh, s'.calls[u]) {
      if u != t {
        CallSparesVictim(s.sh, t, s.calls[t], now, l, u, s.calls[u]);
      }
    }
  }

  // Moving one looper keeps the conditions if it keeps its own, does not come back to life, and
  // only changes the queue while no other one can be blocked.
  lemma OneMoves(sh: Shared, l: Lid, sh': Shared)
    requires LoopersOk(sh) && l in sh.loopers && OnlyLooper(sh, l, sh')
    requires LooperOk(sh', l) && (Doomed(sh.loopers[l]) ==> Doomed(sh'.loopers[l]) && sh'.queue == sh.queue)
    requires sh.thread == Some(l) ==> sh'.loopers[l].pc != LoopExited
    ensures LoopersOk(sh')
  {
    forall k | k in sh'.loopers ensures LooperOk(sh', k) {
      if k != l {
        assert LooperOk(sh, k);
      }
    }
  }

  lemma LoopOwn(sh: Shared, l: Lid, now: int)
    requires LoopersOk(sh) && l in sh.loopers && StepLoop(sh, l, now).Some?
    ensures var sh' := StepLoop(sh, l, now).value;
            && l in sh'.loopers && LooperOk(sh', l)
            && (Doomed(sh.loopers[l]) ==> Doomed(sh'.loopers[l]) && sh'.queue == sh.queue)
            && (sh.thread == Some(l) ==> sh'.loopers[l].pc != LoopExited)
            && (Blocked(sh', l) ==> !sh.loopers[l].exiting)
  {
    assert LooperOk(sh, l);
  }

  lemma LoopLoopers(sh: Shared, l: Lid, now: int)
    requires LoopersOk(sh) && l in sh.loopers && StepLoop(sh, l, now).Some?
    ensures LoopersOk(StepLoop(sh, l, now).value)
    ensures Blocked(StepLoop(sh, l, now).value, l) ==> !sh.loopers[l].exiting
  {
    LoopMoves(sh, l, now);
    LoopOwn(sh, l, now);
    OneMoves(sh, l, StepLoop(sh, l, now).value);
  }

  lemma WakeLoopers(sh: Shared, l: Lid)
    requires LoopersOk(sh) && Blocked(sh, l)
    ensures LoopersOk(LoopGoto(sh, l, LoopWoken))
  {
  }

  lemma InvLooper(s: State, l: Lid, sh': Shared)
    requires Inv(s) && l in s.sh.loopers && OnlyLooper(s.sh, l, sh') && LoopersOk(sh')
    requires Blocked(sh', l) ==> !s.sh.loopers[l].exiting
    ensures Inv(s.(sh := sh'))
  {
    BaseLooper(s, l, sh');
    forall u | u in s.calls ensures VictimOk(sh', s.calls[u]) {
      LooperSpares(s.sh, l, sh', u, s.calls[u]);
    }
  }

  lemma InvCall(s: State, t: Tid, pc: Pc)
    requires Inv(s) && Step(s, Call(t, pc)).Some?
    ensures Inv(Step(s, Call(t, pc)).value)
  {
    var s' := Step(s, Call(t, pc)).value;
    BaseCall(s, t, pc);
    forall u | u in s.calls ensures VictimOk(s'.sh, s.calls[u]) {
      BeginSpares(s.sh, t, pc, u, s.calls[u]);
    }
  }

  lemma InvStep(s: State, a: Action)
    requires Inv(s) && Step(s, a).Some? && !Overlaps(s, a)
    ensures Inv(Step(s, a).value)
  {
    match a
    case Call(t, pc) => InvCall(s, t, pc);
    case Proceed(t, now, l) => InvProceed(s, t, now, l);
    case Loop(l, now) =>
      LoopMoves(s.sh, l, now);
      LoopLoopers(s.sh, l, now);
      InvLooper(s, l, StepLoop(s.sh, l, now).value);
    case Timeout(l) =>
      WakeMoves(s.sh, l);
      WakeLoopers(s.sh, l);
      InvLooper(s, l, LoopGoto(s.sh, l, LoopWoken));
    case Spurious(t) =>
      BaseStep(s, a);
  }

  // Only an insertion and a removal touch the queue and its history.
  predicate SameQueue(sh: Shared, sh': Shared) {
    sh'.posted == sh.posted && sh'.posters == sh.posters && sh'.queue == sh.queue && sh'.taken == sh.taken
  }

  lemma AwaitQueue(sh: Shared, t: Tid, pc: Pc)
    requires StepAwait(sh, t, pc).Some?
    ensures SameQueue(sh, StepAwait(sh, t, pc).value.sh)
  {
  }

  lemma ReplyQueue(sh: Shared, t: Tid, pc: Pc)
    requires StepReply(sh, t, pc).Some?
    ensures SameQueue(sh, StepReply(sh, t, pc).value.sh)
  {
  }

  lemma StopQueue(sh: Shared, t: Tid, pc: Pc, l: Lid)
    requires StepStop(sh, t, pc, l).Some?
    ensures SameQueue(sh, StepStop(sh, t, pc, l).value.sh)
  {
  }

  lemma CallQueues(sh: Shared, t: Tid, pc: Pc, now: int, l: Lid)
    requires StepCall(sh, t, pc, now, l).Some?
    ensures var sh' := StepCall(sh, t, pc, now, l).value.sh;
            if pc.PostReady? then
              var e := Event(pc.when, |sh.posted|);
              && sh'.posted == sh.posted + [e] && sh'.posters == sh.posters + [t]
              && sh'.queue == InsertByTime(sh.queue, e) && sh'.taken == sh.taken
            else SameQueue(sh, sh')
  {
    if StepPost(sh, t, pc, now, l).Some? {
    } else if StepAwait(sh, t, pc).Some? {
      AwaitQueue(sh, t, pc);
    } else if StepReply(sh, t, pc).Some? {
      ReplyQueue(sh, t, pc);
    } else if StepStop(sh, t, pc, l).Some? {
      StopQueue(sh, t, pc, l);
    }
  }

  lemma LoopQueues(sh: Shared, l: Lid, now: int)
    requires l in sh.loopers && StepLoop(sh, l, now).Some?
    ensures var sh' := StepLoop(sh, l, now).value;
            && sh'.posted == sh.posted
            && ((sh'.queue == sh.queue && sh'.taken == sh.taken)
                || (sh.queue != [] && sh.queue[0].when <= now
                    && sh'.queue == sh.queue[1..] && sh'.taken == sh.taken + [Taken(sh.queue[0], now)]))
  {
  }

  lemma TimedStep(s: State, a: Action)
    requires TimedInv(s.sh.posted, s.sh.queue, s.sh.taken) && Step(s, a).Some?
    ensures var sh' := Step(s, a).value.sh; TimedInv(sh'.posted, sh'.queue, sh'.taken)
  {
    match a
    case Proceed(t, now, l) =>
      CallQueues(s.sh, t, s.calls[t], now, l);
      if s.calls[t].PostReady? {
        PostKeeps(s.sh.posted, s.sh.queue, s.sh.taken, s.calls[t].when);
      }
    case Loop(l, now) =>
      LoopQueues(s.sh, l, now);
      if s.sh.queue != [] && s.sh.queue[0].when <= now {
        TakeKeeps(s.sh.posted, s.sh.queue, s.sh.taken, now);
      }
    case _ =>
  }

  lemma {:induction false} BaseRun(run: seq<Action>, overlap: bool)
    requires Run(run, overlap).Some?
    ensures BaseInv(Run(run, overlap).value)
  {
    if run == [] {
    } else {
      BaseRun(run[..|run| - 1], overlap);
      BaseStep(Run(run[..|run| - 1], overlap).value, run[|run| - 1]);
    }
  }

  lemma {:induction false} InvRun(run: seq<Action>)
    requires Run(run, false).Some?
    ensures Inv(Run(run, false).value)
  {
    if run == [] {
    } else {
      InvRun(run[..|run| - 1]);
      InvStep(Run(run[..|run| - 1], false).value, run[|run| - 1]);
    }
  }

  lemma {:induction false} TimedRun(run: seq<Action>, overlap: bool)
    requires Run(run, overlap).Some?
    ensures var sh := Run(run, overlap).value.sh; TimedInv(sh.posted, sh.queue, sh.taken)
  {
    if run == [] {
    } else {
      TimedRun(run[..|run| - 1], overlap);
      TimedStep(Run(run[..|run| - 1], overlap).value, run[|run| - 1]);
    }
  }
}
