// What the callers of the looper are promised: when their messages are due, and what the result of
// a call says, over all runs.
module LooperResults {
  import opened Wrappers
  import opened TimedQueue
  import opened LooperProtocol
  import opened LooperSafety

  // How a call was made, the clock reading of a post, and what mThread was when a stop cleared it.
  datatype Past = Past(began: Option<Pc>, reading: Option<int>, cleared: Option<Lid>)

  function After(p: Past, s: State, a: Action, t: Tid): Past {
    match a
    case Call(u, pc) => if u == t then p.(began := Some(pc)) else p
    case Proceed(u, now, _) =>
      if u != t || t !in s.calls then p
      else if s.calls[t].PostHave? then p.(reading := Some(now))
      else if s.calls[t].StopWant? then p.(cleared := s.sh.thread)
      else p
    case _ => p
  }

  function PastOf(run: seq<Action>, overlap: bool, t: Tid): Past {
    if run == [] then Past(None, None, None)
    else
      var front := run[..|run| - 1];
      var p, s := PastOf(front, overlap, t), Run(front, overlap);
      if s.None? then p else After(p, s.value, run[|run| - 1], t)
  }

  // Not before the delay asked for has passed since the clock was read, and no later.
  predicate DueAsAsked(p: Past, when: int) {
    && p.began.Some? && p.began.value.PostWant? && p.reading.Some?
    && when == p.reading.value + if p.began.value.delay > 0 then p.began.value.delay else 0
  }

  predicate Posting(pc: Pc) {
    pc.PostWant? || pc.PostHave? || pc.PostTimed? || pc.PostReady?
  }

  // The reply was retrieved, and cannot be set again.
  predicate Retrieved(sh: Shared, token: Tid) {
    token in sh.tokens && sh.tokens[token] == Token(true, None)
  }

  // Where a call is that began as post: its message is posted once it is past that.
  predicate PostGoes(sh: Shared, t: Tid, p: Past, delay: int, wait: bool, pc: Pc) {
    && (t in sh.posters <==> !Posting(pc))
    && (pc.PostWant? || pc.PostHave? ==> pc.delay == delay && pc.wait == wait)
    && (pc.PostTimed? || pc.PostReady? ==> DueAsAsked(p, pc.when) && pc.wait == wait)
    && (!Posting(pc) && !wait ==> pc == Done(Posted))
    && (!Posting(pc) && wait ==> Waiting(pc) || (pc.Done? && (pc.result.Answer? || pc.result == NoEntity)))
    && (pc.Done? && pc.result.Answer? ==> Retrieved(sh, t))
  }

  predicate RepliedBy(sh: Shared, token: Tid, t: Tid) {
    token in sh.repliers && sh.repliers[token] == t
  }

  // One that began as postReply: it has returned OK or is about to exactly if its reply is the one.
  predicate ReplyGoes(sh: Shared, t: Tid, token: Tid, msg: Msg, pc: Pc) {
    && (pc == ReplyWant(token, msg) || pc == ReplyHave(token, msg) || pc == ReplyNotify
        || pc == Done(Posted) || pc == Done(Busy))
    && (RepliedBy(sh, token, t) <==> pc == ReplyNotify || pc == Done(Posted))
    && (RepliedBy(sh, token, t) ==> token in sh.accepted && sh.accepted[token] == msg)
    && (pc == Done(Busy) ==> token in sh.repliers)
  }

  predicate Exited(sh: Shared, l: Lid) {
    l in sh.loopers && sh.loopers[l].pc == LoopExited
  }

  // One that began as stop: it returns once the looper has exited, or at once on that looper itself.
  predicate StopGoes(sh: Shared, p: Past, own: bool, pc: Pc) {
    || pc == StopWant(own) || pc == Done(Invalid)
    || ((pc.StopExit? || pc.StopSignal? || pc.StopWantR? || pc.StopHaveR?) && pc.own == own && pc.victim == p.cleared)
    || (pc.StopJoin? && !own && p.cleared == Some(pc.exited))
    || (pc == Done(Stopped) && (own || p.cleared.None? || Exited(sh, p.cleared.value)))
  }

  predicate Goes(sh: Shared, t: Tid, p: Past, pc: Pc) {
    && p.began.Some?
    && match p.began.value
       case PostWant(delay, wait) => PostGoes(sh, t, p, delay, wait, pc)
       case ReplyWant(token, msg) => ReplyGoes(sh, t, token, msg, pc)
       case StartWant(runLocally) => pc == StartWant(runLocally) || pc == Done(Started) || pc == Done(Invalid)
       case StopWant(own) => StopGoes(sh, p, own, pc)
       case _ => false
  }

  // What holds of a call t that was made, or may still be.
  ghost predicate CallInv(s: State, t: Tid, p: Past) {
    if t in s.calls then Goes(s.sh, t, p, s.calls[t])
    else p == Past(None, None, None) && t !in s.sh.posters && forall k :: !RepliedBy(s.sh, k, t)
  }

  predicate SharedInv(sh: Shared) {
    && |sh.posters| == |sh.posted| && sh.repliers.Keys == sh.accepted.Keys
    && (sh.local ==> sh.thread.None?)
  }

  // A step of t forgets nothing, and what it adds to the history is its own.
  ghost predicate Adds(sh: Shared, t: Tid, sh': Shared) {
    && (sh'.posters == sh.posters || sh'.posters == sh.posters + [t])
    && (forall k :: k in sh.accepted ==> k in sh'.accepted && sh'.accepted[k] == sh.accepted[k])
    && (forall k :: k in sh.repliers ==> k in sh'.repliers && sh'.repliers[k] == sh.repliers[k])
    && (forall k :: k in sh'.repliers && k !in sh.repliers ==> sh'.repliers[k] == t)
    && (forall k :: Retrieved(sh, k) ==> Retrieved(sh', k))
    && (forall l :: Exited(sh, l) ==> Exited(sh', l))
  }

  lemma PostTells(sh: Shared, t: Tid, pc: Pc, now: int, l: Lid)
    requires SharedInv(sh) && StepPost(sh, t, pc, now, l).Some?
    ensures var sh' := StepPost(sh, t, pc, now, l).value.sh; SharedInv(sh') && Adds(sh, t, sh')
  {
  }

  lemma AwaitTells(sh: Shared, t: Tid, pc: Pc)
    requires SharedInv(sh) && StepAwait(sh, t, pc).Some?
    ensures var sh' := StepAwait(sh, t, pc).value.sh; SharedInv(sh') && Adds(sh, t, sh')
  {
  }

  lemma ReplyTells(sh: Shared, t: Tid, pc: Pc)
    requires TokensOk(sh) && SharedInv(sh) && StepReply(sh, t, pc).Some?
    ensures var sh' := StepReply(sh, t, pc).value.sh; SharedInv(sh') && Adds(sh, t, sh')
  {
  }

  lemma StartTells(sh: Shared, t: Tid, pc: Pc, l: Lid)
    requires SharedInv(sh) && StepStart(sh, pc, l).Some?
    ensures var sh' := StepStart(sh, pc, l).value.sh; SharedInv(sh') && Adds(sh, t, sh')
  {
  }

  lemma StopTells(sh: Shared, t: Tid, pc: Pc, l: Lid)
    requires SharedInv(sh) && StepStop(sh, t, pc, l).Some?
    ensures var sh' := StepStop(sh, t, pc, l).value.sh; SharedInv(sh') && Adds(sh, t, sh')
  {
  }

  lemma CallTells(sh: Shared, t: Tid, pc: Pc, now: int, l: Lid)
    requires TokensOk(sh) && SharedInv(sh) && StepCall(sh, t, pc, now, l).Some?
    ensures var sh' := StepCall(sh, t, pc, now, l).value.sh; SharedInv(sh') && Adds(sh, t, sh')
  {
    if StepPost(sh, t, pc, now, l).Some? {
      PostTells(sh, t, pc, now, l);
    } else if StepAwait(sh, t, pc).Some? {
      AwaitTells(sh, t, pc);
    } else if StepReply(sh, t, pc).Some? {
      ReplyTells(sh, t, pc);
    } else if StepStart(sh, pc, l).Some? {
      StartTells(sh, t, pc, l);
    } else {
      StopTells(sh, t, pc, l);
    }
  }

  // A step of t itself, by what t is.
  lemma PostGoesOn(s: State, t: Tid, now: int, l: Lid, p: Past)
    requires t in s.calls && Goes(s.sh, t, p, s.calls[t]) && p.began.value.PostWant?
    requires StepCall(s.sh, t, s.calls[t], now, l).Some?
    ensures var m := StepCall(s.sh, t, s.calls[t], now, l).value;
            Goes(m.sh, t, After(p, s, Proceed(t, now, l), t), m.pc)
  {
  }

  lemma ReplyGoesOn(s: State, t: Tid, now: int, l: Lid, p: Past)
    requires TokensOk(s.sh) && SharedInv(s.sh)
    requires t in s.calls && Goes(s.sh, t, p, s.calls[t]) && p.began.value.ReplyWant?
    requires StepCall(s.sh, t, s.calls[t], now, l).Some?
    ensures var m := StepCall(s.sh, t, s.calls[t], now, l).value;
            Goes(m.sh, t, After(p, s, Proceed(t, now, l), t), m.pc)
  {
  }

  lemma StopGoesOn(s: State, t: Tid, now: int, l: Lid, p: Past)
    requires SharedInv(s.sh)
    requires t in s.calls && Goes(s.sh, t, p, s.calls[t]) && p.began.value.StopWant?
    requires StepCall(s.sh, t, s.calls[t], now, l).Some?
    ensures var m := StepCall(s.sh, t, s.calls[t], now, l).value;
            Goes(m.sh, t, After(p, s, Proceed(t, now, l), t), m.pc)
  {
  }

  lemma CallGoesOn(s: State, t: Tid, now: int, l: Lid, p: Past)
    requires TokensOk(s.sh) && SharedInv(s.sh)
    requires t in s.calls && Goes(s.sh, t, p, s.calls[t]) && Step(s, Proceed(t, now, l)).Some?
    ensures CallInv(Step(s, Proceed(t, now, l)).value, t, After(p, s, Proceed(t, now, l), t))
  {
    match p.began.value
    case PostWant(_, _) => PostGoesOn(s, t, now, l, p);
    case ReplyWant(_, _) => ReplyGoesOn(s, t, now, l, p);
    case StopWant(_) => StopGoesOn(s, t, now, l, p);
    case _ =>
  }

  // What others add to the history does not concern u.
  lemma GoesStays(sh: Shared, t: Tid, sh': Shared, u: Tid, p: Past, pc: Pc)
    requires Adds(sh, t, sh') && t != u && Goes(sh, u, p, pc)
    ensures Goes(sh', u, p, pc)
  {
    match p.began.value
    case ReplyWant(token, _) => assert RepliedBy(sh, token, u) <==> RepliedBy(sh', token, u);
    case _ =>
  }

  // A step of t leaves what holds of any other call u alone.
  lemma CallSpares(s: State, t: Tid, now: int, l: Lid, u: Tid, p: Past)
    requires TokensOk(s.sh) && SharedInv(s.sh) && Step(s, Proceed(t, now, l)).Some?
    requires t != u && CallInv(s, u, p)
    ensures CallInv(Step(s, Proceed(t, now, l)).value, u, p)
  {
    var s' := Step(s, Proceed(t, now, l)).value;
    CallTells(s.sh, t, s.calls[t], now, l);
    if u in s.calls {
      GoesStays(s.sh, t, s'.sh, u, p, s.calls[u]);
    } else {
      assert forall k :: RepliedBy(s'.sh, k, u) ==> RepliedBy(s.sh, k, u);
    }
  }

  // Nor does a step of a looper.
  lemma LooperTells(sh: Shared, l: Lid, sh': Shared, u: Tid, p: Past, pc: Pc)
    requires l in sh.loopers && sh.loopers[l].pc != LoopExited && OnlyLooper(sh, l, sh') && SharedInv(sh)
    ensures SharedInv(sh')
    ensures Goes(sh, u, p, pc) ==> Goes(sh', u, p, pc)
  {
  }

  lemma LooperGoesOn(s: State, l: Lid, sh': Shared, u: Tid, p: Past)
    requires l in s.sh.loopers && s.sh.loopers[l].pc != LoopExited && OnlyLooper(s.sh, l, sh') && SharedInv(s.sh)
    requires CallInv(s, u, p)
    ensures SharedInv(sh') && CallInv(s.(sh := sh'), u, p)
  {
    if u in s.calls {
      LooperTells(s.sh, l, sh', u, p, s.calls[u]);
    } else {
      LooperTells(s.sh, l, sh', u, p, AwaitWant);
      assert forall k :: RepliedBy(sh', k, u) ==> RepliedBy(s.sh, k, u);
    }
  }

  lemma BeginTells(s: State, t: Tid, pc: Pc, u: Tid, p: Past)
    requires SharedInv(s.sh) && CallInv(s, u, p) && Step(s, Call(t, pc)).Some?
    ensures var s' := Step(s, Call(t, pc)).value;
            SharedInv(s'.sh) && CallInv(s', u, if u == t then p.(began := Some(pc)) else p)
  {
    var s' := Step(s, Call(t, pc)).value;
    if u !in s.calls && u != t {
      assert forall k :: RepliedBy(s'.sh, k, u) ==> RepliedBy(s.sh, k, u);
    }
  }

  lemma StepInv(s: State, a: Action, t: Tid, p: Past)
    requires TokensOk(s.sh) && SharedInv(s.sh) && CallInv(s, t, p) && Step(s, a).Some?
    ensures SharedInv(Step(s, a).value.sh) && CallInv(Step(s, a).value, t, After(p, s, a, t))
  {
    match a
    case Call(u, pc) => BeginTells(s, u, pc, t, p);
    case Proceed(u, now, l) =>
      CallTells(s.sh, u, s.calls[u], now, l);
      if u == t {
        CallGoesOn(s, t, now, l, p);
      } else {
        CallSpares(s, u, now, l, t, p);
      }
    case Loop(l, now) =>
      LoopMoves(s.sh, l, now);
      LooperGoesOn(s, l, StepLoop(s.sh, l, now).value, t, p);
    case Timeout(l) =>
      WakeMoves(s.sh, l);
      LooperGoesOn(s, l, LoopGoto(s.sh, l, LoopWoken), t, p);
    case Spurious(u) =>
  }

  lemma {:induction false} CallRun(run: seq<Action>, overlap: bool, t: Tid)
    requires Run(run, overlap).Some?
    ensures var s := Run(run, overlap).value; SharedInv(s.sh) && CallInv(s, t, PastOf(run, overlap, t))
  {
    if run == [] {
    } else {
      var front := run[..|run| - 1];
      CallRun(front, overlap, t);
      BaseRun(front, overlap);
      StepInv(Run(front, overlap).value, run[|run| - 1], t, PastOf(front, overlap, t));
    }
  }

  lemma PostersGrow(s: State, a: Action)
    requires Step(s, a).Some?
    ensures var sh' := Step(s, a).value.sh;
            if a.Proceed? && s.calls[a.t].PostReady? then
              && sh'.posters == s.sh.posters + [a.t]
              && sh'.posted == s.sh.posted + [Event(s.calls[a.t].when, |s.sh.posted|)]
            else sh'.posters == s.sh.posters && sh'.posted == s.sh.posted
  {
    match a
    case Proceed(t, now, l) => CallQueues(s.sh, t, s.calls[t], now, l);
    case Loop(l, now) => LoopMoves(s.sh, l, now);
    case _ =>
  }

  // Every message is due as asked, was posted by one call, and that call posted nothing else.
  lemma {:induction false} PostedAsAsked(run: seq<Action>, overlap: bool, k: nat)
    requires Run(run, overlap).Some? && k < |Run(run, overlap).value.sh.posted|
    ensures var s := Run(run, overlap).value;
            && |s.sh.posters| == |s.sh.posted|
            && s.sh.posters[k] in s.calls
            && DueAsAsked(PastOf(run, overlap, s.sh.posters[k]), s.sh.posted[k].when)
            && (forall j :: 0 <= j < k ==> s.sh.posters[j] != s.sh.posters[k])
  {
    var front, a := run[..|run| - 1], run[|run| - 1];
    var s := Run(front, overlap).value;
    CallRun(front, overlap, 0);
    PostersGrow(s, a);
    if k < |s.sh.posted| {
      PostedAsAsked(front, overlap, k);
      CallRun(front, overlap, s.sh.posters[k]);
    } else {
      CallRun(front, overlap, a.t);
    }
  }

  // What a result says.  post and postReply return OK once the message is in the queue and the reply
  // is the accepted one; stop returns once the looper it cleared from mThread has exited, unless it
  // is called on that looper itself, where it never waits for it.
  lemma ReturnsMean(run: seq<Action>, overlap: bool, t: Tid)
    requires Run(run, overlap).Some? && t in Run(run, overlap).value.calls
    ensures var s, p := Run(run, overlap).value, PastOf(run, overlap, t);
            var pc := s.calls[t];
            && p.began.Some?
            && (pc.Done? ==>
                  match p.began.value
                  case PostWant(_, wait) =>
                    t in s.sh.posters
                    && if wait then (pc.result.Answer? && Retrieved(s.sh, t)) || pc.result == NoEntity
                       else pc.result == Posted
                  case ReplyWant(token, msg) =>
                    && (pc.result == Posted || pc.result == Busy)
                    && token in s.sh.repliers && (pc.result == Posted <==> s.sh.repliers[token] == t)
                    && (pc.result == Posted ==> token in s.sh.accepted && s.sh.accepted[token] == msg)
                  case StartWant(_) => pc.result == Started || pc.result == Invalid
                  case StopWant(own) =>
                    || pc.result == Invalid
                    || (pc.result == Stopped && (own || p.cleared.None? || Exited(s.sh, p.cleared.value)))
                  case _ => false)
            && (pc.StopJoin? ==> p.began == Some(StopWant(false)) && p.cleared == Some(pc.exited))
  {
    CallRun(run, overlap, t);
  }

  // Of the calls of postReply on one token only one returns OK.
  lemma OneReplier(run: seq<Action>, overlap: bool, t: Tid, u: Tid)
    requires Run(run, overlap).Some?
    requires var s := Run(run, overlap).value;
             t in s.calls && u in s.calls && s.calls[t] == s.calls[u] == Done(Posted)
    requires var b, c := PastOf(run, overlap, t).began, PastOf(run, overlap, u).began;
             b.Some? && c.Some? && b.value.ReplyWant? && c.value.ReplyWant? && b.value.token == c.value.token
    ensures t == u
  {
    CallRun(run, overlap, t);
    CallRun(run, overlap, u);
  }

  // When a call that finds the state sh is refused, and what a start creates.
  ghost predicate Refuses(sh: Shared, t: Tid, pc: Pc, l: Lid, m: Move) {
    && (m.pc == Done(NoEntity) <==> pc.AwaitLook? && sh.thread.None?)
    && (m.pc == Done(NoEntity) ==> t in sh.tokens && !sh.tokens[t].replied)
    && (m.pc == Done(Busy) <==> pc.ReplyHave? && pc.token in sh.accepted)
    && (m.pc == Done(Invalid) <==>
          if pc.StartWant? then sh.thread.Some? || sh.local else pc.StopWant? && sh.thread.None? && !sh.local)
    && (m.pc == Done(Busy) || m.pc == Done(Invalid) ==> m.sh == sh.(rlock := m.sh.rlock))
    && (m.pc == Done(Started) ==>
          pc.StartWant? && l !in sh.loopers && l in m.sh.loopers && Alive(m.sh, l)
          && m.sh.loopers[l] == Looper(LoopTop, false, pc.runLocally))
  }

  lemma PostIsTaken(sh: Shared, t: Tid, pc: Pc, now: int, l: Lid)
    requires StepPost(sh, t, pc, now, l).Some?
    ensures Refuses(sh, t, pc, l, StepPost(sh, t, pc, now, l).value)
  {
  }

  lemma AwaitRefused(sh: Shared, t: Tid, pc: Pc, l: Lid)
    requires WaiterOk(sh, t, pc) && StepAwait(sh, t, pc).Some?
    ensures Refuses(sh, t, pc, l, StepAwait(sh, t, pc).value)
  {
  }

  lemma ReplyRefused(sh: Shared, t: Tid, pc: Pc, l: Lid)
    requires TokensOk(sh) && StepReply(sh, t, pc).Some?
    ensures Refuses(sh, t, pc, l, StepReply(sh, t, pc).value)
  {
  }

  lemma StartRefused(sh: Shared, t: Tid, pc: Pc, l: Lid)
    requires StepStart(sh, pc, l).Some?
    ensures Refuses(sh, t, pc, l, StepStart(sh, pc, l).value)
  {
  }

  lemma StopRefused(sh: Shared, t: Tid, pc: Pc, l: Lid)
    requires StepStop(sh, t, pc, l).Some?
    ensures Refuses(sh, t, pc, l, StepStop(sh, t, pc, l).value)
  {
  }

  lemma RefusedIff(sh: Shared, t: Tid, pc: Pc, now: int, l: Lid)
    requires TokensOk(sh) && WaiterOk(sh, t, pc) && StepCall(sh, t, pc, now, l).Some?
    ensures Refuses(sh, t, pc, l, StepCall(sh, t, pc, now, l).value)
  {
    if StepPost(sh, t, pc, now, l).Some? {
      PostIsTaken(sh, t, pc, now, l);
    } else if StepAwait(sh, t, pc).Some? {
      AwaitRefused(sh, t, pc, l);
    } else if StepReply(sh, t, pc).Some? {
      ReplyRefused(sh, t, pc, l);
    } else if StepStart(sh, pc, l).Some? {
      StartRefused(sh, t, pc, l);
    } else {
      StopRefused(sh, t, pc, l);
    }
  }

  // The next n steps of awaitResponse, undisturbed.
  function Alone(sh: Shared, t: Tid, pc: Pc, n: nat): Option<Move>
    decreases n
  {
    if n == 0 then Some(Move(sh, pc, false))
    else
      var m := StepAwait(sh, t, pc);
      if m.None? then None else Alone(m.value.sh, t, m.value.pc, n - 1)
  }

  // A waiter that comes, or was woken, takes the reply if there is one, gives up if there is no
  // looper thread, and else sleeps, having changed nothing.
  lemma {:induction false} WaiterSleepsIff(sh: Shared, t: Tid, pc: Pc)
    requires (pc.AwaitWant? || pc.AwaitWoken?) && sh.lock.None? && sh.rlock.None? && t in sh.tokens
    ensures if sh.tokens[t].replied then
              Alone(sh, t, pc, 2) == Some(Move(sh.(tokens := sh.tokens[t := Token(true, None)]),
                                               Done(Answer(sh.tokens[t].reply)), false))
            else if sh.thread.None? then Alone(sh, t, pc, 4) == Some(Move(sh, Done(NoEntity), false))
            else Alone(sh, t, pc, 5) == Some(Move(sh, AwaitBlocked, false))
  {
    var m := sh.(rlock := Some(t));
    assert StepAwait(sh, t, pc) == Some(Move(m, AwaitCheck, false));
    if sh.tokens[t].replied {
      assert Alone(m, t, AwaitCheck, 1) == StepAwait(m, t, AwaitCheck);
    } else {
      var n := m.(lock := Some(t));
      assert Alone(n, t, AwaitLook, 1) == StepAwait(n, t, AwaitLook);
      assert Alone(m, t, AwaitWantLock, 2) == Alone(n, t, AwaitLook, 1);
      assert Alone(m, t, AwaitCheck, 3) == Alone(m, t, AwaitWantLock, 2);
      if sh.thread.Some? {
        assert Alone(m, t, AwaitWait, 1) == Some(Move(sh, AwaitBlocked, false));
        assert Alone(n, t, AwaitLook, 2) == Alone(m, t, AwaitWait, 1);
        assert Alone(m, t, AwaitCheck, 4) == Alone(m, t, AwaitWantLock, 3) == Alone(n, t, AwaitLook, 2);
      }
    }
  }

  // The current looper, about to look at the queue, takes the first event exactly if it is due, and
  // else waits until it is, or for the queue to change.
  lemma TakesIffDue(sh: Shared, l: Lid, now: int)
    requires l in sh.loopers && sh.loopers[l].pc == LoopEnter && sh.lock.None? && (sh.thread.Some? || sh.local)
    ensures StepLoop(sh, l, now).Some? && l in StepLoop(sh, l, now).value.loopers
    ensures var sh' := StepLoop(sh, l, now).value;
            var pc := sh'.loopers[l].pc;
            && (pc.LoopDeliver? <==> sh.queue != [] && sh.queue[0].when <= now)
            && (pc.LoopDeliver? ==>
                  sh.queue == [pc.e] + sh'.queue && sh'.taken == sh.taken + [Taken(pc.e, now)])
            && (!pc.LoopDeliver? ==>
                  && sh' == LoopGoto(sh, l, pc)
                  && pc == LoopBlocked(if sh.queue == [] then None else Some(sh.queue[0].when)))
  {
  }
}
