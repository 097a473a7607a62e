// The looper and reply protocol: TSPLooper::start, stop, post, loop, awaitResponse and postReply
// of utils/TSPLooper.cpp with the reply tokens of utils/TSPMessage.h, as a state machine.
//
// Calls made by other threads and the iterations of looper threads proceed by atomic steps.  A
// critical section is split wherever it acquires a second lock, waits, or wakes someone.  A
// condition variable is modelled by who is blocked on it: signal moves one blocked thread, if
// there is one, to where it wants the mutex back; broadcast moves all of them; and a wait may
// also end by itself.  Every clock reading is arbitrary.
module LooperProtocol {
  import opened Wrappers
  import opened TimedQueue

  type Tid = int      // a call in progress, and the reply token of a postAndAwaitResponse
  type Lid = int      // a looper thread
  type Msg = int

  datatype Result = Posted | Answer(reply: Option<Msg>) | NoEntity | Busy | NoMemory | Started | Stopped | Invalid

  // Where a call is.  Want: about to lock; Have: just locked.
  datatype Pc =
    // post; wait tells that it belongs to postAndAwaitResponse
    | PostWant(delay: int, wait: bool)
    | PostHave(delay: int, wait: bool)
    | PostTimed(when: int, wait: bool)       // the clock was read
    | PostReady(when: int, wait: bool)       // signalled if the event goes first; to insert and unlock
    // awaitResponse
    | AwaitWant
    | AwaitCheck                             // holds mRepliesLock, tries retrieveReply
    | AwaitWantLock                          // holds mRepliesLock, wants mLock
    | AwaitLook                              // holds both, looks at mThread
    | AwaitWait                              // holds mRepliesLock, about to wait
    | AwaitBlocked                           // in mRepliesCondition.wait
    | AwaitWoken                             // wants mRepliesLock back
    // postReply
    | ReplyWant(token: Tid, msg: Msg)
    | ReplyHave(token: Tid, msg: Msg)
    | ReplyNotify                            // the reply is set; to broadcast and unlock
    // start
    | StartWant(runLocally: bool)
    // stop; own tells that it is called on the looper thread itself
    | StopWant(own: bool)
    | StopExit(victim: Option<Lid>, own: bool)   // mThread was cleared; to request the exit
    | StopSignal(victim: Option<Lid>, own: bool) // to signal mQueueChangedCondition
    | StopWantR(victim: Option<Lid>, own: bool)
    | StopHaveR(victim: Option<Lid>, own: bool)  // to broadcast and unlock mRepliesLock
    | StopJoin(exited: Lid)                      // in requestExitAndWait
    | Done(result: Result)

  datatype LoopPc =
    | LoopTop                                // about to test whether to exit
    | LoopEnter                              // about to run loop() once more
    | LoopBlocked(deadline: Option<int>)     // in wait or waitRelative
    | LoopWoken                              // wants mLock back
    | LoopDeliver(e: Event)                  // outside the lock, delivering
    | LoopExited

  // exiting is Thread::mExitPending; local tells a loop run on the thread that called start.
  datatype Looper = Looper(pc: LoopPc, exiting: bool, local: bool)

  datatype Token = Token(replied: bool, reply: Option<Msg>)

  datatype Shared = Shared(
    lock: Option<Tid>,           // who holds mLock between two steps
    rlock: Option<Tid>,          // who holds mRepliesLock between two steps
    queue: seq<Event>,           // mEventQueue
    thread: Option<Lid>,         // mThread
    local: bool,                 // mRunningLocally
    loopers: map<Lid, Looper>,
    tokens: map<Tid, Token>,
    // history: what was posted, by whom, and taken, the reply accepted for each token, and from whom,
    // the stop calls that cleared mThread but did not signal or did not broadcast yet, and the
    // postReply call that set a reply but did not broadcast yet
    posted: seq<Event>,
    posters: seq<Tid>,
    taken: seq<Taken>,
    accepted: map<Tid, Msg>,
    repliers: map<Tid, Tid>,
    toSignal: set<Tid>,
    toBroadcast: set<Tid>,
    notifying: Option<Tid>)

  datatype State = State(sh: Shared, calls: map<Tid, Pc>)

  const INIT: State :=
    State(Shared(None, None, [], None, false, map[], map[], [], [], [], map[], map[], {}, {}, None), map[])

  // A step of a call: what it does to the shared state, where it goes, and whether it broadcasts.
  datatype Move = Move(sh: Shared, pc: Pc, broadcast: bool)

  predicate Blocked(sh: Shared, l: Lid) {
    l in sh.loopers && sh.loopers[l].pc.LoopBlocked?
  }

  predicate NoneBlocked(sh: Shared) {
    forall l :: l in sh.loopers ==> !Blocked(sh, l)
  }

  function LoopGoto(sh: Shared, l: Lid, pc: LoopPc): Shared
    requires l in sh.loopers
  {
    sh.(loopers := sh.loopers[l := sh.loopers[l].(pc := pc)])
  }

  // mQueueChangedCondition.signal: l is woken; None when somebody else would have to be.
  function Signal(sh: Shared, l: Lid): Option<Shared> {
    if Blocked(sh, l) then Some(LoopGoto(sh, l, LoopWoken))
    else if NoneBlocked(sh) then Some(sh)
    else None
  }

  function StepPost(sh: Shared, t: Tid, pc: Pc, now: int, l: Lid): Option<Move> {
    match pc
    case PostWant(delay, wait) =>
      if sh.lock.None? then Some(Move(sh.(lock := Some(t)), PostHave(delay, wait), false)) else None
    case PostHave(delay, wait) =>
      Some(Move(sh, PostTimed(if delay > 0 then now + delay else now, wait), false))
    case PostTimed(when, wait) =>
      if Place(sh.queue, when) == 0 then
        var sh' := Signal(sh, l);
        if sh'.None? then None else Some(Move(sh'.value, PostReady(when, wait), false))
      else Some(Move(sh, PostReady(when, wait), false))
    case PostReady(when, wait) =>
      var e := Event(when, |sh.posted|);
      var sh' := sh.(queue := InsertByTime(sh.queue, e), posted := sh.posted + [e], posters := sh.posters + [t],
                     lock := None);
      Some(Move(sh', if wait then AwaitWant else Done(Posted), false))
    case _ => None
  }

  function StepAwait(sh: Shared, t: Tid, pc: Pc): Option<Move> {
    match pc
    case AwaitWant =>
      if sh.rlock.None? then Some(Move(sh.(rlock := Some(t)), AwaitCheck, false)) else None
    case AwaitCheck =>
      if t !in sh.tokens then None
      else if sh.tokens[t].replied then
        var sh' := sh.(tokens := sh.tokens[t := Token(true, None)], rlock := None);
        Some(Move(sh', Done(Answer(sh.tokens[t].reply)), false))
      else Some(Move(sh, AwaitWantLock, false))
    case AwaitWantLock =>
      if sh.lock.None? then Some(Move(sh.(lock := Some(t)), AwaitLook, false)) else None
    case AwaitLook =>
      if sh.thread.None? then Some(Move(sh.(lock := None, rlock := None), Done(NoEntity), false))
      else Some(Move(sh.(lock := None), AwaitWait, false))
    case AwaitWait =>
      Some(Move(sh.(rlock := None), AwaitBlocked, false))
    case AwaitWoken =>
      if sh.rlock.None? then Some(Move(sh.(rlock := Some(t)), AwaitCheck, false)) else None
    case _ => None
  }

  function StepReply(sh: Shared, t: Tid, pc: Pc): Option<Move> {
    match pc
    case ReplyWant(token, msg) =>
      if sh.rlock.None? then Some(Move(sh.(rlock := Some(t)), ReplyHave(token, msg), false)) else None
    case ReplyHave(token, msg) =>
      if token !in sh.tokens then None
      else if sh.tokens[token].replied then Some(Move(sh.(rlock := None), Done(Busy), false))
      else if sh.tokens[token].reply.Some? then Some(Move(sh.(rlock := None), Done(NoMemory), false))
      else
        var sh' := sh.(tokens := sh.tokens[token := Token(true, Some(msg))],
                       accepted := sh.accepted[token := msg], repliers := sh.repliers[token := t],
                       notifying := Some(t));
        Some(Move(sh', ReplyNotify, false))
    case ReplyNotify =>
      Some(Move(sh.(rlock := None, notifying := None), Done(Posted), true))
    case _ => None
  }

  function StepStart(sh: Shared, pc: Pc, l: Lid): Option<Move> {
    match pc
    case StartWant(runLocally) =>
      if sh.lock.Some? then None
      else if sh.thread.Some? || sh.local then Some(Move(sh, Done(Invalid), false))
      else if l in sh.loopers then None
      else
        var sh' := sh.(loopers := sh.loopers[l := Looper(LoopTop, false, runLocally)]);
        Some(Move(if runLocally then sh'.(local := true) else sh'.(thread := Some(l)), Done(Started), false))
    case _ => None
  }

  function StepStop(sh: Shared, t: Tid, pc: Pc, l: Lid): Option<Move> {
    match pc
    case StopWant(own) =>
      if sh.lock.Some? then None
      else if sh.thread.None? && !sh.local then Some(Move(sh, Done(Invalid), false))
      else
        var sh' := sh.(thread := None, local := false,
                       toSignal := sh.toSignal + {t}, toBroadcast := sh.toBroadcast + {t});
        Some(Move(sh', StopExit(if sh.local then None else sh.thread, own), false))
    case StopExit(victim, own) =>
      var sh' := if victim.Some? && victim.value in sh.loopers
                 then sh.(loopers := sh.loopers[victim.value := sh.loopers[victim.value].(exiting := true)]) else sh;
      Some(Move(sh', StopSignal(victim, own), false))
    case StopSignal(victim, own) =>
      var sh' := Signal(sh, l);
      if sh'.None? then None
      else Some(Move(sh'.value.(toSignal := sh.toSignal - {t}), StopWantR(victim, own), false))
    case StopWantR(victim, own) =>
      if sh.rlock.None? then Some(Move(sh.(rlock := Some(t)), StopHaveR(victim, own), false)) else None
    case StopHaveR(victim, own) =>
      var sh' := sh.(rlock := None, toBroadcast := sh.toBroadcast - {t});
      Some(Move(sh', if victim.None? || own then Done(Stopped) else StopJoin(victim.value), true))
    case StopJoin(exited) =>
      if exited in sh.loopers && sh.loopers[exited].pc == LoopExited then Some(Move(sh, Done(Stopped), false)) else None
    case _ => None
  }

  function StepCall(sh: Shared, t: Tid, pc: Pc, now: int, l: Lid): Option<Move> {
    var m := StepPost(sh, t, pc, now, l);
    if m.Some? then m else
    var m := StepAwait(sh, t, pc);
    if m.Some? then m else
    var m := StepReply(sh, t, pc);
    if m.Some? then m else
    var m := StepStart(sh, pc, l);
    if m.Some? then m else StepStop(sh, t, pc, l)
  }

  // The exit test between two calls of loop(), and one such call, up to where it waits, or leaves
  // the lock to deliver a message.
  function StepLoop(sh: Shared, l: Lid, now: int): Option<Shared>
    requires l in sh.loopers
  {
    match sh.loopers[l].pc
    case LoopTop =>
      Some(LoopGoto(sh, l, if sh.loopers[l].exiting then LoopExited else LoopEnter))
    case LoopEnter =>
      if sh.lock.Some? then None
      else if sh.thread.None? && !sh.local then Some(LoopGoto(sh, l, LoopExited))
      else if sh.queue == [] then Some(LoopGoto(sh, l, LoopBlocked(None)))
      else if sh.queue[0].when > now then Some(LoopGoto(sh, l, LoopBlocked(Some(sh.queue[0].when))))
      else
        var sh' := sh.(queue := sh.queue[1..], taken := sh.taken + [Taken(sh.queue[0], now)]);
        Some(LoopGoto(sh', l, LoopDeliver(sh.queue[0])))
    case LoopWoken =>
      if sh.lock.None? then Some(LoopGoto(sh, l, LoopTop)) else None
    case LoopDeliver(_) =>
      Some(LoopGoto(sh, l, LoopTop))
    case _ => None
  }

  datatype Action =
    | Call(t: Tid, pc: Pc)                   // a new call
    | Proceed(t: Tid, now: int, l: Lid)      // its next step; l is whom a signal wakes, or the new looper
    | Loop(l: Lid, now: int)                 // the next step of a looper
    | Timeout(l: Lid)                        // a timed or spurious end of a looper's wait
    | Spurious(t: Tid)                       // a spurious end of a waiter's wait

  // How a call may begin.  A reply is posted with a token somebody waits on or waited on.
  predicate Begins(sh: Shared, pc: Pc) {
    pc.PostWant? || pc.StartWant? || pc.StopWant? || (pc.ReplyWant? && pc.token in sh.tokens)
  }

  // postAndAwaitResponse begins with a fresh reply token.
  function Begin(sh: Shared, t: Tid, pc: Pc): Shared {
    if pc.PostWant? && pc.wait then sh.(tokens := sh.tokens[t := Token(false, None)]) else sh
  }

  // Where a broadcast, if there is one, leaves a call.
  function AfterBroadcast(pc: Pc, broadcast: bool): Pc {
    if broadcast && pc == AwaitBlocked then AwaitWoken else pc
  }

  function Apply(s: State, t: Tid, m: Move): State {
    State(m.sh, (map u | u in s.calls :: AfterBroadcast(s.calls[u], m.broadcast))[t := m.pc])
  }

  function Step(s: State, a: Action): Option<State> {
    match a
    case Call(t, pc) =>
      if t in s.calls || !Begins(s.sh, pc) then None
      else Some(State(Begin(s.sh, t, pc), s.calls[t := pc]))
    case Proceed(t, now, l) =>
      if t !in s.calls then None
      else
        var m := StepCall(s.sh, t, s.calls[t], now, l);
        if m.None? then None else Some(Apply(s, t, m.value))
    case Loop(l, now) =>
      if l !in s.sh.loopers then None
      else
        var sh' := StepLoop(s.sh, l, now);
        if sh'.None? then None else Some(s.(sh := sh'.value))
    case Timeout(l) =>
      if Blocked(s.sh, l) then Some(s.(sh := LoopGoto(s.sh, l, LoopWoken))) else None
    case Spurious(t) =>
      if t in s.calls && s.calls[t] == AwaitBlocked then Some(s.(calls := s.calls[t := AwaitWoken])) else None
  }

  // The looper has exited, or was told to and will find out before it can wait again.
  predicate Doomed(p: Looper) {
    p.pc.LoopExited? || (p.exiting && !p.pc.LoopBlocked? && !p.pc.LoopEnter?)
  }

  predicate AllDoomed(sh: Shared) {
    forall l :: l in sh.loopers ==> Doomed(sh.loopers[l])
  }

  // Whether the action creates a looper while another one may still wait.
  predicate Overlaps(s: State, a: Action) {
    && a.Proceed? && a.t in s.calls && s.calls[a.t].StartWant?
    && s.sh.thread.None? && !s.sh.local && !AllDoomed(s.sh)
  }

  // The state after a run, or None when some action is not possible.  Unless overlap is set,
  // loopers are only started once none of their predecessors can wait any more.
  function Run(run: seq<Action>, overlap: bool): Option<State> {
    if run == [] then Some(INIT)
    else
      var s := Run(run[..|run| - 1], overlap);
      var a := run[|run| - 1];
      if s.None? || (!overlap && Overlaps(s.value, a)) then None else Step(s.value, a)
  }
}
