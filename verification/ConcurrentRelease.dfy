// The reference count of utils/SharedBuffer.cpp under concurrent holders.
//
// Each handle is one counted reference, used by one thread at a time.  A step is one atomic
// access to mRefs, or one of the actions between two accesses, so that any interleaving of the
// calls of different holders is a sequence of steps.
module ConcurrentRelease {
  import opened Wrappers

  type Handle = int

  // Where a handle's thread is.
  datatype Pc =
    | Idle       // holds the reference and is in none of the calls below
    | Editing    // attemptEdit, edit or editResize read a count of one: writing in place
    | Copying    // edit or editResize read another count: copying the data, release comes next
    | SawSole    // release: onlyOwner() was true, the store of zero comes next
    | SawShared  // release: onlyOwner() was false, the atomic decrement comes next
    | Last       // release: the count went to zero by this handle, the block is to be freed
    | Gone       // the reference was given up

  // refs is mRefs; frees counts how often the block was freed.
  datatype State = State(refs: int, frees: nat, pc: map<Handle, Pc>)

  datatype Action =
    | Acquire(h: Handle, other: Handle)  // fetch_add on behalf of a new holder
    | LoadForEdit(h: Handle)
    | EndEdit(h: Handle)
    | LoadForRelease(h: Handle)           // the onlyOwner() at the start of release
    | StoreZero(h: Handle)
    | Decrement(h: Handle)                // fetch_sub
    | Free(h: Handle)                     // dealloc, by release or by its caller

  predicate At(s: State, h: Handle, pc: Pc) {
    h in s.pc && s.pc[h] == pc
  }

  // alloc: one holder, a count of one.
  function Init(h: Handle): State {
    State(1, 0, map[h := Idle])
  }

  function Goto(s: State, h: Handle, pc: Pc): State {
    s.(pc := s.pc[h := pc])
  }

  // The state after an action, or None when the handle is not where the action happens.
  function Step(s: State, a: Action): Option<State> {
    match a
    case Acquire(h, other) =>
      if At(s, h, Idle) && other !in s.pc then Some(Goto(s.(refs := s.refs + 1), other, Idle)) else None
    case LoadForEdit(h) =>
      if At(s, h, Idle) then Some(Goto(s, h, if s.refs == 1 then Editing else Copying)) else None
    case EndEdit(h) =>
      if At(s, h, Editing) then Some(Goto(s, h, Idle)) else None
    case LoadForRelease(h) =>
      if At(s, h, Idle) || At(s, h, Copying)
      then Some(Goto(s, h, if s.refs == 1 then SawSole else SawShared)) else None
    case StoreZero(h) =>
      if At(s, h, SawSole) then Some(Goto(s.(refs := 0), h, Last)) else None
    case Decrement(h) =>
      if At(s, h, SawShared)
      then Some(Goto(s.(refs := s.refs - 1), h, if s.refs == 1 then Last else Gone)) else None
    case Free(h) =>
      if At(s, h, Last) then Some(Goto(s.(frees := s.frees + 1), h, Gone)) else None
  }

  function Run(s: State, run: seq<Action>): Option<State> {
    if run == [] then Some(s)
    else
      var s' := Run(s, run[..|run| - 1]);
      if s'.None? then None else Step(s'.value, run[|run| - 1])
  }

  // Who still holds a reference.
  function Holders(s: State): set<Handle> {
    set h | h in s.pc && s.pc[h] != Last && s.pc[h] != Gone
  }

  ghost predicate Inv(s: State) {
    && s.refs == |Holders(s)|
    && (forall h :: At(s, h, Editing) || At(s, h, SawSole) ==> Holders(s) == {h})
    && (forall h :: At(s, h, Last) ==> Holders(s) == {} && s.frees == 0)
    && (forall g, h :: At(s, g, Last) && At(s, h, Last) ==> g == h)
    && (Holders(s) != {} ==> s.frees == 0)
    && (Holders(s) == {} && (forall h :: h in s.pc ==> s.pc[h] == Gone) ==> s.frees == 1)
  }

  lemma SingletonHolder(s: State, h: Handle)
    requires h in Holders(s) && |Holders(s)| == 1
    ensures Holders(s) == {h}
  {
    assert Holders(s) == {h} + (Holders(s) - {h});
  }

  // Every other handle is where it was.
  lemma OthersStay(s: State, a: Action)
    requires Step(s, a).Some?
    ensures forall g, pc :: g != a.h && (a.Acquire? ==> g != a.other) ==>
              (At(Step(s, a).value, g, pc) <==> At(s, g, pc))
  {
  }

  lemma InvAcquire(s: State, a: Action)
    requires Inv(s) && a.Acquire? && Step(s, a).Some?
    ensures Inv(Step(s, a).value)
  {
    var s' := Step(s, a).value;
    OthersStay(s, a);
    assert a.h in Holders(s) && Holders(s') == Holders(s) + {a.other};
    assert forall g :: Holders(s) == {g} ==> At(s, g, Idle);
    assert forall g :: !At(s', g, Editing) && !At(s', g, SawSole);
  }

  // The loads and EndEdit change neither the count nor who holds a reference.  Only a sole holder
  // edits in place, or is about to release without a decrement, and it always does.
  lemma InvLook(s: State, a: Action)
    requires Inv(s) && (a.LoadForEdit? || a.EndEdit? || a.LoadForRelease?) && Step(s, a).Some?
    ensures Inv(Step(s, a).value) && Holders(Step(s, a).value) == Holders(s)
    ensures a.LoadForEdit? ==> (At(Step(s, a).value, a.h, Editing) <==> Holders(s) == {a.h})
    ensures a.LoadForRelease? ==> (At(Step(s, a).value, a.h, SawSole) <==> Holders(s) == {a.h})
  {
    var s' := Step(s, a).value;
    OthersStay(s, a);
    assert Holders(s') == Holders(s);
    assert a.h in Holders(s);
    if s.refs == 1 {
      SingletonHolder(s, a.h);
    }
  }

  // Who gives up its reference: a.h, and nobody else.
  lemma HoldersLeft(s: State, a: Action)
    requires (a.StoreZero? || a.Decrement? || a.Free?) && Step(s, a).Some?
    ensures Holders(Step(s, a).value) == Holders(s) - {a.h} && (a.h in Holders(s) <==> !a.Free?)
  {
    var s' := Step(s, a).value;
    assert forall g :: g in Holders(s') <==> g in Holders(s) && g != a.h;
  }

  lemma InvFree(s: State, a: Action)
    requires Inv(s) && a.Free? && Step(s, a).Some?
    ensures Inv(Step(s, a).value)
  {
    OthersStay(s, a);
    HoldersLeft(s, a);
    assert At(s, a.h, Last);
  }

  lemma InvLeave(s: State, a: Action)
    requires Inv(s) && (a.StoreZero? || a.Decrement?) && Step(s, a).Some?
    ensures Inv(Step(s, a).value)
  {
    OthersStay(s, a);
    HoldersLeft(s, a);
    if s.refs == 1 {
      SingletonHolder(s, a.h);
    }
  }

  // The one that frees the block is the last holder.
  lemma InvGiveUp(s: State, a: Action)
    requires Inv(s) && (a.StoreZero? || a.Decrement? || a.Free?) && Step(s, a).Some?
    ensures Inv(Step(s, a).value) && Holders(Step(s, a).value) == Holders(s) - {a.h}
    ensures At(Step(s, a).value, a.h, Last) <==> Holders(s) == {a.h}
  {
    HoldersLeft(s, a);
    if s.refs == 1 && a.Decrement? {
      SingletonHolder(s, a.h);
    }
    if a.Free? {
      InvFree(s, a);
    } else {
      InvLeave(s, a);
    }
  }

  lemma {:induction false} InvRun(h: Handle, run: seq<Action>)
    requires Run(Init(h), run).Some?
    ensures Inv(Run(Init(h), run).value)
  {
    if run == [] {
      assert Holders(Init(h)) == {h};
    } else {
      InvRun(h, run[..|run| - 1]);
      var s, a := Run(Init(h), run[..|run| - 1]).value, run[|run| - 1];
      if a.Acquire? {
        InvAcquire(s, a);
      } else if a.LoadForEdit? || a.EndEdit? || a.LoadForRelease? {
        InvLook(s, a);
      } else {
        InvGiveUp(s, a);
      }
    }
  }

  // In every interleaving the block is freed at most once, never while someone holds a
  // reference, exactly once when everyone is done; and whoever writes in place is alone.
  lemma FreedOnceByTheLast(h: Handle, run: seq<Action>)
    requires Run(Init(h), run).Some?
    ensures var s := Run(Init(h), run).value;
            && s.refs == |Holders(s)|
            && s.frees <= 1
            && (s.frees == 1 ==> forall g :: g in s.pc ==> s.pc[g] == Gone)
            && ((forall g :: g in s.pc ==> s.pc[g] == Gone) ==> s.frees == 1)
            && (forall g :: At(s, g, Editing) ==> Holders(s) == {g})
  {
    InvRun(h, run);
    var s := Run(Init(h), run).value;
    if s.frees == 1 {
      forall g | g in s.pc ensures s.pc[g] == Gone {
        assert g !in Holders(s) && !At(s, g, Last);
      }
    }
    if forall g :: g in s.pc ==> s.pc[g] == Gone {
      assert Holders(s) == {};
    }
  }
}
