// Object lifetimes in raw memory, and the two overlapping move loops of utils/TypeHelpers.h.
//
// A slot of raw memory either holds no object (Raw) or a constructed one (Live).  Constructing
// over a live object, or copying from or destroying an absent one, is a lifetime error; the
// loop functions report it as None, and the methods of CopyOnWrite.SharedBuffer that write to
// memory demand its absence.  Ending the lifetime of an object whose destructor is trivial needs
// no call, so for such types a stale Live slot counts as free storage.
module TypeHelpers {
  import opened Wrappers

  datatype Slot<+T> = Raw | Live(value: T)

  // traits<TYPE> of the element type.
  datatype Traits = Traits(trivialCtor: bool, trivialDtor: bool, trivialCopy: bool, trivialMove: bool) {
    // use_trivial_move: whether ranges are relocated with memmove.
    predicate UsesMemmove() {
      (trivialDtor && trivialCopy) || trivialMove
    }
  }

  // Storage an object may be constructed in.
  predicate Free<T>(tr: Traits, s: Slot<T>) {
    s.Raw? || tr.trivialDtor
  }

  predicate AllLive<T>(s: seq<Slot<T>>, at: nat, n: nat)
    requires at + n <= |s|
  {
    forall i :: at <= i < at + n ==> s[i].Live?
  }

  predicate AllFree<T>(tr: Traits, s: seq<Slot<T>>, at: nat, n: nat)
    requires at + n <= |s|
  {
    forall i :: at <= i < at + n ==> Free(tr, s[i])
  }

  // One step of either move loop: construct slot d from slot s, then destroy slot s.  An object
  // cannot be constructed from the one whose storage it takes over, so nothing can be moved by zero
  // positions; this is why vectors whose elements are not relocated with memmove must be asked to
  // insert and remove at least one item.
  function MoveOne<T>(tr: Traits, m: seq<Slot<T>>, d: nat, s: nat): Option<seq<Slot<T>>>
    requires d < |m| && s < |m|
  {
    if d == s || !m[s].Live? || !Free(tr, m[d]) then None
    else Some(if tr.trivialDtor then m[d := m[s]] else m[d := m[s]][s := Raw])
  }

  // The element-by-element loop of move_forward_type: highest element first.
  function ForwardLoop<T>(tr: Traits, m: seq<Slot<T>>, d: nat, s: nat, n: nat): (r: Option<seq<Slot<T>>>)
    requires d + n <= |m| && s + n <= |m|
    ensures r.Some? ==> |r.value| == |m|
    decreases n
  {
    if n == 0 then Some(m)
    else
      var m' := MoveOne(tr, m, d + n - 1, s + n - 1);
      if m'.None? then None else ForwardLoop(tr, m'.value, d, s, n - 1)
  }

  // The element-by-element loop of move_backward_type: lowest element first.
  function BackwardLoop<T>(tr: Traits, m: seq<Slot<T>>, d: nat, s: nat, n: nat): (r: Option<seq<Slot<T>>>)
    requires d + n <= |m| && s + n <= |m|
    ensures r.Some? ==> |r.value| == |m|
    decreases n
  {
    if n == 0 then Some(m)
    else
      var m' := MoveOne(tr, m, d, s);
      if m'.None? then None else BackwardLoop(tr, m'.value, d + 1, s + 1, n - 1)
  }

  // What relocating n objects from s to d must do: the values arrive, what they left behind is
  // free storage, and nothing else changes.
  ghost predicate Relocated<T>(tr: Traits, m: seq<Slot<T>>, m': seq<Slot<T>>, d: nat, s: nat, n: nat)
    requires d + n <= |m| && s + n <= |m|
  {
    && |m'| == |m|
    && (forall i :: d <= i < d + n ==> m'[i] == m[i - d + s])
    && (forall i :: s <= i < s + n && !(d <= i < d + n) ==> Free(tr, m'[i]))
    && (forall i :: 0 <= i < |m| && !(s <= i < s + n) && !(d <= i < d + n) ==> m'[i] == m[i])
  }

  // The situation in which a vector moves a range: live source, free destination outside it.
  predicate Movable<T>(tr: Traits, m: seq<Slot<T>>, d: nat, s: nat, n: nat)
    requires d + n <= |m| && s + n <= |m|
  {
    && AllLive(m, s, n)
    && (forall i :: d <= i < d + n && !(s <= i < s + n) ==> Free(tr, m[i]))
  }

  // One step up: the rest can still be moved, and moving it relocates the whole range.
  lemma ForwardStep<T>(tr: Traits, m: seq<Slot<T>>, d: nat, s: nat, n: nat) returns (m': seq<Slot<T>>)
    requires s < d && 0 < n && d + n <= |m| && Movable(tr, m, d, s, n)
    ensures MoveOne(tr, m, d + n - 1, s + n - 1) == Some(m') && |m'| == |m|
    ensures Movable(tr, m', d, s, n - 1)
  {
    m' := MoveOne(tr, m, d + n - 1, s + n - 1).value;
  }

  lemma ForwardRest<T>(tr: Traits, m: seq<Slot<T>>, m': seq<Slot<T>>, end: seq<Slot<T>>, d: nat, s: nat, n: nat)
    requires s < d && 0 < n && d + n <= |m| == |m'| && Movable(tr, m, d, s, n)
    requires MoveOne(tr, m, d + n - 1, s + n - 1) == Some(m') && Relocated(tr, m', end, d, s, n - 1)
    ensures Relocated(tr, m, end, d, s, n)
  {
    forall i | s <= i < s + n && !(d <= i < d + n) ensures Free(tr, end[i]) {
      if i == s + n - 1 {
        assert end[i] == m'[i];
      }
    }
  }

  // Moving up, overlapping or not, relocates the range without a lifetime error.
  lemma {:induction false} ForwardLoopRelocates<T>(tr: Traits, m: seq<Slot<T>>, d: nat, s: nat, n: nat)
    requires s < d && d + n <= |m| && Movable(tr, m, d, s, n)
    ensures ForwardLoop(tr, m, d, s, n).Some?
    ensures Relocated(tr, m, ForwardLoop(tr, m, d, s, n).value, d, s, n)
    decreases n
  {
    if n == 0 {
    } else {
      var m' := ForwardStep(tr, m, d, s, n);
      ForwardLoopRelocates(tr, m', d, s, n - 1);
      ForwardRest(tr, m, m', ForwardLoop(tr, m', d, s, n - 1).value, d, s, n);
    }
  }

  // One step down.
  lemma BackwardStep<T>(tr: Traits, m: seq<Slot<T>>, d: nat, s: nat, n: nat) returns (m': seq<Slot<T>>)
    requires d < s && 0 < n && s + n <= |m| && Movable(tr, m, d, s, n)
    ensures MoveOne(tr, m, d, s) == Some(m') && |m'| == |m|
    ensures Movable(tr, m', d + 1, s + 1, n - 1)
  {
    m' := MoveOne(tr, m, d, s).value;
  }

  lemma BackwardRest<T>(tr: Traits, m: seq<Slot<T>>, m': seq<Slot<T>>, end: seq<Slot<T>>, d: nat, s: nat, n: nat)
    requires d < s && 0 < n && s + n <= |m| == |m'| && Movable(tr, m, d, s, n)
    requires MoveOne(tr, m, d, s) == Some(m') && Relocated(tr, m', end, d + 1, s + 1, n - 1)
    ensures Relocated(tr, m, end, d, s, n)
  {
    forall i | d <= i < d + n ensures end[i] == m[i - d + s] {
      if i == d {
        assert end[i] == m'[i];
      }
    }
    forall i | s <= i < s + n && !(d <= i < d + n) ensures Free(tr, end[i]) {
      if i == s {
        assert end[i] == m'[i];
      }
    }
  }

  // Moving down, overlapping or not, relocates the range without a lifetime error.
  lemma {:induction false} BackwardLoopRelocates<T>(tr: Traits, m: seq<Slot<T>>, d: nat, s: nat, n: nat)
    requires d < s && s + n <= |m| && Movable(tr, m, d, s, n)
    ensures BackwardLoop(tr, m, d, s, n).Some?
    ensures Relocated(tr, m, BackwardLoop(tr, m, d, s, n).value, d, s, n)
    decreases n
  {
    if n == 0 {
    } else {
      var m' := BackwardStep(tr, m, d, s, n);
      BackwardLoopRelocates(tr, m', d + 1, s + 1, n - 1);
      BackwardRest(tr, m, m', BackwardLoop(tr, m', d + 1, s + 1, n - 1).value, d, s, n);
    }
  }
}
