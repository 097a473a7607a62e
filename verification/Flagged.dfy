// The packed flags of utils/Flagged.h, for unsigned flags without sharing and at any width: the
// search for a free place in the word, and the layers of flags that nested wrappers keep in it.
//
// A word or mask is the set of its bits that are 1.
module FlaggedLayers {

  type Bits = set<nat>

  predicate Within(m: Bits, width: nat) {
    forall b :: b in m ==> b < width
  }

  // All bits of a word.
  function Word(width: nat): (m: Bits)
    ensures forall b: int :: b in m <==> 0 <= b < width
  {
    if width == 0 then {} else Word(width - 1) + {width - 1}
  }

  // The shifts of a word of this width.
  function Up(m: Bits, n: nat, width: nat): Bits {
    set b | b in Word(width) && n <= b && b - n in m
  }

  function Down(m: Bits, n: nat, width: nat): Bits {
    set b | b in Word(width) && b + n in m
  }

  // The given number of top-most bits.
  function TopBits(num: nat, width: nat): Bits
    requires num <= width
  {
    set b | b in Word(width) && width - num <= b
  }

  // The result of getShift: -2, -1, or a shift.
  datatype Shift = Invalid | NoShift | By(n: nat)

  function IncShift(s: Shift): Shift {
    if s.By? then By(s.n + 1) else s
  }

  // The search of getShift without sharing; low bounds the bits of the mask from below.
  function FindShift(mask: Bits, effectiveMask: Bits, width: nat, ghost low: nat): Shift
    requires 0 < width && Within(mask, width) && forall b :: b in mask ==> low <= b
    decreases width - low
  {
    if mask * effectiveMask == {} then By(0)
    else if mask * TopBits(1, width) != {} then NoShift
    else
      NotEmpty(mask, effectiveMask, width, low);
      IncShift(FindShift(Up(mask, 1, width), effectiveMask, width, low + 1))
  }

  lemma NotEmpty(mask: Bits, effectiveMask: Bits, width: nat, low: nat)
    requires Within(mask, width) && mask * effectiveMask != {} && forall b :: b in mask ==> low <= b
    ensures low < width
  {
  }

  function GetShift(mask: Bits, baseMask: Bits, baseShift: nat, effectiveMask: Bits, width: nat): Shift
    requires 0 < width && Within(mask, width)
  {
    if baseMask - Down(effectiveMask, baseShift, width) != {} then Invalid else FindShift(mask, effectiveMask, width, 0)
  }

  // Shifted by n, the mask loses no bit.
  predicate FitsAt(mask: Bits, n: nat, width: nat) {
    forall b :: b in mask ==> b + n < width
  }

  // Nor does it hit the bits in use.
  predicate Free(mask: Bits, n: nat, effectiveMask: Bits, width: nat) {
    FitsAt(mask, n, width) && Up(mask, n, width) * effectiveMask == {}
  }

  lemma UpTwice(mask: Bits, n: nat, width: nat)
    ensures Up(Up(mask, 1, width), n, width) == Up(mask, n + 1, width)
  {
  }

  lemma FitsHigher(mask: Bits, n: nat, width: nat)
    requires 0 < width && Within(mask, width) && mask * TopBits(1, width) == {}
    ensures FitsAt(Up(mask, 1, width), n, width) <==> FitsAt(mask, n + 1, width)
  {
    if FitsAt(Up(mask, 1, width), n, width) {
      forall b | b in mask ensures b + n + 1 < width {
        TopBitClear(mask, b, width);
        assert b + 1 in Up(mask, 1, width);
      }
    }
    if FitsAt(mask, n + 1, width) {
      forall c | c in Up(mask, 1, width) ensures c + n < width {
        assert c - 1 in mask;
      }
    }
  }

  lemma FreeHigher(mask: Bits, n: nat, effectiveMask: Bits, width: nat)
    requires 0 < width && Within(mask, width) && mask * TopBits(1, width) == {}
    ensures Free(Up(mask, 1, width), n, effectiveMask, width) <==> Free(mask, n + 1, effectiveMask, width)
  {
    UpTwice(mask, n, width);
    FitsHigher(mask, n, width);
  }

  lemma TopBitClear(mask: Bits, b: nat, width: nat)
    requires 0 < width && Within(mask, width) && mask * TopBits(1, width) == {} && b in mask
    ensures b + 1 < width
  {
    assert b in TopBits(1, width) <==> b + 1 >= width;
    assert b !in mask * TopBits(1, width);
  }

  // getShift finds the least free place, or that there is none.
  lemma {:induction false} ShiftIsLeast(mask: Bits, effectiveMask: Bits, width: nat, low: nat)
    requires 0 < width && Within(mask, width) && forall b :: b in mask ==> low <= b
    ensures var s := FindShift(mask, effectiveMask, width, low);
            && s != Invalid
            && (s.By? ==> Free(mask, s.n, effectiveMask, width))
            && (forall n: nat :: s == NoShift || n < s.n ==> !Free(mask, n, effectiveMask, width))
    decreases width - low
  {
    var s := FindShift(mask, effectiveMask, width, low);
    assert Up(mask, 0, width) == mask;
    if mask * effectiveMask == {} {
    } else {
      if mask * TopBits(1, width) != {} {
        assert width - 1 in mask;
      } else {
        NotEmpty(mask, effectiveMask, width, low);
        var up := Up(mask, 1, width);
        ShiftIsLeast(up, effectiveMask, width, low + 1);
        if s.By? {
          FreeHigher(mask, s.n - 1, effectiveMask, width);
        }
        forall n: nat | s == NoShift || n < s.n ensures !Free(mask, n, effectiveMask, width) {
          if n > 0 {
            FreeHigher(mask, n - 1, effectiveMask, width);
          }
        }
      }
    }
  }

  // canCombine, without sharing: the place is free, and the base mask is part of the bits in use.
  predicate CanCombine(mask: Bits, baseMask: Bits, shift: nat, baseShift: nat, effectiveMask: Bits, width: nat)
    requires shift <= width
  {
    && mask * TopBits(shift, width) == {}
    && baseMask - Down(effectiveMask, baseShift, width) == {}
    && mask * Down(effectiveMask, shift, width) == {}
  }

  lemma FitsIff(mask: Bits, shift: nat, width: nat)
    requires shift <= width && Within(mask, width)
    ensures mask * TopBits(shift, width) == {} <==> FitsAt(mask, shift, width)
  {
    if mask * TopBits(shift, width) == {} {
      forall b | b in mask ensures b + shift < width {
        assert b !in mask * TopBits(shift, width);
      }
    }
  }

  lemma MissesIff(mask: Bits, shift: nat, effectiveMask: Bits, width: nat)
    requires FitsAt(mask, shift, width)
    ensures mask * Down(effectiveMask, shift, width) == {} <==> Up(mask, shift, width) * effectiveMask == {}
  {
    if mask * Down(effectiveMask, shift, width) == {} {
      forall c | c in Up(mask, shift, width) ensures c !in effectiveMask {
        assert c - shift !in mask * Down(effectiveMask, shift, width);
      }
    }
    if Up(mask, shift, width) * effectiveMask == {} {
      forall b | b in mask ensures b !in Down(effectiveMask, shift, width) {
        assert b + shift !in Up(mask, shift, width) * effectiveMask;
      }
    }
  }

  lemma CombinesWhereFree(mask: Bits, baseMask: Bits, shift: nat, baseShift: nat, effectiveMask: Bits, width: nat)
    requires shift <= width && Within(mask, width)
    ensures CanCombine(mask, baseMask, shift, baseShift, effectiveMask, width) <==>
              Free(mask, shift, effectiveMask, width) && baseMask - Down(effectiveMask, baseShift, width) == {}
  {
    FitsIff(mask, shift, width);
    if FitsAt(mask, shift, width) {
      MissesIff(mask, shift, effectiveMask, width);
    }
  }

  // getFlagsHelper and setFlagsHelper.
  function GetFlags(flags: Bits, mask: Bits, shift: nat, width: nat): Bits {
    Down(flags, shift, width) * mask
  }

  function SetFlags(flags: Bits, mask: Bits, shift: nat, value: Bits, width: nat): Bits {
    (flags - Up(mask, shift, width)) + Up(value * mask, shift, width)
  }

  // A layer reads back what was set in it, masked.
  lemma {:induction false} SetThenGet(flags: Bits, mask: Bits, shift: nat, value: Bits, width: nat)
    requires FitsAt(mask, shift, width)
    ensures GetFlags(SetFlags(flags, mask, shift, value, width), mask, shift, width) == value * mask
  {
    var flags' := SetFlags(flags, mask, shift, value, width);
    forall b: nat ensures b in GetFlags(flags', mask, shift, width) <==> b in value * mask {
      assert b in mask ==> b + shift in Up(mask, shift, width);
    }
  }

  // Setting one layer does not change another one.
  lemma {:induction false} SetSpares(flags: Bits, mask: Bits, shift: nat, value: Bits,
                                     other: Bits, otherShift: nat, width: nat)
    requires Up(mask, shift, width) * Up(other, otherShift, width) == {}
    requires FitsAt(other, otherShift, width)
    ensures GetFlags(SetFlags(flags, mask, shift, value, width), other, otherShift, width)
            == GetFlags(flags, other, otherShift, width)
  {
    var flags' := SetFlags(flags, mask, shift, value, width);
    forall b: nat
      ensures b in GetFlags(flags', other, otherShift, width) <==> b in GetFlags(flags, other, otherShift, width)
    {
      assert b in other ==> b + otherShift in Up(other, otherShift, width);
      assert b + otherShift !in Up(mask, shift, width) * Up(other, otherShift, width);
    }
  }

  // One wrapper of a nest: its mask, the word that holds its flags, and where in it.  Wrappers that
  // could not be combined begin a new word.
  datatype Layer = Layer(mask: Bits, word: nat, shift: nat)

  // The wrappers from the inside out, and the bits of the last word in use.
  datatype Nest = Nest(layers: seq<Layer>, effectiveMask: Bits)

  ghost predicate NestOk(n: Nest, width: nat) {
    && (forall i :: 0 <= i < |n.layers| ==>
          Within(n.layers[i].mask, width) && FitsAt(n.layers[i].mask, n.layers[i].shift, width))
    && (forall i, j :: 0 <= i < j < |n.layers| ==>
          n.layers[i].word <= n.layers[j].word && Apart(n.layers[i], n.layers[j], width))
    && (forall b :: b in n.effectiveMask <==> Used(n, b, width))
  }

  predicate InLastWord(n: Nest, i: nat)
    requires i < |n.layers|
  {
    n.layers[i].word == n.layers[|n.layers| - 1].word
  }

  function Place(l: Layer, width: nat): Bits {
    Up(l.mask, l.shift, width)
  }

  // Some layer of the last word has the bit.
  predicate Used(n: Nest, b: nat, width: nat) {
    exists i :: 0 <= i < |n.layers| && InLastWord(n, i) && b in Place(n.layers[i], width)
  }

  predicate Apart(a: Layer, b: Layer, width: nat) {
    a.word == b.word ==> Place(a, width) * Place(b, width) == {}
  }

  // One more wrapper around the others.
  function Wrap(n: Nest, mask: Bits, width: nat): Nest
    requires 0 < width && Within(mask, width)
  {
    if n.layers == [] then Nest([Layer(mask, 0, 0)], mask)
    else
      var t := n.layers[|n.layers| - 1];
      var s := GetShift(mask, t.mask, t.shift, n.effectiveMask, width);
      if s.By? && s.n <= width && CanCombine(mask, t.mask, s.n, t.shift, n.effectiveMask, width) then
        Nest(n.layers + [Layer(mask, t.word, s.n)], Up(mask, s.n, width) + n.effectiveMask)
      else Nest(n.layers + [Layer(mask, t.word + 1, 0)], mask)
  }

  function WrapAll(masks: seq<Bits>, width: nat): Nest
    requires 0 < width && forall i :: 0 <= i < |masks| ==> Within(masks[i], width)
  {
    if masks == [] then Nest([], {}) else Wrap(WrapAll(masks[..|masks| - 1], width), masks[|masks| - 1], width)
  }

  // The layer a wrapper adds, and the bits in use afterwards.
  lemma {:induction false} WrapAdds(n: Nest, mask: Bits, width: nat)
    requires 0 < width && Within(mask, width) && NestOk(n, width) && n.layers != []
    ensures var t, n' := n.layers[|n.layers| - 1], Wrap(n, mask, width);
            && |n'.layers| == |n.layers| + 1 && n'.layers[..|n.layers|] == n.layers
            && var u := n'.layers[|n.layers|];
               && u.mask == mask && FitsAt(mask, u.shift, width)
               && (if u.word == t.word then
                     Place(u, width) * n.effectiveMask == {} && n'.effectiveMask == Place(u, width) + n.effectiveMask
                   else u.word == t.word + 1 && u.shift == 0 && n'.effectiveMask == Place(u, width))
  {
    var t, n' := n.layers[|n.layers| - 1], Wrap(n, mask, width);
    var s := GetShift(mask, t.mask, t.shift, n.effectiveMask, width);
    assert Up(mask, 0, width) == mask;
    if n'.layers[|n.layers|].word == t.word {
      CombinesWhereFree(mask, t.mask, s.n, t.shift, n.effectiveMask, width);
    }
  }

  lemma {:induction false} UsedMore(n: Nest, n': Nest, b: nat, width: nat)
    requires n.layers != [] && |n'.layers| == |n.layers| + 1 && n'.layers[..|n.layers|] == n.layers
    requires forall i :: 0 <= i < |n.layers| ==> n.layers[i].word <= n.layers[|n.layers| - 1].word
    requires n.layers[|n.layers| - 1].word <= n'.layers[|n.layers|].word
    ensures Used(n', b, width) <==>
              b in Place(n'.layers[|n.layers|], width)
              || (n'.layers[|n.layers|].word == n.layers[|n.layers| - 1].word && Used(n, b, width))
  {
    var t, u := n.layers[|n.layers| - 1], n'.layers[|n.layers|];
    assert forall i :: 0 <= i < |n.layers| ==> n'.layers[i] == n.layers[i];
    if b in Place(u, width) {
      assert InLastWord(n', |n.layers|);
    }
    if u.word == t.word && Used(n, b, width) {
      var i :| 0 <= i < |n.layers| && InLastWord(n, i) && b in Place(n.layers[i], width);
      assert InLastWord(n', i) && b in Place(n'.layers[i], width);
    }
    if Used(n', b, width) && b !in Place(u, width) {
      var i :| 0 <= i < |n'.layers| && InLastWord(n', i) && b in Place(n'.layers[i], width);
      assert InLastWord(n, i) && b in Place(n.layers[i], width);
    }
  }

  lemma ApartFromUsed(n: Nest, i: nat, u: Layer, width: nat)
    requires NestOk(n, width) && i < |n.layers|
    requires var t := n.layers[|n.layers| - 1];
             t.word <= u.word && (u.word == t.word ==> Place(u, width) * n.effectiveMask == {})
    ensures Apart(n.layers[i], u, width)
  {
    if n.layers[i].word == u.word {
      forall b | b in Place(n.layers[i], width) ensures b !in Place(u, width) {
        assert InLastWord(n, i);
        assert Used(n, b, width);
        assert b !in Place(u, width) * n.effectiveMask;
      }
    }
  }

  lemma {:induction false} FirstKeeps(mask: Bits, width: nat)
    requires 0 < width && Within(mask, width)
    ensures NestOk(Nest([Layer(mask, 0, 0)], mask), width)
  {
    var n := Nest([Layer(mask, 0, 0)], mask);
    assert Place(n.layers[0], width) == mask;
    forall b ensures b in n.effectiveMask <==> Used(n, b, width) {
      assert InLastWord(n, 0);
    }
  }

  // The new layer misses the others.
  lemma {:induction false} LayersKeep(n: Nest, n': Nest, width: nat)
    requires NestOk(n, width) && n.layers != []
    requires |n'.layers| == |n.layers| + 1 && n'.layers[..|n.layers|] == n.layers
    requires var t, u := n.layers[|n.layers| - 1], n'.layers[|n.layers|];
             t.word <= u.word && (u.word == t.word ==> Place(u, width) * n.effectiveMask == {})
    ensures forall i, j :: 0 <= i < j < |n'.layers| ==>
              n'.layers[i].word <= n'.layers[j].word && Apart(n'.layers[i], n'.layers[j], width)
  {
    var u := n'.layers[|n.layers|];
    assert forall i :: 0 <= i < |n.layers| ==> n'.layers[i] == n.layers[i];
    forall i | 0 <= i < |n.layers| ensures n.layers[i].word <= u.word && Apart(n.layers[i], u, width) {
      ApartFromUsed(n, i, u, width);
    }
  }

  lemma {:induction false} WrapKeeps(n: Nest, mask: Bits, width: nat)
    requires 0 < width && Within(mask, width) && NestOk(n, width)
    ensures NestOk(Wrap(n, mask, width), width)
  {
    if n.layers == [] {
      FirstKeeps(mask, width);
    } else {
      var n' := Wrap(n, mask, width);
      WrapAdds(n, mask, width);
      LayersKeep(n, n', width);
      forall b: nat ensures b in n'.effectiveMask <==> Used(n', b, width) {
        UsedMore(n, n', b, width);
      }
      assert forall i :: 0 <= i < |n.layers| ==> n'.layers[i] == n.layers[i];
    }
  }

  // Shifted by k the mask loses no bit, and misses every layer of the last word.
  predicate HasRoom(n: Nest, mask: Bits, k: nat, width: nat) {
    && FitsAt(mask, k, width)
    && forall i :: 0 <= i < |n.layers| && InLastWord(n, i) ==> Up(mask, k, width) * Place(n.layers[i], width) == {}
  }

  lemma RoomIsFree(n: Nest, mask: Bits, k: nat, width: nat)
    requires NestOk(n, width)
    ensures HasRoom(n, mask, k, width) <==> Free(mask, k, n.effectiveMask, width)
  {
    if HasRoom(n, mask, k, width) {
      forall b | b in Up(mask, k, width) ensures b !in n.effectiveMask {
        assert forall i :: 0 <= i < |n.layers| && InLastWord(n, i) ==>
                             b !in Up(mask, k, width) * Place(n.layers[i], width);
      }
    }
    if Free(mask, k, n.effectiveMask, width) {
      forall i | 0 <= i < |n.layers| && InLastWord(n, i) ensures Up(mask, k, width) * Place(n.layers[i], width) == {} {
        forall b | b in Place(n.layers[i], width) ensures b !in Up(mask, k, width) {
          assert Used(n, b, width);
          assert b !in Up(mask, k, width) * n.effectiveMask;
        }
      }
    }
  }

  // A wrapper shares the word of the ones inside it exactly when there is room for it at some shift,
  // and then takes the least; else it begins a new word.
  lemma {:induction false} WrapCombinesIff(n: Nest, mask: Bits, width: nat)
    requires 0 < width && Within(mask, width) && NestOk(n, width) && n.layers != []
    ensures var t, u := n.layers[|n.layers| - 1], Wrap(n, mask, width).layers[|n.layers|];
            && u.mask == mask
            && (u.word == t.word <==> exists k :: HasRoom(n, mask, k, width))
            && (if u.word == t.word then
                  HasRoom(n, mask, u.shift, width) && forall k: nat :: k < u.shift ==> !HasRoom(n, mask, k, width)
                else u.word == t.word + 1 && u.shift == 0)
  {
    var t := n.layers[|n.layers| - 1];
    var s := FindShift(mask, n.effectiveMask, width, 0);
    forall k: nat ensures HasRoom(n, mask, k, width) <==> Free(mask, k, n.effectiveMask, width) {
      RoomIsFree(n, mask, k, width);
    }
    ShiftIsLeast(mask, n.effectiveMask, width, 0);
    LastIsInUse(n, width);
    BaseIsInUse(t, n.effectiveMask, width);
    if s.By? {
      ShiftInWord(mask, s.n, n.effectiveMask, width);
      CombinesWhereFree(mask, t.mask, s.n, t.shift, n.effectiveMask, width);
    }
  }

  lemma LastIsInUse(n: Nest, width: nat)
    requires NestOk(n, width) && n.layers != []
    ensures Place(n.layers[|n.layers| - 1], width) <= n.effectiveMask
  {
    forall b | b in Place(n.layers[|n.layers| - 1], width) ensures b in n.effectiveMask {
      assert InLastWord(n, |n.layers| - 1);
      assert Used(n, b, width);
    }
  }

  lemma BaseIsInUse(t: Layer, effectiveMask: Bits, width: nat)
    requires Within(t.mask, width) && FitsAt(t.mask, t.shift, width) && Up(t.mask, t.shift, width) <= effectiveMask
    ensures t.mask - Down(effectiveMask, t.shift, width) == {}
  {
  }

  lemma ShiftInWord(mask: Bits, n: nat, effectiveMask: Bits, width: nat)
    requires Free(mask, n, effectiveMask, width) && forall k: nat :: k < n ==> !Free(mask, k, effectiveMask, width)
    ensures n <= width
  {
    if mask == {} {
      assert Up(mask, 0, width) == {};
      assert Free(mask, 0, effectiveMask, width);
    } else {
      var b :| b in mask;
      assert b + n < width;
    }
  }

  lemma {:induction false} NestIsOk(masks: seq<Bits>, width: nat)
    requires 0 < width && forall i :: 0 <= i < |masks| ==> Within(masks[i], width)
    ensures NestOk(WrapAll(masks, width), width) && |WrapAll(masks, width).layers| == |masks|
    ensures forall i :: 0 <= i < |masks| ==> WrapAll(masks, width).layers[i].mask == masks[i]
    ensures masks != [] ==> WrapAll(masks, width).layers[0] == Layer(masks[0], 0, 0)
  {
    if masks == [] {
    } else {
      NestIsOk(masks[..|masks| - 1], width);
      WrapKeeps(WrapAll(masks[..|masks| - 1], width), masks[|masks| - 1], width);
    }
  }

  // The flags of all wrappers of a nest, in their words.
  class FlaggedValue {
    const nest: Nest
    const width: nat
    var words: seq<Bits>

    ghost predicate Valid()
      reads this
    {
      NestOk(nest, width) && forall i :: 0 <= i < |nest.layers| ==> nest.layers[i].word < |words|
    }

    // flags() of the i-th wrapper.
    function Flags(i: nat): Bits
      requires Valid() && i < |nest.layers|
      reads this
    {
      var l := nest.layers[i];
      GetFlags(words[l.word], l.mask, l.shift, width)
    }

    // The wrappers are constructed from the inside out, and each sets its flags.
    constructor (masks: seq<Bits>, width: nat, flags: seq<Bits>)
      requires 0 < width && forall i :: 0 <= i < |masks| ==> Within(masks[i], width)
      requires |flags| == |masks|
      ensures Valid() && |nest.layers| == |masks| && forall i :: 0 <= i < |masks| ==> Flags(i) == flags[i] * masks[i]
    {
      nest := WrapAll(masks, width);
      this.width := width;
      NestIsOk(masks, width);
      words := seq(if masks == [] then 0 else WrapAll(masks, width).layers[|masks| - 1].word + 1, i => {});
      new;
      for i := 0 to |masks|
        invariant Valid() && |nest.layers| == |masks|
        invariant forall j :: 0 <= j < |masks| ==> nest.layers[j].mask == masks[j]
        invariant forall j :: 0 <= j < i ==> Flags(j) == flags[j] * masks[j]
      {
        SetFlagsAt(i, flags[i]);
      }
    }

    // setFlags of the i-th wrapper: it reads back masked, and no other wrapper is changed.
    method SetFlagsAt(i: nat, value: Bits)
      requires Valid() && i < |nest.layers|
      modifies this
      ensures Valid() && |words| == old(|words|)
      ensures forall j :: 0 <= j < |nest.layers| ==>
                Flags(j) == if j == i then value * nest.layers[i].mask else old(Flags(j))
    {
      var l := nest.layers[i];
      var before := words;
      words := words[l.word := SetFlags(words[l.word], l.mask, l.shift, value, width)];
      forall j | 0 <= j < |nest.layers|
        ensures Flags(j) == if j == i then value * l.mask
                            else GetFlags(before[nest.layers[j].word], nest.layers[j].mask, nest.layers[j].shift, width)
      {
        var o := nest.layers[j];
        if j == i {
          SetThenGet(before[l.word], l.mask, l.shift, value, width);
        } else if o.word == l.word {
          assert Apart(l, o, width) || Apart(o, l, width);
          SetSpares(before[l.word], l.mask, l.shift, value, o.mask, o.shift, width);
        }
      }
    }
  }
}
