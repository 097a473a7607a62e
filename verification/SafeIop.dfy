// The checked arithmetic of utils/safe_iop.h, at any width.
//
// Every operation inside a check is written with a function that requires its result to be
// representable, so that no check can itself overflow.
module SafeIop {
  import opened Wrappers

  function Pow2(n: nat): (r: nat)
    ensures r >= 1
  {
    if n == 0 then 1 else 2 * Pow2(n - 1)
  }

  type Width = w: nat | w >= 1 witness 1

  function Smax(w: Width): int { Pow2(w - 1) - 1 }
  function Smin(w: Width): int { -Smax(w) - 1 }
  function Umax(w: Width): int { Pow2(w) - 1 }

  predicate FitsS(w: Width, x: int) { Smin(w) <= x <= Smax(w) }
  predicate FitsU(w: Width, x: int) { 0 <= x <= Umax(w) }

  // The operations of the machine, where they do not overflow.
  function PlusS(w: Width, x: int, y: int): int
    requires FitsS(w, x) && FitsS(w, y) && FitsS(w, x + y)
  {
    x + y
  }

  function MinusS(w: Width, x: int, y: int): int
    requires FitsS(w, x) && FitsS(w, y) && FitsS(w, x - y)
  {
    x - y
  }

  function TimesS(w: Width, x: int, y: int): int
    requires FitsS(w, x) && FitsS(w, y) && FitsS(w, x * y)
  {
    x * y
  }

  function PlusU(w: Width, x: int, y: int): int
    requires FitsU(w, x) && FitsU(w, y) && FitsU(w, x + y)
  {
    x + y
  }

  function MinusU(w: Width, x: int, y: int): int
    requires FitsU(w, x) && FitsU(w, y) && FitsU(w, x - y)
  {
    x - y
  }

  function TimesU(w: Width, x: int, y: int): int
    requires FitsU(w, x) && FitsU(w, y) && FitsU(w, x * y)
  {
    x * y
  }

  // Division truncates toward zero.
  function Truncated(x: int, y: int): int
    requires y != 0
  {
    if x >= 0 then if y > 0 then x / y else -(x / -y)
    else if y > 0 then -(-x / y) else -x / -y
  }

  function DivS(w: Width, x: int, y: int): int
    requires FitsS(w, x) && FitsS(w, y) && y != 0 && FitsS(w, Truncated(x, y))
  {
    Truncated(x, y)
  }

  function DivU(w: Width, x: int, y: int): int
    requires FitsU(w, x) && FitsU(w, y) && y != 0
  {
    x / y
  }

  lemma ProductBelow(x: nat, y: nat, n: nat)
    requires y > 0
    ensures x <= n / y <==> x * y <= n
  {
    if x <= n / y {
      assert x * y <= n / y * y;
    } else {
      assert x * y >= (n / y + 1) * y;
    }
  }

  lemma QuotientFits(n: nat, y: int)
    requires y != 0
    ensures 0 <= n / (if y > 0 then y else -y) <= n
  {
    var d := if y > 0 then y else -y;
    ProductBelow(n + 1, d, n);
    ProductGrows(n + 1, d);
  }

  lemma ProductGrows(x: nat, d: nat)
    requires d > 0
    ensures x * d >= x
  {
  }

  // What each operation stores; None when it returns 0 and stores nothing.
  function Uadd(w: Width, a: int, b: int): (r: Option<int>)
    requires FitsU(w, a) && FitsU(w, b)
    ensures r == if FitsU(w, a + b) then Some(a + b) else None
  {
    if b <= MinusU(w, Umax(w), a) then Some(PlusU(w, a, b)) else None
  }

  function Sadd(w: Width, a: int, b: int): (r: Option<int>)
    requires FitsS(w, a) && FitsS(w, b)
    ensures r == if FitsS(w, a + b) then Some(a + b) else None
  {
    if b > 0 && a > 0 then
      if a > MinusS(w, Smax(w), b) then None else Some(PlusS(w, a, b))
    else if !(b > 0) && !(a > 0) then
      if a < MinusS(w, Smin(w), b) then None else Some(PlusS(w, a, b))
    else Some(PlusS(w, a, b))
  }

  function Usub(w: Width, a: int, b: int): (r: Option<int>)
    requires FitsU(w, a) && FitsU(w, b)
    ensures r == if FitsU(w, a - b) then Some(a - b) else None
  {
    if a >= b then Some(MinusU(w, a, b)) else None
  }

  function Ssub(w: Width, a: int, b: int): (r: Option<int>)
    requires FitsS(w, a) && FitsS(w, b)
    ensures r == if FitsS(w, a - b) then Some(a - b) else None
  {
    if !(b <= 0 && a > PlusS(w, Smax(w), b)) && !(b > 0 && a < PlusS(w, Smin(w), b)) then
      Some(MinusS(w, a, b))
    else None
  }

  function Umul(w: Width, a: int, b: int): (r: Option<int>)
    requires FitsU(w, a) && FitsU(w, b)
    ensures r == if FitsU(w, a * b) then Some(a * b) else None
  {
    if b == 0 then Some(TimesU(w, a, b))
    else
      ProductBelow(a, b, Umax(w));
      if a <= DivU(w, Umax(w), b) then Some(TimesU(w, a, b)) else None
  }

  // When the check of safe_smul fails.
  predicate SmulOverflows(w: Width, a: int, b: int)
    requires FitsS(w, a) && FitsS(w, b)
  {
    QuotientsFit(w, a, b);
    if a > 0 then
      if b > 0 then a > DivS(w, Smax(w), b) else b < DivS(w, Smin(w), a)
    else
      if b > 0 then a < DivS(w, Smin(w), b) else a != 0 && b < DivS(w, Smax(w), a)
  }

  lemma QuotientsFit(w: Width, a: int, b: int)
    requires FitsS(w, a) && FitsS(w, b)
    ensures b != 0 ==> FitsS(w, Truncated(Smax(w), b))
    ensures a != 0 ==> FitsS(w, Truncated(Smax(w), a))
    ensures a > 0 ==> FitsS(w, Truncated(Smin(w), a))
    ensures b > 0 ==> FitsS(w, Truncated(Smin(w), b))
  {
    if b != 0 {
      QuotientFits(Smax(w), b);
    }
    if a != 0 {
      QuotientFits(Smax(w), a);
    }
    if a > 0 {
      QuotientFits(-Smin(w), a);
    }
    if b > 0 {
      QuotientFits(-Smin(w), b);
    }
  }

  lemma BothPositive(w: Width, a: int, b: int)
    requires FitsS(w, a) && FitsS(w, b) && a > 0 && b > 0
    ensures a > Smax(w) / b <==> !FitsS(w, a * b)
  {
    ProductBelow(a, b, Smax(w));
    assert a * b > 0;
  }

  lemma OnePositive(w: Width, a: int, b: int)
    requires FitsS(w, a) && FitsS(w, b) && a > 0 && b <= 0
    ensures b < -(-Smin(w) / a) <==> !FitsS(w, a * b)
  {
    ProductBelow(-b, a, -Smin(w));
    assert -b * a == -(a * b) && a * b <= 0;
  }

  lemma NonePositive(w: Width, a: int, b: int)
    requires FitsS(w, a) && FitsS(w, b) && a < 0 && b <= 0
    ensures b < -(Smax(w) / -a) <==> !FitsS(w, a * b)
  {
    ProductBelow(-b, -a, Smax(w));
    assert -b * -a == a * b && a * b >= 0;
  }

  // The four comparisons with truncated quotients are exact.
  lemma SmulExact(w: Width, a: int, b: int)
    requires FitsS(w, a) && FitsS(w, b)
    ensures SmulOverflows(w, a, b) <==> !FitsS(w, a * b)
  {
    if a > 0 && b > 0 {
      BothPositive(w, a, b);
    } else if a > 0 {
      OnePositive(w, a, b);
    } else if b > 0 {
      OnePositive(w, b, a);
      assert a * b == b * a;
    } else if a != 0 {
      NonePositive(w, a, b);
    }
  }

  function Smul(w: Width, a: int, b: int): (r: Option<int>)
    requires FitsS(w, a) && FitsS(w, b)
    ensures r == if FitsS(w, a * b) then Some(a * b) else None
  {
    SmulExact(w, a, b);
    if SmulOverflows(w, a, b) then None else Some(TimesS(w, a, b))
  }

  // safe_add, safe_sub and safe_mul on a type and their chains.
  datatype Op = Add | Sub | Mul

  predicate Fits(signed: bool, w: Width, x: int) {
    if signed then FitsS(w, x) else FitsU(w, x)
  }

  function Apply(op: Op, signed: bool, w: Width, a: int, b: int): Option<int>
    requires Fits(signed, w, a) && Fits(signed, w, b)
  {
    match op
    case Add => if signed then Sadd(w, a, b) else Uadd(w, a, b)
    case Sub => if signed then Ssub(w, a, b) else Usub(w, a, b)
    case Mul => if signed then Smul(w, a, b) else Umul(w, a, b)
  }

  function Exact(op: Op, a: int, b: int): int {
    match op
    case Add => a + b
    case Sub => a - b
    case Mul => a * b
  }

  // safe_add3 to safe_mul5: one operation after the other, as long as each succeeds.
  function Chain(op: Op, signed: bool, w: Width, a: int, rest: seq<int>): Option<int>
    requires Fits(signed, w, a) && forall i :: 0 <= i < |rest| ==> Fits(signed, w, rest[i])
    decreases |rest|
  {
    if rest == [] then Some(a)
    else
      var r := Apply(op, signed, w, a, rest[0]);
      if r.None? then None else Chain(op, signed, w, r.value, rest[1..])
  }

  function Total(op: Op, a: int, rest: seq<int>): int
    decreases |rest|
  {
    if rest == [] then a else Total(op, Exact(op, a, rest[0]), rest[1..])
  }

  // The first number and all partial results can be represented.
  predicate AllFit(op: Op, signed: bool, w: Width, a: int, rest: seq<int>)
    decreases |rest|
  {
    Fits(signed, w, a) && (rest == [] || AllFit(op, signed, w, Exact(op, a, rest[0]), rest[1..]))
  }

  // A chain succeeds exactly when every partial result fits, and then with the exact result.
  lemma {:induction false} ChainIsExact(op: Op, signed: bool, w: Width, a: int, rest: seq<int>)
    requires Fits(signed, w, a) && forall i :: 0 <= i < |rest| ==> Fits(signed, w, rest[i])
    ensures Chain(op, signed, w, a, rest) ==
              if AllFit(op, signed, w, a, rest) then Some(Total(op, a, rest)) else None
    decreases |rest|
  {
    if rest == [] {
    } else if Fits(signed, w, Exact(op, a, rest[0])) {
      ChainIsExact(op, signed, w, Exact(op, a, rest[0]), rest[1..]);
    }
  }

  lemma {:induction false} AllFitIs(op: Op, signed: bool, w: Width, a: int, rest: seq<int>)
    ensures AllFit(op, signed, w, a, rest) <==>
              forall i :: 0 <= i <= |rest| ==> Fits(signed, w, Total(op, a, rest[..i]))
    decreases |rest|
  {
    assert rest[..0] == [];
    if rest == [] {
    } else {
      var x, tail := Exact(op, a, rest[0]), rest[1..];
      AllFitIs(op, signed, w, x, tail);
      forall i | 0 <= i <= |tail| ensures Total(op, a, rest[..i + 1]) == Total(op, x, tail[..i]) {
        assert rest[..i + 1][1..] == tail[..i];
      }
      forall i | 0 < i <= |rest| ensures Total(op, a, rest[..i]) == Total(op, x, tail[..i - 1]) {
        assert rest[..i][1..] == tail[..i - 1];
      }
    }
  }

  lemma {:induction false} AddsUp(a: int, rest: seq<int>)
    requires forall i :: 0 <= i < |rest| ==> rest[i] >= 0
    ensures Total(Add, a, rest) >= a && Total(Sub, a, rest) <= a
    decreases |rest|
  {
    if rest == [] {
    } else {
      AddsUp(a + rest[0], rest[1..]);
      AddsUp(a - rest[0], rest[1..]);
    }
  }

  // Unsigned sums and differences only grow or only shrink, so that the total alone decides.
  lemma {:induction false} UnsignedChainIff(op: Op, w: Width, a: int, rest: seq<int>)
    requires op != Mul && FitsU(w, a) && forall i :: 0 <= i < |rest| ==> FitsU(w, rest[i])
    ensures Chain(op, false, w, a, rest) == if FitsU(w, Total(op, a, rest)) then Some(Total(op, a, rest)) else None
    decreases |rest|
  {
    if rest == [] {
    } else {
      var x := Exact(op, a, rest[0]);
      AddsUp(x, rest[1..]);
      AddsUp(a, rest);
      if FitsU(w, x) {
        UnsignedChainIff(op, w, x, rest[1..]);
      }
    }
  }

  // The total does not decide for signed chains, nor for unsigned products.
  lemma TotalDoesNotDecide(w: Width)
    requires w >= 2
    ensures Chain(Add, true, w, Smax(w), [1, -1]) == None && FitsS(w, Total(Add, Smax(w), [1, -1]))
    ensures Chain(Mul, false, w, Umax(w), [2, 0]) == None && FitsU(w, Total(Mul, Umax(w), [2, 0]))
  {
  }
}
