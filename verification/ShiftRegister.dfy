/**
  Shift registers with feedback over any group with exclusive or: what a step does to a mixture of
  a remainder and the message bits still to be shifted in.
*/
module ShiftRegister {
  import opened Folds

  ghost predicate IsXor<T(!new)>(xor: (T, T) -> T) {
    && (forall a, b :: xor(a, b) == xor(b, a))
    && (forall a, b, c :: xor(xor(a, b), c) == xor(a, xor(b, c)))
    && (forall a, b :: xor(a, xor(a, b)) == b)
  }

  ghost predicate Distributes<T(!new)>(f: T -> T, op: (T, T) -> T) {
    forall a, b :: f(op(a, b)) == op(f(a), f(b))
  }

  /** `low` reads a bit. */
  ghost predicate ReadsBit<T(!new)>(xor: (T, T) -> T, low: T -> bool) {
    forall a, b :: low(xor(a, b)) == (low(a) != low(b))
  }

  ghost predicate IsStep<T(!new)>(xor: (T, T) -> T, half: T -> T, low: T -> bool, p: T, step: T -> T) {
    forall c :: step(c) == if low(c) then xor(p, half(c)) else half(c)
  }

  ghost predicate IsShiftIn<T(!new)>(xor: (T, T) -> T, half: T -> T, low: T -> bool, p: T, shiftIn: (T, bool) -> T) {
    forall c, bit :: shiftIn(c, bit) == if low(c) != bit then xor(p, half(c)) else half(c)
  }

  lemma XorCancels<T(!new)>(xor: (T, T) -> T, p: T, a: T, b: T)
    requires IsXor(xor)
    ensures xor(xor(p, a), xor(p, b)) == xor(a, b)
    ensures xor(a, xor(p, b)) == xor(p, xor(a, b))
  {
    assert xor(xor(p, a), xor(p, b)) == xor(xor(a, p), xor(p, b)) == xor(a, xor(p, xor(p, b)));
    assert xor(a, xor(p, b)) == xor(xor(a, p), b) == xor(xor(p, a), b);
  }

  /** A step distributes over exclusive or. */
  lemma StepDistributes<T(!new)>(xor: (T, T) -> T, half: T -> T, low: T -> bool, p: T, step: T -> T)
    requires IsXor(xor) && Distributes(half, xor) && ReadsBit(xor, low) && IsStep(xor, half, low, p, step)
    ensures Distributes(step, xor)
  {
    forall a, b ensures step(xor(a, b)) == xor(step(a), step(b)) {
      XorCancels(xor, p, half(a), half(b));
      assert xor(xor(p, half(a)), half(b)) == xor(p, xor(half(a), half(b)));
    }
  }

  /** A step on a mixture shifts one bit of the mixed-in part into the rest. */
  ghost predicate StepsShiftIn<T(
    !new)>(step: T -> T, mix: (T, T) -> T, shiftIn: (T, bool) -> T, low: T -> bool, half: T -> T) {
    forall a, b :: step(mix(a, b)) == mix(shiftIn(a, low(b)), half(b))
  }

  lemma StepShiftsIn<T(
    !new)>(xor: (T, T) -> T, half: T -> T, low: T -> bool, p: T, step: T -> T, shiftIn: (T, bool) -> T)
    requires IsXor(xor) && Distributes(half, xor) && ReadsBit(xor, low)
    requires IsStep(xor, half, low, p, step) && IsShiftIn(xor, half, low, p, shiftIn)
    ensures StepsShiftIn(step, xor, shiftIn, low, half)
  {
    forall a, b ensures step(xor(a, b)) == xor(shiftIn(a, low(b)), half(b)) {
      assert xor(xor(p, half(a)), half(b)) == xor(p, xor(half(a), half(b)));
    }
  }

  /** Iterating a function that distributes over an operation distributes over it. */
  lemma {:induction false} IterDistributes<T(!new)>(f: T -> T, op: (T, T) -> T, x: T, y: T, n: nat)
    requires Distributes(f, op)
    ensures Iter(f, op(x, y), n) == op(Iter(f, x, n), Iter(f, y, n))
  {
    if n > 0 {
      IterDistributes(f, op, x, y, n - 1);
    }
  }

  /** The first `n` bits `low` reads while `half` drops them one by one. */
  function LowBits<T>(low: T -> bool, half: T -> T, d: T, n: nat): seq<bool> {
    if n == 0 then [] else LowBits(low, half, d, n - 1) + [low(Iter(half, d, n - 1))]
  }

  lemma {:induction false} IterShiftsIn<T(!new)>(
    step: T -> T, mix: (T, T) -> T, shiftIn: (T, bool) -> T, low: T -> bool, half: T -> T, s: T, d: T, n: nat)
    requires StepsShiftIn(step, mix, shiftIn, low, half)
    ensures Iter(step, mix(s, d), n) == mix(Fold(shiftIn, s, LowBits(low, half, d, n)), Iter(half, d, n))
  {
    if n > 0 {
      IterShiftsIn(step, mix, shiftIn, low, half, s, d, n - 1);
      FoldSnoc(shiftIn, s, LowBits(low, half, d, n - 1), low(Iter(half, d, n - 1)));
    }
  }

  /** An orbit spelt out. */
  lemma IterEight<T>(f: T -> T, xs: seq<T>)
    requires |xs| == 9 && forall k :: 0 <= k < 8 ==> f(xs[k]) == xs[k + 1]
    ensures forall k: nat :: k <= 8 ==> Iter(f, xs[0], k) == xs[k]
  {
    var k := 0;
    while k < 8
      invariant 0 <= k <= 8 && forall j: nat :: j <= k ==> Iter(f, xs[0], j) == xs[j]
    {
      k := k + 1;
    }
  }

  lemma EightLowBits<T>(low: T -> bool, half: T -> T, xs: seq<T>, bits: seq<bool>)
    requires |xs| == 9 && forall k :: 0 <= k < 8 ==> half(xs[k]) == xs[k + 1]
    requires |bits| == 8 && forall k :: 0 <= k < 8 ==> low(xs[k]) == bits[k]
    ensures LowBits(low, half, xs[0], 8) == bits
  {
    IterEight(half, xs);
    var k := 0;
    while k < 8
      invariant 0 <= k <= 8 && LowBits(low, half, xs[0], k) == bits[..k]
    {
      k := k + 1;
    }
    assert bits[..8] == bits;
  }
}
