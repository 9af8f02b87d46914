/** The indexes of a range, and what the int32 loop that lists them computes. */
module Ranges {
  import opened Wrappers
  import opened Arithmetic

  /** from, from + step, ... up to and including to. */
  function Progression(from: int, to: int, step: int): (s: seq<int>)
    requires from <= to && step >= 1
    ensures |s| >= 1
  {
    Divide(to - from, step, 0);
    Progress(from, step, (to - from) / step + 1)
  }

  function Progress(from: int, step: int, n: nat): seq<int> {
    seq(n, k => from + k * step)
  }

  /** The last index of the progression: the one after it would pass `to`. */
  function LastIndex(from: int, to: int, step: int): (last: int)
    requires from <= to && step >= 1
    ensures from <= last <= to < last + step
  {
    Divide(to - from, step, 0);
    Remainder(to - from, step);
    Scaled(0, (to - from) / step, step);
    from + (to - from) / step * step
  }

  /** The progression and its last index, one step on. */
  lemma ProgressionStep(from: int, to: int, step: int)
    requires from <= to && step >= 1
    ensures from + step <= to ==>
              && LastIndex(from + step, to, step) == LastIndex(from, to, step)
              && Progression(from, to, step) == [from] + Progression(from + step, to, step)
    ensures from + step > to ==> LastIndex(from, to, step) == from && Progression(from, to, step) == [from]
  {
    if from + step <= to {
      var q := (to - (from + step)) / step;
      Remainder(to - (from + step), step);
      OneMore(q, step);
      DivisionUnique(to - from, step, q + 1);
      ProgressNext(from, step, q + 1);
    } else {
      DivisionUnique(to - from, step, 0);
    }
  }

  lemma ProgressNext(from: int, step: int, n: nat)
    ensures Progress(from, step, n + 1) == [from] + Progress(from + step, step, n)
  {
    forall k | 1 <= k <= n ensures from + k * step == from + step + (k - 1) * step {
      OneMore(k - 1, step);
    }
  }

  // ---- the int32 loop ----

  /** The loop, given `fuel` rounds to end in: the indexes from `i` on. */
  function RangeLoop(i: int, to: int, step: int, fuel: nat): Option<seq<int>>
    decreases fuel
  {
    if i > to then Some([])
    else if fuel == 0 then None
    else
      match RangeLoop(Wrap32(i + step), to, step, fuel - 1)
      case None => None
      case Some(rest) => Some([i] + rest)
  }

  ghost predicate LoopEnds(from: int, to: int, step: int) {
    exists fuel: nat :: RangeLoop(from, to, step, fuel).Some?
  }

  /** What the loop lists when it ends. */
  ghost function LoopIndexes(from: int, to: int, step: int): (s: seq<int>)
    requires LoopEnds(from, to, step)
    ensures exists fuel: nat :: RangeLoop(from, to, step, fuel) == Some(s)
  {
    var fuel: nat :| RangeLoop(from, to, step, fuel).Some?;
    RangeLoop(from, to, step, fuel).value
  }

  /** More fuel than needed makes no difference. */
  lemma {:induction false} SpareFuel(i: int, to: int, step: int, fuel: nat, more: nat)
    requires RangeLoop(i, to, step, fuel).Some? && fuel <= more
    ensures RangeLoop(i, to, step, more) == RangeLoop(i, to, step, fuel)
    decreases fuel
  {
    if i <= to {
      SpareFuel(Wrap32(i + step), to, step, fuel - 1, more - 1);
    }
  }

  lemma LoopIndexesAre(from: int, to: int, step: int, fuel: nat)
    requires RangeLoop(from, to, step, fuel).Some?
    ensures LoopEnds(from, to, step) && LoopIndexes(from, to, step) == RangeLoop(from, to, step, fuel).value
  {
    var f: nat :| RangeLoop(from, to, step, f) == Some(LoopIndexes(from, to, step));
    if f <= fuel {
      SpareFuel(from, to, step, f, fuel);
    } else {
      SpareFuel(from, to, step, fuel, f);
    }
  }

  /** Bounds of the ranges a flag can name. */
  predicate IsRange(from: int, to: int, step: int) {
    0 <= from <= to <= MAX_INT32 && 1 <= step <= MAX_INT32
  }

  // ---- when it is the progression ----

  lemma {:induction false} LoopWithinInt32(from: int, to: int, step: int)
    requires IsRange(from, to, step) && LastIndex(from, to, step) + step <= MAX_INT32
    ensures RangeLoop(from, to, step, |Progression(from, to, step)|) == Some(Progression(from, to, step))
    decreases (to - from)
  {
    ProgressionStep(from, to, step);
    var fuel := |Progression(from, to, step)|;
    if from + step <= to {
      LoopWithinInt32(from + step, to, step);
      assert fuel - 1 == |Progression(from + step, to, step)|;
    } else {
      assert RangeLoop(from + step, to, step, fuel - 1) == Some([]) && [from] + [] == [from];
    }
  }

  /** After wrapping around, what the loop lists goes on from the progression with a negative index. */
  ghost predicate Overruns(s: seq<int>, from: int, to: int, step: int)
    requires from <= to && step >= 1
  {
    var n := |Progression(from, to, step)|;
    |s| > n && s[..n] == Progression(from, to, step) && s[n] < 0
  }

  lemma {:induction false} LoopOverruns(from: int, to: int, step: int, fuel: nat)
    requires IsRange(from, to, step) && LastIndex(from, to, step) + step > MAX_INT32
    requires RangeLoop(from, to, step, fuel).Some?
    ensures Overruns(RangeLoop(from, to, step, fuel).value, from, to, step)
    decreases fuel
  {
    var next := Wrap32(from + step);
    var rest := RangeLoop(next, to, step, fuel - 1).value;
    assert RangeLoop(from, to, step, fuel).value == [from] + rest;
    ProgressionStep(from, to, step);
    if from + step <= to {
      LoopOverruns(from + step, to, step, fuel - 1);
      OverrunsNext(rest, from, to, step);
    } else {
      WrapMultiple(from + step, 1);
      assert rest[0] == next;
      assert ([from] + rest)[..1] == [from];
    }
  }

  lemma OverrunsNext(rest: seq<int>, from: int, to: int, step: int)
    requires step >= 1 && from + step <= to && Overruns(rest, from + step, to, step)
    ensures Overruns([from] + rest, from, to, step)
  {
    ProgressionStep(from, to, step);
    var n := |Progression(from + step, to, step)|;
    assert ([from] + rest)[..n + 1] == [from] + rest[..n];
  }

  /** The loop ends with the progression exactly when it does not wrap around. */
  lemma RangeLoopExact(from: int, to: int, step: int)
    requires IsRange(from, to, step)
    ensures LoopEnds(from, to, step) && LoopIndexes(from, to, step) == Progression(from, to, step)
            <==> LastIndex(from, to, step) + step <= MAX_INT32
    ensures LoopEnds(from, to, step) && LastIndex(from, to, step) + step > MAX_INT32 ==>
              Overruns(LoopIndexes(from, to, step), from, to, step)
  {
    if LastIndex(from, to, step) + step <= MAX_INT32 {
      LoopWithinInt32(from, to, step);
      LoopIndexesAre(from, to, step, |Progression(from, to, step)|);
    } else if LoopEnds(from, to, step) {
      var fuel: nat :| RangeLoop(from, to, step, fuel) == Some(LoopIndexes(from, to, step));
      LoopOverruns(from, to, step, fuel);
    }
  }

  // ---- when it ends at all ----

  /** The loop's variable after `k` rounds. */
  function Term(i: int, step: int, k: nat): int {
    Wrap32(i + k * step)
  }

  lemma TermNext(i: int, step: int, k: nat)
    ensures Term(Wrap32(i + step), step, k) == Term(i, step, k + 1)
  {
    WrapAdd(i + step, k * step);
    OneMore(k, step);
  }

  /** The loop ends as soon as its variable passes `to`, and only then. */
  lemma {:induction false} EndsAt(i: int, to: int, step: int, k: nat)
    requires IsInt32(i) && Term(i, step, k) > to
    ensures RangeLoop(i, to, step, k).Some?
    decreases k
  {
    if k > 0 && i <= to {
      TermNext(i, step, k - 1);
      EndsAt(Wrap32(i + step), to, step, k - 1);
    }
  }

  lemma {:induction false} PassesAt(i: int, to: int, step: int, fuel: nat) returns (k: nat)
    requires IsInt32(i) && RangeLoop(i, to, step, fuel).Some?
    ensures Term(i, step, k) > to
    decreases fuel
  {
    if i > to {
      k := 0;
    } else {
      k := PassesAt(Wrap32(i + step), to, step, fuel - 1);
      TermNext(i, step, k);
      k := k + 1;
    }
  }

  /** How often 2 divides `step`. */
  function Twos(step: int): (v: nat)
    requires step >= 1
  {
    if step % 2 == 1 then 0 else 1 + Twos(step / 2)
  }

  /** The greatest power of two that divides `step`: its greatest common divisor with 2^32. */
  function Grain(step: int): (g: int)
    requires step >= 1
    ensures g >= 1
  {
    Pow2(Twos(step))
  }

  lemma {:induction false} GrainDivides(step: int) returns (odd: int)
    requires step >= 1
    ensures odd >= 1 && odd % 2 == 1 && step == odd * Grain(step)
  {
    if step % 2 == 1 {
      odd := step;
    } else {
      odd := GrainDivides(step / 2);
      assert odd * (2 * Grain(step / 2)) == 2 * (odd * Grain(step / 2));
    }
  }

  lemma WrapIsPow2()
    ensures Pow2(32) == WRAP
  {
    assert Pow2(8) == 256;
    Pow2Split(8, 8);
    Pow2Split(16, 16);
  }

  lemma {:induction false} TwosBelow(step: int, n: nat)
    requires 1 <= step < Pow2(n)
    ensures Twos(step) < n
  {
    if step % 2 == 0 {
      TwosBelow(step / 2, n - 1);
    }
  }

  lemma GrainDividesWrap(step: int) returns (m: int)
    requires 1 <= step <= MAX_INT32
    ensures WRAP == m * Grain(step)
  {
    WrapIsPow2();
    TwosBelow(step, 32);
    var v := Twos(step);
    Pow2Split(32 - v, v);
    m := Pow2(32 - v);
  }

  /** Multiples of an odd number take every value modulo a power of two. */
  lemma {:induction false} SolveOdd(odd: int, c: int, n: nat) returns (k: nat, q: int)
    requires odd % 2 == 1
    ensures k * odd == c + q * Pow2(n)
  {
    if n == 0 {
      k, q := 0, -c;
    } else {
      k, q := SolveOdd(odd, c, n - 1);
      k, q := NextBit(odd, c, Pow2(n - 1), k, q);
    }
  }

  /** A solution modulo p made one modulo 2 * p. */
  lemma NextBit(odd: int, c: int, p: nat, k: nat, q: int) returns (k': nat, q': int)
    requires odd % 2 == 1 && k * odd == c + q * p
    ensures k' * odd == c + q' * (2 * p)
  {
    k', q' := k, q;
    if q % 2 != 0 {
      k', q' := k + p, q + odd;
      Distribute(k, p, odd);
      Distribute(q, odd, p);
    }
    q' := HalfOf(q', p);
  }

  lemma HalfOf(q: int, p: int) returns (h: int)
    requires q % 2 == 0
    ensures q * p == h * (2 * p)
  {
    h := q / 2;
    Associate(h, 2, p);
  }

  /** `x` is a multiple of the step's power of two away from the range's first index. */
  predicate OnGrain(x: int, from: int, step: int)
    requires step >= 1
  {
    (x - from) % Grain(step) == 0
  }

  lemma TermOnGrain(from: int, step: int, k: nat)
    requires 1 <= step <= MAX_INT32
    ensures OnGrain(Term(from, step, k), from, step)
  {
    var g := Grain(step);
    var odd := GrainDivides(step);
    var m := GrainDividesWrap(step);
    var n := from + k * step;
    WrapSplit(n);
    var w := (n + 0x8000_0000) / WRAP;
    Associate(k, odd, g);
    Associate(w, m, g);
    Distribute(k * odd, w * m, g);
    MultipleRemainder(k * odd - w * m, g);
  }

  lemma TermsReach(x: int, from: int, step: int) returns (k: nat)
    requires IsInt32(x) && step >= 1 && OnGrain(x, from, step)
    ensures Term(from, step, k) == x
  {
    var g := Grain(step);
    var odd := GrainDivides(step);
    var c, q := (x - from) / g, 0;
    Remainder(x - from, g);
    WrapIsPow2();
    k, q := SolveOdd(odd, c, 32);
    Associate(k, odd, g);
    Distribute(c, q * WRAP, g);
    Swap(q, WRAP, g);
    WrapMultiple(from + k * step, q * g);
  }

  /**
   The loop ends if and only if some int32 beyond `to` can be reached from the first index in
   steps of the power of two in `step`.
   */
  lemma LoopEndsWhen(from: int, to: int, step: int)
    requires IsRange(from, to, step)
    ensures LoopEnds(from, to, step) <==> exists x :: to < x <= MAX_INT32 && OnGrain(x, from, step)
  {
    if LoopEnds(from, to, step) {
      var fuel: nat :| RangeLoop(from, to, step, fuel).Some?;
      var k := PassesAt(from, to, step, fuel);
      TermOnGrain(from, step, k);
    }
    if x :| to < x <= MAX_INT32 && OnGrain(x, from, step) {
      var k := TermsReach(x, from, step);
      EndsAt(from, to, step, k);
    }
  }

  /** A range up to the greatest int32 never ends; below it an odd step always does. */
  lemma GreatestNeverEnds(from: int, to: int, step: int)
    requires IsRange(from, to, step)
    ensures to == MAX_INT32 ==> !LoopEnds(from, to, step)
    ensures to < MAX_INT32 && step % 2 == 1 ==> LoopEnds(from, to, step)
  {
    LoopEndsWhen(from, to, step);
    if to < MAX_INT32 && step % 2 == 1 {
      assert OnGrain(to + 1, from, step);
    }
  }
}
