/** The loop shapes that the loop analysis recognises and the trip-count
    formula it documents (lib/Optimizer/Transforms/LoopAnalysis.h). The
    analysis' implementation file is not part of this model; these are the
    definitions its header states. */
module LoopAnalysis {
  import opened Common

  /** The `arith.cmpi` predicate comparing the induction with its bound. */
  datatype Comparison = Lt | Le | Ne | Ge | Gt | Eq

  /** The `arith` operation that computes the next induction value. */
  datatype StepOp = AddStep | SubStep | OtherStep

  /** What the analysis observes about a `cc.loop`: the comparison, the step
      operation, whether the bound and step are loop invariant (no store, no
      call, no dependence on a block argument) and whether the body can exit
      early. */
  datatype LoopShape = LoopShape(
    comparison: Comparison,
    step: StepOp,
    boundInvariant: bool,
    stepInvariant: bool,
    earlyExit: bool)

  /** The control-induction form: a comparison among <, <=, !=, >=, > against
      an invariant bound, advanced by an add or sub of an invariant step. */
  predicate HasMonotonicControlInduction(s: LoopShape)
  {
    && s.comparison != Eq
    && (s.step == AddStep || s.step == SubStep)
    && s.boundInvariant
    && s.stepInvariant
  }

  /** A monotonic loop has a monotonic control induction and no early exit. */
  predicate IsMonotonic(s: LoopShape)
  {
    HasMonotonicControlInduction(s) && !s.earlyExit
  }

  /** The documented iteration count of `for (i = start; i < stop; i += step)`:
      (stop - 1 - start + step) / step when that is positive, 0 otherwise. The
      division is C++ integer division. */
  function TripCount(start: int, stop: int, step: int): (n: nat)
    requires step > 0
  {
    var iterations := CppDiv(stop - 1 - start + step, step);
    if iterations > 0 then iterations else 0
  }

  /** Reference semantics: the number of iterations the loop actually runs,
      counted by running it. */
  function Iterations(start: int, stop: int, step: int): nat
    requires step > 0
    decreases stop - start
  {
    if start < stop then 1 + Iterations(start + step, stop, step) else 0
  }

  /** The documented formula counts exactly the iterations the semi-open loop
      runs, for every positive step. */
  lemma {:induction false} TripCountIsIterations(start: int, stop: int, step: int)
    requires step > 0
    ensures TripCount(start, stop, step) == Iterations(start, stop, step)
    decreases stop - start
  {
    if start < stop {
      TripCountIsIterations(start + step, stop, step);
      var a := stop - 1 - start + step;
      assert a >= step;
      assert CppDiv(a, step) == a / step;
      assert a - step >= 0 ==> CppDiv(a - step, step) == (a - step) / step;
      DivShift(a - step, step);
    } else {
      var a := stop - 1 - start + step;
      assert a < step;
      if a >= 0 {
        assert CppDiv(a, step) == 0;
      } else {
        assert CppDiv(a, step) <= 0;
      }
    }
  }

  lemma DivShift(a: int, b: int)
    requires b > 0
    ensures (a + b) / b == a / b + 1
  {
    var q, r := a / b, a % b;
    assert a == q * b + r;
    assert a + b == (q + 1) * b + r;
    DivUnique(a + b, b, q + 1, r);
  }

  /** A loop's control shape together with the induction's initial value and
      the step value, each present when it is an integer constant. */
  datatype CountedShape = CountedShape(control: LoopShape, initial: Option<int>, stepValue: Option<int>)

  /** `isaCountedLoop(loop, allowClosedInterval)`: the normalised form
      `for (i = 0; i < bound; ++i)` of a monotonic loop, that is an add of the
      constant step 1 from the constant 0, compared with `<`, or with `<=`
      when the closed interval is allowed. */
  predicate IsCountedLoop(c: CountedShape, allowClosedInterval: bool)
  {
    && IsMonotonic(c.control)
    && c.control.step == AddStep
    && c.initial == Some(0)
    && c.stepValue == Some(1)
    && (c.control.comparison == Lt || (allowClosedInterval && c.control.comparison == Le))
  }

  /** The exclusive stop of a loop compared with `bound`: `i <= bound` runs
      like `i < bound + 1`. */
  function Stop(comparison: Comparison, bound: int): int
  {
    if comparison == Le then bound + 1 else bound
  }

  /** A counted loop with a constant bound runs as many iterations as its
      exclusive stop (none when that is not positive), and the documented
      formula agrees. */
  lemma CountedLoopIterations(c: CountedShape, allowClosedInterval: bool, bound: int)
    requires IsCountedLoop(c, allowClosedInterval)
    ensures var stop := Stop(c.control.comparison, bound);
      && Iterations(c.initial.value, stop, c.stepValue.value) == (if stop > 0 then stop else 0)
      && TripCount(c.initial.value, stop, c.stepValue.value) == (if stop > 0 then stop else 0)
  {
    CanonicalCountedLoop(Stop(c.control.comparison, bound));
  }

  /** The canonical counted loop `for (i = 0; i < n; ++i)` is monotonic when its
      bound is invariant and runs n iterations (none for n <= 0), in agreement
      with the formula at start 0, step 1. */
  lemma CanonicalCountedLoop(n: int)
    ensures IsCountedLoop(CountedShape(LoopShape(Lt, AddStep, true, true, false), Some(0), Some(1)), false)
    ensures TripCount(0, n, 1) == (if n > 0 then n else 0)
    ensures Iterations(0, n, 1) == TripCount(0, n, 1)
  {
    TripCountIsIterations(0, n, 1);
  }
}
