/** Full unrolling of counted `cc.loop` operations
    (lib/Optimizer/Transforms/LoopUnroll.cpp): the threshold test, the
    rewrite pattern's rejection rules, the unroll count, the threading of
    iteration values through the cloned bodies, and the pass' legality
    predicate. Region cloning and block splitting are represented by the
    values each cloned body receives. */
module LoopUnroll {
  import opened Common
  import LoopAnalysis

  /** The loop's compare value as the pattern sees it: defined by an
      `arith.constant` with an integer attribute, by a constant of another
      kind, or by anything else. */
  datatype CompareValue = IntConstant(v: int) | OtherConstant | NotConstant

  /** What `getLoopComponents` recovers (its implementation is not part of
      this model): the induction's operand position and the compare value. */
  datatype Components = Components(induction: nat, compareValue: CompareValue)

  datatype InductionType = IntegerType | IndexType | OtherType

  /** The facts about one `cc.loop` that the pattern and the pass consult:
      its control shape with the constant initial and step values, and the
      components, `None` when the loop analysis fails. */
  datatype Loop = Loop(
    shape: LoopAnalysis.CountedShape,
    components: Option<Components>,
    numOperands: nat,
    inductionType: InductionType)

  /** `isaCountedLoop(loop)`, with the closed interval allowed by default. */
  predicate Counted(loop: Loop)
  {
    LoopAnalysis.IsCountedLoop(loop.shape, true)
  }

  /** `isClosedIntervalForm`: the loop compares with `<=` or `>=`. */
  predicate ClosedInterval(loop: Loop)
  {
    loop.shape.control.comparison == LoopAnalysis.Le || loop.shape.control.comparison == LoopAnalysis.Ge
  }

  /** A value threaded between the cloned bodies: one of the loop's own
      operands, an integer constant, or operand `slot` of the terminator of
      cloned body `copy`. */
  datatype Value = LoopOperand(index: nat) | Constant(n: int) | Carried(copy: nat, slot: nat)

  datatype UnrollError =
    | NotCounted          // "not a simple counted loop"
    | ExceedsThreshold    // "loop bounds exceed iteration threshold"
    | NonIntegralInduction // "induction must be integral type"

  /** The result of a successful rewrite: the arguments each cloned body
      receives, and the values that replace the loop's results. */
  datatype Unrolled = Unrolled(copies: seq<seq<Value>>, replacement: seq<Value>)

  /** `unrollLoopByValue(loop, components)`: the compare value when it is an
      integer constant, converted to `std::size_t`. */
  function UnrollByValue(c: Components): (r: Option<nat>)
    ensures r.Some? <==> c.compareValue.IntConstant?
    ensures r.Some? ==> r.value < SizeModulus
    ensures r.Some? && 0 <= c.compareValue.v < SizeModulus ==> r.value == c.compareValue.v
  {
    match c.compareValue
    case IntConstant(v) => Some(ToSize(v))
    case _ => None
  }

  function LoopUnrollByValue(loop: Loop): Option<nat>
  {
    if loop.components.None? then None else UnrollByValue(loop.components.value)
  }

  /** `exceedsThresholdValue`: a loop whose count is unknown exceeds every
      threshold; a known count exceeds it when it is at least the threshold. */
  predicate ExceedsThresholdValue(loop: Loop, threshold: nat)
  {
    match LoopUnrollByValue(loop)
    case None => true
    case Some(v) => v >= threshold
  }

  /** The checks of `UnrollCountedLoop::matchAndRewrite`, in source order, and
      the number of bodies it clones: the compare value, plus one for the
      closed-interval form. */
  function UnrollCount(loop: Loop, threshold: nat): (r: Result<nat, UnrollError>)
    ensures r.Ok? ==> Counted(loop) && loop.components.Some?
    ensures r.Ok? ==> loop.inductionType != OtherType
    ensures r.Ok? ==>
      var v := UnrollByValue(loop.components.value);
      && v.Some? && v.value < threshold
      && r.value == v.value + (if ClosedInterval(loop) then 1 else 0)
    ensures !Counted(loop) ==> r == Err(NotCounted)
    ensures Counted(loop) && ExceedsThresholdValue(loop, threshold) ==> r == Err(ExceedsThreshold)
  {
    if !Counted(loop) then Err(NotCounted)
    else if ExceedsThresholdValue(loop, threshold) then Err(ExceedsThreshold)
    else
      // Not exceeding the threshold means the analysis succeeded with an
      // integer constant, so the source's two re-checks of the analysis
      // cannot fail here.
      var c := loop.components.value;
      var unrollBy := UnrollByValue(c).value + (if ClosedInterval(loop) then 1 else 0);
      if loop.inductionType == OtherType then Err(NonIntegralInduction)
      else Ok(unrollBy)
  }

  /** The arguments branched to cloned body `i`: the previous body's
      terminator operands (the loop's own operands for the first body), with
      the induction slot replaced by the constant `i`. */
  function CopyArguments(numOperands: nat, induction: nat, i: nat): (args: seq<Value>)
    requires induction < numOperands
    ensures |args| == numOperands
  {
    seq(numOperands, (k: nat) => if k == induction then Constant(i)
                          else if i == 0 then LoopOperand(k) else Carried(i - 1, k))
  }

  /** The body-cloning loop of `matchAndRewrite`: clone the body `unrollBy`
      times, branch into each clone with the current iteration values, then
      replace the loop's results with the last clone's terminator operands,
      the induction slot set to the constant `unrollBy`. */
  method CloneBodies(numOperands: nat, induction: nat, unrollBy: nat) returns (u: Unrolled)
    requires induction < numOperands
    ensures |u.copies| == unrollBy
    ensures forall i :: 0 <= i < unrollBy ==> |u.copies[i]| == numOperands
    ensures forall i :: 0 <= i < unrollBy ==> u.copies[i][induction] == Constant(i)
    ensures forall i, k :: 0 < i < unrollBy && 0 <= k < numOperands && k != induction ==>
      u.copies[i][k] == Carried(i - 1, k)
    ensures unrollBy > 0 ==> forall k :: 0 <= k < numOperands && k != induction ==>
      u.copies[0][k] == LoopOperand(k)
    ensures |u.replacement| == numOperands
    ensures u.replacement[induction] == Constant(unrollBy)
    ensures forall k :: 0 <= k < numOperands && k != induction ==>
      u.replacement[k] == (if unrollBy == 0 then LoopOperand(k) else Carried(unrollBy - 1, k))
  {
    var iterationOpers := seq(numOperands, (k: nat) => LoopOperand(k));
    var iterCount := Constant(0);
    var copies: seq<seq<Value>> := [];
    var i := 0;
    while i < unrollBy
      invariant 0 <= i <= unrollBy
      invariant |copies| == i
      invariant iterCount == Constant(i)
      invariant |iterationOpers| == numOperands
      invariant forall k :: 0 <= k < numOperands && k != induction ==>
        iterationOpers[k] == (if i == 0 then LoopOperand(k) else Carried(i - 1, k))
      invariant forall j :: 0 <= j < i ==> copies[j] == CopyArguments(numOperands, induction, j)
    {
      var termOpers := seq(numOperands, (k: nat) => Carried(i, k));
      var nextIterCount := Constant(i + 1);
      iterationOpers := iterationOpers[induction := iterCount];
      copies := copies + [iterationOpers];
      iterationOpers := termOpers;
      iterCount := nextIterCount;
      i := i + 1;
    }
    iterationOpers := iterationOpers[induction := Constant(unrollBy)];
    u := Unrolled(copies, iterationOpers);
  }

  /** The pass' legality predicate: a loop is left alone exactly when failure
      is not requested and the loop is not counted or over the threshold. */
  predicate Legal(loop: Loop, signalFailure: bool, threshold: nat)
  {
    !signalFailure && (!Counted(loop) || ExceedsThresholdValue(loop, threshold))
  }

  /** The pattern rewrites only loops the pass deems illegal, and only loops
      whose count is a constant below the threshold. */
  lemma RewriteOnlyIllegalLoops(loop: Loop, signalFailure: bool, threshold: nat)
    requires UnrollCount(loop, threshold).Ok?
    ensures !Legal(loop, signalFailure, threshold)
    ensures LoopUnrollByValue(loop).Some? && LoopUnrollByValue(loop).value < threshold
  {
  }

  /** Conversely, when failure is not requested, every illegal loop whose
      analysis succeeds with an integral induction is rewritten. */
  lemma IllegalLoopsAreRewritten(loop: Loop, threshold: nat)
    requires !Legal(loop, false, threshold)
    requires loop.inductionType != OtherType
    ensures UnrollCount(loop, threshold).Ok?
  {
  }

  /** A loop the pattern unrolls is a counted loop `for (i = 0; i < n; ++i)`
      (or `i <= n`), and its unroll count is the number of iterations that
      loop runs from its own initial value with its own step. */
  lemma UnrollCountIsTripCount(loop: Loop, threshold: nat, n: nat)
    requires n < SizeModulus
    requires loop.components.Some? && loop.components.value.compareValue == IntConstant(n)
    requires UnrollCount(loop, threshold).Ok?
    ensures loop.shape.initial == Some(0) && loop.shape.stepValue == Some(1)
    ensures var stop := LoopAnalysis.Stop(loop.shape.control.comparison, n);
      && UnrollCount(loop, threshold).value == LoopAnalysis.Iterations(loop.shape.initial.value, stop, loop.shape.stepValue.value)
      && UnrollCount(loop, threshold).value == LoopAnalysis.TripCount(loop.shape.initial.value, stop, loop.shape.stepValue.value)
  {
    LoopAnalysis.CountedLoopIterations(loop.shape, true, n);
  }
}
