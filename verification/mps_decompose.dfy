/** Gate-list generation of the matrix-product-state simulator
    (runtime/nvqir/cutensornet/simulator_mps_register.cpp): the two-qubit
    limit of the backend, multi-controlled gates collected into auxiliary
    qubits by a ladder of Toffoli gates, the 15-gate Toffoli expansion, the
    controlled swap and the exp-Pauli CNOT ladder. The tensor network itself
    is not modelled: a gate is a record appended to the simulator's queue. */
module MpsDecompose {
  import opened Common
  import Pauli
  import SpinOp

  datatype GateName = H | X | Y | Z | S | T | Sdg | Tdg | Rx | Ry | Rz | R1 | Swap

  /** A queued gate application: name, angles, control and target qubits. */
  datatype Gate = Gate(name: GateName, params: seq<real>, controls: seq<nat>, targets: seq<nat>)

  datatype MpsError =
    | TooManyQubits      // a gate on three or more qubits reached the backend
    | DynamicCircuit     // auxiliary qubits requested on a dirty state
    | ControlledGlobalPhase
    | NotSingleTerm

  /** The simulator state the decomposition touches: the qubit count, whether
      the state is dirty (has pending dynamic-circuit work), the auxiliary
      qubits used so far, and the gate queue. */
  datatype Simulator = Simulator(numQubits: nat, dirty: bool, aux: seq<nat>, queue: seq<Gate>)

  /** `M_PI_2` as a double. */
  const HalfPi: real := 1.5707963267948966

  function OneQubit(name: GateName, q: nat): Gate { Gate(name, [], [], [q]) }
  function Cx(control: nat, target: nat): Gate { Gate(X, [], [control], [target]) }

  /** `applyGate`: the backend only takes gates on at most two qubits. */
  function ApplyGate(g: Gate): (r: Result<Gate, MpsError>)
    ensures r.Ok? <==> |g.controls| + |g.targets| <= 2
    ensures r.Ok? ==> r.value == g
    ensures r.Err? ==> r.error == TooManyQubits
  {
    if |g.controls| + |g.targets| > 2 then Err(TooManyQubits) else Ok(g)
  }

  function Range(start: nat, n: nat): (r: seq<nat>)
    ensures |r| == n && forall i :: 0 <= i < n ==> r[i] == start + i
  {
    seq(n, i requires 0 <= i < n => start + i)
  }

  /** `addAuxQubits(n)`: n fresh qubits numbered from the current count on;
      refused on a dirty state. */
  function AddAuxQubits(sim: Simulator, n: nat): (r: Result<(Simulator, seq<nat>), MpsError>)
    ensures r.Err? <==> sim.dirty
    ensures r.Ok? ==> r.value.1 == Range(sim.numQubits, n)
    ensures r.Ok? ==> r.value.0 == sim.(numQubits := sim.numQubits + n)
  {
    if sim.dirty then Err(DynamicCircuit)
    else Ok((sim.(numQubits := sim.numQubits + n), Range(sim.numQubits, n)))
  }

  // ---------------------------------------------------------------------
  // Toffoli ladders
  // ---------------------------------------------------------------------

  /** A Toffoli gate: target c flipped when a and b are both set. */
  datatype Toffoli = Toffoli(a: nat, b: nat, c: nat)

  /** The k-th Toffoli of `collectControls`: first the control pairs into
      aux[0 .. n/2), then pairs of auxiliaries into the following ones, then,
      for an odd count, the last control with aux[n-3] into aux[n-2]. */
  function LadderEntry(ctls: seq<nat>, aux: seq<nat>, k: nat): Toffoli
    requires |ctls| >= 2 && |aux| >= |ctls| - 1 && k < |ctls| - 1
  {
    var n := |ctls|;
    var m := n / 2;
    if k < m then Toffoli(ctls[2 * k], ctls[2 * k + 1], aux[k])
    else if k < 2 * m - 1 then Toffoli(aux[2 * (k - m)], aux[2 * (k - m) + 1], aux[k])
    else Toffoli(ctls[n - 1], aux[n - 3], aux[n - 2])
  }

  function Ladder(ctls: seq<nat>, aux: seq<nat>): (l: seq<Toffoli>)
    requires |ctls| >= 2 && |aux| >= |ctls| - 1
    ensures |l| == |ctls| - 1
  {
    seq(|ctls| - 1, k requires 0 <= k < |ctls| - 1 => LadderEntry(ctls, aux, k))
  }

  function Reverse<A>(s: seq<A>): (r: seq<A>)
    ensures |r| == |s| && forall i :: 0 <= i < |s| ==> r[i] == s[|s| - 1 - i]
  {
    if s == [] then [] else Reverse(s[1..]) + [s[0]]
  }

  /** `collectControls(ctls, aux, reverse)`: the three loops that list the
      Toffoli gates, reversed for the uncompute pass. */
  method CollectControls(ctls: seq<nat>, aux: seq<nat>, reverse: bool) returns (list: seq<Toffoli>)
    requires |ctls| >= 2 && |aux| >= |ctls| - 1
    ensures |list| == |ctls| - 1
    ensures list == if reverse then Reverse(Ladder(ctls, aux)) else Ladder(ctls, aux)
  {
    var n := |ctls|;
    var m := n / 2;
    list := [];
    var i := 0;
    while i < n - 1
      invariant 0 <= i <= n && i % 2 == 0
      invariant |list| == i / 2 && i / 2 <= m
      invariant forall k :: 0 <= k < |list| ==> list[k] == LadderEntry(ctls, aux, k)
    {
      list := list + [Toffoli(ctls[i], ctls[i + 1], aux[i / 2])];
      i := i + 2;
    }
    assert |list| == m;
    i := 0;
    while i < m - 1
      invariant 0 <= i && (m >= 1 ==> i <= m - 1)
      invariant |list| == m + i
      invariant forall k :: 0 <= k < |list| ==> list[k] == LadderEntry(ctls, aux, k)
    {
      list := list + [Toffoli(aux[i * 2], aux[i * 2 + 1], aux[i + m])];
      i := i + 1;
    }
    if n % 2 != 0 {
      list := list + [Toffoli(ctls[n - 1], aux[n - 3], aux[n - 2])];
    }
    assert list == Ladder(ctls, aux);
    if reverse {
      list := Reverse(list);
    }
  }

  /** The last Toffoli of the ladder writes aux[n-2], where the controls
      are collected, and every Toffoli targets a distinct auxiliary. */
  lemma LadderTargets(ctls: seq<nat>, aux: seq<nat>)
    requires |ctls| >= 2 && |aux| >= |ctls| - 1
    ensures Ladder(ctls, aux)[|ctls| - 2].c == aux[|ctls| - 2]
    ensures forall k :: 0 <= k < |ctls| - 1 ==> Ladder(ctls, aux)[k].c == aux[k]
  {
  }

  /** The fixed 15-gate expansion of `ccnot(a, b, c)`. */
  function CcnotGates(a: nat, b: nat, c: nat): (g: seq<Gate>)
    ensures |g| == 15
  {
    [OneQubit(H, c), Cx(b, c), OneQubit(Tdg, c), Cx(a, c), OneQubit(T, c),
     Cx(b, c), OneQubit(Tdg, c), Cx(a, c), OneQubit(T, b), OneQubit(T, c),
     OneQubit(H, c), Cx(a, b), OneQubit(T, a), OneQubit(Tdg, b), Cx(a, b)]
  }

  function ExpandLadder(list: seq<Toffoli>): (g: seq<Gate>)
    ensures |g| == 15 * |list|
  {
    if list == [] then []
    else CcnotGates(list[0].a, list[0].b, list[0].c) + ExpandLadder(list[1..])
  }

  /** The queue after `decomposeMultiControlledInstruction`, auxiliaries
      already grown: ladder, the gate controlled by aux[n-2], reversed
      ladder. */
  function CollectedGates(name: GateName, params: seq<real>, controls: seq<nat>, aux: seq<nat>, targets: seq<nat>): seq<Gate>
    requires |controls| >= 2 && |aux| >= |controls| - 1
  {
    var ladder := Ladder(controls, aux);
    ExpandLadder(ladder)
      + [Gate(name, params, [aux[|controls| - 2]], targets)]
      + ExpandLadder(Reverse(ladder))
  }

  /** The auxiliary pool grown by the shortfall to at least n - 1 qubits. */
  function GrowAux(sim: Simulator, n: nat): (r: Result<Simulator, MpsError>)
    ensures r.Err? <==> |sim.aux| + 1 < n && sim.dirty
    ensures r.Ok? ==> |r.value.aux| + 1 >= n && r.value.queue == sim.queue
    ensures r.Ok? ==> |r.value.aux| >= |sim.aux| && r.value.aux[..|sim.aux|] == sim.aux
    ensures r.Ok? && |sim.aux| + 1 >= n ==> r.value == sim
    ensures r.Ok? && |sim.aux| + 1 < n ==>
      && |r.value.aux| + 1 == n
      && r.value.numQubits == sim.numQubits + (n - 1 - |sim.aux|)
      && forall i :: |sim.aux| <= i < |r.value.aux| ==> r.value.aux[i] == sim.numQubits + (i - |sim.aux|)
  {
    if |sim.aux| + 1 < n then
      match AddAuxQubits(sim, n - 1 - |sim.aux|)
      case Err(e) => Err(e)
      case Ok(grown) => Ok(grown.0.(aux := grown.0.aux + grown.1))
    else Ok(sim)
  }

  /** `decomposeMultiControlledInstruction`: with at most one control the
      gate is queued as is; otherwise its controls are collected into an
      auxiliary qubit, the gate is queued with that single control and the
      collection is undone. */
  function Decompose(sim: Simulator, name: GateName, params: seq<real>, controls: seq<nat>, targets: seq<nat>): (r: Result<Simulator, MpsError>)
    ensures |controls| <= 1 ==> r == Ok(sim.(queue := sim.queue + [Gate(name, params, controls, targets)]))
    ensures r.Err? <==> |controls| >= 2 && |sim.aux| + 1 < |controls| && sim.dirty
    ensures r.Err? ==> r.error == DynamicCircuit
    ensures r.Ok? && |sim.aux| + 1 >= |controls| ==> r.value.aux == sim.aux && r.value.numQubits == sim.numQubits
    ensures r.Ok? && |controls| >= 2 ==>
      && |r.value.aux| + 1 >= |controls|
      && |r.value.aux| >= |sim.aux| && r.value.aux[..|sim.aux|] == sim.aux
      && r.value.queue == sim.queue + CollectedGates(name, params, controls, r.value.aux, targets)
  {
    if |controls| <= 1 then Ok(sim.(queue := sim.queue + [Gate(name, params, controls, targets)]))
    else match GrowAux(sim, |controls|)
      case Err(e) => Err(e)
      case Ok(s) => Ok(s.(queue := s.queue + CollectedGates(name, params, controls, s.aux, targets)))
  }

  // ---------------------------------------------------------------------
  // Classical action of Toffoli ladders on basis states
  // ---------------------------------------------------------------------

  type Bits = seq<bool>

  predicate InRange(list: seq<Toffoli>, width: nat)
  {
    forall k :: 0 <= k < |list| ==> list[k].a < width && list[k].b < width && list[k].c < width
  }

  function ApplyToffoli(s: Bits, t: Toffoli): (r: Bits)
    requires t.a < |s| && t.b < |s| && t.c < |s|
    ensures |r| == |s|
  {
    s[t.c := s[t.c] != (s[t.a] && s[t.b])]
  }

  function ApplyLadder(s: Bits, list: seq<Toffoli>): (r: Bits)
    requires InRange(list, |s|)
    ensures |r| == |s|
    decreases |list|
  {
    if list == [] then s else ApplyLadder(ApplyToffoli(s, list[0]), list[1..])
  }

  lemma {:induction false} ApplyLadderAppend(s: Bits, l1: seq<Toffoli>, l2: seq<Toffoli>)
    requires InRange(l1, |s|) && InRange(l2, |s|)
    ensures InRange(l1 + l2, |s|)
    ensures ApplyLadder(s, l1 + l2) == ApplyLadder(ApplyLadder(s, l1), l2)
    decreases |l1|
  {
    if l1 != [] {
      assert (l1 + l2)[1..] == l1[1..] + l2;
      ApplyLadderAppend(ApplyToffoli(s, l1[0]), l1[1..], l2);
    } else {
      assert l1 + l2 == l2;
    }
  }

  predicate TargetsApart(list: seq<Toffoli>)
  {
    forall k :: 0 <= k < |list| ==> list[k].c != list[k].a && list[k].c != list[k].b
  }

  /** The uncompute pass undoes the compute pass: the reversed ladder after
      the ladder leaves every basis state as it was. */
  lemma {:induction false} UncomputeRestores(s: Bits, list: seq<Toffoli>)
    requires InRange(list, |s|) && TargetsApart(list)
    ensures InRange(Reverse(list), |s|)
    ensures ApplyLadder(ApplyLadder(s, list), Reverse(list)) == s
    decreases |list|
  {
    if list != [] {
      var t := list[0];
      var s' := ApplyToffoli(s, t);
      var rest := list[1..];
      UncomputeRestores(s', rest);
      assert Reverse(list) == Reverse(rest) + [t];
      ApplyLadderAppend(ApplyLadder(s, list), Reverse(rest), [t]);
      assert ApplyToffoli(s', t) == s;
    }
  }

  /** The value the ladder writes into aux[k] when every auxiliary starts
      cleared. */
  function Node(s: Bits, ctls: seq<nat>, aux: seq<nat>, k: nat): bool
    requires |ctls| >= 2 && |aux| >= |ctls| - 1 && k < |ctls| - 1
    requires forall i :: 0 <= i < |ctls| ==> ctls[i] < |s|
    decreases k
  {
    var n := |ctls|;
    var m := n / 2;
    if k < m then s[ctls[2 * k]] && s[ctls[2 * k + 1]]
    else if k < 2 * m - 1 then Node(s, ctls, aux, 2 * (k - m)) && Node(s, ctls, aux, 2 * (k - m) + 1)
    else s[ctls[n - 1]] && Node(s, ctls, aux, n - 3)
  }

  /** The qubits the ladder works on: controls and the first n - 1
      auxiliaries, all distinct and all inside the state. */
  predicate LadderQubits(s: Bits, ctls: seq<nat>, aux: seq<nat>)
  {
    InState(s, ctls, aux) && NoRepeats(ctls + aux[..|ctls| - 1])
  }

  /** A control is never one of the first n - 1 auxiliaries. */
  lemma ControlNotAux(s: Bits, ctls: seq<nat>, aux: seq<nat>, i: nat, j: nat)
    requires LadderQubits(s, ctls, aux) && i < |ctls| && j < |ctls| - 1
    ensures ctls[i] != aux[j]
  {
    var qs := ctls + aux[..|ctls| - 1];
    NoRepeatsApart(qs, i, |ctls| + j);
    assert qs[i] == ctls[i] && qs[|ctls| + j] == aux[j];
  }

  /** The first n - 1 auxiliaries are distinct. */
  lemma AuxApart(s: Bits, ctls: seq<nat>, aux: seq<nat>, i: nat, j: nat)
    requires LadderQubits(s, ctls, aux) && i < j < |ctls| - 1
    ensures aux[i] != aux[j]
  {
    var qs := ctls + aux[..|ctls| - 1];
    NoRepeatsApart(qs, |ctls| + i, |ctls| + j);
    assert qs[|ctls| + i] == aux[i] && qs[|ctls| + j] == aux[j];
  }

  /** The controls and the first n - 1 auxiliaries are qubits of the
      state. */
  predicate InState(s: Bits, ctls: seq<nat>, aux: seq<nat>)
  {
    && |ctls| >= 2 && |aux| >= |ctls| - 1
    && (forall i :: 0 <= i < |ctls| ==> ctls[i] < |s|)
    && (forall j :: 0 <= j < |ctls| - 1 ==> aux[j] < |s|)
  }

  lemma LadderInRange(s: Bits, ctls: seq<nat>, aux: seq<nat>)
    requires LadderQubits(s, ctls, aux)
    ensures InRange(Ladder(ctls, aux), |s|) && TargetsApart(Ladder(ctls, aux))
  {
    var l := Ladder(ctls, aux);
    var n := |ctls|;
    var m := n / 2;
    forall k | 0 <= k < |l| ensures l[k].c != l[k].a && l[k].c != l[k].b {
      assert l[k] == LadderEntry(ctls, aux, k);
      if k < m {
        ControlNotAux(s, ctls, aux, 2 * k, k);
        ControlNotAux(s, ctls, aux, 2 * k + 1, k);
      } else if k < 2 * m - 1 {
        AuxApart(s, ctls, aux, 2 * (k - m), k);
        AuxApart(s, ctls, aux, 2 * (k - m) + 1, k);
      } else {
        ControlNotAux(s, ctls, aux, n - 1, n - 2);
        AuxApart(s, ctls, aux, n - 3, n - 2);
      }
    }
  }

  /** The state after the first k Toffolis: aux[j] holds Node(j) for j < k
      and every other qubit is untouched. */
  predicate PrefixState(s: Bits, ctls: seq<nat>, aux: seq<nat>, k: nat, r: Bits)
    requires LadderQubits(s, ctls, aux) && k <= |ctls| - 1
  {
    && |r| == |s|
    && (forall j :: 0 <= j < k ==> r[aux[j]] == Node(s, ctls, aux, j))
    && (forall q :: 0 <= q < |s| && q !in aux[..k] ==> r[q] == s[q])
  }

  /** The k-th Toffoli reads controls or auxiliaries written before it and
      writes the still cleared aux[k]. */
  lemma LadderStep(s: Bits, ctls: seq<nat>, aux: seq<nat>, k: nat, r: Bits)
    requires LadderQubits(s, ctls, aux)
    requires forall j :: 0 <= j < |ctls| - 1 ==> !s[aux[j]]
    requires k < |ctls| - 1 && PrefixState(s, ctls, aux, k, r)
    ensures var t := LadderEntry(ctls, aux, k);
      t.a < |r| && t.b < |r| && t.c < |r| && PrefixState(s, ctls, aux, k + 1, ApplyToffoli(r, t))
  {
    var t := LadderEntry(ctls, aux, k);
    var v := Node(s, ctls, aux, k);
    assert t.a < |r| && t.b < |r| && t.c < |r| && ApplyToffoli(r, t) == r[aux[k] := v] by {
      LadderStepWrites(s, ctls, aux, k, r);
    }
    LadderStepKeeps(s, ctls, aux, k, r, v);
  }

  lemma LadderStepWrites(s: Bits, ctls: seq<nat>, aux: seq<nat>, k: nat, r: Bits)
    requires LadderQubits(s, ctls, aux)
    requires forall j :: 0 <= j < |ctls| - 1 ==> !s[aux[j]]
    requires k < |ctls| - 1 && PrefixState(s, ctls, aux, k, r)
    ensures var t := LadderEntry(ctls, aux, k);
      t.a < |r| && t.b < |r| && t.c == aux[k] && t.c < |r| && ApplyToffoli(r, t)[aux[k]] == Node(s, ctls, aux, k)
  {
    var n := |ctls|;
    var m := n / 2;
    assert n == 2 * m || n == 2 * m + 1;
    KeptUntouched(s, ctls, aux, k, r);
    if k < m {
      WritesPair(s, ctls, aux, k, r);
    } else if k < 2 * m - 1 {
      var i := 2 * (k - m);
      assert r[aux[i]] == Node(s, ctls, aux, i) && r[aux[i + 1]] == Node(s, ctls, aux, i + 1);
      WritesCombine(s, ctls, aux, k, r);
    } else {
      assert r[ctls[n - 1]] == s[ctls[n - 1]] && k >= 1 && r[aux[k - 1]] == Node(s, ctls, aux, k - 1);
      WritesOdd(s, ctls, aux, k, r);
    }
  }

  lemma WritesPair(s: Bits, ctls: seq<nat>, aux: seq<nat>, k: nat, r: Bits)
    requires InState(s, ctls, aux) && |r| == |s|
    requires k < |ctls| / 2
    requires forall i :: 0 <= i < |ctls| ==> r[ctls[i]] == s[ctls[i]]
    requires !r[aux[k]]
    ensures var t := LadderEntry(ctls, aux, k);
      t.a < |r| && t.b < |r| && t.c == aux[k] && t.c < |r| && ApplyToffoli(r, t)[aux[k]] == Node(s, ctls, aux, k)
  {
    var t := LadderEntry(ctls, aux, k);
    assert t == Toffoli(ctls[2 * k], ctls[2 * k + 1], aux[k]);
    WriteNode(s, ctls, aux, k, r, t, s[ctls[2 * k]], s[ctls[2 * k + 1]]);
  }

  lemma WritesCombine(s: Bits, ctls: seq<nat>, aux: seq<nat>, k: nat, r: Bits)
    requires InState(s, ctls, aux) && |r| == |s|
    requires |ctls| / 2 <= k < 2 * (|ctls| / 2) - 1
    requires var i := 2 * (k - |ctls| / 2);
      r[aux[i]] == Node(s, ctls, aux, i) && r[aux[i + 1]] == Node(s, ctls, aux, i + 1)
    requires !r[aux[k]]
    ensures var t := LadderEntry(ctls, aux, k);
      t.a < |r| && t.b < |r| && t.c == aux[k] && t.c < |r| && ApplyToffoli(r, t)[aux[k]] == Node(s, ctls, aux, k)
  {
    var m := |ctls| / 2;
    var i, j := 2 * (k - m), 2 * (k - m) + 1;
    var t := LadderEntry(ctls, aux, k);
    var x, y := Node(s, ctls, aux, i), Node(s, ctls, aux, j);
    assert t == Toffoli(aux[i], aux[j], aux[k]) && Node(s, ctls, aux, k) == (x && y) by {
      CombineEntry(s, ctls, aux, k);
    }
    WriteNode(s, ctls, aux, k, r, t, x, y);
  }

  /** A Toffoli of the second loop reads two nodes written earlier. */
  lemma CombineEntry(s: Bits, ctls: seq<nat>, aux: seq<nat>, k: nat)
    requires InState(s, ctls, aux)
    requires |ctls| / 2 <= k < 2 * (|ctls| / 2) - 1
    ensures var m := |ctls| / 2;
      && 2 * (k - m) + 1 < k
      && LadderEntry(ctls, aux, k) == Toffoli(aux[2 * (k - m)], aux[2 * (k - m) + 1], aux[k])
      && Node(s, ctls, aux, k) == (Node(s, ctls, aux, 2 * (k - m)) && Node(s, ctls, aux, 2 * (k - m) + 1))
  {
  }

  lemma WritesOdd(s: Bits, ctls: seq<nat>, aux: seq<nat>, k: nat, r: Bits)
    requires InState(s, ctls, aux) && |r| == |s|
    requires 2 * (|ctls| / 2) - 1 <= k < |ctls| - 1
    requires r[ctls[|ctls| - 1]] == s[ctls[|ctls| - 1]]
    requires k >= 1 && r[aux[k - 1]] == Node(s, ctls, aux, k - 1)
    requires !r[aux[k]]
    ensures var t := LadderEntry(ctls, aux, k);
      t.a < |r| && t.b < |r| && t.c == aux[k] && t.c < |r| && ApplyToffoli(r, t)[aux[k]] == Node(s, ctls, aux, k)
  {
    var n := |ctls|;
    var m := n / 2;
    assert n == 2 * m + 1 && k == n - 2 && n >= 3 by {
      assert n == 2 * m || n == 2 * m + 1;
    }
    var t := LadderEntry(ctls, aux, k);
    assert t == Toffoli(ctls[n - 1], aux[n - 3], aux[n - 2]);
    assert r[aux[n - 3]] == Node(s, ctls, aux, n - 3);
    assert Node(s, ctls, aux, k) == (s[ctls[n - 1]] && Node(s, ctls, aux, n - 3));
    WriteNode(s, ctls, aux, k, r, t, s[ctls[n - 1]], Node(s, ctls, aux, n - 3));
  }

  lemma WriteNode(s: Bits, ctls: seq<nat>, aux: seq<nat>, k: nat, r: Bits, t: Toffoli, x: bool, y: bool)
    requires |ctls| >= 2 && |aux| >= |ctls| - 1 && k < |ctls| - 1
    requires forall i :: 0 <= i < |ctls| ==> ctls[i] < |s|
    requires t.a < |r| && t.b < |r| && t.c < |r| && t.c == aux[k]
    requires r[t.a] == x && r[t.b] == y && !r[t.c]
    requires Node(s, ctls, aux, k) == (x && y)
    ensures ApplyToffoli(r, t)[aux[k]] == Node(s, ctls, aux, k)
  {
  }

  /** Before the k-th Toffoli the controls and aux[k] still hold their
      initial values. */
  lemma KeptUntouched(s: Bits, ctls: seq<nat>, aux: seq<nat>, k: nat, r: Bits)
    requires LadderQubits(s, ctls, aux)
    requires k < |ctls| - 1 && PrefixState(s, ctls, aux, k, r)
    ensures forall i :: 0 <= i < |ctls| ==> r[ctls[i]] == s[ctls[i]]
    ensures r[aux[k]] == s[aux[k]]
  {
    forall i | 0 <= i < |ctls| ensures ctls[i] !in aux[..k] {
      forall j | 0 <= j < k ensures aux[..k][j] != ctls[i] {
        ControlNotAux(s, ctls, aux, i, j);
      }
    }
    forall j | 0 <= j < k ensures aux[..k][j] != aux[k] {
      AuxApart(s, ctls, aux, j, k);
    }
  }

  /** Writing the k-th node into aux[k] extends the prefix state by one. */
  lemma LadderStepKeeps(s: Bits, ctls: seq<nat>, aux: seq<nat>, k: nat, r: Bits, v: bool)
    requires LadderQubits(s, ctls, aux)
    requires k < |ctls| - 1 && PrefixState(s, ctls, aux, k, r)
    requires v == Node(s, ctls, aux, k)
    ensures PrefixState(s, ctls, aux, k + 1, r[aux[k] := v])
  {
    KeepsNodes(s, ctls, aux, k, r, v);
    KeepsOthers(s, aux, k, r, v);
  }

  lemma KeepsNodes(s: Bits, ctls: seq<nat>, aux: seq<nat>, k: nat, r: Bits, v: bool)
    requires LadderQubits(s, ctls, aux) && k < |ctls| - 1 && |r| == |s|
    requires forall j :: 0 <= j < k ==> r[aux[j]] == Node(s, ctls, aux, j)
    requires v == Node(s, ctls, aux, k)
    ensures forall j :: 0 <= j < k + 1 ==> r[aux[k] := v][aux[j]] == Node(s, ctls, aux, j)
  {
    forall j | 0 <= j < k + 1 ensures r[aux[k] := v][aux[j]] == Node(s, ctls, aux, j) {
      if j < k {
        AuxApart(s, ctls, aux, j, k);
      }
    }
  }

  lemma KeepsOthers(s: Bits, aux: seq<nat>, k: nat, r: Bits, v: bool)
    requires k < |aux| && aux[k] < |r| && |r| == |s|
    requires forall q :: 0 <= q < |s| && q !in aux[..k] ==> r[q] == s[q]
    ensures forall q :: 0 <= q < |s| && q !in aux[..k + 1] ==> r[aux[k] := v][q] == s[q]
  {
    forall q | 0 <= q < |s| && q !in aux[..k + 1] ensures r[aux[k] := v][q] == s[q] {
      NotInLongerPrefix(aux, k, q);
    }
  }

  lemma NotInLongerPrefix(xs: seq<nat>, k: nat, q: nat)
    requires k < |xs| && q !in xs[..k + 1]
    ensures q != xs[k] && q !in xs[..k]
  {
    assert xs[k] == xs[..k + 1][k];
    assert forall i :: 0 <= i < k ==> xs[..k][i] == xs[..k + 1][i];
  }

  lemma {:induction false} LadderPrefix(s: Bits, ctls: seq<nat>, aux: seq<nat>, k: nat)
    requires LadderQubits(s, ctls, aux)
    requires forall j :: 0 <= j < |ctls| - 1 ==> !s[aux[j]]
    requires k <= |ctls| - 1
    ensures InRange(Ladder(ctls, aux)[..k], |s|)
    ensures PrefixState(s, ctls, aux, k, ApplyLadder(s, Ladder(ctls, aux)[..k]))
    decreases k
  {
    var l := Ladder(ctls, aux);
    if k == 0 {
      assert l[..0] == [];
    } else {
      var t := LadderEntry(ctls, aux, k - 1);
      assert l[..k] == l[..k - 1] + [t];
      LadderPrefix(s, ctls, aux, k - 1);
      var before := ApplyLadder(s, l[..k - 1]);
      assert t.a < |before| && t.b < |before| && t.c < |before|
        && PrefixState(s, ctls, aux, k, ApplyToffoli(before, t)) by {
        LadderStep(s, ctls, aux, k - 1, before);
      }
      assert ApplyLadder(s, l[..k]) == ApplyToffoli(before, t) by {
        ApplyLadderAppend(s, l[..k - 1], [t]);
        assert [t][1..] == [];
      }
    }
  }

  predicate AllSet(s: Bits, ctls: seq<nat>)
    requires forall i :: 0 <= i < |ctls| ==> ctls[i] < |s|
  {
    forall i :: 0 <= i < |ctls| ==> s[ctls[i]]
  }

  predicate NodesHold(s: Bits, ctls: seq<nat>, aux: seq<nat>, lo: nat, hi: nat)
    requires |ctls| >= 2 && |aux| >= |ctls| - 1 && hi <= |ctls| - 1
    requires forall c :: 0 <= c < |ctls| ==> ctls[c] < |s|
  {
    forall j :: lo <= j < hi ==> Node(s, ctls, aux, j)
  }

  predicate ControlsHold(s: Bits, ctls: seq<nat>, hi: nat)
    requires hi <= |ctls| && forall c :: 0 <= c < |ctls| ==> ctls[c] < |s|
  {
    forall c :: 0 <= c < hi ==> s[ctls[c]]
  }

  /** The nodes still to be combined after i rounds of the second loop,
      aux[2i .. m+i), hold between them the conjunction of the first 2m
      controls. */
  lemma {:induction false} PendingNodes(s: Bits, ctls: seq<nat>, aux: seq<nat>, i: nat)
    requires |ctls| >= 2 && |aux| >= |ctls| - 1
    requires forall c :: 0 <= c < |ctls| ==> ctls[c] < |s|
    requires i + 1 <= |ctls| / 2
    ensures NodesHold(s, ctls, aux, 2 * i, |ctls| / 2 + i) == ControlsHold(s, ctls, 2 * (|ctls| / 2))
    decreases i
  {
    if i == 0 {
      LeafNodes(s, ctls, aux);
    } else {
      PendingNodes(s, ctls, aux, i - 1);
      CombineRound(s, ctls, aux, i - 1);
    }
  }

  /** The first loop's nodes hold the pairs of controls. */
  lemma LeafNodes(s: Bits, ctls: seq<nat>, aux: seq<nat>)
    requires |ctls| >= 2 && |aux| >= |ctls| - 1
    requires forall c :: 0 <= c < |ctls| ==> ctls[c] < |s|
    ensures NodesHold(s, ctls, aux, 0, |ctls| / 2) == ControlsHold(s, ctls, 2 * (|ctls| / 2))
  {
    var m := |ctls| / 2;
    if ControlsHold(s, ctls, 2 * m) {
      forall j | 0 <= j < m ensures Node(s, ctls, aux, j) {
        assert s[ctls[2 * j]] && s[ctls[2 * j + 1]];
      }
      assert NodesHold(s, ctls, aux, 0, m);
    }
    if NodesHold(s, ctls, aux, 0, m) {
      forall c | 0 <= c < 2 * m ensures s[ctls[c]] {
        var j := c / 2;
        assert Node(s, ctls, aux, j);
        assert c == 2 * j || c == 2 * j + 1;
      }
      assert ControlsHold(s, ctls, 2 * m);
    }
  }

  /** Round i of the second loop replaces nodes 2i and 2i+1 by their
      conjunction, node m+i. */
  lemma CombineRound(s: Bits, ctls: seq<nat>, aux: seq<nat>, i: nat)
    requires |ctls| >= 2 && |aux| >= |ctls| - 1
    requires forall c :: 0 <= c < |ctls| ==> ctls[c] < |s|
    requires i + 2 <= |ctls| / 2
    ensures NodesHold(s, ctls, aux, 2 * i + 2, |ctls| / 2 + i + 1) == NodesHold(s, ctls, aux, 2 * i, |ctls| / 2 + i)
  {
    var m := |ctls| / 2;
    assert Node(s, ctls, aux, m + i) == (Node(s, ctls, aux, 2 * i) && Node(s, ctls, aux, 2 * i + 1));
    assert NodesHold(s, ctls, aux, 2 * i, m + i) ==> NodesHold(s, ctls, aux, 2 * i + 2, m + i + 1) by {
      if NodesHold(s, ctls, aux, 2 * i, m + i) {
        forall j | 2 * i + 2 <= j < m + i + 1 ensures Node(s, ctls, aux, j) {
          if j == m + i {
            assert Node(s, ctls, aux, 2 * i) && Node(s, ctls, aux, 2 * i + 1);
          }
        }
      }
    }
    assert NodesHold(s, ctls, aux, 2 * i + 2, m + i + 1) ==> NodesHold(s, ctls, aux, 2 * i, m + i) by {
      if NodesHold(s, ctls, aux, 2 * i + 2, m + i + 1) {
        forall j | 2 * i <= j < m + i ensures Node(s, ctls, aux, j) {
          if j < 2 * i + 2 {
            assert Node(s, ctls, aux, m + i);
          }
        }
      }
    }
  }

  /** The last node written, aux[n-2], is the conjunction of all
      controls. */
  lemma NodeIsConjunction(s: Bits, ctls: seq<nat>, aux: seq<nat>)
    requires |ctls| >= 2 && |aux| >= |ctls| - 1
    requires forall c :: 0 <= c < |ctls| ==> ctls[c] < |s|
    ensures Node(s, ctls, aux, |ctls| - 2) == AllSet(s, ctls)
  {
    var n := |ctls|;
    var m := n / 2;
    PendingNodes(s, ctls, aux, m - 1);
    assert NodesHold(s, ctls, aux, 2 * m - 2, 2 * m - 1) == Node(s, ctls, aux, 2 * m - 2);
    if n % 2 == 0 {
      assert 2 * m == n;
      assert ControlsHold(s, ctls, n) == AllSet(s, ctls);
    } else {
      assert n == 2 * m + 1;
      assert Node(s, ctls, aux, n - 2) == (s[ctls[n - 1]] && Node(s, ctls, aux, n - 3));
      assert AllSet(s, ctls) == (ControlsHold(s, ctls, 2 * m) && s[ctls[n - 1]]);
    }
  }

  /** The ladder collects the conjunction of all controls into aux[n-2] and
      leaves every qubit outside the first n - 1 auxiliaries unchanged. */
  lemma CollectIsConjunction(s: Bits, ctls: seq<nat>, aux: seq<nat>)
    requires LadderQubits(s, ctls, aux)
    requires forall j :: 0 <= j < |ctls| - 1 ==> !s[aux[j]]
    ensures InRange(Ladder(ctls, aux), |s|)
    ensures ApplyLadder(s, Ladder(ctls, aux))[aux[|ctls| - 2]] == AllSet(s, ctls)
    ensures forall q :: 0 <= q < |s| && q !in aux[..|ctls| - 1] ==> ApplyLadder(s, Ladder(ctls, aux))[q] == s[q]
  {
    LadderFull(s, ctls, aux);
    NodeIsConjunction(s, ctls, aux);
  }

  lemma LadderFull(s: Bits, ctls: seq<nat>, aux: seq<nat>)
    requires LadderQubits(s, ctls, aux)
    requires forall j :: 0 <= j < |ctls| - 1 ==> !s[aux[j]]
    ensures InRange(Ladder(ctls, aux), |s|)
    ensures PrefixState(s, ctls, aux, |ctls| - 1, ApplyLadder(s, Ladder(ctls, aux)))
  {
    var l := Ladder(ctls, aux);
    var k := |ctls| - 1;
    assert l[..k] == l by {
      FullSlice(l);
    }
    LadderPrefix(s, ctls, aux, k);
  }

  lemma FullSlice<T>(l: seq<T>)
    ensures l[..|l|] == l
  {
  }

  /** Classically, a multi-controlled X decomposed through the ladder flips
      its target exactly when every control is set, and restores every
      auxiliary. The middle CNOT is the Toffoli with both controls aux[n-2]. */
  lemma MultiControlledXFlipsTarget(s: Bits, ctls: seq<nat>, aux: seq<nat>, target: nat)
    requires LadderQubits(s, ctls, aux)
    requires forall j :: 0 <= j < |ctls| - 1 ==> !s[aux[j]]
    requires target < |s|
    requires forall i :: 0 <= i < |ctls| ==> ctls[i] != target
    requires forall j :: 0 <= j < |ctls| - 1 ==> aux[j] != target
    ensures var l := Ladder(ctls, aux);
      var middle := Toffoli(aux[|ctls| - 2], aux[|ctls| - 2], target);
      InRange(l + [middle] + Reverse(l), |s|)
      && ApplyLadder(s, l + [middle] + Reverse(l)) == s[target := s[target] != AllSet(s, ctls)]
  {
    LadderConjugates(s, ctls, aux, target);
    ConjugatedFlip(s, Ladder(ctls, aux), Toffoli(aux[|ctls| - 2], aux[|ctls| - 2], target));
  }

  /** What conjugating by the ladder needs: it stays in the state, it can
      be undone, it leaves the target alone and it computes the conjunction
      into aux[n-2]. */
  lemma LadderConjugates(s: Bits, ctls: seq<nat>, aux: seq<nat>, target: nat)
    requires LadderQubits(s, ctls, aux)
    requires forall j :: 0 <= j < |ctls| - 1 ==> !s[aux[j]]
    requires forall i :: 0 <= i < |ctls| ==> ctls[i] != target
    requires forall j :: 0 <= j < |ctls| - 1 ==> aux[j] != target
    ensures InRange(Ladder(ctls, aux), |s|) && TargetsApart(Ladder(ctls, aux))
    ensures Avoids(Ladder(ctls, aux), target)
    ensures ApplyLadder(s, Ladder(ctls, aux))[aux[|ctls| - 2]] == AllSet(s, ctls)
  {
    CollectIsConjunction(s, ctls, aux);
    LadderInRange(s, ctls, aux);
    LadderAvoids(ctls, aux, target);
  }

  /** A Toffoli conjugated by a list of Toffolis that never touch its target
      flips that target by the value the list computes into its controls,
      and changes nothing else. */
  lemma ConjugatedFlip(s: Bits, l: seq<Toffoli>, middle: Toffoli)
    requires InRange(l, |s|) && TargetsApart(l)
    requires middle.a < |s| && middle.b < |s| && middle.c < |s|
    requires Avoids(l, middle.c)
    ensures InRange(l + [middle] + Reverse(l), |s|)
    ensures var s1 := ApplyLadder(s, l);
      ApplyLadder(s, l + [middle] + Reverse(l)) == s[middle.c := s[middle.c] != (s1[middle.a] && s1[middle.b])]
  {
    var c := middle.c;
    var s1 := ApplyLadder(s, l);
    var flip := s[c] != (s1[middle.a] && s1[middle.b]);
    assert s1[c] == s[c] by {
      assert s[c := s[c]] == s;
      LadderIgnoresOther(s, l, c, s[c]);
    }
    assert ApplyLadder(s, l + [middle]) == s1[c := flip] by {
      ApplyLadderAppend(s, l, [middle]);
      assert [middle][1..] == [];
    }
    assert ApplyLadder(s1[c := flip], Reverse(l)) == s[c := flip] by {
      UncomputeRestores(s, l);
      assert Avoids(Reverse(l), c);
      LadderIgnoresOther(s1, Reverse(l), c, flip);
    }
    ApplyLadderAppend(s, l + [middle], Reverse(l));
  }

  /** No Toffoli of the list reads or writes qubit q. */
  predicate Avoids(list: seq<Toffoli>, q: nat)
  {
    forall k :: 0 <= k < |list| ==> list[k].a != q && list[k].b != q && list[k].c != q
  }

  /** No Toffoli of the ladder touches a qubit that is neither a control
      nor one of the first n - 1 auxiliaries. */
  lemma LadderAvoids(ctls: seq<nat>, aux: seq<nat>, q: nat)
    requires |ctls| >= 2 && |aux| >= |ctls| - 1
    requires forall i :: 0 <= i < |ctls| ==> ctls[i] != q
    requires forall j :: 0 <= j < |ctls| - 1 ==> aux[j] != q
    ensures Avoids(Ladder(ctls, aux), q)
  {
    var l := Ladder(ctls, aux);
    var n := |ctls|;
    assert n == 2 * (n / 2) || n == 2 * (n / 2) + 1;
    forall k | 0 <= k < n - 1 ensures l[k].a != q && l[k].b != q && l[k].c != q {
      assert l[k] == LadderEntry(ctls, aux, k);
    }
  }

  /** A ladder that does not touch q commutes with setting q. */
  lemma {:induction false} LadderIgnoresOther(s: Bits, list: seq<Toffoli>, q: nat, v: bool)
    requires InRange(list, |s|) && q < |s|
    requires Avoids(list, q)
    ensures ApplyLadder(s[q := v], list) == ApplyLadder(s, list)[q := v]
    decreases |list|
  {
    if list != [] {
      assert ApplyToffoli(s[q := v], list[0]) == ApplyToffoli(s, list[0])[q := v];
      LadderIgnoresOther(ApplyToffoli(s, list[0]), list[1..], q, v);
    }
  }

  // ---------------------------------------------------------------------
  // The backend accepts every decomposed gate
  // ---------------------------------------------------------------------

  predicate Accepted(gates: seq<Gate>)
  {
    forall k :: 0 <= k < |gates| ==> ApplyGate(gates[k]).Ok?
  }

  lemma {:induction false} ExpandedAccepted(list: seq<Toffoli>)
    ensures Accepted(ExpandLadder(list))
    decreases |list|
  {
    if list != [] {
      ExpandedAccepted(list[1..]);
      var head := CcnotGates(list[0].a, list[0].b, list[0].c);
      var tail := ExpandLadder(list[1..]);
      forall k | 0 <= k < |head + tail| ensures ApplyGate((head + tail)[k]).Ok? {
        if k >= |head| { assert (head + tail)[k] == tail[k - |head|]; }
      }
    }
  }

  /** Every gate a decomposition of a single-target operation queues acts on
      at most two qubits, so none of them is refused by `applyGate`. */
  lemma DecomposedGatesAccepted(sim: Simulator, name: GateName, params: seq<real>, controls: seq<nat>, target: nat)
    requires Decompose(sim, name, params, controls, [target]).Ok?
    ensures var r := Decompose(sim, name, params, controls, [target]).value;
      |r.queue| >= |sim.queue| && Accepted(r.queue[|sim.queue|..])
  {
    var r := Decompose(sim, name, params, controls, [target]).value;
    if |controls| >= 2 {
      var l := Ladder(controls, r.aux);
      var mid := [Gate(name, params, [r.aux[|controls| - 2]], [target])];
      ExpandedAccepted(l);
      ExpandedAccepted(Reverse(l));
      AcceptedAppend(ExpandLadder(l), mid);
      AcceptedAppend(ExpandLadder(l) + mid, ExpandLadder(Reverse(l)));
      assert r.queue[|sim.queue|..] == ExpandLadder(l) + mid + ExpandLadder(Reverse(l));
    } else {
      assert r.queue[|sim.queue|..] == [Gate(name, params, controls, [target])];
    }
  }

  lemma AcceptedAppend(a: seq<Gate>, b: seq<Gate>)
    requires Accepted(a) && Accepted(b)
    ensures Accepted(a + b)
  {
    forall k | 0 <= k < |a + b| ensures ApplyGate((a + b)[k]).Ok? {
      if k >= |a| { assert (a + b)[k] == b[k - |a|]; }
    }
  }

  // ---------------------------------------------------------------------
  // The Toffoli expansion as a phase polynomial
  // ---------------------------------------------------------------------

  /** A CNOT, T or T-dagger gate: these map a basis state to a basis state
      times a power of exp(i pi / 4). */
  predicate PhaseGate(g: Gate, width: nat)
  {
    && |g.targets| == 1 && g.targets[0] < width
    && (|| (g.name == X && |g.controls| == 1 && g.controls[0] < width)
        || ((g.name == T || g.name == Tdg) && g.controls == []))
  }

  /** A basis state and the exponent of exp(i pi / 4) it is multiplied by,
      modulo 8; a gate of any other kind is not given a meaning here and
      is skipped. */
  function PhaseStep(s: Bits, phase: nat, g: Gate): (r: (Bits, nat))
    ensures |r.0| == |s| && r.1 >= phase
  {
    if !PhaseGate(g, |s|) then (s, phase)
    else
    var q := g.targets[0];
    if g.name == X then (s[q := s[q] != s[g.controls[0]]], phase)
    else if g.name == T then (s, phase + (if s[q] then 1 else 0))
    else (s, phase + (if s[q] then 7 else 0))
  }

  /** Running gates[i..] on a basis state with a phase. */
  function PhaseRun(s: Bits, phase: nat, gates: seq<Gate>, i: nat): (r: (Bits, nat))
    requires i <= |gates|
    ensures |r.0| == |s|
    decreases |gates| - i
  {
    if i == |gates| then (s, phase % 8)
    else
      var next := PhaseStep(s, phase, gates[i]);
      PhaseRun(next.0, next.1, gates, i + 1)
  }

  /** The Toffoli expansion without its two H gates on c: gates 2 to 10 and
      12 to 15. */
  function CczCircuit(a: nat, b: nat, c: nat): (g: seq<Gate>)
    ensures |g| == 13
  {
    [Cx(b, c), OneQubit(Tdg, c), Cx(a, c), OneQubit(T, c),
     Cx(b, c), OneQubit(Tdg, c), Cx(a, c), OneQubit(T, b), OneQubit(T, c),
     Cx(a, b), OneQubit(T, a), OneQubit(Tdg, b), Cx(a, b)]
  }

  /** The Toffoli expansion is H on c, the first nine gates of the circuit
      above, H on c again, and the last four gates of the circuit. */
  lemma CcnotIsConjugatedCcz(a: nat, b: nat, c: nat)
    ensures CcnotGates(a, b, c)
         == [OneQubit(H, c)] + CczCircuit(a, b, c)[..9] + [OneQubit(H, c)] + CczCircuit(a, b, c)[9..]
  {
  }

  /** The last four gates of the circuit do not touch c, so they commute
      with the second H on c: the expansion is H(c) . circuit . H(c). */
  lemma CczTailAvoidsTarget(a: nat, b: nat, c: nat)
    requires a != c && b != c
    ensures forall k :: 9 <= k < 13 ==> c !in CczCircuit(a, b, c)[k].controls && c !in CczCircuit(a, b, c)[k].targets
  {
  }

  /** Every gate of the circuit is a CNOT, T or T-dagger on qubits of the
      state. */
  lemma CczCircuitIsPhaseCircuit(width: nat, a: nat, b: nat, c: nat)
    requires a < width && b < width && c < width
    ensures forall k :: 0 <= k < 13 ==> PhaseGate(CczCircuit(a, b, c)[k], width)
  {
  }

  /** The circuit restores every basis state and multiplies it by
      exp(i pi / 4)^4 = -1 exactly when a, b and c are all set: it is the
      doubly controlled Z, so H on c on both sides of it is the Toffoli
      gate. */
  lemma CczIsDoublyControlledZ(s: Bits, a: nat, b: nat, c: nat, k: nat)
    requires a < |s| && b < |s| && c < |s| && a != b && b != c && a != c
    ensures PhaseRun(s, k, CczCircuit(a, b, c), 0) == (s, (k + if s[a] && s[b] && s[c] then 4 else 0) % 8)
  {
    var p := CczCircuit(a, b, c);
    var x, y, z := s[a], s[b], s[c];
    var s2 := s[c := (z != y) != x];
    var k1 := k + (if z != y then 7 else 0);
    var k3 := k1 + (if (z != y) != x then 1 else 0) + (if ((z != y) != x) != y then 7 else 0);
    var k7 := k3 + (if y then 1 else 0) + (if z then 1 else 0) + (if x then 1 else 0) + (if y != x then 7 else 0);
    assert k7 % 8 == (k + if x && y && z then 4 else 0) % 8 by {
      CczPhaseSum(x, y, z, k);
    }
    assert PhaseRun(s, k, p, 0) == PhaseRun(s2, k1, p, 3) by {
      CczRunHead(s, a, b, c, k);
    }
    assert PhaseRun(s2, k1, p, 3) == PhaseRun(s, k3, p, 7) by {
      CczRunMiddle(s, a, b, c, k1);
    }
    assert PhaseRun(s, k3, p, 7) == (s, k7 % 8) by {
      CczRunTail(s, a, b, c, k3);
    }
  }

  /** Gates 1 to 3: the two CNOTs leave b xor a xor c on c. */
  lemma CczRunHead(s: Bits, a: nat, b: nat, c: nat, k: nat)
    requires a < |s| && b < |s| && c < |s| && a != b && b != c && a != c
    ensures PhaseRun(s, k, CczCircuit(a, b, c), 0)
         == PhaseRun(s[c := (s[c] != s[b]) != s[a]], k + (if s[c] != s[b] then 7 else 0), CczCircuit(a, b, c), 3)
  {
    var p := CczCircuit(a, b, c);
    var x, y, z := s[a], s[b], s[c];
    var s1 := s[c := z != y];
    var s2 := s[c := (z != y) != x];
    UpdateTwice(s, c, z != y, (z != y) != x);
    var k1 := k + (if z != y then 7 else 0);
    assert PhaseStep(s, k, p[0]) == (s1, k);
    assert PhaseStep(s1, k, p[1]) == (s1, k1);
    assert PhaseStep(s1, k1, p[2]) == (s2, k1);
    assert PhaseRun(s1, k1, p, 2) == PhaseRun(s2, k1, p, 3);
    assert PhaseRun(s1, k, p, 1) == PhaseRun(s2, k1, p, 3);
  }

  lemma UpdateTwice(s: Bits, q: nat, v: bool, w: bool)
    requires q < |s|
    ensures s[q := v][q := w] == s[q := w]
  {
  }

  /** Gates 4 to 7: the next two CNOTs restore c. */
  lemma CczRunMiddle(s: Bits, a: nat, b: nat, c: nat, k: nat)
    requires a < |s| && b < |s| && c < |s| && a != b && b != c && a != c
    ensures var x, y, z := s[a], s[b], s[c];
      PhaseRun(s[c := (z != y) != x], k, CczCircuit(a, b, c), 3)
      == PhaseRun(s, k + (if (z != y) != x then 1 else 0) + (if ((z != y) != x) != y then 7 else 0), CczCircuit(a, b, c), 7)
  {
    var p := CczCircuit(a, b, c);
    var x, y, z := s[a], s[b], s[c];
    var s2 := s[c := (z != y) != x];
    var s3 := s2[c := ((z != y) != x) != y];
    assert s3[c := s3[c] != s3[a]] == s;
    var k2 := k + (if (z != y) != x then 1 else 0);
    var k3 := k2 + (if ((z != y) != x) != y then 7 else 0);
    assert PhaseStep(s2, k, p[3]) == (s2, k2);
    assert PhaseStep(s2, k2, p[4]) == (s3, k2);
    assert PhaseStep(s3, k2, p[5]) == (s3, k3);
    assert PhaseStep(s3, k3, p[6]) == (s, k3);
    assert PhaseRun(s3, k3, p, 6) == PhaseRun(s, k3, p, 7);
    assert PhaseRun(s3, k2, p, 5) == PhaseRun(s, k3, p, 7);
    assert PhaseRun(s2, k2, p, 4) == PhaseRun(s, k3, p, 7);
    assert PhaseRun(s2, k, p, 3) == PhaseRun(s, k3, p, 7);
  }

  /** Gates 7 to 13 of the circuit add phase only. */
  lemma CczRunTail(s: Bits, a: nat, b: nat, c: nat, k: nat)
    requires a < |s| && b < |s| && c < |s| && a != b && b != c && a != c
    ensures PhaseRun(s, k, CczCircuit(a, b, c), 7)
         == (s, (k + (if s[b] then 1 else 0) + (if s[c] then 1 else 0) + (if s[a] then 1 else 0) + (if s[b] != s[a] then 7 else 0)) % 8)
  {
    var p := CczCircuit(a, b, c);
    var x, y, z := s[a], s[b], s[c];
    var s5 := s[b := y != x];
    assert s5[b := s5[b] != s5[a]] == s;
    var k4 := k + (if y then 1 else 0);
    var k5 := k4 + (if z then 1 else 0);
    var k6 := k5 + (if x then 1 else 0);
    var k7 := k6 + (if y != x then 7 else 0);
    assert PhaseRun(s, k7, p, 13) == (s, k7 % 8);
    assert PhaseRun(s5, k7, p, 12) == (s, k7 % 8);
    assert PhaseRun(s5, k6, p, 11) == (s, k7 % 8);
    assert PhaseRun(s5, k5, p, 10) == (s, k7 % 8);
    assert PhaseRun(s, k5, p, 9) == (s, k7 % 8);
    assert PhaseRun(s, k4, p, 8) == (s, k7 % 8);
    assert PhaseRun(s, k, p, 7) == (s, k7 % 8);
  }

  /** The phase exponents the circuit adds, summed modulo 8: 4 exactly on
      the basis state with a, b and c set. */
  lemma CczPhaseSum(x: bool, y: bool, z: bool, k: nat)
    ensures var k1 := k + (if z != y then 7 else 0);
      var k3 := k1 + (if (z != y) != x then 1 else 0) + (if ((z != y) != x) != y then 7 else 0);
      var k7 := k3 + (if y then 1 else 0) + (if z then 1 else 0) + (if x then 1 else 0) + (if y != x then 7 else 0);
      k7 % 8 == (k + if x && y && z then 4 else 0) % 8
  {
    if x {
      if y { if z { } else { } } else { if z { } else { } }
    } else {
      if y { if z { } else { } } else { if z { } else { } }
    }
  }

  // ---------------------------------------------------------------------
  // Controlled swap
  // ---------------------------------------------------------------------

  /** The gates a controlled swap queues once the auxiliary pool holds n
      qubits: three multi-controlled X gates, the CNOT decomposition of a
      swap, each with one of the two swapped qubits added to the controls. */
  function SwapGates(ctrls: seq<nat>, aux: seq<nat>, src: nat, tgt: nat): seq<Gate>
    requires |ctrls| >= 1 && |aux| >= |ctrls|
  {
    CollectedGates(X, [], ctrls + [tgt], aux, [src])
      + CollectedGates(X, [], ctrls + [src], aux, [tgt])
      + CollectedGates(X, [], ctrls + [tgt], aux, [src])
  }

  /** `swap(ctrlBits, src, tgt)`: without controls the swap goes to the
      backend as one two-qubit gate; with controls it is three decomposed
      multi-controlled X gates. Only the first of them can grow the
      auxiliary pool, so only it can fail. */
  function ControlledSwap(sim: Simulator, ctrls: seq<nat>, src: nat, tgt: nat): (r: Result<Simulator, MpsError>)
    ensures ctrls == [] ==> r == Ok(sim.(queue := sim.queue + [Gate(Swap, [], [], [src, tgt])]))
    ensures r.Err? <==> ctrls != [] && sim.dirty && |sim.aux| < |ctrls|
  {
    if ctrls == [] then Ok(sim.(queue := sim.queue + [Gate(Swap, [], [], [src, tgt])]))
    else
      match Decompose(sim, X, [], ctrls + [tgt], [src])
      case Err(e) => Err(e)
      case Ok(s1) =>
        SwapTail(s1, ctrls, src, tgt)
  }

  /** A controlled swap that succeeds leaves a pool of at least n
      auxiliaries, extending the old one. */
  lemma ControlledSwapPool(sim: Simulator, ctrls: seq<nat>, src: nat, tgt: nat)
    requires ctrls != [] && ControlledSwap(sim, ctrls, src, tgt).Ok?
    ensures var r := ControlledSwap(sim, ctrls, src, tgt).value;
      |r.aux| >= |ctrls| && |r.aux| >= |sim.aux| && r.aux[..|sim.aux|] == sim.aux
  {
    var s1 := Decompose(sim, X, [], ctrls + [tgt], [src]).value;
    assert ControlledSwap(sim, ctrls, src, tgt).value.aux == s1.aux;
  }

  /** A controlled swap that succeeds queues the three decomposed
      multi-controlled X gates over the pool it leaves. */
  lemma ControlledSwapQueue(sim: Simulator, ctrls: seq<nat>, src: nat, tgt: nat)
    requires ctrls != [] && ControlledSwap(sim, ctrls, src, tgt).Ok?
    ensures var r := ControlledSwap(sim, ctrls, src, tgt).value;
      |r.aux| >= |ctrls| && r.queue == sim.queue + SwapGates(ctrls, r.aux, src, tgt)
  {
    var s1 := Decompose(sim, X, [], ctrls + [tgt], [src]).value;
    var g := CollectedGates(X, [], ctrls + [tgt], s1.aux, [src]);
    var h := CollectedGates(X, [], ctrls + [src], s1.aux, [tgt]);
    assert ControlledSwap(sim, ctrls, src, tgt) == SwapTail(s1, ctrls, src, tgt);
    ConcatAssociates3(sim.queue, g, h, g);
  }

  /** The second and third multi-controlled X of a controlled swap, after
      the first has grown the pool to at least n auxiliaries. */
  function SwapTail(sim: Simulator, ctrls: seq<nat>, src: nat, tgt: nat): (r: Result<Simulator, MpsError>)
    requires |ctrls| >= 1 && |sim.aux| >= |ctrls|
    ensures r == Ok(sim.(queue := sim.queue
      + CollectedGates(X, [], ctrls + [src], sim.aux, [tgt])
      + CollectedGates(X, [], ctrls + [tgt], sim.aux, [src])))
  {
    DecomposeWithPool(sim, X, [], ctrls + [src], [tgt]);
    match Decompose(sim, X, [], ctrls + [src], [tgt])
    case Err(e) => Err(e)
    case Ok(s2) =>
      DecomposeWithPool(s2, X, [], ctrls + [tgt], [src]);
      Decompose(s2, X, [], ctrls + [tgt], [src])
  }

  /** Once the pool is large enough, a decomposition neither fails nor grows
      the pool. */
  lemma DecomposeWithPool(sim: Simulator, name: GateName, params: seq<real>, controls: seq<nat>, targets: seq<nat>)
    requires |controls| >= 2 && |sim.aux| + 1 >= |controls|
    ensures Decompose(sim, name, params, controls, targets)
         == Ok(sim.(queue := sim.queue + CollectedGates(name, params, controls, sim.aux, targets)))
  {
  }

  /** The Toffoli list of a multi-controlled X decomposed through the ladder:
      the ladder, the CNOT from aux[n-2] (a Toffoli with both controls on
      that qubit), the reversed ladder. */
  function McxToffolis(ctls: seq<nat>, aux: seq<nat>, target: nat): seq<Toffoli>
    requires |ctls| >= 2 && |aux| >= |ctls| - 1
  {
    var l := Ladder(ctls, aux);
    l + [Toffoli(aux[|ctls| - 2], aux[|ctls| - 2], target)] + Reverse(l)
  }

  /** The qubits of a controlled swap: the controls, the first n auxiliaries
      (cleared) and the two swapped qubits, all distinct and in the state. */
  predicate SwapQubits(s: Bits, ctrls: seq<nat>, aux: seq<nat>, src: nat, tgt: nat)
  {
    && |ctrls| >= 1 && |aux| >= |ctrls|
    && src < |s| && tgt < |s| && src != tgt
    && (forall i :: 0 <= i < |ctrls| ==> ctrls[i] < |s| && ctrls[i] != src && ctrls[i] != tgt)
    && (forall j :: 0 <= j < |ctrls| ==> aux[j] < |s| && aux[j] != src && aux[j] != tgt && !s[aux[j]])
    && (forall i, j :: 0 <= i < j < |ctrls| ==> ctrls[i] != ctrls[j])
    && (forall i, j :: 0 <= i < j < |ctrls| ==> aux[i] != aux[j])
    && (forall i, j :: 0 <= i < |ctrls| && 0 <= j < |ctrls| ==> ctrls[i] != aux[j])
  }

  /** Adding a swapped qubit to the controls keeps the ladder's qubits
      apart, and the other swapped qubit stays outside them. */
  lemma SwapLadderQubits(s: Bits, ctrls: seq<nat>, aux: seq<nat>, src: nat, tgt: nat)
    requires SwapQubits(s, ctrls, aux, src, tgt)
    ensures LadderQubits(s, ctrls + [tgt], aux)
    ensures forall i :: 0 <= i < |ctrls| + 1 ==> (ctrls + [tgt])[i] != src
    ensures forall j :: 0 <= j < |ctrls| ==> aux[j] != src && !s[aux[j]]
  {
    var c := ctrls + [tgt];
    assert forall i :: 0 <= i < |ctrls| ==> c[i] == ctrls[i];
    var qs := c + aux[..|c| - 1];
    forall i, j | 0 <= i < j < |qs| ensures qs[i] != qs[j] {
      if j < |ctrls| {
      } else if j == |ctrls| {
        assert qs[j] == tgt;
      } else if i < |ctrls| {
        assert qs[j] == aux[j - |c|];
      } else if i == |ctrls| {
        assert qs[i] == tgt && qs[j] == aux[j - |c|];
      } else {
        assert qs[i] == aux[i - |c|] && qs[j] == aux[j - |c|];
      }
    }
    NoRepeatsOfApart(qs);
  }

  lemma AllSetIgnores(s: Bits, ctls: seq<nat>, q: nat, v: bool)
    requires q < |s| && forall i :: 0 <= i < |ctls| ==> ctls[i] < |s| && ctls[i] != q
    ensures AllSet(s[q := v], ctls) == AllSet(s, ctls)
  {
  }

  lemma AllSetAppend(s: Bits, ctls: seq<nat>, q: nat)
    requires q < |s| && forall i :: 0 <= i < |ctls| ==> ctls[i] < |s|
    ensures AllSet(s, ctls + [q]) == (AllSet(s, ctls) && s[q])
  {
    var c := ctls + [q];
    assert forall i :: 0 <= i < |ctls| ==> c[i] == ctls[i];
    assert c[|ctls|] == q;
  }

  /** One decomposed multi-controlled X with a swapped qubit added to the
      controls flips the other swapped qubit when every control and the
      added qubit are set, and leaves the auxiliaries cleared. */
  lemma SwapStep(s: Bits, ctrls: seq<nat>, aux: seq<nat>, src: nat, tgt: nat)
    requires SwapQubits(s, ctrls, aux, src, tgt)
    ensures InRange(McxToffolis(ctrls + [tgt], aux, src), |s|)
    ensures ApplyLadder(s, McxToffolis(ctrls + [tgt], aux, src))
         == s[src := s[src] != (AllSet(s, ctrls) && s[tgt])]
  {
    SwapLadderQubits(s, ctrls, aux, src, tgt);
    MultiControlledXFlipsTarget(s, ctrls + [tgt], aux, src);
    AllSetAppend(s, ctrls, tgt);
  }

  /** A controlled swap, run as the three decomposed multi-controlled X
      gates on a basis state with cleared auxiliaries, exchanges the two
      qubits exactly when every control is set, and changes nothing
      otherwise. */
  lemma ControlledSwapSwaps(s: Bits, ctrls: seq<nat>, aux: seq<nat>, src: nat, tgt: nat)
    requires SwapQubits(s, ctrls, aux, src, tgt)
    ensures var m1 := McxToffolis(ctrls + [tgt], aux, src);
      var m2 := McxToffolis(ctrls + [src], aux, tgt);
      && InRange(m1 + m2 + m1, |s|)
      && ApplyLadder(s, m1 + m2 + m1) == if AllSet(s, ctrls) then s[src := s[tgt]][tgt := s[src]] else s
  {
    var m1 := McxToffolis(ctrls + [tgt], aux, src);
    var m2 := McxToffolis(ctrls + [src], aux, tgt);
    var on := AllSet(s, ctrls);
    SwapStepKeeps(s, ctrls, aux, src, tgt);
    var s1 := s[src := s[src] != (on && s[tgt])];
    SwapStepKeeps(s1, ctrls, aux, tgt, src);
    var s2 := s1[tgt := s1[tgt] != (on && s1[src])];
    SwapStepKeeps(s2, ctrls, aux, src, tgt);
    var s3 := s2[src := s2[src] != (on && s2[tgt])];
    assert ApplyLadder(s, m1 + m2 + m1) == s3 by {
      ApplyLadderAppend(s, m1, m2);
      ApplyLadderAppend(s, m1 + m2, m1);
    }
    ThreeXorsSwap(s, src, tgt, on);
  }

  /** One step of the controlled swap, in the terms the next step needs: the
      qubits stay apart with the roles of the two swapped qubits exchanged,
      and the controls are as set as before. */
  lemma SwapStepKeeps(s: Bits, ctrls: seq<nat>, aux: seq<nat>, src: nat, tgt: nat)
    requires SwapQubits(s, ctrls, aux, src, tgt)
    ensures InRange(McxToffolis(ctrls + [tgt], aux, src), |s|)
    ensures var r := s[src := s[src] != (AllSet(s, ctrls) && s[tgt])];
      && ApplyLadder(s, McxToffolis(ctrls + [tgt], aux, src)) == r
      && SwapQubits(r, ctrls, aux, tgt, src)
      && AllSet(r, ctrls) == AllSet(s, ctrls)
  {
    SwapStep(s, ctrls, aux, src, tgt);
    var r := s[src := s[src] != (AllSet(s, ctrls) && s[tgt])];
    AllSetIgnores(s, ctrls, src, r[src]);
  }

  /** Three conditional XOR assignments, src ^= tgt, tgt ^= src,
      src ^= tgt, exchange the two bits when the condition holds. */
  lemma ThreeXorsSwap(s: Bits, src: nat, tgt: nat, on: bool)
    requires src < |s| && tgt < |s| && src != tgt
    ensures var s1 := s[src := s[src] != (on && s[tgt])];
      var s2 := s1[tgt := s1[tgt] != (on && s1[src])];
      var s3 := s2[src := s2[src] != (on && s2[tgt])];
      s3 == if on then s[src := s[tgt]][tgt := s[src]] else s
  {
    var s1 := s[src := s[src] != (on && s[tgt])];
    var s2 := s1[tgt := s1[tgt] != (on && s1[src])];
    var s3 := s2[src := s2[src] != (on && s2[tgt])];
    var want := if on then s[src := s[tgt]][tgt := s[src]] else s;
    forall k | 0 <= k < |s| ensures s3[k] == want[k] {
      if k == src {
        assert s3[k] == (on && s[tgt]) || (!on && s[src]);
      } else if k == tgt {
        assert s3[k] == s2[tgt];
      }
    }
  }

  // ---------------------------------------------------------------------
  // exp_pauli
  // ---------------------------------------------------------------------

  /** The qubits on which a Pauli word acts non-trivially, in qubit order,
      numbered through `ids`. */
  function Support(ps: seq<Pauli.Pauli>, ids: seq<nat>): (r: seq<nat>)
    requires |ids| >= |ps|
    ensures |r| <= |ps|
    ensures forall q :: q in r ==> q in ids[..|ps|]
    decreases |ps|
  {
    if ps == [] then []
    else
      var rest := Support(ps[1..], ids[1..]);
      assert forall q :: q in rest ==> q in ids[..|ps|] by {
        assert ids[1..][..|ps| - 1] == ids[1..|ps|];
      }
      (if ps[0] != Pauli.I then [ids[0]] else []) + rest
  }

  /** The support is empty exactly when the word is the identity on every
      qubit. */
  lemma {:induction false} SupportEmptyIff(ps: seq<Pauli.Pauli>, ids: seq<nat>)
    requires |ids| >= |ps|
    ensures Support(ps, ids) == [] <==> forall i :: 0 <= i < |ps| ==> ps[i] == Pauli.I
    decreases |ps|
  {
    if ps != [] {
      SupportEmptyIff(ps[1..], ids[1..]);
      if Support(ps, ids) == [] {
        forall i | 0 <= i < |ps| ensures ps[i] == Pauli.I {
          if i > 0 { assert ps[1..][i - 1] == ps[i]; }
        }
      }
    }
  }

  /** Distinct ids give a support without repetitions. */
  lemma {:induction false} SupportDistinct(ps: seq<Pauli.Pauli>, ids: seq<nat>)
    requires |ids| >= |ps|
    requires forall i, j :: 0 <= i < j < |ps| ==> ids[i] != ids[j]
    ensures Distinct(Support(ps, ids))
    decreases |ps|
  {
    if ps != [] {
      var rest := Support(ps[1..], ids[1..]);
      SupportDistinct(ps[1..], ids[1..]);
      assert ids[0] !in ids[1..][..|ps| - 1];
      assert ids[0] !in rest;
      if ps[0] != Pauli.I {
        var sup := [ids[0]] + rest;
        assert Support(ps, ids) == sup;
        forall i, j | 0 <= i < j < |sup| ensures sup[i] != sup[j] {
          if i == 0 {
            assert sup[j] == rest[j - 1];
          } else {
            assert sup[i] == rest[i - 1] && sup[j] == rest[j - 1];
          }
        }
      } else {
        assert Support(ps, ids) == rest;
      }
    }
  }

  predicate Distinct(qs: seq<nat>)
  {
    forall i, j :: 0 <= i < j < |qs| ==> qs[i] != qs[j]
  }

  /** The basis change of one qubit: Y rotated by Rx(+-pi/2), X by H, I and
      Z left alone. */
  function BasisGate(p: Pauli.Pauli, q: nat, reverse: bool): seq<Gate>
  {
    if p == Pauli.Y then [Gate(Rx, [if reverse then -HalfPi else HalfPi], [], [q])]
    else if p == Pauli.X then [OneQubit(H, q)]
    else []
  }

  /** The basis changes of the whole word, in qubit order. */
  function Basis(ps: seq<Pauli.Pauli>, ids: seq<nat>, reverse: bool): seq<Gate>
    requires |ids| >= |ps|
    decreases |ps|
  {
    if ps == [] then [] else BasisGate(ps[0], ids[0], reverse) + Basis(ps[1..], ids[1..], reverse)
  }

  /** The CNOT ladder over the support: qubit i controls qubit i + 1. */
  function CnotLadder(sup: seq<nat>): (l: seq<Toffoli>)
    ensures |l| == if sup == [] then 0 else |sup| - 1
  {
    if |sup| <= 1 then []
    else seq(|sup| - 1, i requires 0 <= i < |sup| - 1 => Toffoli(sup[i], sup[i], sup[i + 1]))
  }

  /** The CNOT gates of a ladder of Toffolis whose two controls coincide. */
  function CnotGates(l: seq<Toffoli>): (g: seq<Gate>)
    ensures |g| == |l|
  {
    seq(|l|, i requires 0 <= i < |l| => Cx(l[i].a, l[i].c))
  }

  /** A controlled gate as `decomposeMultiControlledInstruction` queues it. */
  function ControlledGates(name: GateName, params: seq<real>, controls: seq<nat>, aux: seq<nat>, targets: seq<nat>): seq<Gate>
    requires |controls| >= 2 ==> |aux| + 1 >= |controls|
  {
    if |controls| <= 1 then [Gate(name, params, controls, targets)]
    else CollectedGates(name, params, controls, aux, targets)
  }

  /** The gates `applyExpPauli` queues for a non-identity Pauli word: basis
      changes, the CNOT ladder, the (multi-)controlled Rz(-2 theta) on the
      last support qubit, the reversed ladder and the reversed basis
      changes with negated angles. */
  function ExpPauliGates(ps: seq<Pauli.Pauli>, ids: seq<nat>, theta: real, controls: seq<nat>, aux: seq<nat>): seq<Gate>
    requires |ids| >= |ps| && Support(ps, ids) != []
    requires |controls| >= 2 ==> |aux| + 1 >= |controls|
  {
    var sup := Support(ps, ids);
    var ladder := CnotLadder(sup);
    Basis(ps, ids, false) + CnotGates(ladder)
      + ControlledGates(Rz, [-2.0 * theta], controls, aux, [sup[|sup| - 1]])
      + CnotGates(Reverse(ladder)) + Reverse(Basis(ps, ids, true))
  }

  /** A term with a bit set has a non-trivial Pauli on some qubit. */
  lemma SupportNonEmpty(op: SpinOp.SpinOp, ids: seq<nat>)
    requires |op.terms| == 1 && |op.terms[0].row| % 2 == 0 && !SpinOp.AllIdentity(op)
    requires |ids| >= |op.terms[0].row| / 2
    ensures Support(Pauli.Decode(op.terms[0].row), ids) != []
  {
    var row := op.terms[0].row;
    var j :| 0 <= j < |row| && row[j];
    SpinOp.NoBitsIffIdentities(row);
    var ps := Pauli.Decode(row);
    assert ps != Pauli.Identities(|row| / 2);
    var i :| 0 <= i < |ps| && ps[i] != Pauli.I;
    SupportEmptyIff(ps, ids);
  }

  /** `applyExpPauli(theta, controls, ids, op)`: the identity is a no-op
      without controls and refused with them; any other operator must have
      a single term, whose Pauli word is rotated through its parity. Every
      row of the operator spans whole qubits, and `ids` numbers every qubit
      of the operator. */
  method ExpPauli(sim: Simulator, theta: real, controls: seq<nat>, ids: seq<nat>, op: SpinOp.SpinOp)
    returns (r: Result<Simulator, MpsError>)
    requires forall t :: t in op.terms ==> |t.row| % 2 == 0
    requires |ids| >= SpinOp.NQubits(op)
    ensures SpinOp.AllIdentity(op) ==> r == if controls == [] then Ok(sim) else Err(ControlledGlobalPhase)
    ensures !SpinOp.AllIdentity(op) && |op.terms| != 1 ==> r == Err(NotSingleTerm)
    ensures !SpinOp.AllIdentity(op) && |op.terms| == 1 ==>
      && Support(Pauli.Decode(op.terms[0].row), ids) != []
      && (r.Err? <==> |controls| >= 2 && |sim.aux| + 1 < |controls| && sim.dirty)
      && (r.Err? ==> r.error == DynamicCircuit)
      && (r.Ok? ==>
          && (|controls| >= 2 ==> |r.value.aux| + 1 >= |controls|)
          && r.value.queue == sim.queue + ExpPauliGates(Pauli.Decode(op.terms[0].row), ids, theta, controls, r.value.aux))
  {
    var identity := SpinOp.IsIdentity(op);
    if identity {
      if controls == [] {
        return Ok(sim);
      }
      return Err(ControlledGlobalPhase);
    }
    var word := SpinOp.ForEachPauli(op);
    if word.Err? {
      return Err(NotSingleTerm);
    }
    var ps := word.value;
    assert ps == Pauli.Decode(op.terms[0].row);
    SupportNonEmpty(op, ids);
    r := RotateWord(sim, theta, controls, ids, ps);
  }

  /** The non-identity branch of `applyExpPauli`: basis changes and CNOT
      ladder, the decomposed controlled Rz(-2 theta) on the last support
      qubit, then the ladder and the basis changes undone. */
  method RotateWord(sim: Simulator, theta: real, controls: seq<nat>, ids: seq<nat>, ps: seq<Pauli.Pauli>)
    returns (r: Result<Simulator, MpsError>)
    requires |ids| >= |ps| && Support(ps, ids) != []
    ensures r.Err? <==> |controls| >= 2 && |sim.aux| + 1 < |controls| && sim.dirty
    ensures r.Err? ==> r.error == DynamicCircuit
    ensures r.Ok? ==>
      && (|controls| >= 2 ==> |r.value.aux| + 1 >= |controls|)
      && r.value.queue == sim.queue + ExpPauliGates(ps, ids, theta, controls, r.value.aux)
  {
    var sup := Support(ps, ids);
    var ladder := CnotLadder(sup);
    var basis, cnots := Basis(ps, ids, false), CnotGates(ladder);
    var before := sim.(queue := sim.queue + basis + cnots);
    var rotated := Decompose(before, Rz, [-2.0 * theta], controls, [sup[|sup| - 1]]);
    if rotated.Err? {
      return Err(rotated.error);
    }
    var after := rotated.value;
    DecomposeQueue(before, Rz, [-2.0 * theta], controls, [sup[|sup| - 1]]);
    var middle := ControlledGates(Rz, [-2.0 * theta], controls, after.aux, [sup[|sup| - 1]]);
    var undo := CnotGates(Reverse(ladder)) + Reverse(Basis(ps, ids, true));
    assert ExpPauliGates(ps, ids, theta, controls, after.aux) == basis + cnots + middle + undo;
    assert after.queue == sim.queue + basis + cnots + middle;
    ConcatAssociates(sim.queue, basis, cnots, middle, undo);
    r := Ok(after.(queue := after.queue + undo));
  }

  lemma ConcatAssociates3(q: seq<Gate>, a: seq<Gate>, b: seq<Gate>, c: seq<Gate>)
    ensures q + a + b + c == q + (a + b + c)
  {
  }

  lemma ConcatAssociates(q: seq<Gate>, a: seq<Gate>, b: seq<Gate>, c: seq<Gate>, d: seq<Gate>)
    ensures q + a + b + c + d == q + (a + b + c + d)
  {
  }

  /** What a successful decomposition appends, in one term for both the
      direct and the collected case. */
  lemma DecomposeQueue(sim: Simulator, name: GateName, params: seq<real>, controls: seq<nat>, targets: seq<nat>)
    ensures var r := Decompose(sim, name, params, controls, targets);
      r.Ok? ==>
        && (|controls| >= 2 ==> |r.value.aux| + 1 >= |controls|)
        && r.value.queue == sim.queue + ControlledGates(name, params, controls, r.value.aux, targets)
  {
  }

  /** The adjoint of a gate: T and S swap with their daggers, rotations
      negate their angle, the other gates are their own inverse. */
  function Adjoint(g: Gate): Gate
  {
    match g.name
    case T => g.(name := Tdg)
    case Tdg => g.(name := T)
    case S => g.(name := Sdg)
    case Sdg => g.(name := S)
    case Rx | Ry | Rz | R1 => g.(params := seq(|g.params|, i requires 0 <= i < |g.params| => -g.params[i]))
    case _ => g
  }

  function AdjointAll(gs: seq<Gate>): (r: seq<Gate>)
    ensures |r| == |gs| && forall i :: 0 <= i < |gs| ==> r[i] == Adjoint(gs[i])
  {
    seq(|gs|, i requires 0 <= i < |gs| => Adjoint(gs[i]))
  }

  /** The reversed basis changes are the adjoints of the forward ones. */
  lemma {:induction false} BasisReverseIsAdjoint(ps: seq<Pauli.Pauli>, ids: seq<nat>)
    requires |ids| >= |ps|
    ensures Basis(ps, ids, true) == AdjointAll(Basis(ps, ids, false))
    decreases |ps|
  {
    if ps != [] {
      BasisReverseIsAdjoint(ps[1..], ids[1..]);
      var g := BasisGate(ps[0], ids[0], false);
      var rest := Basis(ps[1..], ids[1..], false);
      if ps[0] == Pauli.Y {
        assert Adjoint(g[0]).params == [-HalfPi];
      }
      assert BasisGate(ps[0], ids[0], true) == AdjointAll(g);
      assert AdjointAll(g + rest) == AdjointAll(g) + AdjointAll(rest);
    }
  }

  lemma ReverseAppend<A>(a: seq<A>, b: seq<A>)
    ensures Reverse(a + b) == Reverse(b) + Reverse(a)
  {
    var r := Reverse(a + b);
    assert forall i :: 0 <= i < |r| ==> r[i] == (Reverse(b) + Reverse(a))[i];
  }

  lemma ReverseAdjoint(gs: seq<Gate>)
    ensures Reverse(AdjointAll(gs)) == AdjointAll(Reverse(gs))
  {
    var a, b := Reverse(AdjointAll(gs)), AdjointAll(Reverse(gs));
    forall i | 0 <= i < |gs| ensures a[i] == b[i] {
      assert a[i] == AdjointAll(gs)[|gs| - 1 - i];
    }
  }

  /** The gates after the rotation mirror the gates before it: they are the
      adjoints of the prefix in reverse order, so the whole sequence is
      U^dagger . controlled Rz . U. */
  lemma ExpPauliMirror(ps: seq<Pauli.Pauli>, ids: seq<nat>, theta: real, controls: seq<nat>, aux: seq<nat>)
    requires |ids| >= |ps| && Support(ps, ids) != []
    requires |controls| >= 2 ==> |aux| + 1 >= |controls|
    ensures var sup := Support(ps, ids);
      var prefix := Basis(ps, ids, false) + CnotGates(CnotLadder(sup));
      ExpPauliGates(ps, ids, theta, controls, aux)
        == prefix + ControlledGates(Rz, [-2.0 * theta], controls, aux, [sup[|sup| - 1]]) + AdjointAll(Reverse(prefix))
  {
    var sup := Support(ps, ids);
    var basis := Basis(ps, ids, false);
    var ladder := CnotLadder(sup);
    var cnots := CnotGates(ladder);
    var middle := ControlledGates(Rz, [-2.0 * theta], controls, aux, [sup[|sup| - 1]]);
    BasisReverseIsAdjoint(ps, ids);
    ReverseAdjoint(basis);
    CnotsReverseIsAdjoint(ladder);
    AdjointAllAppend(Reverse(cnots), Reverse(basis));
    ReverseAppend(basis, cnots);
    assert CnotGates(Reverse(ladder)) + Reverse(Basis(ps, ids, true)) == AdjointAll(Reverse(basis + cnots));
    ConcatAssociates([], basis, cnots, middle, AdjointAll(Reverse(basis + cnots)));
  }

  lemma AdjointAllAppend(a: seq<Gate>, b: seq<Gate>)
    ensures AdjointAll(a + b) == AdjointAll(a) + AdjointAll(b)
  {
  }

  /** The reversed CNOT ladder is the adjoint of the forward one. */
  lemma CnotsReverseIsAdjoint(l: seq<Toffoli>)
    ensures CnotGates(Reverse(l)) == AdjointAll(Reverse(CnotGates(l)))
  {
  }

  /** The parity of the listed qubits of a basis state. */
  function Parity(s: Bits, qs: seq<nat>): bool
    requires forall i :: 0 <= i < |qs| ==> qs[i] < |s|
    decreases |qs|
  {
    if qs == [] then false else Parity(s, qs[..|qs| - 1]) != s[qs[|qs| - 1]]
  }

  predicate DistinctIn(qs: seq<nat>, width: nat)
  {
    && (forall i :: 0 <= i < |qs| ==> qs[i] < width)
    && (forall i, j :: 0 <= i < j < |qs| ==> qs[i] != qs[j])
  }

  lemma CnotLadderShape(s: Bits, sup: seq<nat>)
    requires DistinctIn(sup, |s|)
    ensures InRange(CnotLadder(sup), |s|) && TargetsApart(CnotLadder(sup))
  {
  }

  /** The ladder over a longer support is the shorter ladder and one more
      CNOT into the new last qubit. */
  lemma CnotLadderSnoc(sup: seq<nat>)
    requires |sup| >= 2
    ensures CnotLadder(sup) == CnotLadder(sup[..|sup| - 1]) + [Toffoli(sup[|sup| - 2], sup[|sup| - 2], sup[|sup| - 1])]
  {
  }

  /** The CNOT ladder collects the parity of the support into its last
      qubit and touches no qubit but the second to last ones. */
  lemma {:induction false} CnotLadderParity(s: Bits, sup: seq<nat>)
    requires sup != [] && DistinctIn(sup, |s|)
    ensures InRange(CnotLadder(sup), |s|)
    ensures ApplyLadder(s, CnotLadder(sup))[sup[|sup| - 1]] == Parity(s, sup)
    ensures forall q :: 0 <= q < |s| && q !in sup[1..] ==> ApplyLadder(s, CnotLadder(sup))[q] == s[q]
    decreases |sup|
  {
    CnotLadderShape(s, sup);
    if |sup| == 1 {
      assert sup[..0] == [];
    } else {
      var pre := sup[..|sup| - 1];
      var q := sup[|sup| - 1];
      var p := pre[|pre| - 1];
      CnotLadderParity(s, pre);
      var t := Toffoli(p, p, q);
      CnotLadderSnoc(sup);
      var r := ApplyLadder(s, CnotLadder(pre));
      assert q !in pre[1..];
      ApplyLadderAppend(s, CnotLadder(pre), [t]);
      assert ApplyLadder(s, CnotLadder(sup)) == r[q := r[q] != r[p]];
      forall x | 0 <= x < |s| && x !in sup[1..] ensures x !in pre[1..] && x != q {
        assert pre[1..] == sup[1..|sup| - 1];
      }
    }
  }

  /** Undoing the ladder restores the state, so the rotation in between sees
      the parity of the support on its target and nothing else changes. */
  lemma CnotLadderUncomputes(s: Bits, sup: seq<nat>)
    requires sup != [] && DistinctIn(sup, |s|)
    ensures InRange(Reverse(CnotLadder(sup)), |s|)
    ensures ApplyLadder(ApplyLadder(s, CnotLadder(sup)), Reverse(CnotLadder(sup))) == s
  {
    CnotLadderShape(s, sup);
    UncomputeRestores(s, CnotLadder(sup));
  }
}
