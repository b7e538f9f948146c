/** The OpenQASM 2.0 emitter's gate-name table and rejection rules
    (lib/Target/OpenQASM/TranslateToOpenQASM.cpp). Emitter-assigned register
    names are inputs; the printed form of a double parameter is an input
    string. */
module OpenQasm {
  import opened Common

  // ---------------------------------------------------------------------
  // The qelib1.inc gates and their qubit counts
  // ---------------------------------------------------------------------

  /** Number of qubit arguments of each gate declared in qelib1.inc, the
      standard gate header as distributed with OpenQASM 2.0 implementations
      (it extends the paper's listing with crx, cry, swap, cswap, rzz and
      others); `None` for names outside this table. */
  function Qelib1Arity(name: string): (r: Option<nat>)
    ensures r.Some? ==> 1 <= r.value <= 3
  {
    if name in {"u3", "u2", "u1", "id", "x", "y", "z", "h", "s", "sdg", "t", "tdg",
                "rx", "ry", "rz"} then Some(1)
    else if name in {"cx", "cz", "cy", "ch", "swap", "crz", "cu1", "cu3",
                     "crx", "cry", "rzz"} then Some(2)
    else if name in {"ccx", "cswap"} then Some(3)
    else None
  }

  /** The single-target quake operators with a qelib1 counterpart. */
  predicate IsStandardQuakeGate(name: string)
  {
    name in {"h", "x", "y", "z", "r1", "rx", "ry", "rz"}
  }

  // ---------------------------------------------------------------------
  // translateOperatorName
  // ---------------------------------------------------------------------

  /** The name table as written: with no controls `r1` is renamed to `cu1`
      and every other name is kept; with one control eight gates get their
      controlled counterpart; with two controls only `x` (as `ccx`); with
      three or more controls nothing translates. */
  function TranslateOperatorNameAsWritten(quakeName: string, numControls: nat): (r: Option<string>)
    ensures r.Some? ==> r.value != []
    ensures numControls >= 3 ==> r.None?
    ensures numControls == 0 && quakeName != [] && quakeName != "r1" ==> r == Some(quakeName)
    ensures numControls == 2 ==> (r.Some? <==> quakeName == "x")
    ensures numControls == 1 ==> (r.Some? <==> IsStandardQuakeGate(quakeName))
  {
    var name :=
      if numControls == 0 then (if quakeName == "r1" then "cu1" else quakeName)
      else if numControls == 1 then
        (if quakeName == "h" then "ch"
         else if quakeName == "x" then "cx"
         else if quakeName == "y" then "cy"
         else if quakeName == "z" then "cz"
         else if quakeName == "r1" then "cu1"
         else if quakeName == "rx" then "crx"
         else if quakeName == "ry" then "cry"
         else if quakeName == "rz" then "crz"
         else "")
      else if numControls == 2 then (if quakeName == "x" then "ccx" else "")
      else "";
    if name == [] then None else Some(name)
  }

  /** The uncontrolled `r1` gate (a phase rotation on one qubit) printed as
      `cu1`, a gate that qelib1.inc declares on two qubits: the emitted
      statement names one qubit for a two-qubit gate. */
  lemma UncontrolledR1IsMistranslated()
    ensures TranslateOperatorNameAsWritten("r1", 0) == Some("cu1")
    ensures Qelib1Arity("cu1") == Some(2)
    ensures Qelib1Arity("cu1").value != 0 + 1
  {
  }

  /** The table with the uncontrolled `r1` mapped to qelib1's `u1`. */
  function TranslateOperatorName(quakeName: string, numControls: nat): (r: Option<string>)
    ensures quakeName != "r1" || numControls != 0 ==>
      r == TranslateOperatorNameAsWritten(quakeName, numControls)
    ensures quakeName == "r1" && numControls == 0 ==> r == Some("u1")
  {
    if quakeName == "r1" && numControls == 0 then Some("u1")
    else TranslateOperatorNameAsWritten(quakeName, numControls)
  }

  /** Every standard single-target gate that translates lands on a qelib1
      gate acting on exactly its controls plus its one target. */
  lemma {:induction false} TranslatedArityMatches(quakeName: string, numControls: nat)
    requires IsStandardQuakeGate(quakeName)
    requires TranslateOperatorName(quakeName, numControls).Some?
    ensures Qelib1Arity(TranslateOperatorName(quakeName, numControls).value) == Some(numControls + 1)
  {
    var r := TranslateOperatorName(quakeName, numControls).value;
    if numControls == 0 {
      assert quakeName == "r1" ==> r == "u1";
      assert quakeName != "r1" ==> r == quakeName;
    } else if numControls == 1 {
      assert r in {"ch", "cx", "cy", "cz", "cu1", "crx", "cry", "crz"};
    } else {
      assert numControls == 2 && r == "ccx";
    }
  }

  // ---------------------------------------------------------------------
  // Text helpers
  // ---------------------------------------------------------------------

  /** `llvm::interleaveComma`: the items separated by ", ". */
  function JoinComma(items: seq<string>): (r: string)
    ensures items == [] ==> r == []
    ensures |items| == 1 ==> r == items[0]
  {
    if items == [] then []
    else if |items| == 1 then items[0]
    else items[0] + ", " + JoinComma(items[1..])
  }

  lemma {:induction false} JoinCommaAppend(a: seq<string>, b: seq<string>)
    requires a != [] && b != []
    ensures JoinComma(a + b) == JoinComma(a) + ", " + JoinComma(b)
    decreases |a|
  {
    if |a| == 1 {
      assert (a + b)[1..] == b;
    } else {
      assert (a + b)[1..] == a[1..] + b;
      JoinCommaAppend(a[1..], b);
    }
  }

  // ---------------------------------------------------------------------
  // Operators
  // ---------------------------------------------------------------------

  /** A parameter whose value the emitter could fold to a double (given by
      its printed text), or one it could not. */
  datatype Parameter = Known(text: string) | Unknown

  /** A quantum operator: quake name, adjoint flag, parameters, and the
      emitter names of its control and target operands. */
  datatype Operator = Operator(
    name: string,
    isAdj: bool,
    parameters: seq<Parameter>,
    controls: seq<string>,
    targets: seq<string>)

  datatype EmitError =
    | AdjointUnsupported        // "cannot convert adjoint operations to OpenQASM 2.0"
    | CannotConvert             // "cannot convert operation to OpenQASM 2.0"
    | ParametersFailed          // "failed to emit parameters"
    | MultiTargetMeasurement    // "cannot translate measurements with more than one target"
    | UnboundedMeasurement      // "cannot emmit measure on an unbounded veq"
    | UnboundedAllocation       // "allocates unbounded veq"
    | MultipleEntryPoints       // "has multiple entrypoints"
    | NoEntryPoint              // "does not contain an entrypoint"
    | Untranslatable            // "unable to translate op to OpenQASM 2.0"

  predicate AllKnown(ps: seq<Parameter>)
  {
    forall i :: 0 <= i < |ps| ==> ps[i].Known?
  }

  function ParameterTexts(ps: seq<Parameter>): (r: seq<string>)
    requires AllKnown(ps)
    ensures |r| == |ps|
    ensures forall i :: 0 <= i < |ps| ==> r[i] == ps[i].text
  {
    seq(|ps|, i requires 0 <= i < |ps| => ps[i].text)
  }

  /** `printParameters`: nothing for no parameters, otherwise the values in
      parentheses; fails when any value is not a known constant. */
  function PrintParameters(ps: seq<Parameter>): (r: Result<string, EmitError>)
    ensures r.Ok? <==> AllKnown(ps)
    ensures r.Ok? && ps == [] ==> r.value == []
    ensures r.Ok? && ps != [] ==> r.value == "(" + JoinComma(ParameterTexts(ps)) + ")"
  {
    if !AllKnown(ps) then Err(ParametersFailed)
    else if ps == [] then Ok([])
    else Ok("(" + JoinComma(ParameterTexts(ps)) + ")")
  }

  /** The operator emitter once the name table has answered: the adjoint
      check, then the name, then the parameters; a control list is written
      before the targets and closed with a comma. */
  function EmitOperatorNamed(op: Operator, translated: Option<string>): (r: Result<string, EmitError>)
    ensures op.isAdj ==> r == Err(AdjointUnsupported)
    ensures !op.isAdj && translated.None? ==> r == Err(CannotConvert)
    ensures !op.isAdj && translated.Some? && !AllKnown(op.parameters) ==> r == Err(ParametersFailed)
    ensures r.Ok? <==> !op.isAdj && translated.Some? && AllKnown(op.parameters)
  {
    if op.isAdj then Err(AdjointUnsupported)
    else match translated
      case None => Err(CannotConvert)
      case Some(name) =>
        match PrintParameters(op.parameters)
        case Err(e) => Err(e)
        case Ok(params) =>
          Ok(OperatorText(name, params, op.controls, op.targets))
  }

  /** The operator emitter as the program runs it (TranslateToOpenQASM.cpp
      lines 217-244), with the name table as written. */
  function EmitOperator(op: Operator): (r: Result<string, EmitError>)
    ensures op.isAdj ==> r == Err(AdjointUnsupported)
    ensures !op.isAdj && TranslateOperatorNameAsWritten(op.name, |op.controls|).None? ==> r == Err(CannotConvert)
    ensures r.Ok? <==> !op.isAdj && TranslateOperatorNameAsWritten(op.name, |op.controls|).Some? && AllKnown(op.parameters)
  {
    EmitOperatorNamed(op, TranslateOperatorNameAsWritten(op.name, |op.controls|))
  }

  /** The operator emitter with the corrected name table. */
  function EmitOperatorIntended(op: Operator): (r: Result<string, EmitError>)
    ensures op.isAdj ==> r == Err(AdjointUnsupported)
    ensures !op.isAdj && TranslateOperatorName(op.name, |op.controls|).None? ==> r == Err(CannotConvert)
    ensures r.Ok? <==> !op.isAdj && TranslateOperatorName(op.name, |op.controls|).Some? && AllKnown(op.parameters)
    ensures op.name != "r1" || |op.controls| != 0 ==> r == EmitOperator(op)
  {
    EmitOperatorNamed(op, TranslateOperatorName(op.name, |op.controls|))
  }

  /** The text the operator emitter writes once the name and parameters are
      printed: a space-separated control list closed by a comma, then a
      space and the targets. */
  function OperatorText(name: string, params: string, controls: seq<string>, targets: seq<string>): string
  {
    var ctls := if controls == [] then [] else " " + JoinComma(controls) + ",";
    name + params + ctls + " " + JoinComma(targets) + ";\n"
  }

  /** A gate statement of OpenQASM 2.0 (section 3 of the language paper):
      the gate name, its optional parameter list, one space, and the qubit
      arguments separated by commas. */
  function GateStatement(name: string, params: seq<string>, args: seq<string>): string
  {
    name + (if params == [] then [] else "(" + JoinComma(params) + ")")
      + " " + JoinComma(args) + ";\n"
  }

  lemma {:induction false} OperatorTextIsGateStatement(name: string, params: seq<string>,
                                                      controls: seq<string>, targets: seq<string>)
    requires targets != []
    ensures OperatorText(name, if params == [] then [] else "(" + JoinComma(params) + ")", controls, targets)
         == GateStatement(name, params, controls + targets)
  {
    var p := if params == [] then [] else "(" + JoinComma(params) + ")";
    var ts := JoinComma(targets);
    if controls == [] {
      assert controls + targets == targets;
      assert name + p + [] == name + p;
    } else {
      var cs := JoinComma(controls);
      JoinCommaAppend(controls, targets);
      calc {
        OperatorText(name, p, controls, targets);
        name + p + (" " + cs + ",") + " " + ts + ";\n";
        { assert (" " + cs + ",") + " " + ts == " " + (cs + ", " + ts); }
        name + p + " " + (cs + ", " + ts) + ";\n";
        GateStatement(name, params, controls + targets);
      }
    }
  }

  lemma {:induction false} EmitNamedIsGateStatement(op: Operator, translated: Option<string>)
    requires EmitOperatorNamed(op, translated).Ok?
    requires op.targets != []
    ensures EmitOperatorNamed(op, translated).value ==
      GateStatement(translated.value, ParameterTexts(op.parameters), op.controls + op.targets)
  {
    var texts := ParameterTexts(op.parameters);
    assert PrintParameters(op.parameters).value == (if texts == [] then [] else "(" + JoinComma(texts) + ")");
    OperatorTextIsGateStatement(translated.value, texts, op.controls, op.targets);
  }

  /** What the operator emitter prints is the gate statement applying the
      translated name to the controls followed by the targets. */
  lemma EmitOperatorIsGateStatement(op: Operator)
    requires EmitOperator(op).Ok?
    requires op.targets != []
    ensures EmitOperator(op).value ==
      GateStatement(TranslateOperatorNameAsWritten(op.name, |op.controls|).value,
                    ParameterTexts(op.parameters), op.controls + op.targets)
  {
    EmitNamedIsGateStatement(op, TranslateOperatorNameAsWritten(op.name, |op.controls|));
  }

  /** With the corrected table, a standard single-target gate is printed as
      a qelib1 gate statement whose qubit arguments are exactly as many as
      the gate declares. */
  lemma EmitOperatorIntendedIsWellFormed(op: Operator)
    requires IsStandardQuakeGate(op.name) && |op.targets| == 1
    requires EmitOperatorIntended(op).Ok?
    ensures var name := TranslateOperatorName(op.name, |op.controls|).value;
      && EmitOperatorIntended(op).value == GateStatement(name, ParameterTexts(op.parameters), op.controls + op.targets)
      && Qelib1Arity(name) == Some(|op.controls + op.targets|)
  {
    EmitNamedIsGateStatement(op, TranslateOperatorName(op.name, |op.controls|));
    TranslatedArityMatches(op.name, |op.controls|);
  }

  /** An uncontrolled, non-adjoint operator with one known parameter on
      one qubit, once its name is translated. */
  lemma EmitOneQubit(opName: string, name: string, angle: string, qubit: string)
    ensures EmitOperatorNamed(Operator(opName, false, [Known(angle)], [], [qubit]), Some(name))
         == Ok(name + "(" + angle + ") " + qubit + ";\n")
  {
    var op := Operator(opName, false, [Known(angle)], [], [qubit]);
    assert ParameterTexts(op.parameters) == [angle];
    assert PrintParameters(op.parameters) == Ok("(" + angle + ")");
    assert JoinComma(op.targets) == qubit;
    assert OperatorText(name, "(" + angle + ")", [], [qubit])
        == name + "(" + angle + ") " + qubit + ";\n";
  }

  /** An uncontrolled `r1` on one qubit is printed by the program as a
      `cu1` statement with a single qubit argument, although qelib1 declares
      `cu1` on two; the corrected emitter prints `u1`. */
  lemma UncontrolledR1EmitsCu1(angle: string, qubit: string)
    ensures EmitOperator(Operator("r1", false, [Known(angle)], [], [qubit]))
         == Ok("cu1" + "(" + angle + ") " + qubit + ";\n")
    ensures EmitOperatorIntended(Operator("r1", false, [Known(angle)], [], [qubit]))
         == Ok("u1" + "(" + angle + ") " + qubit + ";\n")
    ensures Qelib1Arity("cu1") == Some(2) && Qelib1Arity("u1") == Some(1)
  {
    assert TranslateOperatorNameAsWritten("r1", 0) == Some("cu1");
    EmitOneQubit("r1", "cu1", angle, qubit);
    EmitOneQubit("r1", "u1", angle, qubit);
  }

  // ---------------------------------------------------------------------
  // Registers and measurements
  // ---------------------------------------------------------------------

  /** `printClassicalAllocation`: the `creg` declaration and the name the
      bits are known by afterwards (the register itself, or its only
      element when it has one bit). */
  function PrintClassicalAllocation(name: string, size: nat): (r: (string, string))
    ensures size == 1 <==> r.1 == name + "[0]"
    ensures size != 1 ==> r.1 == name
    ensures r.0 == "creg " + name + "[" + NatToString(size) + "];\n"
  {
    ("creg " + name + "[" + NatToString(size) + "];\n",
     if size == 1 then name + "[0]" else name)
  }

  /** The type of an allocated or measured quantum value. */
  datatype QuantumType = Ref | Veq(size: Option<nat>)

  /** A register size stored in the emitter's `int` (`auto size = 1;`):
      the low 32 bits of the `std::size_t`, read as two's complement. */
  function ToInt32(n: nat): (x: int)
    ensures -0x8000_0000 <= x < 0x8000_0000
    ensures n < 0x8000_0000 ==> x == n
    ensures (n - x) % U32Modulus == 0
  {
    var low := n % U32Modulus;
    if low < 0x8000_0000 then low else low - U32Modulus
  }

  /** `llvm::formatv` of an `int`: a minus sign, then the digits. */
  function IntToString(x: int): (s: string)
    ensures x >= 0 ==> s == NatToString(x)
    ensures x < 0 ==> s == "-" + NatToString(-x)
  {
    if x < 0 then "-" + NatToString(-x) else NatToString(x)
  }

  /** The register size a value of this type declares, in the emitter's
      `int`. */
  function DeclaredSize(ty: QuantumType): int
    requires ty != Veq(None)
  {
    if ty.Veq? then ToInt32(ty.size.value) else 1
  }

  /** The `quake.alloca` emitter: a `qreg` declaration and the name the
      value is known by afterwards; only a single reference gets `[0]`. */
  function EmitAlloca(name: string, ty: QuantumType): (r: Result<(string, string), EmitError>)
    ensures r.Err? <==> ty == Veq(None)
    ensures r.Ok? ==> (r.value.1 == name + "[0]" <==> ty == Ref)
    ensures r.Ok? && ty.Veq? ==>
      && r.value.1 == name
      && r.value.0 == "qreg " + name + "[" + IntToString(ToInt32(ty.size.value)) + "];\n"
    ensures r.Ok? && ty.Veq? && ty.size.value < 0x8000_0000 ==>
      r.value.0 == "qreg " + name + "[" + NatToString(ty.size.value) + "];\n"
    ensures r.Ok? && ty == Ref ==> r.value.0 == "qreg " + name + "[1];\n"
  {
    match ty
    case Veq(None) => Err(UnboundedAllocation)
    case Veq(Some(n)) => Ok(("qreg " + name + "[" + IntToString(ToInt32(n)) + "];\n", name))
    case Ref => Ok(("qreg " + name + "[1];\n", name + "[0]"))
  }

  /** A measurement target: its emitter name and its type. */
  datatype Target = Target(name: string, ty: QuantumType)

  /** The `quake.mz` emitter. `bitsName` is the fresh name of the classical
      register, whose size is the emitter's `int` size converted back to
      `std::size_t`. The source reads the first target without checking
      that there is one, so at least one is required. */
  function EmitMeasure(targets: seq<Target>, bitsName: string): (r: Result<string, EmitError>)
    requires |targets| >= 1
    ensures |targets| > 1 ==> r == Err(MultiTargetMeasurement)
    ensures |targets| == 1 && targets[0].ty == Veq(None) ==> r == Err(UnboundedMeasurement)
    ensures r.Ok? <==> |targets| == 1 && targets[0].ty != Veq(None)
    ensures r.Ok? ==>
      var alloc := PrintClassicalAllocation(bitsName, ToSize(DeclaredSize(targets[0].ty)));
      r.value == alloc.0 + "measure " + targets[0].name + " -> " + alloc.1 + ";\n"
  {
    if |targets| > 1 then Err(MultiTargetMeasurement)
    else
      var t := targets[0];
      if t.ty == Veq(None) then Err(UnboundedMeasurement)
      else
        var alloc := PrintClassicalAllocation(bitsName, ToSize(DeclaredSize(t.ty)));
        Ok(alloc.0 + "measure " + t.name + " -> " + alloc.1 + ";\n")
  }

  /** For a register of fewer than 2^31 qubits, measuring it declares a
      classical register of the same printed size as its `qreg`, and writes
      into the single bit `[0]` exactly when it has one qubit. */
  lemma MeasureMatchesAlloca(name: string, bitsName: string, n: nat)
    requires n < 0x8000_0000
    ensures EmitAlloca(name, Veq(Some(n))) == Ok(("qreg " + name + "[" + NatToString(n) + "];\n", name))
    ensures EmitMeasure([Target(name, Veq(Some(n)))], bitsName)
         == Ok("creg " + bitsName + "[" + NatToString(n) + "];\n" + "measure " + name + " -> "
               + (if n == 1 then bitsName + "[0]" else bitsName) + ";\n")
  {
  }

  /** A register of 2^32 + k qubits (k < 2^31) is declared with k qubits: the
      size is truncated to the emitter's 32-bit `int`. */
  lemma AllocaSizeTruncated(name: string, k: nat)
    requires k < 0x8000_0000
    ensures EmitAlloca(name, Veq(Some(U32Modulus + k))).value.0 == "qreg " + name + "[" + NatToString(k) + "];\n"
  {
    assert ToInt32(U32Modulus + k) == k;
  }

  /** Measuring a one-element register is printed exactly like measuring a
      single qubit: both write into the bit `[0]` of a one-bit register. */
  lemma MeasureOneElementLikeOneQubit(name: string, bitsName: string)
    ensures EmitMeasure([Target(name, Veq(Some(1)))], bitsName) == EmitMeasure([Target(name, Ref)], bitsName)
    ensures EmitMeasure([Target(name, Ref)], bitsName).Ok?
  {
  }

  // ---------------------------------------------------------------------
  // Modules
  // ---------------------------------------------------------------------

  /** A top-level operation of the module: whether it carries the entry-point
      attribute, whether it is a `func.func`, and what emitting it produces
      (for an entry-point function, what emitting its body produces). */
  datatype ModuleItem = ModuleItem(isEntryAttr: bool, isFunc: bool, emitted: Result<string, EmitError>)

  const Header: string :=
    "// Code generated by NVIDIA's nvq++ compiler\n" + "OPENQASM 2.0;\n\n" + "include \"qelib1.inc\";\n\n"

  /** The loop over the module's operations. `entry` is the entry point
      found so far: a second operation with the attribute is an error only
      when the first was a function (`dyn_cast_or_null` otherwise leaves
      none recorded). */
  function ScanModule(items: seq<ModuleItem>, entry: Option<ModuleItem>, out: string): (r: Result<(Option<ModuleItem>, string), EmitError>)
    requires entry.Some? ==> entry.value.isFunc
    ensures r.Ok? && r.value.0.Some? ==> r.value.0.value.isFunc
    decreases |items|
  {
    if items == [] then Ok((entry, out))
    else
      var it := items[0];
      if it.isEntryAttr then
        if entry.Some? then Err(MultipleEntryPoints)
        else ScanModule(items[1..], if it.isFunc then Some(it) else None, out)
      else match it.emitted
        case Err(e) => Err(e)
        case Ok(text) => ScanModule(items[1..], entry, out + text + "\n")
  }

  /** The module emitter: header, every non-entry operation followed by a
      blank line, then the entry point's body. */
  function EmitModule(items: seq<ModuleItem>): (r: Result<string, EmitError>)
  {
    match ScanModule(items, None, Header)
    case Err(e) => Err(e)
    case Ok((None, _)) => Err(NoEntryPoint)
    case Ok((Some(entry), out)) =>
      match entry.emitted
      case Err(e) => Err(e)
      case Ok(text) => Ok(out + text)
  }

  predicate IsEntryFunc(it: ModuleItem) { it.isEntryAttr && it.isFunc }

  /** A module with no entry-point function is rejected. */
  lemma {:induction false} NoEntryPointRejected(items: seq<ModuleItem>)
    requires forall i :: 0 <= i < |items| ==> !IsEntryFunc(items[i])
    ensures EmitModule(items).Err?
  {
    NoEntryScan(items, Header);
  }

  lemma {:induction false} NoEntryScan(items: seq<ModuleItem>, out: string)
    requires forall i :: 0 <= i < |items| ==> !IsEntryFunc(items[i])
    ensures ScanModule(items, None, out).Ok? ==> ScanModule(items, None, out).value.0.None?
    decreases |items|
  {
    if items != [] {
      assert forall i :: 0 <= i < |items[1..]| ==> !IsEntryFunc(items[1..][i]) by {
        forall i | 0 <= i < |items[1..]| ensures !IsEntryFunc(items[1..][i]) {
          assert items[1..][i] == items[i + 1];
        }
      }
      if items[0].isEntryAttr {
        NoEntryScan(items[1..], out);
      } else if items[0].emitted.Ok? {
        NoEntryScan(items[1..], out + items[0].emitted.value + "\n");
      }
    }
  }

  /** A module in which an entry-point function is followed by another
      operation with the entry-point attribute is rejected, whatever lies
      between them. */
  lemma {:induction false} TwoEntryPointsRejected(items: seq<ModuleItem>, i: nat, j: nat)
    requires i < j < |items|
    requires IsEntryFunc(items[i]) && items[j].isEntryAttr
    ensures EmitModule(items).Err?
  {
    ScanFindsFirstEntry(items, i, j, None, Header);
  }

  lemma {:induction false} ScanFindsFirstEntry(items: seq<ModuleItem>, i: nat, j: nat,
                                              entry: Option<ModuleItem>, out: string)
    requires i < j < |items|
    requires entry.Some? ==> entry.value.isFunc
    requires IsEntryFunc(items[i]) && items[j].isEntryAttr
    ensures ScanModule(items, entry, out).Err?
    decreases |items|
  {
    var it := items[0];
    if it.isEntryAttr && entry.Some? {
    } else if i == 0 {
      ScanWithEntryFails(items[1..], j - 1, it, out);
    } else if it.isEntryAttr {
      ScanFindsFirstEntry(items[1..], i - 1, j - 1, if it.isFunc then Some(it) else None, out);
    } else if it.emitted.Ok? {
      ScanFindsFirstEntry(items[1..], i - 1, j - 1, entry, out + it.emitted.value + "\n");
    }
  }

  lemma {:induction false} ScanWithEntryFails(items: seq<ModuleItem>, j: nat, entry: ModuleItem, out: string)
    requires j < |items| && items[j].isEntryAttr
    requires entry.isFunc
    ensures ScanModule(items, Some(entry), out).Err?
    decreases |items|
  {
    var it := items[0];
    if !it.isEntryAttr && it.emitted.Ok? {
      ScanWithEntryFails(items[1..], j - 1, entry, out + it.emitted.value + "\n");
    }
  }

  /** A module with exactly one entry-point attribute, on a function, whose
      operations all emit, is emitted: the header, each other operation's
      text followed by a newline, then the entry point's body. */
  lemma {:induction false} SingleEntryModuleEmitted(items: seq<ModuleItem>, e: nat)
    requires e < |items| && IsEntryFunc(items[e])
    requires forall i :: 0 <= i < |items| && i != e ==> !items[i].isEntryAttr
    requires forall i :: 0 <= i < |items| ==> items[i].emitted.Ok?
    ensures EmitModule(items) == Ok(Header + Emitted(items[..e]) + Emitted(items[e + 1..]) + items[e].emitted.value)
  {
    ScanPlain(items[..e], None, Header);
    ScanConcat(items[..e], items[e..], None, Header);
    assert items[..e] + items[e..] == items;
    var mid := Header + Emitted(items[..e]);
    assert items[e..][1..] == items[e + 1..];
    ScanPlain(items[e + 1..], Some(items[e]), mid);
  }

  /** The texts of operations without the attribute, each followed by a
      newline. */
  function Emitted(items: seq<ModuleItem>): string
    requires forall i :: 0 <= i < |items| ==> items[i].emitted.Ok?
  {
    if items == [] then [] else items[0].emitted.value + "\n" + Emitted(items[1..])
  }

  lemma {:induction false} ScanPlain(items: seq<ModuleItem>, entry: Option<ModuleItem>, out: string)
    requires entry.Some? ==> entry.value.isFunc
    requires forall i :: 0 <= i < |items| ==> !items[i].isEntryAttr && items[i].emitted.Ok?
    ensures ScanModule(items, entry, out) == Ok((entry, out + Emitted(items)))
    decreases |items|
  {
    if items == [] {
      assert out + [] == out;
    } else {
      var v := items[0].emitted.value;
      assert forall i :: 0 <= i < |items[1..]| ==> items[1..][i] == items[i + 1];
      ScanPlain(items[1..], entry, out + v + "\n");
      assert out + v + "\n" + Emitted(items[1..]) == out + (v + "\n" + Emitted(items[1..]));
    }
  }

  lemma {:induction false} ScanConcat(a: seq<ModuleItem>, b: seq<ModuleItem>, entry: Option<ModuleItem>, out: string)
    requires entry.Some? ==> entry.value.isFunc
    requires ScanModule(a, entry, out).Ok?
    ensures ScanModule(a + b, entry, out) ==
      ScanModule(b, ScanModule(a, entry, out).value.0, ScanModule(a, entry, out).value.1)
    decreases |a|
  {
    if a == [] {
      assert a + b == b;
    } else {
      assert (a + b)[0] == a[0];
      assert (a + b)[1..] == a[1..] + b;
      var it := a[0];
      if it.isEntryAttr {
        ScanConcat(a[1..], b, if it.isFunc then Some(it) else None, out);
      } else {
        ScanConcat(a[1..], b, entry, out + it.emitted.value + "\n");
      }
    }
  }
}
