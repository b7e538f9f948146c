# CUDA-Q core: qubit mapping, spin operators, MPS gate decomposition, OpenQASM emission, loop unrolling, qvector

A Dafny model of six parts of CUDA-Q.

- **The qubit-mapping pass** (`lib/Optimizer/Transforms/Mapping.cpp`).
  - The driver `Mapper::runOnOperation` parses the device option and scans the kernel's single block. It sizes the target device, pads the program with ancilla wires, routes, prunes the unused ancillas and reports `mapping_v2p`. Its model is module `Mapper`.
  - The SABRE router `SabreRouter` is module `Sabre`. It covers visiting users, mapping the front layer, the extended look-ahead layer, swap scoring and choice, decay and the routing loop.
  - The device and the placement are module `Hardware`.
- **`cudaq::spin_op`** (`runtime/cudaq/spin/spin_op.cpp`). Module `Pauli` holds the binary-symplectic rows and the row product with its phase. Module `SpinOp` holds the term table, its constructors, `+=`, padding to more qubits, `is_identity`, printing, the action on a bra, and the data-vector encoding and decoding.
- **The matrix-product-state simulator's gate generation** (`runtime/nvqir/cutensornet/simulator_mps_register.cpp`), module `MpsDecompose`. It covers the two-qubit gate limit, auxiliary qubits, the Toffoli ladder that collects the controls, the 15-gate Toffoli expansion, the controlled swap and exp-Pauli. Gates are records appended to a queue. Their effect is stated on classical basis states, and as a phase for the CCZ core.
- **The OpenQASM 2.0 emitter** (`lib/Target/OpenQASM/TranslateToOpenQASM.cpp`), module `OpenQasm`. It covers the gate-name table, parameter printing, operators, register allocation, measurement and the module/entry-point rules.
- **Loop analysis and full loop unrolling**: `lib/Optimizer/Transforms/LoopAnalysis.h` is module `LoopAnalysis` and `lib/Optimizer/Transforms/LoopUnroll.cpp` is module `LoopUnroll`.
- **`cudaq::qvector`** (`runtime/cudaq/qis/qvector.h`), module `QVector`.

Module `Common` holds `Option`/`Result`, C++ truncating division and remainder, 32- and 64-bit wrap-around, counting and decimal printing.

Several operations come in two versions:
- a `…AsWritten` member follows the source text exactly;
- a corrected member is what the rest of the model uses.

The "## Findings" table lists each pair.

## Model

| member | source | states |
|---|---|---|
| Hardware.IdentityPlacement | lib/Optimizer/Transforms/Mapping.cpp:40-43 | The identity placement is a bijection on n qubits that maps every virtual qubit v to device qubit v and back. |
| Hardware.SwapPlacement | lib/Optimizer/Transforms/Mapping.cpp:339-340 | Swapping device qubits p0 and p1 keeps the placement a bijection of the same size. The two virtual qubits on p0 and p1 exchange device qubits, and every other virtual qubit keeps its device qubit. |
| Hardware.SwapTwice | lib/Optimizer/Transforms/Mapping.cpp:270-282 | Swapping the same pair twice restores the placement, which is what lets chooseSwap score a candidate and undo it. |
| Sabre.NewRouter | lib/Optimizer/Transforms/Mapping.cpp:64-67 | A new router has decay 1.0 and no wire on every device qubit. |
| Sabre.NewRouterOk | lib/Optimizer/Transforms/Mapping.cpp:64-67 | For a valid device and placement, a new router satisfies the router invariant, with measurement mapping still disallowed. |
| Sabre.Users | lib/Optimizer/Transforms/Mapping.cpp:219 | The users of an op's results are ops that come after it in the block. |
| Sabre.VisitCounts | lib/Optimizer/Transforms/Mapping.cpp:123-128 | After visiting users, each op's visit count has grown by the number of times it occurs in the user list. Only the visit counts and the measure layer change. |
| Sabre.VisitReady | lib/Optimizer/Transforms/Mapping.cpp:136-150 | An op joins the layer exactly when its visit count reaches its number of wire operands, and then only if it is not a measurement or measurements are allowed. A ready measurement is deferred to the measure set otherwise. |
| Sabre.VisitAppends | lib/Optimizer/Transforms/Mapping.cpp:136-150 | Visiting only appends to the layer and to the measure layer, and only users of the visited list. Everything appended to the measure layer is a measurement. |
| Sabre.VisitKeepsMeasureLayer | lib/Optimizer/Transforms/Mapping.cpp:145-149 | The measure layer never holds the same op twice and agrees with the measure set. |
| Sabre.MapOperation | lib/Optimizer/Transforms/Mapping.cpp:156-184 | Mapping fails exactly when a non-measurement two-qubit op sits on device qubits that are not connected. On success the log gains the op, its device qubits and the wires it now reads, and nothing else in the router changes except the wire table. |
| Sabre.MapOperationRewires | lib/Optimizer/Transforms/Mapping.cpp:175-181 | After a successful mapping a sink leaves the wire table unchanged. Any other op's device qubits get its result wires in order, and every other device qubit keeps its wire. |
| Sabre.MapFrontLayer | lib/Optimizer/Transforms/Mapping.cpp:186-224 | It reports success exactly when some front op is mappable, and the log gains exactly those ops. Blocked ops stay in the front layer and their device qubits join the involved set. When nothing maps, only the involved set changes. The router invariant is kept. |
| Sabre.VisitedLayerOk | lib/Optimizer/Transforms/Mapping.cpp:232-234 | Visiting the users of every entry of a layer keeps the router invariant. It changes only the visit counts and the measurement layer, and it reaches only ops that come after every op of the layer. |
| Sabre.VisitLayer | lib/Optimizer/Transforms/Mapping.cpp:232-234 | The inner `for` loop yields exactly the reference VisitedLayer: the users of each entry are visited in turn into a fresh layer. Visit counts grow by the recorded users, and only later ops are reached. |
| Sabre.Expand | lib/Optimizer/Transforms/Mapping.cpp:230-241 | The reference look-ahead keeps the router invariant and only appends to the extended layer, which holds only two-qubit non-measurements. When it stops, no layer is left or the extended layer has at least 20 entries. |
| Sabre.LookAhead | lib/Optimizer/Transforms/Mapping.cpp:228-241 | The source's `while` loop computes exactly the reference Expand from the front layer. It returns the router with its measurement layer, the extended layer and the last layer, and every visit it makes is recorded. |
| Sabre.LookAheadStartsWithUsers | lib/Optimizer/Transforms/Mapping.cpp:230-238 | The extended layer begins with the two-qubit non-measurements among the ops that the front layer's users make ready. |
| Sabre.SelectExtendedLayer | lib/Optimizer/Transforms/Mapping.cpp:226-245 | The extended layer, the last layer reached and the measurement layer are exactly those of the reference look-ahead from the front layer. Every visit count is restored, and the look-ahead stops short of 20 ops only when no layer is left. |
| Sabre.ComputeLayerCost | lib/Optimizer/Transforms/Mapping.cpp:247-255 | The loop computes the mean over the layer of distance minus one between each op's two device qubits. This is the reference `LayerCost`. |
| Sabre.TrialScore | lib/Optimizer/Transforms/Mapping.cpp:269-283 | A candidate's score is decay times the front cost, blended with the extended-layer cost. The placement after scoring is the one before. |
| Sabre.PickCheapest | lib/Optimizer/Transforms/Mapping.cpp:286-289 | The chosen index is the first one of minimal cost. |
| Sabre.Candidates | lib/Optimizer/Transforms/Mapping.cpp:259-262 | Every candidate swap starts at an involved device qubit and joins two connected device qubits. |
| Sabre.CandidatesComplete | lib/Optimizer/Transforms/Mapping.cpp:259-262 | Every connected pair that starts at an involved device qubit is a candidate. |
| Sabre.InvolvedOrder | lib/Optimizer/Transforms/Mapping.cpp:102 | The involved-set iteration order is a permutation of the set. It is insertion order up to 32 elements and ascending beyond. |
| Sabre.PickSwap | lib/Optimizer/Transforms/Mapping.cpp:267-289 | The chosen swap is a candidate and is the first of minimal score. |
| Sabre.ChooseSwap | lib/Optimizer/Transforms/Mapping.cpp:257-310 | The extended layer the candidates are scored against is the reference look-ahead's. There is no choice exactly when the candidate list is empty. Otherwise the choice is the first cheapest candidate, starts at an involved qubit and joins connected device qubits. Visit counts are unchanged. |
| Sabre.AddSwap | lib/Optimizer/Transforms/Mapping.cpp:339-348 | Inserting a swap swaps the placement and gives p0 and p1 two fresh wires. The swap reads the wires p0 and p1 held, every other wire is kept, and the log gains exactly that swap. |
| Sabre.Decayed | lib/Optimizer/Transforms/Mapping.cpp:375-386 | The 32-bit search counter goes up by one. Every fifth search resets all decays to 1.0; otherwise only the two swapped qubits gain 0.5. |
| Sabre.ApplySwap | lib/Optimizer/Transforms/Mapping.cpp:375-386 | A swap round's effect is the swapped placement, one more logged swap, an unchanged front layer and a cleared involved set. |
| Sabre.SwapRound | lib/Optimizer/Transforms/Mapping.cpp:374-386 | The round inserts at most one swap, which starts at an involved qubit. The placement is the swaps replayed, and mapped ops are untouched. |
| Sabre.ReleaseMeasurements | lib/Optimizer/Transforms/Mapping.cpp:354-362 | With an empty front layer and measurements not yet allowed, the deferred measurements become the front layer and measurement mapping is switched on. |
| Sabre.AdvanceFront | lib/Optimizer/Transforms/Mapping.cpp:369-386 | One non-empty front round maps what it can or inserts at most one swap. The log only grows, and the placement equals the inserted swaps replayed. |
| Sabre.RouteRound | lib/Optimizer/Transforms/Mapping.cpp:352-387 | A round reports Routed exactly when the front layer is empty and measurements are allowed, and then changes nothing. The router invariant holds. |
| Sabre.LoopRound | lib/Optimizer/Transforms/Mapping.cpp:352-387 | The loop invariant (the log extends the start, and the placement is the start's placement with the swaps so far replayed) survives one round. |
| Sabre.RouteLoop | lib/Optimizer/Transforms/Mapping.cpp:350-387 | On Routed, the front and measure layers are empty and measurements are allowed. The invariant holds on every outcome. |
| Sabre.SeedOne | lib/Optimizer/Transforms/Mapping.cpp:330-335 | Seeding one source appends its users to the front layer and sets the wire of the source's device qubit to the source wire. |
| Sabre.SeededStep | lib/Optimizer/Transforms/Mapping.cpp:330-335 | The seeding invariant extends by one source. |
| Sabre.SeedSources | lib/Optimizer/Transforms/Mapping.cpp:330-335 | After seeding, each source's device qubit holds that source's wire, and the front layer only grew. |
| Sabre.Route | lib/Optimizer/Transforms/Mapping.cpp:312-389 | Every logged op respects the device (two-qubit ops on connected qubits). The inserted swaps join connected device qubits, the final placement is the initial one with those swaps replayed, and on Routed the front and measure layers are empty and measurements are allowed. |
| Mapper.LTrim | lib/Optimizer/Transforms/Mapping.cpp:435 | It drops exactly the leading whitespace. |
| Mapper.LTrimIdempotent | lib/Optimizer/Transforms/Mapping.cpp:455-460 | Trimming twice is trimming once. |
| Mapper.DeviceName | lib/Optimizer/Transforms/Mapping.cpp:424 | The name is the longest prefix without '('. When it is shorter than the option, a '(' follows. |
| Mapper.ConsumeInteger | lib/Optimizer/Transforms/Mapping.cpp:456-459 | It consumes a maximal non-empty digit run whose value fits in 64 bits, and fails exactly otherwise. |
| Mapper.ConsumePrinted | lib/Optimizer/Transforms/Mapping.cpp:456-459 | Reading back a printed number yields the number and the rest of the text. |
| Mapper.ParseOption | lib/Optimizer/Transforms/Mapping.cpp:422-466 | The name is the prefix before '('. A file option has no dimensions, and other options have no file name. At most one diagnostic is produced. |
| Mapper.ParseTwoDims | lib/Optimizer/Transforms/Mapping.cpp:454-465 | `name(w,h)` parses to dimensions w and h with no error. |
| Mapper.ParseOneDim | lib/Optimizer/Transforms/Mapping.cpp:454-465 | `name(n)` parses to dimensions n and 0 with no error. |
| Mapper.ParseUnclosed | lib/Optimizer/Transforms/Mapping.cpp:461-463 | `name(n` reports the missing ')'. |
| Mapper.ParseFileOption | lib/Optimizer/Transforms/Mapping.cpp:433-442 | `file(path)` names the file and reports it missing exactly when it does not exist. |
| Mapper.FileWithoutPath | lib/Optimizer/Transforms/Mapping.cpp:447-451 | `file` without a parenthesis reports that a file name is required. |
| Mapper.NullWires | lib/Optimizer/Transforms/Mapping.cpp:484-487 | The sources are the null-wire ops, in block order. |
| Mapper.NullWiresComplete | lib/Optimizer/Transforms/Mapping.cpp:484-487 | Every null-wire op is a source. |
| Mapper.Thread | lib/Optimizer/Transforms/Mapping.cpp:518-524 | Each result wire inherits its operand's virtual qubit, and existing entries are kept. |
| Mapper.ScanOp | lib/Optimizer/Transforms/Mapping.cpp:472-525 | One op is accepted exactly when none of the rejection rules fires (unnamed measurement, not value form, more than two operands) and its operands are tracked. A rejection names the op. The scan invariant (sources are the null wires so far, and every wire maps to its source) advances. |
| Mapper.Scan | lib/Optimizer/Transforms/Mapping.cpp:468-526 | A successful scan satisfies the invariant over the whole block and no op is rejected. A failure names the first rejected op. |
| Mapper.ScanRefuses | lib/Optimizer/Transforms/Mapping.cpp:472-515 | A block with a rejected op fails the scan at or before that op. |
| Mapper.Capacity | lib/Optimizer/Transforms/Mapping.cpp:528-529 | A grid's capacity is width times height modulo 2^64; any other device's is the first dimension. |
| Mapper.ISqrt | lib/Optimizer/Transforms/Mapping.cpp:538 | The result is the floor of the square root. |
| Mapper.DeviceDims | lib/Optimizer/Transforms/Mapping.cpp:536-540 | Without a stated size, a grid gets the floor square root of the number of sources in both dimensions, and any other device gets the number of sources. Otherwise the stated dimensions are kept. |
| Mapper.SelectTopology | lib/Optimizer/Transforms/Mapping.cpp:544-556 | No topology is chosen exactly when the name is none of path, ring, star, grid and file (case-sensitive). |
| Mapper.UpperCaseFile | lib/Optimizer/Transforms/Mapping.cpp:544-556 | `FILE` parses as a file option (the name test at line 433 ignores case) but selects no topology, since the topology test is case-sensitive. |
| Mapper.GridOfTwo | lib/Optimizer/Transforms/Mapping.cpp:536-540 | An unsized grid for two sources is 1 by 1. |
| Mapper.Ancillas | lib/Optimizer/Transforms/Mapping.cpp:580-586 | It makes count null-wire ops with consecutive fresh wires. |
| Mapper.AncillaWires | lib/Optimizer/Transforms/Mapping.cpp:583-584 | Each ancilla wire is mapped to the next virtual qubit. |
| Mapper.Prune | lib/Optimizer/Transforms/Mapping.cpp:597-605 | The kept count lies between the number of program qubits and the number of sources. Every dropped ancilla is unused, and the last kept ancilla is used. |
| Mapper.PruneUnique | lib/Optimizer/Transforms/Mapping.cpp:597-605 | Those three conditions determine the kept count. |
| Mapper.PruneLoopAgrees | lib/Optimizer/Transforms/Mapping.cpp:600-605 | The source's downward loop computes Prune whenever there is at least one program qubit. |
| Mapper.PruneAsWrittenAgrees | lib/Optimizer/Transforms/Mapping.cpp:600-605 | The loop as written agrees with Prune when there is at least one program qubit. |
| Mapper.MappingV2p | lib/Optimizer/Transforms/Mapping.cpp:614-620 | It lists, for each program qubit, the device qubit that holds it; the entries are distinct. |
| Mapper.V2pWithoutSwaps | lib/Optimizer/Transforms/Mapping.cpp:614-620 | Starting from the identity placement (lines 588-590) with no swaps inserted, every program qubit stays on the device qubit of the same index. |
| Mapper.TargetDevice | lib/Optimizer/Transforms/Mapping.cpp:544-556 | An unknown device name gives the empty device. |
| Mapper.Preflight | lib/Optimizer/Transforms/Mapping.cpp:468-573 | A scan failure is reported as such. Too many sources for a stated capacity, an empty target and a device with fewer qubits than sources are each reported exactly when they hold. Success yields the scan and a non-empty device with room for every source. |
| Mapper.MapBlock | lib/Optimizer/Transforms/Mapping.cpp:575-620 | The padded block extends the original by one ancilla per spare device qubit. The log respects the device, and the placement is identity with the swaps replayed. mapping_v2p is the final device qubit of each program qubit, all distinct. The pruning keeps every used ancilla and drops the trailing unused ones. |
| Mapper.EarlyErrors | lib/Optimizer/Transforms/Mapping.cpp:417-420 | A multi-block kernel reports that first; the device-option errors follow. |
| Mapper.RunOnFunction | lib/Optimizer/Transforms/Mapping.cpp:398-621 | The pass succeeds exactly when there is one block, the option parses cleanly and preflight passes. Failures carry the accumulated diagnostics, and success carries a mapping with every MapBlock property. |
| Mapper.AnchorAsWritten | lib/Optimizer/Transforms/Mapping.cpp:579 | The insertion anchor `sources[sources.size() - 1]` exists exactly when there is at least one source. |
| Mapper.PruneLoopOverruns | lib/Optimizer/Transforms/Mapping.cpp:600-605 | With no program qubits and no used ancilla, the unsigned loop runs past index 0. |
| Mapper.ZeroQubitReadsOverrun | lib/Optimizer/Transforms/Mapping.cpp:577-605 | With no program qubits, both the anchor and the prune loop read out of range, while Prune keeps nothing. |
| Mapper.EmptyKernelPasses | lib/Optimizer/Transforms/Mapping.cpp:528-573 | A kernel without qubits and a device of stated size n passes every check before ancilla insertion. |
| Mapper.EmptyKernelOverruns | lib/Optimizer/Transforms/Mapping.cpp:422-605 | For the option `name(n)`, the option parses, preflight passes on the empty kernel, and both out-of-range reads follow. |
| Pauli.Decode | runtime/cudaq/spin/spin_op.cpp:100-119 | Qubit i of a row of 2n bits is decoded from its x-bit i and its z-bit n+i. |
| Pauli.SinglePauliDecodes | runtime/cudaq/spin/spin_op.cpp:174-188 | The single-Pauli row decodes to identities followed by that Pauli. |
| Pauli.PhaseLookup | runtime/cudaq/spin/spin_op.cpp:278-280 | Keys 0..3 give 1, -i, -1, i. Any other key default-constructs a zero coefficient. |
| Pauli.XorRow | runtime/cudaq/spin/spin_op.cpp:249-250 | The product row is the bitwise xor of the rows. |
| Pauli.MultAsWritten | runtime/cudaq/spin/spin_op.cpp:242-286 | The row is the xor. When the phase index is non-negative the coefficient is c1 times the phase times c2. |
| Pauli.Mult | runtime/cudaq/spin/spin_op.cpp:242-286 | The row is the xor, and it agrees with the as-written product whenever the phase index is non-negative. |
| Pauli.MultAsWrittenZeroesZX | runtime/cudaq/spin/spin_op.cpp:276-280 | Z times X is i·Y, but the as-written product gives coefficient 0; the corrected product gives i. |
| Pauli.MultIsPauliProduct | runtime/cudaq/spin/spin_op.cpp:242-286 | Per qubit, the product row is the single-qubit Pauli product. The coefficient is c1 times c2 rotated by the product of all per-qubit phases. |
| SpinOp.Emplace | runtime/cudaq/spin/spin_op.cpp:509 | `emplace` adds the entry only when the row is absent, and keeps the table sorted. |
| SpinOp.AddTerm | runtime/cudaq/spin/spin_op.cpp:203-214 | Adding a term adds its coefficient to an existing row or inserts the row; other rows are unchanged. |
| SpinOp.IdentityOp | runtime/cudaq/spin/spin_op.cpp:162-165 | It is one term of n identities with coefficient 1. |
| SpinOp.SingleOp | runtime/cudaq/spin/spin_op.cpp:174-188 | It is one term on idx+1 qubits, identity except Pauli p at idx, with the given coefficient. |
| SpinOp.FromBinarySymplectic | runtime/cudaq/spin/spin_op.cpp:167-172 | Each row maps to the coefficient of its first occurrence. |
| SpinOp.PadRowDecodes | runtime/cudaq/spin/spin_op.cpp:136-155 | A padded row decodes to the old Paulis followed by identities. |
| SpinOp.ExpandRow | runtime/cudaq/spin/spin_op.cpp:140-149 | The source's insertion loop, which puts one zero in the middle and one at the end of a row per round, yields exactly PadRow: the old x-bits, zero x-bits for the new qubits, the old z-bits, then zero z-bits. |
| SpinOp.ExpandToNQubits | runtime/cudaq/spin/spin_op.cpp:136-155 | Every term is padded to m qubits with its coefficient kept. |
| SpinOp.ExpandToSameSize | runtime/cudaq/spin/spin_op.cpp:136-155 | Expanding to the current size changes nothing. |
| SpinOp.ExpandLookup | runtime/cudaq/spin/spin_op.cpp:136-155 | A padded row has the coefficient the original row had. |
| SpinOp.AddAll | runtime/cudaq/spin/spin_op.cpp:203-214 | Every row's coefficient is the sum of its coefficients in both tables, where present. |
| SpinOp.AddAssign | runtime/cudaq/spin/spin_op.cpp:192-216 | Both operands are expanded to the larger qubit count, and each row's coefficient is then the combination of its coefficients in the two. |
| SpinOp.AddAssignOnOriginalKeys | runtime/cudaq/spin/spin_op.cpp:192-216 | On equal sizes, `+=` adds coefficients row by row. |
| SpinOp.IsIdentity | runtime/cudaq/spin/spin_op.cpp:362-369 | It is true exactly when every term is all identities. |
| SpinOp.NoBitsIffIdentities | runtime/cudaq/spin/spin_op.cpp:362-369 | A row has no set bit exactly when it decodes to identities. |
| SpinOp.ToStringLength | runtime/cudaq/spin/spin_op.cpp:448-476 | Printing without coefficients gives n characters per term. |
| SpinOp.ToStringReadsBack | runtime/cudaq/spin/spin_op.cpp:448-476 | Character t·n+i of the printout reads back as Pauli i of term t. |
| SpinOp.GetCoefficient | runtime/cudaq/spin/spin_op.cpp:87-92 | It succeeds exactly on a single-term operator and returns that term's coefficient. |
| SpinOp.ForEachPauli | runtime/cudaq/spin/spin_op.cpp:100-119 | It succeeds exactly on a single term and yields one Pauli per qubit, consistent with the x and z bits. |
| SpinOp.ActionOnBra | runtime/cudaq/spin/spin_op.cpp:34-52 | It succeeds exactly on a single term and keeps the configuration's length. |
| SpinOp.BraStepIsMatrixRow | runtime/cudaq/spin/spin_op.cpp:39-49 | Each step moves to the only non-zero column of the Pauli's matrix row and multiplies by that entry. |
| SpinOp.BraActionClosedForm | runtime/cudaq/spin/spin_op.cpp:34-52 | The action flips exactly the X/Y positions and rotates the coefficient by the summed per-qubit phase. |
| SpinOp.BraActionInvolution | runtime/cudaq/spin/spin_op.cpp:34-52 | Applying the action twice returns the configuration and coefficient. |
| SpinOp.CodeRoundTrip | runtime/cudaq/spin/spin_op.cpp:493-505 | The numeric code the encoder writes for a Pauli (lines 555-562) decodes back to that Pauli. |
| SpinOp.GetDataRepresentationAsWritten | runtime/cudaq/spin/spin_op.cpp:550-570 | With nq = number of terms / 2, it overruns exactly when a row is shorter than 2·nq. Otherwise the vector has terms·(nq+2)+1 entries. |
| SpinOp.DataAsWrittenOverruns | runtime/cudaq/spin/spin_op.cpp:553-555 | On n-qubit rows the as-written encoder overruns exactly when there are at least 2n+2 terms. |
| SpinOp.GetDataRepresentation | runtime/cudaq/spin/spin_op.cpp:550-570 | The corrected encoder writes n+2 entries per term plus the term count at the end. |
| SpinOp.FromDataAsWritten | runtime/cudaq/spin/spin_op.cpp:483-511 | The length check compares nQubits with (size − 2·terms) / terms. |
| SpinOp.FromData | runtime/cudaq/spin/spin_op.cpp:483-511 | The corrected length check compares nQubits with (size − 1 − 2·terms) / terms. |
| SpinOp.DataRoundTrip | runtime/cudaq/spin/spin_op.cpp:483-511 | Decoding the corrected encoding (lines 550-570) gives back the operator. |
| SpinOp.DataRoundTripAsWrittenMultiTerm | runtime/cudaq/spin/spin_op.cpp:483-511 | The as-written decoder still round-trips operators with two or more terms. |
| SpinOp.SingleTermDataRejected | runtime/cudaq/spin/spin_op.cpp:485-487 | The encoding of X(0) is rejected by the as-written length check and accepted by the corrected one. |
| SpinOp.DataRepresentationAsWrittenLosesCodes | runtime/cudaq/spin/spin_op.cpp:553 | The as-written encoder drops the Pauli codes of X(0), and decoding that vector gives a different operator. |
| MpsDecompose.ApplyGate | runtime/nvqir/cutensornet/simulator_mps_register.cpp:37-48 | A gate is accepted exactly when it touches at most two qubits; otherwise it fails with the too-many-qubits error. |
| MpsDecompose.AddAuxQubits | runtime/nvqir/cutensornet/simulator_mps_register.cpp:171-181 | It fails exactly on a dirty state. Otherwise it returns the next n qubit indices and grows the state by n. |
| MpsDecompose.GrowAux | runtime/nvqir/cutensornet/simulator_mps_register.cpp:242-247 | The pool grows only when it has fewer than controls−1 qubits, and then exactly to that size with fresh indices appended. It fails exactly when growing is needed on a dirty state. |
| MpsDecompose.Decompose | runtime/nvqir/cutensornet/simulator_mps_register.cpp:183-256 | At most one control queues the gate unchanged. Otherwise it fails exactly when the pool must grow on a dirty state. On success the pool only grows and the queue gains the collect / singly-controlled gate / uncollect sequence. |
| MpsDecompose.CollectControls | runtime/nvqir/cutensornet/simulator_mps_register.cpp:219-240 | The loop builds controls−1 Toffolis, the ladder, reversed when asked. |
| MpsDecompose.LadderTargets | runtime/nvqir/cutensornet/simulator_mps_register.cpp:222-233 | Toffoli k writes auxiliary qubit k, so the last one writes aux[controls−2]. |
| MpsDecompose.CcnotGates | runtime/nvqir/cutensornet/simulator_mps_register.cpp:194-210 | A Toffoli expands to 15 gates. |
| MpsDecompose.CcnotIsConjugatedCcz | runtime/nvqir/cutensornet/simulator_mps_register.cpp:194-210 | The 15 gates are the CCZ phase circuit conjugated by H on the target. |
| MpsDecompose.CczIsDoublyControlledZ | runtime/nvqir/cutensornet/simulator_mps_register.cpp:196-209 | The CCZ core leaves basis states fixed and adds phase π exactly when all three qubits are 1. |
| MpsDecompose.UncomputeRestores | runtime/nvqir/cutensornet/simulator_mps_register.cpp:255 | Running a ladder with distinct targets and then its reverse restores every basis state. |
| MpsDecompose.CollectIsConjunction | runtime/nvqir/cutensornet/simulator_mps_register.cpp:219-240 | With clean auxiliaries, the ladder leaves the AND of all controls in aux[controls−2] and touches only the auxiliaries. |
| MpsDecompose.MultiControlledXFlipsTarget | runtime/nvqir/cutensornet/simulator_mps_register.cpp:249-255 | Collect, controlled X from the last auxiliary, then uncollect flips the target exactly when all controls are 1 and changes nothing else. |
| MpsDecompose.DecomposedGatesAccepted | runtime/nvqir/cutensornet/simulator_mps_register.cpp:183-256 | Every gate a decomposition queues touches at most two qubits, so the two-qubit check of applyGate (lines 37-48) accepts it. |
| MpsDecompose.ControlledSwap | runtime/nvqir/cutensornet/simulator_mps_register.cpp:305-328 | With no controls it queues a plain swap. Otherwise it fails exactly when the pool must grow on a dirty state. |
| MpsDecompose.ControlledSwapQueue | runtime/nvqir/cutensornet/simulator_mps_register.cpp:313-327 | The queue gains three multi-controlled X gates, alternating which of the two qubits is the target. |
| MpsDecompose.ControlledSwapSwaps | runtime/nvqir/cutensornet/simulator_mps_register.cpp:313-327 | The three collected X gates swap the two qubits exactly when all controls are 1 and leave the state otherwise. |
| MpsDecompose.ThreeXorsSwap | runtime/nvqir/cutensornet/simulator_mps_register.cpp:313-327 | Three controlled XORs swap two bits. |
| MpsDecompose.SupportEmptyIff | runtime/nvqir/cutensornet/simulator_mps_register.cpp:350-352 | The support is empty exactly when every Pauli is I. |
| MpsDecompose.ExpPauli | runtime/nvqir/cutensornet/simulator_mps_register.cpp:332-386 | An identity operator is a no-op without controls and an error with controls. Otherwise the operator must have a single term (for_each_pauli's requirement). The decomposition fails only on a dirty state, and success queues basis change, CNOT ladder, controlled Rz(−2θ), reversed ladder and undone basis change. |
| MpsDecompose.ExpPauliMirror | runtime/nvqir/cutensornet/simulator_mps_register.cpp:363-385 | The gates after the controlled Rz are the adjoint of the gates before it, in reverse order. |
| MpsDecompose.CnotLadderParity | runtime/nvqir/cutensornet/simulator_mps_register.cpp:367-371 | The CNOT ladder leaves the parity of the support in its last qubit. |
| MpsDecompose.CnotLadderUncomputes | runtime/nvqir/cutensornet/simulator_mps_register.cpp:377-379 | The reversed ladder undoes the ladder on every basis state. |
| OpenQasm.TranslateOperatorNameAsWritten | lib/Target/OpenQASM/TranslateToOpenQASM.cpp:25-47 | Without controls a name is kept, except that r1 becomes cu1. One control maps h, x, y, z, r1, rx, ry, rz to their controlled names; two controls map only x, to ccx; more controls fail. |
| OpenQasm.UncontrolledR1IsMistranslated | lib/Target/OpenQASM/TranslateToOpenQASM.cpp:29 | An uncontrolled r1 becomes cu1, a two-qubit gate in qelib1.inc. |
| OpenQasm.TranslateOperatorName | lib/Target/OpenQASM/TranslateToOpenQASM.cpp:25-47 | The corrected table differs from the source only on uncontrolled r1, which becomes u1. |
| OpenQasm.TranslatedArityMatches | lib/Target/OpenQASM/TranslateToOpenQASM.cpp:25-47 | With the corrected table, every translated standard gate takes controls+1 qubits in qelib1.inc. |
| OpenQasm.JoinCommaAppend | lib/Target/OpenQASM/TranslateToOpenQASM.cpp:231-241 | Comma-joining distributes over concatenation. |
| OpenQasm.PrintParameters | lib/Target/OpenQASM/TranslateToOpenQASM.cpp:49-65 | It succeeds exactly when every parameter is a known constant. It prints nothing for no parameters and the parenthesised, comma-separated values otherwise. |
| OpenQasm.EmitOperator | lib/Target/OpenQASM/TranslateToOpenQASM.cpp:217-244 | Adjoints are rejected, then untranslatable names, then unknown parameters. It succeeds exactly otherwise, using the as-written name table. |
| OpenQasm.EmitOperatorIsGateStatement | lib/Target/OpenQASM/TranslateToOpenQASM.cpp:217-244 | The emitted text is the gate statement `name(params) controls, targets;`. |
| OpenQasm.EmitOperatorIntended | lib/Target/OpenQASM/TranslateToOpenQASM.cpp:217-244 | It has the same rejection rules with the corrected table, and agrees with EmitOperator except on uncontrolled r1. |
| OpenQasm.EmitOperatorIntendedIsWellFormed | lib/Target/OpenQASM/TranslateToOpenQASM.cpp:217-244 | With the corrected table, every emitted single-target standard gate is applied to exactly as many qubits as qelib1.inc declares. |
| OpenQasm.UncontrolledR1EmitsCu1 | lib/Target/OpenQASM/TranslateToOpenQASM.cpp:217-244 | With the name from line 29, `r1(a) q` is emitted as `cu1(a) q;` with one argument, whereas the corrected emitter prints `u1(a) q;`. |
| OpenQasm.PrintClassicalAllocation | lib/Target/OpenQASM/TranslateToOpenQASM.cpp:67-74 | It declares `creg name[size];` and returns `name[0]` exactly when the size is 1. |
| OpenQasm.ToInt32 | lib/Target/OpenQASM/TranslateToOpenQASM.cpp:116-120 | Storing a size in an `int` keeps it below 2^31 and wraps it modulo 2^32 otherwise. |
| OpenQasm.EmitAlloca | lib/Target/OpenQASM/TranslateToOpenQASM.cpp:113-127 | It fails exactly on an unbounded veq. A veq declares `qreg name[size]` with the size truncated to `int`, and a ref declares `qreg name[1]` and is named `name[0]`. |
| OpenQasm.AllocaSizeTruncated | lib/Target/OpenQASM/TranslateToOpenQASM.cpp:116-122 | A veq of 2^32+k qubits is declared with k qubits. |
| OpenQasm.EmitMeasure | lib/Target/OpenQASM/TranslateToOpenQASM.cpp:246-261 | It rejects several targets and an unbounded veq, and succeeds exactly otherwise. On success it allocates a classical register of the target's size and measures the target into it. |
| OpenQasm.MeasureMatchesAlloca | lib/Target/OpenQASM/TranslateToOpenQASM.cpp:246-261 | Measuring an n-qubit veq allocates an n-bit register, matching the qreg its alloca (lines 113-127) declared. |
| OpenQasm.MeasureOneElementLikeOneQubit | lib/Target/OpenQASM/TranslateToOpenQASM.cpp:251-257 | Measuring a one-element veq prints the same as measuring a single qubit: both name the bit `name[0]` (lines 71-72). |
| OpenQasm.NoEntryPointRejected | lib/Target/OpenQASM/TranslateToOpenQASM.cpp:107-108 | A module without an entry-point function is rejected. |
| OpenQasm.TwoEntryPointsRejected | lib/Target/OpenQASM/TranslateToOpenQASM.cpp:97-99 | A second entry-point attribute after an entry-point function is rejected. |
| OpenQasm.SingleEntryModuleEmitted | lib/Target/OpenQASM/TranslateToOpenQASM.cpp:91-111 | A module with one entry point emits the header, the other items in order, and then the entry point's body. |
| LoopAnalysis.TripCountIsIterations | lib/Optimizer/Transforms/LoopAnalysis.h:38-51 | For every positive step, the documented formula max((stop−1−start+step)/step, 0) with C++ division equals the number of iterations the loop runs. |
| LoopAnalysis.CanonicalCountedLoop | lib/Optimizer/Transforms/LoopAnalysis.h:53-60 | `for (i = 0; i < n; ++i)` is a counted (hence monotonic) loop and runs max(n, 0) iterations. |
| LoopAnalysis.CountedLoopIterations | lib/Optimizer/Transforms/LoopAnalysis.h:52-60 | A counted loop (start 0, step +1, `<` or, if allowed, `<=` a constant bound) runs exactly as many iterations as its exclusive stop, and the documented trip-count formula gives the same number. |
| LoopUnroll.UnrollByValue | lib/Optimizer/Transforms/LoopUnroll.cpp:29-37 | It yields a value exactly when the bound is an integer constant, read as `std::size_t`. |
| LoopUnroll.UnrollCount | lib/Optimizer/Transforms/LoopUnroll.cpp:68-95 | It rejects loops that are not counted or exceed the threshold. On success it is the constant bound (below the threshold) plus one for a closed interval. |
| LoopUnroll.CloneBodies | lib/Optimizer/Transforms/LoopUnroll.cpp:104-131 | Copy i receives i as the induction value. Its other arguments are the previous copy's results (the loop operands for the first copy). The loop's results are the count and the last copy's values. |
| LoopUnroll.RewriteOnlyIllegalLoops | lib/Optimizer/Transforms/LoopUnroll.cpp:163-166 | A loop the pattern (lines 74-77) can unroll is never legal, so the conversion driver hands it to the pattern. |
| LoopUnroll.IllegalLoopsAreRewritten | lib/Optimizer/Transforms/LoopUnroll.cpp:74-95 | Without signalFailure, every loop the legality test (lines 163-166) rejects of integral induction type is unrolled. |
| LoopUnroll.UnrollCountIsTripCount | lib/Optimizer/Transforms/LoopUnroll.cpp:68-92 | A loop the pattern unrolls starts at 0 and steps by 1, and its unroll count for a constant bound n is the number of iterations it runs: n for `i < n`, n+1 for `i <= n`, also given by the trip-count formula. |
| QVector.WithSize | runtime/cudaq/qis/qvector.h:31 | `qvector(size)` holds exactly `size` qudits, the ids given. |
| QVector.Nullary | runtime/cudaq/qis/qvector.h:66 | The nullary constructor holds exactly one qudit, the id it is given. |
| QVector.Front | runtime/cudaq/qis/qvector.h:88-94 | `front(count)` views the first count qudits. |
| QVector.Back | runtime/cudaq/qis/qvector.h:100-106 | `back(count)` views the last count qudits. |
| QVector.Slice | runtime/cudaq/qis/qvector.h:112-118 | `slice(start, size)` views qudits start..start+size. |
| QVector.ViewsAgree | runtime/cudaq/qis/qvector.h:88-118 | front and back are slices, and front(k) with back(size−k) is the whole vector. |
| QVector.SliceOfSlice | runtime/cudaq/qis/qvector.h:112-118 | A slice of a slice is a slice of the vector. |
| QVector.Clear | runtime/cudaq/qis/qvector.h:124 | After clear the size is 0. |
| QVector.FloorLog2 | runtime/cudaq/qis/qvector.h:33 | The result k satisfies 2^k <= n < 2^(k+1). |
| QVector.FromStateVector | runtime/cudaq/qis/qvector.h:32-53 | An empty vector is rejected. A qubit vector whose length is not a power of two is rejected, and then a bad norm. Success holds floor(log2 len) qudits, and for qubits 2^size is exactly the length. |
| QVector.PowerOfTwoAccepted | runtime/cudaq/qis/qvector.h:32-53 | A normalised qubit vector of length 2^k gives k qudits. |
| QVector.FromRealsAsWritten | runtime/cudaq/qis/qvector.h:55-57 | It fails exactly when the complex constructor would, but the object built holds no qudits. |
| QVector.FromReals | runtime/cudaq/qis/qvector.h:55-57 | The delegating constructor fails on the same inputs and otherwise holds floor(log2 len) qudits. |
| QVector.FromRealsAsWrittenLosesQubits | runtime/cudaq/qis/qvector.h:55-57 | For the real vector of length 4, the as-written constructor holds no qudits where the intended one holds two. |

## Left out

- Sabre.Users: lists users in block order. MLIR's use list puts the newest use first, and that order decides the front-layer order, the emitted op order and swap ties. The use-list order is a property of how the IR was built and is not visible in a block.
- Sabre.MapOperation: a failure of `quake::setQuantumOperands` (Mapping.cpp:172-173) is not modelled, because its implementation is not part of this model. The model always rewires the op.
- Sabre.RouteLoop: the outcome Stalled (chooseSwap with no candidates, which reads `candidates[0]` out of range in the source) and the outcome OutOfFuel (the source's `while (!done)` is unbounded; the model bounds it by a fuel argument) do not exist in the source.
- Sabre.ChooseSwap: the Stalled outcome. An empty candidate list is out-of-range indexing in the source.
- Sabre.ComputeLayerCost: costs are exact reals. The source uses `double` costs with `float` decay and weights, so two candidates within rounding of each other may be ordered differently.
- Sabre.TrialScore: the score is exact real arithmetic, not floating point (same reason).
- Sabre.Decayed: decay is an exact real, not a `float`.
- Mapper.ScanOp: an operand wire that no earlier op defined yields an UntrackedWire error, also for a `quake.sink`. The source skips sinks (Mapping.cpp:504-505), and for other ops `wireToVirtualQ[wire]` (Mapping.cpp:523) default-inserts a virtual qubit and carries on without a diagnostic. The model reports it rather than continuing with an arbitrary qubit.
- Mapper.MapBlock: the ancillas are appended at the end of the block, not inserted after the last source. Only wire numbering and op order in the arena depend on that position.
- Mapper.MapBlock: `sortTopologically`, erasing the pruned ops and rewriting the IR are not modelled. The result is the event log, the swaps, the kept count and mapping_v2p.
- Mapper.Preflight: CapacityExceeded is a failure the source signals without a message (Mapping.cpp:531-534). It is modelled as a diagnostic.
- Mapper.RunOnFunction: the `DEBUG_MAPPING` environment variable, LLVM_DEBUG logging and diagnostic wording are left out. File existence (`llvm::sys::fs::exists`) and device construction (`Device::path`, `ring`, `star`, `grid`, `file`) are parameters. The device header and the device-file reader are not part of this model.
- Hardware.SwapPlacement: the Placement class is not part of this model. Its `swap` is modelled by its use in the router.
- SpinOp.ToString: prints the terms in one fixed order (ascending rows). The source iterates an `std::unordered_map`, whose order is unspecified. The per-term content is what ToStringReadsBack states.
- SpinOp.GetDataRepresentation: writes the terms in the same fixed order. The source's order is the unordered map's.
- SpinOp.ExpandToNQubits: keeps the terms in the same fixed order. The source rebuilds an unordered map, whose order is unspecified.
- SpinOp: the `*=` product of operators (OpenMP parallel loop and timing), `-=`, scalar products, `to_matrix`, `random`, `slice`, `operator[]`, `get_bsf`, `dump` and the binary file reader are left out. Only the row product `mult` they rely on is modelled.
- SpinOp.ToStringLength: coefficients are not printed (the `printCoeffs = false` form), because printing a `double` is not modelled.
- SpinOp.FromData: `std::modf` and the `(int)` conversions are modelled on exact reals. Entries that are not integral are an error; NaN and infinities are not modelled. The errors DivisionByZero (`n_terms == 0` in the length check, spin_op.cpp:485) and ReadPastEnd (the unchecked `input_vec[...]` reads, spin_op.cpp:493 and 507-508) stand for undefined behaviour in the source, so reporting them is the model's choice. The same holds for SpinOp.FromDataAsWritten.
- MpsDecompose: the tensor network, cuTensorNet calls, MPS factorisation, state import and bond settings are left out. Gates are queue records, and their effect is stated on basis states.
- MpsDecompose.ExpPauli: the angle −2θ and the ±π/2 of the basis change are exact reals.
- QVector.FromStateVector: the norm test (|1 − ⟨v,v⟩| ≤ 1e-12 in double precision) is an input flag, normOk. An empty vector gives Err(EmptyVector): the source converts `std::log2(0)`, which is −∞, to `size_t` (qvector.h:33), which is undefined behaviour, so this error is the model's choice. The execution manager's `initializeState` and qudit allocation are not part of this model, and qudit ids are inputs.
- Mapper.DeviceDims: an unsized grid uses the exact integer square root (Mapper.ISqrt) for `std::sqrt(sources.size())` truncated to `size_t` (Mapping.cpp:537-538). The double square root agrees below 2^52 sources; above that, for k > 2^26, the double square root of k²−1 can round up to k.
- QVector.FloorLog2: exact integer floor(log2 n). The source's `std::log2` of a `size_t` is a double; it is exact for the powers of two that pass the check.
- OpenQasm.EmitMeasure: requires at least one target. The source reads `getTargets()[0]` unguarded, and Quake's measurement ops always carry a target.
- OpenQasm.PrintParameters: how a `double` parameter is printed is an input string.
- OpenQasm: `quake.apply`, `func.func`, `extract_ref` and `reset` emission, the name generator and scope handling are left out.
- LoopAnalysis: `isaMonotonicLoop` and `isaCountedLoop` are the predicates IsMonotonic and IsCountedLoop over the loop shape the header documents: comparison, step operation, invariance, early exit, and the constant initial and step values. IsCountedLoop accepts exactly `for (i = 0; i < n; ++i)`, and `i <= n` when the closed interval is allowed. Any further forms the analysis' implementation file accepts are not modelled, because that file is not part of this model. `getLoopComponents` is an input.
- LoopUnroll.CloneBodies: region cloning, block splitting and branch creation are represented by the values each copy receives.

## Findings

| source | as written | input that shows it | evidently intended | confidence | as-written member | corrected member |
|---|---|---|---|---|---|---|
| runtime/cudaq/spin/spin_op.cpp:276-280 | `_phase %= 4` truncates toward zero. A negative phase index misses the phase map, and `operator[]` inserts a zero coefficient. | Z(0) · X(0), rows [0,1]·[1,0]: phase index −1, so the product coefficient is 0 | the product is i·Y (phase index taken modulo 4, non-negative) | high (not executed) | Pauli.MultAsWritten, Pauli.MultAsWrittenZeroesZX | Pauli.Mult, Pauli.MultIsPauliProduct |
| runtime/cudaq/spin/spin_op.cpp:553 | `nq = terms.size() / 2` uses the number of terms as the qubit count | X(0) encodes as [1.0, 0.0, 1.0], with no Pauli code; four or more one-qubit terms read past the row | nq is the operator's qubit count, giving [1, 1, 0, 1] | high (not executed) | SpinOp.GetDataRepresentationAsWritten, SpinOp.DataRepresentationAsWrittenLosesCodes, SpinOp.DataAsWrittenOverruns | SpinOp.GetDataRepresentation, SpinOp.DataRoundTrip |
| runtime/cudaq/spin/spin_op.cpp:485 | the length check is `(size − 2·n_terms) / n_terms`, forgetting the trailing term count | the encoding [1, 1, 0, 1] of X(0) with nQubits 1: (4 − 2)/1 = 2 ≠ 1, so it is rejected | `(size − 1 − 2·n_terms) / n_terms`, so every single-term encoding decodes | high (not executed) | SpinOp.FromDataAsWritten, SpinOp.SingleTermDataRejected | SpinOp.FromData, SpinOp.DataRoundTrip |
| runtime/cudaq/qis/qvector.h:55-57 | the body builds and discards a temporary `qvector(...)`; the object itself keeps zero qudits | `qvector(std::vector<double>{1, 0, 0, 0})` has size 0 | delegate like the initializer-list constructors (lines 58-61), giving two qudits | high (not executed) | QVector.FromRealsAsWritten, QVector.FromRealsAsWrittenLosesQubits | QVector.FromReals |
| lib/Target/OpenQASM/TranslateToOpenQASM.cpp:29 | an uncontrolled `r1` is renamed `cu1` | `r1(0.5) q[0]` is emitted as `cu1(0.5) q[0];`, applying a two-qubit qelib1.inc gate to one qubit | `u1` | high (not executed) | OpenQasm.TranslateOperatorNameAsWritten, OpenQasm.EmitOperator, OpenQasm.UncontrolledR1EmitsCu1 | OpenQasm.TranslateOperatorName, OpenQasm.EmitOperatorIntended, OpenQasm.TranslatedArityMatches |
| lib/Optimizer/Transforms/Mapping.cpp:577-605 | with no program qubits, `sources[sources.size() - 1]` reads index 2^64−1. The prune loop `for (unsigned i = …; i >= numOrigQubits; i--)` with numOrigQubits = 0 never stops, and reads past index 0 once every ancilla is unused. | a kernel with no qubit allocation mapped with device `path(2)` | anchor the ancillas without indexing an empty list, and stop the prune at the program qubits | medium (not executed) | Mapper.AnchorAsWritten, Mapper.PruneAsWritten, Mapper.PruneLoopOverruns, Mapper.EmptyKernelOverruns | Mapper.Prune, Mapper.MapBlock |
