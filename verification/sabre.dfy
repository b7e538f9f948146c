/** The SABRE router of the mapping pass (lib/Optimizer/Transforms/Mapping.cpp,
    class `SabreRouter`). The kernel's single block is an arena of op records
    indexed by position; a wire is a number, defined by exactly one op. The
    router never edits that arena: the operands it gives each mapped op and
    the swaps it inserts are recorded in an event log, and the users of an op
    are always those of the original block (an op's users are visited when
    the op is mapped, before any of its result wires can be rewired). */
module Sabre {
  import opened Common
  import opened Hardware

  type Wire = nat

  /** What the router needs to know about a Quake op: a `quake.null_wire`
      (a source), a quantum operator, a measurement, a `quake.sink`, or an
      op that `isSupportedMappingOperation` rejects. */
  datatype OpKind = NullWire | Gate | Measure | Sink | Unsupported

  /** An op of the block: its quantum operand and result wires, whether a
      measurement carries a register name and whether the op is in value
      (SSA) form. */
  datatype Op = Op(kind: OpKind, operands: seq<Wire>, results: seq<Wire>, named: bool, valueForm: bool)

  type Block = seq<Op>

  predicate Supported(op: Op)
  {
    op.kind != Unsupported
  }

  predicate IsMeasure(op: Op)
  {
    op.kind == Measure
  }

  /** The routing context: the block, the wire-to-virtual-qubit table built
      by the pass driver, and the device. */
  datatype Context = Context(block: Block, wireMap: map<Wire, nat>, device: Device)

  /** What the driver establishes before routing starts: a valid device,
      every virtual qubit of the table placed on the device, every operand of
      a supported op tracked, every gate and measurement producing one result
      wire per operand wire, and every null wire defining one wire from
      nothing. */
  predicate ValidContext(c: Context)
  {
    && ValidDevice(c.device)
    && (forall w :: w in c.wireMap ==> c.wireMap[w] < NumQubits(c.device))
    && (forall j, k :: 0 <= j < |c.block| && 0 <= k < |c.block[j].operands| && Supported(c.block[j]) ==>
          c.block[j].operands[k] in c.wireMap)
    && (forall j :: 0 <= j < |c.block| && (c.block[j].kind == Gate || c.block[j].kind == Measure) ==>
          |c.block[j].results| == |c.block[j].operands|)
    && (forall j :: 0 <= j < |c.block| && c.block[j].kind == NullWire ==>
          |c.block[j].operands| == 0 && |c.block[j].results| == 1)
  }

  //===--------------------------------------------------------------------===//
  // Users
  //===--------------------------------------------------------------------===//

  /** The ops at index `from` and later that use wire w, one entry per use,
      in block order. */
  function UsesOf(block: Block, w: Wire, from: nat): (us: seq<nat>)
    ensures forall k :: 0 <= k < |us| ==> from <= us[k] < |block|
    decreases |block| - from
  {
    if from >= |block| then []
    else seq(Count(block[from].operands, w), _ => from) + UsesOf(block, w, from + 1)
  }

  /** The users of a list of wires: the uses of each wire in turn. */
  function UsersOfWires(block: Block, ws: seq<Wire>, from: nat): (us: seq<nat>)
    ensures forall k :: 0 <= k < |us| ==> from <= us[k] < |block|
  {
    if |ws| == 0 then [] else UsesOf(block, ws[0], from) + UsersOfWires(block, ws[1..], from)
  }

  /** `op->getUsers()`: every use of a result wire of op i. In a single block
      in SSA form a wire is only used after the op defining it. */
  function Users(block: Block, i: nat): (us: seq<nat>)
    requires i < |block|
    ensures forall k :: 0 <= k < |us| ==> i < us[k] < |block|
  {
    UsersOfWires(block, block[i].results, i + 1)
  }

  //===--------------------------------------------------------------------===//
  // Router state
  //===--------------------------------------------------------------------===//

  /** An op together with the virtual qubits of its quantum operands. */
  datatype VirtualOp = VirtualOp(op: nat, qubits: seq<nat>)

  /** What the router does to the block: the operand wires it gives a mapped
      op (with the device qubits they belong to), and the swaps it inserts. */
  datatype Event =
    | MappedOp(op: nat, phys: seq<nat>, wires: seq<Option<Wire>>)
    | InsertedSwap(p0: nat, p1: nat, inputs: seq<Option<Wire>>, outputs: seq<Wire>)

  /** The members of `SabreRouter`. `searches` is the route loop's
      `numSwapSearches`, `nextWire` the next fresh wire a swap may define, and
      `log` what has been done to the block so far. */
  datatype Router = Router(
    placement: Placement,
    front: seq<VirtualOp>,
    extended: seq<VirtualOp>,
    measureLayer: seq<VirtualOp>,
    measureSet: set<nat>,
    involved: seq<nat>,
    decay: seq<real>,
    phyToWire: seq<Option<Wire>>,
    visited: map<nat, nat>,
    allowMeasure: bool,
    searches: nat,
    nextWire: Wire,
    log: seq<Event>)

  const ExtendedLayerSize: nat := 20
  const ExtendedLayerWeight: real := 0.5
  const DecayDelta: real := 0.5
  const RoundsDecayReset: nat := 5

  /** The router as its constructor leaves it (Mapping.cpp:64-67): all decays
      1.0, no wire on any device qubit, measurements held back. */
  function NewRouter(pl: Placement, n: nat, nextWire: Wire): (r: Router)
    ensures |r.decay| == n && |r.phyToWire| == n
    ensures forall p :: 0 <= p < n ==> r.decay[p] == 1.0 && r.phyToWire[p] == None
  {
    Router(pl, [], [], [], {}, [], seq(n, _ => 1.0), seq(n, _ => None), map[], false, 0, nextWire, [])
  }

  /** How often an op has been visited; an op never visited counts 0. */
  function Visits(visited: map<nat, nat>, x: nat): nat
  {
    if x in visited then visited[x] else 0
  }

  /** The virtual qubits of the quantum operands of op j. */
  function Qubits(c: Context, j: nat): (qs: seq<nat>)
    requires ValidContext(c) && j < |c.block| && Supported(c.block[j])
    ensures |qs| == |c.block[j].operands|
    ensures forall k :: 0 <= k < |qs| ==> qs[k] < NumQubits(c.device)
  {
    seq(|c.block[j].operands|, k requires 0 <= k < |c.block[j].operands| => c.wireMap[c.block[j].operands[k]])
  }

  /** A layer entry as `visitUsers` creates it. */
  predicate EntryOk(c: Context, v: VirtualOp)
    requires ValidContext(c)
  {
    v.op < |c.block| && Supported(c.block[v.op]) && c.block[v.op].kind != NullWire && v.qubits == Qubits(c, v.op)
  }

  predicate LayerOk(c: Context, layer: seq<VirtualOp>)
    requires ValidContext(c)
  {
    forall k :: 0 <= k < |layer| ==> EntryOk(c, layer[k])
  }

  /** The op ids of a layer. */
  function OpsOf(layer: seq<VirtualOp>): (ops: seq<nat>)
    ensures |ops| == |layer|
    ensures forall k :: 0 <= k < |layer| ==> ops[k] == layer[k].op
  {
    seq(|layer|, k requires 0 <= k < |layer| => layer[k].op)
  }

  /** The measurement layer holds each op at most once, `measureSet` holds
      all of its ops (and may hold more: it is never cleared), and once
      measurements are allowed the measurement layer stays empty. */
  predicate MeasureLayerOk(r: Router)
  {
    && NoRepeats(OpsOf(r.measureLayer))
    && (forall k :: 0 <= k < |r.measureLayer| ==> r.measureLayer[k].op in r.measureSet)
    && (r.allowMeasure ==> r.measureLayer == [])
  }

  //===--------------------------------------------------------------------===//
  // visitUsers (Mapping.cpp:120-154)
  //===--------------------------------------------------------------------===//

  /** One iteration of `visitUsers`: count the visit; a supported user whose
      count now equals its number of quantum operands is ready and goes to
      the layer, or, while measurements are held back, to the measurement
      layer unless it is already there. */
  function VisitOne(c: Context, r: Router, u: nat, layer: seq<VirtualOp>): (res: (Router, seq<VirtualOp>))
    requires ValidContext(c) && u < |c.block|
  {
    var n := Visits(r.visited, u) + 1;
    var r1 := r.(visited := r.visited[u := n]);
    var op := c.block[u];
    if !Supported(op) || n != |op.operands| then (r1, layer)
    else
      var v := VirtualOp(u, Qubits(c, u));
      if r.allowMeasure || !IsMeasure(op) then (r1, layer + [v])
      else if u in r.measureSet then (r1, layer)
      else (r1.(measureLayer := r.measureLayer + [v], measureSet := r.measureSet + {u}), layer)
  }

  /** `visitUsers`: visit each user in turn. */
  function VisitUsers(c: Context, r: Router, users: seq<nat>, layer: seq<VirtualOp>): (res: (Router, seq<VirtualOp>))
    requires ValidContext(c)
    requires forall k :: 0 <= k < |users| ==> users[k] < |c.block|
    decreases |users|
  {
    if |users| == 0 then (r, layer)
    else
      var (r1, l1) := VisitOne(c, r, users[0], layer);
      VisitUsers(c, r1, users[1..], l1)
  }

  /** An op becomes ready during a visit exactly when its count crosses its
      number of quantum operands: it was below before and is at least that
      after. */
  predicate BecomesReady(c: Context, visited: map<nat, nat>, users: seq<nat>, x: nat)
    requires x < |c.block|
  {
    Supported(c.block[x]) && Visits(visited, x) < |c.block[x].operands| <= Visits(visited, x) + Count(users, x)
  }

  /** Every visit adds one to the user's count and touches nothing but the
      counters, the layer and the measurement layer. */
  lemma {:induction false} VisitCounts(c: Context, r: Router, users: seq<nat>, layer: seq<VirtualOp>)
    requires ValidContext(c)
    requires forall k :: 0 <= k < |users| ==> users[k] < |c.block|
    ensures var (r', _) := VisitUsers(c, r, users, layer);
      && (forall x :: Visits(r'.visited, x) == Visits(r.visited, x) + Count(users, x))
      && r' == r.(visited := r'.visited, measureLayer := r'.measureLayer, measureSet := r'.measureSet)
    decreases |users|
  {
    if |users| > 0 {
      var (r1, l1) := VisitOne(c, r, users[0], layer);
      VisitCounts(c, r1, users[1..], l1);
      assert users == [users[0]] + users[1..];
    }
  }

  /** `longer` is `layer` followed by entries for some of the users. */
  predicate ExtendsBy(c: Context, layer: seq<VirtualOp>, longer: seq<VirtualOp>, users: seq<nat>)
    requires ValidContext(c)
  {
    && |layer| <= |longer| && longer[..|layer|] == layer
    && (forall k :: |layer| <= k < |longer| ==> EntryOk(c, longer[k]) && longer[k].op in users)
  }

  /** The entries of a layer from position `from` on are measurements. */
  predicate MeasuresFrom(c: Context, layer: seq<VirtualOp>, from: nat)
  {
    forall k :: from <= k < |layer| ==> layer[k].op < |c.block| && IsMeasure(c.block[layer[k].op])
  }

  lemma ExtendsChain(c: Context, a: seq<VirtualOp>, b: seq<VirtualOp>, d: seq<VirtualOp>, users: seq<nat>)
    requires ValidContext(c) && |users| > 0
    requires ExtendsBy(c, a, b, users[..1]) && ExtendsBy(c, b, d, users[1..])
    ensures ExtendsBy(c, a, d, users)
  {
    assert d[..|a|] == b[..|b|][..|a|];
    forall k | |a| <= k < |d| ensures d[k].op in users {
      if k < |b| {
        assert d[k] == b[k];
      }
    }
  }

  lemma VisitOneAppends(c: Context, r: Router, u: nat, layer: seq<VirtualOp>)
    requires ValidContext(c) && u < |c.block|
    ensures var (r1, l1) := VisitOne(c, r, u, layer);
      && ExtendsBy(c, layer, l1, [u])
      && ExtendsBy(c, r.measureLayer, r1.measureLayer, [u])
      && MeasuresFrom(c, r1.measureLayer, |r.measureLayer|)
  {
  }

  /** The layer and the measurement layer only grow, every new entry of
      either is a layer entry for one of the users, and the measurement layer
      only gains measurements. */
  lemma {:induction false} VisitAppends(c: Context, r: Router, users: seq<nat>, layer: seq<VirtualOp>)
    requires ValidContext(c)
    requires forall k :: 0 <= k < |users| ==> users[k] < |c.block|
    ensures var (r', layer') := VisitUsers(c, r, users, layer);
      && ExtendsBy(c, layer, layer', users)
      && ExtendsBy(c, r.measureLayer, r'.measureLayer, users)
      && MeasuresFrom(c, r'.measureLayer, |r.measureLayer|)
    decreases |users|
  {
    if |users| > 0 {
      var (r1, l1) := VisitOne(c, r, users[0], layer);
      VisitOneAppends(c, r, users[0], layer);
      VisitAppends(c, r1, users[1..], l1);
      var (r', layer') := VisitUsers(c, r1, users[1..], l1);
      assert users[..1] == [users[0]];
      ExtendsChain(c, layer, l1, layer', users);
      ExtendsChain(c, r.measureLayer, r1.measureLayer, r'.measureLayer, users);
    }
  }

  lemma OpsOfAppend(layer: seq<VirtualOp>, v: VirtualOp, x: nat)
    ensures Count(OpsOf(layer + [v]), x) == Count(OpsOf(layer), x) + (if v.op == x then 1 else 0)
  {
    assert OpsOf(layer + [v]) == OpsOf(layer) + [v.op];
    CountAppend(OpsOf(layer), [v.op], x);
  }

  /** One visit of u makes x ready exactly when u is x and its count reaches
      the number of operands. */
  lemma VisitOneReady(c: Context, r: Router, u: nat, layer: seq<VirtualOp>, x: nat)
    requires ValidContext(c) && u < |c.block| && x < |c.block|
    ensures var (r1, l1) := VisitOne(c, r, u, layer);
      var ready := u == x && Supported(c.block[x]) && Visits(r.visited, x) + 1 == |c.block[x].operands|;
      && Visits(r1.visited, x) == Visits(r.visited, x) + (if u == x then 1 else 0)
      && r1.allowMeasure == r.allowMeasure
      && Count(OpsOf(l1), x) == Count(OpsOf(layer), x) + (if ready && (r.allowMeasure || !IsMeasure(c.block[x])) then 1 else 0)
      && (x in r1.measureSet <==> x in r.measureSet || (ready && !r.allowMeasure && IsMeasure(c.block[x])))
  {
    var (r1, l1) := VisitOne(c, r, u, layer);
    if l1 != layer {
      OpsOfAppend(layer, VirtualOp(u, Qubits(c, u)), x);
    }
  }

  /** An op is appended to the layer by `visitUsers` exactly when the visit
      makes it ready and it is not a measurement held back; a held-back
      measurement that becomes ready lands in the measurement layer instead.
      Unsupported ops never become ready, and an op that was already ready
      (or past it) is not appended again. */
  lemma {:induction false} VisitReady(c: Context, r: Router, users: seq<nat>, layer: seq<VirtualOp>, x: nat)
    requires ValidContext(c) && x < |c.block|
    requires forall k :: 0 <= k < |users| ==> users[k] < |c.block|
    ensures var (r', layer') := VisitUsers(c, r, users, layer);
      var ready := BecomesReady(c, r.visited, users, x);
      && Count(OpsOf(layer'), x) == Count(OpsOf(layer), x) + (if ready && (r.allowMeasure || !IsMeasure(c.block[x])) then 1 else 0)
      && (x in r'.measureSet <==> x in r.measureSet || (ready && !r.allowMeasure && IsMeasure(c.block[x])))
      && r'.allowMeasure == r.allowMeasure
    decreases |users|
  {
    if |users| > 0 {
      var u := users[0];
      var (r1, l1) := VisitOne(c, r, u, layer);
      VisitOneReady(c, r, u, layer, x);
      VisitReady(c, r1, users[1..], l1, x);
      assert users == [u] + users[1..];
      assert Count(users, x) == (if u == x then 1 else 0) + Count(users[1..], x);
    }
  }

  lemma NoRepeatsAppend<T>(s: seq<T>, x: T)
    requires NoRepeats(s) && x !in s
    ensures NoRepeats(s + [x])
  {
    var t := s + [x];
    forall i, j | 0 <= i < j < |t| ensures t[i] != t[j] {
      if j < |s| {
        NoRepeatsApart(s, i, j);
      } else {
        assert t[i] == s[i];
      }
    }
    NoRepeatsOfApart(t);
  }

  lemma VisitOneKeepsMeasureLayer(c: Context, r: Router, u: nat, layer: seq<VirtualOp>)
    requires ValidContext(c) && u < |c.block| && MeasureLayerOk(r)
    ensures MeasureLayerOk(VisitOne(c, r, u, layer).0)
  {
    var (r1, l1) := VisitOne(c, r, u, layer);
    if r1.measureLayer != r.measureLayer {
      var v := VirtualOp(u, Qubits(c, u));
      assert r1.measureLayer == r.measureLayer + [v];
      assert OpsOf(r1.measureLayer) == OpsOf(r.measureLayer) + [u];
      assert u !in OpsOf(r.measureLayer);
      NoRepeatsAppend(OpsOf(r.measureLayer), u);
    }
  }

  /** The measurement layer never holds an op twice (Mapping.cpp:145-149). */
  lemma {:induction false} VisitKeepsMeasureLayer(c: Context, r: Router, users: seq<nat>, layer: seq<VirtualOp>)
    requires ValidContext(c) && MeasureLayerOk(r)
    requires forall k :: 0 <= k < |users| ==> users[k] < |c.block|
    ensures MeasureLayerOk(VisitUsers(c, r, users, layer).0)
    decreases |users|
  {
    if |users| > 0 {
      VisitOneKeepsMeasureLayer(c, r, users[0], layer);
      var (r1, l1) := VisitOne(c, r, users[0], layer);
      VisitKeepsMeasureLayer(c, r1, users[1..], l1);
    }
  }

  //===--------------------------------------------------------------------===//
  // Router invariant
  //===--------------------------------------------------------------------===//

  /** The sizes the router's tables have: one entry per device qubit. */
  predicate RouterShape(c: Context, r: Router)
  {
    && IsBijection(r.placement) && Size(r.placement) == NumQubits(c.device)
    && |r.phyToWire| == NumQubits(c.device) && |r.decay| == NumQubits(c.device)
  }

  /** The device qubits of a list of virtual qubits. */
  function Phys(pl: Placement, qs: seq<nat>): (ps: seq<nat>)
    requires IsBijection(pl) && forall k :: 0 <= k < |qs| ==> qs[k] < |pl.phyOf|
    ensures |ps| == |qs|
    ensures forall k :: 0 <= k < |qs| ==> ps[k] == pl.phyOf[qs[k]] && ps[k] < |pl.phyOf|
  {
    seq(|qs|, k requires 0 <= k < |qs| => pl.phyOf[qs[k]])
  }

  /** An op the router cannot map under placement pl: a non-measurement on
      two device qubits that are not connected. */
  predicate Blocked(c: Context, pl: Placement, v: VirtualOp)
    requires ValidContext(c) && EntryOk(c, v) && IsBijection(pl) && Size(pl) == NumQubits(c.device)
  {
    !IsMeasure(c.block[v.op]) && |v.qubits| == 2 && !AreConnected(c.device, pl.phyOf[v.qubits[0]], pl.phyOf[v.qubits[1]])
  }

  /** Every event of the log names ops and device qubits that exist, every
      mapped two-qubit non-measurement sits on connected device qubits, and
      every swap acts on connected device qubits. */
  predicate LogOk(c: Context, log: seq<Event>)
    requires ValidContext(c)
  {
    forall k :: 0 <= k < |log| ==> EventOk(c, log[k])
  }

  predicate EventOk(c: Context, e: Event)
    requires ValidContext(c)
  {
    match e
    case MappedOp(op, phys, _) =>
      && op < |c.block|
      && (forall k :: 0 <= k < |phys| ==> phys[k] < NumQubits(c.device))
      && (!IsMeasure(c.block[op]) && |phys| == 2 ==> AreConnected(c.device, phys[0], phys[1]))
    case InsertedSwap(p0, p1, _, _) =>
      p0 < NumQubits(c.device) && AreConnected(c.device, p0, p1)
  }

  /** Each decay lies between 1.0 and 1.0 plus one delta per search since the
      last reset, and the search counter is a 32-bit value. */
  predicate DecayOk(r: Router)
  {
    && r.searches < U32Modulus
    && forall p :: 0 <= p < |r.decay| ==>
         1.0 <= r.decay[p] <= 1.0 + DecayDelta * ((r.searches % RoundsDecayReset) as real)
  }

  /** The invariant the router keeps between steps. */
  predicate RouterOk(c: Context, r: Router)
    requires ValidContext(c)
  {
    && RouterShape(c, r)
    && LayerOk(c, r.front)
    && LayerOk(c, r.measureLayer) && MeasuresFrom(c, r.measureLayer, 0) && MeasureLayerOk(r)
    && NoRepeats(r.involved) && (forall p :: p in r.involved ==> p < NumQubits(c.device))
    && DecayOk(r)
    && LogOk(c, r.log)
  }

  //===--------------------------------------------------------------------===//
  // mapOperation (Mapping.cpp:156-184)
  //===--------------------------------------------------------------------===//

  /** The physical-to-wire table after `phyToWire[phys[k]] = wires[k]` for
      each k in turn. */
  function Rewire(table: seq<Option<Wire>>, phys: seq<nat>, wires: seq<Wire>): (t: seq<Option<Wire>>)
    requires |phys| == |wires| && forall k :: 0 <= k < |phys| ==> phys[k] < |table|
    ensures |t| == |table|
    decreases |phys|
  {
    if |phys| == 0 then table else Rewire(table[phys[0] := Some(wires[0])], phys[1..], wires[1..])
  }

  /** Device qubits not among `phys` keep their wire. */
  lemma {:induction false} RewireKeeps(table: seq<Option<Wire>>, phys: seq<nat>, wires: seq<Wire>, p: nat)
    requires |phys| == |wires| && forall k :: 0 <= k < |phys| ==> phys[k] < |table|
    requires p < |table| && p !in phys
    ensures Rewire(table, phys, wires)[p] == table[p]
    decreases |phys|
  {
    if |phys| > 0 {
      assert p != phys[0];
      RewireKeeps(table[phys[0] := Some(wires[0])], phys[1..], wires[1..], p);
    }
  }

  /** With distinct device qubits, each one ends up holding its wire. */
  lemma {:induction false} RewireSets(table: seq<Option<Wire>>, phys: seq<nat>, wires: seq<Wire>, k: nat)
    requires |phys| == |wires| && forall j :: 0 <= j < |phys| ==> phys[j] < |table|
    requires NoRepeats(phys) && k < |phys|
    ensures Rewire(table, phys, wires)[phys[k]] == Some(wires[k])
    decreases |phys|
  {
    var t1 := table[phys[0] := Some(wires[0])];
    if k == 0 {
      assert phys[0] !in phys[1..];
      RewireKeeps(t1, phys[1..], wires[1..], phys[0]);
    } else {
      RewireSets(t1, phys[1..], wires[1..], k - 1);
    }
  }

  /** The wires the table holds for some device qubits. */
  function WiresOf(table: seq<Option<Wire>>, phys: seq<nat>): (ws: seq<Option<Wire>>)
    requires forall k :: 0 <= k < |phys| ==> phys[k] < |table|
    ensures |ws| == |phys| && forall k :: 0 <= k < |phys| ==> ws[k] == table[phys[k]]
  {
    seq(|phys|, k requires 0 <= k < |phys| => table[phys[k]])
  }

  /** `mapOperation`: an op that is not blocked is rewired onto the wires
      its device qubits currently hold, and unless it is a sink its result
      wires take their place in the table. */
  function MapOperation(c: Context, r: Router, v: VirtualOp): (res: Option<Router>)
    requires ValidContext(c) && RouterShape(c, r) && EntryOk(c, v)
    ensures res.None? <==> Blocked(c, r.placement, v)
    ensures res.Some? ==> res.value == r.(phyToWire := res.value.phyToWire, log := res.value.log)
    ensures res.Some? ==> |res.value.phyToWire| == |r.phyToWire|
    ensures res.Some? ==>
              res.value.log == r.log + [MappedOp(v.op, Phys(r.placement, v.qubits), WiresOf(r.phyToWire, Phys(r.placement, v.qubits)))]
  {
    var phys := Phys(r.placement, v.qubits);
    if !IsMeasure(c.block[v.op]) && |phys| == 2 && !AreConnected(c.device, phys[0], phys[1]) then None
    else
      var wires := WiresOf(r.phyToWire, phys);
      var log := r.log + [MappedOp(v.op, phys, wires)];
      if c.block[v.op].kind == Sink then Some(r.(log := log))
      else Some(r.(phyToWire := Rewire(r.phyToWire, phys, c.block[v.op].results), log := log))
  }

  /** After mapping, each of the op's (distinct) device qubits holds the op's
      matching result wire and every other device qubit keeps its wire; a
      sink leaves the table as it was. The recorded event respects the
      coupling. */
  lemma MapOperationRewires(c: Context, r: Router, v: VirtualOp)
    requires ValidContext(c) && RouterShape(c, r) && EntryOk(c, v)
    requires MapOperation(c, r, v).Some?
    ensures var r' := MapOperation(c, r, v).value;
      var phys := Phys(r.placement, v.qubits);
      && EventOk(c, r'.log[|r.log|])
      && (c.block[v.op].kind == Sink ==> r'.phyToWire == r.phyToWire)
      && (c.block[v.op].kind != Sink && NoRepeats(phys) ==>
            forall k :: 0 <= k < |phys| ==> r'.phyToWire[phys[k]] == Some(c.block[v.op].results[k]))
      && (forall p :: 0 <= p < |r.phyToWire| && p !in phys ==> r'.phyToWire[p] == r.phyToWire[p])
  {
    var r' := MapOperation(c, r, v).value;
    var phys := Phys(r.placement, v.qubits);
    if c.block[v.op].kind != Sink {
      if NoRepeats(phys) {
        forall k | 0 <= k < |phys| ensures r'.phyToWire[phys[k]] == Some(c.block[v.op].results[k]) {
          RewireSets(r.phyToWire, phys, c.block[v.op].results, k);
        }
      }
      forall p | 0 <= p < |r.phyToWire| && p !in phys ensures r'.phyToWire[p] == r.phyToWire[p] {
        RewireKeeps(r.phyToWire, phys, c.block[v.op].results, p);
      }
    }
  }

  //===--------------------------------------------------------------------===//
  // mapFrontLayer (Mapping.cpp:186-224)
  //===--------------------------------------------------------------------===//

  /** `SmallSet::insert` on the involved device qubits: x joins unless it is
      already there; insertion order is remembered. */
  function InsertInvolved(s: seq<nat>, x: nat): (r: seq<nat>)
    ensures NoRepeats(s) ==> NoRepeats(r)
    ensures forall y :: y in r <==> y in s || y == x
  {
    if x in s then s
    else
      assert NoRepeats(s) ==> NoRepeats(s + [x]) by {
        if NoRepeats(s) {
          NoRepeatsAppend(s, x);
        }
      }
      s + [x]
  }

  function InsertAllInvolved(s: seq<nat>, xs: seq<nat>): (r: seq<nat>)
    ensures NoRepeats(s) ==> NoRepeats(r)
    ensures forall y :: y in r <==> y in s || y in xs
    decreases |xs|
  {
    if |xs| == 0 then s
    else
      var r := InsertAllInvolved(InsertInvolved(s, xs[0]), xs[1..]);
      assert forall y :: y in xs <==> y == xs[0] || y in xs[1..] by {
        assert xs == [xs[0]] + xs[1..];
      }
      r
  }

  /** The ops of the front entries that are not blocked, in order. */
  function Unblocked(c: Context, pl: Placement, front: seq<VirtualOp>): (ops: seq<nat>)
    requires ValidContext(c) && LayerOk(c, front) && IsBijection(pl) && Size(pl) == NumQubits(c.device)
    decreases |front|
  {
    if |front| == 0 then []
    else
      var last := front[|front| - 1];
      Unblocked(c, pl, front[..|front| - 1]) + (if Blocked(c, pl, last) then [] else [last.op])
  }

  /** The ops a log maps, in order. */
  function LoggedOps(log: seq<Event>): (ops: seq<nat>)
    decreases |log|
  {
    if |log| == 0 then []
    else
      var last := log[|log| - 1];
      LoggedOps(log[..|log| - 1]) + (if last.MappedOp? then [last.op] else [])
  }

  /** A swap of two device qubits. */
  datatype Swap = Swap(p0: nat, p1: nat)

  /** The swaps a log inserts, in order. */
  function SwapsOf(log: seq<Event>): (swaps: seq<Swap>)
    decreases |log|
  {
    if |log| == 0 then []
    else
      var last := log[|log| - 1];
      SwapsOf(log[..|log| - 1]) + (if last.InsertedSwap? then [Swap(last.p0, last.p1)] else [])
  }

  lemma LoggedOpsAppend(log: seq<Event>, e: Event)
    ensures LoggedOps(log + [e]) == LoggedOps(log) + (if e.MappedOp? then [e.op] else [])
    ensures SwapsOf(log + [e]) == SwapsOf(log) + (if e.InsertedSwap? then [Swap(e.p0, e.p1)] else [])
  {
    assert (log + [e])[..|log|] == log;
  }

  lemma LogOkAppend(c: Context, log: seq<Event>, e: Event)
    requires ValidContext(c) && LogOk(c, log) && EventOk(c, e)
    ensures LogOk(c, log + [e])
  {
    forall k | 0 <= k < |log| + 1 ensures EventOk(c, (log + [e])[k]) {
      if k < |log| {
        assert (log + [e])[k] == log[k];
      }
    }
  }

  /** What one iteration of `mapFrontLayer` keeps and changes. */
  predicate FrontStepped(c: Context, st: Router, nf: seq<VirtualOp>, v: VirtualOp, st': Router, nf': seq<VirtualOp>)
    requires ValidContext(c) && RouterOk(c, st) && EntryOk(c, v)
  {
    && RouterOk(c, st')
    && st' == st.(involved := st'.involved, phyToWire := st'.phyToWire, visited := st'.visited,
                  measureLayer := st'.measureLayer, measureSet := st'.measureSet, log := st'.log)
    && LayerOk(c, nf') && |nf| <= |nf'| && nf'[..|nf|] == nf
    && |st.log| <= |st'.log| && st'.log[..|st.log|] == st.log
    && LoggedOps(st'.log) == LoggedOps(st.log) + (if Blocked(c, st.placement, v) then [] else [v.op])
    && SwapsOf(st'.log) == SwapsOf(st.log)
    && (forall p :: p in st.involved ==> p in st'.involved)
    && (Blocked(c, st.placement, v) ==>
          && st' == st.(involved := st'.involved) && nf' == nf + [v]
          && st.placement.phyOf[v.qubits[0]] in st'.involved
          && st.placement.phyOf[v.qubits[1]] in st'.involved)
  }

  lemma ExtendsLayerOk(c: Context, a: seq<VirtualOp>, b: seq<VirtualOp>, users: seq<nat>)
    requires ValidContext(c) && LayerOk(c, a) && ExtendsBy(c, a, b, users)
    ensures LayerOk(c, b)
  {
    forall k | 0 <= k < |b| ensures EntryOk(c, b[k]) {
      if k < |a| {
        assert b[k] == b[..|a|][k];
      }
    }
  }

  lemma MeasuresExtend(c: Context, a: seq<VirtualOp>, b: seq<VirtualOp>)
    requires MeasuresFrom(c, a, 0) && MeasuresFrom(c, b, |a|) && |a| <= |b| && b[..|a|] == a
    ensures MeasuresFrom(c, b, 0)
  {
    forall k | 0 <= k < |b| ensures b[k].op < |c.block| && IsMeasure(c.block[b[k].op]) {
      if k < |a| {
        assert b[k] == b[..|a|][k];
      }
    }
  }

  /** Visiting users keeps the router invariant and the layer well formed. */
  lemma VisitKeepsRouterOk(c: Context, r: Router, users: seq<nat>, layer: seq<VirtualOp>)
    requires ValidContext(c) && RouterOk(c, r) && LayerOk(c, layer)
    requires forall k :: 0 <= k < |users| ==> users[k] < |c.block|
    ensures var (r', layer') := VisitUsers(c, r, users, layer);
      && RouterOk(c, r') && LayerOk(c, layer') && ExtendsBy(c, layer, layer', users)
      && r' == r.(visited := r'.visited, measureLayer := r'.measureLayer, measureSet := r'.measureSet)
  {
    VisitCounts(c, r, users, layer);
    VisitAppends(c, r, users, layer);
    VisitKeepsMeasureLayer(c, r, users, layer);
    var (r', layer') := VisitUsers(c, r, users, layer);
    ExtendsLayerOk(c, layer, layer', users);
    ExtendsLayerOk(c, r.measureLayer, r'.measureLayer, users);
    MeasuresExtend(c, r.measureLayer, r'.measureLayer);
  }

  /** Mapping an op that is not blocked keeps the router invariant. */
  lemma MapKeepsRouterOk(c: Context, r: Router, v: VirtualOp)
    requires ValidContext(c) && RouterOk(c, r) && EntryOk(c, v) && !Blocked(c, r.placement, v)
    ensures var r1 := MapOperation(c, r, v).value;
      && RouterOk(c, r1)
      && r1.log == r.log + [r1.log[|r.log|]] && r1.log[|r.log|].MappedOp? && r1.log[|r.log|].op == v.op
  {
    var r1 := MapOperation(c, r, v).value;
    MapOperationRewires(c, r, v);
    var e := r1.log[|r.log|];
    assert r1.log == r.log + [e];
    LogOkAppend(c, r.log, e);
  }

  /** One iteration of `mapFrontLayer` on front entry v: a blocked op is
      kept for the next front layer and its device qubits become involved;
      otherwise it is mapped and its users are visited into the next front
      layer. */
  method FrontStep(c: Context, st: Router, nf: seq<VirtualOp>, v: VirtualOp) returns (st': Router, nf': seq<VirtualOp>)
    requires ValidContext(c) && RouterOk(c, st) && LayerOk(c, nf) && EntryOk(c, v)
    ensures FrontStepped(c, st, nf, v, st', nf')
  {
    var m := MapOperation(c, st, v);
    if m.None? {
      st' := st.(involved := InsertAllInvolved(st.involved, Phys(st.placement, v.qubits)));
      nf' := nf + [v];
      FrontStepBlocked(c, st, nf, v);
    } else {
      var res := VisitUsers(c, m.value, Users(c.block, v.op), nf);
      st', nf' := res.0, res.1;
      FrontStepMapped(c, st, nf, v);
    }
  }

  lemma FrontStepBlocked(c: Context, st: Router, nf: seq<VirtualOp>, v: VirtualOp)
    requires ValidContext(c) && RouterOk(c, st) && LayerOk(c, nf) && EntryOk(c, v)
    requires Blocked(c, st.placement, v)
    ensures FrontStepped(c, st, nf, v, st.(involved := InsertAllInvolved(st.involved, Phys(st.placement, v.qubits))), nf + [v])
  {
    var ps := Phys(st.placement, v.qubits);
    assert ps[0] in ps && ps[1] in ps;
    var st' := st.(involved := InsertAllInvolved(st.involved, ps));
    assert forall p :: p in st'.involved ==> p < NumQubits(c.device);
    assert RouterOk(c, st');
    assert LayerOk(c, nf + [v]);
  }

  lemma FrontStepMapped(c: Context, st: Router, nf: seq<VirtualOp>, v: VirtualOp)
    requires ValidContext(c) && RouterOk(c, st) && LayerOk(c, nf) && EntryOk(c, v)
    requires !Blocked(c, st.placement, v)
    ensures var res := VisitUsers(c, MapOperation(c, st, v).value, Users(c.block, v.op), nf);
      FrontStepped(c, st, nf, v, res.0, res.1)
  {
    var r1 := MapOperation(c, st, v).value;
    MapKeepsRouterOk(c, st, v);
    LoggedOpsAppend(st.log, r1.log[|st.log|]);
    var users := Users(c.block, v.op);
    VisitKeepsRouterOk(c, r1, users, nf);
    var res := VisitUsers(c, r1, users, nf);
    assert res.0.log == r1.log;
    assert res.0.log[..|st.log|] == st.log;
  }

  /** The front layer is well formed and the placement is a bijection onto
      the device: what `Blocked` and `Unblocked` need. */
  predicate FrontPlaced(c: Context, r: Router)
    requires ValidContext(c)
  {
    LayerOk(c, r.front) && IsBijection(r.placement) && Size(r.placement) == NumQubits(c.device)
  }

  /** The loop invariant of `mapFrontLayer` after i front entries: what
      every iteration keeps, ... */
  predicate FrontInvKept(c: Context, r: Router, i: nat, st: Router, nf: seq<VirtualOp>)
    requires ValidContext(c) && FrontPlaced(c, r) && i <= |r.front|
  {
    && RouterOk(c, st) && st.front == r.front
    && st == r.(involved := st.involved, phyToWire := st.phyToWire, visited := st.visited,
                measureLayer := st.measureLayer, measureSet := st.measureSet, log := st.log)
    && LayerOk(c, nf)
    && |r.log| <= |st.log| && st.log[..|r.log|] == r.log
    && LoggedOps(st.log) == LoggedOps(r.log) + Unblocked(c, r.placement, r.front[..i])
    && SwapsOf(st.log) == SwapsOf(r.log)
    && (forall p :: p in r.involved ==> p in st.involved)
  }

  /** ... what happened to the blocked entries so far, ... */
  predicate FrontInvBlocked(c: Context, r: Router, i: nat, st: Router, nf: seq<VirtualOp>)
    requires ValidContext(c) && FrontPlaced(c, r) && i <= |r.front|
  {
    forall k :: 0 <= k < i && Blocked(c, r.placement, r.front[k]) ==>
      && r.front[k] in nf
      && r.placement.phyOf[r.front[k].qubits[0]] in st.involved
      && r.placement.phyOf[r.front[k].qubits[1]] in st.involved
  }

  /** ... and, while nothing has been mapped, that nothing else changed. */
  predicate FrontInvUnmapped(c: Context, r: Router, i: nat, st: Router, nf: seq<VirtualOp>, mapped: bool)
    requires ValidContext(c) && FrontPlaced(c, r) && i <= |r.front|
  {
    && (mapped <==> Unblocked(c, r.placement, r.front[..i]) != [])
    && (!mapped ==> st == r.(involved := st.involved) && nf == r.front[..i])
    && (!mapped ==> forall k :: 0 <= k < i ==> Blocked(c, r.placement, r.front[k]))
  }

  lemma UnblockedStep(c: Context, pl: Placement, front: seq<VirtualOp>, i: nat)
    requires ValidContext(c) && LayerOk(c, front) && IsBijection(pl) && Size(pl) == NumQubits(c.device)
    requires i < |front|
    ensures Unblocked(c, pl, front[..i + 1]) ==
            Unblocked(c, pl, front[..i]) + (if Blocked(c, pl, front[i]) then [] else [front[i].op])
  {
    assert front[..i + 1][..i] == front[..i];
    assert front[..i + 1][i] == front[i];
  }

  lemma FrontKeptStep(c: Context, r: Router, i: nat, st: Router, nf: seq<VirtualOp>, st2: Router, nf2: seq<VirtualOp>)
    requires ValidContext(c) && FrontPlaced(c, r) && i < |r.front|
    requires FrontInvKept(c, r, i, st, nf) && FrontStepped(c, st, nf, r.front[i], st2, nf2)
    ensures FrontInvKept(c, r, i + 1, st2, nf2)
  {
    FrontKeptLog(c, r, i, st, nf, st2, nf2);
  }

  lemma FrontKeptLog(c: Context, r: Router, i: nat, st: Router, nf: seq<VirtualOp>, st2: Router, nf2: seq<VirtualOp>)
    requires ValidContext(c) && FrontPlaced(c, r) && i < |r.front|
    requires |r.log| <= |st.log| && st.log[..|r.log|] == r.log
    requires LoggedOps(st.log) == LoggedOps(r.log) + Unblocked(c, r.placement, r.front[..i])
    requires st.placement == r.placement
    requires |st.log| <= |st2.log| && st2.log[..|st.log|] == st.log
    requires LoggedOps(st2.log) == LoggedOps(st.log) + (if Blocked(c, st.placement, r.front[i]) then [] else [r.front[i].op])
    ensures |r.log| <= |st2.log| && st2.log[..|r.log|] == r.log
    ensures LoggedOps(st2.log) == LoggedOps(r.log) + Unblocked(c, r.placement, r.front[..i + 1])
  {
    assert st2.log[..|r.log|] == st2.log[..|st.log|][..|r.log|];
    UnblockedStep(c, r.placement, r.front, i);
  }

  lemma FrontBlockedStep(c: Context, r: Router, i: nat, st: Router, nf: seq<VirtualOp>, st2: Router, nf2: seq<VirtualOp>)
    requires ValidContext(c) && FrontPlaced(c, r) && i < |r.front|
    requires FrontInvKept(c, r, i, st, nf) && FrontInvBlocked(c, r, i, st, nf)
    requires FrontStepped(c, st, nf, r.front[i], st2, nf2)
    ensures FrontInvBlocked(c, r, i + 1, st2, nf2)
  {
    var v := r.front[i];
    assert Blocked(c, r.placement, v) ==> v in nf2 by {
      if Blocked(c, r.placement, v) {
        assert nf2 == nf + [v];
      }
    }
    forall k | 0 <= k < i + 1 && Blocked(c, r.placement, r.front[k])
      ensures && r.front[k] in nf2
              && r.placement.phyOf[r.front[k].qubits[0]] in st2.involved
              && r.placement.phyOf[r.front[k].qubits[1]] in st2.involved
    {
      if k < i {
        assert r.front[k] in nf;
        assert nf2[..|nf|] == nf;
      }
    }
  }

  lemma FrontUnmappedStep(c: Context, r: Router, i: nat, st: Router, nf: seq<VirtualOp>, mapped: bool,
                           st2: Router, nf2: seq<VirtualOp>)
    requires ValidContext(c) && FrontPlaced(c, r) && i < |r.front|
    requires FrontInvUnmapped(c, r, i, st, nf, mapped)
    requires Blocked(c, r.placement, r.front[i]) ==> st2 == st.(involved := st2.involved) && nf2 == nf + [r.front[i]]
    ensures FrontInvUnmapped(c, r, i + 1, st2, nf2, mapped || !Blocked(c, r.placement, r.front[i]))
  {
    var v := r.front[i];
    UnblockedStep(c, r.placement, r.front, i);
    if !mapped && Blocked(c, r.placement, v) {
      assert nf2 == r.front[..i + 1] by {
        assert r.front[..i + 1] == r.front[..i] + [v];
      }
      forall k | 0 <= k < i + 1 ensures Blocked(c, r.placement, r.front[k]) {
        if k == i {
          assert r.front[k] == v;
        }
      }
    }
  }

  /** The loop invariants of `mapFrontLayer` at the end of the front layer
      give its postconditions. */
  lemma FrontLayerDone(c: Context, r: Router, st: Router, nf: seq<VirtualOp>, mapped: bool, r': Router)
    requires ValidContext(c) && RouterOk(c, r)
    requires FrontInvKept(c, r, |r.front|, st, nf)
    requires FrontInvBlocked(c, r, |r.front|, st, nf)
    requires FrontInvUnmapped(c, r, |r.front|, st, nf, mapped)
    requires r' == st.(front := nf)
    ensures RouterOk(c, r')
    ensures r' == r.(front := r'.front, involved := r'.involved, phyToWire := r'.phyToWire, visited := r'.visited,
                     measureLayer := r'.measureLayer, measureSet := r'.measureSet, log := r'.log)
    ensures |r.log| <= |r'.log| && r'.log[..|r.log|] == r.log
    ensures LoggedOps(r'.log) == LoggedOps(r.log) + Unblocked(c, r.placement, r.front)
    ensures SwapsOf(r'.log) == SwapsOf(r.log)
    ensures mapped <==> Unblocked(c, r.placement, r.front) != []
    ensures forall k :: 0 <= k < |r.front| && Blocked(c, r.placement, r.front[k]) ==>
              && r.front[k] in r'.front
              && r.placement.phyOf[r.front[k].qubits[0]] in r'.involved
              && r.placement.phyOf[r.front[k].qubits[1]] in r'.involved
    ensures forall p :: p in r.involved ==> p in r'.involved
    ensures !mapped ==> r' == r.(involved := r'.involved)
    ensures !mapped ==> forall k :: 0 <= k < |r.front| ==> Blocked(c, r.placement, r.front[k])
  {
    assert r.front[..|r.front|] == r.front;
  }

  /** `mapFrontLayer`: every front op that is not blocked is mapped, in
      front-layer order, and its newly ready users join the next front layer;
      every blocked op stays in the front layer and its device qubits become
      involved. It succeeds iff it mapped at least one op; when it fails,
      nothing but the involved set has changed, and every front op is
      blocked. */
  method MapFrontLayer(c: Context, r: Router) returns (mapped: bool, r': Router)
    requires ValidContext(c) && RouterOk(c, r)
    ensures RouterOk(c, r')
    ensures r' == r.(front := r'.front, involved := r'.involved, phyToWire := r'.phyToWire, visited := r'.visited,
                     measureLayer := r'.measureLayer, measureSet := r'.measureSet, log := r'.log)
    ensures |r.log| <= |r'.log| && r'.log[..|r.log|] == r.log
    ensures LoggedOps(r'.log) == LoggedOps(r.log) + Unblocked(c, r.placement, r.front)
    ensures SwapsOf(r'.log) == SwapsOf(r.log)
    ensures mapped <==> Unblocked(c, r.placement, r.front) != []
    ensures forall k :: 0 <= k < |r.front| && Blocked(c, r.placement, r.front[k]) ==>
              && r.front[k] in r'.front
              && r.placement.phyOf[r.front[k].qubits[0]] in r'.involved
              && r.placement.phyOf[r.front[k].qubits[1]] in r'.involved
    ensures forall p :: p in r.involved ==> p in r'.involved
    ensures !mapped ==> r' == r.(involved := r'.involved)
    ensures !mapped ==> forall k :: 0 <= k < |r.front| ==> Blocked(c, r.placement, r.front[k])
  {
    var st := r;
    var newFront: seq<VirtualOp> := [];
    mapped := false;
    for i := 0 to |r.front|
      invariant FrontInvKept(c, r, i, st, newFront)
      invariant FrontInvBlocked(c, r, i, st, newFront)
      invariant FrontInvUnmapped(c, r, i, st, newFront, mapped)
    {
      var v := r.front[i];
      var st2, nf2 := FrontStep(c, st, newFront, v);
      FrontKeptStep(c, r, i, st, newFront, st2, nf2);
      FrontBlockedStep(c, r, i, st, newFront, st2, nf2);
      FrontUnmappedStep(c, r, i, st, newFront, mapped, st2, nf2);
      if !Blocked(c, r.placement, v) {
        mapped := true;
      }
      st, newFront := st2, nf2;
    }
    r' := st.(front := newFront);
    FrontLayerDone(c, r, st, newFront, mapped, r');
  }

  //===--------------------------------------------------------------------===//
  // selectExtendedLayer (Mapping.cpp:226-245)
  //===--------------------------------------------------------------------===//

  /** An op that can influence the placement: a quantum operator (not a
      measurement) on two wires. */
  predicate Influences(c: Context, v: VirtualOp)
    requires v.op < |c.block|
  {
    !IsMeasure(c.block[v.op]) && |c.block[v.op].operands| == 2
  }

  /** A well-formed layer of two-qubit non-measurements. */
  predicate ExtendedOk(c: Context, layer: seq<VirtualOp>)
    requires ValidContext(c)
  {
    LayerOk(c, layer) && forall k :: 0 <= k < |layer| ==> Influences(c, layer[k]) && |layer[k].qubits| == 2
  }

  lemma ExtendedAppend(c: Context, a: seq<VirtualOp>, b: seq<VirtualOp>)
    requires ValidContext(c) && ExtendedOk(c, a) && ExtendedOk(c, b)
    ensures ExtendedOk(c, a + b)
  {
    forall k | 0 <= k < |a + b| ensures EntryOk(c, (a + b)[k]) && Influences(c, (a + b)[k]) && |(a + b)[k].qubits| == 2 {
      if k >= |a| {
        assert (a + b)[k] == b[k - |a|];
      }
    }
  }

  /** The entries of a layer that can influence the placement, in order. */
  function Influential(c: Context, layer: seq<VirtualOp>): (ext: seq<VirtualOp>)
    requires ValidContext(c) && LayerOk(c, layer)
    ensures ExtendedOk(c, ext)
    ensures forall k :: 0 <= k < |layer| && Influences(c, layer[k]) ==> layer[k] in ext
    ensures forall v :: v in ext ==> v in layer
    decreases |layer|
  {
    if |layer| == 0 then []
    else
      var rest := Influential(c, layer[1..]);
      assert forall k :: 1 <= k < |layer| ==> layer[k] == layer[1..][k - 1];
      if Influences(c, layer[0]) then [layer[0]] + rest else rest
  }

  /** Visiting the users of each entry of `layer` in turn, starting from an
      empty layer: the router and the new layer afterwards. */
  function VisitedLayer(c: Context, r: Router, layer: seq<VirtualOp>): (res: (Router, seq<VirtualOp>))
    requires ValidContext(c)
    requires forall k :: 0 <= k < |layer| ==> layer[k].op < |c.block|
    decreases |layer|
  {
    if |layer| == 0 then (r, [])
    else
      var (r1, l1) := VisitedLayer(c, r, layer[..|layer| - 1]);
      VisitUsers(c, r1, Users(c.block, layer[|layer| - 1].op), l1)
  }

  /** Visiting a layer keeps the router invariant, changes only the visit
      counts and the measurement layer, and reaches only ops that come after
      every op of the layer. */
  lemma {:induction false} VisitedLayerOk(c: Context, r: Router, layer: seq<VirtualOp>, depth: nat)
    requires ValidContext(c) && RouterOk(c, r) && LayerOk(c, layer)
    requires forall k :: 0 <= k < |layer| ==> depth <= layer[k].op
    ensures var (r', next) := VisitedLayer(c, r, layer);
      && RouterOk(c, r') && LayerOk(c, next)
      && r' == r.(visited := r'.visited, measureLayer := r'.measureLayer, measureSet := r'.measureSet)
      && forall k :: 0 <= k < |next| ==> depth < next[k].op
    decreases |layer|
  {
    if |layer| > 0 {
      var pre := layer[..|layer| - 1];
      assert forall k :: 0 <= k < |pre| ==> pre[k] == layer[k];
      VisitedLayerOk(c, r, pre, depth);
      var (r1, l1) := VisitedLayer(c, r, pre);
      var last := layer[|layer| - 1].op;
      var us := Users(c.block, last);
      VisitKeepsRouterOk(c, r1, us, l1);
      var (r', next) := VisitUsers(c, r1, us, l1);
      forall k | 0 <= k < |next| ensures depth < next[k].op {
        if k < |l1| {
          assert next[k] == next[..|l1|][k];
        } else {
          assert next[k].op in us;
        }
      }
    }
  }

  /** The `while` loop of `selectExtendedLayer` (Mapping.cpp:230-241): while
      a layer is left and the extended layer has fewer than
      `ExtendedLayerSize` entries, visit the users of the layer and append
      the new layer's two-qubit non-measurements. The result is the router,
      the extended layer and the last layer reached; `depth` bounds the ops
      of the layer from below. */
  ghost function Expand(c: Context, r: Router, frontier: seq<VirtualOp>, ext: seq<VirtualOp>, depth: nat)
    : (res: (Router, seq<VirtualOp>, seq<VirtualOp>))
    requires ValidContext(c) && RouterOk(c, r) && LayerOk(c, frontier) && ExtendedOk(c, ext)
    requires forall k :: 0 <= k < |frontier| ==> depth <= frontier[k].op
    ensures RouterOk(c, res.0) && ExtendedOk(c, res.1) && LayerOk(c, res.2)
    ensures res.0 == r.(visited := res.0.visited, measureLayer := res.0.measureLayer, measureSet := res.0.measureSet)
    ensures |ext| <= |res.1| && res.1[..|ext|] == ext
    ensures res.2 == [] || |res.1| >= ExtendedLayerSize
    decreases |c.block| - depth
  {
    if frontier == [] || |ext| >= ExtendedLayerSize then (r, ext, frontier)
    else
      assert depth <= frontier[0].op < |c.block|;
      VisitedLayerOk(c, r, frontier, depth);
      var (r2, next) := VisitedLayer(c, r, frontier);
      ExtendedAppend(c, ext, Influential(c, next));
      var res := Expand(c, r2, next, ext + Influential(c, next), depth + 1);
      assert res.1[..|ext|] == res.1[..|ext + Influential(c, next)|][..|ext|];
      res
  }

  /** The look-ahead from a router's front layer. */
  ghost function LookAheadOf(c: Context, r: Router): (res: (Router, seq<VirtualOp>, seq<VirtualOp>))
    requires ValidContext(c) && RouterOk(c, r)
  {
    Expand(c, r, r.front, [], 0)
  }

  /** The extended layer begins with the two-qubit non-measurements among
      the ops that the front layer's users make ready. */
  lemma LookAheadStartsWithUsers(c: Context, r: Router)
    requires ValidContext(c) && RouterOk(c, r) && r.front != []
    ensures LayerOk(c, VisitedLayer(c, r, r.front).1)
    ensures var first := Influential(c, VisitedLayer(c, r, r.front).1);
      |first| <= |LookAheadOf(c, r).1| && LookAheadOf(c, r).1[..|first|] == first
  {
    VisitedLayerOk(c, r, r.front, 0);
    var first := Influential(c, VisitedLayer(c, r, r.front).1);
    assert [] + first == first;
  }

  /** The inner loop of the look-ahead: visit the users of every entry of a
      layer into a new layer. `users` is everything visited, in order. Every
      op of the new layer comes after some op of the old one. */
  method VisitLayer(c: Context, r: Router, layer: seq<VirtualOp>, ghost depth: nat)
    returns (r': Router, next: seq<VirtualOp>, users: seq<nat>)
    requires ValidContext(c) && RouterOk(c, r) && LayerOk(c, layer)
    requires forall k :: 0 <= k < |layer| ==> depth <= layer[k].op
    ensures RouterOk(c, r') && LayerOk(c, next)
    ensures r' == r.(visited := r'.visited, measureLayer := r'.measureLayer, measureSet := r'.measureSet)
    ensures forall k :: 0 <= k < |users| ==> users[k] < |c.block|
    ensures forall x :: Visits(r'.visited, x) == Visits(r.visited, x) + Count(users, x)
    ensures forall k :: 0 <= k < |next| ==> depth < next[k].op
    ensures (r', next) == VisitedLayer(c, r, layer)
  {
    r', next, users := r, [], [];
    for i := 0 to |layer|
      invariant (r', next) == VisitedLayer(c, r, layer[..i])
      invariant forall k :: 0 <= k < |users| ==> users[k] < |c.block|
      invariant forall x :: Visits(r'.visited, x) == Visits(r.visited, x) + Count(users, x)
    {
      var us := Users(c.block, layer[i].op);
      VisitCounts(c, r', us, next);
      forall x ensures Count(users + us, x) == Count(users, x) + Count(us, x) {
        CountAppend(users, us, x);
      }
      assert layer[..i + 1][..i] == layer[..i];
      var res := VisitUsers(c, r', us, next);
      r', next, users := res.0, res.1, users + us;
    }
    assert layer[..|layer|] == layer;
    VisitedLayerOk(c, r, layer, depth);
  }

  /** `visited[u] -= 1` on a counter that is at least one. */
  function Unvisit(visited: map<nat, nat>, u: nat): (visited': map<nat, nat>)
    requires Visits(visited, u) >= 1
    ensures forall x :: Visits(visited', x) == Visits(visited, x) - (if x == u then 1 else 0)
  {
    visited[u := visited[u] - 1]
  }

  /** One more element of a prefix adds one occurrence of it; what remains
      after the prefix still holds that element. */
  lemma CountPrefixStep<T>(s: seq<T>, i: nat)
    requires i < |s|
    ensures forall x :: Count(s[..i + 1], x) == Count(s[..i], x) + (if x == s[i] then 1 else 0)
    ensures Count(s[..i], s[i]) < Count(s, s[i])
  {
    assert s[..i + 1] == s[..i] + [s[i]];
    forall x ensures Count(s[..i + 1], x) == Count(s[..i], x) + (if x == s[i] then 1 else 0) {
      CountSnoc(s[..i], s[i], x);
    }
    assert s == s[..i + 1] + s[i + 1..];
    CountAppend(s[..i + 1], s[i + 1..], s[i]);
  }

  lemma CountSnoc<T>(s: seq<T>, y: T, x: T)
    ensures Count(s + [y], x) == Count(s, x) + (if x == y then 1 else 0)
  {
    CountAppend(s, [y], x);
  }

  /** The clean-up loop of the look-ahead: one decrement per recorded visit. */
  method UndoVisits(visited: map<nat, nat>, incremented: seq<nat>) returns (visited': map<nat, nat>)
    requires forall x :: Count(incremented, x) <= Visits(visited, x)
    ensures forall x :: Visits(visited', x) + Count(incremented, x) == Visits(visited, x)
  {
    visited' := visited;
    for i := 0 to |incremented|
      invariant forall x :: Visits(visited', x) + Count(incremented[..i], x) == Visits(visited, x)
    {
      CountPrefixStep(incremented, i);
      visited' := Unvisit(visited', incremented[i]);
    }
    assert incremented[..|incremented|] == incremented;
  }

  /** The look-ahead loop of `selectExtendedLayer`: starting from the front
      layer, keep visiting the users of the last layer reached, collecting
      its two-qubit non-measurements, until no layer is left or the extended
      layer has reached `ExtendedLayerSize` entries. `incremented` records
      every visit; `frontier` is the last layer reached. */
  method LookAhead(c: Context, r: Router)
    returns (st: Router, ext: seq<VirtualOp>, frontier: seq<VirtualOp>, incremented: seq<nat>)
    requires ValidContext(c) && RouterOk(c, r)
    ensures RouterOk(c, st)
    ensures st == r.(visited := st.visited, measureLayer := st.measureLayer, measureSet := st.measureSet)
    ensures forall x :: Visits(st.visited, x) == Visits(r.visited, x) + Count(incremented, x)
    ensures ExtendedOk(c, ext)
    ensures frontier == [] || |ext| >= ExtendedLayerSize
    ensures (st, ext, frontier) == LookAheadOf(c, r)
  {
    st, ext, frontier, incremented := r, [], r.front, [];
    ghost var depth: nat := 0;
    while frontier != [] && |ext| < ExtendedLayerSize
      invariant RouterOk(c, st) && LayerOk(c, frontier) && ExtendedOk(c, ext)
      invariant forall k :: 0 <= k < |frontier| ==> depth <= frontier[k].op
      invariant Expand(c, st, frontier, ext, depth) == LookAheadOf(c, r)
      invariant st == r.(visited := st.visited, measureLayer := st.measureLayer, measureSet := st.measureSet)
      invariant forall k :: 0 <= k < |frontier| ==> depth <= frontier[k].op
      invariant forall x :: Visits(st.visited, x) == Visits(r.visited, x) + Count(incremented, x)
      decreases |c.block| - depth
    {
      assert depth <= frontier[0].op < |c.block|;
      var st2, next, users := VisitLayer(c, st, frontier, depth);
      forall x ensures Count(incremented + users, x) == Count(incremented, x) + Count(users, x) {
        CountAppend(incremented, users, x);
      }
      ExtendedAppend(c, ext, Influential(c, next));
      st, incremented := st2, incremented + users;
      ext := ext + Influential(c, next);
      frontier := next;
      depth := depth + 1;
    }
  }

  /** `selectExtendedLayer`: the look-ahead, then one decrement per recorded
      visit. Every visit counter ends as it started; only the measurement
      layer may have gained measurements that became ready during the
      look-ahead. The extended layer holds only two-qubit
      non-measurements, and the look-ahead stopped early only because the
      layer had reached `ExtendedLayerSize` entries. */
  method SelectExtendedLayer(c: Context, r: Router) returns (r': Router, frontier: seq<VirtualOp>)
    requires ValidContext(c) && RouterOk(c, r)
    ensures RouterOk(c, r')
    ensures r' == r.(extended := r'.extended, visited := r'.visited, measureLayer := r'.measureLayer, measureSet := r'.measureSet)
    ensures forall x :: Visits(r'.visited, x) == Visits(r.visited, x)
    ensures ExtendedOk(c, r'.extended)
    ensures frontier == [] || |r'.extended| >= ExtendedLayerSize
    ensures var (st, ext, last) := LookAheadOf(c, r);
      && r'.extended == ext && frontier == last
      && r'.measureLayer == st.measureLayer && r'.measureSet == st.measureSet
  {
    var st, ext, incremented;
    st, ext, frontier, incremented := LookAhead(c, r);
    var visited := UndoVisits(st.visited, incremented);
    r' := st.(extended := ext, visited := visited);
  }

  //===--------------------------------------------------------------------===//
  // computeLayerCost and chooseSwap (Mapping.cpp:247-310)
  //===--------------------------------------------------------------------===//

  /** A placement of every device qubit. */
  predicate Placed(c: Context, pl: Placement)
  {
    IsBijection(pl) && Size(pl) == NumQubits(c.device)
  }

  /** A well-formed layer whose entries all have two qubits. */
  predicate PairLayer(c: Context, layer: seq<VirtualOp>)
    requires ValidContext(c)
  {
    LayerOk(c, layer) && forall k :: 0 <= k < |layer| ==> |layer[k].qubits| == 2
  }

  /** The device distance between the two qubits of an entry under pl. */
  function PairDistance(c: Context, pl: Placement, v: VirtualOp): nat
    requires ValidContext(c) && Placed(c, pl) && EntryOk(c, v) && |v.qubits| == 2
  {
    Distance(c.device, pl.phyOf[v.qubits[0]], pl.phyOf[v.qubits[1]])
  }

  /** The sum, over the entries of a layer, of their distance minus one. */
  function DistanceSum(c: Context, pl: Placement, layer: seq<VirtualOp>): real
    requires ValidContext(c) && Placed(c, pl) && PairLayer(c, layer)
    decreases |layer|
  {
    if |layer| == 0 then 0.0
    else DistanceSum(c, pl, layer[..|layer| - 1]) + ((PairDistance(c, pl, layer[|layer| - 1]) as real) - 1.0)
  }

  /** The average, over a non-empty layer, of the distance between the
      device qubits of each entry minus one. */
  function LayerCost(c: Context, pl: Placement, layer: seq<VirtualOp>): real
    requires ValidContext(c) && Placed(c, pl) && PairLayer(c, layer) && |layer| > 0
  {
    DistanceSum(c, pl, layer) / (|layer| as real)
  }

  /** `computeLayerCost`: the sum is accumulated entry by entry. */
  method ComputeLayerCost(c: Context, pl: Placement, layer: seq<VirtualOp>) returns (cost: real)
    requires ValidContext(c) && Placed(c, pl) && PairLayer(c, layer) && |layer| > 0
    ensures cost == LayerCost(c, pl, layer)
  {
    var sum := 0.0;
    for k := 0 to |layer|
      invariant sum == DistanceSum(c, pl, layer[..k])
    {
      assert layer[..k + 1][..k] == layer[..k];
      sum := sum + ((PairDistance(c, pl, layer[k]) as real) - 1.0);
    }
    assert layer[..|layer|] == layer;
    cost := sum / (|layer| as real);
  }

  /** What scoring a swap needs: the router's placement and decays cover the
      device, the front layer is a non-empty layer of pairs and the extended
      layer a layer of pairs. */
  predicate Scorable(c: Context, r: Router)
    requires ValidContext(c)
  {
    && Placed(c, r.placement) && |r.decay| == NumQubits(c.device)
    && PairLayer(c, r.front) && r.front != [] && PairLayer(c, r.extended)
  }

  predicate OnDevice(c: Context, sw: Swap)
  {
    sw.p0 < NumQubits(c.device) && sw.p1 < NumQubits(c.device)
  }

  /** The score of a candidate swap (Mapping.cpp:269-283): the front-layer
      cost under the swapped placement, scaled by the larger decay of the two
      device qubits. With a non-empty extended layer, the front cost is
      divided by the front size once more and the extended-layer cost, itself
      divided by the extended size once more, is added with weight
      `ExtendedLayerWeight`. */
  function SwapScore(c: Context, r: Router, sw: Swap): real
    requires ValidContext(c) && Scorable(c, r) && OnDevice(c, sw)
  {
    ScoreUnder(c, r, SwapPlacement(r.placement, sw.p0, sw.p1), sw)
  }

  /** The score of a swap, computed under the trial placement. */
  function ScoreUnder(c: Context, r: Router, trial: Placement, sw: Swap): real
    requires ValidContext(c) && Scorable(c, r) && OnDevice(c, sw) && Placed(c, trial)
  {
    MaxDecay(r, sw) * Combined(LayerCost(c, trial, r.front), |r.front|, ExtendedCost(c, trial, r.extended), |r.extended|)
  }

  /** `std::max` of the decays of the two device qubits. */
  function MaxDecay(r: Router, sw: Swap): real
    requires sw.p0 < |r.decay| && sw.p1 < |r.decay|
  {
    if r.decay[sw.p0] < r.decay[sw.p1] then r.decay[sw.p1] else r.decay[sw.p0]
  }

  /** The extended-layer cost, which only counts when the layer is not
      empty. */
  function ExtendedCost(c: Context, pl: Placement, extended: seq<VirtualOp>): real
    requires ValidContext(c) && Placed(c, pl) && PairLayer(c, extended)
  {
    if extended == [] then 0.0 else LayerCost(c, pl, extended)
  }

  /** The front cost alone, or with a non-empty extended layer both costs
      divided by their layer size once more and the extended one weighted. */
  function Combined(frontCost: real, frontSize: nat, extendedCost: real, extendedSize: nat): real
    requires frontSize > 0
  {
    if extendedSize == 0 then frontCost
    else frontCost / (frontSize as real) + ExtendedLayerWeight * (extendedCost / (extendedSize as real))
  }

  /** One iteration of the cost loop: swap, score, swap back. The placement
      comes back unchanged. */
  method TrialScore(c: Context, r: Router, sw: Swap) returns (cost: real, pl: Placement)
    requires ValidContext(c) && Scorable(c, r) && OnDevice(c, sw)
    ensures cost == SwapScore(c, r, sw)
    ensures pl == r.placement
  {
    pl := SwapPlacement(r.placement, sw.p0, sw.p1);
    cost := ScoreUnder(c, r, pl, sw);
    SwapTwice(r.placement, sw.p0, sw.p1);
    pl := SwapPlacement(pl, sw.p0, sw.p1);
  }

  /** The scores of a list of candidates, in order. */
  function Scores(c: Context, r: Router, candidates: seq<Swap>): (costs: seq<real>)
    requires ValidContext(c) && Scorable(c, r)
    requires forall k :: 0 <= k < |candidates| ==> OnDevice(c, candidates[k])
    ensures |costs| == |candidates|
    decreases |candidates|
  {
    if |candidates| == 0 then []
    else Scores(c, r, candidates[..|candidates| - 1]) + [SwapScore(c, r, candidates[|candidates| - 1])]
  }

  /** The cost loop of `chooseSwap`: one score per candidate, in order, each
      under a trial swap that is undone, so the placement comes back
      unchanged. */
  method ScoreCandidates(c: Context, r: Router, candidates: seq<Swap>) returns (costs: seq<real>, pl: Placement)
    requires ValidContext(c) && Scorable(c, r)
    requires forall k :: 0 <= k < |candidates| ==> OnDevice(c, candidates[k])
    ensures pl == r.placement
    ensures costs == Scores(c, r, candidates)
  {
    costs, pl := [], r.placement;
    for i := 0 to |candidates|
      invariant pl == r.placement
      invariant costs == Scores(c, r, candidates[..i])
    {
      costs, pl := ScoreNext(c, r, candidates, i, costs);
    }
    assert candidates[..|candidates|] == candidates;
  }

  method ScoreNext(c: Context, r: Router, candidates: seq<Swap>, i: nat, costs: seq<real>)
    returns (costs': seq<real>, pl: Placement)
    requires ValidContext(c) && Scorable(c, r) && i < |candidates|
    requires forall k :: 0 <= k < |candidates| ==> OnDevice(c, candidates[k])
    requires costs == Scores(c, r, candidates[..i])
    ensures pl == r.placement
    ensures costs' == Scores(c, r, candidates[..i + 1])
  {
    var cost;
    cost, pl := TrialScore(c, r, candidates[i]);
    ScoresSnoc(c, r, candidates, i);
    costs' := costs + [cost];
  }

  lemma ScoresSnoc(c: Context, r: Router, candidates: seq<Swap>, i: nat)
    requires ValidContext(c) && Scorable(c, r) && i < |candidates|
    requires forall k :: 0 <= k < |candidates| ==> OnDevice(c, candidates[k])
    ensures Scores(c, r, candidates[..i + 1]) == Scores(c, r, candidates[..i]) + [SwapScore(c, r, candidates[i])]
  {
    assert candidates[..i + 1][..i] == candidates[..i];
  }

  /** Index i holds a minimum of the costs and every earlier cost is larger. */
  predicate FirstCheapest(costs: seq<real>, i: nat)
  {
    && i < |costs|
    && (forall j :: 0 <= j < |costs| ==> costs[i] <= costs[j])
    && (forall j :: 0 <= j < i ==> costs[i] < costs[j])
  }

  /** The minimum search of `chooseSwap`: strict comparison keeps the first
      of equal costs. */
  method PickCheapest(costs: seq<real>) returns (minIdx: nat)
    requires |costs| > 0
    ensures FirstCheapest(costs, minIdx)
  {
    minIdx := 0;
    for i := 1 to |costs|
      invariant FirstCheapest(costs[..i], minIdx)
    {
      if costs[i] < costs[minIdx] {
        minIdx := i;
      }
    }
    assert costs[..|costs|] == costs;
  }

  /** The swap candidates (Mapping.cpp:259-262): every involved device qubit,
      in the given order, paired with each of its neighbours in turn. */
  function Candidates(d: Device, order: seq<nat>): (cs: seq<Swap>)
    requires ValidDevice(d) && forall k :: 0 <= k < |order| ==> order[k] < NumQubits(d)
    ensures forall k :: 0 <= k < |cs| ==>
              && cs[k].p0 in order && cs[k].p0 < NumQubits(d) && cs[k].p1 < NumQubits(d)
              && AreConnected(d, cs[k].p0, cs[k].p1)
    decreases |order|
  {
    if |order| == 0 then []
    else
      var p := order[0];
      var ns := d.neighbours[p];
      seq(|ns|, j requires 0 <= j < |ns| => Swap(p, ns[j])) + Candidates(d, order[1..])
  }

  /** Every involved device qubit is paired with every neighbour. */
  lemma {:induction false} CandidatesComplete(d: Device, order: seq<nat>, p: nat, q: nat)
    requires ValidDevice(d) && forall k :: 0 <= k < |order| ==> order[k] < NumQubits(d)
    requires p in order && p < NumQubits(d) && AreConnected(d, p, q)
    ensures Swap(p, q) in Candidates(d, order)
    decreases |order|
  {
    var ns := d.neighbours[order[0]];
    var head := seq(|ns|, j requires 0 <= j < |ns| => Swap(order[0], ns[j]));
    assert Candidates(d, order) == head + Candidates(d, order[1..]);
    if order[0] == p {
      var j :| 0 <= j < |ns| && ns[j] == q;
      assert head[j] == Swap(p, q);
    } else {
      assert p in order[1..] by {
        var k :| 0 <= k < |order| && order[k] == p;
        assert order[1..][k - 1] == p;
      }
      CandidatesComplete(d, order[1..], p, q);
    }
  }

  /** Ascending order, as a `std::set` iterates. */
  predicate Ascending(s: seq<nat>)
  {
    forall i, j :: 0 <= i < j < |s| ==> s[i] <= s[j]
  }

  function InsertAscending(s: seq<nat>, x: nat): (t: seq<nat>)
    requires Ascending(s)
    ensures Ascending(t) && multiset(t) == multiset(s) + multiset{x}
    decreases |s|
  {
    if |s| == 0 then [x]
    else if x <= s[0] then [x] + s
    else
      var rest := InsertAscending(s[1..], x);
      InsertBehindHead(s, x, rest);
      [s[0]] + rest
  }

  /** Putting the head of s in front of x inserted into the tail keeps the
      order, since the head is at most x and at most every later element. */
  lemma InsertBehindHead(s: seq<nat>, x: nat, rest: seq<nat>)
    requires Ascending(s) && |s| > 0 && s[0] < x
    requires Ascending(rest) && multiset(rest) == multiset(s[1..]) + multiset{x}
    ensures Ascending([s[0]] + rest) && multiset([s[0]] + rest) == multiset(s) + multiset{x}
  {
    assert s == [s[0]] + s[1..];
    forall k | 0 <= k < |rest| ensures s[0] <= rest[k] {
      assert rest[k] in multiset(rest);
      assert rest[k] == x || rest[k] in multiset(s[1..]);
    }
  }

  function SortAscending(s: seq<nat>): (t: seq<nat>)
    ensures Ascending(t) && multiset(t) == multiset(s)
    decreases |s|
  {
    if |s| == 0 then []
    else
      assert s == s[..|s| - 1] + [s[|s| - 1]];
      InsertAscending(SortAscending(s[..|s| - 1]), s[|s| - 1])
  }

  /** The iteration order of `llvm::SmallSet<_, 32>` over the involved
      device qubits, kept in insertion order: insertion order while the set
      is small (at most 32 elements), ascending order once it has moved to
      its `std::set`. */
  function InvolvedOrder(involved: seq<nat>): (order: seq<nat>)
    ensures multiset(order) == multiset(involved)
    ensures forall p :: p in order <==> p in involved
    ensures forall k :: 0 <= k < |order| ==> order[k] in involved
    ensures |involved| > 32 ==> Ascending(order)
  {
    if |involved| <= 32 then involved
    else
      var order := SortAscending(involved);
      assert forall p :: p in order <==> p in involved by {
        forall p ensures p in order <==> p in involved {
          assert p in order <==> p in multiset(order);
          assert p in involved <==> p in multiset(involved);
        }
      }
      order
  }

  /** The swap `chooseSwap` settles on among the candidates: the first of
      minimum score. */
  ghost predicate CheapestChoice(c: Context, r: Router, candidates: seq<Swap>, sw: Swap)
    requires ValidContext(c) && Scorable(c, r)
    requires forall k :: 0 <= k < |candidates| ==> OnDevice(c, candidates[k])
  {
    exists i: nat :: i < |candidates| && FirstCheapest(Scores(c, r, candidates), i) && sw == candidates[i]
  }

  /** The cost loop and minimum search of `chooseSwap` (Mapping.cpp:269-289,
      309). */
  method PickSwap(c: Context, r: Router, candidates: seq<Swap>) returns (sw: Swap)
    requires ValidContext(c) && Scorable(c, r) && candidates != []
    requires forall k :: 0 <= k < |candidates| ==> OnDevice(c, candidates[k])
    ensures CheapestChoice(c, r, candidates, sw)
    ensures sw in candidates
  {
    var costs, pl := ScoreCandidates(c, r, candidates);
    var minIdx := PickCheapest(costs);
    sw := candidates[minIdx];
  }

  /** The swap candidates of a router. */
  function RouterCandidates(c: Context, r: Router): (cs: seq<Swap>)
    requires ValidContext(c) && RouterOk(c, r)
    ensures forall k :: 0 <= k < |cs| ==>
              && cs[k].p0 in r.involved && OnDevice(c, cs[k])
              && AreConnected(c.device, cs[k].p0, cs[k].p1)
  {
    Candidates(c.device, InvolvedOrder(r.involved))
  }

  /** `chooseSwap`: the candidates are paired from the involved device
      qubits in `SmallSet` order; after the look-ahead, each candidate is
      scored and the first of minimum score wins. Only the look-ahead changes
      the router. With no candidate at all there is nothing to choose. */
  method ChooseSwap(c: Context, r: Router) returns (r': Router, choice: Option<Swap>)
    requires ValidContext(c) && RouterOk(c, r) && PairLayer(c, r.front) && r.front != []
    ensures RouterOk(c, r') && ExtendedOk(c, r'.extended) && Scorable(c, r')
    ensures r' == r.(extended := r'.extended, visited := r'.visited, measureLayer := r'.measureLayer, measureSet := r'.measureSet)
    ensures forall x :: Visits(r'.visited, x) == Visits(r.visited, x)
    ensures var (st, ext, _) := LookAheadOf(c, r);
      r'.extended == ext && r'.measureLayer == st.measureLayer && r'.measureSet == st.measureSet
    ensures choice.None? <==> RouterCandidates(c, r) == []
    ensures choice.Some? ==>
              && CheapestChoice(c, r', RouterCandidates(c, r), choice.value)
              && choice.value.p0 in r.involved && OnDevice(c, choice.value)
              && AreConnected(c.device, choice.value.p0, choice.value.p1)
  {
    var candidates := RouterCandidates(c, r);
    var frontier;
    r', frontier := SelectExtendedLayer(c, r);
    if candidates == [] {
      choice := None;
    } else {
      var sw := PickSwap(c, r', candidates);
      choice := Some(sw);
    }
  }

  //===--------------------------------------------------------------------===//
  // route (Mapping.cpp:312-389)
  //===--------------------------------------------------------------------===//

  /** `addSwap`: the two device qubits trade virtual qubits, a swap is
      inserted on their current wires, and its two fresh result wires become
      the wires of the two device qubits. */
  function AddSwap(c: Context, r: Router, sw: Swap): (r': Router)
    requires ValidContext(c) && RouterOk(c, r) && OnDevice(c, sw) && AreConnected(c.device, sw.p0, sw.p1)
    ensures RouterOk(c, r')
    ensures r' == r.(placement := r'.placement, phyToWire := r'.phyToWire, nextWire := r'.nextWire, log := r'.log)
    ensures r'.placement == SwapPlacement(r.placement, sw.p0, sw.p1)
    ensures r'.placement.virtOf[sw.p0] == r.placement.virtOf[sw.p1]
    ensures r'.placement.virtOf[sw.p1] == r.placement.virtOf[sw.p0]
    ensures r'.phyToWire[sw.p0] == Some(r.nextWire) && r'.phyToWire[sw.p1] == Some(r.nextWire + 1)
    ensures forall p :: 0 <= p < |r.phyToWire| && p != sw.p0 && p != sw.p1 ==> r'.phyToWire[p] == r.phyToWire[p]
    ensures |r.log| < |r'.log| && r'.log[..|r.log|] == r.log
    ensures r'.log[|r.log|].InsertedSwap? && r'.log[|r.log|].inputs == [r.phyToWire[sw.p0], r.phyToWire[sw.p1]]
    ensures SwapsOf(r'.log) == SwapsOf(r.log) + [sw] && LoggedOps(r'.log) == LoggedOps(r.log)
    ensures r'.nextWire == r.nextWire + 2
  {
    var e := InsertedSwap(sw.p0, sw.p1, [r.phyToWire[sw.p0], r.phyToWire[sw.p1]], [r.nextWire, r.nextWire + 1]);
    LogOkAppend(c, r.log, e);
    LoggedOpsAppend(r.log, e);
    assert (r.log + [e])[..|r.log|] == r.log;
    r.(placement := SwapPlacement(r.placement, sw.p0, sw.p1),
       phyToWire := r.phyToWire[sw.p0 := Some(r.nextWire)][sw.p1 := Some(r.nextWire + 1)],
       nextWire := r.nextWire + 2,
       log := r.log + [e])
  }

  /** The decay update after a swap. The search counter is a `uint32_t`
      (Mapping.cpp:350, 375): it is counted up here rather than before the
      swap is chosen, which nothing in between reads. Every
      `RoundsDecayReset`-th search resets all decays to 1.0; otherwise both
      swapped device qubits' decays grow by `DecayDelta`. The decays stay
      within the bound that `DecayOk` states. */
  function Decayed(r: Router, sw: Swap): (r': Router)
    requires DecayOk(r) && sw.p0 < |r.decay| && sw.p1 < |r.decay| && sw.p0 != sw.p1
    ensures DecayOk(r') && |r'.decay| == |r.decay|
    ensures r' == r.(searches := r'.searches, decay := r'.decay)
    ensures r'.searches == (r.searches + 1) % U32Modulus
    ensures r'.searches % RoundsDecayReset == 0 ==> forall p :: 0 <= p < |r.decay| ==> r'.decay[p] == 1.0
    ensures r'.searches % RoundsDecayReset != 0 ==>
              && r'.decay[sw.p0] == r.decay[sw.p0] + DecayDelta && r'.decay[sw.p1] == r.decay[sw.p1] + DecayDelta
              && forall p :: 0 <= p < |r.decay| && p != sw.p0 && p != sw.p1 ==> r'.decay[p] == r.decay[p]
  {
    var searches := (r.searches + 1) % U32Modulus;
    if searches % RoundsDecayReset == 0 then
      r.(searches := searches, decay := seq(|r.decay|, _ => 1.0))
    else
      assert searches == r.searches + 1 && searches % RoundsDecayReset == r.searches % RoundsDecayReset + 1;
      r.(searches := searches,
         decay := r.decay[sw.p0 := r.decay[sw.p0] + DecayDelta][sw.p1 := r.decay[sw.p1] + DecayDelta])
  }

  /** Swaps on connected device qubits. */
  predicate SwapsOk(c: Context, swaps: seq<Swap>)
    requires ValidContext(c)
  {
    forall k :: 0 <= k < |swaps| ==> OnDevice(c, swaps[k]) && AreConnected(c.device, swaps[k].p0, swaps[k].p1)
  }

  /** A placement after a list of swaps, applied in order. */
  function ReplaySwaps(c: Context, pl: Placement, swaps: seq<Swap>): (r: Placement)
    requires ValidContext(c) && Placed(c, pl) && SwapsOk(c, swaps)
    ensures Placed(c, r)
    decreases |swaps|
  {
    if |swaps| == 0 then pl
    else
      var last := swaps[|swaps| - 1];
      SwapPlacement(ReplaySwaps(c, pl, swaps[..|swaps| - 1]), last.p0, last.p1)
  }

  lemma ReplayAppend(c: Context, pl: Placement, swaps: seq<Swap>, inserted: seq<Swap>)
    requires ValidContext(c) && Placed(c, pl) && SwapsOk(c, swaps) && SwapsOk(c, inserted) && |inserted| <= 1
    ensures SwapsOk(c, swaps + inserted)
    ensures ReplaySwaps(c, pl, swaps + inserted) == ReplaySwaps(c, ReplaySwaps(c, pl, swaps), inserted)
  {
    if |inserted| == 0 {
      assert swaps + inserted == swaps;
    } else {
      var all := swaps + inserted;
      assert all[..|swaps|] == swaps;
      assert inserted[..0] == [];
    }
  }

  /** How routing ends: with everything routed, stalled with no swap
      candidate, or (for the loop) with the fuel exhausted. */
  datatype Outcome = Routed | Stalled | OutOfFuel

  /** A device qubit is never its own neighbour. */
  lemma ConnectedApart(c: Context, sw: Swap)
    requires ValidContext(c) && OnDevice(c, sw) && AreConnected(c.device, sw.p0, sw.p1)
    ensures sw.p0 != sw.p1
  {
    var k :| 0 <= k < |c.device.neighbours[sw.p0]| && c.device.neighbours[sw.p0][k] == sw.p1;
  }

  /** The state change after a chosen swap (Mapping.cpp:375-386): the swap is
      inserted, the involved set is cleared and the decays move on. */
  function ApplySwap(c: Context, r: Router, sw: Swap): (r': Router)
    requires ValidContext(c) && RouterOk(c, r) && OnDevice(c, sw) && AreConnected(c.device, sw.p0, sw.p1)
    ensures RouterOk(c, r')
    ensures |r.log| <= |r'.log| && r'.log[..|r.log|] == r.log
    ensures SwapsOf(r'.log) == SwapsOf(r.log) + [sw] && LoggedOps(r'.log) == LoggedOps(r.log)
    ensures r'.placement == SwapPlacement(r.placement, sw.p0, sw.p1)
    ensures r'.front == r.front && r'.involved == []
  {
    ConnectedApart(c, sw);
    var added := AddSwap(c, r, sw);
    ClearedOk(c, added);
    DecayedOk(c, added.(involved := []), sw);
    Decayed(added.(involved := []), sw)
  }

  lemma ClearedOk(c: Context, r: Router)
    requires ValidContext(c) && RouterOk(c, r)
    ensures RouterOk(c, r.(involved := []))
  {
  }

  lemma DecayedOk(c: Context, r: Router, sw: Swap)
    requires ValidContext(c) && RouterOk(c, r) && OnDevice(c, sw) && sw.p0 != sw.p1
    ensures RouterOk(c, Decayed(r, sw))
  {
  }

  lemma ReplayOne(c: Context, pl: Placement, sw: Swap)
    requires ValidContext(c) && Placed(c, pl) && OnDevice(c, sw) && AreConnected(c.device, sw.p0, sw.p1)
    ensures SwapsOk(c, [sw])
    ensures ReplaySwaps(c, pl, [sw]) == SwapPlacement(pl, sw.p0, sw.p1)
  {
    assert [sw][..0] == [];
  }

  /** The swap branch of a round (Mapping.cpp:374-386): choose a swap,
      insert it, clear the involved set, update the decays. */
  method SwapRound(c: Context, r: Router) returns (stalled: bool, r': Router, inserted: seq<Swap>)
    requires ValidContext(c) && RouterOk(c, r) && PairLayer(c, r.front) && r.front != []
    ensures RouterOk(c, r')
    ensures |r.log| <= |r'.log| && r'.log[..|r.log|] == r.log
    ensures SwapsOf(r'.log) == SwapsOf(r.log) + inserted && SwapsOk(c, inserted)
    ensures LoggedOps(r'.log) == LoggedOps(r.log)
    ensures r'.placement == ReplaySwaps(c, r.placement, inserted)
    ensures r'.front == r.front
    ensures stalled <==> inserted == []
    ensures !stalled ==> |inserted| == 1 && inserted[0].p0 in r.involved && r'.involved == []
  {
    var choice;
    r', choice := ChooseSwap(c, r);
    if choice.None? {
      return true, r', [];
    }
    var sw := choice.value;
    ReplayOne(c, r.placement, sw);
    r' := ApplySwap(c, r', sw);
    stalled, inserted := false, [sw];
  }

  /** A front layer in which every entry is blocked is a layer of pairs. */
  lemma BlockedArePairs(c: Context, r: Router)
    requires ValidContext(c) && FrontPlaced(c, r)
    requires forall k :: 0 <= k < |r.front| ==> Blocked(c, r.placement, r.front[k])
    ensures PairLayer(c, r.front)
  {
  }

  /** The empty-front-layer branch taken the first time (Mapping.cpp:354-362):
      the held-back measurements become the front layer. */
  function ReleaseMeasurements(c: Context, r: Router): (r': Router)
    requires ValidContext(c) && RouterOk(c, r) && !r.allowMeasure
    ensures RouterOk(c, r') && r'.allowMeasure && r'.measureLayer == []
    ensures r'.front == r.measureLayer
  {
    r.(front := r.measureLayer, measureLayer := [], allowMeasure := true)
  }

  /** A round with a non-empty front layer (Mapping.cpp:369-386): map what
      can be mapped, and insert a swap if nothing could. */
  method AdvanceFront(c: Context, r: Router) returns (stalled: bool, r': Router, inserted: seq<Swap>)
    requires ValidContext(c) && RouterOk(c, r) && r.front != []
    ensures RouterOk(c, r')
    ensures |r.log| <= |r'.log| && r'.log[..|r.log|] == r.log
    ensures SwapsOf(r'.log) == SwapsOf(r.log) + inserted && SwapsOk(c, inserted) && |inserted| <= 1
    ensures r'.placement == ReplaySwaps(c, r.placement, inserted)
    ensures stalled ==> r'.front != [] && inserted == []
  {
    var mapped;
    mapped, r' := MapFrontLayer(c, r);
    if mapped {
      return false, r', [];
    }
    BlockedArePairs(c, r');
    stalled, r', inserted := SwapRound(c, r');
  }

  /** One round of the route loop. On an empty front layer the first time,
      the held-back measurements become the front layer and measurements are
      allowed; the second time, routing is done. Otherwise the front layer is
      mapped, and if nothing could be mapped a swap is inserted. */
  method RouteRound(c: Context, r: Router) returns (outcome: Option<Outcome>, r': Router, inserted: seq<Swap>)
    requires ValidContext(c) && RouterOk(c, r)
    ensures RouterOk(c, r')
    ensures |r.log| <= |r'.log| && r'.log[..|r.log|] == r.log
    ensures SwapsOf(r'.log) == SwapsOf(r.log) + inserted && SwapsOk(c, inserted) && |inserted| <= 1
    ensures r'.placement == ReplaySwaps(c, r.placement, inserted)
    ensures outcome == Some(Routed) <==> r.front == [] && r.allowMeasure
    ensures outcome == Some(Routed) ==> r' == r
    ensures r.front == [] && !r.allowMeasure ==> outcome.None? && r' == ReleaseMeasurements(c, r)
    ensures outcome == Some(Stalled) ==> r'.front != []
    ensures outcome != Some(OutOfFuel)
  {
    if r.front == [] {
      if r.allowMeasure {
        return Some(Routed), r, [];
      }
      return None, ReleaseMeasurements(c, r), [];
    }
    var stalled;
    stalled, r', inserted := AdvanceFront(c, r);
    outcome := if stalled then Some(Stalled) else None;
  }

  lemma PrefixChain<T>(a: seq<T>, b: seq<T>, d: seq<T>)
    requires |a| <= |b| && b[..|a|] == a && |b| <= |d| && d[..|b|] == b
    ensures |a| <= |d| && d[..|a|] == a
  {
    assert d[..|a|] == d[..|b|][..|a|];
  }

  /** What the route loop keeps between rounds: the router invariant, the
      original log as a prefix, the inserted swaps in order, and the
      placement they produce. */
  predicate RoutedFrom(c: Context, r: Router, r': Router, swaps: seq<Swap>)
    requires ValidContext(c) && RouterOk(c, r)
  {
    && RouterOk(c, r')
    && |r.log| <= |r'.log| && r'.log[..|r.log|] == r.log
    && SwapsOf(r'.log) == SwapsOf(r.log) + swaps && SwapsOk(c, swaps)
    && r'.placement == ReplaySwaps(c, r.placement, swaps)
  }

  /** One round of the loop keeps what the loop keeps. */
  method LoopRound(c: Context, r: Router, cur: Router, swaps: seq<Swap>)
    returns (outcome: Option<Outcome>, r': Router, swaps': seq<Swap>)
    requires ValidContext(c) && RouterOk(c, r) && RoutedFrom(c, r, cur, swaps)
    ensures RoutedFrom(c, r, r', swaps')
    ensures outcome == Some(Routed) <==> cur.front == [] && cur.allowMeasure
    ensures outcome == Some(Routed) ==> r' == cur
    ensures outcome == Some(Stalled) ==> r'.front != []
    ensures outcome != Some(OutOfFuel)
  {
    var inserted;
    outcome, r', inserted := RouteRound(c, cur);
    PrefixChain(r.log, cur.log, r'.log);
    ReplayAppend(c, r.placement, swaps, inserted);
    AppendAssociates(SwapsOf(r.log), swaps, inserted);
    swaps' := swaps + inserted;
  }

  /** The `while (!done)` loop of `route`, given at most `fuel` rounds. It
      stops when everything is routed, when no swap candidate is left, or
      when the fuel runs out. The swaps it inserts are logged in order and
      the final placement is the initial one after those swaps. Once routed,
      both the front and the measurement layer are empty. */
  method RouteLoop(c: Context, r: Router, fuel: nat) returns (outcome: Outcome, r': Router, swaps: seq<Swap>)
    requires ValidContext(c) && RouterOk(c, r)
    ensures RoutedFrom(c, r, r', swaps)
    ensures outcome == Routed ==> r'.front == [] && r'.measureLayer == [] && r'.allowMeasure
    ensures outcome == Stalled ==> r'.front != []
  {
    r', swaps := r, [];
    assert r.log[..|r.log|] == r.log;
    var f := fuel;
    while f > 0
      invariant RoutedFrom(c, r, r', swaps)
      decreases f
    {
      var o;
      o, r', swaps := LoopRound(c, r, r', swaps);
      if o.Some? {
        return o.value, r', swaps;
      }
      f := f - 1;
    }
    outcome := OutOfFuel;
  }

  //===--------------------------------------------------------------------===//
  // Sources (Mapping.cpp:330-335)
  //===--------------------------------------------------------------------===//

  /** A source: a `quake.null_wire` op whose wire has a virtual qubit. */
  predicate IsSource(c: Context, s: nat)
    requires ValidContext(c)
  {
    s < |c.block| && c.block[s].kind == NullWire && c.block[s].results[0] in c.wireMap
  }

  function SourceWire(c: Context, s: nat): Wire
    requires ValidContext(c) && IsSource(c, s)
  {
    c.block[s].results[0]
  }

  function SourceQubit(c: Context, s: nat): (v: nat)
    requires ValidContext(c) && IsSource(c, s)
    ensures v < NumQubits(c.device)
  {
    c.wireMap[SourceWire(c, s)]
  }

  /** A new front layer and wire table of the right size keep the router
      invariant. */
  lemma RouterOkReseated(c: Context, r: Router, front: seq<VirtualOp>, table: seq<Option<Wire>>)
    requires ValidContext(c) && RouterOk(c, r) && LayerOk(c, front) && |table| == |r.phyToWire|
    ensures RouterOk(c, r.(front := front, phyToWire := table))
  {
  }

  /** One source: its users are visited into the front layer and its wire
      becomes the wire of the device qubit holding its virtual qubit. */
  method SeedOne(c: Context, r: Router, s: nat) returns (r': Router)
    requires ValidContext(c) && RouterOk(c, r) && IsSource(c, s)
    ensures RouterOk(c, r')
    ensures r' == r.(front := r'.front, phyToWire := r'.phyToWire, visited := r'.visited,
                     measureLayer := r'.measureLayer, measureSet := r'.measureSet)
    ensures ExtendsBy(c, r.front, r'.front, Users(c.block, s))
    ensures r'.phyToWire == r.phyToWire[r.placement.phyOf[SourceQubit(c, s)] := Some(SourceWire(c, s))]
  {
    var users := Users(c.block, s);
    VisitKeepsRouterOk(c, r, users, r.front);
    var (r1, front) := VisitUsers(c, r, users, r.front);
    var p := r.placement.phyOf[SourceQubit(c, s)];
    var table := r1.phyToWire[p := Some(SourceWire(c, s))];
    RouterOkReseated(c, r1, front, table);
    r' := r1.(front := front, phyToWire := table);
  }

  /** The sources' virtual qubits are pairwise distinct, as the driver
      numbers them. */
  predicate SourcesOk(c: Context, sources: seq<nat>)
    requires ValidContext(c)
  {
    && (forall k :: 0 <= k < |sources| ==> IsSource(c, sources[k]))
    && (forall j, k :: 0 <= j < k < |sources| ==> SourceQubit(c, sources[j]) != SourceQubit(c, sources[k]))
  }

  /** The wire table after seeding the first i sources: each of them on the
      device qubit of its virtual qubit, every other device qubit as
      before. */
  predicate SeededWires(c: Context, r: Router, sources: seq<nat>, i: nat, table: seq<Option<Wire>>)
    requires ValidContext(c) && RouterOk(c, r) && SourcesOk(c, sources) && i <= |sources|
  {
    && |table| == |r.phyToWire|
    && (forall k :: 0 <= k < i ==> table[r.placement.phyOf[SourceQubit(c, sources[k])]] == Some(SourceWire(c, sources[k])))
    && (forall p :: 0 <= p < |table| && (forall k :: 0 <= k < i ==> p != r.placement.phyOf[SourceQubit(c, sources[k])]) ==>
          table[p] == r.phyToWire[p])
  }

  lemma SeededStep(c: Context, r: Router, sources: seq<nat>, i: nat, table: seq<Option<Wire>>)
    requires ValidContext(c) && RouterOk(c, r) && SourcesOk(c, sources) && i < |sources|
    requires SeededWires(c, r, sources, i, table)
    ensures SeededWires(c, r, sources, i + 1, table[r.placement.phyOf[SourceQubit(c, sources[i])] := Some(SourceWire(c, sources[i]))])
  {
    var q := SourceQubit(c, sources[i]);
    forall k | 0 <= k < i
      ensures r.placement.phyOf[SourceQubit(c, sources[k])] != r.placement.phyOf[q]
    {
      PlacementInjective(r.placement, SourceQubit(c, sources[k]), q);
    }
  }

  /** The source loop of `route`: every source's users are visited into the
      front layer, and every source's wire is recorded for the device qubit
      holding its virtual qubit. Nothing else changes. */
  method SeedSources(c: Context, r: Router, sources: seq<nat>) returns (r': Router)
    requires ValidContext(c) && RouterOk(c, r) && SourcesOk(c, sources)
    ensures RouterOk(c, r')
    ensures r' == r.(front := r'.front, phyToWire := r'.phyToWire, visited := r'.visited,
                     measureLayer := r'.measureLayer, measureSet := r'.measureSet)
    ensures SeededWires(c, r, sources, |sources|, r'.phyToWire)
    ensures |r.front| <= |r'.front| && r'.front[..|r.front|] == r.front
  {
    r' := r;
    assert r.front[..|r.front|] == r.front;
    for i := 0 to |sources|
      invariant RouterOk(c, r')
      invariant r' == r.(front := r'.front, phyToWire := r'.phyToWire, visited := r'.visited,
                         measureLayer := r'.measureLayer, measureSet := r'.measureSet)
      invariant SeededWires(c, r, sources, i, r'.phyToWire)
      invariant |r.front| <= |r'.front| && r'.front[..|r.front|] == r.front
    {
      SeededStep(c, r, sources, i, r'.phyToWire);
      var prev := r'.front;
      r' := SeedOne(c, r', sources[i]);
      PrefixChain(r.front, prev, r'.front);
    }
  }

  /** `SabreRouter::route`: seed the front layer from the sources, then run
      the loop. The log shows the mapped ops and inserted swaps; every
      mapped two-qubit gate sits on connected device qubits and every swap
      acts on connected device qubits. The final placement is the initial
      one after the inserted swaps. */
  method Route(c: Context, r: Router, sources: seq<nat>, fuel: nat) returns (outcome: Outcome, r': Router, swaps: seq<Swap>)
    requires ValidContext(c) && RouterOk(c, r) && SourcesOk(c, sources)
    ensures RouterOk(c, r') && LogOk(c, r'.log)
    ensures |r.log| <= |r'.log| && r'.log[..|r.log|] == r.log
    ensures SwapsOf(r'.log) == SwapsOf(r.log) + swaps && SwapsOk(c, swaps)
    ensures r'.placement == ReplaySwaps(c, r.placement, swaps)
    ensures outcome == Routed ==> r'.front == [] && r'.measureLayer == [] && r'.allowMeasure
    ensures outcome == Stalled ==> r'.front != []
  {
    var seeded := SeedSources(c, r, sources);
    outcome, r', swaps := RouteLoop(c, seeded, fuel);
  }

  /** The router the constructor builds (Mapping.cpp:64-67) for a placement
      of the device's qubits satisfies the router invariant: decays 1.0, no
      wires yet, empty layers, measurements held back. */
  lemma NewRouterOk(c: Context, pl: Placement, nextWire: Wire)
    requires ValidContext(c) && Placed(c, pl)
    ensures RouterOk(c, NewRouter(pl, NumQubits(c.device), nextWire))
    ensures !NewRouter(pl, NumQubits(c.device), nextWire).allowMeasure
  {
    var r := NewRouter(pl, NumQubits(c.device), nextWire);
    assert OpsOf(r.measureLayer) == [];
  }
}
