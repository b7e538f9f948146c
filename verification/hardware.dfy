/** The target device and the virtual-to-device qubit placement the router
    works with. Their C++ definitions (`cudaq/Support/Device.h`,
    `cudaq/Support/Placement.h`) are not part of this model: a device is
    given by its neighbour lists and a distance table, and a placement by the
    two directions of a bijection. */
module Hardware {

  /** A device: the neighbours of each device qubit, in the order
      `getNeighbours` reports them, and the distance between every pair. */
  datatype Device = Device(neighbours: seq<seq<nat>>, distance: seq<seq<nat>>)

  function NumQubits(d: Device): nat
  {
    |d.neighbours|
  }

  predicate AreConnected(d: Device, p: nat, q: nat)
    requires p < NumQubits(d)
  {
    q in d.neighbours[p]
  }

  /** A coherent device: neighbours are device qubits other than the qubit
      itself, connectivity is symmetric and the distance table is square. */
  predicate ValidDevice(d: Device)
  {
    && |d.distance| == NumQubits(d)
    && (forall p :: 0 <= p < NumQubits(d) ==> |d.distance[p]| == NumQubits(d))
    && (forall p, k :: 0 <= p < NumQubits(d) && 0 <= k < |d.neighbours[p]| ==>
          d.neighbours[p][k] < NumQubits(d) && d.neighbours[p][k] != p)
    && (forall p, q :: 0 <= p < NumQubits(d) && 0 <= q < NumQubits(d) ==>
          (AreConnected(d, p, q) <==> AreConnected(d, q, p)))
  }

  function Distance(d: Device, p: nat, q: nat): nat
    requires ValidDevice(d) && p < NumQubits(d) && q < NumQubits(d)
  {
    d.distance[p][q]
  }

  /** The device every unknown name selects: it has no qubits. */
  const EmptyDevice: Device := Device([], [])

  /** A placement of virtual qubits on device qubits: `phyOf[v]` is the device
      qubit holding virtual qubit v and `virtOf[p]` the virtual qubit on
      device qubit p. */
  datatype Placement = Placement(phyOf: seq<nat>, virtOf: seq<nat>)

  function Size(pl: Placement): nat
  {
    |pl.phyOf|
  }

  /** The two directions are inverse to each other. */
  predicate IsBijection(pl: Placement)
  {
    && |pl.virtOf| == |pl.phyOf|
    && (forall v :: 0 <= v < |pl.phyOf| ==> pl.phyOf[v] < |pl.virtOf| && pl.virtOf[pl.phyOf[v]] == v)
    && (forall p :: 0 <= p < |pl.virtOf| ==> pl.virtOf[p] < |pl.phyOf| && pl.phyOf[pl.virtOf[p]] == p)
  }

  /** The placement `identityPlacement` builds (Mapping.cpp:40-43): virtual
      qubit i on device qubit i. */
  function IdentityPlacement(n: nat): (pl: Placement)
    ensures IsBijection(pl) && Size(pl) == n
    ensures forall v :: 0 <= v < n ==> pl.phyOf[v] == v && pl.virtOf[v] == v
  {
    Placement(seq(n, i => i), seq(n, i => i))
  }

  /** `Placement::swap`: the virtual qubits on device qubits p0 and p1 trade
      places. */
  function SwapPlacement(pl: Placement, p0: nat, p1: nat): (r: Placement)
    requires IsBijection(pl) && p0 < Size(pl) && p1 < Size(pl)
    ensures IsBijection(r) && Size(r) == Size(pl)
    ensures r.phyOf[pl.virtOf[p0]] == p1 && r.phyOf[pl.virtOf[p1]] == p0
    ensures r.virtOf[p0] == pl.virtOf[p1] && r.virtOf[p1] == pl.virtOf[p0]
    ensures forall v :: 0 <= v < Size(pl) && v != pl.virtOf[p0] && v != pl.virtOf[p1] ==>
              r.phyOf[v] == pl.phyOf[v]
  {
    var v0, v1 := pl.virtOf[p0], pl.virtOf[p1];
    var r := Placement(pl.phyOf[v0 := p1][v1 := p0], pl.virtOf[p0 := v1][p1 := v0]);
    assert IsBijection(r) by {
      forall v | 0 <= v < |r.phyOf|
        ensures r.phyOf[v] < |r.virtOf| && r.virtOf[r.phyOf[v]] == v
      {
        if v != v0 && v != v1 {
          assert pl.phyOf[v] != p0 && pl.phyOf[v] != p1;
        }
      }
      forall p | 0 <= p < |r.virtOf|
        ensures r.virtOf[p] < |r.phyOf| && r.phyOf[r.virtOf[p]] == p
      {
        if p != p0 && p != p1 {
          assert pl.virtOf[p] != v0 && pl.virtOf[p] != v1;
        }
      }
    }
    r
  }

  /** Swapping the same pair twice restores the placement: a trial swap that
      is undone leaves no trace. */
  lemma SwapTwice(pl: Placement, p0: nat, p1: nat)
    requires IsBijection(pl) && p0 < Size(pl) && p1 < Size(pl)
    ensures SwapPlacement(SwapPlacement(pl, p0, p1), p0, p1) == pl
  {
    var r := SwapPlacement(pl, p0, p1);
    var s := SwapPlacement(r, p0, p1);
    assert s.phyOf == pl.phyOf by {
      forall v | 0 <= v < Size(pl) ensures s.phyOf[v] == pl.phyOf[v] {
        if v == pl.virtOf[p0] || v == pl.virtOf[p1] {
        } else {
          assert v != r.virtOf[p0] && v != r.virtOf[p1];
        }
      }
    }
    assert s.virtOf == pl.virtOf;
  }

  /** A bijection places distinct virtual qubits on distinct device qubits. */
  lemma PlacementInjective(pl: Placement, v: nat, w: nat)
    requires IsBijection(pl) && v < Size(pl) && w < Size(pl) && v != w
    ensures pl.phyOf[v] != pl.phyOf[w]
  {
    assert pl.virtOf[pl.phyOf[v]] == v && pl.virtOf[pl.phyOf[w]] == w;
  }
}
