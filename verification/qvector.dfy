/** The owning qudit container `cudaq::qvector` (runtime/cudaq/qis/qvector.h):
    construction, size, the non-owning `front`/`back`/`slice` views and
    `clear`. Qudit ids are handed out by the execution manager, which is not
    part of this model: constructors receive the ids it would hand out. */
module QVector {
  import opened Common

  type QuditId = nat

  /** A qvector is the sequence of its qudits, in index order. */
  datatype QVector = QVector(qudits: seq<QuditId>)

  /** A `qview` is a non-owning window onto consecutive qudits. */
  type QView = seq<QuditId>

  datatype StateError = EmptyVector | NotPowerOfTwo | InvalidNorm

  function Size(q: QVector): nat { |q.qudits| }

  /** `qvector(size)`: `size` qudits in the |0> state. */
  function WithSize(size: nat, ids: seq<QuditId>): (q: QVector)
    requires |ids| == size
    ensures Size(q) == size
    ensures q.qudits == ids
  {
    QVector(ids)
  }

  /** The nullary constructor holds exactly one qudit. */
  function Nullary(id: QuditId): (q: QVector)
    ensures Size(q) == 1
    ensures q.qudits == [id]
  {
    QVector([id])
  }

  /** `front(count)`: the qudits at indices [0, count). */
  function Front(q: QVector, count: nat): (v: QView)
    requires count <= Size(q)
    ensures |v| == count
    ensures forall i :: 0 <= i < count ==> v[i] == q.qudits[i]
  {
    q.qudits[..count]
  }

  /** `back(count)`: the qudits at indices [size - count, size). */
  function Back(q: QVector, count: nat): (v: QView)
    requires count <= Size(q)
    ensures |v| == count
    ensures forall i :: 0 <= i < count ==> v[i] == q.qudits[Size(q) - count + i]
  {
    q.qudits[Size(q) - count..]
  }

  /** `slice(start, len)`: the qudits at indices [start, start + len). */
  function Slice(q: QVector, start: nat, len: nat): (v: QView)
    requires start + len <= Size(q)
    ensures |v| == len
    ensures forall i :: 0 <= i < len ==> v[i] == q.qudits[start + i]
  {
    q.qudits[start..start + len]
  }

  /** `clear()`: destroys every qudit. */
  function Clear(q: QVector): (r: QVector)
    ensures Size(r) == 0
  {
    QVector([])
  }

  /** The three views agree: `front` and `back` are slices anchored at either
      end, and a front and the complementary back make up the whole vector. */
  lemma ViewsAgree(q: QVector, k: nat)
    requires k <= Size(q)
    ensures Front(q, k) == Slice(q, 0, k)
    ensures Back(q, k) == Slice(q, Size(q) - k, k)
    ensures Front(q, k) + Back(q, Size(q) - k) == q.qudits
  {
  }

  /** A slice of a slice is a slice of the vector. */
  lemma SliceOfSlice(q: QVector, s: nat, n: nat, s2: nat, n2: nat)
    requires s + n <= Size(q) && s2 + n2 <= n
    ensures QVector(Slice(q, s, n)).qudits[s2..s2 + n2] == Slice(q, s + s2, n2)
  {
  }

  function Pow2(k: nat): (r: nat)
    ensures r >= 1
  {
    if k == 0 then 1 else 2 * Pow2(k - 1)
  }

  /** The truncated base-2 logarithm, as `std::log2` followed by the implicit
      conversion to `std::size_t` computes it. */
  function FloorLog2(n: nat): (k: nat)
    requires n >= 1
    ensures Pow2(k) <= n < 2 * Pow2(k)
  {
    if n == 1 then 0 else 1 + FloorLog2(n / 2)
  }

  predicate IsPowerOfTwo(n: nat)
    requires n >= 1
  {
    Pow2(FloorLog2(n)) == n
  }

  lemma {:induction false} FloorLog2OfPow2(k: nat)
    ensures FloorLog2(Pow2(k)) == k
  {
    if k > 0 {
      assert Pow2(k) / 2 == Pow2(k - 1);
      FloorLog2OfPow2(k - 1);
    }
  }

  /** `qvector(const std::vector<complex> &)`: a state vector of `len`
      amplitudes allocates log2(len) qudits; for qubits a length that is not a
      power of two is rejected, and then a vector whose norm is not 1 (within
      1e-12, computed in floating point and given here as `normOk`). An empty
      vector would make the qudit count log2(0), minus infinity, whose
      conversion to `std::size_t` is undefined: it is rejected here. */
  function FromStateVector(len: nat, levels: nat, normOk: bool, ids: seq<QuditId>): (r: Result<QVector, StateError>)
    requires |ids| == (if len == 0 then 0 else FloorLog2(len))
    ensures r == Err(EmptyVector) <==> len == 0
    ensures len >= 1 ==> (r == Err(NotPowerOfTwo) <==> levels == 2 && !IsPowerOfTwo(len))
    ensures r == Err(InvalidNorm) <==> len >= 1 && !(levels == 2 && !IsPowerOfTwo(len)) && !normOk
    ensures r.Ok? ==> len >= 1 && normOk && Size(r.value) == FloorLog2(len) && Pow2(Size(r.value)) <= len
    ensures r.Ok? && levels == 2 ==> Pow2(Size(r.value)) == len
  {
    if len == 0 then Err(EmptyVector)
    else if levels == 2 && !IsPowerOfTwo(len) then Err(NotPowerOfTwo)
    else if !normOk then Err(InvalidNorm)
    else Ok(QVector(ids))
  }

  /** Every normalised power-of-two state vector of qubits is accepted, with
      exactly k qudits for 2^k amplitudes. */
  lemma PowerOfTwoAccepted(k: nat, ids: seq<QuditId>)
    requires |ids| == k
    ensures FloorLog2(Pow2(k)) == k
    ensures FromStateVector(Pow2(k), 2, true, ids) == Ok(QVector(ids))
  {
    FloorLog2OfPow2(k);
  }

  /** `qvector(const std::vector<double> &)` AS WRITTEN: its body builds a
      temporary qvector from the converted vector and discards it, so the
      object under construction is left with its default, empty qudit list;
      the temporary's errors still propagate. */
  function FromRealsAsWritten(len: nat, levels: nat, normOk: bool, ids: seq<QuditId>): (r: Result<QVector, StateError>)
    requires |ids| == (if len == 0 then 0 else FloorLog2(len))
    ensures r.Ok? ==> Size(r.value) == 0
    ensures r.Err? <==> FromStateVector(len, levels, normOk, ids).Err?
  {
    var temporary := FromStateVector(len, levels, normOk, ids);
    if temporary.Err? then Err(temporary.error) else Ok(QVector([]))
  }

  /** The evident intent, as the two `initializer_list` constructors do it:
      delegate to the complex state-vector constructor. */
  function FromReals(len: nat, levels: nat, normOk: bool, ids: seq<QuditId>): (r: Result<QVector, StateError>)
    requires |ids| == (if len == 0 then 0 else FloorLog2(len))
    ensures r.Ok? ==> len >= 1 && Size(r.value) == FloorLog2(len)
    ensures r.Err? <==> FromRealsAsWritten(len, levels, normOk, ids).Err?
  {
    FromStateVector(len, levels, normOk, ids)
  }

  /** The discrepancy: a normalised 4-amplitude real state vector of qubits
      should give a 2-qubit register, but the constructor as written leaves
      it empty. */
  lemma FromRealsAsWrittenLosesQubits()
    ensures FloorLog2(4) == 2
    ensures FromRealsAsWritten(4, 2, true, [7, 8]) == Ok(QVector([]))
    ensures FromReals(4, 2, true, [7, 8]) == Ok(QVector([7, 8]))
  {
    FloorLog2OfPow2(2);
  }
}
