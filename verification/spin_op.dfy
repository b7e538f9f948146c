/** `cudaq::spin_op` (runtime/cudaq/spin/spin_op.cpp): a sum of Pauli terms
    kept in a hash map from binary-symplectic row to coefficient (an
    `std::unordered_map`, whose iteration order is unspecified). The model
    keeps the entries as a list in one fixed order, strictly increasing
    under `std::vector<bool>`'s ordering; the operations that walk the map
    (printing, the data representation, term indexing) are stated for that
    order. */
module SpinOp {
  import opened Common
  import opened Pauli

  datatype Term = Term(row: Row, coeff: Complex)

  datatype SpinOp = SpinOp(terms: seq<Term>)

  // ---------------------------------------------------------------------
  // The map's key order
  // ---------------------------------------------------------------------

  /** `operator<` of `std::vector<bool>`: lexicographic, false before true,
      a proper prefix before its extensions. */
  predicate RowLess(a: Row, b: Row)
    decreases |a|
  {
    if a == [] then b != []
    else if b == [] then false
    else if a[0] != b[0] then b[0]
    else RowLess(a[1..], b[1..])
  }

  lemma {:induction false} RowLessIrreflexive(a: Row)
    ensures !RowLess(a, a)
    decreases |a|
  {
    if a != [] {
      RowLessIrreflexive(a[1..]);
    }
  }

  lemma {:induction false} RowLessTransitive(a: Row, b: Row, c: Row)
    requires RowLess(a, b) && RowLess(b, c)
    ensures RowLess(a, c)
    decreases |a|
  {
    if a != [] && b != [] && c != [] && a[0] == b[0] && b[0] == c[0] {
      RowLessTransitive(a[1..], b[1..], c[1..]);
    }
  }

  lemma {:induction false} RowLessTotal(a: Row, b: Row)
    requires a != b
    ensures RowLess(a, b) || RowLess(b, a)
    decreases |a|
  {
    if a != [] && b != [] && a[0] == b[0] {
      assert a == [a[0]] + a[1..] && b == [b[0]] + b[1..];
      RowLessTotal(a[1..], b[1..]);
    }
  }

  lemma {:induction false} RowLessAsymmetric(a: Row, b: Row)
    requires RowLess(a, b)
    ensures !RowLess(b, a)
  {
    if RowLess(b, a) {
      RowLessTransitive(a, b, a);
      RowLessIrreflexive(a);
    }
  }

  // ---------------------------------------------------------------------
  // Sorted entry lists and lookup
  // ---------------------------------------------------------------------

  /** The entries are in strictly increasing key order, so keys are
      distinct. */
  predicate Sorted(ts: seq<Term>)
  {
    forall i, j :: 0 <= i < j < |ts| ==> RowLess(ts[i].row, ts[j].row)
  }

  /** `terms.find(row)`. */
  function Lookup(ts: seq<Term>, row: Row): (r: Option<Complex>)
    ensures r.Some? <==> exists t :: t in ts && t.row == row
  {
    if ts == [] then None
    else if ts[0].row == row then Some(ts[0].coeff)
    else
      assert forall t :: t in ts ==> t == ts[0] || t in ts[1..];
      Lookup(ts[1..], row)
  }

  lemma SortedTail(ts: seq<Term>)
    requires Sorted(ts) && ts != []
    ensures Sorted(ts[1..])
  {
    forall i, j | 0 <= i < j < |ts[1..]|
      ensures RowLess(ts[1..][i].row, ts[1..][j].row)
    {
      assert ts[1..][i] == ts[i + 1] && ts[1..][j] == ts[j + 1];
    }
  }

  lemma SortedCons(x: Term, rest: seq<Term>)
    requires Sorted(rest)
    requires forall t :: t in rest ==> RowLess(x.row, t.row)
    ensures Sorted([x] + rest)
  {
    var s := [x] + rest;
    forall i, j | 0 <= i < j < |s| ensures RowLess(s[i].row, s[j].row) {
      if i == 0 {
        assert s[j] == rest[j - 1];
        assert s[j] in rest;
      } else {
        assert s[i] == rest[i - 1] && s[j] == rest[j - 1];
      }
    }
  }

  lemma LookupCons(x: Term, rest: seq<Term>)
    ensures forall k :: Lookup([x] + rest, k) == if x.row == k then Some(x.coeff) else Lookup(rest, k)
  {
    assert ([x] + rest)[1..] == rest;
  }

  /** Lookup in a non-empty list, by its head and tail. */
  lemma LookupSplit(ts: seq<Term>)
    requires ts != []
    ensures forall k :: Lookup(ts, k) == if ts[0].row == k then Some(ts[0].coeff) else Lookup(ts[1..], k)
  {
  }

  /** In a sorted list every key lies at or above the first one. */
  lemma {:induction false} LookupBelowFirst(ts: seq<Term>, row: Row)
    requires Sorted(ts) && ts != [] && RowLess(row, ts[0].row)
    ensures Lookup(ts, row).None?
  {
    forall t | t in ts ensures t.row != row {
      var j :| 0 <= j < |ts| && ts[j] == t;
      if j == 0 {
        RowLessIrreflexive(row);
      } else {
        RowLessTransitive(row, ts[0].row, t.row);
        RowLessIrreflexive(row);
      }
    }
  }

  /** `terms.emplace(row, c)`: inserts the entry unless the key is present,
      in which case the map is unchanged. */
  function Emplace(ts: seq<Term>, row: Row, c: Complex): (r: seq<Term>)
    requires Sorted(ts)
    ensures Sorted(r)
    ensures forall t :: t in r ==> t in ts || t == Term(row, c)
    ensures forall k :: Lookup(r, k) == (if k == row && Lookup(ts, row).None? then Some(c) else Lookup(ts, k))
    decreases |ts|
  {
    if ts == [] then
      LookupCons(Term(row, c), []);
      [Term(row, c)]
    else if RowLess(row, ts[0].row) then
      LookupBelowFirst(ts, row);
      SortedInsertFront(Term(row, c), ts);
      [Term(row, c)] + ts
    else if row == ts[0].row then ts
    else
      SortedTail(ts);
      var rest := Emplace(ts[1..], row, c);
      RowLessTotal(row, ts[0].row);
      SortedConsAbove(ts, rest, row);
      LookupCons(ts[0], rest);
      LookupSplit(ts);
      [ts[0]] + rest
  }

  lemma SortedInsertFront(x: Term, ts: seq<Term>)
    requires Sorted(ts) && ts != [] && RowLess(x.row, ts[0].row)
    ensures Sorted([x] + ts)
    ensures forall k :: Lookup([x] + ts, k) == (if x.row == k then Some(x.coeff) else Lookup(ts, k))
  {
    forall t | t in ts ensures RowLess(x.row, t.row) {
      var j :| 0 <= j < |ts| && ts[j] == t;
      if j > 0 {
        RowLessTransitive(x.row, ts[0].row, t.row);
      }
    }
    SortedCons(x, ts);
    LookupCons(x, ts);
  }

  /** Re-attaching the head of a sorted list in front of a list built from
      its tail and one larger key keeps the order. */
  lemma SortedConsAbove(ts: seq<Term>, rest: seq<Term>, row: Row)
    requires Sorted(ts) && ts != [] && Sorted(rest)
    requires RowLess(ts[0].row, row)
    requires forall t :: t in rest ==> t in ts[1..] || t.row == row
    ensures Sorted([ts[0]] + rest)
  {
    forall t | t in rest ensures RowLess(ts[0].row, t.row) {
      if t in ts[1..] {
        var j :| 0 <= j < |ts[1..]| && ts[1..][j] == t;
        assert ts[j + 1] == t;
      }
    }
    SortedCons(ts[0], rest);
  }

  /** One step of `operator+=`: the coefficient is added to an existing
      entry, or the entry is inserted. */
  function AddTerm(ts: seq<Term>, row: Row, c: Complex): (r: seq<Term>)
    requires Sorted(ts)
    ensures Sorted(r)
    ensures forall t :: t in r ==> t in ts || t.row == row
    ensures forall k :: Lookup(r, k) == (if k == row then Some(Merge(Lookup(ts, row), c)) else Lookup(ts, k))
    decreases |ts|
  {
    if ts == [] then
      LookupCons(Term(row, c), []);
      [Term(row, c)]
    else if RowLess(row, ts[0].row) then
      LookupBelowFirst(ts, row);
      SortedInsertFront(Term(row, c), ts);
      [Term(row, c)] + ts
    else if row == ts[0].row then
      SortedTail(ts);
      var x := Term(row, Add(ts[0].coeff, c));
      assert forall t :: t in ts[1..] ==> RowLess(ts[0].row, t.row) by {
        forall t | t in ts[1..] ensures RowLess(ts[0].row, t.row) {
          var j :| 0 <= j < |ts[1..]| && ts[1..][j] == t;
          assert ts[j + 1] == t;
        }
      }
      SortedCons(x, ts[1..]);
      LookupCons(x, ts[1..]);
      LookupSplit(ts);
      [x] + ts[1..]
    else
      SortedTail(ts);
      var rest := AddTerm(ts[1..], row, c);
      RowLessTotal(row, ts[0].row);
      SortedConsAbove(ts, rest, row);
      LookupCons(ts[0], rest);
      LookupSplit(ts);
      [ts[0]] + rest
  }

  /** The coefficient after adding `c` to an entry that may be absent. */
  function Merge(prev: Option<Complex>, c: Complex): Complex
  {
    match prev
    case None => c
    case Some(d) => Add(d, c)
  }

  /** The coefficient of a key after `operator+=`, from its coefficients in
      the two (padded) operands. */
  function Combine(x: Option<Complex>, y: Option<Complex>): Option<Complex>
  {
    match (x, y)
    case (None, _) => y
    case (_, None) => x
    case (Some(a), Some(b)) => Some(Add(a, b))
  }

  /** Terms (and key) of a sorted list all lie above its first key. */
  lemma HeadBelowTail(ts: seq<Term>)
    requires Sorted(ts) && ts != []
    ensures Lookup(ts[1..], ts[0].row).None?
    ensures forall t :: t in ts[1..] ==> RowLess(ts[0].row, t.row)
  {
    forall t | t in ts[1..] ensures RowLess(ts[0].row, t.row) {
      var j :| 0 <= j < |ts[1..]| && ts[1..][j] == t;
      assert ts[j + 1] == t;
    }
    forall t | t in ts[1..] ensures t.row != ts[0].row {
      RowLessIrreflexive(ts[0].row);
    }
  }

  // ---------------------------------------------------------------------
  // Qubit counts and constructors
  // ---------------------------------------------------------------------

  /** `n_qubits()`: half the length of the first row, 0 without terms. */
  function NQubits(op: SpinOp): nat
  {
    if op.terms == [] then 0 else |op.terms[0].row| / 2
  }

  predicate UniformRows(ts: seq<Term>, n: nat)
  {
    forall t :: t in ts ==> |t.row| == 2 * n
  }

  /** A well-formed operator: sorted distinct keys, every row over n
      qubits. */
  predicate WellFormed(op: SpinOp, n: nat)
  {
    Sorted(op.terms) && UniformRows(op.terms, n)
  }

  lemma WellFormedQubits(op: SpinOp, n: nat)
    requires WellFormed(op, n) && op.terms != []
    ensures NQubits(op) == n
  {
    assert op.terms[0] in op.terms;
  }

  function Zeros(k: nat): (r: Row)
    ensures |r| == k && forall i :: 0 <= i < k ==> !r[i]
  {
    seq(k, _ => false)
  }

  /** `spin_op(numQubits)`; the nullary constructor is `IdentityOp(1)`. */
  function IdentityOp(numQubits: nat): (op: SpinOp)
    ensures WellFormed(op, numQubits) && |op.terms| == 1
    ensures Decode(op.terms[0].row) == Identities(numQubits)
    ensures op.terms[0].coeff == One
  {
    SpinOp([Term(Zeros(2 * numQubits), One)])
  }

  /** `spin_op(type, idx, coeff)`: one term over idx + 1 qubits. */
  function SingleOp(p: Pauli, idx: nat, coeff: Complex): (op: SpinOp)
    ensures WellFormed(op, idx + 1) && |op.terms| == 1 && NQubits(op) == idx + 1
    ensures Decode(op.terms[0].row) == Identities(idx) + [p]
    ensures op.terms[0].coeff == coeff
  {
    SinglePauliDecodes(p, idx);
    SpinOp([Term(SinglePauliRow(p, idx), coeff)])
  }

  /** The coefficient of the first occurrence of `k` among the rows, the
      one `emplace` keeps. */
  function FirstCoeff(d: seq<Row>, coeffs: seq<Complex>, k: Row): Option<Complex>
    requires |coeffs| >= |d|
  {
    if d == [] then None
    else if d[0] == k then Some(coeffs[0])
    else FirstCoeff(d[1..], coeffs[1..], k)
  }

  function EmplaceAll(ts: seq<Term>, d: seq<Row>, coeffs: seq<Complex>): (r: seq<Term>)
    requires Sorted(ts) && |coeffs| >= |d|
    ensures Sorted(r)
    ensures forall k :: Lookup(r, k) == (if Lookup(ts, k).Some? then Lookup(ts, k) else FirstCoeff(d, coeffs, k))
    decreases |d|
  {
    if d == [] then ts
    else EmplaceAll(Emplace(ts, d[0], coeffs[0]), d[1..], coeffs[1..])
  }

  /** `spin_op(BinarySymplecticForm, coefficients)`: emplaces the rows in
      order, so a repeated row keeps its first coefficient. The source reads
      `d[0]` and one coefficient per row. */
  function FromBinarySymplectic(d: seq<Row>, coeffs: seq<Complex>): (op: SpinOp)
    requires |d| >= 1 && |coeffs| >= |d|
    ensures Sorted(op.terms)
    ensures forall k :: Lookup(op.terms, k) == FirstCoeff(d, coeffs, k)
  {
    SpinOp(EmplaceAll([], d, coeffs))
  }

  // ---------------------------------------------------------------------
  // expandToNQubits
  // ---------------------------------------------------------------------

  /** A row over n qubits padded to m: x-bits, m - n zero x-bits, z-bits,
      m - n zero z-bits. */
  function PadRow(row: Row, n: nat, m: nat): (r: Row)
    requires |row| == 2 * n && n <= m
    ensures |r| == 2 * m
    ensures forall t :: 0 <= t < 2 * m ==>
      r[t] == (if t < n then row[t] else if t < m then false else if t < m + n then row[t - m + n] else false)
  {
    row[..n] + Zeros(m - n) + row[n..] + Zeros(m - n)
  }

  /** Padding keeps every old qubit's Pauli and puts I on the new ones. */
  lemma PadRowDecodes(row: Row, n: nat, m: nat)
    requires |row| == 2 * n && n <= m
    ensures Decode(PadRow(row, n, m)) == Decode(row) + Identities(m - n)
  {
    var r := PadRow(row, n, m);
    assert |Decode(r)| == |Decode(row) + Identities(m - n)|;
    forall i | 0 <= i < m ensures Decode(r)[i] == (Decode(row) + Identities(m - n))[i] {
      assert r[i + m] == (if i < n then row[i + n] else false);
    }
  }

  /** The insertion loop of `expandToNQubits` for one row: each round puts
      a zero in the middle and one at the end. */
  method ExpandRow(row: Row, m: nat) returns (tmp: Row)
    requires |row| % 2 == 0 && |row| <= 2 * m
    ensures tmp == PadRow(row, |row| / 2, m)
  {
    var n := |row| / 2;
    tmp := row;
    if |tmp| == m * 2 {
      assert row[..n] + Zeros(0) + row[n..] + Zeros(0) == row;
      return;
    }
    var newSize := m * 2 - |tmp|;
    var i := 0;
    assert row[..n] + Zeros(0) + row[n..] + Zeros(0) == row;
    while i < newSize / 2
      invariant 0 <= i <= newSize / 2 == m - n
      invariant tmp == row[..n] + Zeros(i) + row[n..] + Zeros(i)
    {
      var mid := |tmp| / 2;
      assert mid == n + i;
      assert tmp[..mid] == row[..n] + Zeros(i);
      assert tmp[mid..] == row[n..] + Zeros(i);
      tmp := tmp[..mid] + [false] + tmp[mid..];
      tmp := tmp + [false];
      assert Zeros(i) + [false] == Zeros(i + 1);
      i := i + 1;
    }
  }

  lemma {:induction false} RowLessWitness(a: Row, b: Row)
    requires |a| == |b| && RowLess(a, b)
    ensures exists j :: 0 <= j < |a| && a[..j] == b[..j] && !a[j] && b[j]
    decreases |a|
  {
    if a[0] != b[0] {
      assert a[..0] == b[..0];
    } else {
      RowLessWitness(a[1..], b[1..]);
      var j :| 0 <= j < |a[1..]| && a[1..][..j] == b[1..][..j] && !a[1..][j] && b[1..][j];
      assert a[..j + 1] == [a[0]] + a[1..][..j];
      assert b[..j + 1] == [b[0]] + b[1..][..j];
    }
  }

  lemma {:induction false} WitnessRowLess(a: Row, b: Row, j: nat)
    requires |a| == |b| && j < |a| && a[..j] == b[..j] && !a[j] && b[j]
    ensures RowLess(a, b)
    decreases j
  {
    if j > 0 {
      assert a[0] == a[..j][0] && b[0] == b[..j][0];
      assert a[1..][..j - 1] == a[..j][1..] && b[1..][..j - 1] == b[..j][1..];
      WitnessRowLess(a[1..], b[1..], j - 1);
    }
  }

  lemma PadRowKeepsOrder(a: Row, b: Row, n: nat, m: nat)
    requires |a| == 2 * n && |b| == 2 * n && n <= m && RowLess(a, b)
    ensures RowLess(PadRow(a, n, m), PadRow(b, n, m))
  {
    RowLessWitness(a, b);
    var j :| 0 <= j < |a| && a[..j] == b[..j] && !a[j] && b[j];
    var pa, pb := PadRow(a, n, m), PadRow(b, n, m);
    var j' := if j < n then j else j + m - n;
    PadRowAgreesBelow(a, b, n, m, j);
    WitnessRowLess(pa, pb, j');
  }

  /** Rows agreeing below bit j still agree below its padded position,
      and bit j moves there. */
  lemma PadRowAgreesBelow(a: Row, b: Row, n: nat, m: nat, j: nat)
    requires |a| == 2 * n && |b| == 2 * n && n <= m && j < 2 * n && a[..j] == b[..j]
    ensures var j' := if j < n then j else j + m - n;
      && j' < 2 * m
      && PadRow(a, n, m)[..j'] == PadRow(b, n, m)[..j']
      && PadRow(a, n, m)[j'] == a[j] && PadRow(b, n, m)[j'] == b[j]
  {
    var pa, pb := PadRow(a, n, m), PadRow(b, n, m);
    var j' := if j < n then j else j + m - n;
    forall t | 0 <= t < j' ensures pa[t] == pb[t] {
      if t < n { assert a[t] == a[..j][t]; assert b[t] == b[..j][t]; }
      else if t >= m { assert a[t - m + n] == a[..j][t - m + n]; assert b[t - m + n] == b[..j][t - m + n]; }
    }
  }

  lemma PadRowInjective(a: Row, b: Row, n: nat, m: nat)
    requires |a| == 2 * n && |b| == 2 * n && n <= m && a != b
    ensures PadRow(a, n, m) != PadRow(b, n, m)
  {
    RowLessTotal(a, b);
    if RowLess(a, b) {
      PadRowKeepsOrder(a, b, n, m);
    } else {
      PadRowKeepsOrder(b, a, n, m);
    }
    RowLessIrreflexive(PadRow(a, n, m));
  }

  /** `expandToNQubits(m)` on an operator over n qubits: every row padded,
      coefficients kept. Re-inserting the padded rows yields them in the
      same order, because padding keeps the order. */
  function ExpandToNQubits(op: SpinOp, n: nat, m: nat): (r: SpinOp)
    requires WellFormed(op, n) && n <= m
    ensures WellFormed(r, m) && |r.terms| == |op.terms|
    ensures forall i :: 0 <= i < |op.terms| ==>
      r.terms[i] == Term(PadRow(op.terms[i].row, n, m), op.terms[i].coeff)
  {
    var ts := op.terms;
    assert forall i :: 0 <= i < |ts| ==> ts[i] in ts;
    var r := seq(|ts|, i requires 0 <= i < |ts| => Term(PadRow(ts[i].row, n, m), ts[i].coeff));
    assert Sorted(r) by {
      forall i, j | 0 <= i < j < |r| ensures RowLess(r[i].row, r[j].row) {
        PadRowKeepsOrder(ts[i].row, ts[j].row, n, m);
      }
    }
    SpinOp(r)
  }

  /** Expanding to the operator's own size changes nothing. */
  lemma ExpandToSameSize(op: SpinOp, n: nat)
    requires WellFormed(op, n)
    ensures ExpandToNQubits(op, n, n) == op
  {
    var r := ExpandToNQubits(op, n, n);
    forall i | 0 <= i < |op.terms| ensures r.terms[i] == op.terms[i] {
      assert op.terms[i] in op.terms;
      assert PadRow(op.terms[i].row, n, n) == op.terms[i].row;
    }
  }

  /** Looking up a padded key in the expansion finds the original entry;
      keys that are not padded rows are absent. */
  lemma {:induction false} ExpandLookup(op: SpinOp, n: nat, m: nat, k: Row)
    requires WellFormed(op, n) && n <= m && |k| == 2 * n
    ensures Lookup(ExpandToNQubits(op, n, m).terms, PadRow(k, n, m)) == Lookup(op.terms, k)
  {
    var r := ExpandToNQubits(op, n, m);
    LookupIndex(op.terms, k);
    LookupIndex(r.terms, PadRow(k, n, m));
    forall i | 0 <= i < |op.terms| ensures (r.terms[i].row == PadRow(k, n, m)) == (op.terms[i].row == k) {
      assert op.terms[i] in op.terms;
      if op.terms[i].row != k {
        PadRowInjective(op.terms[i].row, k, n, m);
      }
    }
  }

  /** Lookup finds the entry at the key's position in a sorted list. */
  lemma {:induction false} LookupIndex(ts: seq<Term>, k: Row)
    requires Sorted(ts)
    ensures Lookup(ts, k).None? <==> forall i :: 0 <= i < |ts| ==> ts[i].row != k
    ensures forall i :: 0 <= i < |ts| && ts[i].row == k ==> Lookup(ts, k) == Some(ts[i].coeff)
    decreases |ts|
  {
    if ts != [] {
      SortedTail(ts);
      LookupIndex(ts[1..], k);
      HeadBelowTail(ts);
      forall i | 1 <= i < |ts| && ts[i].row == k ensures Lookup(ts, k) == Some(ts[i].coeff) {
        assert ts[1..][i - 1] == ts[i];
        assert ts[i] in ts[1..];
      }
      forall i | 1 <= i < |ts[1..]| + 1 ensures ts[i] == ts[1..][i - 1] {}
    }
  }

  // ---------------------------------------------------------------------
  // operator+=
  // ---------------------------------------------------------------------

  /** The merge loop of `operator+=`: each entry of the right operand, in
      key order, is added into the left one. */
  function AddAll(ts: seq<Term>, bs: seq<Term>): (r: seq<Term>)
    requires Sorted(ts) && Sorted(bs)
    ensures Sorted(r)
    ensures forall t :: t in r ==> t in ts || exists u :: u in bs && u.row == t.row
    ensures forall k :: Lookup(r, k) == Combine(Lookup(ts, k), Lookup(bs, k))
    decreases |bs|
  {
    if bs == [] then ts
    else
      SortedTail(bs);
      HeadBelowTail(bs);
      LookupSplit(bs);
      var r := AddAll(AddTerm(ts, bs[0].row, bs[0].coeff), bs[1..]);
      assert forall u :: u in bs[1..] ==> u in bs;
      r
  }

  function Max(a: nat, b: nat): nat { if a >= b then a else b }

  /** `operator+=`: the operand over fewer qubits is padded to the other's
      count, then entries with equal keys have their coefficients added and
      the others are inserted. */
  function AddAssign(a: SpinOp, b: SpinOp): (r: SpinOp)
    requires WellFormed(a, NQubits(a)) && WellFormed(b, NQubits(b))
    ensures var m := Max(NQubits(a), NQubits(b));
      && WellFormed(r, m)
      && forall k :: Lookup(r.terms, k) ==
           Combine(Lookup(ExpandToNQubits(a, NQubits(a), m).terms, k),
                   Lookup(ExpandToNQubits(b, NQubits(b), m).terms, k))
  {
    var na, nb := NQubits(a), NQubits(b);
    var m := Max(na, nb);
    var lhs := if nb > na then ExpandToNQubits(a, na, nb) else a;
    var rhs := if nb < na then ExpandToNQubits(b, nb, na) else b;
    ExpandToSameSize(a, na);
    ExpandToSameSize(b, nb);
    var r := AddAll(lhs.terms, rhs.terms);
    assert UniformRows(r, m) by {
      forall t | t in r ensures |t.row| == 2 * m {
        if t !in lhs.terms {
          var u :| u in rhs.terms && u.row == t.row;
        }
      }
    }
    SpinOp(r)
  }

  /** In terms of the operands' own keys: after `a += b`, the padded image
      of a key carries the sum of its coefficients in `a` and `b`, or the
      one coefficient it has. */
  lemma AddAssignOnOriginalKeys(a: SpinOp, b: SpinOp, n: nat, k: Row)
    requires WellFormed(a, n) && WellFormed(b, n) && |k| == 2 * n
    requires a.terms != [] && b.terms != []
    ensures Lookup(AddAssign(a, b).terms, k) == Combine(Lookup(a.terms, k), Lookup(b.terms, k))
  {
    WellFormedQubits(a, n);
    WellFormedQubits(b, n);
    ExpandToSameSize(a, n);
    ExpandToSameSize(b, n);
  }

  // ---------------------------------------------------------------------
  // is_identity, to_string, for_each_pauli, get_coefficient
  // ---------------------------------------------------------------------

  /** No term of the operator has an x- or z-bit set. */
  predicate AllIdentity(op: SpinOp)
  {
    forall t, j :: t in op.terms && 0 <= j < |t.row| ==> !t.row[j]
  }

  /** `is_identity`: scans every bit of every term. */
  method IsIdentity(op: SpinOp) returns (b: bool)
    ensures b <==> AllIdentity(op)
  {
    var i := 0;
    while i < |op.terms|
      invariant 0 <= i <= |op.terms|
      invariant forall t, j :: t in op.terms[..i] && 0 <= j < |t.row| ==> !t.row[j]
    {
      var row := op.terms[i].row;
      var j := 0;
      while j < |row|
        invariant 0 <= j <= |row|
        invariant forall j' :: 0 <= j' < j ==> !row[j']
      {
        if row[j] {
          assert op.terms[i] in op.terms;
          return false;
        }
        j := j + 1;
      }
      assert op.terms[..i + 1] == op.terms[..i] + [op.terms[i]];
      i := i + 1;
    }
    assert op.terms[..i] == op.terms;
    return true;
  }

  /** A row has no bit set exactly when it decodes to the identity on every
      qubit. */
  lemma NoBitsIffIdentities(row: Row)
    requires |row| % 2 == 0
    ensures (forall j :: 0 <= j < |row| ==> !row[j]) <==> Decode(row) == Identities(|row| / 2)
  {
    var n := |row| / 2;
    if Decode(row) == Identities(n) {
      forall j | 0 <= j < |row| ensures !row[j] {
        var i := if j < n then j else j - n;
        assert Decode(row)[i] == I;
      }
    }
  }

  /** The character `to_string` prints for a Pauli. */
  function PauliChar(p: Pauli): char
  {
    match p
    case I => 'I'
    case X => 'X'
    case Y => 'Y'
    case Z => 'Z'
  }

  /** Reading a printed character back. */
  function CharPauli(c: char): Option<Pauli>
  {
    if c == 'I' then Some(I) else if c == 'X' then Some(X)
    else if c == 'Y' then Some(Y) else if c == 'Z' then Some(Z) else None
  }

  function TermString(row: Row): (s: string)
    ensures |s| == |row| / 2
  {
    seq(|row| / 2, i requires 0 <= i < |row| / 2 => PauliChar(PauliAt(row, |row| / 2, i)))
  }

  /** `to_string(false)`: for each term in key order one character per
      qubit, using half that term's row length as its qubit count. */
  function ToString(ts: seq<Term>): string
  {
    if ts == [] then [] else TermString(ts[0].row) + ToString(ts[1..])
  }

  /** Over n qubits the printed operator has n characters per term. */
  lemma {:induction false} ToStringLength(ts: seq<Term>, n: nat)
    requires UniformRows(ts, n)
    ensures |ToString(ts)| == |ts| * n
  {
    if ts != [] {
      assert ts[0] in ts && forall t :: t in ts[1..] ==> t in ts;
      ToStringLength(ts[1..], n);
      assert |ToString(ts)| == n + |ts[1..]| * n;
      MulSucc(|ts[1..]|, n);
    }
  }

  lemma MulSucc(a: nat, n: nat)
    ensures (a + 1) * n == n + a * n
  {
  }

  lemma TermStringReadsBack(row: Row, i: nat)
    requires i < |row| / 2
    ensures CharPauli(TermString(row)[i]) == Some(Decode(row)[i])
  {
  }

  /** Printing a concatenation prints the parts one after the other. */
  lemma {:induction false} ToStringAppend(a: seq<Term>, b: seq<Term>)
    ensures ToString(a + b) == ToString(a) + ToString(b)
  {
    if a == [] {
      assert a + b == b;
    } else {
      assert (a + b)[0] == a[0] && (a + b)[1..] == a[1..] + b;
      ToStringAppend(a[1..], b);
      AppendAssociates(TermString(a[0].row), ToString(a[1..]), ToString(b));
    }
  }

  /** The printed operator around term t: the terms before it take t * n
      characters, then come the n characters of term t. */
  lemma ToStringBlock(ts: seq<Term>, n: nat, t: nat) returns (x: string, head: string, z: string)
    requires UniformRows(ts, n) && t < |ts|
    ensures ToString(ts) == x + (head + z)
    ensures |x| == t * n && head == TermString(ts[t].row) && |head| == n
  {
    var before, rest := ts[..t], ts[t..];
    assert ts == before + rest;
    assert UniformRows(before, n) by {
      assert forall u :: u in before ==> u in ts;
    }
    ToStringAppend(before, rest);
    ToStringLength(before, n);
    x, head, z := ToString(before), TermString(ts[t].row), ToString(rest[1..]);
    assert ToString(rest) == head + z by {
      assert rest[0] == ts[t];
    }
    assert ts[t] in ts;
  }

  /** The printed operator splits into blocks of n characters, block t
      reading back as the decoding of term t. */
  lemma ToStringReadsBack(ts: seq<Term>, n: nat, t: nat, i: nat)
    requires UniformRows(ts, n) && t < |ts| && i < n
    ensures t * n + i < |ToString(ts)|
    ensures CharPauli(ToString(ts)[t * n + i]) == Some(Decode(ts[t].row)[i])
  {
    var x, head, z := ToStringBlock(ts, n, t);
    assert ToString(ts)[t * n + i] == head[i] by {
      assert ToString(ts) == x + (head + z);
    }
    TermStringReadsBack(ts[t].row, i);
  }

  datatype SpinError =
    | NotSingleTerm           // for_each_pauli / get_coefficient on a sum
    | InvalidLength           // "Number of data elements is incorrect."
    | NonIntegerPauli         // "Invalid pauli data element, must be integer value."
    | DivisionByZero          // n_terms == 0 in the length check
    | ReadPastEnd             // an element read beyond the data vector

  /** `get_coefficient()`. */
  function GetCoefficient(op: SpinOp): (r: Result<Complex, SpinError>)
    ensures r.Ok? <==> |op.terms| == 1
    ensures r.Ok? ==> Lookup(op.terms, op.terms[0].row) == Some(r.value)
  {
    if |op.terms| != 1 then Err(NotSingleTerm) else Ok(op.terms[0].coeff)
  }

  /** `for_each_pauli`: the Pauli of each qubit of the only term. */
  function ForEachPauli(op: SpinOp): (r: Result<seq<Pauli>, SpinError>)
    ensures r.Ok? <==> |op.terms| == 1
    ensures r.Ok? ==> |r.value| == NQubits(op)
    ensures r.Ok? ==> forall i :: 0 <= i < |r.value| ==>
      && XBit(r.value[i]) == op.terms[0].row[i]
      && ZBit(r.value[i]) == op.terms[0].row[i + NQubits(op)]
  {
    if |op.terms| != 1 then Err(NotSingleTerm)
    else
      var row := op.terms[0].row;
      assert forall i :: 0 <= i < |row| / 2 ==>
        XBit(Decode(row)[i]) == row[i] && ZBit(Decode(row)[i]) == row[i + |row| / 2];
      Ok(Decode(row))
  }

  // ---------------------------------------------------------------------
  // actionOnBra
  // ---------------------------------------------------------------------

  const MinusOne: Complex := Complex(-1.0, 0.0)
  const ImagUnit: Complex := Complex(0.0, 1.0)
  const MinusImag: Complex := Complex(0.0, -1.0)

  function Flip(ch: char): char { if ch == '1' then '0' else '1' }

  /** The effect of one Pauli on one character of the bra. */
  function BraStep(p: Pauli, ch: char, c: Complex): (char, Complex)
  {
    match p
    case Z => (ch, Mul(c, if ch == '1' then MinusOne else One))
    case X => (Flip(ch), c)
    case Y => (Flip(ch), Mul(c, if ch == '1' then ImagUnit else MinusImag))
    case I => (ch, c)
  }

  /** The first k qubits processed in order. */
  function BraAction(ps: seq<Pauli>, config: string, c: Complex, k: nat): (r: (string, Complex))
    requires k <= |ps| <= |config|
    ensures |r.0| == |config|
  {
    if k == 0 then (config, c)
    else
      var prev := BraAction(ps, config, c, k - 1);
      var step := BraStep(ps[k - 1], prev.0[k - 1], prev.1);
      (prev.0[k - 1 := step.0], step.1)
  }

  /** `actionOnBra(term, bits)`: only for a single term; the source indexes
      the configuration by qubit without a bound check. */
  function ActionOnBra(op: SpinOp, config: string): (r: Result<(string, Complex), SpinError>)
    requires |op.terms| == 1 ==> |config| >= |op.terms[0].row| / 2
    ensures r.Ok? <==> |op.terms| == 1
    ensures r.Ok? ==> |r.value.0| == |config|
  {
    if |op.terms| != 1 then Err(NotSingleTerm)
    else
      var ps := Decode(op.terms[0].row);
      Ok(BraAction(ps, config, op.terms[0].coeff, |ps|))
  }

  /** Matrix entries of the Pauli matrices, rows and columns indexed by the
      bit 0 or 1. */
  function PauliEntry(p: Pauli, r: nat, c: nat): Complex
    requires r < 2 && c < 2
  {
    match p
    case I => if r == c then One else Zero
    case X => if r != c then One else Zero
    case Y => if r == c then Zero else if r == 0 then MinusImag else ImagUnit
    case Z => if r != c then Zero else if r == 0 then One else MinusOne
  }

  function BitOf(ch: char): nat { if ch == '1' then 1 else 0 }

  predicate IsBit(ch: char) { ch == '0' || ch == '1' }

  /** One step of the action is the row of the Pauli matrix selected by the
      bra's bit: its one non-zero entry gives the new bit and the factor. */
  lemma BraStepIsMatrixRow(p: Pauli, ch: char, c: Complex)
    requires IsBit(ch)
    ensures IsBit(BraStep(p, ch, c).0)
    ensures BraStep(p, ch, c).1 == Mul(c, PauliEntry(p, BitOf(ch), BitOf(BraStep(p, ch, c).0)))
    ensures PauliEntry(p, BitOf(ch), 1 - BitOf(BraStep(p, ch, c).0)) == Zero
  {
    if ch == '1' {
      match p { case I => case X => case Y => case Z => }
    } else {
      match p { case I => case X => case Y => case Z => }
    }
  }

  /** The phase index (-i)^k that one step multiplies by. */
  function StepIndex(p: Pauli, ch: char): nat
  {
    match p
    case Z => if ch == '1' then 2 else 0
    case Y => if ch == '1' then 3 else 1
    case _ => 0
  }

  function IndexSum(ps: seq<Pauli>, config: string, k: nat): nat
    requires k <= |ps| <= |config|
  {
    if k == 0 then 0 else IndexSum(ps, config, k - 1) + StepIndex(ps[k - 1], config[k - 1])
  }

  function Flips(p: Pauli): bool { p == X || p == Y }

  function FlipAll(ps: seq<Pauli>, config: string, k: nat): (r: string)
    requires k <= |ps| <= |config|
    ensures |r| == |config|
  {
    seq(|config|, j requires 0 <= j < |config| => if j < k && Flips(ps[j]) then Flip(config[j]) else config[j])
  }

  lemma StepRotates(p: Pauli, ch: char, c: Complex)
    ensures BraStep(p, ch, c).1 == Rotate(StepIndex(p, ch), c)
  {
  }

  /** The action flips the X/Y qubits and turns the coefficient by the sum
      of the per-qubit phase indices. */
  lemma {:induction false} BraActionClosedForm(ps: seq<Pauli>, config: string, c: Complex, k: nat)
    requires k <= |ps| <= |config|
    ensures BraAction(ps, config, c, k) == (FlipAll(ps, config, k), Rotate(IndexSum(ps, config, k) % 4, c))
  {
    if k == 0 {
      assert FlipAll(ps, config, 0) == config;
    } else {
      BraActionClosedForm(ps, config, c, k - 1);
      var prev := BraAction(ps, config, c, k - 1);
      var s := IndexSum(ps, config, k - 1);
      FlipAllStep(ps, config, k);
      assert prev.0[k - 1] == config[k - 1];
      var step := BraStep(ps[k - 1], config[k - 1], prev.1);
      assert BraAction(ps, config, c, k) == (prev.0[k - 1 := step.0], step.1);
      BraStepChar(ps[k - 1], config[k - 1], prev.1);
      StepRotates(ps[k - 1], config[k - 1], prev.1);
      StepThenRotate(StepIndex(ps[k - 1], config[k - 1]), s, c);
    }
  }

  lemma BraStepChar(p: Pauli, ch: char, c: Complex)
    ensures BraStep(p, ch, c).0 == if Flips(p) then Flip(ch) else ch
  {
  }

  lemma FlipAllStep(ps: seq<Pauli>, config: string, k: nat)
    requires 0 < k <= |ps| <= |config|
    ensures FlipAll(ps, config, k - 1)[k - 1] == config[k - 1]
    ensures FlipAll(ps, config, k - 1)[k - 1 := if Flips(ps[k - 1]) then Flip(config[k - 1]) else config[k - 1]]
         == FlipAll(ps, config, k)
  {
  }

  lemma StepThenRotate(t: nat, s: nat, c: Complex)
    requires t < 4
    ensures Rotate(t, Rotate(s % 4, c)) == Rotate((s + t) % 4, c)
  {
    RotationsAdd(t, s, c);
    assert t % 4 == t;
  }

  function PairCount(ps: seq<Pauli>, config: string, k: nat): nat
    requires k <= |ps| <= |config|
  {
    if k == 0 then 0
    else PairCount(ps, config, k - 1) + (if ps[k - 1] == Y || (ps[k - 1] == Z && config[k - 1] == '1') then 1 else 0)
  }

  lemma {:induction false} IndexSumsPair(ps: seq<Pauli>, config: string, k: nat)
    requires k <= |ps| <= |config|
    requires forall j :: 0 <= j < |config| ==> IsBit(config[j])
    ensures IndexSum(ps, config, k) + IndexSum(ps, FlipAll(ps, config, |ps|), k) == 4 * PairCount(ps, config, k)
  {
    if k > 0 {
      IndexSumsPair(ps, config, k - 1);
      assert FlipAll(ps, config, |ps|)[k - 1] == if Flips(ps[k - 1]) then Flip(config[k - 1]) else config[k - 1];
      assert IsBit(config[k - 1]);
    }
  }

  lemma FlipAllTwice(ps: seq<Pauli>, config: string)
    requires |ps| <= |config|
    requires forall j :: 0 <= j < |config| ==> IsBit(config[j])
    ensures FlipAll(ps, FlipAll(ps, config, |ps|), |ps|) == config
  {
    var once := FlipAll(ps, config, |ps|);
    forall j | 0 <= j < |config| ensures FlipAll(ps, once, |ps|)[j] == config[j] {
      assert IsBit(config[j]);
    }
  }

  lemma RotateBackTwice(ps: seq<Pauli>, config: string, c: Complex)
    requires |ps| <= |config|
    requires forall j :: 0 <= j < |config| ==> IsBit(config[j])
    ensures Rotate(IndexSum(ps, FlipAll(ps, config, |ps|), |ps|) % 4, Rotate(IndexSum(ps, config, |ps|) % 4, c)) == c
  {
    var n := |ps|;
    var a, b := IndexSum(ps, config, n), IndexSum(ps, FlipAll(ps, config, n), n);
    IndexSumsPair(ps, config, n);
    FullTurns(b, a, PairCount(ps, config, n), c);
  }

  lemma FullTurns(b: int, a: int, q: int, c: Complex)
    requires a + b == 4 * q
    ensures Rotate(b % 4, Rotate(a % 4, c)) == c
  {
    RotationsAdd(b, a, c);
    ModFourShift(0, q);
  }

  /** A Pauli string squares to the identity: acting twice on a bra of
      bits, carrying the coefficient along, gives back the bra and the
      coefficient. */
  lemma BraActionInvolution(ps: seq<Pauli>, config: string, c: Complex)
    requires |ps| <= |config|
    requires forall j :: 0 <= j < |config| ==> IsBit(config[j])
    ensures var once := BraAction(ps, config, c, |ps|);
      BraAction(ps, once.0, once.1, |ps|) == (config, c)
  {
    var n := |ps|;
    BraActionClosedForm(ps, config, c, n);
    var cfg1 := FlipAll(ps, config, n);
    var c1 := Rotate(IndexSum(ps, config, n) % 4, c);
    BraActionClosedForm(ps, cfg1, c1, n);
    FlipAllTwice(ps, config);
    RotateBackTwice(ps, config, c);
  }

  // ---------------------------------------------------------------------
  // The numeric data representation
  // ---------------------------------------------------------------------

  /** The code written for each qubit: I 0, X 1, Z 2, Y 3. */
  function PauliCode(p: Pauli): real
  {
    match p
    case I => 0.0
    case X => 1.0
    case Z => 2.0
    case Y => 3.0
  }

  /** The Pauli a code is read as: 1 X, 2 Z, 3 Y, anything else I. */
  function CodePauli(v: int): Pauli
  {
    if v == 1 then X else if v == 2 then Z else if v == 3 then Y else I
  }

  /** `(int)x` on a double: truncation toward zero. */
  function TruncToInt(x: real): int
  {
    if x >= 0.0 then x.Floor else -((-x).Floor)
  }

  /** `std::modf(x, &ip) == 0.0`: x has no fractional part. */
  predicate IsIntegral(x: real)
  {
    x == x.Floor as real
  }

  lemma CodeRoundTrip(p: Pauli)
    ensures IsIntegral(PauliCode(p)) && CodePauli(TruncToInt(PauliCode(p))) == p
  {
  }

  /** The codes of one term, followed by its coefficient. */
  function TermData(row: Row, nq: nat, c: Complex): (r: seq<real>)
    requires 2 * nq <= |row|
    ensures |r| == nq + 2
  {
    seq(nq, i requires 0 <= i < nq => PauliCode(PauliAt(row, nq, i))) + [c.re, c.im]
  }

  function TermsData(ts: seq<Term>, nq: nat): seq<real>
    requires forall t :: t in ts ==> 2 * nq <= |t.row|
  {
    if ts == [] then []
    else
      assert ts[0] in ts && forall t :: t in ts[1..] ==> t in ts;
      TermData(ts[0].row, nq, ts[0].coeff) + TermsData(ts[1..], nq)
  }

  /** `getDataRepresentation` as written: the qubit count of every term is
      taken as half the number of TERMS, so the Pauli codes are not those of
      the term (and none are written for a single term). A term whose row is
      shorter than twice that count is read past its end: `None`. */
  function GetDataRepresentationAsWritten(op: SpinOp): (v: Option<seq<real>>)
    ensures v.None? <==> exists t :: t in op.terms && |t.row| < 2 * (|op.terms| / 2)
    ensures v.Some? ==> |v.value| == |op.terms| * (|op.terms| / 2 + 2) + 1
  {
    if exists t :: t in op.terms && |t.row| < 2 * (|op.terms| / 2) then None
    else
      TermsDataLength(op.terms, |op.terms| / 2);
      Some(TermsData(op.terms, |op.terms| / 2) + [|op.terms| as real])
  }

  /** On an operator over n qubits, the encoding as written reads past the
      rows exactly when there are at least 2n + 2 terms. */
  lemma DataAsWrittenOverruns(op: SpinOp, n: nat)
    requires UniformRows(op.terms, n) && op.terms != []
    ensures GetDataRepresentationAsWritten(op).None? <==> |op.terms| >= 2 * n + 2
  {
    assert op.terms[0] in op.terms;
  }

  /** `getDataRepresentation` with each term's own qubit count. */
  function GetDataRepresentation(op: SpinOp, n: nat): (v: seq<real>)
    requires UniformRows(op.terms, n)
    ensures |v| == |op.terms| * (n + 2) + 1
    ensures v[|v| - 1] == |op.terms| as real
  {
    TermsDataLength(op.terms, n);
    TermsData(op.terms, n) + [|op.terms| as real]
  }

  lemma {:induction false} TermsDataLength(ts: seq<Term>, nq: nat)
    requires forall t :: t in ts ==> 2 * nq <= |t.row|
    ensures |TermsData(ts, nq)| == |ts| * (nq + 2)
  {
    if ts != [] {
      var rest := ts[1..];
      assert forall t :: t in rest ==> 2 * nq <= |t.row| by {
        assert forall t :: t in rest ==> t in ts;
      }
      TermsDataLength(rest, nq);
      assert |TermsData(ts, nq)| == (nq + 2) + |rest| * (nq + 2);
      MulSucc(|rest|, nq + 2);
    }
  }

  /** The row with the given Paulis. */
  function RowOf(ps: seq<Pauli>): (row: Row)
    ensures |row| == 2 * |ps|
  {
    seq(2 * |ps|, t requires 0 <= t < 2 * |ps| => if t < |ps| then XBit(ps[t]) else ZBit(ps[t - |ps|]))
  }

  lemma RowOfDecode(row: Row)
    requires |row| % 2 == 0
    ensures RowOf(Decode(row)) == row
  {
    var n := |row| / 2;
    forall t | 0 <= t < |row| ensures RowOf(Decode(row))[t] == row[t] {
      if t >= n {
        PauliAtIsDecoding(row, n, t - n);
      } else {
        PauliAtIsDecoding(row, n, t);
      }
    }
  }

  /** The inner loop of the data constructor: k codes read from position
      i on, each checked for a fractional part. */
  function DecodeCodes(v: seq<real>, i: nat, k: nat): (r: Result<seq<Pauli>, SpinError>)
    ensures r.Ok? ==> |r.value| == k
    decreases k
  {
    if k == 0 then Ok([])
    else if i >= |v| then Err(ReadPastEnd)
    else if !IsIntegral(v[i]) then Err(NonIntegerPauli)
    else match DecodeCodes(v, i + 1, k - 1)
      case Err(e) => Err(e)
      case Ok(ps) => Ok([CodePauli(TruncToInt(v[i]))] + ps)
  }

  /** The outer loop of the data constructor, from element i while
      i < size - 1: codes, then real and imaginary part, emplaced. */
  function DecodeTerms(v: seq<real>, n: nat, i: nat, acc: seq<Term>): (r: Result<seq<Term>, SpinError>)
    requires Sorted(acc)
    ensures r.Ok? ==> Sorted(r.value)
    decreases |v| - i
  {
    if i >= |v| - 1 then Ok(acc)
    else match DecodeCodes(v, i, n)
      case Err(e) => Err(e)
      case Ok(ps) =>
        if i + n + 1 >= |v| then Err(ReadPastEnd)
        else DecodeTerms(v, n, i + n + 2, Emplace(acc, RowOf(ps), Complex(v[i + n], v[i + n + 1])))
  }

  /** `spin_op(std::vector<double>&, nQubits)` as written: the length check
      `(size - 2 * n_terms) / n_terms` in `std::size_t` arithmetic does not
      discount the trailing term count. */
  function FromDataAsWritten(v: seq<real>, nQubits: nat): (r: Result<SpinOp, SpinError>)
    requires |v| >= 1
    ensures var nt := TruncToInt(v[|v| - 1]);
      ToSize(nt) != 0 && nQubits != ToSize(|v| - 2 * nt) / ToSize(nt) ==> r == Err(InvalidLength)
  {
    var nt := TruncToInt(v[|v| - 1]);
    var divisor := ToSize(nt);
    if divisor == 0 then Err(DivisionByZero)
    else if nQubits != ToSize(|v| - 2 * nt) / divisor then Err(InvalidLength)
    else match DecodeTerms(v, nQubits, 0, [])
      case Err(e) => Err(e)
      case Ok(ts) => Ok(SpinOp(ts))
  }

  /** The data constructor with the length check discounting the trailing
      term count. */
  function FromData(v: seq<real>, nQubits: nat): (r: Result<SpinOp, SpinError>)
    requires |v| >= 1
    ensures var nt := TruncToInt(v[|v| - 1]);
      ToSize(nt) != 0 && nQubits != ToSize(|v| - 1 - 2 * nt) / ToSize(nt) ==> r == Err(InvalidLength)
  {
    var nt := TruncToInt(v[|v| - 1]);
    var divisor := ToSize(nt);
    if divisor == 0 then Err(DivisionByZero)
    else if nQubits != ToSize(|v| - 1 - 2 * nt) / divisor then Err(InvalidLength)
    else match DecodeTerms(v, nQubits, 0, [])
      case Err(e) => Err(e)
      case Ok(ts) => Ok(SpinOp(ts))
  }

  lemma {:induction false} DecodeCodesOfData(v: seq<real>, i: nat, ps: seq<Pauli>)
    requires i + |ps| <= |v|
    requires forall j :: 0 <= j < |ps| ==> v[i + j] == PauliCode(ps[j])
    ensures DecodeCodes(v, i, |ps|) == Ok(ps)
    decreases |ps|
  {
    if ps != [] {
      CodeRoundTrip(ps[0]);
      assert v[i + 0] == PauliCode(ps[0]);
      DecodeCodesOfData(v, i + 1, ps[1..]);
      assert [ps[0]] + ps[1..] == ps;
    }
  }

  /** Emplacing a key above every present key appends it. */
  lemma {:induction false} EmplaceAbove(ts: seq<Term>, x: Term)
    requires Sorted(ts) && forall t :: t in ts ==> RowLess(t.row, x.row)
    ensures Emplace(ts, x.row, x.coeff) == ts + [x]
    decreases |ts|
  {
    if ts != [] {
      assert ts[0] in ts;
      RowLessAsymmetric(ts[0].row, x.row);
      RowLessIrreflexive(x.row);
      SortedTail(ts);
      assert forall t :: t in ts[1..] ==> t in ts;
      EmplaceAbove(ts[1..], x);
      assert [ts[0]] + (ts[1..] + [x]) == ts + [x];
    }
  }

  /** One pass of the outer loop over the data of term t at position i. */
  lemma DecodeTermsStep(v: seq<real>, n: nat, i: nat, t: Term, acc: seq<Term>)
    requires Sorted(acc) && |t.row| == 2 * n
    requires i + n + 2 < |v|
    requires forall j :: 0 <= j < n ==> v[i + j] == PauliCode(Decode(t.row)[j])
    requires v[i + n] == t.coeff.re && v[i + n + 1] == t.coeff.im
    ensures DecodeTerms(v, n, i, acc) == DecodeTerms(v, n, i + n + 2, Emplace(acc, t.row, t.coeff))
  {
    DecodeCodesOfData(v, i, Decode(t.row));
    RowOfDecode(t.row);
  }

  /** Decoding the data of sorted terms after an already decoded sorted
      prefix `acc` appends exactly those terms. */
  lemma {:induction false} DecodeTermsOfData(pre: seq<real>, ts: seq<Term>, n: nat, last: real, acc: seq<Term>)
    requires UniformRows(ts, n) && Sorted(ts) && Sorted(acc)
    requires forall a, t :: a in acc && t in ts ==> RowLess(a.row, t.row)
    ensures DecodeTerms(pre + TermsData(ts, n) + [last], n, |pre|, acc) == Ok(acc + ts)
    decreases |ts|
  {
    if ts == [] {
      assert pre + TermsData(ts, n) + [last] == pre + [last];
      assert acc + ts == acc;
    } else {
      var t := ts[0];
      var pre' := pre + TermData(t.row, n, t.coeff);
      TermsDataSplit(pre, ts, n);
      DecodeTermsConsumesHead(pre, ts, n, last, acc);
      DecodeTermsOrderStep(ts, n, acc);
      DecodeTermsOfData(pre', ts[1..], n, last, acc + [t]);
      SeqShift(acc, ts);
    }
  }

  lemma TermsDataSplit(pre: seq<real>, ts: seq<Term>, n: nat)
    requires UniformRows(ts, n) && ts != []
    ensures 2 * n <= |ts[0].row|
    ensures pre + TermsData(ts, n) == (pre + TermData(ts[0].row, n, ts[0].coeff)) + TermsData(ts[1..], n)
  {
    assert ts[0] in ts;
    AppendAssociates(pre, TermData(ts[0].row, n, ts[0].coeff), TermsData(ts[1..], n));
  }

  /** The decoder consumes the first term's data and appends the term. */
  lemma DecodeTermsConsumesHead(pre: seq<real>, ts: seq<Term>, n: nat, last: real, acc: seq<Term>)
    requires UniformRows(ts, n) && Sorted(ts) && Sorted(acc) && ts != []
    requires forall a, t :: a in acc && t in ts ==> RowLess(a.row, t.row)
    ensures 2 * n <= |ts[0].row|
    ensures var pre' := pre + TermData(ts[0].row, n, ts[0].coeff);
      DecodeTerms(pre' + TermsData(ts[1..], n) + [last], n, |pre|, acc)
        == DecodeTerms(pre' + TermsData(ts[1..], n) + [last], n, |pre'|, acc + [ts[0]])
  {
    var t := ts[0];
    assert t in ts;
    var chunk := TermData(t.row, n, t.coeff);
    var rest := TermsData(ts[1..], n);
    var v := (pre + chunk) + rest + [last];
    assert v == pre + chunk + (rest + [last]) by {
      AppendAssociates(pre + chunk, rest, [last]);
    }
    ChunkFacts(v, pre, chunk, rest + [last], t, n);
    DecodeTermsStep(v, n, |pre|, t, acc);
    EmplaceHead(acc, ts);
    var i' := |pre + chunk|;
    assert i' == |pre| + n + 2;
    var acc' := Emplace(acc, t.row, t.coeff);
    assert DecodeTerms(v, n, |pre|, acc) == DecodeTerms(v, n, i', acc');
  }

  lemma EmplaceHead(acc: seq<Term>, ts: seq<Term>)
    requires Sorted(ts) && Sorted(acc) && ts != []
    requires forall a, t :: a in acc && t in ts ==> RowLess(a.row, t.row)
    ensures Emplace(acc, ts[0].row, ts[0].coeff) == acc + [ts[0]]
  {
    AppendedStillBelow(acc, ts[0], ts);
    EmplaceAbove(acc, ts[0]);
  }

  /** After the first term is appended, the rest of the terms still lie
      above everything decoded. */
  lemma DecodeTermsOrderStep(ts: seq<Term>, n: nat, acc: seq<Term>)
    requires UniformRows(ts, n) && Sorted(ts) && Sorted(acc) && ts != []
    requires forall a, t :: a in acc && t in ts ==> RowLess(a.row, t.row)
    ensures UniformRows(ts[1..], n) && Sorted(ts[1..]) && Sorted(acc + [ts[0]])
    ensures forall a, u :: a in acc + [ts[0]] && u in ts[1..] ==> RowLess(a.row, u.row)
  {
    AppendedStillBelow(acc, ts[0], ts);
    EmplaceAbove(acc, ts[0]);
    SortedTail(ts);
    assert UniformRows(ts[1..], n) by {
      forall u | u in ts[1..] ensures |u.row| == 2 * n { assert u in ts; }
    }
  }

  lemma SeqShift<T>(a: seq<T>, b: seq<T>)
    requires b != []
    ensures (a + [b[0]]) + b[1..] == a + b
  {
    assert b == [b[0]] + b[1..];
  }

  lemma ChunkFacts(v: seq<real>, pre: seq<real>, chunk: seq<real>, post: seq<real>, t: Term, n: nat)
    requires 2 * n <= |t.row| && chunk == TermData(t.row, n, t.coeff) && |post| >= 1
    requires |t.row| == 2 * n && v == pre + chunk + post
    ensures |pre| + n + 2 < |v|
    ensures forall j :: 0 <= j < n ==> v[|pre| + j] == PauliCode(Decode(t.row)[j])
    ensures v[|pre| + n] == t.coeff.re && v[|pre| + n + 1] == t.coeff.im
  {
    forall j | 0 <= j < n ensures v[|pre| + j] == PauliCode(Decode(t.row)[j]) {
      assert v[|pre| + j] == chunk[j];
    }
    assert v[|pre| + n] == chunk[n];
    assert v[|pre| + n + 1] == chunk[n + 1];
  }

  lemma AppendedStillBelow(acc: seq<Term>, t: Term, ts: seq<Term>)
    requires Sorted(ts) && |ts| >= 1 && t == ts[0]
    requires forall a, u :: a in acc && u in ts ==> RowLess(a.row, u.row)
    ensures forall a :: a in acc ==> RowLess(a.row, t.row)
    ensures forall a, u :: a in acc + [t] && u in ts[1..] ==> RowLess(a.row, u.row)
  {
    HeadBelowTail(ts);
    forall a, u | a in acc + [t] && u in ts[1..] ensures RowLess(a.row, u.row) {
      assert u in ts;
      if a in acc { assert t in ts; } else { assert a == t; }
    }
    forall a | a in acc ensures RowLess(a.row, t.row) { assert t in ts; }
  }

  lemma XRow()
    ensures SinglePauliRow(X, 0) == [true, false]
    ensures RowOf([X]) == [true, false]
  {
    assert XBit(X) && !ZBit(X);
    assert SinglePauliRow(X, 0)[0] && !SinglePauliRow(X, 0)[1];
    assert RowOf([X])[0] && !RowOf([X])[1];
  }

  lemma TruncOfCount(k: nat)
    ensures TruncToInt(k as real) == k
  {
  }

  /** The term decoder reads back every term of the data representation. */
  lemma DecodeAllOfData(op: SpinOp, n: nat)
    requires WellFormed(op, n) && |op.terms| >= 1
    ensures var v := GetDataRepresentation(op, n);
      && |v| == |op.terms| * (n + 2) + 1
      && TruncToInt(v[|v| - 1]) == |op.terms|
      && DecodeTerms(v, n, 0, []) == Ok(op.terms)
  {
    var ts := op.terms;
    var nt := |ts|;
    var v := GetDataRepresentation(op, n);
    TruncOfCount(nt);
    assert [] + TermsData(ts, n) + [nt as real] == v;
    DecodeTermsOfData([], ts, n, nt as real, []);
    assert [] + ts == ts;
  }

  /** The data representation of a well-formed operator decodes back to
      it, whatever its number of terms. */
  lemma DataRoundTrip(op: SpinOp, n: nat)
    requires WellFormed(op, n) && |op.terms| >= 1
    requires |op.terms| * (n + 2) + 1 < SizeModulus
    ensures FromData(GetDataRepresentation(op, n), n) == Ok(op)
  {
    var nt := |op.terms|;
    var v := GetDataRepresentation(op, n);
    DecodeAllOfData(op, n);
    assert |v| - 1 - 2 * nt == nt * n by {
      assert nt * (n + 2) == nt * n + 2 * nt;
    }
    MulNonNeg(nt, n);
    DivUnique(nt * n, nt, n, 0);
  }

  /** The length check as written accepts the data of two or more terms. */
  lemma DataRoundTripAsWrittenMultiTerm(op: SpinOp, n: nat)
    requires WellFormed(op, n) && |op.terms| >= 2
    requires |op.terms| * (n + 2) + 1 < SizeModulus
    ensures FromDataAsWritten(GetDataRepresentation(op, n), n) == Ok(op)
  {
    var nt := |op.terms|;
    var v := GetDataRepresentation(op, n);
    DecodeAllOfData(op, n);
    assert |v| - 2 * nt == nt * n + 1 by {
      assert nt * (n + 2) == nt * n + 2 * nt;
    }
    MulNonNeg(nt, n);
    DivUnique(nt * n + 1, nt, n, 1);
  }

  /** The single-term operator X on qubit 0: its data is rejected by the
      length check as written, since (4 - 2) / 1 is 2, not 1. */
  lemma SingleTermDataRejected()
    ensures GetDataRepresentation(SingleOp(X, 0, One), 1) == [1.0, 1.0, 0.0, 1.0]
    ensures FromDataAsWritten(GetDataRepresentation(SingleOp(X, 0, One), 1), 1) == Err(InvalidLength)
    ensures FromData(GetDataRepresentation(SingleOp(X, 0, One), 1), 1) == Ok(SingleOp(X, 0, One))
  {
    var op := SingleOp(X, 0, One);
    XRow();
    assert TermsData(op.terms, 1) == TermData([true, false], 1, One);
    assert TermData([true, false], 1, One) == [1.0, 1.0, 0.0];
    TruncOfCount(1);
    DataRoundTrip(op, 1);
  }

  /** The encoding as written on the same operator: half of one term is no
      qubit, so no code is written, and decoding it over one qubit reads the
      imaginary part as the code and the term count as the imaginary part. */
  lemma DataRepresentationAsWrittenLosesCodes()
    ensures GetDataRepresentationAsWritten(SingleOp(X, 0, One)) == Some([1.0, 0.0, 1.0])
    ensures FromDataAsWritten(GetDataRepresentationAsWritten(SingleOp(X, 0, One)).value, 1)
         == Ok(SpinOp([Term([true, false], Complex(0.0, 1.0))]))
    ensures SingleOp(X, 0, One) != SpinOp([Term([true, false], Complex(0.0, 1.0))])
  {
    var op := SingleOp(X, 0, One);
    assert |op.terms| / 2 == 0;
    assert !exists t :: t in op.terms && |t.row| < 2 * (|op.terms| / 2);
    assert op.terms[1..] == [];
    assert TermData(op.terms[0].row, 0, One) == [1.0, 0.0];
    assert TermsData(op.terms, 0) == [1.0, 0.0];
    assert GetDataRepresentationAsWritten(op).value == TermsData(op.terms, 0) + [1.0];
    assert [1.0, 0.0] + [1.0] == [1.0, 0.0, 1.0];
    var v := [1.0, 0.0, 1.0];
    TruncOfCount(1);
    DecodeCodesOfData(v, 0, [X]);
    XRow();
    assert Emplace([], [true, false], Complex(0.0, 1.0)) == [Term([true, false], Complex(0.0, 1.0))];
  }
}
