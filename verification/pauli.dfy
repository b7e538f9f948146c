/** Pauli terms in binary-symplectic form (runtime/cudaq/spin/spin_op.cpp):
    a term on n qubits is a row of 2n bits, the x-bits of qubits 0..n-1
    followed by their z-bits. This module holds the decoding table, the
    single-Pauli constructor and the product of two rows with its phase. */
module Pauli {
  import opened Common

  datatype Pauli = I | X | Y | Z

  type Row = seq<bool>

  /** Complex coefficients, exact. */
  datatype Complex = Complex(re: real, im: real)

  const One: Complex := Complex(1.0, 0.0)
  const Zero: Complex := Complex(0.0, 0.0)

  function Add(a: Complex, b: Complex): Complex
  {
    Complex(a.re + b.re, a.im + b.im)
  }

  function Mul(a: Complex, b: Complex): Complex
  {
    Complex(a.re * b.re - a.im * b.im, a.re * b.im + a.im * b.re)
  }

  /** The Pauli on qubit `i` of a row over `n` qubits: both bits give Y,
      only the x-bit X, only the z-bit Z, neither I. */
  function PauliAt(row: Row, n: nat, i: nat): Pauli
    requires 2 * n <= |row| && i < n
  {
    if row[i] && row[i + n] then Y
    else if row[i] then X
    else if row[i + n] then Z
    else I
  }

  /** The bits that encode a Pauli, the inverse of the table above. */
  function XBit(p: Pauli): bool { p == X || p == Y }
  function ZBit(p: Pauli): bool { p == Z || p == Y }

  lemma PauliAtIsDecoding(row: Row, n: nat, i: nat)
    requires 2 * n <= |row| && i < n
    ensures XBit(PauliAt(row, n, i)) == row[i]
    ensures ZBit(PauliAt(row, n, i)) == row[i + n]
  {
  }

  /** The Paulis of all qubits of a row, in qubit order. */
  function Decode(row: Row): (ps: seq<Pauli>)
    ensures |ps| == |row| / 2
    ensures forall i :: 0 <= i < |ps| ==> ps[i] == PauliAt(row, |row| / 2, i)
  {
    seq(|row| / 2, i requires 0 <= i < |row| / 2 => PauliAt(row, |row| / 2, i))
  }

  /** The row of the term `spin_op(type, idx)`: idx + 1 qubits, the x-bit of
      qubit idx set for X and Y, its z-bit for Z and Y. */
  function SinglePauliRow(p: Pauli, idx: nat): (row: Row)
    ensures |row| == 2 * (idx + 1)
  {
    var m := idx + 1;
    seq(2 * m, j => (j == idx && XBit(p)) || (j == idx + m && ZBit(p)))
  }

  /** Decoding the single-Pauli term gives the Pauli back at idx and the
      identity on every lower qubit. */
  lemma SinglePauliDecodes(p: Pauli, idx: nat)
    ensures Decode(SinglePauliRow(p, idx)) == Identities(idx) + [p]
  {
    var row := SinglePauliRow(p, idx);
    var ps := Decode(row);
    var want := Identities(idx) + [p];
    assert |ps| == |want|;
    forall i | 0 <= i < |ps| ensures ps[i] == want[i] {
      assert row[i] == (i == idx && XBit(p));
      assert row[i + idx + 1] == (i == idx && ZBit(p));
    }
  }

  /** The identity on each of n qubits. */
  function Identities(n: nat): (ps: seq<Pauli>)
    ensures |ps| == n && forall i :: 0 <= i < n ==> ps[i] == I
  {
    seq(n, _ => I)
  }

  // ---------------------------------------------------------------------
  // Products
  // ---------------------------------------------------------------------

  /** The phase table of `mult`: index k stands for (-i)^k. */
  function PhaseValue(k: int): (c: Complex)
    requires 0 <= k < 4
  {
    if k == 0 then One
    else if k == 1 then Complex(0.0, -1.0)
    else if k == 2 then Complex(-1.0, 0.0)
    else Complex(0.0, 1.0)
  }

  /** `phase_coeff_map[k]`: `std::map::operator[]` returns a zero
      coefficient for a key outside the table. */
  function PhaseLookup(k: int): (c: Complex)
    ensures 0 <= k < 4 ==> c == PhaseValue(k)
    ensures !(0 <= k < 4) ==> c == Zero
  {
    if 0 <= k < 4 then PhaseValue(k) else Zero
  }

  /** The bitwise exclusive or of two rows. */
  function XorRow(a: Row, b: Row): (r: Row)
    requires |a| == |b|
    ensures |r| == |a|
    ensures forall i :: 0 <= i < |a| ==> r[i] == (a[i] != b[i])
  {
    seq(|a|, i requires 0 <= i < |a| => a[i] != b[i])
  }

  function B2I(b: bool): int { if b then 1 else 0 }

  /** Number of Y's among the first k qubits. */
  function YCount(row: Row, n: nat, k: nat): nat
    requires |row| == 2 * n && k <= n
  {
    if k == 0 then 0 else YCount(row, n, k - 1) + B2I(row[k - 1] && row[k - 1 + n])
  }

  /** Number of qubits among the first k where `a` has its x-bit and `b` its
      z-bit set. */
  function CrossCount(a: Row, b: Row, n: nat, k: nat): nat
    requires |a| == 2 * n && |b| == 2 * n && k <= n
  {
    if k == 0 then 0 else CrossCount(a, b, n, k - 1) + B2I(a[k - 1] && b[k - 1 + n])
  }

  /** The phase index as `mult` accumulates it: the Y's of both factors,
      twice the x-of-a/z-of-b overlaps, less the Y's of the product. */
  function PhaseIndex(a: Row, b: Row): int
    requires |a| == |b| && |a| % 2 == 0
  {
    var n := |a| / 2;
    YCount(a, n, n) + YCount(b, n, n) + 2 * CrossCount(a, b, n, n) - YCount(XorRow(a, b), n, n)
  }

  /** `mult` as written: the product row and the coefficient, with the
      phase index reduced by C++'s truncating `%`. */
  function MultAsWritten(a: Row, b: Row, c1: Complex, c2: Complex): (r: (Complex, Row))
    requires |a| == |b| && |a| % 2 == 0
    ensures r.1 == XorRow(a, b)
    ensures PhaseIndex(a, b) >= 0 ==> r.0 == Mul(c1, Mul(PhaseValue(PhaseIndex(a, b) % 4), c2))
  {
    (Mul(c1, Mul(PhaseLookup(CppRem(PhaseIndex(a, b), 4)), c2)), XorRow(a, b))
  }

  /** `mult` with the phase index reduced into 0..3. */
  function Mult(a: Row, b: Row, c1: Complex, c2: Complex): (r: (Complex, Row))
    requires |a| == |b| && |a| % 2 == 0
    ensures r.1 == XorRow(a, b)
    ensures PhaseIndex(a, b) >= 0 ==> r == MultAsWritten(a, b, c1, c2)
  {
    (Mul(c1, Mul(PhaseValue(PhaseIndex(a, b) % 4), c2)), XorRow(a, b))
  }

  /** Z times X on one qubit is iY, but the phase index is -1, C++'s `%`
      keeps it at -1, and the missing table entry zeroes the product. */
  lemma MultAsWrittenZeroesZX()
    ensures MultAsWritten([false, true], [true, false], One, One) == (Zero, [true, true])
    ensures Mult([false, true], [true, false], One, One) == (Complex(0.0, 1.0), [true, true])
    ensures PauliAt([true, true], 1, 0) == Y
  {
    var a, b := [false, true], [true, false];
    assert XorRow(a, b) == [true, true];
    assert YCount(a, 1, 1) == 0 && YCount(b, 1, 1) == 0;
    assert CrossCount(a, b, 1, 1) == 0;
    assert YCount([true, true], 1, 1) == 1;
    assert PhaseIndex(a, b) == -1;
  }

  // ---------------------------------------------------------------------
  // The single-qubit Pauli algebra
  // ---------------------------------------------------------------------

  /** A product of two Paulis: (-i)^phase times a Pauli. */
  datatype Product = Product(phase: nat, pauli: Pauli)

  /** The multiplication table of the Pauli matrices:
      XY = iZ, YZ = iX, ZX = iY, YX = -iZ, ZY = -iX, XZ = -iY, PP = I. */
  function PauliProduct(p: Pauli, q: Pauli): (r: Product)
    ensures r.phase < 4
  {
    match (p, q)
    case (I, _) => Product(0, q)
    case (_, I) => Product(0, p)
    case (X, X) => Product(0, I)
    case (Y, Y) => Product(0, I)
    case (Z, Z) => Product(0, I)
    case (X, Y) => Product(3, Z)
    case (Y, Z) => Product(3, X)
    case (Z, X) => Product(3, Y)
    case (Y, X) => Product(1, Z)
    case (Z, Y) => Product(1, X)
    case (X, Z) => Product(1, Y)
  }

  /** The contribution of qubit i to the phase index. */
  function LocalIndex(a: Row, b: Row, n: nat, i: nat): int
    requires |a| == 2 * n && |b| == 2 * n && i < n
  {
    B2I(a[i] && a[i + n]) + B2I(b[i] && b[i + n]) + 2 * B2I(a[i] && b[i + n])
      - B2I((a[i] != b[i]) && (a[i + n] != b[i + n]))
  }

  function LocalSum(a: Row, b: Row, n: nat, k: nat): int
    requires |a| == 2 * n && |b| == 2 * n && k <= n
  {
    if k == 0 then 0 else LocalSum(a, b, n, k - 1) + LocalIndex(a, b, n, k - 1)
  }

  /** Qubit by qubit, the product row holds the Pauli product and the local
      index is its phase modulo 4. */
  lemma LocalIndexIsPauliProduct(a: Row, b: Row, n: nat, i: nat)
    requires |a| == 2 * n && |b| == 2 * n && i < n
    ensures PauliAt(XorRow(a, b), n, i) == PauliProduct(PauliAt(a, n, i), PauliAt(b, n, i)).pauli
    ensures LocalIndex(a, b, n, i) % 4 == PauliProduct(PauliAt(a, n, i), PauliAt(b, n, i)).phase
    ensures -1 <= LocalIndex(a, b, n, i) <= 4
  {
    var x := XorRow(a, b);
    assert x[i] == (a[i] != b[i]) && x[i + n] == (a[i + n] != b[i + n]);
  }

  /** The counts `mult` keeps add up to the sum of the local indices. */
  lemma {:induction false} CountsAreLocalSum(a: Row, b: Row, n: nat, k: nat)
    requires |a| == 2 * n && |b| == 2 * n && k <= n
    ensures YCount(a, n, k) + YCount(b, n, k) + 2 * CrossCount(a, b, n, k) - YCount(XorRow(a, b), n, k)
         == LocalSum(a, b, n, k)
  {
    if k > 0 {
      CountsAreLocalSum(a, b, n, k - 1);
      var x := XorRow(a, b);
      assert x[k - 1] == (a[k - 1] != b[k - 1]) && x[k - 1 + n] == (a[k - 1 + n] != b[k - 1 + n]);
    }
  }

  /** Multiplication by (-i)^k, k in 0..3, as a rotation of the complex
      plane. */
  function Rotate(k: int, c: Complex): Complex
    requires 0 <= k < 4
  {
    if k == 0 then c
    else if k == 1 then Complex(c.im, -c.re)
    else if k == 2 then Complex(-c.re, -c.im)
    else Complex(-c.im, c.re)
  }

  lemma PhaseValueRotates(k: int, c: Complex)
    requires 0 <= k < 4
    ensures Mul(PhaseValue(k), c) == Rotate(k, c)
  {
    if k == 0 {} else if k == 1 {} else if k == 2 {} else {}
  }

  /** Index k to (-i)^k is a homomorphism from the integers modulo 4. */
  lemma RotationsAdd(p: int, q: int, c: Complex)
    ensures Rotate(p % 4, Rotate(q % 4, c)) == Rotate((p + q) % 4, c)
  {
    var a, b := p % 4, q % 4;
    assert p == 4 * (p / 4) + a && q == 4 * (q / 4) + b;
    ModFourShift(a + b, p / 4 + q / 4);
  }

  lemma ModFourShift(r: int, k: int)
    ensures (r + 4 * k) % 4 == r % 4
  {
  }

  /** `c` multiplied by the phase of the single-qubit product on each of
      the first k qubits. */
  function RotateAll(a: Row, b: Row, n: nat, k: nat, c: Complex): Complex
    requires |a| == 2 * n && |b| == 2 * n && k <= n
  {
    if k == 0 then c
    else Rotate(PauliProduct(PauliAt(a, n, k - 1), PauliAt(b, n, k - 1)).phase, RotateAll(a, b, n, k - 1, c))
  }

  lemma {:induction false} LocalSumRotation(a: Row, b: Row, n: nat, k: nat, c: Complex)
    requires |a| == 2 * n && |b| == 2 * n && k <= n
    ensures Rotate(LocalSum(a, b, n, k) % 4, c) == RotateAll(a, b, n, k, c)
  {
    if k > 0 {
      var s, t := LocalSum(a, b, n, k - 1), LocalIndex(a, b, n, k - 1);
      LocalSumRotation(a, b, n, k - 1, c);
      LocalIndexIsPauliProduct(a, b, n, k - 1);
      RotationsAdd(t, s, c);
      assert LocalSum(a, b, n, k) == t + s;
    }
  }

  /** The row product is the tensor product of the single-qubit Pauli
      products: each qubit of the result holds the product of the factors'
      Paulis, and the coefficient is c1 times c2 turned by each qubit's
      product phase. */
  lemma MultIsPauliProduct(a: Row, b: Row, c1: Complex, c2: Complex)
    requires |a| == |b| && |a| % 2 == 0
    ensures var n := |a| / 2;
      forall i :: 0 <= i < n ==>
        PauliAt(Mult(a, b, c1, c2).1, n, i) == PauliProduct(PauliAt(a, n, i), PauliAt(b, n, i)).pauli
    ensures Mult(a, b, c1, c2).0 == Mul(c1, RotateAll(a, b, |a| / 2, |a| / 2, c2))
  {
    var n := |a| / 2;
    forall i | 0 <= i < n
      ensures PauliAt(Mult(a, b, c1, c2).1, n, i) == PauliProduct(PauliAt(a, n, i), PauliAt(b, n, i)).pauli
    {
      LocalIndexIsPauliProduct(a, b, n, i);
    }
    CountsAreLocalSum(a, b, n, n);
    LocalSumRotation(a, b, n, n, c2);
    PhaseValueRotates(PhaseIndex(a, b) % 4, c2);
  }
}
