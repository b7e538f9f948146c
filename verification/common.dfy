/** Failure-carrying results shared by every module of the model. */
module Common {

  /** An optional value (a C++ `std::optional`, or a lookup that may miss). */
  datatype Option<+T> = None | Some(value: T)

  /** The outcome of an operation that can report an error instead of a value
      (a C++ exception, an MLIR `failure()` with a diagnostic, ...). */
  datatype Result<+T, +E> = Ok(value: T) | Err(error: E)

  /** 2^64: the modulus of C++ `std::size_t` and `uint64_t` arithmetic. */
  const SizeModulus: nat := 0x1_0000_0000_0000_0000

  /** 2^32: the modulus of C++ `uint32_t` and `unsigned` arithmetic. */
  const U32Modulus: nat := 0x1_0000_0000

  /** Conversion of a (possibly negative) integer to `std::size_t`: two's
      complement wrap-around. */
  function ToSize(x: int): (r: nat)
    ensures r < SizeModulus
    ensures 0 <= x < SizeModulus ==> r == x
  {
    x % SizeModulus
  }

  /** C++ integer division, which truncates toward zero (Dafny's `/` is
      Euclidean). */
  function CppDiv(a: int, b: int): (q: int)
    requires b != 0
    ensures a >= 0 && b > 0 ==> q == a / b
  {
    if a >= 0 && b > 0 then a / b
    else if a >= 0 then -(a / -b)
    else if b > 0 then -((-a) / b)
    else (-a) / (-b)
  }

  /** C++ `%` on integers: the remainder takes the sign of the dividend. */
  function CppRem(a: int, b: int): (r: int)
    requires b != 0
    ensures a >= 0 && b > 0 ==> r == a % b
    ensures a < 0 && b > 0 ==> -b < r <= 0
  {
    a - b * CppDiv(a, b)
  }

  /** Number of occurrences of `x` in `s`. */
  function Count<T(==)>(s: seq<T>, x: T): (n: nat)
    ensures n <= |s|
    ensures x !in s ==> n == 0
  {
    if |s| == 0 then 0 else (if s[0] == x then 1 else 0) + Count(s[1..], x)
  }

  lemma CountAppend<T>(s: seq<T>, t: seq<T>, x: T)
    ensures Count(s + t, x) == Count(s, x) + Count(t, x)
  {
    if |s| == 0 {
      assert s + t == t;
    } else {
      assert (s + t)[1..] == s[1..] + t;
      CountAppend(s[1..], t, x);
    }
  }

  /** Sequence concatenation is associative. */
  lemma AppendAssociates<T>(x: seq<T>, y: seq<T>, z: seq<T>)
    ensures x + (y + z) == (x + y) + z
  {
  }

  /** No element occurs twice. Stated recursively, so that the solver only
      learns about the pairs a proof asks for through NoRepeatsApart. */
  predicate NoRepeats<T(==)>(s: seq<T>)
    decreases |s|
  {
    |s| == 0 || (s[0] !in s[1..] && NoRepeats(s[1..]))
  }

  lemma {:induction false} NoRepeatsApart<T>(s: seq<T>, i: nat, j: nat)
    requires NoRepeats(s) && i < j < |s|
    ensures s[i] != s[j]
    decreases i
  {
    if i == 0 {
      assert s[j] == s[1..][j - 1];
    } else {
      NoRepeatsApart(s[1..], i - 1, j - 1);
    }
  }

  lemma {:induction false} NoRepeatsOfApart<T>(s: seq<T>)
    requires forall i, j :: 0 <= i < j < |s| ==> s[i] != s[j]
    ensures NoRepeats(s)
    decreases |s|
  {
    if |s| > 0 {
      var t := s[1..];
      assert s[0] !in t by {
        forall k | 0 <= k < |t| ensures t[k] != s[0] {
          assert t[k] == s[k + 1];
        }
      }
      assert forall i, j :: 0 <= i < j < |t| ==> t[i] != t[j] by {
        forall i, j | 0 <= i < j < |t| ensures t[i] != t[j] {
          assert t[i] == s[i + 1] && t[j] == s[j + 1];
        }
      }
      NoRepeatsOfApart(t);
    }
  }

  /** Decimal rendering of a natural number, as `std::to_string` and
      `llvm::formatv` print it. */
  function NatToString(n: nat): (s: string)
    ensures |s| >= 1
    ensures forall i :: 0 <= i < |s| ==> '0' <= s[i] <= '9'
    decreases n
  {
    if n < 10 then [DigitChar(n)] else NatToString(n / 10) + [DigitChar(n % 10)]
  }

  function DigitChar(d: nat): (c: char)
    requires d < 10
    ensures '0' <= c <= '9' && c as int - '0' as int == d
  {
    ('0' as int + d) as char
  }

  /** Euclidean division is determined by any quotient and in-range
      remainder. */
  lemma DivUnique(x: int, b: int, q: int, r: int)
    requires b > 0 && 0 <= r < b && x == q * b + r
    ensures x / b == q
  {
    var q', r' := x / b, x % b;
    assert x == q' * b + r';
    var d := q - q';
    assert d * b == r' - r by {
      assert q * b - q' * b == (q - q') * b;
    }
    if d >= 1 {
      MulAtLeast(d, b);
    } else if d <= -1 {
      MulAtLeast(-d, b);
    }
  }

  lemma MulAtLeast(k: int, b: int)
    requires k >= 1 && b > 0
    ensures k * b >= b
  {
    assert k * b == (k - 1) * b + b;
    MulNonNeg(k - 1, b);
  }

  lemma MulNonNeg(k: int, b: int)
    requires k >= 0 && b >= 0
    ensures k * b >= 0
  {
  }

}
