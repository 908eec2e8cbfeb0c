/** Shared vocabulary of the marker detector: pixel points, optional values,
    and the Python exceptions a frame can end in. */
module Common {

  /** An integer (x, y) pixel coordinate. */
  datatype Point = Point(x: int, y: int)

  datatype Option<T> = None | Some(value: T)

  /** The exceptions the detector raises while processing one frame:
      an out-of-range list or array index, and `range` called with step 0. */
  datatype Fault = IndexError | ValueError

  /** Either a value or the exception that ended the computation. */
  datatype Result<T> = Ok(value: T) | Err(fault: Fault)

  /** A string of binary digits, as `int(s, 2)` accepts it. */
  predicate IsBinary(s: seq<char>) {
    forall i :: 0 <= i < |s| ==> s[i] == '0' || s[i] == '1'
  }

  function Abs(n: int): (r: nat)
    ensures r == n || r == -n
  {
    if n < 0 then -n else n
  }

  function Max(a: int, b: int): (r: int)
    ensures a <= r && b <= r && (r == a || r == b)
  {
    if a < b then b else a
  }

  /** Euclidean division has one quotient: a lemma used for the integer
      forms of the source's divisions. */
  lemma DivUnique(n: int, m: int, c: int)
    requires m > 0 && m * c <= n < m * c + m
    ensures n / m == c
  {
    var q, r := n / m, n % m;
    assert n == m * q + r && 0 <= r < m;
    if q < c {
      assert m * (c - q) >= m * 1 by { MulMonotone(m, 1, c - q); }
      assert false;
    } else if q > c {
      assert m * (q - c) >= m * 1 by { MulMonotone(m, 1, q - c); }
      assert false;
    }
  }

  /** Euclidean division brackets its dividend. */
  lemma DivBounds(q: int, m: int)
    requires m > 0
    ensures m * (q / m) <= q < m * (q / m) + m
  {
  }

  lemma MulMonotone(m: int, a: int, b: int)
    requires m >= 0 && a <= b
    ensures m * a <= m * b
  {
    assert m * b - m * a == m * (b - a);
  }
}
