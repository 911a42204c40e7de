/** C#'s `int`: 32-bit two's complement, with unchecked (wrapping) addition. */
module Int32 {

  const Modulus: int := 0x1_0000_0000
  const Min: int := -0x8000_0000
  const Max: int := 0x7FFF_FFFF

  type int32 = x: int | Min <= x <= Max

  /** Truncation of a mathematical integer to its low 32 bits, read as signed. */
  function Wrap(x: int): (r: int32)
    ensures Min <= x <= Max ==> r == x
  {
    (x - Min) % Modulus + Min
  }

  /** `a + b` in an unchecked context. */
  function Add(a: int32, b: int32): (sum: int32) {
    Wrap(a + b)
  }

  /** Two integers that differ by a multiple of the modulus wrap to the same value. */
  lemma {:induction false} WrapCongruent(x: int, y: int, k: int)
    requires x == y + k * Modulus
    ensures Wrap(x) == Wrap(y)
  {
    var qy := (y - Min) / Modulus;
    var ry := (y - Min) % Modulus;
    assert x - Min == (qy + k) * Modulus + ry;
    ModUnique(x - Min, qy + k, ry);
  }

  /** Euclidean remainder by the modulus is determined by any quotient/remainder pair. */
  lemma {:induction false} ModUnique(b: int, q: int, r: int)
    requires b == q * Modulus + r && 0 <= r < Modulus
    ensures b % Modulus == r
  {
    var q' := b / Modulus;
    var r' := b % Modulus;
    assert b == q' * Modulus + r';
    assert (q - q') * Modulus == r' - r;
  }

  /** Wrapping an intermediate sum does not change the wrapped total. */
  lemma {:induction false} WrapAbsorbs(x: int, y: int)
    ensures Wrap(Wrap(x) + y) == Wrap(x + y)
  {
    var k := (x - Min) / Modulus;
    assert x == Wrap(x) + k * Modulus;
    WrapCongruent(x + y, Wrap(x) + y, k);
  }
}
