/** Arithmetic on 64-bit words. */
module Words {
  import opened Decimal

  /** What a 64-bit word keeps of a result. */
  function Wrap(p: nat): (r: nat)
    ensures r < 0x1_0000_0000_0000_0000
  {
    p % 0x1_0000_0000_0000_0000
  }

  lemma NoWrap(p: nat)
    requires p < 0x1_0000_0000_0000_0000
    ensures Wrap(p) == p
  {}

  /** f << k on 64 bits. */
  function ShiftLeft(f: nat, k: nat): nat {
    Shl(f, k) % 0x1_0000_0000_0000_0000
  }

  lemma NoShiftWrap(f: nat, k: nat)
    requires 0 <= Shl(f, k) < 0x1_0000_0000_0000_0000
    ensures ShiftLeft(f, k) == Shl(f, k)
  {}

  function Product(a: nat, b: nat): nat {
    a * b
  }

  lemma MulLe(a: nat, x: int, y: int)
    requires x <= y
    ensures a * x <= a * y && x * a <= y * a
  {
    assert a * y - a * x == a * (y - x);
  }
}
