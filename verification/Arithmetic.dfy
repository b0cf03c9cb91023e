/** What several modules need of integers. */
module Arithmetic {

  const PAGE_SIZE := 4096

  /** `PAGE_ALIGN` of both programs, which rounds down. */
  function PageAlign(addr: nat): (a: nat)
    ensures a <= addr < a + PAGE_SIZE && a == addr / PAGE_SIZE * PAGE_SIZE && a % PAGE_SIZE == 0
  {
    addr - addr % PAGE_SIZE
  }

  function Zeros(n: nat): (z: seq<nat>)
    ensures |z| == n && forall k :: 0 <= k < n ==> z[k] == 0
  {
    seq(n, _ => 0)
  }

  function Min(a: int, b: int): int { if a < b then a else b }

  lemma MulMonotone(a: int, b: int, c: nat)
    requires a <= b
    ensures a * c <= b * c
  {
  }

  lemma DivOfProduct(a: nat, b: nat)
    requires a > 0
    ensures a * b / a == b
  {
    var q := a * b / a;
    assert a * q <= a * b < a * (q + 1);
    if q < b { MulMonotone(q + 1, b, a); }
    if b < q { MulMonotone(b + 1, q, a); }
  }
}
