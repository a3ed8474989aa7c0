/**
The DMA descriptor rings of the Cvitek (DWMAC) Ethernet driver (driver/eth/cvitek_eth.c).
An OWN bit in each descriptor says whether the engine or the driver may touch it; the engine
goes round the ring in order and wraps where the end-of-ring bit tells it to.

A ring is described by how many frames have entered it and how many have left it, so nothing
here is bounded: frame k uses slot k mod the ring size.
*/
module CvitekRings {

  import opened Arith
  import opened Bytes

  const BUF_SIZE: nat := 2048

  type Frame = seq<Byte>

  /** Slots of numbers less than a ring apart are different. */
  lemma SlotsDiffer(a: nat, b: nat, n: nat)
    requires 0 < n && a < b < a + n
    ensures a % n != b % n
  {
    var d := b - a;
    assert b == a / n * n + a % n + d;
    if a % n + d < n {
      assert b / n == a / n && b % n == a % n + d by { DivMod(b, n, a / n, a % n + d); }
    } else {
      DivMod(b, n, a / n + 1, a % n + d - n);
    }
  }

  /** The engine's next position. */
  lemma NextSlot(k: nat, n: nat)
    requires 0 < n
    ensures (k + 1) % n == if k % n == n - 1 then 0 else k % n + 1
    ensures (k + n) % n == k % n
  {
    if k % n == n - 1 {
      DivMod(k + 1, n, k / n + 1, 0);
    } else {
      DivMod(k + 1, n, k / n, k % n + 1);
    }
    DivMod(k + n, n, k / n + 1, k % n);
  }
}
