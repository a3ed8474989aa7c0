/** Bytes, byte strings and optional values, shared by the models. */
module Bytes {

  datatype Option<T> = None | Some(value: T)

  type Byte = b: int | 0 <= b < 0x100

  function Zeros(n: nat): (r: seq<Byte>)
    ensures |r| == n
    ensures forall i :: 0 <= i < n ==> r[i] == 0
  {
    seq(n, _ => 0)
  }

  /** A number of k bytes as it lies in memory, low byte first. */
  function Le(n: nat, k: nat): (r: seq<Byte>)
    ensures |r| == k
  {
    if k == 0 then [] else [n % 0x100] + Le(n / 0x100, k - 1)
  }

  /** The shortest Ethernet frame, without its check sequence. */
  const ETH_MIN: nat := 60

  /** A frame padded with zeros to the Ethernet minimum. */
  function Padded(f: seq<Byte>): (r: seq<Byte>)
    ensures |r| == Max(|f|, ETH_MIN) && f <= r
    ensures forall i :: |f| <= i < |r| ==> r[i] == 0
  {
    if |f| < ETH_MIN then f + Zeros(ETH_MIN - |f|) else f
  }

  function Min(a: int, b: int): int {
    if a < b then a else b
  }

  function Max(a: int, b: int): int {
    if a < b then b else a
  }
}
