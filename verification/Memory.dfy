/**
memcpy, memmove and memset in their generic form (include/string_internal.h): byte loops around
8-, 4- and 2-byte accesses that are used where both sides are aligned.  An address is an index into
the memory array, so source and destination may overlap in every way.
*/
module Memory {

  import opened Bytes

  /** Memory after the n bytes at s have been put at d. */
  function Moved(m: seq<Byte>, d: nat, s: nat, n: nat): (r: seq<Byte>)
    requires d + n <= |m| && s + n <= |m|
    ensures |r| == |m|
  {
    m[..d] + m[s..s + n] + m[d + n..]
  }

  /** Going up is safe when the destination is not above the source inside it. */
  lemma MoveUp(m: seq<Byte>, d: nat, s: nat, i: nat, k: nat)
    requires d + i + k <= |m| && s + i + k <= |m|
    requires d <= s || s + i + k <= d
    ensures Moved(Moved(m, d, s, i), d + i, s + i, k) == Moved(m, d, s, i + k)
  {
  }

  /** Going down is safe when the destination is above the source. */
  lemma MoveDown(m: seq<Byte>, d: nat, s: nat, n: nat, k: nat)
    requires s <= d && k < n && d + n <= |m|
    ensures Moved(Moved(m, d + k + 1, s + k + 1, n - k - 1), d + k, s + k, 1) == Moved(m, d + k, s + k, n - k)
  {
  }

  lemma MoveNothing(m: seq<Byte>, d: nat, s: nat)
    requires d <= |m| && s <= |m|
    ensures Moved(m, d, s, 0) == m
  {
  }

  lemma MoveOnto(m: seq<Byte>, d: nat, n: nat)
    requires d + n <= |m|
    ensures Moved(m, d, d, n) == m
  {
  }

  predicate Aligned(address: nat, k: nat)
    requires k > 0
  {
    address % k == 0
  }

  /** One access of k bytes: all are read before any is written, and both ends are aligned. */
  method CopyWord(mem: array<Byte>, d: nat, s: nat, k: nat)
    requires d + k <= mem.Length && s + k <= mem.Length
    requires k > 0 && Aligned(d, k) && Aligned(s, k)
    modifies mem
    ensures mem[..] == Moved(old(mem[..]), d, s, k)
  {
    var word := mem[s..s + k];
    forall j | 0 <= j < k {
      mem[d + j] := word[j];
    }
    assert mem[..] == Moved(old(mem[..]), d, s, k);
  }

  method CopyByte(mem: array<Byte>, d: nat, s: nat)
    requires d < mem.Length && s < mem.Length
    modifies mem
    ensures mem[..] == Moved(old(mem[..]), d, s, 1)
  {
    mem[d] := mem[s];
    assert mem[..] == Moved(old(mem[..]), d, s, 1);
  }

  /** The loop of aligned accesses of width k, from byte i on. */
  method CopyWords(mem: array<Byte>, d: nat, s: nat, n: nat, k: nat, start: nat) returns (i: nat)
    requires d + n <= mem.Length && s + n <= mem.Length && start <= n && k > 0
    requires d <= s || s + n <= d
    modifies mem
    ensures start <= i <= n
    ensures mem[..] == Moved(old(mem[..]), d + start, s + start, i - start)
  {
    hide Moved, Aligned;
    i := start;
    MoveNothing(mem[..], d + start, s + start);
    while n - i >= k && Aligned(d + i, k) && Aligned(s + i, k)
      invariant start <= i <= n
      invariant mem[..] == Moved(old(mem[..]), d + start, s + start, i - start)
    {
      CopyWord(mem, d + i, s + i, k);
      MoveUp(old(mem[..]), d + start, s + start, i - start, k);
      i := i + k;
    }
  }

  /** memcpy_generic.  The destination may overlap the source from below. */
  method MemCpy(mem: array<Byte>, d: nat, s: nat, n: nat)
    requires d + n <= mem.Length && s + n <= mem.Length
    requires d <= s || s + n <= d
    modifies mem
    ensures mem[..] == Moved(old(mem[..]), d, s, n)
  {
    hide Moved, Aligned;
    var i := 0;
    MoveNothing(mem[..], d, s);
    ghost var m := mem[..];
    if n >= 8 {
      while i < n && (!Aligned(d + i, 2) || !Aligned(s + i, 2))
        invariant i <= n && mem[..] == Moved(m, d, s, i)
      {
        CopyByte(mem, d + i, s + i);
        MoveUp(m, d, s, i, 1);
        i := i + 1;
      }
      var j := CopyWords(mem, d, s, n, 8, i);
      MoveUp(m, d, s, i, j - i);
      i := CopyWords(mem, d, s, n, 4, j);
      MoveUp(m, d, s, j, i - j);
      j := CopyWords(mem, d, s, n, 2, i);
      MoveUp(m, d, s, i, j - i);
      i := j;
    }
    while i < n
      invariant i <= n && mem[..] == Moved(m, d, s, i)
    {
      CopyByte(mem, d + i, s + i);
      MoveUp(m, d, s, i, 1);
      i := i + 1;
    }
  }

  /** memmove_generic, for every address, length and overlap. */
  method MemMove(mem: array<Byte>, d: nat, s: nat, n: nat)
    requires d + n <= mem.Length && s + n <= mem.Length
    modifies mem
    ensures mem[..] == Moved(old(mem[..]), d, s, n)
  {
    hide Moved;
    if d == s || n == 0 {
      MoveOnto(mem[..], d, n);
      MoveNothing(mem[..], d, s);
      return;
    }
    if d < s {
      MemCpy(mem, d, s, n);
      return;
    }
    var k := n;
    MoveNothing(mem[..], d + n, s + n);
    while k > 0
      invariant 0 <= k <= n && mem[..] == Moved(old(mem[..]), d + k, s + k, n - k)
    {
      k := k - 1;
      MoveDown(old(mem[..]), d, s, n, k);
      CopyByte(mem, d + k, s + k);
    }
  }

  // ---------------------------------------------------------------- memset

  /** Memory after n bytes at d have become b. */
  function Filled(m: seq<Byte>, d: nat, b: Byte, n: nat): (r: seq<Byte>)
    requires d + n <= |m|
    ensures |r| == |m|
  {
    m[..d] + seq(n, _ => b) + m[d + n..]
  }

  lemma FillNothing(m: seq<Byte>, d: nat, b: Byte)
    requires d <= |m|
    ensures Filled(m, d, b, 0) == m
  {
  }

  lemma FillUp(m: seq<Byte>, d: nat, b: Byte, i: nat, k: nat)
    requires d + i + k <= |m|
    ensures Filled(Filled(m, d, b, i), d + i, b, k) == Filled(m, d, b, i + k)
  {
  }

  /** The byte in every position of a k-byte word. */
  function Repeated(b: Byte, k: nat): nat {
    if k == 0 then 0 else b + 0x100 * Repeated(b, k - 1)
  }

  lemma {:induction false} RepeatedBytes(b: Byte, k: nat)
    ensures Le(Repeated(b, k), k) == seq(k, _ => b)
  {
    if k > 0 {
      RepeatedBytes(b, k - 1);
      assert Repeated(b, k) / 0x100 == Repeated(b, k - 1);
    }
  }

  /** The multiplications of the source give the repeated byte, without leaving the word. */
  lemma Multipliers(b: Byte)
    ensures 0x0101010101010101 * b == Repeated(b, 8) < 0x1_0000_0000_0000_0000
    ensures 0x01010101 * b == Repeated(b, 4) < 0x1_0000_0000
    ensures 0x0101 * b == Repeated(b, 2) < 0x1_0000
  {
    assert Repeated(b, 1) == b;
    assert Repeated(b, 2) == b + 0x100 * Repeated(b, 1);
    assert Repeated(b, 4) == b + 0x100 * (b + 0x100 * Repeated(b, 2));
    assert Repeated(b, 6) == b + 0x100 * (b + 0x100 * Repeated(b, 4));
    assert Repeated(b, 8) == b + 0x100 * (b + 0x100 * Repeated(b, 6));
  }

  /** One aligned store of a k-byte word, low byte first. */
  method StoreWord(mem: array<Byte>, d: nat, word: nat, k: nat, ghost b: Byte)
    requires k > 0 && Aligned(d, k) && d + k <= mem.Length && word == Repeated(b, k)
    modifies mem
    ensures mem[..] == Filled(old(mem[..]), d, b, k)
  {
    var bytes := Le(word, k);
    RepeatedBytes(b, k);
    forall j | 0 <= j < k {
      mem[d + j] := bytes[j];
    }
    assert mem[..] == Filled(old(mem[..]), d, b, k);
  }

  /** The loop of aligned stores of width k, from byte i on. */
  method FillWords(mem: array<Byte>, d: nat, ghost b: Byte, word: nat, n: nat, k: nat, start: nat) returns (i: nat)
    requires d + n <= mem.Length && start <= n && k > 0 && word == Repeated(b, k)
    modifies mem
    ensures start <= i <= n
    ensures mem[..] == Filled(old(mem[..]), d + start, b, i - start)
  {
    hide Filled, Aligned, Repeated;
    i := start;
    FillNothing(mem[..], d + start, b);
    while n - i >= k && Aligned(d + i, k)
      invariant start <= i <= n
      invariant mem[..] == Filled(old(mem[..]), d + start, b, i - start)
    {
      StoreWord(mem, d + i, word, k, b);
      FillUp(old(mem[..]), d + start, b, i - start, k);
      i := i + k;
    }
  }

  /** memset_generic; c is cut to a byte as in C. */
  method MemSet(mem: array<Byte>, d: nat, c: int, n: nat)
    requires d + n <= mem.Length
    modifies mem
    ensures mem[..] == Filled(old(mem[..]), d, c % 0x100, n)
  {
    hide Filled, Aligned, Repeated;
    var b: Byte := c % 0x100;
    var i := 0;
    ghost var m := mem[..];
    Multipliers(b);
    FillNothing(m, d, b);
    if n >= 8 {
      while i < n && !Aligned(d + i, 2)
        invariant i <= n && mem[..] == Filled(m, d, b, i)
      {
        StoreByte(mem, d + i, b);
        FillUp(m, d, b, i, 1);
        i := i + 1;
      }
      var j := FillWords(mem, d, b, 0x0101010101010101 * b, n, 8, i);
      FillUp(m, d, b, i, j - i);
      i := FillWords(mem, d, b, 0x01010101 * b, n, 4, j);
      FillUp(m, d, b, j, i - j);
      j := FillWords(mem, d, b, 0x0101 * b, n, 2, i);
      FillUp(m, d, b, i, j - i);
      i := j;
    }
    while i < n
      invariant i <= n && mem[..] == Filled(m, d, b, i)
    {
      StoreByte(mem, d + i, b);
      FillUp(m, d, b, i, 1);
      i := i + 1;
    }
  }

  method StoreByte(mem: array<Byte>, d: nat, b: Byte)
    requires d < mem.Length
    modifies mem
    ensures mem[..] == Filled(old(mem[..]), d, b, 1)
  {
    mem[d] := b;
    assert mem[..] == Filled(old(mem[..]), d, b, 1);
  }
}
