/**
fs/lwext4_port/kmalloc.c: a first-fit allocator whose block headers lie inside the byte
array they manage.

`HeapBlocks` is the layout as a value and its laws; `HeapBytes` says how headers spell it in
memory.  The code itself is the class `KMalloc.Arena`.
*/
module HeapBlocks {

  const HDR: nat := 16
  const ALIGN: nat := 16
  const U32: nat := 0x1_0000_0000

  /** A block: where its header starts, how many bytes follow the header, and whether it is free. */
  datatype Block = Block(off: nat, size: nat, free: bool)

  function End(b: Block): nat {
    b.off + HDR + b.size
  }

  /** HEAP_ALIGN_UP on a 64-bit request: the 32-bit mask cuts the sum to 32 bits. */
  function AlignUp(n: nat): nat {
    (n + (ALIGN - 1)) % U32 / ALIGN * ALIGN
  }

  /** The rounding never shrinks a request exactly up to 2^32 - 16 bytes. */
  lemma AlignUpIsAdequate(n: nat)
    ensures AlignUp(n) >= n <==> n <= U32 - ALIGN
    ensures n <= U32 - ALIGN ==> AlignUp(n) < n + ALIGN
    ensures AlignUp(n) % ALIGN == 0
  {
    var s := (n + (ALIGN - 1)) % U32;
    assert s == s / ALIGN * ALIGN + s % ALIGN;
    if n <= U32 - ALIGN {
      assert s == n + (ALIGN - 1);
    } else {
      assert s < U32;
      if n < U32 {
        assert s == n + (ALIGN - 1) - U32;
      }
    }
  }

  // ---------------------------------------------------------------- layout

  /** Block i starts where the one before it ends. */
  predicate Adjacent(bs: seq<Block>, i: nat)
    requires 0 < i < |bs|
  {
    bs[i].off == End(bs[i - 1])
  }

  predicate Calm(bs: seq<Block>, i: nat)
    requires 0 < i < |bs|
  {
    !(bs[i - 1].free && bs[i].free)
  }

  /** The blocks tile [from, to), all sizes a multiple of 16. */
  predicate Tiles(bs: seq<Block>, from: nat, to: nat) {
    && |bs| > 0 && bs[0].off == from && End(bs[|bs| - 1]) == to
    && (forall i: nat :: 0 < i < |bs| ==> Adjacent(bs, i))
    && (forall i :: 0 <= i < |bs| ==> bs[i].size % ALIGN == 0)
  }

  /** No two neighbours are both free. */
  predicate Coalesced(bs: seq<Block>) {
    forall i: nat :: 0 < i < |bs| ==> Calm(bs, i)
  }

  predicate Layout(bs: seq<Block>, len: nat) {
    Tiles(bs, 0, len) && Coalesced(bs)
  }

  lemma {:induction false} Ordered(bs: seq<Block>, from: nat, to: nat, i: nat, j: nat)
    requires Tiles(bs, from, to) && i < j < |bs|
    ensures End(bs[i]) <= bs[j].off
  {
    assert Adjacent(bs, j);
    if i < j - 1 {
      Ordered(bs, from, to, i, j - 1);
    }
  }

  lemma {:induction false} Within(bs: seq<Block>, from: nat, to: nat, i: nat)
    requires Tiles(bs, from, to) && i < |bs|
    ensures from <= bs[i].off && End(bs[i]) <= to && (from % ALIGN == 0 ==> bs[i].off % ALIGN == 0)
  {
    if i < |bs| - 1 {
      Ordered(bs, from, to, i, |bs| - 1);
    }
    if i > 0 {
      assert Adjacent(bs, i);
      Within(bs, from, to, i - 1);
    }
  }

  /** Live allocations are 16-byte aligned and overlap neither each other nor any header. */
  lemma LiveAreDisjoint(bs: seq<Block>, len: nat, i: nat, j: nat)
    requires Layout(bs, len) && i < |bs| && j < |bs| && i != j
    ensures (bs[i].off + HDR) % ALIGN == 0
    ensures End(bs[i]) <= bs[j].off || End(bs[j]) <= bs[i].off
    ensures bs[i].off != bs[j].off
  {
    Within(bs, 0, len, i);
    if i < j {
      Ordered(bs, 0, len, i, j);
    } else {
      Ordered(bs, 0, len, j, i);
    }
  }

  // ---------------------------------------------------------------- first fit

  predicate Fits(b: Block, n: nat) {
    b.free && b.size >= n
  }

  function FirstFit(bs: seq<Block>, n: nat): (i: nat)
    ensures i <= |bs|
    ensures i < |bs| ==> Fits(bs[i], n)
    ensures forall j :: 0 <= j < i ==> !Fits(bs[j], n)
  {
    if bs == [] then 0 else if Fits(bs[0], n) then 0 else 1 + FirstFit(bs[1..], n)
  }

  /** Take n bytes at the front of block i; split off the rest when it can hold a block. */
  function Carve(bs: seq<Block>, i: nat, n: nat): seq<Block>
    requires i < |bs|
  {
    var b := bs[i];
    if b.size >= n + (HDR + ALIGN) then
      bs[..i] + [Block(b.off, n, false), Block(b.off + HDR + n, b.size - n - HDR, true)] + bs[i + 1..]
    else bs[i := b.(free := false)]
  }

  lemma CarveKeeps(bs: seq<Block>, len: nat, i: nat, n: nat)
    requires Layout(bs, len) && i < |bs| && Fits(bs[i], n) && n % ALIGN == 0
    ensures Layout(Carve(bs, i, n), len)
    ensures i < |Carve(bs, i, n)| && Carve(bs, i, n)[i] == Block(bs[i].off, Carve(bs, i, n)[i].size, false)
    ensures n <= Carve(bs, i, n)[i].size <= bs[i].size && Carve(bs, i, n)[i].size < n + HDR + ALIGN
  {
    var c := Carve(bs, i, n);
    if |c| == |bs| {
      forall k: nat | 0 < k < |c|
        ensures Adjacent(c, k) && Calm(c, k)
      {
        assert Adjacent(bs, k) && Calm(bs, k);
      }
    } else {
      forall k: nat | 0 < k < |c|
        ensures Adjacent(c, k) && Calm(c, k)
      {
        if k < i {
          assert Adjacent(bs, k) && Calm(bs, k);
        } else if k == i {
          assert Adjacent(bs, k) && Calm(bs, k);
        } else if k > i + 1 {
          assert Adjacent(bs, k - 1) && Calm(bs, k - 1);
        }
      }
      assert (bs[i].size - n - HDR) % ALIGN == 0;
    }
  }

  /** Every live block is still there, with the same place and size. */
  lemma CarveSpares(bs: seq<Block>, i: nat, n: nat, b: Block)
    requires i < |bs| && bs[i].free && b in bs && !b.free
    ensures b in Carve(bs, i, n)
  {
    var k :| 0 <= k < |bs| && bs[k] == b;
    var c := Carve(bs, i, n);
    if |c| == |bs| {
      assert c[k] == b;
    } else if k < i {
      assert c[k] == b;
    } else {
      assert c[k + 1] == b;
    }
  }

  // ---------------------------------------------------------------- freeing

  /** Merge free neighbours from left to right. */
  function Merge(bs: seq<Block>): seq<Block>
    decreases |bs|
  {
    if |bs| < 2 then bs
    else if bs[0].free && bs[1].free then
      Merge([Block(bs[0].off, bs[0].size + HDR + bs[1].size, true)] + bs[2..])
    else [bs[0]] + Merge(bs[1..])
  }

  lemma {:induction false} MergeKeeps(bs: seq<Block>, from: nat, to: nat)
    requires Tiles(bs, from, to)
    ensures Tiles(Merge(bs), from, to) && Coalesced(Merge(bs))
    ensures Merge(bs)[0].free == bs[0].free
    decreases |bs|
  {
    if |bs| >= 2 {
      assert Adjacent(bs, 1);
      if bs[0].free && bs[1].free {
        var c := [Block(bs[0].off, bs[0].size + HDR + bs[1].size, true)] + bs[2..];
        forall k: nat | 0 < k < |c|
          ensures Adjacent(c, k)
        {
          assert Adjacent(bs, k + 1);
        }
        MergeKeeps(c, from, to);
      } else {
        var c := bs[1..];
        forall k: nat | 0 < k < |c|
          ensures Adjacent(c, k)
        {
          assert Adjacent(bs, k + 1);
        }
        MergeKeeps(c, c[0].off, to);
        var r := Merge(c);
        forall k: nat | 0 < k < |[bs[0]] + r|
          ensures Adjacent([bs[0]] + r, k) && Calm([bs[0]] + r, k)
        {
          if k > 1 {
            assert Adjacent(r, k - 1) && Calm(r, k - 1);
          }
        }
      }
    }
  }

  /** Merging keeps exactly the live blocks. */
  lemma {:induction false} MergeSpares(bs: seq<Block>, b: Block)
    requires !b.free
    ensures b in bs <==> b in Merge(bs)
    decreases |bs|
  {
    if |bs| >= 2 {
      if bs[0].free && bs[1].free {
        var c := [Block(bs[0].off, bs[0].size + HDR + bs[1].size, true)] + bs[2..];
        MergeSpares(c, b);
        assert bs == [bs[0], bs[1]] + bs[2..];
      } else {
        MergeSpares(bs[1..], b);
        assert bs == [bs[0]] + bs[1..];
      }
    }
  }

  /** ext4_user_free of block i. */
  function Release(bs: seq<Block>, i: nat): seq<Block>
    requires i < |bs|
  {
    Merge(bs[i := bs[i].(free := true)])
  }

  lemma ReleaseKeeps(bs: seq<Block>, len: nat, i: nat)
    requires Layout(bs, len) && i < |bs|
    ensures Layout(Release(bs, i), len)
  {
    var c := bs[i := bs[i].(free := true)];
    forall k: nat | 0 < k < |c|
      ensures Adjacent(c, k)
    {
      assert Adjacent(bs, k);
    }
    MergeKeeps(c, 0, len);
  }

  lemma ReleaseSpares(bs: seq<Block>, len: nat, i: nat, b: Block)
    requires Layout(bs, len) && i < |bs| && !bs[i].free && !b.free
    ensures b in Release(bs, i) <==> b in bs && b != bs[i]
  {
    var c := bs[i := bs[i].(free := true)];
    MergeSpares(c, b);
    if b in bs && b != bs[i] {
      var k :| 0 <= k < |bs| && bs[k] == b;
      assert c[k] == b;
    }
    if b in c {
      var k :| 0 <= k < |c| && c[k] == b;
      assert bs[k] == b;
      LiveAreDisjoint(bs, len, i, k);
    }
  }

  // ---------------------------------------------------------------- consequences

  /** [a, a + n) touches nothing of any live block, header included. */
  predicate Clear(bs: seq<Block>, a: nat, n: nat) {
    forall j :: 0 <= j < |bs| && !bs[j].free ==> a + n <= bs[j].off || End(bs[j]) <= a
  }

  lemma {:induction false} BlockOf(bs: seq<Block>, from: nat, to: nat, a: nat) returns (i: nat)
    requires Tiles(bs, from, to) && from <= a < to
    ensures i < |bs| && bs[i].off <= a < End(bs[i])
    decreases |bs|
  {
    var n := |bs| - 1;
    if bs[n].off <= a {
      i := n;
    } else {
      assert n > 0;
      var front := bs[..n];
      assert Adjacent(bs, n);
      forall k: nat | 0 < k < |front|
        ensures Adjacent(front, k)
      {
        assert Adjacent(bs, k);
      }
      i := BlockOf(front, from, bs[n].off, a);
    }
  }

  /** A header and n bytes could go at a. */
  predicate Room(bs: seq<Block>, len: nat, n: nat, a: nat) {
    a + HDR + n <= len && Clear(bs, a, HDR + n)
  }

  /** A stretch clear of live blocks lies in one block: free neighbours do not exist. */
  lemma RoomIsOneBlock(bs: seq<Block>, len: nat, n: nat, a: nat) returns (i: nat)
    requires Layout(bs, len) && Room(bs, len, n, a)
    ensures i < |bs| && Fits(bs[i], n)
  {
    i := BlockOf(bs, 0, len, a);
    assert bs[i].free;
    if i + 1 < |bs| {
      assert Adjacent(bs, i + 1) && Calm(bs, i + 1);
    }
  }

  /** [a, a + HDR + m) touches the header or the n bytes of an allocation whose header is at off. */
  predicate Overlaps(off: nat, n: nat, a: nat, m: nat) {
    a < off + HDR + n && off < a + HDR + m
  }

  /** An unsplit block has too little behind the request for anything else. */
  lemma NothingBehind(bs: seq<Block>, len: nat, i: nat, n: nat, m: nat, a: nat)
    requires Layout(bs, len) && i < |bs| && Fits(bs[i], n) && n % ALIGN == 0 && m > 0
    requires bs[i].size < n + HDR + ALIGN && Room(bs, len, m, a) && !Overlaps(bs[i].off, n, a, m)
    ensures a + HDR + m <= bs[i].off || End(bs[i]) <= a
  {
    assert bs[i].size <= n + ALIGN;
    if i + 1 < |bs| {
      assert Adjacent(bs, i + 1) && Calm(bs, i + 1);
    }
  }

  /**
  An allocation costs later requests its header and its rounded bytes and nothing else: there is
  room for a header and m > 0 bytes at a afterwards exactly when there was before and the place does
  not overlap them.
  */
  lemma CarveTakesNoMore(bs: seq<Block>, len: nat, i: nat, n: nat, m: nat, a: nat)
    requires Layout(bs, len) && i < |bs| && Fits(bs[i], n) && n % ALIGN == 0 && m > 0
    ensures Room(Carve(bs, i, n), len, m, a) <==> Room(bs, len, m, a) && !Overlaps(bs[i].off, n, a, m)
  {
    var c := Carve(bs, i, n);
    CarveKeeps(bs, len, i, n);
    if Room(c, len, m, a) {
      forall j | 0 <= j < |bs| && !bs[j].free
        ensures a + (HDR + m) <= bs[j].off || End(bs[j]) <= a
      {
        CarveSpares(bs, i, n, bs[j]);
      }
      assert !c[i].free;
    }
    if Room(bs, len, m, a) && !Overlaps(bs[i].off, n, a, m) {
      if |c| == |bs| {
        NothingBehind(bs, len, i, n, m, a);
      }
      forall j | 0 <= j < |c| && !c[j].free
        ensures a + (HDR + m) <= c[j].off || End(c[j]) <= a
      {
        assert j != i ==> c[j] in bs;
      }
    }
  }

  lemma FitIsRoom(bs: seq<Block>, len: nat, n: nat, i: nat)
    requires Layout(bs, len) && i < |bs| && Fits(bs[i], n)
    ensures Room(bs, len, n, bs[i].off)
  {
    Within(bs, 0, len, i);
    forall j | 0 <= j < |bs| && !bs[j].free
      ensures bs[i].off + (HDR + n) <= bs[j].off || End(bs[j]) <= bs[i].off
    {
      LiveAreDisjoint(bs, len, i, j);
    }
  }

  /**
  First fit fails exactly when there is no room: no stretch of the heap that is clear of
  live blocks could take the header and the rounded request.
  */
  lemma FailsOnlyWhenFull(bs: seq<Block>, len: nat, n: nat)
    requires Layout(bs, len)
    ensures FirstFit(bs, n) < |bs| <==> exists a :: Room(bs, len, n, a)
  {
    if FirstFit(bs, n) < |bs| {
      FitIsRoom(bs, len, n, FirstFit(bs, n));
    }
    if a :| Room(bs, len, n, a) {
      var i := RoomIsOneBlock(bs, len, n, a);
    }
  }

  function Fresh(len: nat): seq<Block>
    requires len >= HDR
  {
    [Block(0, len - HDR, true)]
  }

  /** A heap without live blocks is the single block it started as. */
  lemma AllFreeIsFresh(bs: seq<Block>, len: nat)
    requires Layout(bs, len) && (forall i :: 0 <= i < |bs| ==> bs[i].free)
    ensures len >= HDR && bs == Fresh(len)
  {
    assert |bs| > 1 ==> Calm(bs, 1);
  }

  datatype Op = AllocOp(n: nat) | FreeOp(i: nat)

  /** The heap after any sequence of requests and releases of live blocks. */
  function History(bs: seq<Block>, ops: seq<Op>): seq<Block>
    decreases |ops|
  {
    if ops == [] then bs
    else
      var last := ops[|ops| - 1];
      var h := History(bs, ops[..|ops| - 1]);
      match last
      case AllocOp(n) =>
        var i := FirstFit(h, AlignUp(n));
        if n == 0 || i == |h| then h else Carve(h, i, AlignUp(n))
      case FreeOp(i) => if i < |h| && !h[i].free then Release(h, i) else h
  }

  /** In every reachable state the blocks tile the heap and no two neighbours are free. */
  lemma {:induction false} EveryHistoryIsLaidOut(len: nat, ops: seq<Op>)
    requires len >= HDR && len % ALIGN == 0
    ensures Layout(History(Fresh(len), ops), len)
    decreases |ops|
  {
    if ops != [] {
      var h := History(Fresh(len), ops[..|ops| - 1]);
      EveryHistoryIsLaidOut(len, ops[..|ops| - 1]);
      match ops[|ops| - 1]
      case AllocOp(n) =>
        AlignUpIsAdequate(n);
        if FirstFit(h, AlignUp(n)) < |h| {
          CarveKeeps(h, len, FirstFit(h, AlignUp(n)), AlignUp(n));
        }
      case FreeOp(i) =>
        if i < |h| {
          ReleaseKeeps(h, len, i);
        }
    }
  }

  /** The live blocks released one after another, in the order given. */
  predicate ReleasesTo(bs: seq<Block>, order: seq<Block>, end: seq<Block>)
    decreases |order|
  {
    if order == [] then end == bs
    else exists i :: 0 <= i < |bs| && bs[i] == order[0] && !bs[i].free && ReleasesTo(Release(bs, i), order[1..], end)
  }

  /** Releasing every live block once, in any order, restores the heap exactly. */
  lemma {:induction false} ReleaseAllRestores(bs: seq<Block>, len: nat, order: seq<Block>, end: seq<Block>)
    requires Layout(bs, len) && ReleasesTo(bs, order, end)
    requires forall b :: b in bs && !b.free ==> b in order
    ensures len >= HDR && end == Fresh(len)
    decreases |order|
  {
    if order == [] {
      AllFreeIsFresh(bs, len);
    } else {
      var i :| 0 <= i < |bs| && bs[i] == order[0] && !bs[i].free && ReleasesTo(Release(bs, i), order[1..], end);
      ReleaseKeeps(bs, len, i);
      forall b | b in Release(bs, i) && !b.free
        ensures b in order[1..]
      {
        ReleaseSpares(bs, len, i, b);
      }
      ReleaseAllRestores(Release(bs, i), len, order[1..], end);
    }
  }
}

/** Headers as bytes: struct blk_hdr, little-endian, a 32-bit size, a 32-bit flag, a 64-bit address. */
module HeapBytes {
  import opened Bytes
  import opened HeapBlocks

  const U64: nat := 0x1_0000_0000_0000_0000

  function Unle(s: seq<Byte>): nat {
    if s == [] then 0 else s[0] + 0x100 * Unle(s[1..])
  }

  function Pow256(k: nat): nat {
    if k == 0 then 1 else 0x100 * Pow256(k - 1)
  }

  lemma {:induction false} LeRoundTrip(n: nat, k: nat)
    requires n < Pow256(k)
    ensures Unle(Le(n, k)) == n
  {
    if k > 0 {
      LeRoundTrip(n / 0x100, k - 1);
    }
  }

  lemma Widths()
    ensures Pow256(4) == U32 && Pow256(8) == U64
  {
    assert Pow256(4) == 0x100 * Pow256(3);
    assert Pow256(8) == 0x100 * (0x100 * (0x100 * (0x100 * Pow256(4))));
  }

  datatype Hdr = Hdr(size: nat, free: nat, next: nat)

  /** The header at an offset. */
  function HdrAt(m: seq<Byte>, off: nat): Hdr
    requires off + HDR <= |m|
  {
    Hdr(Unle(m[off..off + 4]), Unle(m[off + 4..off + 8]), Unle(m[off + 8..off + 16]))
  }

  /** m' differs from m only inside [lo, hi). */
  predicate SameOutside(m: seq<Byte>, m': seq<Byte>, lo: nat, hi: nat) {
    |m'| == |m| && forall k :: 0 <= k < |m| && (k < lo || hi <= k) ==> m'[k] == m[k]
  }

  /** m with the bytes s at off. */
  function Put(m: seq<Byte>, off: nat, s: seq<Byte>): (r: seq<Byte>)
    requires off + |s| <= |m|
    ensures SameOutside(m, r, off, off + |s|) && r[off..off + |s|] == s
  {
    m[..off] + s + m[off + |s|..]
  }

  lemma PutSize(m: seq<Byte>, off: nat, v: nat)
    requires off + HDR <= |m| && v < U32
    ensures HdrAt(Put(m, off, Le(v, 4)), off) == HdrAt(m, off).(size := v)
  {
    Widths();
    LeRoundTrip(v, 4);
    var r := Put(m, off, Le(v, 4));
    assert r[off + 4..off + 8] == m[off + 4..off + 8] && r[off + 8..off + 16] == m[off + 8..off + 16];
  }

  lemma PutFree(m: seq<Byte>, off: nat, v: nat)
    requires off + HDR <= |m| && v < U32
    ensures HdrAt(Put(m, off + 4, Le(v, 4)), off) == HdrAt(m, off).(free := v)
  {
    Widths();
    LeRoundTrip(v, 4);
    var r := Put(m, off + 4, Le(v, 4));
    assert r[off..off + 4] == m[off..off + 4] && r[off + 8..off + 16] == m[off + 8..off + 16];
  }

  lemma PutNext(m: seq<Byte>, off: nat, v: nat)
    requires off + HDR <= |m| && v < U64
    ensures HdrAt(Put(m, off + 8, Le(v, 8)), off) == HdrAt(m, off).(next := v)
  {
    Widths();
    LeRoundTrip(v, 8);
    var r := Put(m, off + 8, Le(v, 8));
    assert r[off..off + 4] == m[off..off + 4] && r[off + 4..off + 8] == m[off + 4..off + 8];
  }

  /** A header outside the changed stretch reads as before. */
  lemma HdrUnchanged(m: seq<Byte>, m': seq<Byte>, lo: nat, hi: nat, off: nat)
    requires SameOutside(m, m', lo, hi) && off + HDR <= |m| && (off + HDR <= lo || hi <= off)
    ensures HdrAt(m', off) == HdrAt(m, off)
  {
    assert m'[off..off + 4] == m[off..off + 4];
    assert m'[off + 4..off + 8] == m[off + 4..off + 8];
    assert m'[off + 8..off + 16] == m[off + 8..off + 16];
  }

  // ---------------------------------------------------------------- the block list in memory

  /** The address of block i, 0 past the end. */
  function Ptr(base: nat, bs: seq<Block>, i: nat): nat {
    if i < |bs| then base + bs[i].off else 0
  }

  /** The header block i should have. */
  function Want(base: nat, bs: seq<Block>, i: nat): Hdr
    requires i < |bs|
  {
    Hdr(bs[i].size, if bs[i].free then 1 else 0, Ptr(base, bs, i + 1))
  }

  ghost predicate At(m: seq<Byte>, base: nat, bs: seq<Block>, i: nat)
    requires i < |bs|
  {
    End(bs[i]) <= |m| && HdrAt(m, bs[i].off) == Want(base, bs, i)
  }

  /** The headers in m spell the block list bs. */
  ghost predicate Spells(m: seq<Byte>, base: nat, bs: seq<Block>) {
    && Tiles(bs, 0, |m|)
    && (forall i: nat :: i < |bs| ==> At(m, base, bs, i))
  }

  /** The bytes an allocation gives its caller. */
  function Payload(m: seq<Byte>, b: Block): seq<Byte>
    requires End(b) <= |m|
  {
    m[b.off + HDR..End(b)]
  }

  /** Changing only the flag of block i's header. */
  lemma FlagSpells(m: seq<Byte>, m': seq<Byte>, base: nat, bs: seq<Block>, i: nat, free: bool)
    requires Spells(m, base, bs) && i < |bs|
    requires SameOutside(m, m', bs[i].off, bs[i].off + HDR)
    requires At(m, base, bs, i) ==> HdrAt(m', bs[i].off) == HdrAt(m, bs[i].off).(free := if free then 1 else 0)
    ensures Spells(m', base, bs[i := bs[i].(free := free)])
  {
    var c := bs[i := bs[i].(free := free)];
    forall k: nat | 0 < k < |c|
      ensures Adjacent(c, k)
    {
      assert Adjacent(bs, k);
    }
    forall k: nat | k < |c|
      ensures At(m', base, c, k)
    {
      assert At(m, base, bs, k);
      if k < i {
        Ordered(bs, 0, |m|, k, i);
        HdrUnchanged(m, m', bs[i].off, bs[i].off + HDR, bs[k].off);
      } else if k > i {
        Ordered(bs, 0, |m|, i, k);
        HdrUnchanged(m, m', bs[i].off, bs[i].off + HDR, bs[k].off);
      }
    }
  }

  /** Replacing block i by two that fill its place. */
  function Split(bs: seq<Block>, i: nat, x: Block, y: Block): seq<Block>
    requires i < |bs|
  {
    bs[..i] + [x, y] + bs[i + 1..]
  }

  lemma SplitTiles(bs: seq<Block>, len: nat, i: nat, x: Block, y: Block)
    requires Tiles(bs, 0, len) && i < |bs|
    requires x.off == bs[i].off && y.off == End(x) && End(y) == End(bs[i])
    requires x.size % ALIGN == 0 && y.size % ALIGN == 0
    ensures Tiles(Split(bs, i, x, y), 0, len)
  {
    var c := Split(bs, i, x, y);
    forall k: nat | 0 < k < |c|
      ensures Adjacent(c, k)
    {
      if k <= i {
        assert Adjacent(bs, k);
      } else if k > i + 1 {
        assert Adjacent(bs, k - 1);
      }
    }
  }

  lemma SplitSpells(m: seq<Byte>, m': seq<Byte>, base: nat, bs: seq<Block>, i: nat, x: Block, y: Block)
    requires Spells(m, base, bs) && i < |bs|
    requires SameOutside(m, m', bs[i].off, End(bs[i]))
    requires x.off == bs[i].off && y.off == End(x) && End(y) == End(bs[i]) <= |m|
    requires x.size % ALIGN == 0 && y.size % ALIGN == 0
    requires HdrAt(m', x.off) == Hdr(x.size, if x.free then 1 else 0, base + y.off)
    requires HdrAt(m', y.off) == Hdr(y.size, if y.free then 1 else 0, Ptr(base, bs, i + 1))
    ensures Spells(m', base, Split(bs, i, x, y))
  {
    hide HdrAt;
    var c := Split(bs, i, x, y);
    SplitTiles(bs, |m|, i, x, y);
    forall k: nat | k < |c|
      ensures At(m', base, c, k)
    {
      if k < i {
        assert At(m, base, bs, k);
        Ordered(bs, 0, |m|, k, i);
        HdrUnchanged(m, m', bs[i].off, End(bs[i]), bs[k].off);
      } else if k > i + 1 {
        assert At(m, base, bs, k - 1);
        Ordered(bs, 0, |m|, i, k - 1);
        HdrUnchanged(m, m', bs[i].off, End(bs[i]), bs[k - 1].off);
      }
    }
  }

  /** Replacing blocks i and i + 1 by one that fills their place. */
  function Join(bs: seq<Block>, i: nat): seq<Block>
    requires i + 1 < |bs|
  {
    bs[..i] + [Block(bs[i].off, bs[i].size + HDR + bs[i + 1].size, true)] + bs[i + 2..]
  }

  lemma JoinTiles(bs: seq<Block>, len: nat, i: nat)
    requires Tiles(bs, 0, len) && i + 1 < |bs|
    ensures Tiles(Join(bs, i), 0, len)
  {
    var c := Join(bs, i);
    assert Adjacent(bs, i + 1);
    forall k: nat | 0 < k < |c|
      ensures Adjacent(c, k)
    {
      if k <= i {
        assert Adjacent(bs, k);
      } else {
        assert Adjacent(bs, k + 1);
      }
    }
  }

  lemma JoinSpells(m: seq<Byte>, m': seq<Byte>, base: nat, bs: seq<Block>, i: nat)
    requires Spells(m, base, bs) && i + 1 < |bs|
    requires bs[i].off + HDR <= |m| && SameOutside(m, m', bs[i].off, bs[i].off + HDR)
    requires HdrAt(m', bs[i].off) == Hdr(bs[i].size + HDR + bs[i + 1].size, 1, Ptr(base, bs, i + 2))
    ensures Spells(m', base, Join(bs, i))
  {
    hide HdrAt;
    var c := Join(bs, i);
    assert Adjacent(bs, i + 1) && At(m, base, bs, i + 1);
    JoinTiles(bs, |m|, i);
    forall k: nat | k < |c|
      ensures At(m', base, c, k)
    {
      if k < i {
        assert At(m, base, bs, k);
        Ordered(bs, 0, |m|, k, i);
        HdrUnchanged(m, m', bs[i].off, bs[i].off + HDR, bs[k].off);
      } else if k > i {
        assert At(m, base, bs, k + 1);
        Ordered(bs, 0, |m|, i, k + 1);
        HdrUnchanged(m, m', bs[i].off, bs[i].off + HDR, bs[k + 1].off);
      }
    }
  }
}
