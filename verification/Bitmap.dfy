/**
The packed bitmap and its searches (include/bitmap.h, lib/bitmap.c), and the next-fit search of
the page allocator that calls them (kernel/mm/pmm.c).  Indices are 64-bit numbers that wrap; the
largest stands for "not found".
*/
module Bitmap {

  const U64: nat := 0x1_0000_0000_0000_0000
  const NONE: nat := U64 - 1

  // ---------------------------------------------------------------- bits in bytes

  datatype Octet = Octet(b: bv8)

  function Mask(k: nat): (r: bv8)
    requires k < 8
    ensures r == 1 << k
  {
    if k == 0 then 1 else if k == 1 then 2 else if k == 2 then 4 else if k == 3 then 8
    else if k == 4 then 16 else if k == 5 then 32 else if k == 6 then 64 else 128
  }

  predicate Bit(x: Octet, k: nat)
    requires k < 8
  {
    x.b & Mask(k) != 0
  }

  function SetBit(x: Octet, k: nat): Octet
    requires k < 8
  {
    Octet(x.b | Mask(k))
  }

  function ClearBit(x: Octet, k: nat): Octet
    requires k < 8
  {
    Octet(x.b & !Mask(k))
  }

  /** Setting or clearing one bit of a byte leaves its seven neighbours. */
  lemma OneBit(x: Octet, k: nat, j: nat)
    requires k < 8 && j < 8
    ensures Bit(SetBit(x, k), j) == (j == k || Bit(x, j))
    ensures Bit(ClearBit(x, k), j) == (j != k && Bit(x, j))
  {
  }

  // ---------------------------------------------------------------- what is searched for

  /** The count bits from s on exist and are clear. */
  predicate Run(b: seq<bool>, s: nat, count: nat) {
    s + count <= |b| && forall j :: s <= j < s + count ==> !b[j]
  }

  /** The first start at or after i of a clear run. */
  function Least(b: seq<bool>, count: nat, i: nat): (r: nat)
    requires |b| < NONE
    ensures r == NONE || (i <= r && Run(b, r, count))
    ensures forall s: nat :: i <= s && (r == NONE || s < r) ==> !Run(b, s, count)
    decreases |b| - i
  {
    if i + count > |b| then NONE else if Run(b, i, count) then i else Least(b, count, i + 1)
  }

  /** Least is the only number with its property. */
  lemma LeastIs(b: seq<bool>, count: nat, i: nat, r: nat)
    requires |b| < NONE
    requires r == NONE || (i <= r && Run(b, r, count))
    requires forall s: nat :: i <= s && (r == NONE || s < r) ==> !Run(b, s, count)
    ensures r == Least(b, count, i)
  {
    var q := Least(b, count, i);
    if r != NONE {
      assert Run(b, r, count);
    }
    if q != NONE {
      assert Run(b, q, count);
    }
  }

  /** A used bit ends every run that covers it. */
  lemma UsedBlocks(b: seq<bool>, count: nat, i: nat, x: nat)
    requires |b| < NONE && count > 0 && i <= x < |b| && x < i + count && b[x]
    ensures Least(b, count, i) == Least(b, count, x + 1)
  {
    forall s: nat | i <= s && s <= x
      ensures !Run(b, s, count)
    {
      assert s + count <= |b| ==> b[x];
    }
    LeastIs(b, count, i, Least(b, count, x + 1));
  }

  // ---------------------------------------------------------------- the skip-ahead search as coded

  /** Bitmaps are smaller than half the index range. */
  const HALF: nat := 0x8000_0000_0000_0000

  /** bitmap_test: an index past the end reads as clear. */
  predicate Test(b: seq<bool>, x: nat) {
    x < |b| && b[x]
  }

  /** The sum of two 64-bit numbers. */
  function Add(x: nat, y: nat): nat {
    if x + y < U64 then x + y else x + y - U64
  }

  /** The bit at offset k from i, in wrapping arithmetic. */
  predicate TestOff(b: seq<bool>, i: nat, k: nat) {
    Test(b, Add(i, k))
  }

  /** The inner loop: the first offset from j on whose bit is used, or count. */
  function FirstUsed(b: seq<bool>, i: nat, count: nat, j: nat): (r: nat)
    requires j <= count
    ensures j <= r <= count
    ensures r < count ==> TestOff(b, i, r)
    ensures forall k: nat :: j <= k < r ==> !TestOff(b, i, k)
    decreases count - j
  {
    if j == count || TestOff(b, i, j) then j else FirstUsed(b, i, count, j + 1)
  }

  /** The outer loop from i on, in wrapping arithmetic. */
  function Scan(b: seq<bool>, count: nat, i: nat): nat
    requires 0 < count <= |b| < HALF && i < U64
    decreases if i <= |b| then 0 else 1, if i <= |b| then |b| - i else 0
  {
    if Add(i, count) > |b| then NONE else
    var j := FirstUsed(b, i, count, 0);
    if j == count then i else Scan(b, count, Add(Add(i, j), 1))
  }

  /** bitmap_find_contiguous_free_from */
  function From(b: seq<bool>, count: nat, start: nat): nat
    requires |b| < HALF && start < U64
  {
    if count == 0 || count > |b| || Add(start, count) > |b| then NONE else Scan(b, count, start)
  }

  lemma {:induction false} ScanIsLeast(b: seq<bool>, count: nat, i: nat)
    requires 0 < count <= |b| < HALF && i + count < U64
    ensures Scan(b, count, i) == Least(b, count, i)
    decreases |b| - i
  {
    if i + count <= |b| {
      var j := FirstUsed(b, i, count, 0);
      if j < count {
        ScanIsLeast(b, count, i + j + 1);
        UsedBlocks(b, count, i, i + j);
      } else {
        forall x: nat | i <= x < i + count
          ensures !b[x]
        {
          assert !TestOff(b, i, x - i);
        }
        assert Run(b, i, count);
      }
    }
  }

  /** Where start + count does not wrap, the search finds the first run at or after the start. */
  lemma FromIsLeast(b: seq<bool>, count: nat, start: nat)
    requires |b| < HALF && 0 < count && start + count < U64
    ensures From(b, count, start) == Least(b, count, start)
  {
    if count <= |b| {
      ScanIsLeast(b, count, start);
    }
  }

  /** The first used bit below w, or w. */
  function FirstBelow(b: seq<bool>, w: nat): (r: nat)
    requires w <= |b|
    ensures r <= w && (r < w ==> b[r])
    ensures forall x :: 0 <= x < r ==> !b[x]
  {
    if w == 0 then 0
    else
      var r := FirstBelow(b, w - 1);
      if r < w - 1 || b[w - 1] then r else w
  }

  /**
  Where it wraps, no run can start at or after the start; the search goes on at the bottom of the
  bitmap, and still says "not found" exactly if a used bit below the wrapped end sends it on to a
  place without a run, or if the start is itself the number for "not found".
  */
  lemma WrappedFrom(b: seq<bool>, count: nat, start: nat)
    requires 0 < count <= |b| < HALF && start < U64 <= start + count
    ensures Least(b, count, start) == NONE
    ensures var w := start + count - U64;
            var x := FirstBelow(b, w);
            From(b, count, start) == if x == w then start else Least(b, count, x + 1)
  {
    var w := start + count - U64;
    var x := FirstBelow(b, w);
    WrappedFirst(b, count, start);
    if x < w {
      ScanIsLeast(b, count, x + 1);
    }
  }

  /** Bits past the end read as clear, so the first used one is below the wrapped end. */
  lemma WrappedFirst(b: seq<bool>, count: nat, start: nat)
    requires 0 < count <= |b| < HALF && start < U64 <= start + count
    ensures var w := start + count - U64;
            FirstUsed(b, start, count, 0) == U64 - start + FirstBelow(b, w)
  {
    var x := FirstBelow(b, start + count - U64);
    var edge: nat := U64 - start;
    forall k: nat | k < edge + x
      ensures !TestOff(b, start, k)
    {
      PastEnd(b, start, k);
      assert k >= edge ==> !b[k - edge];
    }
    if edge + x < count {
      PastEnd(b, start, edge + x);
    }
  }

  lemma PastEnd(b: seq<bool>, start: nat, k: nat)
    requires |b| < HALF <= start < U64 && k < HALF
    ensures TestOff(b, start, k) == (U64 - start <= k && Test(b, k - (U64 - start)))
  {
  }

  predicate RightOn(b: seq<bool>, count: nat, start: nat)
    requires |b| < HALF && start < U64
  {
    From(b, count, start) == Least(b, count, start)
  }

  /**
  The search is right on every bitmap of a size if and only if start + count does not wrap; or start is
  the number for "not found" itself, and only one bit or all of them are asked for.
  */
  lemma FromRightIff(n: nat, count: nat, start: nat)
    requires 0 < count <= n < HALF && start < U64
    ensures (forall b: seq<bool> :: |b| == n ==> RightOn(b, count, start)) <==>
            start + count < U64 || (start == NONE && (count == 1 || count == n))
  {
    if start + count < U64 || (start == NONE && (count == 1 || count == n)) {
      forall b: seq<bool> | |b| == n
        ensures RightOn(b, count, start)
      {
        RightWhen(b, count, start);
      }
    } else {
      var b := WrongBitmap(n, count, start);
      assert !RightOn(b, count, start);
    }
  }

  lemma RightWhen(b: seq<bool>, count: nat, start: nat)
    requires 0 < count <= |b| < HALF && start < U64
    requires start + count < U64 || (start == NONE && (count == 1 || count == |b|))
    ensures RightOn(b, count, start)
  {
    if start + count < U64 {
      FromIsLeast(b, count, start);
    } else {
      WrappedFrom(b, count, start);
    }
  }

  /** A bitmap on which it is wrong: all clear, or all clear but the first bit. */
  lemma WrongBitmap(n: nat, count: nat, start: nat) returns (b: seq<bool>)
    requires 0 < count <= n < HALF && start < U64 <= start + count
    requires start != NONE || 1 < count < n
    ensures |b| == n && !RightOn(b, count, start)
  {
    b := seq(n, i => i == 0 && start == NONE);
    WrappedFrom(b, count, start);
    if start == NONE {
      assert b[0] && Run(b, 1, count);
    }
  }

  /** Two free bits, asked for from the last but one index on: the search answers with that index. */
  lemma WrapFails()
    ensures var b := [false, false];
            From(b, 2, U64 - 2) == U64 - 2 && Least(b, 2, U64 - 2) == NONE
  {
    var b := [false, false];
    WrappedFrom(b, 2, U64 - 2);
    assert FirstBelow(b, 0) == 0;
  }

  // ---------------------------------------------------------------- the bitmap in memory

  /** Index x is one of the count indices from start on, in wrapping arithmetic. */
  predicate Covers(start: nat, count: nat, x: nat) {
    start <= x < start + count || start <= x + U64 < start + count
  }

  /** The bits after the range has become v; an end past the size leaves them. */
  function Ranged(b: seq<bool>, start: nat, count: nat, v: bool): (r: seq<bool>)
    ensures |r| == |b|
  {
    if Add(start, count) > |b| then b
    else seq(|b|, x requires 0 <= x < |b| => if Covers(start, count, x) then v else b[x])
  }

  /** Strictly increasing numbers in [lo, hi). */
  ghost predicate Ascends(t: seq<nat>, lo: nat, hi: nat) {
    && (forall k :: 0 <= k < |t| ==> lo <= t[k] < hi)
    && (forall k, l :: 0 <= k < l < |t| ==> t[k] < t[l])
  }

  lemma NoneAscend(lo: nat)
    ensures Ascends([], lo, lo) && Ascends([], lo, U64)
  {
  }

  lemma AscendOn(t: seq<nat>, u: seq<nat>, lo: nat, mid: nat, hi: nat)
    requires lo <= mid <= hi && Ascends(t, lo, mid) && Ascends(u, mid, hi)
    ensures Ascends(t + u, lo, hi)
  {
  }

  lemma AscendWiden(t: seq<nat>, lo: nat, mid: nat, hi: nat)
    requires mid <= hi && Ascends(t, lo, mid)
    ensures Ascends(t, lo, hi)
  {
  }

  class BitSet {
    const bits: array<Octet>
    const size: nat
    /** Where the page allocator looks first. */
    var hint: nat
    ghost var b: seq<bool>

    ghost predicate Valid()
      reads this, bits
    {
      && size < HALF && size <= 8 * bits.Length && |b| == size && hint <= size
      && forall i :: 0 <= i < size ==> b[i] == Bit(bits[i / 8], i % 8)
    }

    /** bitmap_init */
    constructor (buffer: array<Octet>, n: nat)
      requires n < HALF && n <= 8 * buffer.Length
      modifies buffer
      ensures Valid() && bits == buffer && size == n && hint == 0 && b == seq(n, _ => false)
    {
      bits, size, hint, b := buffer, n, 0, seq(n, _ => false);
      new;
      var i := 0;
      while i < (n + 7) / 8
        invariant i <= (n + 7) / 8 && forall j :: 0 <= j < i ==> bits[j] == Octet(0)
        invariant hint == 0 && b == seq(n, _ => false)
      {
        bits[i] := Octet(0);
        i := i + 1;
      }
    }

    /** bitmap_test */
    method TestBit(index: nat) returns (r: bool)
      requires Valid()
      ensures r == Test(b, index)
    {
      r := index < size && Bit(bits[index / 8], index % 8);
    }

    /** bitmap_set and bitmap_clear */
    method Put(index: nat, v: bool)
      requires Valid()
      modifies bits, `b
      ensures Valid() && b == if index < size then old(b)[index := v] else old(b)
    {
      if index < size {
        var k := index / 8;
        ghost var x := bits[k];
        forall j: nat | j < 8
          ensures Bit(SetBit(x, index % 8), j) == (j == index % 8 || Bit(x, j))
          ensures Bit(ClearBit(x, index % 8), j) == (j != index % 8 && Bit(x, j))
        {
          OneBit(x, index % 8, j);
        }
        hide Bit, SetBit, ClearBit;
        bits[k] := if v then SetBit(bits[k], index % 8) else ClearBit(bits[k], index % 8);
        b := b[index := v];
      }
    }

    /** bitmap_set_range and bitmap_clear_range */
    method PutRange(start: nat, count: nat, v: bool)
      requires Valid() && start < U64 && count < U64
      modifies bits, `b
      ensures Valid() && b == Ranged(old(b), start, count, v)
    {
      if Add(start, count) > size {
        return;
      }
      var i := 0;
      while i < count
        invariant i <= count && Valid()
        invariant forall x :: 0 <= x < size ==> b[x] == if Covers(start, i, x) then v else old(b)[x]
      {
        Put(Add(start, i), v);
        i := i + 1;
      }
    }

    /** The inner loop, and the bits it looks at. */
    method FindUsed(i: nat, count: nat) returns (j: nat, ghost looked: seq<nat>)
      requires Valid() && i < U64
      ensures j == FirstUsed(b, i, count, 0)
      ensures i + count < U64 ==> Ascends(looked, i, i + j + 1)
    {
      j, looked := 0, [];
      while j < count
        invariant j <= count && FirstUsed(b, i, count, j) == FirstUsed(b, i, count, 0)
        invariant i + count < U64 ==> Ascends(looked, i, i + j)
      {
        var used := TestBit(Add(i, j));
        looked := looked + [Add(i, j)];
        if used {
          return;
        }
        j := j + 1;
      }
    }

    /**
    bitmap_find_contiguous_free_from.  `looked` are the bits looked at; unless start + count wraps
    they only go up, so none is looked at twice.
    */
    method FindFrom(count: nat, start: nat) returns (r: nat, ghost looked: seq<nat>)
      requires Valid() && start < U64 && count < U64
      ensures r == From(b, count, start)
      ensures 0 < count && start + count < U64 ==> r == Least(b, count, start)
      ensures start + count < U64 ==> Ascends(looked, start, U64)
    {
      hide Ascends, Least, FirstUsed;
      looked := [];
      NoneAscend(start);
      if 0 < count && start + count < U64 {
        FromIsLeast(b, count, start);
      }
      if count == 0 || count > size || Add(start, count) > size {
        return NONE, looked;
      }
      var i: nat := start;
      while Add(i, count) <= size
        invariant i < U64 && Scan(b, count, i) == Scan(b, count, start)
        invariant start + count < U64 ==> start <= i && i + count < U64 && Ascends(looked, start, i)
        decreases if i <= size then 0 else 1, if i <= size then size - i else 0
      {
        var j, more := FindUsed(i, count);
        if start + count < U64 {
          AscendOn(looked, more, start, i, i + j + 1);
          AscendWiden(looked + more, start, i + j + 1, U64);
        }
        looked := looked + more;
        if j == count {
          return i, looked;
        }
        i := Add(Add(i, j), 1);
      }
      if start + count < U64 {
        AscendWiden(looked, start, i, U64);
      }
      return NONE, looked;
    }

    /** bitmap_find_contiguous_free */
    method Find(count: nat) returns (r: nat)
      requires Valid()
      ensures r == if count == 0 then NONE else Least(b, count, 0)
    {
      if count == 0 || count > size {
        return NONE;
      }
      var i := 0;
      while i + count <= size
        invariant i <= size && forall s: nat :: s < i ==> !Run(b, s, count)
      {
        var j := 0;
        var used := false;
        while j < count && !used
          invariant j <= count && (forall x :: i <= x < i + j ==> !b[x]) && (used ==> j < count && b[i + j])
          decreases count - j, !used
        {
          used := TestBit(i + j);
          if !used {
            j := j + 1;
          }
        }
        if j == count {
          assert Run(b, i, count);
          LeastIs(b, count, 0, i);
          return i;
        }
        i := i + 1;
      }
      LeastIs(b, count, 0, NONE);
      return NONE;
    }

    /**
    The search of pmm_alloc_pages: from the hint on, then from the bottom.  It fails exactly when no
    run exists anywhere; otherwise it marks a run that was clear, and nothing else.
    */
    method NextFit(count: nat) returns (r: nat)
      requires Valid() && 0 < count < HALF
      modifies bits, `b, `hint
      ensures Valid()
      ensures r == NONE <==> forall s: nat :: !Run(old(b), s, count)
      ensures r == NONE ==> b == old(b) && hint == old(hint)
      ensures r != NONE ==> Run(old(b), r, count) && b == Ranged(old(b), r, count, true) && hint == r + count
      ensures var at := Least(old(b), count, old(hint));
              r == if at != NONE then at else Least(old(b), count, 0)
    {
      ghost var looked;
      r, looked := FindFrom(count, hint);
      if r == NONE && hint != 0 {
        r := Find(count);
      }
      if r != NONE {
        assert Run(b, r, count);
        PutRange(r, count, true);
        hint := r + count;
      }
    }
  }
}
