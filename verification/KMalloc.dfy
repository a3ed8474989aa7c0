/**
The code of fs/lwext4_port/kmalloc.c: the static array, the list walked through its
headers, and the four entry points.
*/
module KMalloc {
  import opened Bytes
  import opened HeapBlocks
  import opened HeapBytes

  /** Every block live in bs is still in bs', with its bytes as they were. */
  ghost predicate Spared(m: seq<Byte>, bs: seq<Block>, m': seq<Byte>, bs': seq<Block>) {
    |m'| == |m| && forall b :: b in bs && !b.free ==> b in bs' && Kept(m, m', b)
  }

  predicate Kept(m: seq<Byte>, m': seq<Byte>, b: Block) {
    End(b) <= |m| && End(b) <= |m'| && Payload(m', b) == Payload(m, b)
  }

  /** A change confined to a free block spares every live one that is still listed. */
  lemma ConfinedSpares(m: seq<Byte>, m': seq<Byte>, base: nat, bs: seq<Block>, i: nat, bs': seq<Block>)
    requires Spells(m, base, bs) && i < |bs| && bs[i].free
    requires SameOutside(m, m', bs[i].off, End(bs[i]))
    requires forall b :: b in bs && !b.free ==> b in bs'
    ensures Spared(m, bs, m', bs')
  {
    forall b | b in bs && !b.free
      ensures Kept(m, m', b)
    {
      var j :| 0 <= j < |bs| && bs[j] == b;
      Within(bs, 0, |m|, j);
      if j < i {
        Ordered(bs, 0, |m|, j, i);
      } else {
        Ordered(bs, 0, |m|, i, j);
      }
    }
  }

  lemma SparedTrans(m: seq<Byte>, bs: seq<Block>, m': seq<Byte>, bs': seq<Block>, m'': seq<Byte>, bs'': seq<Block>)
    requires Spared(m, bs, m', bs') && Spared(m', bs', m'', bs'')
    ensures Spared(m, bs, m'', bs'')
  {
  }

  /** One turn of the merging loop. */
  lemma MergeTurn(bs: seq<Block>, j: nat)
    requires j + 1 < |bs|
    ensures if bs[j].free && bs[j + 1].free then Merge(bs[j..]) == Merge(Join(bs, j)[j..])
            else Merge(bs[j..]) == [bs[j]] + Merge(bs[j + 1..])
  {
    var s := bs[j..];
    assert s[1..] == bs[j + 1..] && s[2..] == bs[j + 2..];
    if bs[j].free && bs[j + 1].free {
      assert Join(bs, j)[j..] == [Block(bs[j].off, bs[j].size + HDR + bs[j + 1].size, true)] + bs[j + 2..];
    }
  }

  class Arena {
    const mem: array<Byte>
    const base: nat
    /** heap_list: 0 until the first allocation. */
    var list: nat

    /** The blocks; before the first allocation the single block heap_init will write. */
    ghost var bs: seq<Block>

    ghost predicate Valid()
      reads this, mem
    {
      && mem.Length % ALIGN == 0 && HDR + ALIGN <= mem.Length <= U32 / 2
      && 0 < base && base % ALIGN == 0 && base + mem.Length < U64
      && Layout(bs, mem.Length)
      && (list == 0 ==> bs == Fresh(mem.Length))
      && (list != 0 ==> list == base && Spells(mem[..], base, bs))
    }

    /** p is an allocation that has not been freed, the payload of block i. */
    ghost predicate Live(p: nat, i: nat)
      reads this
    {
      i < |bs| && !bs[i].free && p == base + bs[i].off + HDR && list != 0
    }

    constructor (length: nat, address: nat)
      requires length % ALIGN == 0 && HDR + ALIGN <= length <= U32 / 2
      requires 0 < address && address % ALIGN == 0 && address + length < U64
      ensures Valid() && bs == Fresh(length) && base == address && mem.Length == length && fresh(mem)
    {
      mem := new Byte[length](_ => 0);
      base := address;
      list := 0;
      bs := Fresh(length);
    }

    // -------------------------------------------------------------- header fields

    function SizeAt(off: nat): (r: nat)
      requires off + HDR <= mem.Length
      reads this, mem
      ensures r == HdrAt(mem[..], off).size
    {
      assert mem[..][off..off + 4] == mem[off..off + 4];
      Unle(mem[off..off + 4])
    }

    function FreeAt(off: nat): (r: nat)
      requires off + HDR <= mem.Length
      reads this, mem
      ensures r == HdrAt(mem[..], off).free
    {
      assert mem[..][off + 4..off + 8] == mem[off + 4..off + 8];
      Unle(mem[off + 4..off + 8])
    }

    function NextAt(off: nat): (r: nat)
      requires off + HDR <= mem.Length
      reads this, mem
      ensures r == HdrAt(mem[..], off).next
    {
      assert mem[..][off + 8..off + 16] == mem[off + 8..off + 16];
      Unle(mem[off + 8..off + 16])
    }

    method Store(off: nat, s: seq<Byte>)
      requires off + |s| <= mem.Length
      modifies mem
      ensures mem[..] == Put(old(mem[..]), off, s)
    {
      forall k | 0 <= k < |s| {
        mem[off + k] := s[k];
      }
      assert mem[..] == Put(old(mem[..]), off, s);
    }

    method SetSize(off: nat, v: nat)
      requires off + HDR <= mem.Length && v < U32
      modifies mem
      ensures HdrAt(mem[..], off) == HdrAt(old(mem[..]), off).(size := v)
      ensures SameOutside(old(mem[..]), mem[..], off, off + HDR)
    {
      PutSize(mem[..], off, v);
      Store(off, Le(v, 4));
    }

    method SetFree(off: nat, v: nat)
      requires off + HDR <= mem.Length && v < U32
      modifies mem
      ensures HdrAt(mem[..], off) == HdrAt(old(mem[..]), off).(free := v)
      ensures SameOutside(old(mem[..]), mem[..], off, off + HDR)
    {
      PutFree(mem[..], off, v);
      Store(off + 4, Le(v, 4));
    }

    method SetNext(off: nat, v: nat)
      requires off + HDR <= mem.Length && v < U64
      modifies mem
      ensures HdrAt(mem[..], off) == HdrAt(old(mem[..]), off).(next := v)
      ensures SameOutside(old(mem[..]), mem[..], off, off + HDR)
    {
      PutNext(mem[..], off, v);
      Store(off + 8, Le(v, 8));
    }

    /** heap_init */
    method Init()
      requires Valid() && list == 0
      modifies this, mem
      ensures Valid() && list != 0 && bs == old(bs)
    {
      SetSize(0, mem.Length - HDR);
      SetFree(0, 1);
      SetNext(0, 0);
      list := base;
      assert At(mem[..], base, bs, 0);
    }

    // -------------------------------------------------------------- ext4_user_malloc

    /** The branch taken at the first block that fits. */
    method Take(off: nat, n: nat, ghost i: nat)
      requires Valid() && list != 0 && i < |bs| && off == bs[i].off && Fits(bs[i], n) && n % ALIGN == 0
      modifies this, mem
      ensures Valid() && list != 0 && bs == Carve(old(bs), i, n)
      ensures Spared(old(mem[..]), old(bs), mem[..], bs)
    {
      ghost var m := mem[..];
      CarveKeeps(bs, mem.Length, i, n);
      Within(bs, 0, mem.Length, i);
      assert At(m, base, bs, i);
      forall b | b in bs && !b.free
        ensures b in Carve(bs, i, n)
      {
        CarveSpares(bs, i, n, b);
      }
      if SizeAt(off) >= n + (HDR + ALIGN) {
        TakeSplit(off, n, i);
      } else {
        SetFree(off, 0);
        FlagSpells(m, mem[..], base, bs, i, false);
      }
      ConfinedSpares(m, mem[..], base, bs, i, Carve(bs, i, n));
      bs := Carve(bs, i, n);
    }

    /** The header writes of a split. */
    method TakeSplit(off: nat, n: nat, ghost i: nat)
      requires Valid() && list != 0 && i < |bs| && off == bs[i].off && n % ALIGN == 0
      requires bs[i].free && bs[i].size >= n + (HDR + ALIGN)
      modifies mem
      ensures Spells(mem[..], base, Carve(bs, i, n))
      ensures SameOutside(old(mem[..]), mem[..], off, End(bs[i]))
    {
      hide HdrAt;
      ghost var m := mem[..];
      Within(bs, 0, mem.Length, i);
      assert At(m, base, bs, i);
      if i + 1 < |bs| {
        Within(bs, 0, mem.Length, i + 1);
      }
      var next := off + HDR + n;
      var size, link := SizeAt(off), NextAt(off);
      WriteHeader(next, size - n - HDR, 1, link);
      ghost var m1 := mem[..];
      WriteHeader(off, n, 0, base + next);
      HdrUnchanged(m1, mem[..], off, off + HDR, next);
      ghost var x, y := Block(off, n, false), Block(next, size - n - HDR, true);
      SplitSpells(m, mem[..], base, bs, i, x, y);
      assert Split(bs, i, x, y) == Carve(bs, i, n);
    }

    method WriteHeader(off: nat, size: nat, free: nat, next: nat)
      requires off + HDR <= mem.Length && size < U32 && free < U32 && next < U64
      modifies mem
      ensures HdrAt(mem[..], off) == Hdr(size, free, next)
      ensures SameOutside(old(mem[..]), mem[..], off, off + HDR)
    {
      SetSize(off, size);
      SetFree(off, free);
      SetNext(off, next);
    }

    /** The walk of ext4_user_malloc along the list. */
    method Find(size: nat) returns (blk: nat, ghost i: nat)
      requires Valid() && list != 0
      ensures i == FirstFit(bs, size) && blk == Ptr(base, bs, i)
    {
      hide HdrAt;
      blk, i := list, 0;
      while blk != 0
        invariant i <= |bs| && blk == Ptr(base, bs, i)
        invariant forall j :: 0 <= j < i ==> !Fits(bs[j], size)
        decreases |bs| - i
      {
        var off := blk - base;
        assert At(mem[..], base, bs, i);
        if FreeAt(off) != 0 && SizeAt(off) >= size {
          return;
        }
        blk := NextAt(off);
        i := i + 1;
      }
    }

    /**
    ext4_user_malloc: the first block that fits the rounded request, split when the rest can
    hold a block; NULL when none does.  All live bytes stay as they are.
    */
    method Malloc(n: nat) returns (p: nat)
      requires Valid() && n < U64
      modifies this, mem
      ensures Valid() && (n > 0 ==> list != 0) && (old(list) != 0 ==> list != 0)
      ensures Spared(old(mem[..]), old(bs), mem[..], bs)
      ensures var i := FirstFit(old(bs), AlignUp(n));
              if n == 0 || i == |old(bs)| then p == 0 && bs == old(bs)
              else
                && bs == Carve(old(bs), i, AlignUp(n)) && p == base + old(bs)[i].off + HDR && Live(p, i)
                && AlignUp(n) <= bs[i].size < AlignUp(n) + HDR + ALIGN
    {
      hide HdrAt, AlignUp, Carve, Spells;
      SparedSelf(mem[..], bs);
      if n == 0 {
        return 0;
      }
      if list == 0 {
        Init();
      }
      AlignUpIsAdequate(n);
      var size := AlignUp(n);
      ghost var m := mem[..];
      var blk, i := Find(size);
      if blk == 0 {
        return 0;
      }
      CarveKeeps(bs, mem.Length, i, size);
      Take(blk - base, size, i);
      SparedTrans(old(mem[..]), old(bs), m, old(bs), mem[..], bs);
      return blk + HDR;
    }

    // -------------------------------------------------------------- ext4_user_free

    /** The merging branch: block j swallows the free block behind it. */
    method Swallow(off: nat, next: nat, ghost j: nat)
      requires mem.Length <= U32 / 2 && 0 < base && base + mem.Length < U64
      requires Spells(mem[..], base, bs) && j + 1 < |bs| && bs[j].free && bs[j + 1].free
      requires off == bs[j].off && next == bs[j + 1].off
      modifies `bs, mem
      ensures bs == Join(old(bs), j) && Spells(mem[..], base, bs)
      ensures Spared(old(mem[..]), old(bs), mem[..], bs)
    {
      hide HdrAt;
      ghost var m := mem[..];
      assert At(m, base, bs, j) && At(m, base, bs, j + 1) && Adjacent(bs, j + 1);
      if j + 2 < |bs| {
        Within(bs, 0, mem.Length, j + 2);
      }
      var size, link := SizeAt(off) + HDR + SizeAt(next), NextAt(next);
      SetSize(off, size);
      SetNext(off, link);
      JoinSpells(m, mem[..], base, bs, j);
      forall b | b in bs && !b.free
        ensures b in Join(bs, j)
      {
        JoinSpares(bs, j, b);
      }
      ConfinedSpares(m, mem[..], base, bs, j, Join(bs, j));
      bs := Join(bs, j);
    }

    /** The loop of ext4_user_free. */
    method Coalesce()
      requires mem.Length <= U32 / 2 && 0 < base && base + mem.Length < U64 && list == base
      requires Spells(mem[..], base, bs)
      modifies `bs, mem
      ensures bs == Merge(old(bs)) && Spells(mem[..], base, bs)
      ensures Spared(old(mem[..]), old(bs), mem[..], bs)
    {
      hide HdrAt, Join, Merge, Spared, Kept;
      SparedSelf(mem[..], bs);
      var cur := list;
      ghost var j := 0;
      assert bs[0..] == bs;
      assert At(mem[..], base, bs, 0);
      while cur != 0 && NextAt(cur - base) != 0
        invariant Spells(mem[..], base, bs)
        invariant j < |bs| && cur == base + bs[j].off && At(mem[..], base, bs, j)
        invariant Merge(old(bs)) == bs[..j] + Merge(bs[j..])
        invariant Spared(old(mem[..]), old(bs), mem[..], bs)
        decreases |bs| - j
      {
        var off, next := cur - base, NextAt(cur - base) - base;
        assert At(mem[..], base, bs, j + 1);
        MergeTurn(bs, j);
        if FreeAt(off) != 0 && FreeAt(next) != 0 {
          ghost var m, before := mem[..], bs;
          JoinFront(bs, j);
          Swallow(off, next, j);
          SparedTrans(old(mem[..]), old(bs), m, before, mem[..], bs);
          assert At(mem[..], base, bs, j);
        } else {
          assert bs[..j] + [bs[j]] == bs[..j + 1];
          cur := base + next;
          j := j + 1;
        }
      }
      MergeOne(bs[j..]);
      assert bs[..j] + bs[j..] == bs;
    }

    /** ext4_user_free: exactly the given block is released; all other live bytes stay. */
    method Free(p: nat, ghost i: nat)
      requires Valid() && (p == 0 || Live(p, i))
      modifies this, mem
      ensures Valid() && list == old(list)
      ensures p == 0 ==> bs == old(bs) && mem[..] == old(mem[..])
      ensures p != 0 ==> bs == Release(old(bs), i)
      ensures p != 0 ==> SparedBut(old(mem[..]), old(bs), i, mem[..], bs)
    {
      if p == 0 {
        return;
      }
      hide HdrAt, Merge, Spared, SparedBut, Kept;
      ghost var m, c := mem[..], bs[i := bs[i].(free := true)];
      assert At(m, base, bs, i);
      ReleaseKeeps(bs, mem.Length, i);
      var off := p - HDR - base;
      SetFree(off, 1);
      FlagSpells(m, mem[..], base, bs, i, true);
      FlagSpares(m, mem[..], base, bs, i);
      ghost var m1, before := mem[..], bs;
      bs := c;
      Coalesce();
      FreeSpares(m, before, i, m1, mem[..], bs);
    }

    // -------------------------------------------------------------- calloc and realloc

    /** Writing inside a live allocation, by its owner or by the allocator for it. */
    method Write(p: nat, s: seq<Byte>, ghost i: nat)
      requires Valid() && Live(p, i) && |s| <= bs[i].size
      modifies mem
      ensures Valid() && SparedBut(old(mem[..]), bs, i, mem[..], bs)
      ensures End(bs[i]) <= mem.Length && Payload(mem[..], bs[i])[..|s|] == s
    {
      ghost var m := mem[..];
      Within(bs, 0, mem.Length, i);
      Store(p - base, s);
      WriteSpells(m, mem[..], base, bs, i);
      assert Payload(mem[..], bs[i])[..|s|] == mem[..][bs[i].off + HDR..bs[i].off + HDR + |s|];
    }

    /**
    ext4_user_calloc; the product wraps at 64 bits, as in the code.  What is handed out is zero for
    the whole wrapped length, unless that is above 2^32 - 16: then the rounding has cut the request,
    and clearing the length would run past the end of the arena (`overrun`; the clearing is not done
    here).
    */
    method Calloc(nmemb: nat, size: nat) returns (p: nat, overrun: bool)
      requires Valid() && nmemb < U64 && size < U64
      modifies this, mem
      ensures Valid() && Spared(old(mem[..]), old(bs), mem[..], bs)
      ensures var total := nmemb * size % U64;
              var i := FirstFit(old(bs), AlignUp(total));
              && (overrun <==> total > U32 - ALIGN && i < |old(bs)|)
              && (overrun ==> p - base + total > mem.Length)
              && if total == 0 || i == |old(bs)| then p == 0 && bs == old(bs)
                 else && bs == Carve(old(bs), i, AlignUp(total)) && Live(p, i)
                      && (!overrun ==> && total <= bs[i].size && End(bs[i]) <= mem.Length
                                       && Payload(mem[..], bs[i])[..total] == Zeros(total))
    {
      hide HdrAt, AlignUp, Carve, Spells, Spared, SparedBut, Kept;
      var total := nmemb * size % U64;
      AlignUpIsAdequate(total);
      ghost var i := FirstFit(bs, AlignUp(total));
      p := Malloc(total);
      overrun := p != 0 && total > U32 - ALIGN;
      if p != 0 && !overrun {
        CarveKeeps(old(bs), mem.Length, i, AlignUp(total));
        ghost var m := mem[..];
        Write(p, Zeros(total), i);
        CarvedIsNew(old(bs), mem.Length, i, AlignUp(total));
        NewIsSpared(old(mem[..]), old(bs), m, bs, i, mem[..]);
      }
    }

    /** ext4_user_realloc */
    method Realloc(p: nat, n: nat, ghost i: nat) returns (r: nat)
      requires Valid() && n < U64 && (p == 0 || Live(p, i))
      modifies this, mem
      ensures Valid()
      ensures p != 0 && n == 0 ==>
                r == 0 && bs == Release(old(bs), i) && SparedBut(old(mem[..]), old(bs), i, mem[..], bs)
      ensures p != 0 && n != 0 && old(bs)[i].size >= AlignUp(n) ==>
                r == p && bs == old(bs) && mem[..] == old(mem[..])
      ensures (p == 0 || (n != 0 && old(bs)[i].size < AlignUp(n))) &&
              (n == 0 || FirstFit(old(bs), AlignUp(n)) == |old(bs)|) ==>
                r == 0 && bs == old(bs) && Spared(old(mem[..]), old(bs), mem[..], bs)
      ensures p == 0 && n != 0 && FirstFit(old(bs), AlignUp(n)) < |old(bs)| ==>
                && Live(r, FirstFit(old(bs), AlignUp(n)))
                && bs == Carve(old(bs), FirstFit(old(bs), AlignUp(n)), AlignUp(n))
                && Spared(old(mem[..]), old(bs), mem[..], bs)
      ensures p != 0 && n != 0 && old(bs)[i].size < AlignUp(n) && FirstFit(old(bs), AlignUp(n)) < |old(bs)| ==>
                Moved(old(mem[..]), old(bs), i, mem[..], bs, AlignUp(n), r - base)
    {
      hide HdrAt, AlignUp, Carve, Spells, Spared, SparedBut, Kept, Moved, FirstFit;
      if p == 0 {
        r := Malloc(n);
        return;
      }
      if n == 0 {
        Free(p, i);
        return 0;
      }
      AlignUpIsAdequate(n);
      ghost var a := AlignUp(n);
      assert old(mem[..]) == mem[..];
      var size := CapacityOf(p, i);
      if size >= AlignUp(n) {
        return p;
      }
      ghost var k := FirstFit(bs, a);
      r := Malloc(n);
      if r == 0 {
        return;
      }
      MoveInto(p, r, size, i, k, a, old(mem[..]), old(bs));
    }

    /** blk->size of the header in front of an allocation. */
    method CapacityOf(p: nat, ghost i: nat) returns (size: nat)
      requires Valid() && Live(p, i)
      ensures size == bs[i].size
    {
      assert At(mem[..], base, bs, i);
      size := SizeAt(p - HDR - base);
    }

    /** The copy and the release that follow a successful allocation in ext4_user_realloc. */
    method MoveInto(p: nat, r: nat, size: nat, ghost i: nat, ghost k: nat, ghost a: nat,
                    ghost m0: seq<Byte>, ghost bs0: seq<Block>)
      requires Valid() && Layout(bs0, mem.Length) && |m0| == mem.Length
      requires i < |bs0| && !bs0[i].free && k < |bs0| && Fits(bs0[k], a)
      requires k == FirstFit(bs0, a) && a % ALIGN == 0 && size == bs0[i].size < a
      requires bs == Carve(bs0, k, a) && Live(r, k) && p == base + bs0[i].off + HDR
      requires Spared(m0, bs0, mem[..], bs)
      modifies this, mem
      ensures Valid() && Moved(m0, bs0, i, mem[..], bs, a, r - base)
    {
      hide HdrAt, AlignUp, Spells, Spared, SparedBut, Kept, Carve, Moved;
      CarveKeeps(bs0, mem.Length, k, a);
      ghost var j := StillThere(bs0, mem.Length, i, k, a);
      Within(bs, 0, mem.Length, j);
      var data := mem[p - base..p - base + size];
      ghost var m1, bs1 := mem[..], bs;
      assert data == Payload(m1, bs1[j]);
      Write(r, data, k);
      ghost var m2 := mem[..];
      Free(p, j);
      MovedHolds(m0, bs0, i, m1, a, j, m2, mem[..], bs);
    }
  }

  lemma WriteSpells(m: seq<Byte>, m': seq<Byte>, base: nat, bs: seq<Block>, i: nat)
    requires Spells(m, base, bs) && i < |bs| && SameOutside(m, m', bs[i].off + HDR, End(bs[i]))
    ensures Spells(m', base, bs) && SparedBut(m, bs, i, m', bs)
  {
    hide HdrAt;
    forall k: nat | k < |bs|
      ensures At(m', base, bs, k)
    {
      assert At(m, base, bs, k);
      if k < i {
        Ordered(bs, 0, |m|, k, i);
      } else if i < k {
        Ordered(bs, 0, |m|, i, k);
      }
      HdrUnchanged(m, m', bs[i].off + HDR, End(bs[i]), bs[k].off);
    }
    forall b | b in bs && !b.free && b != bs[i]
      ensures Kept(m, m', b)
    {
      var k :| 0 <= k < |bs| && bs[k] == b;
      Within(bs, 0, |m|, k);
      if k < i {
        Ordered(bs, 0, |m|, k, i);
      } else {
        Ordered(bs, 0, |m|, i, k);
      }
    }
  }

  lemma CarvedIsNew(bs: seq<Block>, len: nat, k: nat, a: nat)
    requires Layout(bs, len) && k < |bs| && Fits(bs[k], a) && a % ALIGN == 0
    ensures k < |Carve(bs, k, a)| && Carve(bs, k, a)[k] !in bs
  {
    CarveKeeps(bs, len, k, a);
    var nb := Carve(bs, k, a)[k];
    if nb in bs {
      var j :| 0 <= j < |bs| && bs[j] == nb;
      if j != k {
        LiveAreDisjoint(bs, len, j, k);
      }
      assert false;
    }
  }

  /** Where a live block is found after carving another. */
  lemma StillThere(bs: seq<Block>, len: nat, i: nat, k: nat, a: nat) returns (j: nat)
    requires Layout(bs, len) && i < |bs| && !bs[i].free && k < |bs| && Fits(bs[k], a) && a % ALIGN == 0
    ensures j < |Carve(bs, k, a)| && Carve(bs, k, a)[j] == bs[i] && j != k
  {
    CarveSpares(bs, k, a, bs[i]);
    CarvedIsNew(bs, len, k, a);
    j :| 0 <= j < |Carve(bs, k, a)| && Carve(bs, k, a)[j] == bs[i];
  }

  /**
  The allocation of block i has moved to the block carved for a bytes, whose payload is at
  `at`: the old bytes are its beginning, the old block is released, nothing else changed.
  */
  ghost predicate Moved(m: seq<Byte>, bs: seq<Block>, i: nat, m': seq<Byte>, bs': seq<Block>, a: nat, at: int) {
    var k := FirstFit(bs, a);
    i < |bs| && k < |bs| && |m'| == |m| &&
    var c := Carve(bs, k, a);
    && k < |c| && c[k] in bs' && at == c[k].off + HDR
    && (exists j :: 0 <= j < |c| && c[j] == bs[i] && bs' == Release(c, j))
    && End(c[k]) <= |m| && End(bs[i]) <= |m| && bs[i].size <= c[k].size
    && Payload(m', c[k])[..bs[i].size] == Payload(m, bs[i])
    && (forall b :: b in bs && !b.free && b != bs[i] ==> b in bs' && Kept(m, m', b))
  }

  lemma MovedHolds(m: seq<Byte>, bs: seq<Block>, i: nat, m1: seq<Byte>, a: nat, j: nat,
                   m2: seq<Byte>, m': seq<Byte>, bs': seq<Block>)
    requires Layout(bs, |m|) && i < |bs| && !bs[i].free && FirstFit(bs, a) < |bs| && a % ALIGN == 0 && bs[i].size < a
    requires var c := Carve(bs, FirstFit(bs, a), a);
             && Spared(m, bs, m1, c)
             && j < |c| && c[j] == bs[i] && j != FirstFit(bs, a) && FirstFit(bs, a) < |c|
             && SparedBut(m1, c, FirstFit(bs, a), m2, c)
             && End(c[FirstFit(bs, a)]) <= |m2| && End(bs[i]) <= |m1| && bs[i].size <= c[FirstFit(bs, a)].size
             && Payload(m2, c[FirstFit(bs, a)])[..bs[i].size] == Payload(m1, bs[i])
             && bs' == Release(c, j) && SparedBut(m2, c, j, m', bs')
    ensures Moved(m, bs, i, m', bs', a, Carve(bs, FirstFit(bs, a), a)[FirstFit(bs, a)].off + HDR)
  {
    hide Carve, Release, Payload;
    var k := FirstFit(bs, a);
    var c := Carve(bs, k, a);
    CarveKeeps(bs, |m|, k, a);
    CarvedIsNew(bs, |m|, k, a);
    assert Kept(m, m1, bs[i]);
    assert Kept(m2, m', c[k]);
    forall b | b in bs && !b.free && b != bs[i]
      ensures b in bs' && Kept(m, m', b)
    {
      assert b in c && Kept(m, m1, b);
      assert Kept(m1, m2, b);
      assert b in bs' && Kept(m2, m', b);
    }
  }

  /** Filling a block just carved touches no block that was live before. */
  lemma NewIsSpared(m: seq<Byte>, bs: seq<Block>, m1: seq<Byte>, bs1: seq<Block>, i: nat, m2: seq<Byte>)
    requires Spared(m, bs, m1, bs1) && i < |bs1| && SparedBut(m1, bs1, i, m2, bs1)
    requires bs1[i] !in bs
    ensures Spared(m, bs, m2, bs1)
  {
  }

  /** Every live block but the i-th is spared. */
  ghost predicate SparedBut(m: seq<Byte>, bs: seq<Block>, i: nat, m': seq<Byte>, bs': seq<Block>)
    requires i < |bs|
  {
    |m'| == |m| && forall b :: b in bs && !b.free && b != bs[i] ==> b in bs' && Kept(m, m', b)
  }

  lemma FreeSpares(m: seq<Byte>, bs: seq<Block>, i: nat, m1: seq<Byte>, m': seq<Byte>, bs': seq<Block>)
    requires i < |bs| && |m1| == |m| && (forall b :: b in bs ==> Kept(m, m1, b))
    requires Spared(m1, bs[i := bs[i].(free := true)], m', bs')
    ensures SparedBut(m, bs, i, m', bs')
  {
    var c := bs[i := bs[i].(free := true)];
    forall b | b in bs && !b.free && b != bs[i]
      ensures b in bs' && Kept(m, m', b)
    {
      var k :| 0 <= k < |bs| && bs[k] == b;
      assert c[k] == b;
    }
  }

  lemma JoinSpares(bs: seq<Block>, j: nat, b: Block)
    requires j + 1 < |bs| && bs[j].free && bs[j + 1].free && b in bs && !b.free
    ensures b in Join(bs, j)
  {
    var k :| 0 <= k < |bs| && bs[k] == b;
    assert if k < j then Join(bs, j)[k] == b else Join(bs, j)[k - 1] == b;
  }

  lemma JoinFront(bs: seq<Block>, j: nat)
    requires j + 1 < |bs|
    ensures |Join(bs, j)| == |bs| - 1 && Join(bs, j)[..j] == bs[..j] && Join(bs, j)[j].off == bs[j].off
  {
  }

  lemma MergeOne(bs: seq<Block>)
    requires |bs| == 1
    ensures Merge(bs) == bs
  {
  }

  /** Setting the flag of block i touches no payload. */
  lemma FlagSpares(m: seq<Byte>, m': seq<Byte>, base: nat, bs: seq<Block>, i: nat)
    requires Spells(m, base, bs) && i < |bs| && SameOutside(m, m', bs[i].off, bs[i].off + HDR)
    ensures forall b :: b in bs ==> Kept(m, m', b)
  {
    forall b | b in bs
      ensures Kept(m, m', b)
    {
      var k :| 0 <= k < |bs| && bs[k] == b;
      Within(bs, 0, |m|, k);
      if k < i {
        Ordered(bs, 0, |m|, k, i);
      } else if i < k {
        Ordered(bs, 0, |m|, i, k);
      }
    }
  }

  lemma SparedSelf(m: seq<Byte>, bs: seq<Block>)
    requires Tiles(bs, 0, |m|)
    ensures Spared(m, bs, m, bs)
  {
    forall b | b in bs && !b.free
      ensures Kept(m, m, b)
    {
      var j :| 0 <= j < |bs| && bs[j] == b;
      Within(bs, 0, |m|, j);
    }
  }
}
