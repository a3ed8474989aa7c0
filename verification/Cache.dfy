/**
The cache range operations (include/cache.h) over a write-back cache of any line size.  Memory and
cache are arrays of lines; a cached line may differ from memory because the CPU has written it
(dirty) or because a device has written memory since.
*/
module Cache {

  import opened Arith
  import opened Bytes

  datatype Line = Absent | Present(data: seq<Byte>, dirty: bool)

  datatype State = State(mem: seq<seq<Byte>>, line: seq<Line>)

  // ---------------------------------------------------------------- addresses and lines

  /** The line of an address, the place in it, and the first address of a line. */
  function LineOf(size: nat, x: nat): nat
    requires size > 0
  {
    x / size
  }

  function Off(size: nat, x: nat): (r: nat)
    requires size > 0
    ensures r < size
  {
    x % size
  }

  function Start(size: nat, l: nat): nat {
    l * size
  }

  lemma Position(size: nat, x: nat)
    requires size > 0
    ensures x == Start(size, LineOf(size, x)) + Off(size, x)
  {
  }

  lemma Placed(size: nat, l: nat, r: nat)
    requires r < size
    ensures LineOf(size, Start(size, l) + r) == l && Off(size, Start(size, l) + r) == r
  {
    DivMod(l * size + r, size, l, r);
  }

  /** Starts of lines keep a line's distance. */
  lemma Steps(size: nat, a: nat, b: nat)
    ensures a < b ==> Start(size, a) + size <= Start(size, b)
    ensures b < a ==> Start(size, b) + size <= Start(size, a)
    ensures Start(size, a + b) == Start(size, a) + Start(size, b)
    ensures Start(size, a + 1) == Start(size, a) + size
  {
    assert a < b ==> (a + 1) * size <= b * size;
    assert b < a ==> (b + 1) * size <= a * size;
  }

  /** Line l has a byte of the range; for an empty range, the address is inside the line. */
  predicate Touches(size: nat, addr: nat, n: nat, l: nat) {
    Start(size, l) < addr + n && addr < Start(size, l) + size
  }

  /** Line l has no byte outside the range. */
  predicate Inside(size: nat, addr: nat, n: nat, l: nat) {
    addr <= Start(size, l) && Start(size, l) + size <= addr + n
  }

  /** The lines of a range: whole ones in the middle, partial ones at the ends. */
  lemma LinesOf(size: nat, addr: nat, n: nat, l: nat)
    requires size > 0
    ensures var q, e := LineOf(size, addr), LineOf(size, addr + n);
            var first := if Off(size, addr) > 0 then q + 1 else q;
            && (Inside(size, addr, n, l) <==> first <= l < e)
            && (Touches(size, addr, n, l) <==>
                (first <= l < e) || (Off(size, addr) > 0 && l == q) || (Off(size, addr + n) > 0 && l == e))
  {
    hide LineOf, Off, Start;
    Position(size, addr);
    Position(size, addr + n);
    Steps(size, l, LineOf(size, addr));
    Steps(size, l, LineOf(size, addr + n));
  }

  // ---------------------------------------------------------------- what is cached and what is seen

  predicate Shaped(s: State, size: nat) {
    && size > 0 && |s.mem| == |s.line|
    && forall l :: 0 <= l < |s.mem| ==> |s.mem[l]| == size && (s.line[l].Present? ==> |s.line[l].data| == size)
  }

  /** What the CPU reads at an address. */
  function Seen(s: State, size: nat, x: nat): Byte
    requires Shaped(s, size) && LineOf(size, x) < |s.mem|
  {
    var l := LineOf(size, x);
    if s.line[l].Absent? then s.mem[l][Off(size, x)] else s.line[l].data[Off(size, x)]
  }

  /** Memory after a line has been written back if it was dirty. */
  function Back(m: seq<Byte>, c: Line): seq<Byte> {
    if c.Present? && c.dirty then c.data else m
  }

  function Washed(c: Line): Line {
    if c.Present? then c.(dirty := false) else c
  }

  /** The state after invalidate_dcache_range: whole lines dropped, partial ones written back first. */
  function Invalidated(s: State, size: nat, addr: nat, n: nat): State
    requires |s.mem| == |s.line|
  {
    State(seq(|s.mem|, l requires 0 <= l < |s.mem| =>
            if Touches(size, addr, n, l) && !Inside(size, addr, n, l) then Back(s.mem[l], s.line[l]) else s.mem[l]),
          seq(|s.line|, l requires 0 <= l < |s.line| =>
            if Touches(size, addr, n, l) || Inside(size, addr, n, l) then Absent else s.line[l]))
  }

  /** A byte in a line that lies inside the range is in the range; a byte of the range is in a touched line. */
  lemma ByteOfLine(size: nat, addr: nat, n: nat, x: nat)
    requires size > 0
    ensures Inside(size, addr, n, LineOf(size, x)) ==> addr <= x < addr + n
    ensures addr <= x < addr + n ==> Touches(size, addr, n, LineOf(size, x))
  {
    Position(size, x);
  }

  /** No line with a byte of the range stays cached. */
  lemma NothingStale(s: State, size: nat, addr: nat, n: nat, x: nat)
    requires Shaped(s, size) && LineOf(size, x) < |s.mem| && addr <= x < addr + n
    ensures Invalidated(s, size, addr, n).line[LineOf(size, x)].Absent?
  {
    ByteOfLine(size, addr, n, x);
  }

  /** Outside the range no written data is lost: a byte of a dirty line, or of a line not touched, reads as before. */
  lemma OutsideKept(s: State, size: nat, addr: nat, n: nat, x: nat)
    requires Shaped(s, size) && LineOf(size, x) < |s.mem| && !(addr <= x < addr + n)
    ensures Shaped(Invalidated(s, size, addr, n), size)
    ensures var l := LineOf(size, x);
            Seen(Invalidated(s, size, addr, n), size, x) ==
              if Touches(size, addr, n, l) then Back(s.mem[l], s.line[l])[Off(size, x)] else Seen(s, size, x)
    ensures s.line[LineOf(size, x)].Present? && s.line[LineOf(size, x)].dirty ==>
              Seen(Invalidated(s, size, addr, n), size, x) == Seen(s, size, x)
  {
    hide LineOf, Off, Start;
    ByteOfLine(size, addr, n, x);
  }

  /** What a device put in memory is read: in a line inside the range always, in a partial one unless it was dirty. */
  lemma DeviceDataSeen(s: State, size: nat, addr: nat, n: nat, x: nat)
    requires Shaped(s, size) && LineOf(size, x) < |s.mem| && addr <= x < addr + n
    ensures Shaped(Invalidated(s, size, addr, n), size)
    ensures var l := LineOf(size, x);
            Seen(Invalidated(s, size, addr, n), size, x) ==
              if Inside(size, addr, n, l) then s.mem[l][Off(size, x)] else Back(s.mem[l], s.line[l])[Off(size, x)]
  {
    hide LineOf, Off, Start;
    ByteOfLine(size, addr, n, x);
  }

  // ---------------------------------------------------------------- cleaning

  /** clean_dcache_range visits one line per line size, from the line of the address on. */
  function Visits(size: nat, n: nat): nat
    requires size > 0
  {
    if n == 0 then 0 else LineOf(size, n - 1) + 1
  }

  /** It reaches every line of the range exactly if the tail does not spill over one more line end. */
  lemma CleanReachesIff(size: nat, addr: nat, n: nat)
    requires size > 0 && n > 0
    ensures (forall l: nat :: Touches(size, addr, n, l) ==>
               LineOf(size, addr) <= l < LineOf(size, addr) + Visits(size, n))
            <==> Off(size, addr) + Off(size, n - 1) < size
  {
    hide LineOf, Off, Start;
    var q, a := LineOf(size, addr), LineOf(size, n - 1);
    Position(size, addr);
    Position(size, n - 1);
    Steps(size, q, a);
    forall l: nat | Touches(size, addr, n, l) && Off(size, addr) + Off(size, n - 1) < size
      ensures q <= l < q + a + 1
    {
      Steps(size, l, q);
      Steps(size, l, q + a);
    }
    Steps(size, q + a, 1);
    if Off(size, addr) + Off(size, n - 1) >= size {
      assert Touches(size, addr, n, q + a + 1);
    }
  }

  /** A whole line that starts one byte late: the last byte's line is not cleaned. */
  lemma CleanMissesTail()
    ensures Touches(64, 1, 64, 1) && !(1 < LineOf(64, 1) + Visits(64, 64))
  {
  }

  /** The state after clean_dcache_range. */
  function Cleaned(s: State, first: nat, count: nat): State
    requires |s.mem| == |s.line|
  {
    State(seq(|s.mem|, l requires 0 <= l < |s.mem| =>
            if first <= l < first + count then Back(s.mem[l], s.line[l]) else s.mem[l]),
          seq(|s.line|, l requires 0 <= l < |s.line| =>
            if first <= l < first + count then Washed(s.line[l]) else s.line[l]))
  }

  /** What the CPU has written in a visited line is in memory, and the CPU reads what it read before. */
  lemma CleanedIsSeen(s: State, size: nat, first: nat, count: nat, x: nat)
    requires Shaped(s, size) && LineOf(size, x) < |s.mem|
    ensures Shaped(Cleaned(s, first, count), size)
    ensures Seen(Cleaned(s, first, count), size, x) == Seen(s, size, x)
    ensures var l := LineOf(size, x);
            first <= l < first + count && s.line[l].Present? && s.line[l].dirty ==>
              Cleaned(s, first, count).mem[l][Off(size, x)] == Seen(s, size, x)
  {
    hide LineOf, Off;
  }

  lemma CleanedNone(s: State, q: nat)
    requires |s.mem| == |s.line|
    ensures Cleaned(s, q, 0) == s
  {
  }

  lemma CleanedNext(s: State, q: nat, k: nat)
    requires |s.mem| == |s.line| && q + k < |s.mem|
    ensures CleanLine(Cleaned(s, q, k), q + k) == Cleaned(s, q, k + 1)
  {
  }

  /** The loop runs while a whole number of lines has not yet covered the length. */
  lemma VisitsIs(size: nat, n: nat, k: nat)
    requires size > 0
    ensures Start(size, k) < n <==> k < Visits(size, n)
    ensures Start(size, 0) == 0
  {
    if n > 0 {
      var a := LineOf(size, n - 1);
      Position(size, n - 1);
      Steps(size, k, a);
      Steps(size, a, k);
    }
  }

  // ---------------------------------------------------------------- line by line

  function CleanLine(s: State, l: nat): State
    requires l < |s.mem| == |s.line|
  {
    State(s.mem[l := Back(s.mem[l], s.line[l])], s.line[l := Washed(s.line[l])])
  }

  function FlushLine(s: State, l: nat): State
    requires l < |s.mem| == |s.line|
  {
    State(s.mem[l := Back(s.mem[l], s.line[l])], s.line[l := Absent])
  }

  function DropLine(s: State, l: nat): State
    requires l < |s.mem| == |s.line|
  {
    s.(line := s.line[l := Absent])
  }

  /** Lines a to b, without b, dropped. */
  function Dropped(s: State, a: nat, b: nat): State {
    s.(line := seq(|s.line|, l requires 0 <= l < |s.line| => if a <= l < b then Absent else s.line[l]))
  }

  lemma DroppedNext(s: State, a: nat, k: nat)
    requires a <= k < |s.mem| == |s.line|
    ensures DropLine(Dropped(s, a, k), k) == Dropped(s, a, k + 1)
  {
  }

  lemma DroppedNone(s: State, a: nat)
    ensures Dropped(s, a, a) == s
  {
  }

  /** The two ends flushed and the whole lines between them dropped is the range invalidated. */
  lemma InvalidatedInSteps(s: State, size: nat, addr: nat, n: nat)
    requires Shaped(s, size) && addr + n <= Start(size, |s.mem|)
    ensures var q, e := LineOf(size, addr), LineOf(size, addr + n);
            && (Off(size, addr) > 0 ==> q < |s.mem|) && (Off(size, addr + n) > 0 ==> e < |s.mem|) && e <= |s.mem|
            && var s1 := if Off(size, addr) > 0 then FlushLine(s, q) else s;
               var s2 := if Off(size, addr + n) > 0 then FlushLine(s1, e) else s1;
               var first := if Off(size, addr) > 0 then q + 1 else q;
               Invalidated(s, size, addr, n) == Dropped(s2, first, if first < e then e else first)
  {
    hide LineOf, Off, Start;
    var q, e := LineOf(size, addr), LineOf(size, addr + n);
    Position(size, addr);
    Position(size, addr + n);
    Steps(size, q, |s.mem|);
    Steps(size, e, |s.mem|);
    hide Touches, Inside;
    forall l: nat | l < |s.mem|
      ensures var first := if Off(size, addr) > 0 then q + 1 else q;
              && (Inside(size, addr, n, l) <==> first <= l < e)
              && (Touches(size, addr, n, l) <==>
                  (first <= l < e) || (Off(size, addr) > 0 && l == q) || (Off(size, addr + n) > 0 && l == e))
    {
      LinesOf(size, addr, n, l);
    }
  }

  // ---------------------------------------------------------------- the operations

  class DCache {
    /** Bytes per line. */
    const size: nat
    const mem: array<seq<Byte>>
    const line: array<Line>

    ghost function S(): State
      reads mem, line
    {
      State(mem[..], line[..])
    }

    ghost predicate Valid()
      reads mem, line
    {
      Shaped(S(), size)
    }

    constructor (lineSize: nat, lines: nat)
      requires lineSize > 0
      ensures Valid() && size == lineSize && mem.Length == lines && fresh(mem) && fresh(line)
      ensures forall l :: 0 <= l < lines ==> line[l] == Absent
    {
      size := lineSize;
      mem := new seq<Byte>[lines](_ => Zeros(lineSize));
      line := new Line[lines](_ => Absent);
    }

    method CleanOne(p: nat)
      requires Valid() && LineOf(size, p) < mem.Length
      modifies mem, line
      ensures Valid() && S() == CleanLine(old(S()), LineOf(size, p))
    {
      var l := LineOf(size, p);
      mem[l] := Back(mem[l], line[l]);
      line[l] := Washed(line[l]);
    }

    method FlushOne(p: nat)
      requires Valid() && LineOf(size, p) < mem.Length
      modifies mem, line
      ensures Valid() && S() == FlushLine(old(S()), LineOf(size, p))
    {
      var l := LineOf(size, p);
      mem[l] := Back(mem[l], line[l]);
      line[l] := Absent;
    }

    method DropOne(p: nat)
      requires Valid() && LineOf(size, p) < mem.Length
      modifies line
      ensures Valid() && S() == DropLine(old(S()), LineOf(size, p))
    {
      var l := LineOf(size, p);
      line[l] := Absent;
    }

    /** clean_dcache_range */
    method Clean(addr: nat, n: nat)
      requires Valid() && addr + n <= Start(size, mem.Length)
      modifies mem, line
      ensures Valid() && S() == Cleaned(old(S()), LineOf(size, addr), Visits(size, n))
    {
      hide LineOf, Off, Start, Cleaned, CleanLine, Visits;
      var p := addr;
      ghost var k: nat := 0;
      Position(size, addr);
      Position(size, n);
      ghost var q := LineOf(size, addr);
      VisitsIs(size, n, 0);
      CleanedNone(S(), q);
      Steps(size, 0, 1);
      while p < addr + n
        invariant p == addr + Start(size, k) && k <= Visits(size, n)
        invariant Valid() && S() == Cleaned(old(S()), q, k)
        decreases Visits(size, n) - k
      {
        VisitsIs(size, n, k);
        VisitsIs(size, n, k + 1);
        Steps(size, q, k);
        Steps(size, k, 1);
        Placed(size, q + k, Off(size, addr));
        Steps(size, q + k, mem.Length);
        CleanedNext(old(S()), q, k);
        CleanOne(p);
        p := p + size;
        k := k + 1;
      }
      VisitsIs(size, n, k);
    }

    /** invalidate_dcache_range */
    method Invalidate(addr: nat, n: nat)
      requires Valid() && addr + n <= Start(size, mem.Length)
      modifies mem, line
      ensures Valid() && S() == Invalidated(old(S()), size, addr, n)
    {
      InvalidatedInSteps(S(), size, addr, n);
      hide LineOf, Off, Start, Invalidated, FlushLine, DropLine, Dropped;
      var p, end := addr, addr + n;
      Position(size, addr);
      Position(size, addr + n);
      ghost var q, e := LineOf(size, addr), LineOf(size, addr + n);
      ghost var first := if Off(size, addr) > 0 then q + 1 else q;
      Placed(size, q, 0);
      Placed(size, e, 0);
      Steps(size, q, 1);
      var off := Off(size, p);
      if off > 0 {
        p := p - off;
        FlushOne(p);
        p := p + size;
      }
      off := Off(size, end);
      if off > 0 {
        end := end - off;
        FlushOne(end);
      }
      DropLines(p, end, first, e);
    }

    /** The loop over whole lines. */
    method DropLines(start: nat, end: nat, ghost first: nat, ghost e: nat)
      requires Valid() && start == Start(size, first) && end == Start(size, e) && e <= mem.Length
      modifies line
      ensures Valid() && S() == Dropped(old(S()), first, if first < e then e else first)
    {
      hide LineOf, Off, Start, DropLine, Dropped;
      var p := start;
      ghost var k := first;
      DroppedNone(S(), first);
      Steps(size, first, e);
      while p < end
        invariant p == Start(size, k) && first <= k && (k <= e || k == first)
        invariant Valid() && mem[..] == old(mem[..]) && S() == Dropped(old(S()), first, k)
        decreases e - k
      {
        Steps(size, k, e);
        Steps(size, e, k);
        Placed(size, k, 0);
        DroppedNext(old(S()), first, k);
        DropOne(p);
        p := p + size;
        k := k + 1;
      }
      Steps(size, k, e);
    }
  }
}
