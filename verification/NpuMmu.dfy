/**
The NPU's IOMMU (driver/npu/npu_mmu.c, include/npu/npu_mmu.h): a two-level page table that
mirrors the guest's stage-2 map.  The table pages are words of physical memory, and the
hardware is a function that walks them through the encoded addresses, as the device does.

Addresses of the guest (IPA) are counted in 4 KiB pages.
*/
module NpuMmu {

  import opened Bytes

  const ENTRIES: nat := 1024

  // ---------------------------------------------------------------- entry format

  /** A physical address and a table entry, as the bits they are. */
  datatype Addr = Addr(bits: bv64)
  datatype Word = Word(bits: bv32)

  const ZERO := Word(0)

  /** npu_mmu_mk_dte: address bits 31:12 stay, 35:32 go to 11:8, 39:36 to 7:4; bit 0 is valid. */
  function MkDte(pa: Addr): Word {
    var x := pa.bits;
    Word(((x & 0xFFFFF000) | ((x >> 24) & 0xF00) | ((x >> 32) & 0xF0) | 1) as bv32)
  }

  /** npu_mmu_mk_pte for a writable page: readable is bit 1, writable bit 2. */
  function MkPte(pa: Addr): Word {
    Word(MkDte(pa).bits | 2 | 4)
  }

  /** How the hardware reads the address of an entry. */
  function AddrOf(e: Word): Addr {
    var x := e.bits as bv64;
    Addr((x & 0xFFFFF000) | ((x & 0xF00) << 24) | ((x & 0xF0) << 32))
  }

  predicate IsValid(e: Word) { e.bits & 1 == 1 }

  /** The device may read and write the page of an entry. */
  predicate Permits(e: Word) { e.bits & 2 == 2 && e.bits & 4 == 4 }

  /** A page address of at most 40 bits. */
  predicate PageAddr(pa: Addr) {
    pa.bits & 0xFFF == 0 && pa.bits >> 40 == 0
  }

  /** The encoding loses nothing exactly on 40-bit page addresses. */
  lemma EntryRoundTrip(pa: Addr)
    ensures AddrOf(MkDte(pa)) == pa <==> PageAddr(pa)
    ensures AddrOf(MkPte(pa)) == pa <==> PageAddr(pa)
    ensures IsValid(MkDte(pa)) && IsValid(MkPte(pa)) && !IsValid(ZERO) && Permits(MkPte(pa))
  {
    var x := pa.bits;
    assert AddrOf(MkDte(pa)).bits == x <==> PageAddr(pa);
    assert AddrOf(MkPte(pa)).bits == x <==> PageAddr(pa);
  }

  // ---------------------------------------------------------------- tables

  datatype Pt = NoPt | Pt(pa: Addr)

  /** The stage-2 map: guest page to physical page.  It only ever grows. */
  type Stage2 = map<nat, Addr>

  /**
  `mem` is the content of the pages the allocator has lent to the driver, and `user` says for
  which directory entry each of them was taken.
  */
  datatype Tables = Tables(dir: seq<Word>, pts: seq<Pt>, mem: map<Addr, seq<Word>>, user: map<Addr, nat>)

  /**
  The device: two reads of physical memory through the addresses in the entries.  A page counts as
  translated when both reads and writes to it go through.
  */
  function Walk(t: Tables, page: nat): Option<Addr>
    requires |t.dir| == ENTRIES
  {
    if page / ENTRIES >= ENTRIES then None else
    var dte := t.dir[page / ENTRIES];
    if !IsValid(dte) || AddrOf(dte) !in t.mem then None else
    var table := t.mem[AddrOf(dte)];
    if page % ENTRIES >= |table| then None else
    var pte := table[page % ENTRIES];
    if IsValid(pte) && Permits(pte) then Some(AddrOf(pte)) else None
  }

  /** Directory entry i points at the table taken for it, or is zero. */
  predicate DirOk(t: Tables, i: nat)
    requires |t.dir| == ENTRIES && |t.pts| == ENTRIES && i < ENTRIES
  {
    match t.pts[i]
    case NoPt => t.dir[i] == ZERO
    case Pt(pa) =>
      && t.dir[i] == MkDte(pa) && Handed(pa)
      && pa in t.user && t.user[pa] == i
      && pa in t.mem && |t.mem[pa]| == ENTRIES
  }

  /** A lent page is the table of its user. */
  predicate UserOk(t: Tables, pa: Addr)
    requires |t.pts| == ENTRIES && pa in t.user
  {
    t.user[pa] < ENTRIES && t.pts[t.user[pa]] == Pt(pa)
  }

  /** The entry of a page is zero or the encoding of its stage-2 translation. */
  predicate EntryOk(t: Tables, s2: Stage2, page: nat)
    requires |t.pts| == ENTRIES && page / ENTRIES < ENTRIES
  {
    var pt := t.pts[page / ENTRIES];
    pt.Pt? && pt.pa in t.mem && page % ENTRIES < |t.mem[pt.pa]| ==>
      var e := t.mem[pt.pa][page % ENTRIES];
      e == ZERO || (page in s2 && e == MkPte(s2[page]))
  }

  ghost predicate Inv(t: Tables, s2: Stage2) {
    && |t.dir| == ENTRIES && |t.pts| == ENTRIES
    && (forall i: nat :: i < ENTRIES ==> DirOk(t, i))
    && t.mem.Keys == t.user.Keys && (forall pa :: pa in t.user ==> UserOk(t, pa))
    && (forall page: nat :: page / ENTRIES < ENTRIES ==> EntryOk(t, s2, page))
    && (forall page :: page in s2 ==> Handed(s2[page]))
  }

  /** What the page allocator hands out: a 40-bit page address that is not its sign of failure. */
  predicate Handed(pa: Addr) {
    PageAddr(pa) && pa != Addr(0)
  }

  /** The device never sees a translation that is not the guest's own. */
  lemma WalkIsStage2(t: Tables, s2: Stage2, page: nat)
    requires Inv(t, s2)
    ensures Walk(t, page).Some? ==> page in s2 && Walk(t, page) == Some(s2[page])
  {
    var i := page / ENTRIES;
    if i < ENTRIES {
      assert DirOk(t, i) && EntryOk(t, s2, page);
      if t.pts[i].Pt? {
        EntryRoundTrip(t.pts[i].pa);
        if page in s2 {
          EntryRoundTrip(s2[page]);
        }
      }
    }
  }

  function NoTables(): Tables {
    Tables(seq(ENTRIES, _ => ZERO), seq(ENTRIES, _ => NoPt), map[], map[])
  }

  lemma NoTablesOk(s2: Stage2)
    requires forall page :: page in s2 ==> Handed(s2[page])
    ensures Inv(NoTables(), s2)
  {
  }

  /** pt_for on a missing table: a zeroed page, and the directory entry that points at it. */
  function AddTable(t: Tables, i: nat, pa: Addr): Tables
    requires |t.dir| == ENTRIES && |t.pts| == ENTRIES && i < ENTRIES
  {
    Tables(t.dir[i := MkDte(pa)], t.pts[i := Pt(pa)], t.mem[pa := seq(ENTRIES, _ => ZERO)], t.user[pa := i])
  }

  lemma AddTableKeeps(t: Tables, s2: Stage2, i: nat, pa: Addr)
    requires Inv(t, s2) && i < ENTRIES && t.pts[i].NoPt? && Handed(pa) && pa !in t.user
    ensures Inv(AddTable(t, i, pa), s2)
    ensures forall page: nat :: Walk(AddTable(t, i, pa), page) == Walk(t, page)
  {
    var t' := AddTable(t, i, pa);
    forall j: nat | j < ENTRIES ensures DirOk(t', j) { assert DirOk(t, j); }
    forall p | p in t'.user ensures UserOk(t', p) { assert p in t.user ==> UserOk(t, p); }
    forall page: nat | page / ENTRIES < ENTRIES
      ensures EntryOk(t', s2, page)
    {
      assert EntryOk(t, s2, page) && DirOk(t, page / ENTRIES);
    }
    forall page: nat
      ensures Walk(t', page) == Walk(t, page)
    {
      SameWalk(t, t', s2, page, i, pa);
    }
  }

  lemma SameWalk(t: Tables, t': Tables, s2: Stage2, page: nat, i: nat, pa: Addr)
    requires Inv(t, s2) && i < ENTRIES && t.pts[i].NoPt? && Handed(pa) && pa !in t.user
    requires t' == AddTable(t, i, pa)
    ensures Walk(t', page) == Walk(t, page)
  {
    var k := page / ENTRIES;
    if k < ENTRIES {
      assert DirOk(t, k);
      EntryRoundTrip(pa);
      if t.pts[k].Pt? {
        EntryRoundTrip(t.pts[k].pa);
      }
    }
  }

  /** pte_set */
  function SetEntry(t: Tables, page: nat, pa: Addr): Tables
    requires |t.pts| == ENTRIES && page / ENTRIES < ENTRIES && t.pts[page / ENTRIES].Pt?
    requires t.pts[page / ENTRIES].pa in t.mem && |t.mem[t.pts[page / ENTRIES].pa]| == ENTRIES
  {
    var at := t.pts[page / ENTRIES].pa;
    t.(mem := t.mem[at := t.mem[at][page % ENTRIES := MkPte(pa)]])
  }

  lemma SetEntryKeeps(t: Tables, s2: Stage2, page: nat)
    requires Inv(t, s2) && page / ENTRIES < ENTRIES && t.pts[page / ENTRIES].Pt? && page in s2
    ensures DirOk(t, page / ENTRIES) && Inv(SetEntry(t, page, s2[page]), s2)
    ensures Walk(SetEntry(t, page, s2[page]), page) == Some(s2[page])
    ensures forall p: nat :: p != page ==> Walk(SetEntry(t, page, s2[page]), p) == Walk(t, p)
  {
    assert DirOk(t, page / ENTRIES);
    var t' := SetEntry(t, page, s2[page]);
    forall j: nat | j < ENTRIES ensures DirOk(t', j) { assert DirOk(t, j); }
    forall p | p in t'.user ensures UserOk(t', p) { assert UserOk(t, p); }
    forall p: nat | p / ENTRIES < ENTRIES
      ensures EntryOk(t', s2, p)
    {
      assert EntryOk(t, s2, p) && DirOk(t, p / ENTRIES);
      SamePage(p, page);
    }
    EntryRoundTrip(t.pts[page / ENTRIES].pa);
    EntryRoundTrip(s2[page]);
    forall p: nat | p != page
      ensures Walk(t', p) == Walk(t, p)
    {
      SamePage(p, page);
      if p / ENTRIES < ENTRIES {
        assert DirOk(t, p / ENTRIES);
        if t.pts[p / ENTRIES].Pt? {
          EntryRoundTrip(t.pts[p / ENTRIES].pa);
        }
      }
    }
  }

  lemma SamePage(p: nat, q: nat)
    ensures p / ENTRIES == q / ENTRIES && p % ENTRIES == q % ENTRIES ==> p == q
  {
  }

  /** More stage-2 mappings leave the mirror right. */
  lemma GrowKeeps(t: Tables, s2: Stage2, page: nat, pa: Addr)
    requires Inv(t, s2) && page !in s2 && Handed(pa)
    ensures Inv(t, s2[page := pa])
  {
    forall p: nat | p / ENTRIES < ENTRIES
      ensures EntryOk(t, s2[page := pa], p)
    {
      assert EntryOk(t, s2, p);
    }
  }

  /** Giving the table of directory entry i back to the allocator. */
  function DropTable(t: Tables, i: nat): Tables
    requires |t.dir| == ENTRIES && |t.pts| == ENTRIES && i < ENTRIES
  {
    var t' := t.(dir := t.dir[i := ZERO], pts := t.pts[i := NoPt]);
    if t.pts[i].NoPt? then t' else t'.(mem := t.mem - {t.pts[i].pa}, user := t.user - {t.pts[i].pa})
  }

  lemma DropTableKeeps(t: Tables, s2: Stage2, i: nat)
    requires Inv(t, s2) && i < ENTRIES
    ensures Inv(DropTable(t, i), s2)
  {
    var t' := DropTable(t, i);
    assert DirOk(t, i);
    forall j: nat | j < ENTRIES ensures DirOk(t', j) { assert DirOk(t, j); }
    forall p | p in t'.user ensures UserOk(t', p) { assert UserOk(t, p); }
    forall page: nat | page / ENTRIES < ENTRIES ensures EntryOk(t', s2, page) { assert EntryOk(t, s2, page); }
  }

  /** Without tables nothing is lent: every page is back with the allocator. */
  lemma AllDropped(t: Tables, s2: Stage2)
    requires Inv(t, s2) && forall i :: 0 <= i < ENTRIES ==> t.pts[i].NoPt?
    ensures t == NoTables()
  {
    forall i: nat | i < ENTRIES ensures t.dir[i] == ZERO { assert DirOk(t, i); }
    assert t.dir == NoTables().dir && t.pts == NoTables().pts;
    forall pa ensures pa !in t.user { }
    assert t.user == map[] && t.mem.Keys == {};
    assert t.mem == map[];
  }

  // ---------------------------------------------------------------- pages

  /** The allocator's free pages: each once, and none of them lent. */
  ghost predicate PoolOk(pool: seq<Addr>, mem: map<Addr, seq<Word>>) {
    && (forall i :: 0 <= i < |pool| ==> Handed(pool[i]) && pool[i] !in mem)
    && (forall i, j :: 0 <= i < j < |pool| ==> pool[i] != pool[j])
  }

  /** Guest pages from lo up to hi that stage 2 does not map. */
  function Unmapped(s2: Stage2, lo: nat, hi: nat): nat
    decreases hi - lo
  {
    if lo >= hi then 0 else (if lo in s2 then 0 else 1) + Unmapped(s2, lo + 1, hi)
  }

  /** Tables from lo up to hi that do not exist. */
  function Untabled(pts: seq<Pt>, lo: nat, hi: nat): nat
    requires hi <= |pts|
    decreases hi - lo
  {
    if lo >= hi then 0 else (if pts[lo].Pt? then 0 else 1) + Untabled(pts, lo + 1, hi)
  }

  /** One past the last table of a range that ends at page `end`. */
  function TopTable(end: nat): nat {
    if end == 0 then 0 else (end - 1) / ENTRIES + 1
  }

  /** The pages a sync of the range has to ask the allocator for. */
  function Missing(s2: Stage2, pts: seq<Pt>, base: nat, end: nat): nat
    requires TopTable(end) <= |pts|
  {
    Unmapped(s2, base, end) + (if base < end then Untabled(pts, base / ENTRIES, TopTable(end)) else 0)
  }

  lemma {:induction false} UnmappedMap(s2: Stage2, lo: nat, hi: nat, page: nat, pa: Addr)
    requires page !in s2
    ensures Unmapped(s2[page := pa], lo, hi) == Unmapped(s2, lo, hi) - (if lo <= page < hi then 1 else 0)
    decreases hi - lo
  {
    if lo < hi {
      UnmappedMap(s2, lo + 1, hi, page, pa);
    }
  }

  lemma {:induction false} UntabledSet(pts: seq<Pt>, lo: nat, hi: nat, i: nat, pa: Addr)
    requires hi <= |pts| && i < |pts| && pts[i].NoPt?
    ensures Untabled(pts[i := Pt(pa)], lo, hi) == Untabled(pts, lo, hi) - (if lo <= i < hi then 1 else 0)
    decreases hi - lo
  {
    if lo < hi {
      UntabledSet(pts, lo + 1, hi, i, pa);
    }
  }

  lemma {:induction false} UnmappedNone(s2: Stage2, lo: nat, hi: nat)
    ensures Unmapped(s2, lo, hi) == 0 <==> forall p: nat :: lo <= p < hi ==> p in s2
    decreases hi - lo
  {
    if lo < hi {
      UnmappedNone(s2, lo + 1, hi);
    }
  }

  lemma {:induction false} UntabledNone(pts: seq<Pt>, lo: nat, hi: nat)
    requires hi <= |pts|
    ensures Untabled(pts, lo, hi) == 0 <==> forall i: nat :: lo <= i < hi ==> pts[i].Pt?
    decreases hi - lo
  {
    if lo < hi {
      UntabledNone(pts, lo + 1, hi);
    }
  }

  lemma TableOfPage(base: nat, end: nat, page: nat)
    requires base <= page < end
    ensures base / ENTRIES <= page / ENTRIES < TopTable(end)
  {
  }

  /** A page still lacks its mapping or its table. */
  predicate Lacks(s2: Stage2, pts: seq<Pt>, page: nat)
    requires page / ENTRIES < |pts|
  {
    page !in s2 || pts[page / ENTRIES].NoPt?
  }

  lemma LackIsMissing(s2: Stage2, pts: seq<Pt>, base: nat, end: nat, page: nat)
    requires base <= page < end && TopTable(end) <= |pts| && page / ENTRIES < |pts| && Lacks(s2, pts, page)
    ensures Missing(s2, pts, base, end) > 0
  {
    TableOfPage(base, end, page);
    UnmappedNone(s2, base, end);
    UntabledNone(pts, base / ENTRIES, TopTable(end));
  }

  lemma NoLackNoneMissing(s2: Stage2, pts: seq<Pt>, base: nat, end: nat)
    requires TopTable(end) <= |pts|
    requires forall p: nat :: base <= p < end ==> p / ENTRIES < |pts| && !Lacks(s2, pts, p)
    ensures Missing(s2, pts, base, end) == 0
  {
    forall p: nat | base <= p < end ensures p in s2 { assert !Lacks(s2, pts, p); }
    UnmappedNone(s2, base, end);
    if base < end {
      forall i: nat | base / ENTRIES <= i < TopTable(end)
        ensures pts[i].Pt?
      {
        var p := if i == base / ENTRIES then base else i * ENTRIES;
        assert base <= p < end && p / ENTRIES == i && !Lacks(s2, pts, p);
      }
      UntabledNone(pts, base / ENTRIES, TopTable(end));
    }
  }

  // ---------------------------------------------------------------- the driver

  class Mmu {
    const dir: array<Word>
    const pts: array<Pt>
    var mem: map<Addr, seq<Word>>
    var pool: seq<Addr>
    var s2: Stage2
    var paging: bool
    var base: nat
    var end: nat
    ghost var w: Tables

    ghost predicate Shown()
      reads this, dir, pts
    {
      && dir.Length == ENTRIES && pts.Length == ENTRIES
      && w.dir == dir[..] && w.pts == pts[..] && w.mem == mem && Inv(w, s2) && PoolOk(pool, mem)
    }

    ghost predicate Valid()
      reads this, dir, pts
    {
      Shown() && (end == 0 ==> w == NoTables())
    }

    constructor (pages: seq<Addr>)
      requires PoolOk(pages, map[])
      ensures Valid() && !paging && end == 0 && s2 == map[] && pool == pages && fresh(dir) && fresh(pts)
    {
      dir := new Word[ENTRIES](_ => ZERO);
      pts := new Pt[ENTRIES](_ => NoPt);
      mem, pool, s2, paging, base, end, w := map[], pages, map[], false, 0, 0, NoTables();
      new;
      NoTablesOk(s2);
      assert dir[..] == w.dir && pts[..] == w.pts;
    }

    /** pmm_alloc_pages of one page: it fails exactly when no page is left. */
    method AllocPage() returns (r: Option<Addr>)
      requires Valid()
      modifies `pool
      ensures Valid() && r.None? == (old(pool) == [])
      ensures r.None? ==> pool == []
      ensures r.Some? ==> old(pool) == pool + [r.value] && Handed(r.value) && r.value !in mem && r.value !in pool
    {
      if pool == [] {
        return None;
      }
      var k := |pool| - 1;
      r := Some(pool[k]);
      assert pool == pool[..k] + [pool[k]];
      pool := pool[..k];
    }

    /** stage2_map_page, for a fault of the guest or on the driver's behalf: one page, if one is left. */
    method MapPage(page: nat)
      requires Valid()
      modifies `s2, `pool
      ensures Valid()
      ensures if page in old(s2) || old(pool) == [] then s2 == old(s2) && pool == old(pool)
              else page in s2 && s2 == old(s2)[page := s2[page]] && old(pool) == pool + [s2[page]]
    {
      if page !in s2 {
        var r := AllocPage();
        if r.Some? {
          GrowKeeps(w, s2, page, r.value);
          s2 := s2[page := r.value];
        }
      }
    }

    /** The loop of enable and disable: every table goes back to the allocator. */
    method DropTables()
      requires Valid()
      modifies dir, pts, `mem, `w, `pool
      ensures Valid() && w == NoTables() && mem == map[]
      ensures old(pool) <= pool && forall pa :: pa in pool <==> pa in old(pool) || pa in old(mem)
    {
      hide Inv, PoolOk, DropTable;
      var i := 0;
      while i < ENTRIES
        invariant i <= ENTRIES && Shown() && (forall j :: 0 <= j < i ==> pts[j].NoPt?) && old(pool) <= pool
        invariant forall pa :: pa in pool || pa in mem <==> pa in old(pool) || pa in old(mem)
      {
        DropOne(i);
        i := i + 1;
      }
      AllDropped(w, s2);
    }

    /** One turn: a table that exists is freed, and its directory entry cleared. */
    method DropOne(i: nat)
      requires Shown() && i < ENTRIES
      modifies dir, pts, `mem, `w, `pool
      ensures Shown() && old(pool) <= pool && pts[..] == old(pts[..])[i := NoPt]
      ensures forall pa :: pa in pool || pa in mem <==> pa in old(pool) || pa in old(mem)
    {
      DropTableKeeps(w, s2, i);
      assert DirOk(w, i);
      hide Inv;
      w := DropTable(w, i);
      if pts[i].Pt? {
        pool := pool + [pts[i].pa];
        mem := mem - {pts[i].pa};
        pts[i] := NoPt;
      }
      dir[i] := ZERO;
    }

    /** npu_mmu_impl_enable; `accepted` says that every bank reads back the directory address. */
    method Enable(ipaBase: nat, ipaPages: nat, accepted: bool) returns (ok: bool)
      requires Valid()
      modifies this, dir, pts
      ensures Valid() && w == NoTables() && mem == map[] && s2 == old(s2)
      ensures forall pa :: pa in pool <==> pa in old(pool) || pa in old(mem)
      ensures base == ipaBase && end == ipaBase + ipaPages
      ensures ok == accepted && paging == (accepted || old(paging))
    {
      DropTables();
      base, end := ipaBase, ipaBase + ipaPages;
      if !accepted {
        return false;
      }
      paging := true;
      return true;
    }

    /** npu_mmu_impl_disable */
    method Disable()
      requires Valid()
      modifies this, dir, pts
      ensures Valid() && w == NoTables() && mem == map[] && s2 == old(s2) && end == 0
      ensures forall pa :: pa in pool <==> pa in old(pool) || pa in old(mem)
      ensures paging == (old(paging) && old(end) == 0)
    {
      if end == 0 {
        return;
      }
      paging := false;
      DropTables();
      base, end := 0, 0;
    }

    /** pt_for with allocation: whether the page has a table now. */
    method TableFor(page: nat) returns (ok: bool)
      requires Valid() && end > 0 && page / ENTRIES < ENTRIES
      modifies dir, pts, `mem, `w, `pool
      ensures Valid() && ok == w.pts[page / ENTRIES].Pt?
      ensures forall p: nat :: Walk(w, p) == old(Walk(w, p))
      ensures if old(w.pts)[page / ENTRIES].Pt? || old(pool) == [] then w == old(w) && pool == old(pool)
              else Walk(w, page).None? &&
                   exists pa :: old(pool) == pool + [pa] && w.pts == old(w.pts)[page / ENTRIES := Pt(pa)]
    {
      var i := page / ENTRIES;
      if pts[i].Pt? {
        return true;
      }
      var r := AllocPage();
      if r.None? {
        return false;
      }
      assert DirOk(w, i);
      AddTableKeeps(w, s2, i, r.value);
      w := AddTable(w, i, r.value);
      pts[i] := Pt(r.value);
      mem := mem[r.value := seq(ENTRIES, _ => ZERO)];
      dir[i] := MkDte(r.value);
      return true;
    }

    /** The entry of a page whose table exists. */
    method SetPte(page: nat) returns (added: bool)
      requires Valid() && end > 0 && page / ENTRIES < ENTRIES && w.pts[page / ENTRIES].Pt? && page in s2
      modifies `mem, `w
      ensures Valid() && Walk(w, page) == Some(s2[page]) && w.pts == old(w.pts)
      ensures forall p: nat :: p != page ==> Walk(w, p) == old(Walk(w, p))
      ensures added == old(Walk(w, page)).None? && (!added ==> w == old(w))
    {
      assert DirOk(w, page / ENTRIES) && EntryOk(w, s2, page);
      WalkIsStage2(w, s2, page);
      hide Inv;
      var at := pts[page / ENTRIES].pa;
      EntryRoundTrip(at);
      EntryRoundTrip(s2[page]);
      added := mem[at][page % ENTRIES] == ZERO;
      if added {
        SetEntryKeeps(w, s2, page);
        w := SetEntry(w, page, s2[page]);
        mem := mem[at := mem[at][page % ENTRIES := MkPte(s2[page])]];
      }
    }

    /** The device reaches a page at its stage-2 translation. */
    ghost predicate Covered(page: nat)
      reads this
    {
      |w.dir| == ENTRIES && page in s2 && Walk(w, page) == Some(s2[page])
    }

    /** How many free pages there are beyond those the range still needs. */
    ghost function Spare(): int
      requires TopTable(end) <= |w.pts|
      reads this
    {
      |pool| - Missing(s2, w.pts, base, end)
    }

    /**
    One turn of the loop of npu_mmu_impl_sync.  The page is reached, unless the allocator has run
    out before the page had its mapping and its table; every page taken fills one that was missing.
    */
    method SyncPage(page: nat) returns (added: bool)
      requires Valid() && 0 < end <= ENTRIES * ENTRIES && base <= page < end
      modifies dir, pts, `mem, `w, `s2, `pool
      ensures Valid() && Grown(old(s2), s2) && Spare() == old(Spare())
      ensures Covered(page) || (pool == [] && Lacks(s2, w.pts, page))
      ensures old(pool) == [] ==> pool == [] && s2 == old(s2) && w.pts == old(w.pts)
      ensures forall p: nat :: p != page ==> Walk(w, p) == old(Walk(w, p))
      ensures added == (old(Walk(w, page)).None? && Walk(w, page).Some?) && (!added ==> w == old(w))
      ensures old(Walk(w, page)).Some? ==> Walk(w, page) == old(Walk(w, page))
    {
      hide Walk;
      WalkIsStage2(w, s2, page);
      TableOfPage(base, end, page);
      if page !in s2 {
        MapPage(page);
        if page !in s2 {
          return false;
        }
        UnmappedMap(old(s2), base, end, page, s2[page]);
      }
      label mapped:
      var ok := TableFor(page);
      if !ok {
        return false;
      }
      if old@mapped(w.pts)[page / ENTRIES].NoPt? {
        ghost var pa :| old@mapped(pool) == pool + [pa] && w.pts == old@mapped(w.pts)[page / ENTRIES := Pt(pa)];
        UntabledSet(old@mapped(w.pts), base / ENTRIES, TopTable(end), page / ENTRIES, pa);
      }
      added := SetPte(page);
    }

    /**
    npu_mmu_impl_sync.  The device reaches the stage-2 translation of every page of the range if and
    only if the allocator had a page for every mapping and every table the range was missing; it takes
    no page for anything else.  Nothing outside the range changes, and what could be reached stays.
    When the count is zero the tables are as they were, so leaving out the cache clean and the TLB
    flush is right.
    */
    method Sync() returns (added: nat)
      requires Valid() && end <= ENTRIES * ENTRIES
      modifies dir, pts, `mem, `w, `s2, `pool
      ensures Valid() && Grown(old(s2), s2) && Spare() == old(Spare())
      ensures (forall p: nat :: base <= p < end ==> Covered(p))
              <==> |old(pool)| >= old(Missing(s2, w.pts, base, end))
      ensures forall p: nat :: base <= p < end ==> Covered(p) || (pool == [] && Lacks(s2, w.pts, p))
      ensures forall p: nat :: !(base <= p < end) ==> Walk(w, p) == old(Walk(w, p))
      ensures forall p: nat :: old(Walk(w, p)).Some? ==> Walk(w, p) == old(Walk(w, p))
      ensures added == 0 ==> w == old(w)
    {
      hide Inv, Walk, Grown, Missing;
      added := 0;
      GrownRefl(s2);
      var page := base;
      while end != 0 && page < end
        invariant base <= page && (page <= end || page == base)
        invariant Valid() && Grown(old(s2), s2) && Spare() == old(Spare())
        invariant forall p: nat :: base <= p < page ==> Settled(p)
        invariant forall p: nat :: !(base <= p < page) ==> Walk(w, p) == old(Walk(w, p))
        invariant forall p: nat :: old(Walk(w, p)).Some? ==> Walk(w, p) == old(Walk(w, p))
        invariant added == 0 ==> w == old(w)
      {
        label turn:
        var one := SyncPage(page);
        GrownTrans(old(s2), old@turn(s2), s2);
        forall p: nat | base <= p < page
          ensures Settled(p)
        {
          assert old@turn(Settled(p));
          GrownAt(old@turn(s2), s2, p);
        }
        if one {
          added := added + 1;
        }
        page := page + 1;
      }
      EnoughIffCovered();
      forall p: nat | base <= p < end
        ensures Covered(p) || (pool == [] && Lacks(s2, w.pts, p))
      {
        assert Settled(p);
      }
    }

    ghost predicate Settled(page: nat)
      reads this
    {
      page / ENTRIES < |w.pts| && (Covered(page) || (pool == [] && Lacks(s2, w.pts, page)))
    }

    lemma EnoughIffCovered()
      requires Valid() && end <= ENTRIES * ENTRIES && forall p: nat :: base <= p < end ==> Settled(p)
      ensures (forall p: nat :: base <= p < end ==> Covered(p)) <==> Spare() >= 0
    {
      if p: nat :| base <= p < end && !Covered(p) {
        assert Settled(p);
        LackIsMissing(s2, w.pts, base, end, p);
      } else {
        forall p: nat | base <= p < end
          ensures p / ENTRIES < |w.pts| && !Lacks(s2, w.pts, p)
        {
          assert Settled(p) && Covered(p);
          assert DirOk(w, p / ENTRIES);
        }
        NoLackNoneMissing(s2, w.pts, base, end);
      }
    }
  }

  predicate Grown(a: Stage2, b: Stage2) {
    forall p :: p in a ==> p in b && b[p] == a[p]
  }

  lemma GrownRefl(a: Stage2)
    ensures Grown(a, a)
  {
  }

  lemma GrownAt(a: Stage2, b: Stage2, p: nat)
    requires Grown(a, b)
    ensures p in a ==> p in b && b[p] == a[p]
  {
  }

  lemma GrownTrans(a: Stage2, b: Stage2, c: Stage2)
    requires Grown(a, b) && Grown(b, c)
    ensures Grown(a, c)
  {
  }
}
