/**
The three tables that hold references to dma-buf slots: the slots themselves
(driver/dma/dma_buf.c), the GEM objects of every open file (driver/npu/rknpu_drm.c) and
the file descriptors.  `State` is all of them; every function is one piece of the code
that changes a reference count together with its holder.

The page allocator is a parameter: it hands out a run that overlaps no run still out.
*/
module DmaRefs {

  const SLOTS: nat := 128
  const FILES: nat := 16
  const GEMS: nat := 64
  const PAGE: nat := 4096

  datatype Slot = Slot(used: bool, refs: nat, pa: nat, bytes: nat, size: nat)

  datatype Gem = Gem(used: bool, id: nat, buf: nat, size: nat)

  datatype File = File(used: bool, key: nat, gems: seq<Gem>)

  datatype Fd = Closed | Open(buf: nat)

  /** A run of pages as the allocator handed it out, and what became of it. */
  datatype Run = Run(pa: nat, bytes: nat, size: nat)
  datatype Fate = InSlot(i: nat) | Freed

  /** Where a GEM object is. */
  datatype Place = At(f: nat, k: nat) | Gone

  /**
  `hands` lists the references in the hands of running code: a buffer just created has one
  until its creator drops it.  The rest is the history the properties speak about: `ticket[i]`
  is the number of the run in slot i; `runs` and `fate` have one entry per run ever allocated;
  `place`, `via` and `names` have one entry per GEM id ever given out: where the object is, the open file it was created
  through and the run it names.
  */
  datatype State = State(
    slots: seq<Slot>, files: seq<File>, fds: seq<Fd>, nextId: nat, hands: seq<nat>,
    ticket: seq<nat>, runs: seq<Run>, fate: seq<Fate>, place: seq<Place>, via: seq<nat>, names: seq<nat>)

  function NoSlot(): Slot { Slot(false, 0, 0, 0, 0) }
  function NoGem(): Gem { Gem(false, 0, 0, 0) }
  function NoFile(): File { File(false, 0, seq(GEMS, _ => NoGem())) }

  function Init(fds: nat): State {
    State(seq(SLOTS, _ => NoSlot()), seq(FILES, _ => NoFile()), seq(fds, _ => Closed), 1, [],
          seq(SLOTS, _ => 0), [], [], [Gone], [0], [0])
  }

  // ---------------------------------------------------------------- sizes

  function RoundUp(size: nat): nat { (size + PAGE - 1) / PAGE * PAGE }

  const U64: nat := 0x1_0000_0000_0000_0000

  /** The bytes of as many pages as a 32-bit count can name. */
  const MOST: nat := 0xFFFF_FFFF * PAGE

  /** The page count dma_heap_alloc asks the allocator for: 64-bit arithmetic, cut to 32 bits. */
  function PagesAsked(size: nat): nat {
    (size + PAGE - 1) % U64 / PAGE % 0x1_0000_0000
  }

  /** The pages asked for hold the buffer exactly up to 2^32 - 1 pages, and are then the rounded size. */
  lemma EnoughPagesAsked(size: nat)
    requires size < U64
    ensures PagesAsked(size) * PAGE >= size <==> size <= MOST
    ensures size <= MOST ==> PagesAsked(size) * PAGE == RoundUp(size)
  {
    if size <= MOST {
      assert (size + PAGE - 1) / PAGE < 0x1_0000_0000;
    } else {
      assert PagesAsked(size) <= 0xFFFF_FFFF;
    }
  }

  /** Whenever it asks for a page at all, the length it records is the rounded size. */
  lemma RoundedIsRecorded(size: nat)
    requires size < U64 && PagesAsked(size) > 0
    ensures (size + PAGE - 1) % U64 / PAGE * PAGE == RoundUp(size)
  {
  }

  /** A slot of at most that size is recorded as what the allocator gave. */
  lemma RecordedIsAsked(b: Slot)
    requires b.bytes == RoundUp(b.size) && b.size <= MOST
    ensures Asked(b) == b
  {
    EnoughPagesAsked(b.size);
  }

  // ---------------------------------------------------------------- counting holders

  function GemWeight(g: Gem, i: nat): nat {
    if g.used && g.buf == i then 1 else 0
  }

  function GemCount(gems: seq<Gem>, i: nat): nat {
    if gems == [] then 0 else GemWeight(gems[0], i) + GemCount(gems[1..], i)
  }

  function FileCount(files: seq<File>, i: nat): nat {
    if files == [] then 0 else GemCount(files[0].gems, i) + FileCount(files[1..], i)
  }

  function FdWeight(d: Fd, i: nat): nat {
    if d == Open(i) then 1 else 0
  }

  function FdCount(fds: seq<Fd>, i: nat): nat {
    if fds == [] then 0 else FdWeight(fds[0], i) + FdCount(fds[1..], i)
  }

  function HandCount(c: seq<nat>, i: nat): nat {
    if c == [] then 0 else (if c[0] == i then 1 else 0) + HandCount(c[1..], i)
  }

  /** GEM objects, open descriptors and hands that refer to slot i. */
  function Holders(s: State, i: nat): nat {
    FileCount(s.files, i) + FdCount(s.fds, i) + HandCount(s.hands, i)
  }

  lemma {:induction false} GemCountUpdate(gems: seq<Gem>, k: nat, g: Gem, i: nat)
    requires k < |gems|
    ensures GemCount(gems[k := g], i) == GemCount(gems, i) - GemWeight(gems[k], i) + GemWeight(g, i)
    decreases |gems|
  {
    if k == 0 {
      assert gems[k := g][1..] == gems[1..];
    } else {
      assert gems[k := g][1..] == gems[1..][k - 1 := g];
      GemCountUpdate(gems[1..], k - 1, g, i);
    }
  }

  lemma {:induction false} FileCountUpdate(files: seq<File>, f: nat, x: File, i: nat)
    requires f < |files|
    ensures FileCount(files[f := x], i) == FileCount(files, i) - GemCount(files[f].gems, i) + GemCount(x.gems, i)
    decreases |files|
  {
    if f == 0 {
      assert files[f := x][1..] == files[1..];
    } else {
      assert files[f := x][1..] == files[1..][f - 1 := x];
      FileCountUpdate(files[1..], f - 1, x, i);
    }
  }

  lemma {:induction false} FdCountUpdate(fds: seq<Fd>, k: nat, d: Fd, i: nat)
    requires k < |fds|
    ensures FdCount(fds[k := d], i) == FdCount(fds, i) - FdWeight(fds[k], i) + FdWeight(d, i)
    decreases |fds|
  {
    if k == 0 {
      assert fds[k := d][1..] == fds[1..];
    } else {
      assert fds[k := d][1..] == fds[1..][k - 1 := d];
      FdCountUpdate(fds[1..], k - 1, d, i);
    }
  }

  lemma {:induction false} HandCountPush(c: seq<nat>, x: nat, i: nat)
    ensures HandCount(c + [x], i) == HandCount(c, i) + (if x == i then 1 else 0)
    decreases |c|
  {
    if c == [] {
      assert c + [x] == [x];
    } else {
      assert (c + [x])[1..] == c[1..] + [x];
      HandCountPush(c[1..], x, i);
    }
  }

  lemma {:induction false} GemCounted(gems: seq<Gem>, k: nat)
    requires k < |gems| && gems[k].used
    ensures GemCount(gems, gems[k].buf) >= 1
    decreases |gems|
  {
    if k > 0 {
      GemCounted(gems[1..], k - 1);
    }
  }

  lemma {:induction false} FileCounted(files: seq<File>, f: nat, k: nat)
    requires f < |files| && k < |files[f].gems| && files[f].gems[k].used
    ensures FileCount(files, files[f].gems[k].buf) >= 1
    decreases |files|
  {
    if f > 0 {
      FileCounted(files[1..], f - 1, k);
    } else {
      GemCounted(files[0].gems, k);
    }
  }

  lemma {:induction false} FdCounted(fds: seq<Fd>, k: nat)
    requires k < |fds| && fds[k].Open?
    ensures FdCount(fds, fds[k].buf) >= 1
    decreases |fds|
  {
    if k > 0 {
      FdCounted(fds[1..], k - 1);
    }
  }

  lemma {:induction false} HandCounted(c: seq<nat>, k: nat)
    requires k < |c|
    ensures HandCount(c, c[k]) >= 1
    decreases |c|
  {
    if k > 0 {
      HandCounted(c[1..], k - 1);
    }
  }

  // ---------------------------------------------------------------- invariant

  predicate Sized(s: State) {
    && |s.slots| == SLOTS && |s.files| == FILES && |s.ticket| == SLOTS
    && |s.place| == s.nextId && |s.via| == s.nextId && |s.names| == s.nextId && s.nextId >= 1
    && |s.runs| == |s.fate|
    && (forall f :: 0 <= f < FILES ==> |s.files[f].gems| == GEMS)
  }

  /** A used slot holds the run its ticket names. */
  ghost predicate RunOk(s: State, i: nat)
    requires Sized(s) && i < SLOTS
  {
    var b := s.slots[i];
    s.ticket[i] < |s.fate| && s.fate[s.ticket[i]] == InSlot(i) && s.runs[s.ticket[i]] == Run(b.pa, b.bytes, b.size)
  }

  /** The count in a slot is the number of its holders; an unused slot has none. */
  ghost predicate SlotOk(s: State, i: nat)
    requires Sized(s) && i < SLOTS
  {
    var b := s.slots[i];
    if b.used then
      && b.refs == Holders(s, i) >= 1
      && 0 < b.size && b.bytes == RoundUp(b.size)
      && RunOk(s, i)
    else Holders(s, i) == 0
  }

  ghost predicate FateOk(s: State, t: nat)
    requires Sized(s) && t < |s.fate|
  {
    s.fate[t].InSlot? ==>
      var i := s.fate[t].i;
      i < SLOTS && s.slots[i].used && s.ticket[i] == t
  }

  predicate Overlap(a: Slot, b: Slot) {
    a.pa < b.pa + b.bytes && b.pa < a.pa + a.bytes
  }

  /** The run the allocator really gave for a slot. */
  function Asked(b: Slot): Slot {
    b.(bytes := PagesAsked(b.size) * PAGE)
  }

  ghost predicate Apart(s: State, i: nat, j: nat)
    requires Sized(s) && i < SLOTS && j < SLOTS
  {
    i != j && s.slots[i].used && s.slots[j].used ==> !Overlap(Asked(s.slots[i]), Asked(s.slots[j]))
  }

  /** A GEM object is the one its id names, and its file is the one it was created through. */
  ghost predicate GemOk(s: State, f: nat, k: nat)
    requires Sized(s) && f < FILES && k < GEMS
  {
    var g := s.files[f].gems[k];
    g.used ==>
      && s.files[f].used
      && 0 < g.id < s.nextId && s.place[g.id] == At(f, k) && s.via[g.id] == s.files[f].key
      && g.buf < SLOTS && s.slots[g.buf].used && g.size == s.slots[g.buf].size
      && s.names[g.id] == s.ticket[g.buf]
  }

  ghost predicate FdOk(s: State, d: nat)
    requires Sized(s) && d < |s.fds|
  {
    s.fds[d].Open? ==> s.fds[d].buf < SLOTS && s.slots[s.fds[d].buf].used
  }

  ghost predicate HandOk(s: State, c: nat)
    requires Sized(s) && c < |s.hands|
  {
    s.hands[c] < SLOTS && s.slots[s.hands[c]].used
  }

  ghost predicate FilesApart(s: State, f: nat, g: nat)
    requires Sized(s) && f < FILES && g < FILES
  {
    f != g && s.files[f].used && s.files[g].used ==> s.files[f].key != s.files[g].key
  }

  ghost predicate PlaceOk(s: State, id: nat)
    requires Sized(s) && id < s.nextId
  {
    s.place[id].At? ==>
      var f, k := s.place[id].f, s.place[id].k;
      f < FILES && k < GEMS && s.files[f].gems[k].used && s.files[f].gems[k].id == id
  }

  /** Everything but the counts. */
  ghost predicate Rest(s: State) {
    && Sized(s)
    && (forall t: nat :: t < |s.fate| ==> FateOk(s, t))
    && (forall i: nat, j: nat :: i < SLOTS && j < SLOTS ==> Apart(s, i, j))
    && (forall f: nat, k: nat :: f < FILES && k < GEMS ==> GemOk(s, f, k))
    && (forall f: nat, g: nat :: f < FILES && g < FILES ==> FilesApart(s, f, g))
    && (forall d: nat :: d < |s.fds| ==> FdOk(s, d))
    && (forall id: nat :: id < s.nextId ==> PlaceOk(s, id))
    && (forall c: nat :: c < |s.hands| ==> HandOk(s, c))
  }

  ghost predicate Inv(s: State) {
    && Rest(s)
    && (forall i: nat :: i < SLOTS ==> SlotOk(s, i))
  }

  // ---------------------------------------------------------------- get and put

  /** dma_buf_impl_get_index */
  function Get(s: State, i: nat): (r: State)
    requires Sized(s)
    ensures Sized(r)
  {
    if i < SLOTS && s.slots[i].used then s.(slots := s.slots[i := s.slots[i].(refs := s.slots[i].refs + 1)]) else s
  }

  /** dma_buf_impl_put_index: the last reference clears the slot and frees its run. */
  function Put(s: State, i: nat): (r: State)
    requires Sized(s)
    ensures Sized(r)
  {
    if i >= SLOTS || !s.slots[i].used then s else
    var b := s.slots[i];
    if b.refs > 1 then s.(slots := s.slots[i := b.(refs := b.refs - 1)])
    else s.(slots := s.slots[i := NoSlot()],
            fate := if s.ticket[i] < |s.fate| then s.fate[s.ticket[i] := Freed] else s.fate)
  }

  /** One holder of slot i is gone from the tables but not yet from the count. */
  ghost predicate OneTooMany(s: State, i: nat) {
    && Sized(s) && i < SLOTS && s.slots[i].used && s.slots[i].refs == Holders(s, i) + 1
    && 0 < s.slots[i].size && s.slots[i].bytes == RoundUp(s.slots[i].size)
    && RunOk(s, i)
    && (forall j: nat :: j < SLOTS && j != i ==> SlotOk(s, j))
  }

  /** One new holder of slot i is in the tables but not yet in the count. */
  ghost predicate OneTooFew(s: State, i: nat) {
    && Sized(s) && i < SLOTS && s.slots[i].used && s.slots[i].refs + 1 == Holders(s, i)
    && 0 < s.slots[i].size && s.slots[i].bytes == RoundUp(s.slots[i].size)
    && RunOk(s, i)
    && (forall j: nat :: j < SLOTS && j != i ==> SlotOk(s, j))
  }

  lemma GetKeeps(s: State, i: nat)
    requires Rest(s) && OneTooFew(s, i)
    ensures Inv(Get(s, i))
  {
    var s' := Get(s, i);
    forall j: nat | j < SLOTS
      ensures SlotOk(s', j)
    {
      if j != i {
        assert SlotOk(s, j);
      }
    }
    SameRest(s, s', i);
  }

  /** Changing only the count of a used slot. */
  lemma SameRest(s: State, s': State, i: nat)
    requires Rest(s) && i < SLOTS && s.slots[i].used && Sized(s')
    requires s' == s.(slots := s.slots[i := s.slots[i].(refs := s'.slots[i].refs)])
    ensures Rest(s')
  {
    forall t: nat | t < |s'.fate| ensures FateOk(s', t) { assert FateOk(s, t); }
    forall j: nat, k: nat | j < SLOTS && k < SLOTS ensures Apart(s', j, k) { assert Apart(s, j, k); }
    forall f: nat, k: nat | f < FILES && k < GEMS ensures GemOk(s', f, k) { assert GemOk(s, f, k); }
    forall f: nat, g: nat | f < FILES && g < FILES ensures FilesApart(s', f, g) { assert FilesApart(s, f, g); }
    forall d: nat | d < |s'.fds| ensures FdOk(s', d) { assert FdOk(s, d); }
    forall id: nat | id < s'.nextId ensures PlaceOk(s', id) { assert PlaceOk(s, id); }
    forall c: nat | c < |s'.hands| ensures HandOk(s', c) { assert HandOk(s, c); }
  }

  /** With no holder left nothing in the tables points at the slot. */
  lemma NobodyHolds(s: State, i: nat)
    requires Sized(s) && Holders(s, i) == 0
    ensures forall f: nat, k: nat :: f < FILES && k < GEMS && s.files[f].gems[k].used ==> s.files[f].gems[k].buf != i
    ensures forall d: nat :: d < |s.fds| && s.fds[d].Open? ==> s.fds[d].buf != i
    ensures forall c: nat :: c < |s.hands| ==> s.hands[c] != i
  {
    forall c: nat | c < |s.hands|
      ensures s.hands[c] != i
    {
      HandCounted(s.hands, c);
    }
    forall f: nat, k: nat | f < FILES && k < GEMS && s.files[f].gems[k].used
      ensures s.files[f].gems[k].buf != i
    {
      FileCounted(s.files, f, k);
    }
    forall d: nat | d < |s.fds| && s.fds[d].Open?
      ensures s.fds[d].buf != i
    {
      FdCounted(s.fds, d);
    }
  }

  /** The run is freed exactly when the last holder has gone. */
  lemma PutKeeps(s: State, i: nat)
    requires Rest(s) && OneTooMany(s, i)
    ensures Inv(Put(s, i))
    ensures Put(s, i).fate == (if Holders(s, i) == 0 then s.fate[s.ticket[i] := Freed] else s.fate)
  {
    var s' := Put(s, i);
    forall j: nat | j < SLOTS
      ensures SlotOk(s', j)
    {
      if j != i {
        assert SlotOk(s, j);
      }
    }
    if s.slots[i].refs > 1 {
      SameRest(s, s', i);
    } else {
      NobodyHolds(s, i);
      forall t: nat | t < |s'.fate| ensures FateOk(s', t) { assert FateOk(s, t); }
      forall j: nat, k: nat | j < SLOTS && k < SLOTS ensures Apart(s', j, k) { assert Apart(s, j, k); }
      forall f: nat, k: nat | f < FILES && k < GEMS ensures GemOk(s', f, k) { assert GemOk(s, f, k); }
      forall f: nat, g: nat | f < FILES && g < FILES ensures FilesApart(s', f, g) { assert FilesApart(s, f, g); }
      forall d: nat | d < |s'.fds| ensures FdOk(s', d) { assert FdOk(s, d); }
      forall id: nat | id < s'.nextId ensures PlaceOk(s', id) { assert PlaceOk(s, id); }
      forall c: nat | c < |s'.hands| ensures HandOk(s', c) { assert HandOk(s, c); }
    }
  }

  // ---------------------------------------------------------------- GEM objects

  function GemSet(s: State, f: nat, k: nat, g: Gem): State
    requires Sized(s) && f < FILES && k < GEMS
  {
    s.(files := s.files[f := s.files[f].(gems := s.files[f].gems[k := g])])
  }

  /** Giving one GEM object a new value moves the counts by the two weights only. */
  lemma GemSetCounts(s: State, f: nat, k: nat, g: Gem, j: nat)
    requires Sized(s) && f < FILES && k < GEMS
    ensures Holders(GemSet(s, f, k, g), j) ==
            Holders(s, j) - GemWeight(s.files[f].gems[k], j) + GemWeight(g, j)
  {
    GemCountUpdate(s.files[f].gems, k, g, j);
    FileCountUpdate(s.files, f, s.files[f].(gems := s.files[f].gems[k := g]), j);
  }

  /** gem_create: entry k of file f becomes a new object for slot i, which takes a reference. */
  function AddGem(s: State, f: nat, k: nat, i: nat): State
    requires Sized(s) && f < FILES && k < GEMS && i < SLOTS
  {
    Get(PlaceGem(s, f, k, i), i)
  }

  function PlaceGem(s: State, f: nat, k: nat, i: nat): State
    requires Sized(s) && f < FILES && k < GEMS && i < SLOTS
  {
    GemSet(s, f, k, Gem(true, s.nextId, i, s.slots[i].size))
      .(nextId := s.nextId + 1, place := s.place + [At(f, k)], via := s.via + [s.files[f].key],
        names := s.names + [s.ticket[i]])
  }

  lemma AddGemKeeps(s: State, f: nat, k: nat, i: nat)
    requires Inv(s) && f < FILES && k < GEMS && i < SLOTS
    requires s.files[f].used && !s.files[f].gems[k].used && s.slots[i].used
    ensures Inv(AddGem(s, f, k, i)) && Later(s, AddGem(s, f, k, i))
  {
    var s' := PlaceGem(s, f, k, i);
    var g := Gem(true, s.nextId, i, s.slots[i].size);
    forall j: nat | j < SLOTS
      ensures Holders(s', j) == Holders(s, j) + (if j == i then 1 else 0)
      ensures j != i ==> SlotOk(s', j)
    {
      assert SlotOk(s, j);
      GemSetCounts(s, f, k, g, j);
    }
    PlaceGemRest(s, f, k, i);
    assert SlotOk(s, i);
    GetKeeps(s', i);
  }

  lemma PlaceGemRest(s: State, f: nat, k: nat, i: nat)
    requires Inv(s) && f < FILES && k < GEMS && i < SLOTS
    requires s.files[f].used && !s.files[f].gems[k].used && s.slots[i].used
    ensures Rest(PlaceGem(s, f, k, i))
  {
    var s' := PlaceGem(s, f, k, i);
    forall t: nat | t < |s'.fate| ensures FateOk(s', t) { assert FateOk(s, t); }
    forall j: nat, l: nat | j < SLOTS && l < SLOTS ensures Apart(s', j, l) { assert Apart(s, j, l); }
    forall f1: nat, k1: nat | f1 < FILES && k1 < GEMS ensures GemOk(s', f1, k1) { assert GemOk(s, f1, k1); }
    forall f1: nat, g: nat | f1 < FILES && g < FILES ensures FilesApart(s', f1, g) { assert FilesApart(s, f1, g); }
    forall d: nat | d < |s'.fds| ensures FdOk(s', d) { assert FdOk(s, d); }
    forall c: nat | c < |s'.hands| ensures HandOk(s', c) { assert HandOk(s, c); }
    forall id: nat | id < s'.nextId
      ensures PlaceOk(s', id)
    {
      if id < s.nextId {
        assert PlaceOk(s, id);
      }
    }
  }

  /** Freeing entry k of file f, as MEM_DESTROY and the close of the file do. */
  function DropGem(s: State, f: nat, k: nat): State
    requires Sized(s) && f < FILES && k < GEMS
  {
    Put(UnplaceGem(s, f, k), s.files[f].gems[k].buf)
  }

  function UnplaceGem(s: State, f: nat, k: nat): State
    requires Sized(s) && f < FILES && k < GEMS
  {
    var g := s.files[f].gems[k];
    GemSet(s, f, k, g.(used := false)).(place := if g.id < |s.place| then s.place[g.id := Gone] else s.place)
  }

  lemma DropGemKeeps(s: State, f: nat, k: nat)
    requires Inv(s) && f < FILES && k < GEMS && s.files[f].gems[k].used
    ensures Inv(DropGem(s, f, k)) && Later(s, DropGem(s, f, k))
  {
    var g := s.files[f].gems[k];
    assert GemOk(s, f, k);
    var s' := UnplaceGem(s, f, k);
    forall j: nat | j < SLOTS
      ensures Holders(s', j) == Holders(s, j) - (if j == g.buf then 1 else 0)
      ensures j != g.buf ==> SlotOk(s', j)
    {
      assert SlotOk(s, j);
      GemSetCounts(s, f, k, g.(used := false), j);
    }
    UnplaceGemRest(s, f, k);
    assert SlotOk(s, g.buf);
    PutKeeps(s', g.buf);
  }

  lemma UnplaceGemRest(s: State, f: nat, k: nat)
    requires Inv(s) && f < FILES && k < GEMS && s.files[f].gems[k].used
    ensures Rest(UnplaceGem(s, f, k))
  {
    var s' := UnplaceGem(s, f, k);
    assert GemOk(s, f, k);
    forall t: nat | t < |s'.fate| ensures FateOk(s', t) { assert FateOk(s, t); }
    forall j: nat, l: nat | j < SLOTS && l < SLOTS ensures Apart(s', j, l) { assert Apart(s, j, l); }
    forall f1: nat, k1: nat | f1 < FILES && k1 < GEMS ensures GemOk(s', f1, k1) { assert GemOk(s, f1, k1); }
    forall f1: nat, g: nat | f1 < FILES && g < FILES ensures FilesApart(s', f1, g) { assert FilesApart(s, f1, g); }
    forall d: nat | d < |s'.fds| ensures FdOk(s', d) { assert FdOk(s, d); }
    forall c: nat | c < |s'.hands| ensures HandOk(s', c) { assert HandOk(s, c); }
    forall id: nat | id < s'.nextId ensures PlaceOk(s', id) { assert PlaceOk(s, id); }
  }

  // ---------------------------------------------------------------- descriptors

  /** dma_buf_impl_alloc_fd_current and the dup callback: one more descriptor, one more reference. */
  function AddFd(s: State, d: nat, i: nat): State
    requires Sized(s) && d < |s.fds| && i < SLOTS
  {
    Get(s.(fds := s.fds[d := Open(i)]), i)
  }

  lemma AddFdKeeps(s: State, d: nat, i: nat)
    requires Inv(s) && d < |s.fds| && i < SLOTS && s.fds[d].Closed? && s.slots[i].used
    ensures Inv(AddFd(s, d, i)) && Later(s, AddFd(s, d, i))
  {
    var s' := s.(fds := s.fds[d := Open(i)]);
    forall j: nat | j < SLOTS
      ensures Holders(s', j) == Holders(s, j) + (if j == i then 1 else 0)
      ensures j != i ==> SlotOk(s', j)
    {
      assert SlotOk(s, j);
      FdCountUpdate(s.fds, d, Open(i), j);
    }
    forall e: nat | e < |s'.fds| ensures FdOk(s', e) { assert FdOk(s, e); }
    forall c: nat | c < |s'.hands| ensures HandOk(s', c) { assert HandOk(s, c); }
    HoldersRest(s, s');
    assert SlotOk(s, i);
    GetKeeps(s', i);
  }

  /** fd_obj_close on a dma-buf descriptor. */
  function DropFd(s: State, d: nat): State
    requires Sized(s) && d < |s.fds| && s.fds[d].Open?
  {
    Put(s.(fds := s.fds[d := Closed]), s.fds[d].buf)
  }

  lemma DropFdKeeps(s: State, d: nat)
    requires Inv(s) && d < |s.fds| && s.fds[d].Open?
    ensures Inv(DropFd(s, d)) && Later(s, DropFd(s, d))
  {
    assert FdOk(s, d);
    var i := s.fds[d].buf;
    var s' := s.(fds := s.fds[d := Closed]);
    forall j: nat | j < SLOTS
      ensures Holders(s', j) == Holders(s, j) - (if j == i then 1 else 0)
      ensures j != i ==> SlotOk(s', j)
    {
      assert SlotOk(s, j);
      FdCountUpdate(s.fds, d, Closed, j);
    }
    forall e: nat | e < |s'.fds| ensures FdOk(s', e) { assert FdOk(s, e); }
    forall c: nat | c < |s'.hands| ensures HandOk(s', c) { assert HandOk(s, c); }
    HoldersRest(s, s');
    assert SlotOk(s, i);
    PutKeeps(s', i);
  }

  /** Changing descriptors and hands alone. */
  lemma HoldersRest(s: State, s': State)
    requires Rest(s) && s' == s.(fds := s'.fds, hands := s'.hands)
    requires forall d: nat :: d < |s'.fds| ==> FdOk(s', d)
    requires forall c: nat :: c < |s'.hands| ==> HandOk(s', c)
    ensures Rest(s')
  {
    forall t: nat | t < |s'.fate| ensures FateOk(s', t) { assert FateOk(s, t); }
    forall j: nat, l: nat | j < SLOTS && l < SLOTS ensures Apart(s', j, l) { assert Apart(s, j, l); }
    forall f: nat, k: nat | f < FILES && k < GEMS ensures GemOk(s', f, k) { assert GemOk(s, f, k); }
    forall f: nat, g: nat | f < FILES && g < FILES ensures FilesApart(s', f, g) { assert FilesApart(s, f, g); }
    forall id: nat | id < s'.nextId ensures PlaceOk(s', id) { assert PlaceOk(s, id); }
  }

  // ---------------------------------------------------------------- buffers

  /**
  What the page allocator promises of the run it hands out for a size: it has pages, and none of them
  is in a run it has handed out before.
  */
  ghost predicate FreshRun(s: State, pa: nat, size: nat)
    requires Sized(s)
  {
    && size < U64 && PagesAsked(size) > 0
    && forall i: nat :: i < SLOTS && s.slots[i].used ==>
         !Overlap(Asked(s.slots[i]), Asked(Slot(true, 1, pa, RoundUp(size), size)))
  }

  /** dma_buf_impl_alloc into free slot i; the creator holds the first reference. */
  function NewBuf(s: State, i: nat, pa: nat, size: nat): State
    requires Sized(s) && i < SLOTS
  {
    s.(slots := s.slots[i := Slot(true, 1, pa, RoundUp(size), size)],
       hands := s.hands + [i], ticket := s.ticket[i := |s.fate|],
       runs := s.runs + [Run(pa, RoundUp(size), size)], fate := s.fate + [InSlot(i)])
  }

  lemma NewBufKeeps(s: State, i: nat, pa: nat, size: nat)
    requires Inv(s) && i < SLOTS && !s.slots[i].used && size > 0
    requires FreshRun(s, pa, size)
    ensures Inv(NewBuf(s, i, pa, size)) && Later(s, NewBuf(s, i, pa, size))
  {
    var s' := NewBuf(s, i, pa, size);
    assert SlotOk(s, i);
    NobodyHolds(s, i);
    forall j: nat | j < SLOTS
      ensures SlotOk(s', j)
    {
      assert SlotOk(s, j);
      HandCountPush(s.hands, i, j);
    }
    forall t: nat | t < |s'.fate|
      ensures FateOk(s', t)
    {
      if t < |s.fate| {
        assert FateOk(s, t);
      }
    }
    forall j: nat, l: nat | j < SLOTS && l < SLOTS
      ensures Apart(s', j, l)
    {
      assert Apart(s, j, l);
    }
    forall f: nat, k: nat | f < FILES && k < GEMS ensures GemOk(s', f, k) { assert GemOk(s, f, k); }
    forall f: nat, g: nat | f < FILES && g < FILES ensures FilesApart(s', f, g) { assert FilesApart(s, f, g); }
    forall e: nat | e < |s'.fds| ensures FdOk(s', e) { assert FdOk(s, e); }
    forall id: nat | id < s'.nextId ensures PlaceOk(s', id) { assert PlaceOk(s, id); }
    forall c: nat | c < |s'.hands|
      ensures HandOk(s', c)
    {
      if c < |s.hands| {
        assert HandOk(s, c);
      }
    }
  }

  /** The table is full: the run goes straight back to the allocator. */
  function GiveBack(s: State, pa: nat, size: nat): State {
    s.(runs := s.runs + [Run(pa, RoundUp(size), size)], fate := s.fate + [Freed])
  }

  lemma GiveBackKeeps(s: State, pa: nat, size: nat)
    requires Inv(s)
    ensures Inv(GiveBack(s, pa, size)) && Later(s, GiveBack(s, pa, size))
  {
    var s' := GiveBack(s, pa, size);
    forall j: nat | j < SLOTS ensures SlotOk(s', j) { assert SlotOk(s, j); }
    forall t: nat | t < |s'.fate|
      ensures FateOk(s', t)
    {
      if t < |s.fate| {
        assert FateOk(s, t);
      }
    }
    forall j: nat, l: nat | j < SLOTS && l < SLOTS ensures Apart(s', j, l) { assert Apart(s, j, l); }
    forall f: nat, k: nat | f < FILES && k < GEMS ensures GemOk(s', f, k) { assert GemOk(s, f, k); }
    forall f: nat, g: nat | f < FILES && g < FILES ensures FilesApart(s', f, g) { assert FilesApart(s, f, g); }
    forall e: nat | e < |s'.fds| ensures FdOk(s', e) { assert FdOk(s, e); }
    forall id: nat | id < s'.nextId ensures PlaceOk(s', id) { assert PlaceOk(s, id); }
    forall c: nat | c < |s'.hands| ensures HandOk(s', c) { assert HandOk(s, c); }
  }

  /** dma_buf_put of the reference taken last. */
  function DropHand(s: State): State
    requires Sized(s) && |s.hands| > 0
  {
    var n := |s.hands| - 1;
    Put(s.(hands := s.hands[..n]), s.hands[n])
  }

  lemma DropHandKeeps(s: State)
    requires Inv(s) && |s.hands| > 0
    ensures Inv(DropHand(s)) && Later(s, DropHand(s))
  {
    var n: nat := |s.hands| - 1;
    assert HandOk(s, n);
    var i := s.hands[n];
    var s' := s.(hands := s.hands[..n]);
    forall j: nat | j < SLOTS
      ensures Holders(s', j) == Holders(s, j) - (if j == i then 1 else 0)
      ensures j != i ==> SlotOk(s', j)
    {
      assert SlotOk(s, j);
      assert s.hands == s.hands[..n] + [i];
      HandCountPush(s.hands[..n], i, j);
    }
    forall e: nat | e < |s'.fds| ensures FdOk(s', e) { assert FdOk(s, e); }
    forall c: nat | c < |s'.hands| ensures HandOk(s', c) { assert HandOk(s, c); }
    HoldersRest(s, s');
    assert SlotOk(s, i);
    PutKeeps(s', i);
  }

  // ---------------------------------------------------------------- open files

  function SetFile(s: State, f: nat, x: File): State
    requires Sized(s) && f < FILES
  {
    s.(files := s.files[f := x])
  }

  predicate NoGems(x: File) {
    |x.gems| == GEMS && forall k :: 0 <= k < GEMS ==> !x.gems[k].used
  }

  lemma {:induction false} NoneCounted(gems: seq<Gem>, i: nat)
    requires forall k :: 0 <= k < |gems| ==> !gems[k].used
    ensures GemCount(gems, i) == 0
    decreases |gems|
  {
    if gems != [] {
      NoneCounted(gems[1..], i);
    }
  }

  /** An entry without GEM objects may be replaced by another one without. */
  lemma SetFileKeeps(s: State, f: nat, x: File)
    requires Inv(s) && f < FILES && NoGems(s.files[f]) && NoGems(x)
    requires x.used ==> forall g: nat :: g < FILES && g != f && s.files[g].used ==> s.files[g].key != x.key
    ensures Inv(SetFile(s, f, x)) && Later(s, SetFile(s, f, x))
  {
    var s' := SetFile(s, f, x);
    forall j: nat | j < SLOTS
      ensures SlotOk(s', j)
    {
      assert SlotOk(s, j);
      NoneCounted(s.files[f].gems, j);
      NoneCounted(x.gems, j);
      FileCountUpdate(s.files, f, x, j);
    }
    forall t: nat | t < |s'.fate| ensures FateOk(s', t) { assert FateOk(s, t); }
    forall j: nat, l: nat | j < SLOTS && l < SLOTS ensures Apart(s', j, l) { assert Apart(s, j, l); }
    forall f1: nat, k: nat | f1 < FILES && k < GEMS ensures GemOk(s', f1, k) { assert GemOk(s, f1, k); }
    forall f1: nat, g: nat | f1 < FILES && g < FILES ensures FilesApart(s', f1, g) { assert FilesApart(s, f1, g); }
    forall d: nat | d < |s'.fds| ensures FdOk(s', d) { assert FdOk(s, d); }
    forall c: nat | c < |s'.hands| ensures HandOk(s', c) { assert HandOk(s, c); }
    forall id: nat | id < s'.nextId ensures PlaceOk(s', id) { assert PlaceOk(s, id); }
  }

  lemma InitInv(fds: nat)
    ensures Inv(Init(fds))
  {
    var s := Init(fds);
    forall j: nat | j < SLOTS
      ensures SlotOk(s, j)
    {
      FilesEmpty(s.files, j);
      FdsEmpty(s.fds, j);
    }
  }

  lemma {:induction false} FilesEmpty(files: seq<File>, i: nat)
    requires forall f :: 0 <= f < |files| ==> files[f] == NoFile()
    ensures FileCount(files, i) == 0
    decreases |files|
  {
    if files != [] {
      NoneCounted(files[0].gems, i);
      FilesEmpty(files[1..], i);
    }
  }

  lemma {:induction false} FdsEmpty(fds: seq<Fd>, i: nat)
    requires forall d :: 0 <= d < |fds| ==> fds[d].Closed?
    ensures FdCount(fds, i) == 0
    decreases |fds|
  {
    if fds != [] {
      FdsEmpty(fds[1..], i);
    }
  }

  // ---------------------------------------------------------------- history

  /**
  What no step ever undoes: a freed run stays freed, a live one keeps its slot until it is
  freed, a GEM id that is gone stays gone, a live one stays where it is, and the file an id was
  created through and the run it names never change.
  */
  ghost predicate Later(s: State, s': State) {
    && |s.fate| <= |s'.fate| && |s.place| <= |s'.place|
    && (forall t :: 0 <= t < |s.fate| ==> s'.fate[t] == s.fate[t] || s'.fate[t] == Freed)
    && (forall id :: 0 <= id < |s.place| ==> s'.place[id] == s.place[id] || s'.place[id] == Gone)
    && s.runs <= s'.runs && s.via <= s'.via && s.names <= s'.names
  }

  lemma LaterTrans(a: State, b: State, c: State)
    requires Later(a, b) && Later(b, c)
    ensures Later(a, c)
  {
  }
}
