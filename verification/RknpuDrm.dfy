/**
The operations that create, share and drop dma-buf references (driver/dma/dma_buf.c,
driver/npu/rknpu_drm.c, kernel/fs/pseudofs/dev.c), as functions on the tables of `DmaRefs`,
and what holds after every sequence of them.

What comes from outside is a parameter: the physical address the page allocator returns
(0 when it has no run), whether the caller has a free descriptor number, and whether copying
the answer to user memory works.
*/
module RknpuDrm {

  import opened Bytes
  import opened DmaRefs

  // ---------------------------------------------------------------- table searches

  /** The first element that satisfies p, or the length. */
  function First<T>(s: seq<T>, p: T -> bool): (r: nat)
    ensures r <= |s|
    ensures r < |s| ==> p(s[r])
    ensures forall j :: 0 <= j < r ==> !p(s[j])
  {
    if s == [] || p(s[0]) then 0 else 1 + First(s[1..], p)
  }

  const FreeSlot: Slot -> bool := (b: Slot) => !b.used
  const FreeFile: File -> bool := (x: File) => !x.used
  const FreeGem: Gem -> bool := (g: Gem) => !g.used
  const FreeFd: Fd -> bool := (d: Fd) => d.Closed?

  function HasKey(key: nat): File -> bool { (x: File) => x.used && x.key == key }

  function HasId(id: nat): Gem -> bool { (g: Gem) => g.used && g.id == id }

  // ---------------------------------------------------------------- pieces of the ioctls

  /** dma_buf_impl_alloc */
  function AllocBuf(s: State, pa: nat, size: nat): (r: (State, Option<nat>))
    requires Sized(s)
    ensures Sized(r.0) && (r.1.Some? ==> r.1.value < SLOTS && r.0.hands == s.hands + [r.1.value])
  {
    if size == 0 || pa == 0 then (s, None) else
    var i := First(s.slots, FreeSlot);
    if i < SLOTS then (NewBuf(s, i, pa, size), Some(i)) else (GiveBack(s, pa, size), None)
  }

  /** drm_file_get_or_create */
  function FileFor(s: State, key: nat): (r: (State, Option<nat>))
    requires Sized(s)
    ensures Sized(r.0) && r.0.hands == s.hands && (r.1.Some? ==> r.1.value < FILES)
  {
    var f := First(s.files, HasKey(key));
    if f < FILES then (s, Some(f)) else
    var g := First(s.files, FreeFile);
    if g < FILES then (SetFile(s, g, NoFile().(used := true, key := key)), Some(g)) else (s, None)
  }

  /** gem_create */
  function NewGem(s: State, f: nat, i: nat): (r: (State, Option<nat>))
    requires Sized(s) && f < FILES && i < SLOTS
    ensures Sized(r.0) && r.0.hands == s.hands
  {
    var k := First(s.files[f].gems, FreeGem);
    if k < GEMS then (AddGem(s, f, k, i), Some(s.nextId)) else (s, None)
  }

  /** A GEM object for slot i in the table of open file `key`. */
  function GemFor(s: State, key: nat, i: nat): (r: (State, Option<nat>))
    requires Sized(s) && i < SLOTS
    ensures Sized(r.0) && r.0.hands == s.hands
  {
    var (s1, f) := FileFor(s, key);
    if f.Some? then NewGem(s1, f.value, i) else (s1, None)
  }

  /** dma_buf_impl_alloc_fd_current; `free` says that the caller has a descriptor number left. */
  function FdFor(s: State, i: nat, free: bool): (r: (State, Option<nat>))
    requires Sized(s) && i < SLOTS
    ensures Sized(r.0) && r.0.hands == s.hands
    ensures r.1.Some? ==> r.1.value < |r.0.fds| && r.0.fds[r.1.value] == Open(i)
  {
    var d := First(s.fds, FreeFd);
    if d < |s.fds| && free then (AddFd(s, d, i), Some(d)) else (s, None)
  }

  /** gem_find through open file `key`: the entry of the object, if the file has it. */
  function FindGem(s: State, key: nat, id: nat): (r: Place)
    requires Sized(s)
    ensures r.At? ==> r.f < FILES && r.k < GEMS && s.files[r.f].gems[r.k].used
  {
    var f := First(s.files, HasKey(key));
    if f == FILES then Gone else
    var k := First(s.files[f].gems, HasId(id));
    if k == GEMS then Gone else At(f, k)
  }

  /** The loop of rknpu_drm_impl_close_file from entry k on. */
  function DropGems(s: State, f: nat, k: nat): (r: State)
    requires Sized(s) && f < FILES && k <= GEMS
    ensures Sized(r) && r.hands == s.hands
    decreases GEMS - k
  {
    if k == GEMS then s
    else if s.files[f].gems[k].used then DropGems(DropGem(s, f, k), f, k + 1)
    else DropGems(s, f, k + 1)
  }

  // ---------------------------------------------------------------- the operations

  datatype Step =
    | HeapAlloc(len: nat, pa: nat, free: bool, copied: bool)
    | MemCreate(key: nat, size: nat, contiguous: bool, pa: nat)
    | MemDestroy(key: nat, handle: nat, obj: nat)
    | HandleToFd(key: nat, handle: nat, free: bool)
    | FdToHandle(key: nat, fd: nat)
    | DupFd(fd: nat, free: bool)
    | CloseFd(fd: nat)
    | CloseFile(key: nat)

  /** dma_heap_dev_ioctl */
  function DoHeapAlloc(s: State, len: nat, pa: nat, free: bool, copied: bool): (r: (State, Option<nat>))
    requires Sized(s)
    ensures Sized(r.0)
  {
    var (s1, b) := AllocBuf(s, pa, len);
    if b.None? then (s1, None) else
    var (s2, d) := FdFor(s1, b.value, free);
    var s3 := DropHand(s2);
    if d.Some? && !copied then
      assert s3.fds == s2.fds;
      (DropFd(s3, d.value), None)
    else (s3, d)
  }

  /** rknpu_ioctl_mem_create: the new object's id. */
  function DoMemCreate(s: State, key: nat, size: nat, contiguous: bool, pa: nat): (r: (State, Option<nat>))
    requires Sized(s)
    ensures Sized(r.0)
  {
    if !contiguous then (s, None) else
    var (s1, b) := AllocBuf(s, pa, size);
    if b.None? then (s1, None) else
    var (s2, g) := GemFor(s1, key, b.value);
    (DropHand(s2), g)
  }

  /** rknpu_ioctl_mem_destroy */
  function DoMemDestroy(s: State, key: nat, handle: nat, obj: nat): (r: (State, Option<nat>))
    requires Sized(s)
    ensures Sized(r.0)
  {
    var p := FindGem(s, key, if handle != 0 then handle else obj);
    if p.At? then (DropGem(s, p.f, p.k), Some(0)) else (s, None)
  }

  /** drm_ioctl_prime_handle_to_fd */
  function DoHandleToFd(s: State, key: nat, handle: nat, free: bool): (r: (State, Option<nat>))
    requires Sized(s)
    ensures Sized(r.0)
  {
    var p := FindGem(s, key, handle);
    if p.Gone? then (s, None) else
    var i := s.files[p.f].gems[p.k].buf;
    if i < SLOTS && s.slots[i].used then FdFor(s, i, free) else (s, None)
  }

  /** drm_ioctl_prime_fd_to_handle */
  function DoFdToHandle(s: State, key: nat, fd: nat): (r: (State, Option<nat>))
    requires Sized(s)
    ensures Sized(r.0)
  {
    if fd < |s.fds| && s.fds[fd].Open? && s.fds[fd].buf < SLOTS && s.slots[s.fds[fd].buf].used
    then GemFor(s, key, s.fds[fd].buf)
    else (s, None)
  }

  /** A second descriptor for the same buffer: the dup callback takes a reference. */
  function DoDupFd(s: State, fd: nat, free: bool): (r: (State, Option<nat>))
    requires Sized(s)
    ensures Sized(r.0)
  {
    if fd < |s.fds| && s.fds[fd].Open? && s.fds[fd].buf < SLOTS then FdFor(s, s.fds[fd].buf, free) else (s, None)
  }

  /** fd_obj_close */
  function DoCloseFd(s: State, fd: nat): (r: (State, Option<nat>))
    requires Sized(s)
    ensures Sized(r.0)
  {
    if fd < |s.fds| && s.fds[fd].Open? then (DropFd(s, fd), Some(0)) else (s, None)
  }

  /** rknpu_drm_impl_close_file */
  function DoCloseFile(s: State, key: nat): (r: (State, Option<nat>))
    requires Sized(s)
    ensures Sized(r.0)
  {
    var f := First(s.files, HasKey(key));
    if f < FILES then (SetFile(DropGems(s, f, 0), f, NoFile()), Some(0)) else (s, Some(0))
  }

  function Do(s: State, step: Step): (r: (State, Option<nat>))
    requires Sized(s)
    ensures Sized(r.0)
  {
    match step
    case HeapAlloc(len, pa, free, copied) => DoHeapAlloc(s, len, pa, free, copied)
    case MemCreate(key, size, contiguous, pa) => DoMemCreate(s, key, size, contiguous, pa)
    case MemDestroy(key, handle, obj) => DoMemDestroy(s, key, handle, obj)
    case HandleToFd(key, handle, free) => DoHandleToFd(s, key, handle, free)
    case FdToHandle(key, fd) => DoFdToHandle(s, key, fd)
    case DupFd(fd, free) => DoDupFd(s, fd, free)
    case CloseFd(fd) => DoCloseFd(s, fd)
    case CloseFile(key) => DoCloseFile(s, key)
  }

  /** The page allocator hands out no run that overlaps one still out. */
  ghost predicate Allowed(s: State, step: Step)
    requires Sized(s)
  {
    match step
    case HeapAlloc(len, pa, _, _) => pa != 0 ==> FreshRun(s, pa, len)
    case MemCreate(_, size, _, pa) => pa != 0 ==> FreshRun(s, pa, size)
    case _ => true
  }

  // ---------------------------------------------------------------- every operation keeps the invariant

  lemma AllocBufKeeps(s: State, pa: nat, size: nat)
    requires Inv(s) && (pa != 0 ==> FreshRun(s, pa, size))
    ensures Inv(AllocBuf(s, pa, size).0) && Later(s, AllocBuf(s, pa, size).0)
    ensures AllocBuf(s, pa, size).1.None? ==> AllocBuf(s, pa, size).0.hands == s.hands
  {
    var i := First(s.slots, FreeSlot);
    if size == 0 || pa == 0 {
      LaterRefl(s);
    } else if i < SLOTS {
      NewBufKeeps(s, i, pa, size);
    } else {
      GiveBackKeeps(s, pa, size);
    }
  }

  lemma LaterRefl(s: State)
    ensures Later(s, s)
  {
  }

  lemma GemForKeeps(s: State, key: nat, i: nat)
    requires Inv(s) && i < SLOTS && s.slots[i].used
    ensures Inv(GemFor(s, key, i).0) && Later(s, GemFor(s, key, i).0)
    ensures GemFor(s, key, i).1.Some? ==>
              var r := GemFor(s, key, i);
              && r.1.value == s.nextId < |r.0.place| && r.0.place[r.1.value].At? && r.0.via[r.1.value] == key
              && r.0.names[r.1.value] == s.ticket[i]
  {
    FileForKeeps(s, key);
    var (s1, f) := FileFor(s, key);
    if f.Some? {
      var k := First(s1.files[f.value].gems, FreeGem);
      if k < GEMS {
        AddGemKeeps(s1, f.value, k, i);
        LaterTrans(s, s1, AddGem(s1, f.value, k, i));
      }
    }
  }

  lemma FileForKeeps(s: State, key: nat)
    requires Inv(s)
    ensures Inv(FileFor(s, key).0) && Later(s, FileFor(s, key).0)
    ensures FileFor(s, key).0 == s.(files := FileFor(s, key).0.files)
    ensures FileFor(s, key).1.Some? ==>
              var (s', f) := FileFor(s, key); s'.files[f.value].used && s'.files[f.value].key == key
  {
    var f := First(s.files, HasKey(key));
    var g := First(s.files, FreeFile);
    if f == FILES && g < FILES {
      forall k: nat | k < GEMS ensures !s.files[g].gems[k].used { assert GemOk(s, g, k); }
      SetFileKeeps(s, g, NoFile().(used := true, key := key));
    }
  }

  lemma FdForKeeps(s: State, i: nat, free: bool)
    requires Inv(s) && i < SLOTS && s.slots[i].used
    ensures Inv(FdFor(s, i, free).0) && Later(s, FdFor(s, i, free).0)
  {
    var d := First(s.fds, FreeFd);
    if d < |s.fds| && free {
      AddFdKeeps(s, d, i);
    }
  }

  lemma {:induction false} DropGemsKeeps(s: State, f: nat, k: nat)
    requires Inv(s) && f < FILES && k <= GEMS
    requires forall j :: 0 <= j < k ==> !s.files[f].gems[j].used
    ensures Inv(DropGems(s, f, k)) && Later(s, DropGems(s, f, k))
    ensures NoGems(DropGems(s, f, k).files[f])
    ensures forall g :: 0 <= g < FILES && g != f ==> DropGems(s, f, k).files[g] == s.files[g]
    ensures DropGems(s, f, k).fds == s.fds
    decreases GEMS - k
  {
    if k < GEMS && s.files[f].gems[k].used {
      DropGemKeeps(s, f, k);
      DropGemsKeeps(DropGem(s, f, k), f, k + 1);
      LaterTrans(s, DropGem(s, f, k), DropGems(s, f, k));
    } else if k < GEMS {
      DropGemsKeeps(s, f, k + 1);
    }
  }

  /** Between operations no running code holds a reference. */
  ghost predicate Quiet(s: State) {
    Inv(s) && s.hands == []
  }

  lemma HeapAllocKeeps(s: State, len: nat, pa: nat, free: bool, copied: bool)
    requires Quiet(s) && (pa != 0 ==> FreshRun(s, pa, len))
    ensures Quiet(DoHeapAlloc(s, len, pa, free, copied).0) && Later(s, DoHeapAlloc(s, len, pa, free, copied).0)
  {
    AllocBufKeeps(s, pa, len);
    var (s1, b) := AllocBuf(s, pa, len);
    if b.Some? {
      FdForKeeps(s1, b.value, free);
      var (s2, d) := FdFor(s1, b.value, free);
      DropHandKeeps(s2);
      var s3 := DropHand(s2);
      LaterTrans(s, s1, s2);
      LaterTrans(s, s2, s3);
      if d.Some? && !copied {
        DropFdKeeps(s3, d.value);
        LaterTrans(s, s3, DropFd(s3, d.value));
      }
    }
  }

  lemma MemCreateKeeps(s: State, key: nat, size: nat, contiguous: bool, pa: nat)
    requires Quiet(s) && (pa != 0 ==> FreshRun(s, pa, size))
    ensures Quiet(DoMemCreate(s, key, size, contiguous, pa).0)
    ensures Later(s, DoMemCreate(s, key, size, contiguous, pa).0)
  {
    if contiguous {
      AllocBufKeeps(s, pa, size);
      var (s1, b) := AllocBuf(s, pa, size);
      if b.Some? {
        GemForKeeps(s1, key, b.value);
        var s2 := GemFor(s1, key, b.value).0;
        DropHandKeeps(s2);
        LaterTrans(s, s1, s2);
        LaterTrans(s, s2, DropHand(s2));
      }
    }
  }

  lemma CloseFileKeeps(s: State, key: nat)
    requires Quiet(s)
    ensures Quiet(DoCloseFile(s, key).0) && Later(s, DoCloseFile(s, key).0)
  {
    var f := First(s.files, HasKey(key));
    if f < FILES {
      DropGemsKeeps(s, f, 0);
      var s1 := DropGems(s, f, 0);
      SetFileKeeps(s1, f, NoFile());
      LaterTrans(s, s1, SetFile(s1, f, NoFile()));
    }
  }

  lemma StepKeeps(s: State, step: Step)
    requires Quiet(s) && Allowed(s, step)
    ensures Quiet(Do(s, step).0) && Later(s, Do(s, step).0)
  {
    match step
    case HeapAlloc(len, pa, free, copied) => HeapAllocKeeps(s, len, pa, free, copied);
    case MemCreate(key, size, contiguous, pa) => MemCreateKeeps(s, key, size, contiguous, pa);
    case CloseFile(key) => CloseFileKeeps(s, key);
    case _ => SmallStepKeeps(s, step);
  }

  lemma SmallStepKeeps(s: State, step: Step)
    requires Quiet(s) && !step.HeapAlloc? && !step.MemCreate? && !step.CloseFile?
    ensures Quiet(Do(s, step).0) && Later(s, Do(s, step).0)
  {
    match step
    case MemDestroy(key, handle, obj) =>
      var p := FindGem(s, key, if handle != 0 then handle else obj);
      if p.At? {
        DropGemKeeps(s, p.f, p.k);
      }
    case HandleToFd(key, handle, free) =>
      var p := FindGem(s, key, handle);
      if p.At? {
        assert GemOk(s, p.f, p.k);
        FdForKeeps(s, s.files[p.f].gems[p.k].buf, free);
      }
    case FdToHandle(key, fd) =>
      if fd < |s.fds| && s.fds[fd].Open? {
        assert FdOk(s, fd);
        GemForKeeps(s, key, s.fds[fd].buf);
      }
    case DupFd(fd, free) =>
      if fd < |s.fds| && s.fds[fd].Open? {
        assert FdOk(s, fd);
        FdForKeeps(s, s.fds[fd].buf, free);
      }
    case CloseFd(fd) =>
      if fd < |s.fds| && s.fds[fd].Open? {
        DropFdKeeps(s, fd);
      }
  }

  // ---------------------------------------------------------------- runs

  ghost predicate IsRun(ws: seq<State>, steps: seq<Step>, fds: nat) {
    && |ws| == |steps| + 1 && ws[0] == Init(fds)
    && forall i: nat :: i < |steps| ==> IsStep(ws[i], steps[i], ws[i + 1])
  }

  ghost predicate IsStep(s: State, step: Step, s': State) {
    Sized(s) && Allowed(s, step) && s' == Do(s, step).0
  }

  lemma InitQuiet(fds: nat)
    ensures Quiet(Init(fds))
  {
    InitInv(fds);
  }

  lemma {:induction false} RunKeeps(ws: seq<State>, steps: seq<Step>, fds: nat, m: nat, n: nat)
    requires IsRun(ws, steps, fds) && m <= n < |ws|
    ensures Quiet(ws[n]) && Later(ws[m], ws[n])
    decreases n
  {
    hide Inv, Later, Do, Init;
    if n == 0 {
      InitQuiet(fds);
      LaterRefl(ws[0]);
    } else {
      assert IsStep(ws[n - 1], steps[n - 1], ws[n]);
      RunKeeps(ws, steps, fds, if m < n then m else n - 1, n - 1);
      StepKeeps(ws[n - 1], steps[n - 1]);
      if m < n {
        LaterTrans(ws[m], ws[n - 1], ws[n]);
      } else {
        LaterRefl(ws[n]);
      }
    }
  }

  /**
  After every sequence of operations, failed ones included: the count of a used slot is the
  number of GEM objects and open descriptors that refer to it, at least one; an unused slot has
  none; the runs the allocator gave for two used slots do not overlap, and the buffers recorded for
  them do not either if neither is larger than a 32-bit page count can ask for.
  */
  lemma CountsAreHolders(ws: seq<State>, steps: seq<Step>, fds: nat, n: nat, i: nat, j: nat)
    requires IsRun(ws, steps, fds) && n < |ws| && i < SLOTS && j < SLOTS
    ensures |ws[n].slots| == SLOTS
    ensures var s := ws[n];
            && (s.slots[i].used <==> FileCount(s.files, i) + FdCount(s.fds, i) > 0)
            && (s.slots[i].used ==> s.slots[i].refs == FileCount(s.files, i) + FdCount(s.fds, i))
            && (i != j && s.slots[i].used && s.slots[j].used ==>
                  && !Overlap(Asked(s.slots[i]), Asked(s.slots[j]))
                  && (s.slots[i].size <= MOST && s.slots[j].size <= MOST ==> !Overlap(s.slots[i], s.slots[j])))
  {
    RunKeeps(ws, steps, fds, n, n);
    var s := ws[n];
    assert SlotOk(s, i) && SlotOk(s, j) && Apart(s, i, j);
    if s.slots[i].used && s.slots[i].size <= MOST {
      RecordedIsAsked(s.slots[i]);
    }
    if s.slots[j].used && s.slots[j].size <= MOST {
      RecordedIsAsked(s.slots[j]);
    }
  }

  /** Where the heap ioctl puts a buffer and its descriptor. */
  lemma HeapAllocLands(s: State, len: nat, pa: nat)
    requires Sized(s) && len > 0 && pa > 0
    requires First(s.slots, FreeSlot) < SLOTS && First(s.fds, FreeFd) < |s.fds|
    ensures var i := First(s.slots, FreeSlot);
            var r := DoHeapAlloc(s, len, pa, true, true);
            && r.0.slots == s.slots[i := Slot(true, 1, pa, RoundUp(len), len)]
            && r.0.fds == s.fds[First(s.fds, FreeFd) := Open(i)]
  {
    var i := First(s.slots, FreeSlot);
    var s1 := NewBuf(s, i, pa, len);
    assert s1.fds == s.fds;
    var (s2, d) := FdFor(s1, i, true);
    assert s2.slots[i] == Slot(true, 2, pa, RoundUp(len), len) && s2.hands == s.hands + [i];
    assert DropHand(s2).slots == s.slots[i := Slot(true, 1, pa, RoundUp(len), len)];
  }

  /** A size whose page count is one more than 32 bits hold: one page is asked for. */
  const HUGE: nat := MOST + 2 * PAGE

  /** Above the bound the promise fails: a run of two allocations ends with overlapping buffers. */
  lemma HugeBufferOverlaps() returns (ws: seq<State>, steps: seq<Step>)
    ensures IsRun(ws, steps, 2) && |ws| == 3
    ensures |ws[2].slots| == SLOTS && ws[2].slots[0].used && ws[2].slots[1].used
    ensures Overlap(ws[2].slots[0], ws[2].slots[1])
  {
    hide Do, DoHeapAlloc, FreshRun, Init;
    var s0 := Init(2);
    var a, b := HeapAlloc(HUGE, PAGE, true, true), HeapAlloc(PAGE, 2 * PAGE, true, true);
    FirstOfTwo(s0);
    HeapAllocLands(s0, HUGE, PAGE);
    DoIsHeapAlloc(s0, HUGE, PAGE);
    var s1 := Do(s0, a).0;
    SecondOfTwo(s0, s1);
    HeapAllocLands(s1, PAGE, 2 * PAGE);
    DoIsHeapAlloc(s1, PAGE, 2 * PAGE);
    var s2 := Do(s1, b).0;
    ws, steps := [s0, s1, s2], [a, b];
    assert IsStep(s0, a, s1) && IsStep(s1, b, s2);
  }

  lemma FirstOfTwo(s: State)
    requires s == Init(2)
    ensures Sized(s) && FreshRun(s, PAGE, HUGE) && First(s.slots, FreeSlot) == 0 && First(s.fds, FreeFd) == 0
    ensures |s.fds| == 2
  {
    assert PagesAsked(HUGE) == 1;
  }

  lemma SecondOfTwo(s: State, s': State)
    requires s == Init(2) && Sized(s')
    requires s'.slots == s.slots[0 := Slot(true, 1, PAGE, RoundUp(HUGE), HUGE)] && s'.fds == s.fds[0 := Open(0)]
    ensures FreshRun(s', 2 * PAGE, PAGE) && First(s'.slots, FreeSlot) == 1 && First(s'.fds, FreeFd) == 1
  {
    assert PagesAsked(HUGE) == 1 && PagesAsked(PAGE) == 1;
    assert FreeSlot(s'.slots[1]) && FreeFd(s'.fds[1]);
  }

  lemma DoIsHeapAlloc(s: State, len: nat, pa: nat)
    requires Sized(s)
    ensures Do(s, HeapAlloc(len, pa, true, true)) == DoHeapAlloc(s, len, pa, true, true)
  {
  }

  /** A page run is out exactly while somebody holds its buffer. */
  lemma LiveWhileHeld(s: State, t: nat)
    requires Quiet(s) && t < |s.fate|
    ensures s.fate[t].InSlot? <==>
            exists i: nat :: i < SLOTS && s.ticket[i] == t && s.slots[i].used && Holders(s, i) > 0
  {
    assert FateOk(s, t);
    forall i: nat | i < SLOTS && s.slots[i].used
      ensures Holders(s, i) > 0 && RunOk(s, i)
    {
      assert SlotOk(s, i);
    }
  }

  /** A run is freed at most once: once freed it stays freed, and until then it stays in its slot. */
  lemma FreedOnce(ws: seq<State>, steps: seq<Step>, fds: nat, m: nat, n: nat, t: nat)
    requires IsRun(ws, steps, fds) && m <= n < |ws| && t < |ws[m].fate|
    ensures |ws[m].fate| <= |ws[n].fate|
    ensures ws[m].fate[t].Freed? ==> ws[n].fate[t].Freed?
    ensures ws[n].fate[t].InSlot? ==> ws[n].fate[t] == ws[m].fate[t]
  {
    RunKeeps(ws, steps, fds, m, n);
  }

  /** When every descriptor is closed and every GEM object gone, every run has been freed. */
  lemma NothingLeaks(ws: seq<State>, steps: seq<Step>, fds: nat, n: nat)
    requires IsRun(ws, steps, fds) && n < |ws|
    requires forall f :: 0 <= f < |ws[n].files| ==> NoGems(ws[n].files[f])
    requires forall d :: 0 <= d < |ws[n].fds| ==> ws[n].fds[d].Closed?
    ensures forall t :: 0 <= t < |ws[n].fate| ==> ws[n].fate[t].Freed?
  {
    RunKeeps(ws, steps, fds, n, n);
    var s := ws[n];
    forall t | 0 <= t < |s.fate|
      ensures s.fate[t].Freed?
    {
      assert FateOk(s, t);
      if s.fate[t].InSlot? {
        var i := s.fate[t].i;
        assert SlotOk(s, i);
        NoFileHolds(s.files, i);
        FdsEmpty(s.fds, i);
      }
    }
  }

  lemma {:induction false} NoFileHolds(files: seq<File>, i: nat)
    requires forall f :: 0 <= f < |files| ==> NoGems(files[f])
    ensures FileCount(files, i) == 0
    decreases |files|
  {
    if files != [] {
      NoneCounted(files[0].gems, i);
      NoFileHolds(files[1..], i);
    }
  }

  function Contains(pa: nat): Slot -> bool { (b: Slot) => b.used && b.pa <= pa < b.pa + b.bytes }

  /** dma_buf_impl_find_by_phys finds slot i exactly for the addresses in its buffer, if no buffer is too large. */
  lemma FoundByPhys(s: State, pa: nat, i: nat)
    requires Quiet(s) && i < SLOTS && forall j :: 0 <= j < SLOTS && s.slots[j].used ==> s.slots[j].size <= MOST
    ensures First(s.slots, Contains(pa)) == i <==>
            s.slots[i].used && s.slots[i].pa <= pa < s.slots[i].pa + s.slots[i].bytes
  {
    var j := First(s.slots, Contains(pa));
    if j < SLOTS && i != j && s.slots[i].used {
      assert SlotOk(s, i) && SlotOk(s, j) && Apart(s, i, j);
      RecordedIsAsked(s.slots[i]);
      RecordedIsAsked(s.slots[j]);
    } else {
      assert j == SLOTS ==> !Contains(pa)(s.slots[i]);
    }
  }

  // ---------------------------------------------------------------- handles

  /** A lookup succeeds exactly for a live object that was created through the same open file. */
  lemma FoundIffMine(s: State, key: nat, id: nat)
    requires Quiet(s)
    ensures FindGem(s, key, id).At? <==> id < s.nextId && s.place[id].At? && s.via[id] == key
    ensures FindGem(s, key, id).At? ==> FindGem(s, key, id) == s.place[id]
  {
    var p := FindGem(s, key, id);
    if p.At? {
      assert GemOk(s, p.f, p.k);
    }
    if id < s.nextId && s.place[id].At? && s.via[id] == key {
      var q := s.place[id];
      assert PlaceOk(s, id) && GemOk(s, q.f, q.k);
      var f := First(s.files, HasKey(key));
      assert HasKey(key)(s.files[q.f]) && f <= q.f;
      assert FilesApart(s, f, q.f);
      var k := First(s.files[f].gems, HasId(id));
      assert HasId(id)(s.files[f].gems[q.k]) && k <= q.k;
    }
  }

  /** An id is given out once: it stays with its place and its open file, and once gone it never comes back. */
  lemma IdsNeverReused(ws: seq<State>, steps: seq<Step>, fds: nat, m: nat, n: nat, id: nat)
    requires IsRun(ws, steps, fds) && m <= n < |ws| && id < ws[m].nextId
    ensures id < |ws[m].place| <= |ws[n].place| && id < |ws[m].via| <= |ws[n].via|
    ensures ws[m].place[id].Gone? ==> ws[n].place[id].Gone?
    ensures ws[n].place[id].At? ==> ws[n].place[id] == ws[m].place[id]
    ensures ws[n].via[id] == ws[m].via[id]
  {
    RunKeeps(ws, steps, fds, m, m);
    RunKeeps(ws, steps, fds, m, n);
  }

  /** What an object found by a lookup names: the run recorded for its id when it was created. */
  lemma FoundNamesItsRun(s: State, key: nat, id: nat)
    requires Quiet(s) && FindGem(s, key, id).At?
    ensures id < s.nextId && s.names[id] < |s.runs| && s.fate[s.names[id]].InSlot?
    ensures var p := FindGem(s, key, id);
            var b := s.files[p.f].gems[p.k].buf;
            && b < SLOTS && s.slots[b].used
            && s.runs[s.names[id]] == Run(s.slots[b].pa, s.slots[b].bytes, s.slots[b].size)
  {
    var p := FindGem(s, key, id);
    assert GemOk(s, p.f, p.k);
    assert SlotOk(s, s.files[p.f].gems[p.k].buf);
  }

  const U32: nat := 0x1_0000_0000
  const MMAP_BASE: nat := 0x100_0000_0000
  const MMAP_PAGE: nat := 4096

  /** The fake offset MEM_MAP returns, in 64-bit arithmetic. */
  function OffsetOf(id: nat): nat {
    (MMAP_BASE + id * MMAP_PAGE % U64) % U64
  }

  /** The id an offset stands for, if it is one of ours. */
  function IdOf(offset: nat): Option<nat> {
    if offset < MMAP_BASE || offset % MMAP_PAGE != 0 then None else Some((offset - MMAP_BASE) / MMAP_PAGE)
  }

  /** The offset decodes to the id it was made from exactly while it fits in 64 bits. */
  lemma OffsetRoundTrip(id: nat)
    requires id < U64
    ensures IdOf(OffsetOf(id)) == Some(id) <==> id < 0x10_0000_0000_0000 - 0x1000_0000
  {
    var bound: nat := 0x10_0000_0000_0000 - 0x1000_0000;
    if id < bound {
      assert MMAP_BASE + id * MMAP_PAGE < U64;
    } else {
      var o := OffsetOf(id);
      assert o < U64;
      assert (o - MMAP_BASE) / MMAP_PAGE < bound;
    }
  }

  /** rknpu_drm_impl_mmap_lookup */
  function MmapLookup(s: State, key: nat, offset: nat): (r: Option<nat>)
    requires Sized(s)
    ensures r.Some? ==> r.value < SLOTS && s.slots[r.value].used
  {
    if IdOf(offset).None? then None else
    var p := FindGem(s, key, IdOf(offset).value);
    if p.Gone? then None else
    var i := s.files[p.f].gems[p.k].buf;
    if i < SLOTS && s.slots[i].used then Some(i) else None
  }

  /**
  An offset that MEM_MAP returned for an object resolves, at every later moment while the object
  lives, to the physical address and size of the same buffer; and to nothing once it is gone.
  */
  lemma OffsetStaysGood(ws: seq<State>, steps: seq<Step>, fds: nat, m: nat, n: nat, key: nat, id: nat)
    requires IsRun(ws, steps, fds) && m <= n < |ws| && Sized(ws[m]) && FindGem(ws[m], key, id).At?
    requires id < 0x10_0000_0000_0000 - 0x1000_0000
    ensures id < |ws[m].names| && ws[m].names[id] < |ws[m].runs| && id < |ws[n].place| && Sized(ws[n])
    ensures var r := MmapLookup(ws[n], key, OffsetOf(id));
            var b := ws[m].runs[ws[m].names[id]];
            && (r.Some? <==> ws[n].place[id].At?)
            && (r.Some? ==> ws[n].slots[r.value].pa == b.pa && ws[n].slots[r.value].size == b.size)
  {
    RunKeeps(ws, steps, fds, m, m);
    RunKeeps(ws, steps, fds, m, n);
    FoundIffMine(ws[m], key, id);
    FoundIffMine(ws[n], key, id);
    FoundNamesItsRun(ws[m], key, id);
    OffsetRoundTrip(id);
    if FindGem(ws[n], key, id).At? {
      FoundNamesItsRun(ws[n], key, id);
    }
  }

  /** The 32-bit handle of an object finds it exactly while the id fits in 32 bits. */
  lemma HandleFindsObject(s: State, key: nat, id: nat)
    requires Quiet(s) && id < s.nextId && s.place[id].At? && s.via[id] == key
    ensures FindGem(s, key, id % U32) == s.place[id] <==> id < U32
  {
    FoundIffMine(s, key, id);
    FoundIffMine(s, key, id % U32);
    if FindGem(s, key, id % U32) == s.place[id] {
      assert PlaceOk(s, id) && PlaceOk(s, id % U32);
    }
  }

  /**
  Exporting an object and importing the descriptor through any open file gives an object for the
  same run, found through that file alone.
  */
  lemma ExportImport(s: State, key: nat, id: nat, free: bool, key': nat)
    requires Quiet(s) && FindGem(s, key, id).At?
    ensures var (s1, d) := DoHandleToFd(s, key, id, free);
            d.Some? ==>
              var (s2, h) := DoFdToHandle(s1, key', d.value);
              h.Some? ==> && h.value == s.nextId && FindGem(s2, key', h.value).At?
                          && id < |s2.names| && h.value < |s2.names| && s2.names[h.value] == s2.names[id]
                          && forall k: nat :: FindGem(s2, k, h.value).At? ==> k == key'
  {
    FoundNamesItsRun(s, key, id);
    var p := FindGem(s, key, id);
    assert GemOk(s, p.f, p.k);
    var i := s.files[p.f].gems[p.k].buf;
    var (s1, d) := DoHandleToFd(s, key, id, free);
    if d.Some? {
      FdForKeeps(s, i, free);
      assert SlotOk(s1, i) && FdOk(s1, d.value);
      GemForKeeps(s1, key', i);
      var (s2, h) := DoFdToHandle(s1, key', d.value);
      if h.Some? {
        FoundIffMine(s2, key', h.value);
        forall k: nat | FindGem(s2, k, h.value).At?
          ensures k == key'
        {
          FoundIffMine(s2, k, h.value);
        }
      }
    }
  }

  /** Closing an open file ends every object created through it and no other. */
  lemma CloseEndsExactlyItsObjects(s: State, key: nat, id: nat)
    requires Quiet(s) && id < s.nextId
    ensures id < |DoCloseFile(s, key).0.place|
    ensures DoCloseFile(s, key).0.place[id] == if s.via[id] == key then Gone else s.place[id]
  {
    var s' := DoCloseFile(s, key).0;
    CloseFileKeeps(s, key);
    FoundIffMine(s, key, id);
    var f := First(s.files, HasKey(key));
    if f < FILES {
      DropGemsKeeps(s, f, 0);
      assert PlaceOk(s', id) && PlaceOk(s, id);
      if s.place[id].At? && s.via[id] != key {
        var q := s.place[id];
        assert GemOk(s, q.f, q.k) && s'.files[q.f] == s.files[q.f];
        assert GemOk(s', q.f, q.k);
      }
    }
  }
}
