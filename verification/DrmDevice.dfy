/**
The driver itself: the tables as arrays that the operations update in place, with the search
loops of the source.  Each method is proved to change the tables as its function in `RknpuDrm`
says, and each operation to do what `DrmLedger` asks of it; `w` is the value of the tables together
with their history.
*/
module DrmDevice {

  import opened Bytes
  import opened DmaRefs
  import opened RknpuDrm
  import opened DrmLedger

  lemma {:induction false} FirstIs<T>(s: seq<T>, p: T -> bool, r: nat)
    requires r <= |s|
    requires r < |s| ==> p(s[r])
    requires forall j :: 0 <= j < r ==> !p(s[j])
    ensures r == First(s, p)
  {
    var q := First(s, p);
    assert q == r || q < r || r < q;
  }

  class Device {
    const slots: array<Slot>
    const files: array<File>
    const fds: array<Fd>
    var nextId: nat
    ghost var w: State

    ghost predicate Shown()
      reads this, slots, files, fds
    {
      Sized(w) && w.slots == slots[..] && w.files == files[..] && w.fds == fds[..] && w.nextId == nextId
    }

    constructor (n: nat)
      ensures Shown() && Quiet(w) && w == Init(n)
      ensures fresh(slots) && fresh(files) && fresh(fds)
    {
      slots := new Slot[SLOTS](_ => NoSlot());
      files := new File[FILES](_ => NoFile());
      fds := new Fd[n](_ => Closed);
      nextId := 1;
      w := Init(n);
      new;
      assert slots[..] == w.slots && files[..] == w.files && fds[..] == w.fds;
      InitQuiet(n);
    }

    // -------------------------------------------------------------- reference counts

    method GetIndex(i: nat)
      requires Shown()
      modifies slots, `w
      ensures Shown() && w == Get(old(w), i)
    {
      if i < SLOTS && slots[i].used {
        slots[i] := slots[i].(refs := slots[i].refs + 1);
      }
      w := Get(w, i);
    }

    method PutIndex(i: nat)
      requires Shown()
      modifies slots, `w
      ensures Shown() && w == Put(old(w), i)
    {
      if i < SLOTS && slots[i].used {
        if slots[i].refs > 1 {
          slots[i] := slots[i].(refs := slots[i].refs - 1);
        } else {
          slots[i] := NoSlot();
        }
      }
      w := Put(w, i);
    }

    method AllocBuf(pa: nat, size: nat) returns (r: Option<nat>)
      requires Shown()
      modifies slots, `w
      ensures Shown() && (w, r) == RknpuDrm.AllocBuf(old(w), pa, size)
    {
      if size == 0 || pa == 0 {
        return None;
      }
      var i := 0;
      while i < SLOTS && slots[i].used
        invariant i <= SLOTS && forall j :: 0 <= j < i ==> slots[j].used
      {
        i := i + 1;
      }
      FirstIs(w.slots, FreeSlot, i);
      if i == SLOTS {
        w := GiveBack(w, pa, size);
        return None;
      }
      slots[i] := Slot(true, 1, pa, RoundUp(size), size);
      w := NewBuf(w, i, pa, size);
      return Some(i);
    }

    // -------------------------------------------------------------- lookups

    method FindFile(key: nat) returns (f: nat)
      requires Shown()
      ensures f == First(w.files, HasKey(key))
    {
      f := 0;
      while f < FILES && !(files[f].used && files[f].key == key)
        invariant f <= FILES && forall j :: 0 <= j < f ==> !(files[j].used && files[j].key == key)
      {
        f := f + 1;
      }
      FirstIs(w.files, HasKey(key), f);
    }

    method FindGem(key: nat, id: nat) returns (p: Place)
      requires Shown()
      ensures p == RknpuDrm.FindGem(w, key, id)
    {
      var f := FindFile(key);
      if f == FILES {
        return Gone;
      }
      var k := 0;
      while k < GEMS && !(files[f].gems[k].used && files[f].gems[k].id == id)
        invariant k <= GEMS && forall j :: 0 <= j < k ==> !(files[f].gems[j].used && files[f].gems[j].id == id)
      {
        k := k + 1;
      }
      FirstIs(w.files[f].gems, HasId(id), k);
      return if k == GEMS then Gone else At(f, k);
    }

    // -------------------------------------------------------------- new holders

    method FileFor(key: nat) returns (r: Option<nat>)
      requires Shown()
      modifies files, `w
      ensures Shown() && (w, r) == RknpuDrm.FileFor(old(w), key)
    {
      var f := FindFile(key);
      if f < FILES {
        return Some(f);
      }
      var g := 0;
      while g < FILES && files[g].used
        invariant g <= FILES && forall j :: 0 <= j < g ==> files[j].used
      {
        g := g + 1;
      }
      FirstIs(w.files, FreeFile, g);
      if g == FILES {
        return None;
      }
      files[g] := NoFile().(used := true, key := key);
      w := SetFile(w, g, NoFile().(used := true, key := key));
      return Some(g);
    }

    method NewGem(f: nat, i: nat) returns (r: Option<nat>)
      requires Shown() && f < FILES && i < SLOTS
      modifies this, files, slots
      ensures Shown() && (w, r) == RknpuDrm.NewGem(old(w), f, i)
    {
      var k := 0;
      while k < GEMS && files[f].gems[k].used
        invariant k <= GEMS && forall j :: 0 <= j < k ==> files[f].gems[j].used
      {
        k := k + 1;
      }
      FirstIs(w.files[f].gems, FreeGem, k);
      if k == GEMS {
        return None;
      }
      r := Some(nextId);
      files[f] := files[f].(gems := files[f].gems[k := Gem(true, nextId, i, slots[i].size)]);
      nextId := nextId + 1;
      w := PlaceGem(w, f, k, i);
      GetIndex(i);
    }

    method GemFor(key: nat, i: nat) returns (r: Option<nat>)
      requires Shown() && i < SLOTS
      modifies this, files, slots
      ensures Shown() && (w, r) == RknpuDrm.GemFor(old(w), key, i)
    {
      var f := FileFor(key);
      if f.None? {
        return None;
      }
      r := NewGem(f.value, i);
    }

    method FdFor(i: nat, free: bool) returns (r: Option<nat>)
      requires Shown() && i < SLOTS
      modifies fds, slots, `w
      ensures Shown() && (w, r) == RknpuDrm.FdFor(old(w), i, free)
    {
      var d := 0;
      while d < fds.Length && fds[d].Open?
        invariant d <= fds.Length && forall j :: 0 <= j < d ==> fds[j].Open?
      {
        d := d + 1;
      }
      FirstIs(w.fds, FreeFd, d);
      if d == fds.Length || !free {
        return None;
      }
      fds[d] := Open(i);
      w := w.(fds := w.fds[d := Open(i)]);
      GetIndex(i);
      return Some(d);
    }

    // -------------------------------------------------------------- holders that go

    method DropGem(f: nat, k: nat)
      requires Shown() && f < FILES && k < GEMS
      modifies files, slots, `w
      ensures Shown() && w == DmaRefs.DropGem(old(w), f, k)
    {
      var g := files[f].gems[k];
      files[f] := files[f].(gems := files[f].gems[k := g.(used := false)]);
      w := UnplaceGem(w, f, k);
      PutIndex(g.buf);
    }

    method DropFd(d: nat)
      requires Shown() && d < fds.Length && fds[d].Open?
      modifies fds, slots, `w
      ensures Shown() && w == DmaRefs.DropFd(old(w), d)
    {
      var i := fds[d].buf;
      fds[d] := Closed;
      w := w.(fds := w.fds[d := Closed]);
      PutIndex(i);
    }

    /** dma_buf_put by the code that created buffer i. */
    method DropHand(i: nat)
      requires Shown() && |w.hands| > 0 && w.hands[|w.hands| - 1] == i
      modifies slots, `w
      ensures Shown() && w == DmaRefs.DropHand(old(w))
    {
      w := w.(hands := w.hands[..|w.hands| - 1]);
      PutIndex(i);
    }

    // -------------------------------------------------------------- the operations

    method HeapAlloc(len: nat, pa: nat, free: bool, copied: bool) returns (r: Option<nat>)
      requires Shown() && Quiet(w) && Allowed(w, Step.HeapAlloc(len, pa, free, copied))
      modifies this, slots, files, fds
      ensures Shown() && Quiet(w) && Later(old(w), w)
      ensures (w, r) == Do(old(w), Step.HeapAlloc(len, pa, free, copied))
      ensures Serves(old(w), Step.HeapAlloc(len, pa, free, copied), r, w)
    {
      StepKeeps(w, Step.HeapAlloc(len, pa, free, copied));
      TablesServe(w, Step.HeapAlloc(len, pa, free, copied));
      hide Inv, Later, Serves;
      var b := AllocBuf(pa, len);
      if b.None? {
        return None;
      }
      r := FdFor(b.value, free);
      DropHand(b.value);
      if r.Some? && !copied {
        DropFd(r.value);
        r := None;
      }
    }

    method MemCreate(key: nat, size: nat, contiguous: bool, pa: nat) returns (r: Option<nat>)
      requires Shown() && Quiet(w) && Allowed(w, Step.MemCreate(key, size, contiguous, pa))
      modifies this, slots, files, fds
      ensures Shown() && Quiet(w) && Later(old(w), w)
      ensures (w, r) == Do(old(w), Step.MemCreate(key, size, contiguous, pa))
      ensures Serves(old(w), Step.MemCreate(key, size, contiguous, pa), r, w)
    {
      StepKeeps(w, Step.MemCreate(key, size, contiguous, pa));
      TablesServe(w, Step.MemCreate(key, size, contiguous, pa));
      hide Inv, Later, Serves;
      if !contiguous {
        return None;
      }
      var b := AllocBuf(pa, size);
      if b.None? {
        return None;
      }
      r := GemFor(key, b.value);
      DropHand(b.value);
    }

    method MemDestroy(key: nat, handle: nat, obj: nat) returns (r: Option<nat>)
      requires Shown() && Quiet(w)
      modifies this, slots, files, fds
      ensures Shown() && Quiet(w) && Later(old(w), w)
      ensures (w, r) == Do(old(w), Step.MemDestroy(key, handle, obj))
      ensures Serves(old(w), Step.MemDestroy(key, handle, obj), r, w)
    {
      StepKeeps(w, Step.MemDestroy(key, handle, obj));
      TablesServe(w, Step.MemDestroy(key, handle, obj));
      hide Inv, Later, Serves;
      var p := FindGem(key, if handle != 0 then handle else obj);
      if p.Gone? {
        return None;
      }
      DropGem(p.f, p.k);
      return Some(0);
    }

    method HandleToFd(key: nat, handle: nat, free: bool) returns (r: Option<nat>)
      requires Shown() && Quiet(w)
      modifies this, slots, files, fds
      ensures Shown() && Quiet(w) && Later(old(w), w)
      ensures (w, r) == Do(old(w), Step.HandleToFd(key, handle, free))
      ensures Serves(old(w), Step.HandleToFd(key, handle, free), r, w)
    {
      StepKeeps(w, Step.HandleToFd(key, handle, free));
      TablesServe(w, Step.HandleToFd(key, handle, free));
      hide Inv, Later, Serves;
      var p := FindGem(key, handle);
      if p.Gone? {
        return None;
      }
      var i := files[p.f].gems[p.k].buf;
      if i >= SLOTS || !slots[i].used {
        return None;
      }
      r := FdFor(i, free);
    }

    method FdToHandle(key: nat, fd: nat) returns (r: Option<nat>)
      requires Shown() && Quiet(w)
      modifies this, slots, files, fds
      ensures Shown() && Quiet(w) && Later(old(w), w)
      ensures (w, r) == Do(old(w), Step.FdToHandle(key, fd))
      ensures Serves(old(w), Step.FdToHandle(key, fd), r, w)
    {
      StepKeeps(w, Step.FdToHandle(key, fd));
      TablesServe(w, Step.FdToHandle(key, fd));
      hide Inv, Later, Serves;
      if fd >= fds.Length || fds[fd].Closed? || fds[fd].buf >= SLOTS || !slots[fds[fd].buf].used {
        return None;
      }
      r := GemFor(key, fds[fd].buf);
    }

    method DupFd(fd: nat, free: bool) returns (r: Option<nat>)
      requires Shown() && Quiet(w)
      modifies this, slots, files, fds
      ensures Shown() && Quiet(w) && Later(old(w), w)
      ensures (w, r) == Do(old(w), Step.DupFd(fd, free))
      ensures Serves(old(w), Step.DupFd(fd, free), r, w)
    {
      StepKeeps(w, Step.DupFd(fd, free));
      TablesServe(w, Step.DupFd(fd, free));
      hide Inv, Later, Serves;
      if fd >= fds.Length || fds[fd].Closed? || fds[fd].buf >= SLOTS {
        return None;
      }
      r := FdFor(fds[fd].buf, free);
    }

    method CloseFd(fd: nat) returns (r: Option<nat>)
      requires Shown() && Quiet(w)
      modifies this, slots, files, fds
      ensures Shown() && Quiet(w) && Later(old(w), w)
      ensures (w, r) == Do(old(w), Step.CloseFd(fd))
      ensures Serves(old(w), Step.CloseFd(fd), r, w)
    {
      StepKeeps(w, Step.CloseFd(fd));
      TablesServe(w, Step.CloseFd(fd));
      hide Inv, Later, Serves;
      if fd >= fds.Length || fds[fd].Closed? {
        return None;
      }
      DropFd(fd);
      return Some(0);
    }

    method CloseFile(key: nat) returns (r: Option<nat>)
      requires Shown() && Quiet(w)
      modifies this, slots, files, fds
      ensures Shown() && Quiet(w) && Later(old(w), w)
      ensures (w, r) == Do(old(w), Step.CloseFile(key))
      ensures Serves(old(w), Step.CloseFile(key), r, w)
    {
      StepKeeps(w, Step.CloseFile(key));
      TablesServe(w, Step.CloseFile(key));
      hide Inv, Later, Serves;
      var f := FindFile(key);
      if f < FILES {
        var k := 0;
        while k < GEMS
          invariant k <= GEMS && Shown() && DropGems(w, f, k) == DropGems(old(w), f, 0)
        {
          if files[f].gems[k].used {
            DropGem(f, k);
          }
          k := k + 1;
        }
        files[f] := NoFile();
        w := SetFile(w, f, NoFile());
      }
      return Some(0);
    }

    /** Where the offset of a mapped object points: physical address and size. */
    method MmapLookup(key: nat, offset: nat) returns (ok: bool, pa: nat, size: nat)
      requires Shown()
      ensures ok == RknpuDrm.MmapLookup(w, key, offset).Some?
      ensures ok ==> var b := w.slots[RknpuDrm.MmapLookup(w, key, offset).value]; pa == b.pa && size == b.size
    {
      if offset < MMAP_BASE || offset % MMAP_PAGE != 0 {
        return false, 0, 0;
      }
      var p := FindGem(key, (offset - MMAP_BASE) / MMAP_PAGE);
      if p.Gone? {
        return false, 0, 0;
      }
      var i := files[p.f].gems[p.k].buf;
      if i >= SLOTS || !slots[i].used {
        return false, 0, 0;
      }
      return true, slots[i].pa, slots[i].size;
    }
  }
}
