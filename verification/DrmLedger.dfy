/**
What the reference-counted tables stand for: which objects live, which run of pages each object and
each descriptor refers to, and nothing that counts.  Every operation is proved to do to this ledger
what its caller is told it does, and a run of pages is out exactly while something in the ledger
refers to it.
*/
module DrmLedger {

  import opened Bytes
  import opened DmaRefs
  import opened RknpuDrm

  /** A live GEM object: the open file it was created through and the run it stands for. */
  datatype Object = Object(via: nat, run: nat)

  /** `fds` gives the run an open descriptor refers to; `runs` is every run the allocator gave. */
  datatype Ledger = Ledger(objects: map<nat, Object>, fds: seq<Option<nat>>, runs: seq<Run>, nextId: nat)

  function RunOf(s: State, d: Fd): Option<nat>
    requires Sized(s)
  {
    if d.Open? && d.buf < SLOTS then Some(s.ticket[d.buf]) else None
  }

  ghost function LedgerOf(s: State): Ledger
    requires Sized(s)
  {
    Ledger(map id: nat | id < s.nextId && s.place[id].At? :: Object(s.via[id], s.names[id]),
           seq(|s.fds|, d requires 0 <= d < |s.fds| => RunOf(s, s.fds[d])), s.runs, s.nextId)
  }

  predicate Mine(l: Ledger, key: nat, id: nat) {
    id in l.objects && l.objects[id].via == key
  }

  predicate Opened(l: Ledger, fd: nat) {
    fd < |l.fds| && l.fds[fd].Some?
  }

  predicate FdLeft(l: Ledger) {
    exists d :: 0 <= d < |l.fds| && l.fds[d].None?
  }

  /** d is the lowest descriptor not in use. */
  predicate Lowest(l: Ledger, d: nat) {
    d < |l.fds| && l.fds[d].None? && forall e :: 0 <= e < d ==> l.fds[e].Some?
  }

  // ---------------------------------------------------------------- room in the tables

  predicate SlotLeft(s: State)
    requires Sized(s)
  {
    exists i :: 0 <= i < SLOTS && !s.slots[i].used
  }

  predicate Belongs(s: State, f: nat, key: nat)
    requires Sized(s) && f < FILES
  {
    s.files[f].used && s.files[f].key == key
  }

  predicate EntryIn(x: File) {
    exists k :: 0 <= k < |x.gems| && !x.gems[k].used
  }

  /** Room for one more object of open file `key`: in its table, or a table for it. */
  predicate EntryLeft(s: State, key: nat)
    requires Sized(s)
  {
    || (exists f: nat :: f < FILES && Belongs(s, f, key) && EntryIn(s.files[f]))
    || ((forall f: nat :: f < FILES ==> !Belongs(s, f, key)) && exists f :: 0 <= f < FILES && !s.files[f].used)
  }

  // ---------------------------------------------------------------- what each operation is for

  /** A descriptor for a run. */
  predicate GivesFd(l: Ledger, run: nat, free: bool, r: Option<nat>, l': Ledger) {
    if free && FdLeft(l) then
      r.Some? && Lowest(l, r.value) && l' == l.(fds := l.fds[r.value := Some(run)])
    else r == None && l' == l
  }

  /** An object for a run, found through open file `key` under an id never used before. */
  predicate GivesObject(l: Ledger, key: nat, run: nat, entry: bool, r: Option<nat>, l': Ledger) {
    if entry then
      r == Some(l.nextId) && l' == l.(objects := l.objects[l.nextId := Object(key, run)], nextId := l.nextId + 1)
    else r == None && l' == l
  }

  function Allocated(l: Ledger, pa: nat, size: nat): Ledger {
    l.(runs := l.runs + [Run(pa, RoundUp(size), size)])
  }

  /** The answer r and the ledger l' that an operation on ledger l must lead to; `slot` and `entry` say what is left. */
  ghost predicate Meets(l: Ledger, step: Step, slot: bool, entry: bool, r: Option<nat>, l': Ledger) {
    match step
    case HeapAlloc(len, pa, free, copied) =>
      if len == 0 || pa == 0 then r == None && l' == l
      else if slot && copied then GivesFd(Allocated(l, pa, len), |l.runs|, free, r, l')
      else r == None && l' == Allocated(l, pa, len)
    case MemCreate(key, size, contiguous, pa) =>
      if !contiguous || size == 0 || pa == 0 then r == None && l' == l
      else if slot then GivesObject(Allocated(l, pa, size), key, |l.runs|, entry, r, l')
      else r == None && l' == Allocated(l, pa, size)
    case MemDestroy(key, handle, obj) =>
      var id := if handle != 0 then handle else obj;
      if Mine(l, key, id) then r == Some(0) && l' == l.(objects := l.objects - {id})
      else r == None && l' == l
    case HandleToFd(key, handle, free) =>
      if Mine(l, key, handle) then GivesFd(l, l.objects[handle].run, free, r, l') else r == None && l' == l
    case FdToHandle(key, fd) =>
      if Opened(l, fd) then GivesObject(l, key, l.fds[fd].value, entry, r, l') else r == None && l' == l
    case DupFd(fd, free) =>
      if Opened(l, fd) then GivesFd(l, l.fds[fd].value, free, r, l') else r == None && l' == l
    case CloseFd(fd) =>
      if Opened(l, fd) then r == Some(0) && l' == l.(fds := l.fds[fd := None]) else r == None && l' == l
    case CloseFile(key) =>
      r == Some(0) &&
      l' == l.(objects := map id | id in l.objects && l.objects[id].via != key :: l.objects[id])
  }

  /** The open file whose table an operation may add to. */
  function KeyOf(step: Step): nat {
    match step
    case MemCreate(key, _, _, _) => key
    case FdToHandle(key, _) => key
    case _ => 0
  }

  /** Step by step the tables do what the ledger says. */
  ghost predicate Serves(s: State, step: Step, r: Option<nat>, s': State)
    requires Sized(s) && Sized(s')
  {
    Meets(LedgerOf(s), step, SlotLeft(s), EntryLeft(s, KeyOf(step)), r, LedgerOf(s'))
  }

  // ---------------------------------------------------------------- pieces of the operations

  /** Slots, hands, files and fates do not show in the ledger. */
  lemma SameLedger(s: State, s': State)
    requires Sized(s) && Sized(s')
    requires s' == s.(slots := s'.slots, files := s'.files, hands := s'.hands, fate := s'.fate)
    ensures LedgerOf(s') == LedgerOf(s)
  {
    assert LedgerOf(s').fds == LedgerOf(s).fds;
  }

  lemma PutUnseen(s: State, i: nat)
    requires Sized(s)
    ensures LedgerOf(Put(s, i)) == LedgerOf(s)
  {
    SameLedger(s, Put(s, i));
  }

  lemma DropGemEndsOne(s: State, f: nat, k: nat)
    requires Inv(s) && f < FILES && k < GEMS && s.files[f].gems[k].used
    ensures Sized(DropGem(s, f, k))
    ensures LedgerOf(DropGem(s, f, k)) ==
            LedgerOf(s).(objects := LedgerOf(s).objects - {s.files[f].gems[k].id})
  {
    assert GemOk(s, f, k);
    var s' := UnplaceGem(s, f, k);
    PutUnseen(s', s.files[f].gems[k].buf);
    assert LedgerOf(s').objects == LedgerOf(s).objects - {s.files[f].gems[k].id};
    assert LedgerOf(s').fds == LedgerOf(s).fds;
  }

  lemma AddGemGivesObject(s: State, f: nat, k: nat, i: nat)
    requires Sized(s) && f < FILES && k < GEMS && i < SLOTS
    ensures Sized(AddGem(s, f, k, i))
    ensures GivesObject(LedgerOf(s), s.files[f].key, s.ticket[i], true, Some(s.nextId), LedgerOf(AddGem(s, f, k, i)))
  {
    var s' := PlaceGem(s, f, k, i);
    SameLedger(s', Get(s', i));
    assert LedgerOf(s').objects == LedgerOf(s).objects[s.nextId := Object(s.files[f].key, s.ticket[i])];
    assert LedgerOf(s').fds == LedgerOf(s).fds;
  }

  lemma SetFdShows(s: State, d: nat, x: Fd)
    requires Sized(s) && d < |s.fds|
    ensures Sized(s.(fds := s.fds[d := x]))
    ensures LedgerOf(s.(fds := s.fds[d := x])) == LedgerOf(s).(fds := LedgerOf(s).fds[d := RunOf(s, x)])
  {
    var s' := s.(fds := s.fds[d := x]);
    assert LedgerOf(s').objects == LedgerOf(s).objects;
    assert LedgerOf(s').fds == LedgerOf(s).fds[d := RunOf(s, x)];
  }

  lemma AllocShows(s: State, pa: nat, size: nat)
    requires Inv(s) && size > 0 && pa > 0
    ensures AllocBuf(s, pa, size).1.Some? <==> SlotLeft(s)
    ensures LedgerOf(AllocBuf(s, pa, size).0) == Allocated(LedgerOf(s), pa, size)
    ensures AllocBuf(s, pa, size).0.files == s.files
    ensures AllocBuf(s, pa, size).1.Some? ==> AllocBuf(s, pa, size).0.ticket[AllocBuf(s, pa, size).1.value] == |s.runs|
  {
    var s' := AllocBuf(s, pa, size).0;
    var i := First(s.slots, FreeSlot);
    assert i < SLOTS ==> !s.slots[i].used;
    assert i == SLOTS ==> forall j :: 0 <= j < SLOTS ==> s.slots[j].used by {
      assert i == SLOTS ==> forall j :: 0 <= j < SLOTS ==> !FreeSlot(s.slots[j]);
    }
    forall d: nat | d < |s.fds|
      ensures RunOf(s', s'.fds[d]) == RunOf(s, s.fds[d])
    {
      assert FdOk(s, d);
    }
    assert LedgerOf(s').objects == LedgerOf(s).objects;
    assert LedgerOf(s').fds == LedgerOf(s).fds;
  }

  /** A descriptor for slot i is one for the run in it. */
  lemma FdForShows(s: State, i: nat, free: bool)
    requires Inv(s) && i < SLOTS
    ensures GivesFd(LedgerOf(s), s.ticket[i], free, FdFor(s, i, free).1, LedgerOf(FdFor(s, i, free).0))
  {
    var d := First(s.fds, FreeFd);
    var l := LedgerOf(s);
    forall e: nat | e < |s.fds|
      ensures l.fds[e].None? <==> FreeFd(s.fds[e])
    {
      assert FdOk(s, e);
    }
    if d < |s.fds| {
      assert l.fds[d].None?;
      var s' := s.(fds := s.fds[d := Open(i)]);
      SetFdShows(s, d, Open(i));
      SameLedger(s', Get(s', i));
    }
  }

  /** An object for slot i in the table of an open file stands for the run in it. */
  lemma GemForShows(s: State, key: nat, i: nat)
    requires Inv(s) && i < SLOTS && s.slots[i].used
    ensures GivesObject(LedgerOf(s), key, s.ticket[i], EntryLeft(s, key), GemFor(s, key, i).1,
                        LedgerOf(GemFor(s, key, i).0))
  {
    FileForKeeps(s, key);
    var (s1, f) := FileFor(s, key);
    SameLedger(s, s1);
    EntryIsFound(s, key);
    if f.Some? {
      var k := First(s1.files[f.value].gems, FreeGem);
      if k < GEMS {
        AddGemGivesObject(s1, f.value, k, i);
      }
    }
  }

  lemma EntryIsFound(s: State, key: nat)
    requires Inv(s)
    ensures var (s1, f) := FileFor(s, key);
            f.Some? && First(s1.files[f.value].gems, FreeGem) < GEMS <==> EntryLeft(s, key)
  {
    var f := First(s.files, HasKey(key));
    var g := First(s.files, FreeFile);
    forall j: nat | j < FILES
      ensures HasKey(key)(s.files[j]) <==> Belongs(s, j, key)
      ensures FreeFile(s.files[j]) <==> !s.files[j].used
    {
    }
    if f < FILES {
      assert Belongs(s, f, key);
      forall j: nat | j < FILES && Belongs(s, j, key)
        ensures j == f
      {
        assert FilesApart(s, f, j);
      }
      FirstFreeGem(s.files[f]);
    } else if g < FILES {
      FirstFreeGem(NoFile().(used := true, key := key));
      assert !NoFile().gems[0].used;
    }
  }

  lemma SameEntries(s: State, s': State, key: nat)
    requires Sized(s) && Sized(s') && s'.files == s.files
    ensures EntryLeft(s', key) == EntryLeft(s, key)
  {
    assert forall f: nat :: f < FILES ==> Belongs(s', f, key) == Belongs(s, f, key);
  }

  lemma FirstFreeGem(x: File)
    requires |x.gems| == GEMS
    ensures First(x.gems, FreeGem) < GEMS <==> EntryIn(x)
  {
    assert forall k :: 0 <= k < GEMS ==> (FreeGem(x.gems[k]) <==> !x.gems[k].used);
  }

  /** A lookup through the tables is one in the ledger. */
  lemma FoundIsMine(s: State, key: nat, id: nat)
    requires Quiet(s)
    ensures FindGem(s, key, id).At? <==> Mine(LedgerOf(s), key, id)
    ensures FindGem(s, key, id).At? ==>
              var g := s.files[FindGem(s, key, id).f].gems[FindGem(s, key, id).k];
              && g.id == id && g.buf < SLOTS && s.slots[g.buf].used
              && LedgerOf(s).objects[id].run == s.ticket[g.buf]
  {
    FoundIffMine(s, key, id);
    var p := FindGem(s, key, id);
    if p.At? {
      assert GemOk(s, p.f, p.k) && PlaceOk(s, id);
    }
  }

  // ---------------------------------------------------------------- the operations

  lemma HeapAllocServes(s: State, len: nat, pa: nat, free: bool, copied: bool)
    requires Quiet(s) && (pa != 0 ==> FreshRun(s, pa, len))
    ensures var r := DoHeapAlloc(s, len, pa, free, copied);
            Serves(s, HeapAlloc(len, pa, free, copied), r.1, r.0)
  {
    if len > 0 && pa > 0 {
      AllocBufKeeps(s, pa, len);
      AllocShows(s, pa, len);
      var (s1, b) := AllocBuf(s, pa, len);
      hide Inv, Rest, LedgerOf, FreshRun, AllocBuf, FdFor, DropHand, DropFd;
      if b.Some? {
        HeapFdShows(s1, b.value, free);
      }
    }
  }

  /** The descriptor of a new buffer, once its creator has let go, and what taking it back leaves. */
  lemma HeapFdShows(s: State, i: nat, free: bool)
    requires Inv(s) && i < SLOTS && |s.hands| > 0
    ensures var (s2, d) := FdFor(s, i, free);
            var s3 := DropHand(s2);
            && Sized(s3) && s3.fds == s2.fds && GivesFd(LedgerOf(s), s.ticket[i], free, d, LedgerOf(s3))
            && (d.Some? ==> Sized(DropFd(s3, d.value)) && LedgerOf(DropFd(s3, d.value)) == LedgerOf(s))
  {
    FdForShows(s, i, free);
    var (s2, d) := FdFor(s, i, free);
    HandUnseen(s2);
    hide Inv, LedgerOf, DropHand, DropFd;
    if d.Some? {
      FdTakenBack(s, DropHand(s2), d.value);
    }
  }

  lemma HandUnseen(s: State)
    requires Sized(s) && |s.hands| > 0
    ensures Sized(DropHand(s)) && LedgerOf(DropHand(s)) == LedgerOf(s) && DropHand(s).fds == s.fds
  {
    SameLedger(s, DropHand(s));
  }

  lemma FdTakenBack(s: State, s': State, d: nat)
    requires Sized(s) && Sized(s') && Lowest(LedgerOf(s), d) && d < |s'.fds| && s'.fds[d].Open?
    requires LedgerOf(s') == LedgerOf(s).(fds := LedgerOf(s').fds)
    requires LedgerOf(s').fds == LedgerOf(s).fds[d := LedgerOf(s').fds[d]]
    ensures Sized(DropFd(s', d)) && LedgerOf(DropFd(s', d)) == LedgerOf(s)
  {
    SetFdShows(s', d, Closed);
    PutUnseen(s'.(fds := s'.fds[d := Closed]), s'.fds[d].buf);
    assert LedgerOf(DropFd(s', d)).fds == LedgerOf(s).fds;
  }

  lemma MemCreateServes(s: State, key: nat, size: nat, contiguous: bool, pa: nat)
    requires Quiet(s) && (pa != 0 ==> FreshRun(s, pa, size))
    ensures var r := DoMemCreate(s, key, size, contiguous, pa);
            Serves(s, MemCreate(key, size, contiguous, pa), r.1, r.0)
  {
    if contiguous && size > 0 && pa > 0 {
      AllocBufKeeps(s, pa, size);
      AllocShows(s, pa, size);
      var (s1, b) := AllocBuf(s, pa, size);
      if b.Some? {
        hide Inv, Rest, LedgerOf, FreshRun, GemFor, AllocBuf;
        SameEntries(s, s1, key);
        GemForShows(s1, key, b.value);
        HandUnseen(GemFor(s1, key, b.value).0);
      }
    }
  }

  lemma MemDestroyServes(s: State, key: nat, handle: nat, obj: nat)
    requires Quiet(s)
    ensures var r := DoMemDestroy(s, key, handle, obj);
            Serves(s, MemDestroy(key, handle, obj), r.1, r.0)
  {
    var id := if handle != 0 then handle else obj;
    var p := FindGem(s, key, id);
    FoundIsMine(s, key, id);
    if p.At? {
      DropGemEndsOne(s, p.f, p.k);
    }
  }

  lemma HandleToFdServes(s: State, key: nat, handle: nat, free: bool)
    requires Quiet(s)
    ensures var r := DoHandleToFd(s, key, handle, free);
            Serves(s, HandleToFd(key, handle, free), r.1, r.0)
  {
    var p := FindGem(s, key, handle);
    FoundIsMine(s, key, handle);
    if p.At? {
      FdForShows(s, s.files[p.f].gems[p.k].buf, free);
    }
  }

  lemma FdToHandleServes(s: State, key: nat, fd: nat)
    requires Quiet(s)
    ensures Serves(s, FdToHandle(key, fd), DoFdToHandle(s, key, fd).1, DoFdToHandle(s, key, fd).0)
  {
    if fd < |s.fds| && s.fds[fd].Open? {
      assert FdOk(s, fd);
      GemForShows(s, key, s.fds[fd].buf);
    }
  }

  lemma DupFdServes(s: State, fd: nat, free: bool)
    requires Quiet(s)
    ensures Serves(s, DupFd(fd, free), DoDupFd(s, fd, free).1, DoDupFd(s, fd, free).0)
  {
    if fd < |s.fds| && s.fds[fd].Open? {
      assert FdOk(s, fd);
      FdForShows(s, s.fds[fd].buf, free);
    }
  }

  lemma CloseFdServes(s: State, fd: nat)
    requires Quiet(s)
    ensures Serves(s, CloseFd(fd), DoCloseFd(s, fd).1, DoCloseFd(s, fd).0)
  {
    if fd < |s.fds| && s.fds[fd].Open? {
      assert FdOk(s, fd);
      SetFdShows(s, fd, Closed);
      PutUnseen(s.(fds := s.fds[fd := Closed]), s.fds[fd].buf);
    }
  }

  lemma CloseFileServes(s: State, key: nat)
    requires Quiet(s)
    ensures Serves(s, CloseFile(key), DoCloseFile(s, key).1, DoCloseFile(s, key).0)
  {
    var s' := DoCloseFile(s, key).0;
    var f := First(s.files, HasKey(key));
    if f < FILES {
      DropGemsUnseen(s, f, 0);
      assert LedgerOf(s').fds == LedgerOf(s).fds;
    }
    forall id: nat | id < s.nextId
      ensures id < |s'.place| && s'.place[id] == if s.via[id] == key then Gone else s.place[id]
    {
      CloseEndsExactlyItsObjects(s, key, id);
    }
    var l := LedgerOf(s);
    assert LedgerOf(s').objects == map id | id in l.objects && l.objects[id].via != key :: l.objects[id];
  }

  lemma {:induction false} DropGemsUnseen(s: State, f: nat, k: nat)
    requires Sized(s) && f < FILES && k <= GEMS
    ensures var s' := DropGems(s, f, k);
            && s'.nextId == s.nextId && s'.via == s.via && s'.names == s.names
            && s'.fds == s.fds && s'.ticket == s.ticket && s'.runs == s.runs
    decreases GEMS - k
  {
    if k < GEMS && s.files[f].gems[k].used {
      DropGemsUnseen(DropGem(s, f, k), f, k + 1);
    } else if k < GEMS {
      DropGemsUnseen(s, f, k + 1);
    }
  }

  /** Every operation does to the ledger exactly what it is for, whatever the tables look like. */
  lemma TablesServe(s: State, step: Step)
    requires Quiet(s) && Allowed(s, step)
    ensures Serves(s, step, Do(s, step).1, Do(s, step).0)
  {
    hide Serves, Quiet, FreshRun;
    match step
    case HeapAlloc(len, pa, free, copied) => HeapAllocServes(s, len, pa, free, copied);
    case MemCreate(key, size, contiguous, pa) => MemCreateServes(s, key, size, contiguous, pa);
    case MemDestroy(key, handle, obj) => MemDestroyServes(s, key, handle, obj);
    case HandleToFd(key, handle, free) => HandleToFdServes(s, key, handle, free);
    case FdToHandle(key, fd) => FdToHandleServes(s, key, fd);
    case DupFd(fd, free) => DupFdServes(s, fd, free);
    case CloseFd(fd) => CloseFdServes(s, fd);
    case CloseFile(key) => CloseFileServes(s, key);
  }

  // ---------------------------------------------------------------- when pages are out

  /** Something in the ledger refers to run t. */
  predicate Referred(l: Ledger, t: nat) {
    (exists id :: id in l.objects && l.objects[id].run == t) || Some(t) in l.fds
  }

  lemma {:induction false} GemHolder(gems: seq<Gem>, i: nat) returns (k: nat)
    requires GemCount(gems, i) > 0
    ensures k < |gems| && gems[k].used && gems[k].buf == i
    decreases |gems|
  {
    if GemWeight(gems[0], i) > 0 {
      k := 0;
    } else {
      k := GemHolder(gems[1..], i);
      k := k + 1;
    }
  }

  lemma {:induction false} FileHolder(files: seq<File>, i: nat) returns (f: nat, k: nat)
    requires FileCount(files, i) > 0
    ensures f < |files| && k < |files[f].gems| && files[f].gems[k].used && files[f].gems[k].buf == i
    decreases |files|
  {
    if GemCount(files[0].gems, i) > 0 {
      f := 0;
      k := GemHolder(files[0].gems, i);
    } else {
      f, k := FileHolder(files[1..], i);
      f := f + 1;
    }
  }

  lemma {:induction false} FdHolder(fds: seq<Fd>, i: nat) returns (d: nat)
    requires FdCount(fds, i) > 0
    ensures d < |fds| && fds[d] == Open(i)
    decreases |fds|
  {
    if FdWeight(fds[0], i) > 0 {
      d := 0;
    } else {
      d := FdHolder(fds[1..], i);
      d := d + 1;
    }
  }

  /** A run of pages has not gone back to the allocator exactly while an object or a descriptor refers to it. */
  lemma OutWhileReferred(s: State, t: nat)
    requires Quiet(s) && t < |s.fate|
    ensures s.fate[t].InSlot? <==> Referred(LedgerOf(s), t)
  {
    var l := LedgerOf(s);
    if s.fate[t].InSlot? {
      assert FateOk(s, t);
      var i := s.fate[t].i;
      assert SlotOk(s, i);
      if FileCount(s.files, i) > 0 {
        var f, k := FileHolder(s.files, i);
        assert GemOk(s, f, k);
        assert s.files[f].gems[k].id in l.objects;
      } else {
        var d := FdHolder(s.fds, i);
        assert l.fds[d] == Some(t);
      }
    }
    if exists id :: id in l.objects && l.objects[id].run == t {
      var id :| id in l.objects && l.objects[id].run == t;
      var p := s.place[id];
      assert PlaceOk(s, id) && GemOk(s, p.f, p.k) && SlotOk(s, s.files[p.f].gems[p.k].buf);
    }
    if Some(t) in l.fds {
      var d :| 0 <= d < |l.fds| && l.fds[d] == Some(t);
      assert FdOk(s, d) && SlotOk(s, s.fds[d].buf);
    }
  }

  /** The two together over whole runs. */
  lemma RunsServe(ws: seq<State>, steps: seq<Step>, fds: nat, n: nat)
    requires IsRun(ws, steps, fds) && n < |ws|
    ensures Sized(ws[n]) && forall t: nat :: t < |ws[n].fate| ==>
              (ws[n].fate[t].InSlot? <==> Referred(LedgerOf(ws[n]), t))
    ensures n < |steps| ==> Sized(ws[n + 1]) && Serves(ws[n], steps[n], Do(ws[n], steps[n]).1, ws[n + 1])
  {
    RunKeeps(ws, steps, fds, n, n);
    hide Inv, Serves, LedgerOf, Referred, Do;
    forall t: nat | t < |ws[n].fate|
      ensures ws[n].fate[t].InSlot? <==> Referred(LedgerOf(ws[n]), t)
    {
      OutWhileReferred(ws[n], t);
    }
    if n < |steps| {
      assert IsStep(ws[n], steps[n], ws[n + 1]);
      TablesServe(ws[n], steps[n]);
    }
  }
}
