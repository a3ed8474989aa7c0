/**
A split virtqueue as driver/eth/virtio_net.c keeps it: the descriptor table with the
free list threaded through `next`/`flags`, the available and the used ring, and the
16-bit wrapping indices.  `Queue` is the memory; `Ledger` is the bookkeeping the proof
adds: which of the 64 descriptors the free list, an operation in progress, the
available ring, the device and the used ring own.

Every function on `Queue` is one piece of the driver (or of a device that follows
section 2.6 of VIRTIO 1.1), and `Inv` holds between any two of them.
*/
module VirtQueue {

  const NUM: nat := 64
  const U16: nat := 0x1_0000

  /** Where a descriptor points: one of the driver's own DMA buffers. */
  datatype Addr = Nowhere | TxHeader(buf: nat) | TxFrame(buf: nat) | RxBuffer(buf: nat)

  datatype Desc = Desc(addr: Addr, len: nat, hasNext: bool, write: bool, next: nat)

  datatype UsedElem = UsedElem(id: nat, len: nat)

  /** `devAvail` is the device's private copy of the available index. */
  datatype Queue = Queue(
    desc: seq<Desc>, freeHead: nat,
    availRing: seq<nat>, availIdx: nat,
    usedRing: seq<UsedElem>, usedIdx: nat, lastUsed: nat,
    devAvail: nat)

  /**
  The owner of a descriptor: a place on the free list, a driver operation in progress,
  the available ring, the device, the used ring, or the chain head in front of it.
  */
  datatype Stage = Free(pos: nat) | Held | Posted(no: nat) | InDevice | Done(no: nat) | Tail(head: nat)

  /**
  `free` is the free list as a stack (its last element is `freeHead`), `posted` the heads
  in the available ring the device has not taken yet, oldest first, `done` the used-ring
  entries the driver has not seen yet.  `popped` and `taken` count what left the front of
  the two rings.  `stage` gives every descriptor exactly one owner.
  */
  datatype Ledger = Ledger(
    free: seq<nat>, popped: nat, posted: seq<nat>, taken: nat, done: seq<UsedElem>, stage: seq<Stage>)

  // ---------------------------------------------------------------- invariant

  predicate Outstanding(s: Stage) {
    s.Posted? || s.InDevice? || s.Done?
  }

  function Next16(i: nat): nat {
    (i + 1) % U16
  }

  /** Contents of the free descriptor at place p of the stack. */
  function FreeEntry(free: seq<nat>, p: nat): Desc
    requires p < |free|
  {
    if p > 0 then Desc(Nowhere, 0, true, false, free[p - 1]) else Desc(Nowhere, 0, false, false, NUM)
  }

  ghost predicate Shape(q: Queue, l: Ledger) {
    && |q.desc| == NUM && |q.availRing| == NUM && |q.usedRing| == NUM && |l.stage| == NUM
    && q.availIdx < U16 && q.usedIdx < U16 && q.lastUsed < U16 && q.devAvail < U16
    && q.freeHead == (if l.free == [] then NUM else l.free[|l.free| - 1])
    && q.availIdx == (q.devAvail + |l.posted|) % U16
    && q.usedIdx == (q.lastUsed + |l.done|) % U16
  }

  /** A second descriptor belongs to its head and ends the chain. */
  ghost predicate LinkOk(q: Queue, l: Ledger, h: nat)
    requires Shape(q, l) && h < NUM
  {
    q.desc[h].hasNext ==>
      var t := q.desc[h].next;
      t < NUM && l.stage[t] == Tail(h) && !q.desc[t].hasNext
  }

  /** Descriptor d is where its stage says it is. */
  ghost predicate DescOk(q: Queue, l: Ledger, d: nat)
    requires Shape(q, l) && d < NUM
  {
    match l.stage[d]
    case Free(p) => p < |l.free| && l.free[p] == d && q.desc[d] == FreeEntry(l.free, p)
    case Held => true
    case Posted(k) => l.popped <= k < l.popped + |l.posted| && l.posted[k - l.popped] == d && LinkOk(q, l, d)
    case InDevice => LinkOk(q, l, d)
    case Done(k) => l.taken <= k < l.taken + |l.done| && l.done[k - l.taken].id == d && LinkOk(q, l, d)
    case Tail(h) => h < NUM && Outstanding(l.stage[h]) && q.desc[h].hasNext && q.desc[h].next == d
  }

  ghost predicate FreeAt(l: Ledger, i: nat)
    requires |l.stage| == NUM && i < |l.free|
  {
    l.free[i] < NUM && l.stage[l.free[i]] == Free(i)
  }

  ghost predicate PostedAt(l: Ledger, i: nat)
    requires |l.stage| == NUM && i < |l.posted|
  {
    l.posted[i] < NUM && l.stage[l.posted[i]] == Posted(l.popped + i)
  }

  ghost predicate DoneAt(l: Ledger, i: nat)
    requires |l.stage| == NUM && i < |l.done|
  {
    l.done[i].id < NUM && l.stage[l.done[i].id] == Done(l.taken + i)
  }

  ghost predicate SlotHolds<T>(ring: seq<T>, base: nat, s: seq<T>, i: nat)
    requires |ring| == NUM && i < |s|
  {
    ring[(base + i) % NUM] == s[i]
  }

  /** From slot `base` on, cyclically, the ring holds s. */
  ghost predicate RingHolds<T>(ring: seq<T>, base: nat, s: seq<T>) {
    |ring| == NUM && forall i: nat :: i < |s| ==> SlotHolds(ring, base, s, i)
  }

  ghost predicate Inv(q: Queue, l: Ledger) {
    && Shape(q, l)
    && (forall d: nat :: d < NUM ==> DescOk(q, l, d))
    && (forall i: nat :: i < |l.free| ==> FreeAt(l, i))
    && (forall i: nat :: i < |l.posted| ==> PostedAt(l, i))
    && (forall i: nat :: i < |l.done| ==> DoneAt(l, i))
    && RingHolds(q.availRing, q.devAvail, l.posted)
    && RingHolds(q.usedRing, q.lastUsed, l.done)
  }

  // ---------------------------------------------------------------- the code

  /** virtq_init_free */
  function InitQueue(): Queue {
    Queue(seq(NUM, i requires 0 <= i < NUM => Desc(Nowhere, 0, i + 1 < NUM, false, i + 1)), 0,
          seq(NUM, i => 0), 0, seq(NUM, i => UsedElem(0, 0)), 0, 0, 0)
  }

  /** virtq_alloc_desc; the id is -1 when the list is empty. */
  function AllocDesc(q: Queue): ((Queue, int))
    requires |q.desc| == NUM
  {
    if q.freeHead >= NUM then (q, -1 as int)
    else
      var id := q.freeHead;
      var head := if q.desc[id].hasNext then q.desc[id].next else NUM;
      (q.(freeHead := head, desc := q.desc[id := q.desc[id].(hasNext := false, write := false, next := 0)]), id as int)
  }

  /** virtq_free_desc */
  function FreeDesc(q: Queue, id: nat): Queue
    requires |q.desc| == NUM && id < NUM
  {
    q.(desc := q.desc[id := Desc(Nowhere, 0, q.freeHead < NUM, false, q.freeHead)], freeHead := id)
  }

  /** virtq_free_chain on a chain of one or two descriptors. */
  function FreeChain(q: Queue, id: nat): Queue
    requires |q.desc| == NUM && id < NUM
  {
    var d := q.desc[id];
    var freed := FreeDesc(q, id);
    if d.hasNext && d.next < NUM then FreeDesc(freed, d.next) else freed
  }

  /** The descriptor writes of eth_send and virtio_net_refill_rx. */
  function SetDesc(q: Queue, id: nat, d: Desc): Queue
    requires |q.desc| == NUM && id < NUM
  {
    q.(desc := q.desc[id := d])
  }

  /** virtq_push_avail */
  function PushAvail(q: Queue, id: nat): Queue
    requires |q.availRing| == NUM
  {
    q.(availRing := q.availRing[q.availIdx % NUM := id], availIdx := Next16(q.availIdx))
  }

  /** The device takes the oldest available head. */
  function DevicePop(q: Queue): Queue {
    q.(devAvail := Next16(q.devAvail))
  }

  /** The device returns a chain. */
  function DevicePush(q: Queue, e: UsedElem): Queue
    requires |q.usedRing| == NUM
  {
    q.(usedRing := q.usedRing[q.usedIdx % NUM := e], usedIdx := Next16(q.usedIdx))
  }

  /** The driver steps past the oldest used entry. */
  function SkipUsed(q: Queue): Queue {
    q.(lastUsed := Next16(q.lastUsed))
  }

  // ---------------------------------------------------------------- arithmetic and counting

  /** Moving the index by one, 16 bits wide, moves the slot by one. */
  lemma SlotShift(base: nat, i: nat)
    ensures (Next16(base) + i) % NUM == (base + (i + 1)) % NUM
  {
  }

  lemma IndexStep(base: nat, n: nat)
    ensures Next16((base + n) % U16) == (base + (n + 1)) % U16
  {
  }

  lemma BaseStep(base: nat, n: nat)
    ensures (Next16(base) + n) % U16 == (base + (n + 1)) % U16
  {
  }

  lemma SlotOfIndex(x: nat)
    ensures (x % U16) % NUM == x % NUM
  {
  }

  /** Writing the slot behind the last entry keeps every entry, as long as one slot is left. */
  lemma RingPush<T>(ring: seq<T>, base: nat, s: seq<T>, x: T)
    requires RingHolds(ring, base, s) && |s| < NUM
    ensures RingHolds(ring[((base + |s|) % U16) % NUM := x], base, s + [x])
  {
    SlotOfIndex(base + |s|);
    var ring' := ring[(base + |s|) % NUM := x];
    forall i: nat | i < |s + [x]|
      ensures SlotHolds(ring', base, s + [x], i)
    {
      if i < |s| {
        assert SlotHolds(ring, base, s, i);
        assert (base + i) % NUM != (base + |s|) % NUM;
      }
    }
  }

  lemma RingPop<T>(ring: seq<T>, base: nat, s: seq<T>)
    requires RingHolds(ring, base, s) && |s| > 0
    ensures ring[base % NUM] == s[0]
    ensures RingHolds(ring, Next16(base), s[1..])
  {
    assert SlotHolds(ring, base, s, 0);
    forall i: nat | i < |s[1..]|
      ensures SlotHolds(ring, Next16(base), s[1..], i)
    {
      SlotShift(base, i);
      assert SlotHolds(ring, base, s, i + 1);
    }
  }

  predicate Distinct(s: seq<nat>) {
    forall i, j :: 0 <= i < j < |s| ==> s[i] != s[j]
  }

  /** A duplicate-free sequence of numbers below n has at most n elements. */
  lemma {:induction false} AtMost(s: seq<nat>, n: nat)
    requires Distinct(s)
    requires forall i :: 0 <= i < |s| ==> s[i] < n
    ensures |s| <= n
    decreases n
  {
    if |s| > 0 {
      assert s[0] < n;
      if k :| 0 <= k < |s| && s[k] == n - 1 {
        AtMost(s[..k] + s[k + 1..], n - 1);
      } else {
        AtMost(s, n - 1);
      }
    }
  }

  /** A number below n that the sequence leaves out makes it strictly shorter. */
  lemma AtMostMissing(s: seq<nat>, n: nat, x: nat)
    requires Distinct(s)
    requires forall i :: 0 <= i < |s| ==> s[i] < n
    requires x < n && x !in s
    ensures |s| < n
  {
    AtMost(s + [x], n);
  }

  function Ids(es: seq<UsedElem>): (r: seq<nat>)
    ensures |r| == |es|
    ensures forall i :: 0 <= i < |es| ==> r[i] == es[i].id
  {
    seq(|es|, i requires 0 <= i < |es| => es[i].id)
  }

  lemma PostedDistinct(q: Queue, l: Ledger)
    requires Inv(q, l)
    ensures Distinct(l.posted) && (forall i :: 0 <= i < |l.posted| ==> l.posted[i] < NUM)
  {
    forall i: nat | i < |l.posted|
      ensures l.posted[i] < NUM
    {
      assert PostedAt(l, i);
    }
    forall i: nat, j: nat | i < j < |l.posted|
      ensures l.posted[i] != l.posted[j]
    {
      assert PostedAt(l, i) && PostedAt(l, j);
    }
  }

  lemma DoneDistinct(q: Queue, l: Ledger)
    requires Inv(q, l)
    ensures Distinct(Ids(l.done)) && (forall i :: 0 <= i < |l.done| ==> l.done[i].id < NUM)
  {
    forall i: nat | i < |l.done|
      ensures l.done[i].id < NUM
    {
      assert DoneAt(l, i);
    }
    forall i: nat, j: nat | i < j < |l.done|
      ensures l.done[i].id != l.done[j].id
    {
      assert DoneAt(l, i) && DoneAt(l, j);
    }
  }

  lemma FreeDistinct(q: Queue, l: Ledger)
    requires Inv(q, l)
    ensures Distinct(l.free) && (forall i :: 0 <= i < |l.free| ==> l.free[i] < NUM)
  {
    forall i: nat | i < |l.free|
      ensures l.free[i] < NUM
    {
      assert FreeAt(l, i);
    }
    forall i: nat, j: nat | i < j < |l.free|
      ensures l.free[i] != l.free[j]
    {
      assert FreeAt(l, i) && FreeAt(l, j);
    }
  }

  // ---------------------------------------------------------------- every step keeps the invariant

  function InitLedger(): Ledger {
    Ledger(seq(NUM, i requires 0 <= i < NUM => NUM - 1 - i), 0, [], 0, [],
           seq(NUM, i requires 0 <= i < NUM => Free(NUM - 1 - i)))
  }

  lemma InitKeeps()
    ensures Inv(InitQueue(), InitLedger())
  {
  }

  function AllocLedger(l: Ledger): Ledger {
    var n := |l.free| - 1;
    if n < 0 || l.free[n] >= |l.stage| then l
    else l.(free := l.free[..n], stage := l.stage[l.free[n] := Held])
  }

  /** Taking a descriptor pops the list; it fails exactly when the list is empty. */
  lemma AllocKeeps(q: Queue, l: Ledger)
    requires Inv(q, l)
    ensures AllocDesc(q).1 == -1 <==> l.free == []
    ensures l.free == [] ==> AllocDesc(q).0 == q
    ensures l.free != [] ==>
              FreeAt(l, |l.free| - 1) && AllocDesc(q).1 == l.free[|l.free| - 1] &&
              Inv(AllocDesc(q).0, AllocLedger(l))
  {
    if l.free != [] {
      var n := |l.free| - 1;
      assert FreeAt(l, n);
      var id := l.free[n];
      assert DescOk(q, l, id);
      if n > 0 {
        assert FreeAt(l, n - 1);
      }
      var q', l' := AllocDesc(q).0, AllocLedger(l);
      assert Shape(q', l');
      forall d: nat | d < NUM
        ensures DescOk(q', l', d)
      {
        assert DescOk(q, l, d);
      }
      forall i: nat | i < |l'.free|
        ensures FreeAt(l', i)
      {
        assert FreeAt(l, i);
      }
      RingsUnmoved(q, l, l', id);
    }
  }

  /** The ring halves of the invariant survive a change of one descriptor no ring entry names. */
  lemma RingsUnmoved(q: Queue, l: Ledger, l': Ledger, id: nat)
    requires Inv(q, l) && id < NUM && !Outstanding(l.stage[id])
    requires |l'.stage| == NUM && l'.stage == l.stage[id := l'.stage[id]]
    requires l'.posted == l.posted && l'.popped == l.popped && l'.done == l.done && l'.taken == l.taken
    ensures forall i: nat :: i < |l'.posted| ==> PostedAt(l', i)
    ensures forall i: nat :: i < |l'.done| ==> DoneAt(l', i)
  {
    forall i: nat | i < |l'.posted|
      ensures PostedAt(l', i)
    {
      assert PostedAt(l, i);
    }
    forall i: nat | i < |l'.done|
      ensures DoneAt(l', i)
    {
      assert DoneAt(l, i);
    }
  }

  function FreeLedger(l: Ledger, id: nat): Ledger
    requires id < |l.stage|
  {
    l.(free := l.free + [id], stage := l.stage[id := Free(|l.free|)])
  }

  /** Putting back a descriptor nothing else owns pushes it on the list. */
  lemma FreeKeeps(q: Queue, l: Ledger, id: nat)
    requires Inv(q, l) && id < NUM && l.stage[id].Held?
    ensures Inv(FreeDesc(q, id), FreeLedger(l, id))
  {
    var q', l' := FreeDesc(q, id), FreeLedger(l, id);
    if l.free != [] {
      assert FreeAt(l, |l.free| - 1);
    }
    assert Shape(q', l');
    forall d: nat | d < NUM
      ensures DescOk(q', l', d)
    {
      assert DescOk(q, l, d);
    }
    forall i: nat | i < |l'.free|
      ensures FreeAt(l', i)
    {
      if i < |l.free| {
        assert FreeAt(l, i);
      }
    }
    RingsUnmoved(q, l, l', id);
  }

  /** A descriptor taken off the list and put back leaves the queue bit for bit as it was. */
  lemma FailedPairRestores(q: Queue, l: Ledger)
    requires Inv(q, l) && |l.free| == 1
    ensures AllocDesc(q).1 >= 0
    ensures AllocDesc(AllocDesc(q).0).1 == -1
    ensures FreeDesc(AllocDesc(AllocDesc(q).0).0, AllocDesc(q).1) == q
  {
    AllocKeeps(q, l);
    var q1 := AllocDesc(q).0;
    AllocKeeps(q1, AllocLedger(l));
    var id := l.free[0];
    assert DescOk(q, l, id);
    assert FreeDesc(q1, id).desc == q.desc;
  }

  /** A descriptor the driver holds may be rewritten freely. */
  lemma SetDescKeeps(q: Queue, l: Ledger, id: nat, d: Desc)
    requires Inv(q, l) && id < NUM && l.stage[id].Held?
    ensures Inv(SetDesc(q, id, d), l)
  {
    var q' := SetDesc(q, id, d);
    forall x: nat | x < NUM
      ensures DescOk(q', l, x)
    {
      assert DescOk(q, l, x);
    }
    RingsUnmoved(q, l, l, id);
  }

  /** The descriptors a push hands over: the head and, with `hasNext`, the one behind it. */
  ghost predicate PushReady(q: Queue, l: Ledger, id: nat) {
    && Inv(q, l)
    && id < NUM && l.stage[id].Held?
    && (q.desc[id].hasNext ==>
          q.desc[id].next < NUM && q.desc[id].next != id &&
          l.stage[q.desc[id].next].Held? && !q.desc[q.desc[id].next].hasNext)
  }

  function PushLedger(q: Queue, l: Ledger, id: nat): Ledger
    requires id < |l.stage| && id < |q.desc| && (q.desc[id].hasNext ==> q.desc[id].next < |l.stage|)
  {
    var stage := l.stage[id := Posted(l.popped + |l.posted|)];
    l.(posted := l.posted + [id],
       stage := if q.desc[id].hasNext then stage[q.desc[id].next := Tail(id)] else stage)
  }

  lemma PushDescs(q: Queue, l: Ledger, id: nat)
    requires PushReady(q, l, id) && Shape(PushAvail(q, id), PushLedger(q, l, id))
    ensures forall d: nat :: d < NUM ==> DescOk(PushAvail(q, id), PushLedger(q, l, id), d)
  {
    var q', l' := PushAvail(q, id), PushLedger(q, l, id);
    forall d: nat | d < NUM
      ensures DescOk(q', l', d)
    {
      assert DescOk(q, l, d);
    }
  }

  lemma PushedFits(q: Queue, l: Ledger, id: nat)
    requires PushReady(q, l, id)
    ensures |l.posted| < NUM
  {
    PostedDistinct(q, l);
    forall i: nat | i < |l.posted|
      ensures l.posted[i] != id
    {
      assert PostedAt(l, i);
    }
    AtMostMissing(l.posted, NUM, id);
  }

  /** No slot of the available ring the device still has to read is overwritten. */
  lemma PushKeeps(q: Queue, l: Ledger, id: nat)
    requires PushReady(q, l, id)
    ensures Inv(PushAvail(q, id), PushLedger(q, l, id))
    ensures RingHolds(PushAvail(q, id).availRing, q.devAvail, l.posted + [id])
  {
    PushedFits(q, l, id);
    IndexStep(q.devAvail, |l.posted|);
    RingPush(q.availRing, q.devAvail, l.posted, id);
    var q', l' := PushAvail(q, id), PushLedger(q, l, id);
    PushDescs(q, l, id);
    forall i: nat | i < |l'.posted|
      ensures PostedAt(l', i)
    {
      if i < |l.posted| {
        assert PostedAt(l, i);
      }
    }
    forall i: nat | i < |l'.free|
      ensures FreeAt(l', i)
    {
      assert FreeAt(l, i);
    }
    forall i: nat | i < |l'.done|
      ensures DoneAt(l', i)
    {
      assert DoneAt(l, i);
    }
  }

  function PopLedger(l: Ledger): Ledger {
    if |l.posted| == 0 || l.posted[0] >= |l.stage| then l
    else l.(posted := l.posted[1..], popped := l.popped + 1, stage := l.stage[l.posted[0] := InDevice])
  }

  lemma PopDescs(q: Queue, l: Ledger)
    requires Inv(q, l) && l.posted != [] && l.posted[0] < NUM && Shape(DevicePop(q), PopLedger(l))
    ensures forall d: nat :: d < NUM ==> DescOk(DevicePop(q), PopLedger(l), d)
  {
    assert PostedAt(l, 0);
    forall d: nat | d < NUM
      ensures DescOk(DevicePop(q), PopLedger(l), d)
    {
      assert DescOk(q, l, d);
    }
  }

  /** The head the device reads from the ring is the oldest one pushed. */
  lemma DevicePopKeeps(q: Queue, l: Ledger)
    requires Inv(q, l) && l.posted != []
    ensures l.posted[0] < NUM && q.availRing[q.devAvail % NUM] == l.posted[0]
    ensures Inv(DevicePop(q), PopLedger(l))
  {
    assert PostedAt(l, 0);
    var q', l' := DevicePop(q), PopLedger(l);
    BaseStep(q.devAvail, |l.posted| - 1);
    RingPop(q.availRing, q.devAvail, l.posted);
    PopDescs(q, l);
    forall i: nat | i < |l'.posted|
      ensures PostedAt(l', i)
    {
      assert PostedAt(l, i + 1);
    }
    forall i: nat | i < |l'.free|
      ensures FreeAt(l', i)
    {
      assert FreeAt(l, i);
    }
    forall i: nat | i < |l'.done|
      ensures DoneAt(l', i)
    {
      assert DoneAt(l, i);
    }
  }

  /** The available ring looks empty to the device exactly when nothing is posted. */
  lemma NothingPosted(q: Queue, l: Ledger)
    requires Inv(q, l)
    ensures q.availIdx == q.devAvail <==> l.posted == []
  {
    PostedDistinct(q, l);
    AtMost(l.posted, NUM);
  }

  function DeviceDoneLedger(l: Ledger, e: UsedElem): Ledger
    requires e.id < |l.stage|
  {
    l.(done := l.done + [e], stage := l.stage[e.id := Done(l.taken + |l.done|)])
  }

  lemma DoneDescs(q: Queue, l: Ledger, e: UsedElem)
    requires Inv(q, l) && e.id < NUM && l.stage[e.id].InDevice?
    requires Shape(DevicePush(q, e), DeviceDoneLedger(l, e))
    ensures forall d: nat :: d < NUM ==> DescOk(DevicePush(q, e), DeviceDoneLedger(l, e), d)
  {
    forall d: nat | d < NUM
      ensures DescOk(DevicePush(q, e), DeviceDoneLedger(l, e), d)
    {
      assert DescOk(q, l, d);
    }
  }

  lemma DoneFits(q: Queue, l: Ledger, id: nat)
    requires Inv(q, l) && id < NUM && l.stage[id].InDevice?
    ensures |l.done| < NUM
  {
    DoneDistinct(q, l);
    forall i: nat | i < |l.done|
      ensures l.done[i].id != id
    {
      assert DoneAt(l, i);
    }
    AtMostMissing(Ids(l.done), NUM, id);
  }

  /** No used entry the driver still has to read is overwritten. */
  lemma DevicePushKeeps(q: Queue, l: Ledger, e: UsedElem)
    requires Inv(q, l) && e.id < NUM && l.stage[e.id].InDevice?
    ensures Inv(DevicePush(q, e), DeviceDoneLedger(l, e))
    ensures RingHolds(DevicePush(q, e).usedRing, q.lastUsed, l.done + [e])
  {
    DoneFits(q, l, e.id);
    IndexStep(q.lastUsed, |l.done|);
    RingPush(q.usedRing, q.lastUsed, l.done, e);
    var q', l' := DevicePush(q, e), DeviceDoneLedger(l, e);
    DoneDescs(q, l, e);
    forall i: nat | i < |l'.done|
      ensures DoneAt(l', i)
    {
      if i < |l.done| {
        assert DoneAt(l, i);
      }
    }
    forall i: nat | i < |l'.free|
      ensures FreeAt(l', i)
    {
      assert FreeAt(l, i);
    }
    forall i: nat | i < |l'.posted|
      ensures PostedAt(l', i)
    {
      assert PostedAt(l, i);
    }
  }

  /** The used ring looks empty to the driver exactly when nothing waits. */
  lemma NothingUsed(q: Queue, l: Ledger)
    requires Inv(q, l)
    ensures q.lastUsed == q.usedIdx <==> l.done == []
    ensures l.done != [] ==> l.done[0].id < NUM && q.usedRing[q.lastUsed % NUM] == l.done[0]
  {
    DoneDistinct(q, l);
    AtMost(Ids(l.done), NUM);
    if l.done != [] {
      assert DoneAt(l, 0);
      RingPop(q.usedRing, q.lastUsed, l.done);
    }
  }

  function TakeLedger(q: Queue, l: Ledger): (r: Ledger)
    ensures |r.stage| == |l.stage|
  {
    if |l.done| == 0 || l.done[0].id >= |l.stage| || l.done[0].id >= |q.desc| then l
    else
      var h := l.done[0].id;
      var stage := l.stage[h := Held];
      l.(done := l.done[1..], taken := l.taken + 1,
         stage := if q.desc[h].hasNext && q.desc[h].next < |stage| then stage[q.desc[h].next := Held] else stage)
  }

  lemma TakeDescs(q: Queue, l: Ledger)
    requires Inv(q, l) && l.done != [] && l.done[0].id < NUM
    requires Shape(SkipUsed(q), TakeLedger(q, l))
    ensures forall d: nat :: d < NUM ==> DescOk(SkipUsed(q), TakeLedger(q, l), d)
  {
    var h := l.done[0].id;
    assert DoneAt(l, 0) && DescOk(q, l, h);
    var q', l' := SkipUsed(q), TakeLedger(q, l);
    forall d: nat | d < NUM
      ensures DescOk(q', l', d)
    {
      assert DescOk(q, l, d);
    }
  }

  /** Stepping past a used entry hands the whole chain back to the driver. */
  lemma TakeKeeps(q: Queue, l: Ledger)
    requires Inv(q, l) && l.done != []
    ensures l.done[0].id < NUM && Inv(SkipUsed(q), TakeLedger(q, l))
  {
    assert DoneAt(l, 0);
    assert DescOk(q, l, l.done[0].id);
    var q', l' := SkipUsed(q), TakeLedger(q, l);
    BaseStep(q.lastUsed, |l.done| - 1);
    RingPop(q.usedRing, q.lastUsed, l.done);
    TakeDescs(q, l);
    forall i: nat | i < |l'.done|
      ensures DoneAt(l', i)
    {
      assert DoneAt(l, i + 1);
    }
    forall i: nat | i < |l'.free|
      ensures FreeAt(l', i)
    {
      assert FreeAt(l, i);
    }
    forall i: nat | i < |l'.posted|
      ensures PostedAt(l', i)
    {
      assert PostedAt(l, i);
    }
  }

  /** virtq_free_chain gives back exactly the descriptors of the chain. */
  function ReapLedger(q: Queue, l: Ledger): Ledger {
    if |l.done| == 0 || l.done[0].id >= |l.stage| || l.done[0].id >= |q.desc| then l
    else
      var h := l.done[0].id;
      var l1 := FreeLedger(TakeLedger(q, l), h);
      if q.desc[h].hasNext && q.desc[h].next < |l1.stage| then FreeLedger(l1, q.desc[h].next) else l1
  }

  lemma ReapKeeps(q: Queue, l: Ledger)
    requires Inv(q, l) && l.done != []
    ensures l.done[0].id < NUM && Inv(SkipUsed(FreeChain(q, l.done[0].id)), ReapLedger(q, l))
  {
    TakeKeeps(q, l);
    var h := l.done[0].id;
    assert DoneAt(l, 0) && DescOk(q, l, h);
    var q1, l1 := SkipUsed(q), TakeLedger(q, l);
    FreeKeeps(q1, l1, h);
    if q.desc[h].hasNext {
      FreeKeeps(FreeDesc(q1, h), FreeLedger(l1, h), q.desc[h].next);
    }
  }

  // ---------------------------------------------------------------- nothing is leaked or shared

  datatype Kind = FreeKind | HeldKind | PostedKind | DeviceKind | DoneKind | TailKind

  function KindOf(s: Stage): Kind {
    match s
    case Free(_) => FreeKind
    case Held => HeldKind
    case Posted(_) => PostedKind
    case InDevice => DeviceKind
    case Done(_) => DoneKind
    case Tail(_) => TailKind
  }

  /** The descriptors of one kind. */
  function Of(stage: seq<Stage>, k: Kind): set<nat> {
    set d: nat | d < |stage| && KindOf(stage[d]) == k
  }

  lemma OfLast(stage: seq<Stage>, last: Stage, k: Kind)
    ensures |Of(stage + [last], k)| == |Of(stage, k)| + (if KindOf(last) == k then 1 else 0)
  {
    var n, all := |stage|, stage + [last];
    assert all[n] == last && forall d: nat :: d < n ==> all[d] == stage[d];
    var whole, rest := Of(all, k), Of(stage, k);
    if KindOf(last) == k {
      assert whole == rest + {n};
    } else {
      assert whole == rest;
    }
  }

  lemma {:induction false} KindsCover(stage: seq<Stage>)
    ensures |Of(stage, FreeKind)| + |Of(stage, HeldKind)| + |Of(stage, PostedKind)| + |Of(stage, DeviceKind)|
            + |Of(stage, DoneKind)| + |Of(stage, TailKind)| == |stage|
  {
    if |stage| == 0 {
      assert forall k :: Of(stage, k) == {};
    } else {
      var rest, last := stage[..|stage| - 1], stage[|stage| - 1];
      assert stage == rest + [last];
      KindsCover(rest);
      OfLast(rest, last, FreeKind);
      OfLast(rest, last, HeldKind);
      OfLast(rest, last, PostedKind);
      OfLast(rest, last, DeviceKind);
      OfLast(rest, last, DoneKind);
      OfLast(rest, last, TailKind);
    }
  }

  /** A set listed by a duplicate-free sequence has as many elements as the sequence. */
  lemma {:induction false} ListedSize(s: seq<nat>, xs: set<nat>)
    requires Distinct(s)
    requires forall x :: x in xs ==> x in s
    requires forall i :: 0 <= i < |s| ==> s[i] in xs
    ensures |xs| == |s|
  {
    if s == [] {
      assert xs == {};
    } else {
      var n := |s| - 1;
      forall x | x in xs - {s[n]}
        ensures x in s[..n]
      {
      }
      ListedSize(s[..n], xs - {s[n]});
    }
  }

  /** Heads and second descriptors pair off when every chain has two. */
  lemma {:induction false} PairsOff(heads: set<nat>, tails: set<nat>, q: Queue)
    requires forall h :: h in heads ==> h < |q.desc| && q.desc[h].next in tails
    requires forall t :: t in tails ==> exists h :: h in heads && q.desc[h].next == t
    requires forall h, g :: h in heads && g in heads && h != g ==> q.desc[h].next != q.desc[g].next
    ensures |heads| == |tails|
    decreases heads
  {
    if heads == {} {
      assert tails == {};
    } else {
      var h :| h in heads;
      PairsOff(heads - {h}, tails - {q.desc[h].next}, q);
    }
  }

  lemma FreeListed(q: Queue, l: Ledger)
    requires Inv(q, l)
    ensures Distinct(l.free) && (forall d :: d in Of(l.stage, FreeKind) <==> d in l.free)
    ensures |Of(l.stage, FreeKind)| == |l.free|
  {
    FreeDistinct(q, l);
    forall d | d in Of(l.stage, FreeKind)
      ensures d in l.free
    {
      assert DescOk(q, l, d);
    }
    forall i: nat | i < |l.free|
      ensures l.free[i] in Of(l.stage, FreeKind)
    {
      assert FreeAt(l, i);
    }
    ListedSize(l.free, Of(l.stage, FreeKind));
  }

  lemma PostedListed(q: Queue, l: Ledger)
    requires Inv(q, l)
    ensures Distinct(l.posted) && (forall d :: d in Of(l.stage, PostedKind) <==> d in l.posted)
    ensures |Of(l.stage, PostedKind)| == |l.posted|
  {
    PostedDistinct(q, l);
    forall d | d in Of(l.stage, PostedKind)
      ensures d in l.posted
    {
      assert DescOk(q, l, d);
    }
    forall i: nat | i < |l.posted|
      ensures l.posted[i] in Of(l.stage, PostedKind)
    {
      assert PostedAt(l, i);
    }
    ListedSize(l.posted, Of(l.stage, PostedKind));
  }

  lemma DoneListed(q: Queue, l: Ledger)
    requires Inv(q, l)
    ensures Distinct(Ids(l.done)) && (forall d :: d in Of(l.stage, DoneKind) <==> d in Ids(l.done))
    ensures |Of(l.stage, DoneKind)| == |l.done|
  {
    DoneDistinct(q, l);
    forall d | d in Of(l.stage, DoneKind)
      ensures d in Ids(l.done)
    {
      assert DescOk(q, l, d);
      assert Ids(l.done)[l.stage[d].no - l.taken] == d;
    }
    forall i: nat | i < |l.done|
      ensures Ids(l.done)[i] in Of(l.stage, DoneKind)
    {
      assert DoneAt(l, i);
    }
    ListedSize(Ids(l.done), Of(l.stage, DoneKind));
  }

  /**
  Every one of the 64 descriptors has exactly one owner: the free list (each once), an
  operation in progress, or the chain of exactly one head that is in the available
  ring, in the device or in the used ring (each once).  Nothing is lost.
  */
  lemma EveryDescriptorHasOneOwner(q: Queue, l: Ledger)
    requires Inv(q, l)
    ensures Distinct(l.free) && Distinct(l.posted) && Distinct(Ids(l.done))
    ensures forall d: nat :: d < NUM ==>
              && (d in l.free <==> l.stage[d].Free?)
              && (d in l.posted <==> l.stage[d].Posted?)
              && (d in Ids(l.done) <==> l.stage[d].Done?)
              && (l.stage[d].Tail? ==>
                    var h := l.stage[d].head;
                    h < NUM && Outstanding(l.stage[h]) && q.desc[h].hasNext && q.desc[h].next == d)
    ensures |l.free| + |Of(l.stage, HeldKind)| + |l.posted| + |Of(l.stage, DeviceKind)| + |l.done|
            + |Of(l.stage, TailKind)| == NUM
  {
    FreeListed(q, l);
    PostedListed(q, l);
    DoneListed(q, l);
    KindsCover(l.stage);
    forall d: nat | d < NUM
      ensures (d in l.free <==> l.stage[d].Free?) && (d in l.posted <==> l.stage[d].Posted?)
      ensures d in Ids(l.done) <==> l.stage[d].Done?
      ensures l.stage[d].Tail? ==>
                var h := l.stage[d].head;
                h < NUM && Outstanding(l.stage[h]) && q.desc[h].hasNext && q.desc[h].next == d
    {
      assert DescOk(q, l, d);
      assert d in Of(l.stage, FreeKind) <==> l.stage[d].Free?;
      assert d in Of(l.stage, PostedKind) <==> l.stage[d].Posted?;
      assert d in Of(l.stage, DoneKind) <==> l.stage[d].Done?;
    }
  }

  function InFlight(l: Ledger): (r: set<nat>) {
    Of(l.stage, PostedKind) + Of(l.stage, DeviceKind) + Of(l.stage, DoneKind)
  }

  lemma DisjointSize(a: set<nat>, b: set<nat>, c: set<nat>)
    requires a !! b && a !! c && b !! c
    ensures |a + b + c| == |a| + |b| + |c|
  {
  }

  lemma InFlightSize(l: Ledger)
    ensures |InFlight(l)| == |Of(l.stage, PostedKind)| + |Of(l.stage, DeviceKind)| + |Of(l.stage, DoneKind)|
  {
    DisjointSize(Of(l.stage, PostedKind), Of(l.stage, DeviceKind), Of(l.stage, DoneKind));
  }

  lemma NoneOf(stage: seq<Stage>, k: Kind)
    requires forall d: nat :: d < |stage| ==> KindOf(stage[d]) != k
    ensures |Of(stage, k)| == 0
  {
    if d :| d in Of(stage, k) {
      assert false;
    }
  }

  lemma TailsMatchHeads(q: Queue, l: Ledger)
    requires Inv(q, l)
    requires forall h: nat :: h < NUM && Outstanding(l.stage[h]) ==> q.desc[h].hasNext
    ensures |InFlight(l)| == |Of(l.stage, TailKind)|
  {
    var heads, tails := InFlight(l), Of(l.stage, TailKind);
    forall h | h in heads
      ensures h < NUM && q.desc[h].next < NUM && l.stage[q.desc[h].next] == Tail(h)
      ensures q.desc[h].next in tails
    {
      assert DescOk(q, l, h);
    }
    forall t | t in tails
      ensures exists h :: h in heads && q.desc[h].next == t
    {
      assert DescOk(q, l, t);
      assert l.stage[t].head in heads;
    }
    PairsOff(heads, tails, q);
  }

  /** Two-descriptor chains, nothing held: what the list lacks is out in whole chains. */
  lemma ListAndChains(q: Queue, l: Ledger)
    requires Inv(q, l)
    requires Of(l.stage, HeldKind) == {}
    requires forall h: nat :: h < NUM && Outstanding(l.stage[h]) ==> q.desc[h].hasNext
    ensures |l.free| + 2 * |InFlight(l)| == NUM
  {
    FreeListed(q, l);
    KindsCover(l.stage);
    InFlightSize(l);
    TailsMatchHeads(q, l);
  }
}
