/**
The receive half of driver/eth/virtio_net.c: 64 one-descriptor chains, each with its own
buffer, refilled as soon as a packet has been read.  `stored` is what the device has stored
for each chain it holds, by the device's own account; `arrived` lists the packets it
returned, in the order of the used ring.  The device knows a buffer only by its descriptor.
*/
module VirtioRx {
  import opened Bytes
  import opened VirtQueue

  const HDR_LEN: nat := 10
  /** sizeof(virtio_net_buf_t): 10 + 2048 bytes, rounded up to the alignment of 16. */
  const RX_BUF_LEN: nat := 2064

  datatype Rx = Rx(
    q: Queue, l: Ledger, bufs: seq<seq<Byte>>, stored: seq<seq<Byte>>, arrived: seq<seq<Byte>>)

  predicate Sized(w: Rx) {
    && |w.q.desc| == NUM && |w.q.availRing| == NUM && |w.q.usedRing| == NUM
    && |w.l.stage| == NUM && |w.bufs| == NUM && |w.stored| == NUM
    && (forall b :: 0 <= b < NUM ==> |w.bufs[b]| == RX_BUF_LEN)
  }

  // ---------------------------------------------------------------- invariant

  function RxDesc(id: nat): Desc {
    Desc(RxBuffer(id), RX_BUF_LEN, false, true, 0)
  }

  ghost predicate HeadOk(w: Rx, h: nat)
    requires Sized(w) && h < NUM
  {
    && !w.l.stage[h].Tail?
    && (Outstanding(w.l.stage[h]) ==> w.q.desc[h] == RxDesc(h))
  }

  /** The i-th waiting used entry describes the bytes that arrived, still in their buffer. */
  ghost predicate ArrivedAt(w: Rx, i: nat)
    requires Sized(w) && i < |w.l.done|
  {
    var e := w.l.done[i];
    && e.id < NUM && e.len <= RX_BUF_LEN
    && w.l.taken + i < |w.arrived|
    && w.bufs[e.id][..e.len] == w.arrived[w.l.taken + i]
  }

  /** The packet of a chain the device holds is at the front of that chain's own buffer. */
  ghost predicate StoredAt(w: Rx, h: nat)
    requires Sized(w) && h < NUM
  {
    w.l.stage[h].InDevice? ==> |w.stored[h]| <= RX_BUF_LEN && w.bufs[h][..|w.stored[h]|] == w.stored[h]
  }

  ghost predicate RxInv(w: Rx) {
    && Sized(w)
    && Inv(w.q, w.l)
    && |w.arrived| == w.l.taken + |w.l.done|
    && (forall h: nat :: h < NUM ==> HeadOk(w, h))
    && (forall i: nat :: i < |w.l.done| ==> ArrivedAt(w, i))
    && (forall h: nat :: h < NUM ==> StoredAt(w, h))
  }

  // ---------------------------------------------------------------- driver and device work

  function InitRx(bufs: seq<seq<Byte>>): Rx {
    Rx(InitQueue(), InitLedger(), bufs, seq(NUM, _ => []), [])
  }

  function Alloc(w: Rx): Rx
    requires Sized(w)
  {
    w.(q := AllocDesc(w.q).0, l := AllocLedger(w.l))
  }

  /** memset of the buffer and the writes to its descriptor. */
  function Prepare(w: Rx, id: nat): Rx
    requires Sized(w) && id < NUM
  {
    w.(bufs := w.bufs[id := Zeros(RX_BUF_LEN)], q := SetDesc(w.q, id, RxDesc(id)))
  }

  /** The slot write and index increment of virtio_net_refill_rx. */
  function Post(w: Rx, id: nat): Rx
    requires Sized(w) && id < NUM && (w.q.desc[id].hasNext ==> w.q.desc[id].next < NUM)
  {
    w.(q := PushAvail(w.q, id), l := PushLedger(w.q, w.l, id))
  }

  /** eth_recv steps past the oldest used entry. */
  function Take(w: Rx): Rx
    requires Sized(w)
  {
    w.(q := SkipUsed(w.q), l := TakeLedger(w.q, w.l))
  }

  function GiveBack(w: Rx, id: nat): Rx
    requires Sized(w) && id < NUM
  {
    w.(q := FreeDesc(w.q, id), l := FreeLedger(w.l, id))
  }

  /** The device takes the oldest chain; it has stored nothing in it yet. */
  function Consume(w: Rx): Rx
    requires Sized(w) && w.q.availRing[w.q.devAvail % NUM] < NUM
  {
    w.(q := DevicePop(w.q), l := PopLedger(w.l), stored := w.stored[w.q.availRing[w.q.devAvail % NUM] := []])
  }

  /** The device may store a packet through a descriptor: a buffer to write to, of at least that length. */
  predicate Takes(d: Desc, packet: seq<Byte>) {
    d.addr.RxBuffer? && d.addr.buf < NUM && d.write && |packet| <= d.len <= RX_BUF_LEN
  }

  /** It stores the packet where the descriptor of the chain says. */
  function Store(w: Rx, id: nat, packet: seq<Byte>): Rx
    requires Sized(w) && id < NUM && Takes(w.q.desc[id], packet)
  {
    var b := w.q.desc[id].addr.buf;
    w.(bufs := w.bufs[b := packet + w.bufs[b][|packet|..]], stored := w.stored[id := packet])
  }

  /** It returns a chain it holds, with the length of what it stored. */
  function Complete(w: Rx, id: nat): Rx
    requires Sized(w) && id < NUM
  {
    var e := UsedElem(id, |w.stored[id]|);
    w.(q := DevicePush(w.q, e), l := DeviceDoneLedger(w.l, e), arrived := w.arrived + [w.stored[id]])
  }

  // ---------------------------------------------------------------- every piece keeps the invariant

  lemma InitRxKeeps(bufs: seq<seq<Byte>>)
    requires Sized(InitRx(bufs))
    ensures RxInv(InitRx(bufs))
  {
    InitKeeps();
    var w := InitRx(bufs);
    forall h: nat | h < NUM
      ensures HeadOk(w, h)
    {
    }
  }

  /** Work on descriptors and buffers that no outstanding head uses moves nothing else. */
  lemma RestUnmoved(w: Rx, w': Rx)
    requires RxInv(w) && Sized(w') && Inv(w'.q, w'.l)
    requires w'.arrived == w.arrived && w'.l.done == w.l.done && w'.l.taken == w.l.taken
    requires forall h: nat :: h < NUM ==> !w'.l.stage[h].Tail?
    requires forall h: nat :: h < NUM && Outstanding(w'.l.stage[h]) ==>
               w'.q.desc[h] == w.q.desc[h] && (Outstanding(w.l.stage[h]) || w.q.desc[h] == RxDesc(h))
    requires forall h: nat :: h < NUM && w.l.stage[h].Done? ==> w'.bufs[h] == w.bufs[h]
    requires forall h: nat :: h < NUM && w'.l.stage[h].InDevice? ==>
               (w.l.stage[h].InDevice? && w'.bufs[h] == w.bufs[h] && w'.stored[h] == w.stored[h]) ||
               (|w'.stored[h]| <= RX_BUF_LEN && w'.bufs[h][..|w'.stored[h]|] == w'.stored[h])
    ensures RxInv(w')
  {
    forall h: nat | h < NUM
      ensures StoredAt(w', h)
    {
      assert StoredAt(w, h);
    }
    forall h: nat | h < NUM
      ensures HeadOk(w', h)
    {
      assert HeadOk(w, h);
    }
    forall i: nat | i < |w'.l.done|
      ensures ArrivedAt(w', i)
    {
      assert ArrivedAt(w, i) && DoneAt(w.l, i);
    }
  }

  lemma NoTails(w: Rx)
    requires RxInv(w)
    ensures forall h: nat :: h < NUM ==> !w.l.stage[h].Tail?
    ensures forall h: nat :: h < NUM && Outstanding(w.l.stage[h]) ==> w.q.desc[h] == RxDesc(h)
  {
    forall h: nat | h < NUM
      ensures !w.l.stage[h].Tail? && (Outstanding(w.l.stage[h]) ==> w.q.desc[h] == RxDesc(h))
    {
      assert HeadOk(w, h);
    }
  }

  lemma AllocRxKeeps(w: Rx)
    requires RxInv(w)
    ensures RxInv(Alloc(w))
  {
    AllocKeeps(w.q, w.l);
    NoTails(w);
    if w.l.free != [] {
      RestUnmoved(w, Alloc(w));
    } else {
      assert Alloc(w) == w;
    }
  }

  lemma PrepareKeeps(w: Rx, id: nat)
    requires RxInv(w) && id < NUM && w.l.stage[id].Held?
    ensures RxInv(Prepare(w, id))
  {
    SetDescKeeps(w.q, w.l, id, RxDesc(id));
    NoTails(w);
    RestUnmoved(w, Prepare(w, id));
  }

  lemma PostKeeps(w: Rx, id: nat)
    requires RxInv(w) && id < NUM && w.l.stage[id].Held? && w.q.desc[id] == RxDesc(id)
    ensures RxInv(Post(w, id))
  {
    PushKeeps(w.q, w.l, id);
    NoTails(w);
    RestUnmoved(w, Post(w, id));
  }

  lemma GiveBackKeeps(w: Rx, id: nat)
    requires RxInv(w) && id < NUM && w.l.stage[id].Held?
    ensures RxInv(GiveBack(w, id))
  {
    FreeKeeps(w.q, w.l, id);
    NoTails(w);
    RestUnmoved(w, GiveBack(w, id));
  }

  /** The entry and the buffer the driver reads are the next arrival, byte for byte. */
  lemma NextArrival(w: Rx)
    requires RxInv(w) && w.q.lastUsed != w.q.usedIdx
    ensures w.l.done != [] && w.q.usedRing[w.q.lastUsed % NUM] == w.l.done[0]
    ensures w.l.done[0].id < NUM && w.l.done[0].len <= RX_BUF_LEN && w.l.stage[w.l.done[0].id].Done?
    ensures w.l.taken < |w.arrived| && w.bufs[w.l.done[0].id][..w.l.done[0].len] == w.arrived[w.l.taken]
  {
    NothingUsed(w.q, w.l);
    assert ArrivedAt(w, 0) && DoneAt(w.l, 0);
  }

  lemma TakeRxKeeps(w: Rx)
    requires RxInv(w) && w.q.lastUsed != w.q.usedIdx
    ensures RxInv(Take(w)) && Take(w).l.taken == w.l.taken + 1
    ensures w.l.done != [] && w.l.done[0].id < NUM && Take(w).l.stage[w.l.done[0].id].Held?
  {
    NextArrival(w);
    TakeKeeps(w.q, w.l);
    NoTails(w);
    var w' := Take(w);
    forall h: nat | h < NUM
      ensures HeadOk(w', h)
    {
      assert HeadOk(w, h);
    }
    forall i: nat | i < |w'.l.done|
      ensures ArrivedAt(w', i)
    {
      assert ArrivedAt(w, i + 1);
    }
    forall h: nat | h < NUM
      ensures StoredAt(w', h)
    {
      assert StoredAt(w, h);
    }
  }

  lemma ConsumeRxKeeps(w: Rx)
    requires RxInv(w) && w.q.availIdx != w.q.devAvail
    ensures w.q.availRing[w.q.devAvail % NUM] < NUM && RxInv(Consume(w))
  {
    NothingPosted(w.q, w.l);
    DevicePopKeeps(w.q, w.l);
    assert PostedAt(w.l, 0);
    NoTails(w);
    RestUnmoved(w, Consume(w));
  }

  /** Every chain the device holds takes every packet that fits a driver buffer. */
  lemma BuffersTakePackets(w: Rx, h: nat, packet: seq<Byte>)
    requires RxInv(w) && h < NUM && Outstanding(w.l.stage[h])
    ensures Takes(w.q.desc[h], packet) <==> |packet| <= RX_BUF_LEN
  {
    assert HeadOk(w, h);
  }

  lemma StoreKeeps(w: Rx, id: nat, packet: seq<Byte>)
    requires RxInv(w) && id < NUM && w.l.stage[id].InDevice? && Takes(w.q.desc[id], packet)
    ensures RxInv(Store(w, id, packet))
  {
    NoTails(w);
    var w' := Store(w, id, packet);
    assert w'.bufs[id][..|packet|] == packet;
    RestUnmoved(w, w');
  }

  lemma CompleteRxKeeps(w: Rx, id: nat)
    requires RxInv(w) && id < NUM && w.l.stage[id].InDevice?
    ensures RxInv(Complete(w, id))
  {
    assert StoredAt(w, id);
    DevicePushKeeps(w.q, w.l, UsedElem(id, |w.stored[id]|));
    NoTails(w);
    var w' := Complete(w, id);
    forall h: nat | h < NUM
      ensures HeadOk(w', h) && StoredAt(w', h)
    {
      assert HeadOk(w, h) && StoredAt(w, h);
    }
    forall i: nat | i < |w'.l.done|
      ensures ArrivedAt(w', i)
    {
      if i < |w.l.done| {
        assert ArrivedAt(w, i);
      }
    }
  }

  // ---------------------------------------------------------------- whole runs

  datatype Step =
    | AllocStep | PrepareStep(id: nat) | PostStep(id: nat) | TakeStep | GiveBackStep(id: nat)
    | ConsumeStep | StoreStep(id: nat, packet: seq<Byte>) | CompleteStep(id: nat)

  ghost predicate Enabled(w: Rx, s: Step) {
    Sized(w) &&
    match s
    case AllocStep => true
    case PrepareStep(id) => id < NUM && w.l.stage[id].Held?
    case PostStep(id) => id < NUM && w.l.stage[id].Held? && w.q.desc[id] == RxDesc(id)
    case TakeStep => w.q.lastUsed != w.q.usedIdx
    case GiveBackStep(id) => id < NUM && w.l.stage[id].Held?
    case ConsumeStep => w.q.availIdx != w.q.devAvail && w.q.availRing[w.q.devAvail % NUM] < NUM
    case StoreStep(id, packet) => id < NUM && w.l.stage[id].InDevice? && Takes(w.q.desc[id], packet)
    case CompleteStep(id) => id < NUM && w.l.stage[id].InDevice?
  }

  ghost function After(w: Rx, s: Step): Rx
    requires Enabled(w, s)
  {
    match s
    case AllocStep => Alloc(w)
    case PrepareStep(id) => Prepare(w, id)
    case PostStep(id) => Post(w, id)
    case TakeStep => Take(w)
    case GiveBackStep(id) => GiveBack(w, id)
    case ConsumeStep => Consume(w)
    case StoreStep(id, packet) => Store(w, id, packet)
    case CompleteStep(id) => Complete(w, id)
  }

  lemma StepKeeps(w: Rx, s: Step)
    requires RxInv(w) && Enabled(w, s)
    ensures RxInv(After(w, s))
  {
    match s
    case AllocStep => AllocRxKeeps(w);
    case PrepareStep(id) => PrepareKeeps(w, id);
    case PostStep(id) => PostKeeps(w, id);
    case TakeStep => TakeRxKeeps(w);
    case GiveBackStep(id) => GiveBackKeeps(w, id);
    case ConsumeStep => ConsumeRxKeeps(w);
    case StoreStep(id, packet) => StoreKeeps(w, id, packet);
    case CompleteStep(id) => CompleteRxKeeps(w, id);
  }

  ghost predicate IsRun(ws: seq<Rx>, steps: seq<Step>) {
    && |ws| == |steps| + 1
    && ws[0] == InitRx(ws[0].bufs) && Sized(ws[0])
    && (forall i: nat :: i < |steps| ==> Enabled(ws[i], steps[i]) && ws[i + 1] == After(ws[i], steps[i]))
  }

  /** Every interleaving of driver and device work, of any length, keeps the invariant. */
  lemma {:induction false} EveryRunIsSafe(ws: seq<Rx>, steps: seq<Step>, n: nat)
    requires IsRun(ws, steps) && n <= |steps|
    ensures RxInv(ws[n])
  {
    if n == 0 {
      InitRxKeeps(ws[0].bufs);
    } else {
      EveryRunIsSafe(ws, steps, n - 1);
      StepKeeps(ws[n - 1], steps[n - 1]);
    }
  }

  /**
  In every run, what the driver reads when it takes the k-th used entry is exactly the
  k-th packet the device returned, by the device's own account of it.
  */
  lemma ReadsArriveInOrder(ws: seq<Rx>, steps: seq<Step>, n: nat)
    requires IsRun(ws, steps) && n < |steps| && steps[n].TakeStep?
    ensures var w := ws[n];
            var e := w.q.usedRing[w.q.lastUsed % NUM];
            && e.id < NUM && e.len <= |w.bufs[e.id]|
            && w.l.taken < |w.arrived|
            && w.bufs[e.id][..e.len] == w.arrived[w.l.taken]
            && ws[n + 1].l.taken == w.l.taken + 1
  {
    EveryRunIsSafe(ws, steps, n);
    NextArrival(ws[n]);
    TakeRxKeeps(ws[n]);
  }

  /** What eth_recv hands on of a packet is the device's frame exactly if their headers are equally long. */
  lemma GivesWholeIff(packet: seq<Byte>, header: nat)
    requires HDR_LEN <= |packet| && header <= |packet|
    ensures packet[HDR_LEN..] == packet[header..] <==> header == HDR_LEN
    ensures header == HDR_LEN + 2 ==> packet[HDR_LEN..] == packet[HDR_LEN..header] + packet[header..]
  {
    assert |packet[HDR_LEN..]| == |packet| - HDR_LEN;
  }

  /** With an empty free list and nothing held every buffer is with the device or its rings. */
  lemma RefilledMeansPosted(w: Rx)
    requires RxInv(w) && w.l.free == [] && Of(w.l.stage, HeldKind) == {}
    ensures forall d: nat :: d < NUM ==> Outstanding(w.l.stage[d])
    ensures |InFlight(w.l)| == NUM
  {
    assert forall d: nat :: d < NUM ==> !w.l.stage[d].Tail? by { NoTails(w); }
    var f, h, p, v, u, t := |Of(w.l.stage, FreeKind)|, |Of(w.l.stage, HeldKind)|, |Of(w.l.stage, PostedKind)|,
      |Of(w.l.stage, DeviceKind)|, |Of(w.l.stage, DoneKind)|, |Of(w.l.stage, TailKind)|;
    assert f + h + p + v + u + t == NUM by { KindsCover(w.l.stage); }
    assert |InFlight(w.l)| == p + v + u by { InFlightSize(w.l); }
    assert t == 0 by { NoneOf(w.l.stage, TailKind); }
    FreeListed(w.q, w.l);
    forall d: nat | d < NUM
      ensures Outstanding(w.l.stage[d])
    {
      assert d !in Of(w.l.stage, FreeKind) && d !in Of(w.l.stage, HeldKind);
    }
  }
}
