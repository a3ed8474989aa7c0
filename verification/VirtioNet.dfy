/**
driver/eth/virtio_net.c in its own form: objects whose arrays and indices change in place.
`Virtq` is virtio_queue_t; `TxPath` and `RxPath` are the two halves of struct
virtio_net_nic, which share nothing but the `ready` flag.

The device shares the queue memory.  `DeviceRuns` lets it do any amount of work that the
protocol allows, and the driver calls it between any two of its own accesses that could
matter, so the contracts of `Send` and `Recv` hold for every interleaving.
*/
module VirtioNet {
  import opened Bytes
  import opened VirtQueue
  import T = VirtioTx
  import R = VirtioRx

  class Virtq {
    const desc: array<Desc>
    const availRing: array<nat>
    const usedRing: array<UsedElem>
    var freeHead: nat
    var availIdx: nat
    var usedIdx: nat
    var lastUsed: nat
    var devAvail: nat

    ghost predicate Valid()
      reads this
    {
      desc.Length == NUM && availRing.Length == NUM && usedRing.Length == NUM
    }

    ghost function Parts(): set<object>
      reads this
    {
      {this, desc, availRing, usedRing}
    }

    /** The memory as a value. */
    ghost function Q(): Queue
      reads this, desc, availRing, usedRing
    {
      Queue(desc[..], freeHead, availRing[..], availIdx, usedRing[..], usedIdx, lastUsed, devAvail)
    }

    /** virtq_init_free */
    constructor ()
      ensures Valid() && fresh(Parts())
      ensures Q() == InitQueue()
    {
      desc := new Desc[NUM](i requires 0 <= i => Desc(Nowhere, 0, i + 1 < NUM, false, i + 1));
      availRing := new nat[NUM](_ => 0);
      usedRing := new UsedElem[NUM](_ => UsedElem(0, 0));
      freeHead, availIdx, usedIdx, lastUsed, devAvail := 0, 0, 0, 0, 0;
      new;
      assert desc[..] == InitQueue().desc;
      assert availRing[..] == InitQueue().availRing;
      assert usedRing[..] == InitQueue().usedRing;
    }

    /** virtq_alloc_desc */
    method AllocDesc() returns (id: int)
      requires Valid()
      modifies `freeHead, desc
      ensures (Q(), id) == VirtQueue.AllocDesc(old(Q()))
    {
      if freeHead >= NUM {
        return -1;
      }
      id := freeHead;
      ghost var d := desc[id];
      if desc[id].hasNext {
        freeHead := desc[id].next;
      } else {
        freeHead := NUM;
      }
      desc[id] := desc[id].(hasNext := false, write := false);
      desc[id] := desc[id].(next := 0);
      assert desc[..] == old(desc[..])[id := d.(hasNext := false, write := false, next := 0)];
    }

    /** virtq_free_desc */
    method FreeDesc(id: nat)
      requires Valid() && id < NUM
      modifies `freeHead, desc
      ensures Q() == VirtQueue.FreeDesc(old(Q()), id)
    {
      desc[id] := desc[id].(hasNext := freeHead < NUM, write := false);
      desc[id] := desc[id].(next := freeHead);
      desc[id] := desc[id].(addr := Nowhere);
      desc[id] := desc[id].(len := 0);
      freeHead := id;
    }

    /** virtq_free_chain: follows the links as they were before each descriptor was freed. */
    method FreeChain(id: nat)
      requires Valid() && id < NUM
      requires desc[id].hasNext ==>
                 desc[id].next < NUM && desc[id].next != id && !desc[desc[id].next].hasNext
      modifies `freeHead, desc
      ensures Q() == VirtQueue.FreeChain(old(Q()), id)
    {
      var cur := id;
      ghost var left := 2;
      while true
        invariant cur < NUM
        invariant left == 2 ==> cur == id && Q() == old(Q())
        invariant left == 1 ==>
                    old(desc[id]).hasNext && cur == old(desc[id]).next && Q() == VirtQueue.FreeDesc(old(Q()), id)
        invariant 1 <= left <= 2
        decreases left
      {
        var flags := desc[cur].hasNext;
        var next := desc[cur].next;
        FreeDesc(cur);
        if !flags {
          break;
        }
        cur := next;
        left := left - 1;
      }
    }

    /** virtq_push_avail, without the doorbell. */
    method PushAvail(id: nat)
      requires Valid() && availIdx < U16
      modifies `availIdx, availRing
      ensures Q() == VirtQueue.PushAvail(old(Q()), id)
    {
      var slot := availIdx % NUM;
      availRing[slot] := id;
      availIdx := (availIdx + 1) % U16;
    }

    /** The device takes the oldest available head. */
    method DevicePop() returns (head: nat)
      requires Valid()
      modifies `devAvail
      ensures head == availRing[old(devAvail) % NUM]
      ensures Q() == VirtQueue.DevicePop(old(Q()))
    {
      head := availRing[devAvail % NUM];
      devAvail := (devAvail + 1) % U16;
    }

    /** The device returns a chain. */
    method DevicePush(e: UsedElem)
      requires Valid()
      modifies `usedIdx, usedRing
      ensures Q() == VirtQueue.DevicePush(old(Q()), e)
    {
      usedRing[usedIdx % NUM] := e;
      usedIdx := (usedIdx + 1) % U16;
    }
  }

  // ---------------------------------------------------------------- transmit

  /** What device work leaves alone in the transmit half, and how it may grow the rest. */
  ghost predicate TxDeviceOnly(w: T.Tx, v: T.Tx) {
    && v.q.desc == w.q.desc && v.q.freeHead == w.q.freeHead && v.q.availRing == w.q.availRing
    && v.q.availIdx == w.q.availIdx && v.q.lastUsed == w.q.lastUsed
    && v.bufs == w.bufs && v.sent == w.sent && v.ticket == w.ticket && v.fate == w.fate && v.reclaimed == w.reclaimed
    && v.l.free == w.l.free && w.l.done <= v.l.done && |v.l.stage| == |w.l.stage|
    && w.wire <= v.wire
    && (forall d :: 0 <= d < |w.l.stage| ==>
          if Outstanding(w.l.stage[d]) then Outstanding(v.l.stage[d]) else v.l.stage[d] == w.l.stage[d])
  }

  /** Device work only appends to what waits, and takes nothing from the driver. */
  lemma SameSubmissions(w: T.Tx, v: T.Tx)
    requires TxDeviceOnly(w, v)
    ensures w.reclaimed + T.Waiting(w) <= v.reclaimed + T.Waiting(v)
    ensures v.sent == w.sent && v.reclaimed == w.reclaimed && w.wire <= v.wire
    ensures (forall d: nat :: d < |w.l.stage| ==> !w.l.stage[d].Held?) ==>
              forall d: nat :: d < |v.l.stage| ==> !v.l.stage[d].Held?
  {
    assert T.Waiting(w) == T.Waiting(v)[..|T.Waiting(w)|];
  }

  lemma NothingWaits(w: T.Tx)
    requires T.TxInv(w) && w.q.lastUsed == w.q.usedIdx
    ensures w.reclaimed + T.Waiting(w) == w.reclaimed
  {
    NothingUsed(w.q, w.l);
  }

  class TxPath {
    const q: Virtq
    const bufs: array<T.TxBuf>
    var ready: bool
    var txPackets: nat
    var txBusyCount: nat
    /** Heads the device has taken and not returned. */
    var inDevice: set<nat>

    /** The queue and buffers as values, with their ledger and history. */
    ghost var w: T.Tx

    ghost function Parts(): set<object>
      reads this, q
    {
      {this, bufs} + q.Parts()
    }

    ghost predicate Valid()
      reads this, bufs, q, q.desc, q.availRing, q.usedRing
    {
      && q.Valid() && bufs.Length == NUM
      && w.q == q.Q() && w.bufs == bufs[..]
      && T.TxInv(w)
      && (forall d: nat :: d < NUM ==> (d in inDevice <==> w.l.stage[d].InDevice?))
      && (forall d :: d in inDevice ==> d < NUM)
    }

    /** No send is in progress. */
    ghost predicate Idle()
      reads this
    {
      forall d: nat :: d < |w.l.stage| ==> !w.l.stage[d].Held?
    }

    ghost predicate Counts(packets: nat, busy: nat, up: bool)
      reads this
    {
      txPackets == packets && txBusyCount == busy && ready == up
    }

    constructor ()
      ensures Valid() && Idle() && fresh(Parts()) && Counts(0, 0, true)
      ensures w.sent == [] && w.wire == [] && w.reclaimed == []
    {
      q := new Virtq();
      bufs := new T.TxBuf[NUM](_ => T.TxBuf([], []));
      ready, txPackets, txBusyCount, inDevice := true, 0, 0, {};
      new;
      w := T.InitTx(bufs[..]);
      T.InitTxKeeps(bufs[..]);
    }

    /** The device takes one chain, if there is one, and reads it. */
    method DeviceConsume()
      requires Valid()
      modifies this, bufs, q, q.desc, q.availRing, q.usedRing
      ensures Valid() && TxDeviceOnly(old(w), w)
      ensures Counts(old(txPackets), old(txBusyCount), old(ready))
    {
      if q.availIdx != q.devAvail {
        T.ConsumeReads(w);
        T.ConsumeKeeps(w);
        w := T.Consume(w);
        var head := q.DevicePop();
        inDevice := inDevice + {head};
      }
    }

    /** The device returns the chain of the given head, if it has it. */
    method DeviceComplete(e: UsedElem)
      requires Valid()
      modifies this, bufs, q, q.desc, q.availRing, q.usedRing
      ensures Valid() && TxDeviceOnly(old(w), w)
      ensures Counts(old(txPackets), old(txBusyCount), old(ready))
    {
      if e.id in inDevice {
        T.CompleteKeeps(w, e);
        w := T.Complete(w, e);
        q.DevicePush(e);
        inDevice := inDevice - {e.id};
      }
    }

    /** Any amount of device work. */
    method DeviceRuns()
      requires Valid()
      modifies this, bufs, q, q.desc, q.availRing, q.usedRing
      ensures Valid() && TxDeviceOnly(old(w), w)
      ensures Counts(old(txPackets), old(txBusyCount), old(ready))
    {
      var n: nat := *;
      while n > 0
        invariant Valid() && TxDeviceOnly(old(w), w)
        invariant Counts(old(txPackets), old(txBusyCount), old(ready))
      {
        var completes: bool := *;
        if completes {
          var id: nat, len: nat := *, *;
          DeviceComplete(UsedElem(id, len));
        } else {
          DeviceConsume();
        }
        n := n - 1;
      }
    }

    method TakeDesc() returns (id: int)
      requires Valid()
      modifies this, bufs, q, q.desc, q.availRing, q.usedRing
      ensures Valid() && w == T.Alloc(old(w))
      ensures if old(w.l.free) == [] then id == -1 && w == old(w)
              else 0 <= id < NUM && old(w.l.stage)[id].Free? && w.l.stage == old(w.l.stage)[id := Held]
      ensures |w.l.free| == |old(w.l.free)| - (if id == -1 then 0 else 1)
      ensures Counts(old(txPackets), old(txBusyCount), old(ready))
    {
      T.AllocTxKeeps(w);
      AllocKeeps(w.q, w.l);
      id := q.AllocDesc();
      w := T.Alloc(w);
    }

    method PutBack(id: nat)
      requires Valid() && id < NUM && w.l.stage[id].Held?
      modifies this, bufs, q, q.desc, q.availRing, q.usedRing
      ensures Valid() && w == T.GiveBack(old(w), id)
      ensures Counts(old(txPackets), old(txBusyCount), old(ready))
    {
      T.GiveBackKeeps(w, id);
      q.FreeDesc(id);
      w := T.GiveBack(w, id);
    }

    /** One turn of the loop of virtio_net_reclaim_tx. */
    method ReclaimOne()
      requires Valid() && q.lastUsed != q.usedIdx
      modifies this, bufs, q, q.desc, q.availRing, q.usedRing
      ensures Valid() && T.UsedId(old(w.q)) < NUM && old(w.ticket)[T.UsedId(old(w.q))] < |old(w.fate)|
      ensures w == T.Reap(old(w))
      ensures Counts(old(txPackets), old(txBusyCount), old(ready))
    {
      T.UsedChain(w);
      T.ReapTxKeeps(w);
      T.ReapStages(w);
      var id := q.usedRing[q.lastUsed % NUM].id;
      if id < NUM {
        q.FreeChain(id);
      }
      q.lastUsed := (q.lastUsed + 1) % U16;
      w := T.Reap(w);
    }

    /** The submissions reclaimed, followed by those that wait to be. */
    ghost function Returned(): seq<nat>
      reads this
    {
      w.reclaimed + T.Waiting(w)
    }

    /**
    virtio_net_reclaim_tx.  It ends with an empty used ring: every submission that waited there, and
    every one returned meanwhile, has been reclaimed, in the order the device returned them.
    */
    method ReclaimTx()
      requires Valid() && Idle()
      modifies this, bufs, q, q.desc, q.availRing, q.usedRing
      ensures Valid() && Idle() && q.lastUsed == q.usedIdx
      ensures w.sent == old(w.sent) && old(w.wire) <= w.wire && old(Returned()) <= w.reclaimed
      ensures Counts(old(txPackets), old(txBusyCount), old(ready))
    {
      hide Inv, T.TxInv, T.Waiting, TxDeviceOnly;
      DeviceRuns();
      SameSubmissions(old(w), w);
      while q.lastUsed != q.usedIdx
        invariant Valid() && Idle()
        invariant w.sent == old(w.sent) && old(w.wire) <= w.wire && old(Returned()) <= Returned()
        invariant Counts(old(txPackets), old(txBusyCount), old(ready))
        decreases |w.sent| - |w.reclaimed|
      {
        ReclaimTurn();
      }
      NothingWaits(w);
    }

    /** A turn of the loop, and the device's work until the next look at the used ring. */
    method ReclaimTurn()
      requires Valid() && Idle() && q.lastUsed != q.usedIdx
      modifies this, bufs, q, q.desc, q.availRing, q.usedRing
      ensures Valid() && Idle()
      ensures w.sent == old(w.sent) && old(w.wire) <= w.wire && old(Returned()) <= Returned()
      ensures |old(w.reclaimed)| < |w.reclaimed| <= |w.sent|
      ensures Counts(old(txPackets), old(txBusyCount), old(ready))
    {
      T.UsedChain(w);
      T.ReapStages(w);
      T.ReapTakesOldest(w);
      ReclaimOne();
      ghost var v := w;
      DeviceRuns();
      SameSubmissions(v, w);
      T.ReclaimedFits(w);
    }

    /**
    eth_send.  An accepted frame is appended to the submissions, and what the device
    gathers for it is fixed from then on (`Valid`).  A refused one leaves no trace; it is
    refused for want of descriptors only when, after everything returned by then has been
    reclaimed, 32 frames are still out.
    */
    method Send(data: T.Frame) returns (r: int)
      requires Valid() && Idle()
      modifies this, bufs, q, q.desc, q.availRing, q.usedRing
      ensures Valid() && Idle()
      ensures r == -2 <==> !old(ready) || |data| == 0 || |data| > T.FRAME_MAX
      ensures r == 0 || r == -1 || r == -2
      ensures w.sent == (if r == 0 then old(w.sent) + [data] else old(w.sent))
      ensures Counts(old(txPackets) + (if r == 0 then 1 else 0),
                     old(txBusyCount) + (if r == -1 then 1 else 0), old(ready))
      ensures r == -1 ==> |InFlight(w.l)| == NUM / 2
      ensures old(w.wire) <= w.wire && (r != -2 ==> old(Returned()) <= w.reclaimed)
    {
      if !ready || |data| == 0 || |data| > T.FRAME_MAX {
        return -2;
      }
      ReclaimTx();
      var hdr, frm := TakePair();
      if hdr < 0 || frm < 0 {
        txBusyCount := txBusyCount + 1;
        T.BusyMeansFull(w);
        return -1;
      }
      SubmitFrame(hdr, frm, data);
      txPackets := txPackets + 1;
      return 0;
    }

    /** The two allocations of eth_send, undone together when either fails. */
    method TakePair() returns (hdr: int, frm: int)
      requires Valid() && Idle()
      modifies this, bufs, q, q.desc, q.availRing, q.usedRing
      ensures Valid() && w.sent == old(w.sent) && old(w.wire) <= w.wire && w.reclaimed == old(w.reclaimed)
      ensures Counts(old(txPackets), old(txBusyCount), old(ready))
      ensures if hdr < 0 || frm < 0 then Idle() && |w.l.free| < 2
              else hdr < NUM && frm < NUM && hdr != frm &&
                   forall d: nat :: d < NUM ==> (w.l.stage[d].Held? <==> d == hdr || d == frm)
    {
      hdr := TakeDesc();
      DeviceRuns();
      frm := TakeDesc();
      if hdr < 0 || frm < 0 {
        if hdr >= 0 {
          PutBack(hdr);
        }
      }
    }

    method FillBuffer(hdr: nat, data: T.Frame)
      requires Valid() && hdr < NUM && w.l.stage[hdr].Held? && |data| <= T.FRAME_MAX
      modifies `w, bufs
      ensures Valid() && w == T.Fill(old(w), hdr, data)
    {
      T.FillKeeps(w, hdr, data);
      bufs[hdr] := T.FilledBuf(data);
      w := T.Fill(w, hdr, data);
    }

    method DescribePair(hdr: nat, frm: nat, len: nat)
      requires Valid() && hdr < NUM && frm < NUM && w.l.stage[hdr].Held? && w.l.stage[frm].Held?
      modifies `w, q.desc
      ensures Valid() && w == T.Describe(old(w), hdr, frm, len)
    {
      var frameLen := if len < ETH_MIN then ETH_MIN else len;
      T.DescribeKeeps(w, hdr, frm, len);
      q.desc[hdr] := Desc(TxHeader(hdr), T.HDR_LEN, true, false, frm);
      q.desc[frm] := Desc(TxFrame(hdr), frameLen, false, false, 0);
      w := T.Describe(w, hdr, frm, len);
    }

    method PushFrame(hdr: nat, ghost data: T.Frame)
      requires Valid() && T.Ready(w, hdr, data)
      modifies `w, q, q.availRing
      ensures Valid() && w == T.Submit(old(w), hdr, data)
    {
      T.SubmitKeeps(w, hdr, data);
      q.PushAvail(hdr);
      w := T.Submit(w, hdr, data);
    }

    /** The second half of eth_send: buffer, descriptors, available ring. */
    method SubmitFrame(hdr: nat, frm: nat, data: T.Frame)
      requires Valid() && hdr < NUM && frm < NUM && hdr != frm && 0 < |data| <= T.FRAME_MAX
      requires forall d: nat :: d < NUM ==> (w.l.stage[d].Held? <==> d == hdr || d == frm)
      modifies this, bufs, q, q.desc, q.availRing, q.usedRing
      ensures Valid() && Idle()
      ensures w.sent == old(w.sent) + [data] && old(w.wire) <= w.wire && w.reclaimed == old(w.reclaimed)
      ensures Counts(old(txPackets), old(txBusyCount), old(ready))
    {
      DeviceRuns();
      FillBuffer(hdr, data);
      DeviceRuns();
      DescribePair(hdr, frm, |data|);
      DeviceRuns();
      PushFrame(hdr, data);
    }
  }

  // ---------------------------------------------------------------- receive

  /** What device work leaves alone in the receive half, and how it may grow the rest. */
  ghost predicate RxDeviceOnly(w: R.Rx, v: R.Rx) {
    && v.q.desc == w.q.desc && v.q.freeHead == w.q.freeHead && v.q.availRing == w.q.availRing
    && v.q.availIdx == w.q.availIdx && v.q.lastUsed == w.q.lastUsed
    && v.l.free == w.l.free && v.l.taken == w.l.taken && w.l.done <= v.l.done && w.arrived <= v.arrived
    && |v.l.stage| == |w.l.stage| && |v.bufs| == |w.bufs|
    && (forall d :: 0 <= d < |w.l.stage| ==>
          if Outstanding(w.l.stage[d]) then Outstanding(v.l.stage[d]) else v.l.stage[d] == w.l.stage[d])
    && (forall d :: 0 <= d < |w.l.stage| && d < |w.bufs| && !Outstanding(w.l.stage[d]) ==> v.bufs[d] == w.bufs[d])
  }

  class RxPath {
    const q: Virtq
    const bufs: array<seq<Byte>>
    var ready: bool
    var rxPackets: nat
    var rxDrops: nat
    /** Chains the device has taken and not returned, and what it has stored for each. */
    var inDevice: set<nat>
    var stored: seq<seq<Byte>>

    /** The queue and buffers as values, with their ledger and history. */
    ghost var w: R.Rx

    ghost function Parts(): set<object>
      reads this, q
    {
      {this, bufs} + q.Parts()
    }

    ghost predicate Valid()
      reads this, bufs, q, q.desc, q.availRing, q.usedRing
    {
      && q.Valid() && bufs.Length == NUM
      && w.q == q.Q() && w.bufs == bufs[..] && w.stored == stored
      && R.RxInv(w)
      && (forall d: nat :: d < NUM ==> (d in inDevice <==> w.l.stage[d].InDevice?))
      && (forall d :: d in inDevice ==> d < NUM)
    }

    ghost predicate Counts(packets: nat, drops: nat, up: bool)
      reads this
    {
      rxPackets == packets && rxDrops == drops && ready == up
    }

    ghost predicate NothingHeld()
      reads this
    {
      forall d: nat :: d < |w.l.stage| ==> !w.l.stage[d].Held?
    }

    /** Between calls every buffer is posted, with the device, or waiting in the used ring. */
    ghost predicate Refilled()
      reads this
    {
      NothingHeld() && w.l.free == []
    }

    /** virtq_init_free, the first refill and the `ready` flag of eth_init. */
    constructor ()
      ensures Valid() && Refilled() && fresh(Parts())
      ensures w.l.taken == 0 && Counts(0, 0, true)
    {
      q := new Virtq();
      bufs := new seq<Byte>[NUM](_ => Zeros(R.RX_BUF_LEN));
      ready, rxPackets, rxDrops, inDevice, stored := false, 0, 0, {}, seq(NUM, _ => []);
      new;
      w := R.InitRx(bufs[..]);
      R.InitRxKeeps(bufs[..]);
      var added := RefillRx();
      ready := true;
    }

    method DeviceConsume()
      requires Valid()
      modifies this, bufs, q, q.desc, q.availRing, q.usedRing
      ensures Valid() && RxDeviceOnly(old(w), w)
      ensures Counts(old(rxPackets), old(rxDrops), old(ready))
    {
      if q.availIdx != q.devAvail {
        NothingPosted(w.q, w.l);
        DevicePopKeeps(w.q, w.l);
        assert PostedAt(w.l, 0);
        R.ConsumeRxKeeps(w);
        var head := q.DevicePop();
        inDevice := inDevice + {head};
        stored := stored[head := []];
        w := R.Consume(w);
      }
    }

    /** The device stores a packet where the descriptor of a chain it holds says. */
    method DeviceStore(id: nat, packet: seq<Byte>)
      requires Valid()
      modifies this, bufs, q, q.desc, q.availRing, q.usedRing
      ensures Valid() && RxDeviceOnly(old(w), w)
      ensures Counts(old(rxPackets), old(rxDrops), old(ready))
    {
      if id in inDevice && R.Takes(q.desc[id], packet) {
        R.StoreKeeps(w, id, packet);
        R.NoTails(w);
        var b := q.desc[id].addr.buf;
        bufs[b] := packet + bufs[b][|packet|..];
        stored := stored[id := packet];
        w := R.Store(w, id, packet);
      }
    }

    method DeviceComplete(id: nat)
      requires Valid()
      modifies this, bufs, q, q.desc, q.availRing, q.usedRing
      ensures Valid() && RxDeviceOnly(old(w), w)
      ensures Counts(old(rxPackets), old(rxDrops), old(ready))
    {
      if id in inDevice {
        R.CompleteRxKeeps(w, id);
        q.DevicePush(UsedElem(id, |stored[id]|));
        inDevice := inDevice - {id};
        w := R.Complete(w, id);
      }
    }

    /** Any amount of device work. */
    method DeviceRuns()
      requires Valid()
      modifies this, bufs, q, q.desc, q.availRing, q.usedRing
      ensures Valid() && RxDeviceOnly(old(w), w)
      ensures Counts(old(rxPackets), old(rxDrops), old(ready))
    {
      var n: nat := *;
      while n > 0
        invariant Valid() && RxDeviceOnly(old(w), w)
        invariant Counts(old(rxPackets), old(rxDrops), old(ready))
      {
        var id: nat, packet: seq<Byte>, kind: nat := *, *, *;
        if kind == 0 {
          DeviceConsume();
        } else if kind == 1 {
          DeviceStore(id, packet);
        } else {
          DeviceComplete(id);
        }
        n := n - 1;
      }
    }

    method TakeDesc() returns (id: int)
      requires Valid()
      modifies this, bufs, q, q.desc, q.availRing, q.usedRing
      ensures Valid() && w == R.Alloc(old(w))
      ensures if old(w.l.free) == [] then id == -1 && w == old(w) else
              0 <= id < NUM && w.l.stage == old(w.l.stage)[id := Held] && |w.l.free| == |old(w.l.free)| - 1
      ensures Counts(old(rxPackets), old(rxDrops), old(ready))
    {
      R.AllocRxKeeps(w);
      AllocKeeps(w.q, w.l);
      id := q.AllocDesc();
      w := R.Alloc(w);
    }

    method PutBack(id: nat)
      requires Valid() && id < NUM && w.l.stage[id].Held?
      modifies this, bufs, q, q.desc, q.availRing, q.usedRing
      ensures Valid() && w == R.GiveBack(old(w), id)
      ensures Counts(old(rxPackets), old(rxDrops), old(ready))
    {
      R.GiveBackKeeps(w, id);
      q.FreeDesc(id);
      w := R.GiveBack(w, id);
    }

    method PrepareBuffer(id: nat)
      requires Valid() && id < NUM && w.l.stage[id].Held?
      modifies this, bufs, q, q.desc, q.availRing, q.usedRing
      ensures Valid() && w == R.Prepare(old(w), id)
      ensures Counts(old(rxPackets), old(rxDrops), old(ready))
    {
      R.PrepareKeeps(w, id);
      bufs[id] := Zeros(R.RX_BUF_LEN);
      q.desc[id] := Desc(RxBuffer(id), R.RX_BUF_LEN, false, true, 0);
      w := R.Prepare(w, id);
    }

    method PostBuffer(id: nat)
      requires Valid() && id < NUM && w.l.stage[id].Held? && q.desc[id] == R.RxDesc(id)
      modifies this, bufs, q, q.desc, q.availRing, q.usedRing
      ensures Valid() && w == R.Post(old(w), id)
      ensures Counts(old(rxPackets), old(rxDrops), old(ready))
    {
      R.PostKeeps(w, id);
      q.PushAvail(id);
      w := R.Post(w, id);
    }

    /** The body of the loop of virtio_net_refill_rx for one descriptor. */
    method RefillOne(id: nat)
      requires Valid() && id < NUM && w.l.stage[id].Held?
      modifies this, bufs, q, q.desc, q.availRing, q.usedRing
      ensures Valid() && w.l.free == old(w.l.free) && w.l.taken == old(w.l.taken) && old(w.arrived) <= w.arrived
      ensures forall d: nat :: d < NUM ==> (w.l.stage[d].Held? <==> old(w.l.stage)[d].Held? && d != id)
      ensures Counts(old(rxPackets), old(rxDrops), old(ready))
    {
      DeviceRuns();
      PrepareBuffer(id);
      DeviceRuns();
      PostBuffer(id);
    }

    /** virtio_net_refill_rx */
    method RefillRx() returns (added: nat)
      requires Valid() && NothingHeld()
      modifies this, bufs, q, q.desc, q.availRing, q.usedRing
      ensures Valid() && Refilled() && added == |old(w.l.free)|
      ensures w.l.taken == old(w.l.taken) && old(w.arrived) <= w.arrived
      ensures Counts(old(rxPackets), old(rxDrops), old(ready))
    {
      added := 0;
      while true
        invariant Valid() && NothingHeld() && added + |w.l.free| == |old(w.l.free)|
        invariant w.l.taken == old(w.l.taken) && old(w.arrived) <= w.arrived
        invariant Counts(old(rxPackets), old(rxDrops), old(ready))
        decreases |w.l.free|
      {
        var id := TakeDesc();
        if id < 0 {
          break;
        }
        RefillOne(id);
        added := added + 1;
      }
    }

    /** The head of eth_recv: the next used entry, copied out before its buffer is given up. */
    method TakePacket() returns (id: nat, packet: seq<Byte>)
      requires Valid() && Refilled() && q.lastUsed != q.usedIdx
      modifies this, bufs, q, q.desc, q.availRing, q.usedRing
      ensures Valid() && w.l.free == [] && id < NUM
      ensures forall d: nat :: d < NUM ==> (w.l.stage[d].Held? <==> d == id)
      ensures w.l.taken == old(w.l.taken) + 1 && w.arrived == old(w.arrived) && old(w.l.taken) < |w.arrived|
      ensures packet == w.arrived[old(w.l.taken)]
      ensures Counts(old(rxPackets), old(rxDrops), old(ready))
    {
      R.NextArrival(w);
      R.TakeRxKeeps(w);
      R.NoTails(w);
      var e := q.usedRing[q.lastUsed % NUM];
      id := e.id;
      packet := bufs[id][..e.len];
      q.lastUsed := (q.lastUsed + 1) % U16;
      w := R.Take(w);
    }

    /**
    eth_recv.  The caller gets the next packet the device returned, without the virtio
    header and cut to the caller's buffer; a packet too short for a header is dropped.
    Every buffer is posted again on return.
    */
    method Recv(maxlen: nat) returns (r: int, out: seq<Byte>)
      requires Valid() && Refilled()
      modifies this, bufs, q, q.desc, q.availRing, q.usedRing
      ensures Valid() && Refilled() && old(w.arrived) <= w.arrived
      ensures !old(ready) || maxlen == 0 ==> r == -1 && w.l.taken == old(w.l.taken)
      ensures old(ready) && maxlen > 0 ==>
                && (w.l.taken == old(w.l.taken) || w.l.taken == old(w.l.taken) + 1)
                && (w.l.taken == old(w.l.taken) ==> r == 0 && |old(w.arrived)| == old(w.l.taken))
                && (w.l.taken == old(w.l.taken) + 1 ==>
                      && old(w.l.taken) < |w.arrived|
                      && var p := w.arrived[old(w.l.taken)];
                         if |p| < R.HDR_LEN then r == -1 && rxDrops == old(rxDrops) + 1 && rxPackets == old(rxPackets)
                         else r == Min(|p| - R.HDR_LEN, maxlen) && out == p[R.HDR_LEN..][..r] &&
                              rxPackets == old(rxPackets) + 1 && rxDrops == old(rxDrops))
    {
      out := [];
      if !ready || maxlen == 0 {
        return -1, [];
      }
      DeviceRuns();
      if q.lastUsed == q.usedIdx {
        NothingUsed(w.q, w.l);
        return 0, [];
      }
      var id, packet := TakePacket();
      var short := |packet| < R.HDR_LEN;
      if !short {
        var frameLen := |packet| - R.HDR_LEN;
        r := if frameLen < maxlen then frameLen else maxlen;
        out := packet[R.HDR_LEN..][..r];
      } else {
        r := -1;
      }
      PutBack(id);
      var added := RefillRx();
      if short {
        rxDrops := rxDrops + 1;
      } else {
        rxPackets := rxPackets + 1;
      }
    }
  }
}
