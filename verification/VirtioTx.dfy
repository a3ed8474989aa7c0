/**
The transmit half of driver/eth/virtio_net.c.  `Tx` is the transmit queue with its
buffers and the history the properties speak about: the frames eth_send accepted, the
byte strings the device gathered from the descriptors, and the submissions reclaimed.

Each function below is one uninterrupted piece of driver or device work; `TxInv` holds
between any two of them, in whatever order they come.
*/
module VirtioTx {
  import opened Bytes
  import opened VirtQueue

  const HDR_LEN: nat := 10
  const FRAME_MAX: nat := 1514
  const BUF_SIZE: nat := 2048

  type Frame = seq<Byte>

  datatype TxBuf = TxBuf(hdr: seq<Byte>, frame: seq<Byte>)

  /** What became of a submission: still out under a head, or reclaimed as the at-th. */
  datatype Fate = Flying(head: nat) | Reclaimed(at: nat)

  /**
  `ticket[h]` is the number of the submission head h carries; `fate` has one entry per
  submission.
  */
  datatype Tx = Tx(
    q: Queue, l: Ledger, bufs: seq<TxBuf>,
    sent: seq<Frame>, wire: seq<seq<Byte>>,
    ticket: seq<nat>, fate: seq<Fate>, reclaimed: seq<nat>)

  // ---------------------------------------------------------------- what goes on the wire

  /** The byte string the device sends: an all-zero virtio header, then the padded frame. */
  function OnWire(f: Frame): seq<Byte> {
    Zeros(HDR_LEN) + Padded(f)
  }

  /** The Ethernet frame a device sends that takes the first `header` bytes of the string for its header. */
  function Leaves(f: Frame, header: nat): seq<Byte> {
    if header <= |OnWire(f)| then OnWire(f)[header..] else []
  }

  /**
  The padded frame leaves exactly on a device whose network header has 10 bytes.  One that has
  negotiated VIRTIO_F_VERSION_1, as a version-2 transport does here, has 12 (section 5.1.6 of the Virtual
  I/O Device specification 1.1) and so loses the first two bytes of every frame.
  */
  lemma LeavesWholeIff(f: Frame, header: nat)
    ensures Leaves(f, header) == Padded(f) <==> header == HDR_LEN
    ensures Leaves(f, HDR_LEN + 2) == Padded(f)[2..]
  {
    assert |OnWire(f)| == HDR_LEN + |Padded(f)|;
    assert OnWire(f)[HDR_LEN..] == Padded(f);
    assert OnWire(f)[HDR_LEN + 2..] == Padded(f)[2..];
  }

  /** The buffer after memset and memcpy. */
  function FilledBuf(f: Frame): TxBuf
    requires |f| <= BUF_SIZE
  {
    TxBuf(Zeros(HDR_LEN), f + Zeros(BUF_SIZE - |f|))
  }

  /** The bytes the device reads through a descriptor; it does not read a buffer it is to write. */
  function Covered(bufs: seq<TxBuf>, d: Desc): (r: seq<Byte>) {
    if d.write then [] else
    match d.addr
    case TxHeader(b) => if b < |bufs| && d.len <= |bufs[b].hdr| then bufs[b].hdr[..d.len] else []
    case TxFrame(b) => if b < |bufs| && d.len <= |bufs[b].frame| then bufs[b].frame[..d.len] else []
    case _ => []
  }

  /** The bytes of a chain as the device reads them. */
  function Gather(w: Tx, h: nat): seq<Byte>
    requires |w.q.desc| == NUM && h < NUM
  {
    var d := w.q.desc[h];
    Covered(w.bufs, d) + (if d.hasNext && d.next < NUM then Covered(w.bufs, w.q.desc[d.next]) else [])
  }

  // ---------------------------------------------------------------- invariant

  /** An outstanding head carries its submission unchanged in its own buffer. */
  ghost predicate HeadOk(w: Tx, h: nat)
    requires Shape(w.q, w.l) && |w.bufs| == NUM && |w.ticket| == NUM && h < NUM
  {
    Outstanding(w.l.stage[h]) ==>
      var t := w.ticket[h];
      && t < |w.sent| && t < |w.fate| && w.fate[t] == Flying(h)
      && 0 < |w.sent[t]| <= FRAME_MAX
      && w.bufs[h] == FilledBuf(w.sent[t])
      && Carries(w.q, h, w.sent[t])
  }

  /** The two descriptors eth_send writes for a frame. */
  ghost predicate Carries(q: Queue, h: nat, f: Frame)
    requires |q.desc| == NUM && h < NUM
  {
    && q.desc[h].next < NUM
    && q.desc[h] == Desc(TxHeader(h), HDR_LEN, true, false, q.desc[h].next)
    && q.desc[q.desc[h].next] == Desc(TxFrame(h), Max(|f|, ETH_MIN), false, false, 0)
  }

  ghost predicate FateOk(w: Tx, t: nat)
    requires |w.l.stage| == NUM && |w.ticket| == NUM && t < |w.fate|
  {
    match w.fate[t]
    case Flying(h) => h < NUM && Outstanding(w.l.stage[h]) && w.ticket[h] == t
    case Reclaimed(k) => k < |w.reclaimed| && w.reclaimed[k] == t
  }

  ghost predicate ReclaimedAt(w: Tx, k: nat)
    requires k < |w.reclaimed|
  {
    w.reclaimed[k] < |w.fate| && w.fate[w.reclaimed[k]] == Reclaimed(k)
  }

  ghost predicate PostedTicket(w: Tx, i: nat)
    requires |w.ticket| == NUM && i < |w.l.posted|
  {
    w.l.posted[i] < NUM && w.ticket[w.l.posted[i]] == |w.wire| + i
  }

  ghost predicate TxInv(w: Tx) {
    && Inv(w.q, w.l)
    && |w.bufs| == NUM && |w.ticket| == NUM && |w.fate| == |w.sent|
    && |w.wire| + |w.l.posted| == |w.sent|
    && (forall i: nat :: i < |w.wire| ==> w.wire[i] == OnWire(w.sent[i]))
    && (forall h: nat :: h < NUM ==> HeadOk(w, h))
    && (forall t: nat :: t < |w.fate| ==> FateOk(w, t))
    && (forall k: nat :: k < |w.reclaimed| ==> ReclaimedAt(w, k))
    && (forall i: nat :: i < |w.l.posted| ==> PostedTicket(w, i))
  }

  // ---------------------------------------------------------------- driver and device work

  /** The tables have their fixed sizes. */
  predicate Sized(w: Tx) {
    && |w.q.desc| == NUM && |w.q.availRing| == NUM && |w.q.usedRing| == NUM
    && |w.l.stage| == NUM && |w.bufs| == NUM && |w.ticket| == NUM
  }

  function InitTx(bufs: seq<TxBuf>): Tx
    requires |bufs| == NUM
  {
    Tx(InitQueue(), InitLedger(), bufs, [], [], seq(NUM, _ => 0), [], [])
  }

  /** virtq_alloc_desc on the transmit queue. */
  function Alloc(w: Tx): Tx
    requires Sized(w)
  {
    w.(q := AllocDesc(w.q).0, l := AllocLedger(w.l))
  }

  /** virtq_free_desc of a descriptor the send gives up. */
  function GiveBack(w: Tx, id: nat): Tx
    requires Sized(w) && id < NUM
  {
    w.(q := FreeDesc(w.q, id), l := FreeLedger(w.l, id))
  }

  /** memset and memcpy into the buffer that belongs to the header descriptor. */
  function Fill(w: Tx, id: nat, f: Frame): Tx
    requires Sized(w) && id < NUM && |f| <= BUF_SIZE
  {
    w.(bufs := w.bufs[id := FilledBuf(f)])
  }

  /** The writes to the header descriptor and to the frame descriptor. */
  function Describe(w: Tx, hdr: nat, frm: nat, len: nat): Tx
    requires Sized(w) && hdr < NUM && frm < NUM
  {
    w.(q := SetDesc(SetDesc(w.q, hdr, Desc(TxHeader(hdr), HDR_LEN, true, false, frm)),
                    frm, Desc(TxFrame(hdr), Max(len, ETH_MIN), false, false, 0)))
  }

  /** virtq_push_avail of the finished chain: this is the submission. */
  function Submit(w: Tx, hdr: nat, f: Frame): Tx
    requires Sized(w) && hdr < NUM && (w.q.desc[hdr].hasNext ==> w.q.desc[hdr].next < NUM)
  {
    w.(q := PushAvail(w.q, hdr), l := PushLedger(w.q, w.l, hdr),
       ticket := w.ticket[hdr := |w.sent|], fate := w.fate + [Flying(hdr)], sent := w.sent + [f])
  }

  /** The id in the oldest used entry the driver has not seen. */
  function UsedId(q: Queue): nat
    requires |q.usedRing| == NUM
  {
    q.usedRing[q.lastUsed % NUM].id
  }

  /** One turn of the loop of virtio_net_reclaim_tx. */
  function Reap(w: Tx): Tx
    requires Sized(w) && UsedId(w.q) < NUM && w.ticket[UsedId(w.q)] < |w.fate|
  {
    var h := UsedId(w.q);
    w.(q := SkipUsed(FreeChain(w.q, h)), l := ReapLedger(w.q, w.l),
       fate := w.fate[w.ticket[h] := Reclaimed(|w.reclaimed|)], reclaimed := w.reclaimed + [w.ticket[h]])
  }

  /** The submissions whose chains wait in the used ring, oldest first. */
  function Waiting(w: Tx): (r: seq<nat>)
    ensures |r| == |w.l.done|
  {
    seq(|w.l.done|, i requires 0 <= i < |w.l.done| =>
      if w.l.done[i].id < |w.ticket| then w.ticket[w.l.done[i].id] else 0)
  }

  /** The device takes the oldest chain and reads its bytes. */
  function Consume(w: Tx): Tx
    requires Sized(w) && w.q.availRing[w.q.devAvail % NUM] < NUM
  {
    w.(q := DevicePop(w.q), l := PopLedger(w.l),
       wire := w.wire + [Gather(w, w.q.availRing[w.q.devAvail % NUM])])
  }

  /** The device returns any chain it holds. */
  function Complete(w: Tx, e: UsedElem): Tx
    requires Sized(w) && e.id < NUM
  {
    w.(q := DevicePush(w.q, e), l := DeviceDoneLedger(w.l, e))
  }

  // ---------------------------------------------------------------- every piece keeps the invariant

  lemma InitTxKeeps(bufs: seq<TxBuf>)
    requires |bufs| == NUM
    ensures TxInv(InitTx(bufs))
  {
    InitKeeps();
    var w := InitTx(bufs);
    forall h: nat | h < NUM
      ensures HeadOk(w, h)
    {
    }
  }

  /** The history survives when no outstanding head, its descriptors or its buffer change. */
  lemma HistoryUnmoved(w: Tx, w': Tx)
    requires TxInv(w) && Inv(w'.q, w'.l)
    requires |w'.bufs| == NUM && w'.ticket == w.ticket && w'.fate == w.fate && w'.sent == w.sent
    requires w'.reclaimed == w.reclaimed
    requires forall h: nat :: h < NUM ==> (Outstanding(w.l.stage[h]) <==> Outstanding(w'.l.stage[h]))
    requires forall h: nat :: h < NUM && (Outstanding(w.l.stage[h]) || w.l.stage[h].Tail?) ==>
               w'.q.desc[h] == w.q.desc[h]
    requires forall h: nat :: h < NUM && Outstanding(w.l.stage[h]) ==> w'.bufs[h] == w.bufs[h]
    ensures forall h: nat :: h < NUM ==> HeadOk(w', h)
    ensures forall t: nat :: t < |w'.fate| ==> FateOk(w', t)
    ensures forall k: nat :: k < |w'.reclaimed| ==> ReclaimedAt(w', k)
  {
    forall h: nat | h < NUM
      ensures HeadOk(w', h)
    {
      assert HeadOk(w, h) && DescOk(w.q, w.l, h);
    }
    forall t: nat | t < |w'.fate|
      ensures FateOk(w', t)
    {
      assert FateOk(w, t);
    }
    forall k: nat | k < |w'.reclaimed|
      ensures ReclaimedAt(w', k)
    {
      assert ReclaimedAt(w, k);
    }
  }

  lemma PostedUnmoved(w: Tx, w': Tx)
    requires TxInv(w) && |w'.ticket| == NUM
    requires w'.ticket == w.ticket && w'.wire == w.wire && w'.l.posted == w.l.posted
    ensures forall i: nat :: i < |w'.l.posted| ==> PostedTicket(w', i)
  {
    forall i: nat | i < |w'.l.posted|
      ensures PostedTicket(w', i)
    {
      assert PostedTicket(w, i);
    }
  }

  lemma AllocTxKeeps(w: Tx)
    requires TxInv(w)
    ensures TxInv(Alloc(w))
  {
    AllocKeeps(w.q, w.l);
    if w.l.free != [] {
      HistoryUnmoved(w, Alloc(w));
      PostedUnmoved(w, Alloc(w));
    } else {
      assert Alloc(w) == w;
    }
  }

  lemma GiveBackKeeps(w: Tx, id: nat)
    requires TxInv(w) && id < NUM && w.l.stage[id].Held?
    ensures TxInv(GiveBack(w, id))
  {
    FreeKeeps(w.q, w.l, id);
    HistoryUnmoved(w, GiveBack(w, id));
    PostedUnmoved(w, GiveBack(w, id));
  }

  lemma FillKeeps(w: Tx, id: nat, f: Frame)
    requires TxInv(w) && id < NUM && w.l.stage[id].Held? && |f| <= BUF_SIZE
    ensures TxInv(Fill(w, id, f))
  {
    HistoryUnmoved(w, Fill(w, id, f));
    PostedUnmoved(w, Fill(w, id, f));
  }

  lemma DescribeKeeps(w: Tx, hdr: nat, frm: nat, len: nat)
    requires TxInv(w) && hdr < NUM && frm < NUM && w.l.stage[hdr].Held? && w.l.stage[frm].Held?
    ensures TxInv(Describe(w, hdr, frm, len))
  {
    var d := Desc(TxHeader(hdr), HDR_LEN, true, false, frm);
    SetDescKeeps(w.q, w.l, hdr, d);
    SetDescKeeps(SetDesc(w.q, hdr, d), w.l, frm, Desc(TxFrame(hdr), Max(len, ETH_MIN), false, false, 0));
    HistoryUnmoved(w, Describe(w, hdr, frm, len));
    PostedUnmoved(w, Describe(w, hdr, frm, len));
  }

  /** A chain may be submitted once its buffer and its two descriptors say the same frame. */
  ghost predicate Ready(w: Tx, hdr: nat, f: Frame) {
    && Sized(w)
    && hdr < NUM && w.l.stage[hdr].Held? && 0 < |f| <= FRAME_MAX
    && Carries(w.q, hdr, f) && w.q.desc[hdr].next != hdr && w.l.stage[w.q.desc[hdr].next].Held?
    && w.bufs[hdr] == FilledBuf(f)
  }

  lemma SubmitKeeps(w: Tx, hdr: nat, f: Frame)
    requires TxInv(w) && Ready(w, hdr, f)
    ensures TxInv(Submit(w, hdr, f))
  {
    PushKeeps(w.q, w.l, hdr);
    var w' := Submit(w, hdr, f);
    var n := |w.sent|;
    forall h: nat | h < NUM
      ensures HeadOk(w', h)
    {
      assert HeadOk(w, h) && DescOk(w.q, w.l, h);
    }
    forall t: nat | t < |w'.fate|
      ensures FateOk(w', t)
    {
      if t < n {
        assert FateOk(w, t);
      }
    }
    forall k: nat | k < |w'.reclaimed|
      ensures ReclaimedAt(w', k)
    {
      assert ReclaimedAt(w, k);
    }
    forall i: nat | i < |w'.l.posted|
      ensures PostedTicket(w', i)
    {
      if i < |w.l.posted| {
        assert PostedTicket(w, i) && PostedAt(w.l, i);
      }
    }
  }

  /** A used entry names an outstanding head: its submission is still flying. */
  lemma UsedIsFlying(w: Tx)
    requires TxInv(w) && w.q.lastUsed != w.q.usedIdx
    ensures w.l.done != [] && UsedId(w.q) == w.l.done[0].id < NUM
    ensures w.l.stage[UsedId(w.q)].Done?
    ensures w.ticket[UsedId(w.q)] < |w.fate| && w.fate[w.ticket[UsedId(w.q)]] == Flying(UsedId(w.q))
  {
    NothingUsed(w.q, w.l);
    assert DoneAt(w.l, 0) && HeadOk(w, UsedId(w.q));
  }

  /** The chain behind a used entry, as virtq_free_chain walks it. */
  lemma UsedChain(w: Tx)
    requires TxInv(w) && w.q.lastUsed != w.q.usedIdx
    ensures UsedId(w.q) < NUM && w.ticket[UsedId(w.q)] < |w.fate|
    ensures var d := w.q.desc[UsedId(w.q)];
            d.hasNext ==> d.next < NUM && d.next != UsedId(w.q) && !w.q.desc[d.next].hasNext
  {
    UsedIsFlying(w);
    assert DescOk(w.q, w.l, UsedId(w.q));
  }

  /** Reclaiming leaves nothing held and does not touch what the device has. */
  lemma ReapStages(w: Tx)
    requires TxInv(w) && w.q.lastUsed != w.q.usedIdx
    requires UsedId(w.q) < NUM && w.ticket[UsedId(w.q)] < |w.fate|
    ensures |w.reclaimed| < |w.sent| && |Reap(w).l.stage| == NUM
    ensures forall d: nat :: d < NUM ==>
              && (Reap(w).l.stage[d].Held? ==> w.l.stage[d].Held?)
              && (Reap(w).l.stage[d].InDevice? <==> w.l.stage[d].InDevice?)
  {
    UsedIsFlying(w);
    ReapTxKeeps(w);
    ReclaimedFits(Reap(w));
    assert DescOk(w.q, w.l, UsedId(w.q));
  }

  lemma ReapHistory(w: Tx)
    requires TxInv(w) && w.q.lastUsed != w.q.usedIdx && UsedId(w.q) < NUM && w.ticket[UsedId(w.q)] < |w.fate|
    requires Inv(Reap(w).q, Reap(w).l)
    ensures forall t: nat :: t < |w.fate| ==> FateOk(Reap(w), t)
    ensures forall k: nat :: k <= |w.reclaimed| ==> ReclaimedAt(Reap(w), k)
  {
    UsedIsFlying(w);
    var g := UsedId(w.q);
    var w' := Reap(w);
    assert DescOk(w.q, w.l, g) && HeadOk(w, g);
    forall t: nat | t < |w'.fate|
      ensures FateOk(w', t)
    {
      assert FateOk(w, t);
    }
    forall k: nat | k < |w'.reclaimed|
      ensures ReclaimedAt(w', k)
    {
      if k < |w.reclaimed| {
        assert ReclaimedAt(w, k);
      }
    }
  }

  lemma ReapTxKeeps(w: Tx)
    requires TxInv(w) && w.q.lastUsed != w.q.usedIdx
    ensures UsedId(w.q) < NUM && w.ticket[UsedId(w.q)] < |w.fate|
    ensures TxInv(Reap(w))
  {
    UsedIsFlying(w);
    ReapKeeps(w.q, w.l);
    var g := UsedId(w.q);
    ReapHistory(w);
    var w' := Reap(w);
    assert DescOk(w.q, w.l, g) && HeadOk(w, g);
    forall h: nat | h < NUM
      ensures HeadOk(w', h)
    {
      assert HeadOk(w, h) && DescOk(w.q, w.l, h);
    }
    PostedUnmoved(w, w');
  }

  /** A turn of the loop reclaims the oldest submission that waits, and no other. */
  lemma ReapTakesOldest(w: Tx)
    requires TxInv(w) && w.q.lastUsed != w.q.usedIdx
    ensures UsedId(w.q) < NUM && w.ticket[UsedId(w.q)] < |w.fate|
    ensures Reap(w).reclaimed + Waiting(Reap(w)) == w.reclaimed + Waiting(w)
  {
    UsedIsFlying(w);
    assert Reap(w).l.done == w.l.done[1..];
    assert Waiting(w) == [w.ticket[UsedId(w.q)]] + Waiting(Reap(w));
  }

  /** What the device reads is the frame as eth_send was given it, padded. */
  lemma GatherIsFrame(w: Tx, h: nat)
    requires TxInv(w) && h < NUM && Outstanding(w.l.stage[h])
    ensures w.ticket[h] < |w.sent| && Gather(w, h) == OnWire(w.sent[w.ticket[h]])
  {
    assert HeadOk(w, h);
    var f := w.sent[w.ticket[h]];
    assert Covered(w.bufs, w.q.desc[h]) == Zeros(HDR_LEN);
    assert Covered(w.bufs, w.q.desc[w.q.desc[h].next]) == Padded(f);
  }

  /** The device reads the submissions in the order they were made. */
  lemma ConsumeReads(w: Tx)
    requires TxInv(w) && w.q.availIdx != w.q.devAvail
    ensures w.l.posted != [] && w.l.posted[0] < NUM
    ensures w.q.availRing[w.q.devAvail % NUM] == w.l.posted[0]
    ensures |w.wire| < |w.sent| && Gather(w, w.l.posted[0]) == OnWire(w.sent[|w.wire|])
    ensures Outstanding(w.l.stage[w.l.posted[0]])
  {
    NothingPosted(w.q, w.l);
    DevicePopKeeps(w.q, w.l);
    assert PostedTicket(w, 0) && PostedAt(w.l, 0);
    GatherIsFrame(w, w.l.posted[0]);
  }

  lemma ConsumePosted(w: Tx, w': Tx)
    requires TxInv(w) && |w.l.posted| > 0
    requires w'.ticket == w.ticket && |w'.wire| == |w.wire| + 1 && w'.l.posted == w.l.posted[1..]
    ensures forall i: nat :: i < |w'.l.posted| ==> PostedTicket(w', i)
  {
    forall i: nat | i < |w'.l.posted|
      ensures PostedTicket(w', i)
    {
      assert PostedTicket(w, i + 1);
    }
  }

  lemma ConsumeKeeps(w: Tx)
    requires TxInv(w) && w.q.availIdx != w.q.devAvail
    ensures w.q.availRing[w.q.devAvail % NUM] < NUM
    ensures TxInv(Consume(w))
  {
    hide Gather, Covered;
    ConsumeReads(w);
    DevicePopKeeps(w.q, w.l);
    var w' := Consume(w);
    HistoryUnmoved(w, w');
    ConsumePosted(w, w');
  }

  lemma CompleteKeeps(w: Tx, e: UsedElem)
    requires TxInv(w) && e.id < NUM && w.l.stage[e.id].InDevice?
    ensures TxInv(Complete(w, e))
  {
    DevicePushKeeps(w.q, w.l, e);
    HistoryUnmoved(w, Complete(w, e));
    PostedUnmoved(w, Complete(w, e));
  }

  // ---------------------------------------------------------------- whole runs

  datatype Step =
    | AllocStep | GiveBackStep(id: nat) | FillStep(id: nat, f: Frame)
    | DescribeStep(hdr: nat, frm: nat, len: nat) | SubmitStep(hdr: nat, f: Frame) | ReapStep
    | ConsumeStep | CompleteStep(e: UsedElem)

  /**
  When a step may happen.  The driver frees, fills, describes and submits descriptors it
  holds; the ring tests are the comparisons of indices the code makes; a device that
  keeps to the protocol returns chains it took.
  */
  ghost predicate Enabled(w: Tx, s: Step) {
    Sized(w) &&
    match s
    case AllocStep => true
    case GiveBackStep(id) => id < NUM && w.l.stage[id].Held?
    case FillStep(id, f) => id < NUM && w.l.stage[id].Held? && |f| <= FRAME_MAX
    case DescribeStep(hdr, frm, _) =>
      hdr < NUM && frm < NUM && w.l.stage[hdr].Held? && w.l.stage[frm].Held?
    case SubmitStep(hdr, f) => Ready(w, hdr, f)
    case ReapStep =>
      w.q.lastUsed != w.q.usedIdx && UsedId(w.q) < NUM && w.ticket[UsedId(w.q)] < |w.fate|
    case ConsumeStep => w.q.availIdx != w.q.devAvail && w.q.availRing[w.q.devAvail % NUM] < NUM
    case CompleteStep(e) => e.id < NUM && w.l.stage[e.id].InDevice?
  }

  ghost function After(w: Tx, s: Step): Tx
    requires Enabled(w, s)
  {
    match s
    case AllocStep => Alloc(w)
    case GiveBackStep(id) => GiveBack(w, id)
    case FillStep(id, f) => Fill(w, id, f)
    case DescribeStep(hdr, frm, len) => Describe(w, hdr, frm, len)
    case SubmitStep(hdr, f) => Submit(w, hdr, f)
    case ReapStep => Reap(w)
    case ConsumeStep => Consume(w)
    case CompleteStep(e) => Complete(w, e)
  }

  lemma StepKeeps(w: Tx, s: Step)
    requires TxInv(w) && Enabled(w, s)
    ensures TxInv(After(w, s))
  {
    match s
    case AllocStep => AllocTxKeeps(w);
    case GiveBackStep(id) => GiveBackKeeps(w, id);
    case FillStep(id, f) => FillKeeps(w, id, f);
    case DescribeStep(hdr, frm, len) => DescribeKeeps(w, hdr, frm, len);
    case SubmitStep(hdr, f) => SubmitKeeps(w, hdr, f);
    case ReapStep => ReapTxKeeps(w);
    case ConsumeStep => ConsumeKeeps(w);
    case CompleteStep(e) => CompleteKeeps(w, e);
  }

  ghost predicate IsRun(ws: seq<Tx>, steps: seq<Step>) {
    && |ws| == |steps| + 1
    && |ws[0].bufs| == NUM && ws[0] == InitTx(ws[0].bufs)
    && (forall i: nat :: i < |steps| ==> Enabled(ws[i], steps[i]) && ws[i + 1] == After(ws[i], steps[i]))
  }

  /** Every interleaving of driver and device work, of any length, keeps the invariant. */
  lemma {:induction false} EveryRunIsSafe(ws: seq<Tx>, steps: seq<Step>, n: nat)
    requires IsRun(ws, steps) && n <= |steps|
    ensures TxInv(ws[n])
  {
    if n == 0 {
      InitTxKeeps(ws[0].bufs);
    } else {
      EveryRunIsSafe(ws, steps, n - 1);
      StepKeeps(ws[n - 1], steps[n - 1]);
    }
  }

  /** The device has read exactly the accepted frames, in order, padded, up to some point. */
  lemma WireIsPrefix(ws: seq<Tx>, steps: seq<Step>, n: nat)
    requires IsRun(ws, steps) && n <= |steps|
    ensures |ws[n].wire| <= |ws[n].sent|
    ensures forall i: nat :: i < |ws[n].wire| ==> ws[n].wire[i] == OnWire(ws[n].sent[i])
    ensures ws[n].q.availIdx == ws[n].q.devAvail ==> |ws[n].wire| == |ws[n].sent|
  {
    EveryRunIsSafe(ws, steps, n);
    NothingPosted(ws[n].q, ws[n].l);
  }

  /**
  Every submission is out under exactly one head or reclaimed exactly once; two that are
  out share neither buffer nor descriptor.
  */
  lemma SubmittedOnceReclaimedOnce(ws: seq<Tx>, steps: seq<Step>, n: nat)
    requires IsRun(ws, steps) && n <= |steps|
    ensures var w := ws[n];
            && Distinct(w.reclaimed)
            && |w.fate| == |w.sent|
            && (forall t: nat :: t < |w.sent| ==> (w.fate[t].Reclaimed? <==> t in w.reclaimed))
            && (forall t, u :: 0 <= t < u < |w.sent| && w.fate[t].Flying? && w.fate[u].Flying? ==>
                  var h, g := w.fate[t].head, w.fate[u].head;
                  h < NUM && g < NUM && h < |w.q.desc| && g < |w.q.desc| &&
                  h != g && w.q.desc[h].next != w.q.desc[g].next)
  {
    EveryRunIsSafe(ws, steps, n);
    var w := ws[n];
    forall i, j | 0 <= i < j < |w.reclaimed|
      ensures w.reclaimed[i] != w.reclaimed[j]
    {
      assert ReclaimedAt(w, i) && ReclaimedAt(w, j);
    }
    forall t: nat | t < |w.sent|
      ensures w.fate[t].Reclaimed? <==> t in w.reclaimed
    {
      assert FateOk(w, t);
      if t in w.reclaimed {
        var k :| 0 <= k < |w.reclaimed| && w.reclaimed[k] == t;
        assert ReclaimedAt(w, k);
      }
    }
    forall t, u | 0 <= t < u < |w.sent| && w.fate[t].Flying? && w.fate[u].Flying?
      ensures var h, g := w.fate[t].head, w.fate[u].head;
              h < NUM && g < NUM && h != g && w.q.desc[h].next != w.q.desc[g].next
    {
      assert FateOk(w, t) && FateOk(w, u);
      var h, g := w.fate[t].head, w.fate[u].head;
      assert HeadOk(w, h) && HeadOk(w, g) && DescOk(w.q, w.l, h) && DescOk(w.q, w.l, g);
    }
  }

  lemma ReclaimedFits(w: Tx)
    requires TxInv(w)
    ensures |w.reclaimed| <= |w.sent|
  {
    forall i: nat | i < |w.reclaimed|
      ensures w.reclaimed[i] < |w.sent|
    {
      assert ReclaimedAt(w, i);
    }
    forall i, j | 0 <= i < j < |w.reclaimed|
      ensures w.reclaimed[i] != w.reclaimed[j]
    {
      assert ReclaimedAt(w, i) && ReclaimedAt(w, j);
    }
    AtMost(w.reclaimed, |w.sent|);
  }

  /** eth_send drops a frame for want of descriptors exactly when 32 frames are out. */
  lemma BusyMeansFull(w: Tx)
    requires TxInv(w) && (forall d: nat :: d < NUM ==> !w.l.stage[d].Held?)
    ensures |w.l.free| < 2 <==> |InFlight(w.l)| == NUM / 2
  {
    NoneOf(w.l.stage, HeldKind);
    forall h: nat | h < NUM && Outstanding(w.l.stage[h])
      ensures w.q.desc[h].hasNext
    {
      assert HeadOk(w, h);
    }
    ListAndChains(w.q, w.l);
  }
}
