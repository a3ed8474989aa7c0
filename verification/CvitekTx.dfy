/**
Transmission (driver/eth/cvitek_eth.c, cvitek_reclaim_tx and cvitek_eth_send) with the DMA
engine running at any moment between two of the driver's writes.
*/
module CvitekTx {

  import opened Bytes
  import opened CvitekRings

  const N: nat := 64

  /** A descriptor: OWN, the 11-bit buffer length, end of ring, and the buffer it points at. */
  datatype Desc = Desc(own: bool, tbs: nat, last: bool, at: nat)

  /** The ring and the engine's position; `sent` are the frames accepted, `wire` what has left. */
  datatype Tx = Tx(d: seq<Desc>, buf: seq<seq<Byte>>, dma: nat, sent: seq<Frame>, wire: seq<Frame>)

  /** The length field keeps 11 bits. */
  function Tbs(len: nat): nat { len % 0x800 }

  function OnWire(f: Frame): Frame {
    Padded(f)[..Tbs(|Padded(f)|)]
  }

  /** Of the lengths the driver accepts, exactly those below 2048 leave whole. */
  lemma WholeIffFits(f: Frame)
    requires |f| <= BUF_SIZE
    ensures OnWire(f) == Padded(f) <==> |f| < BUF_SIZE
  {
    assert Padded(f)[..|Padded(f)|] == Padded(f);
  }

  // ---------------------------------------------------------------- invariant

  predicate Sized(s: Tx) {
    && |s.d| == N && |s.buf| == N && (forall i :: 0 <= i < N ==> |s.buf[i]| == BUF_SIZE)
    && |s.wire| <= |s.sent| <= |s.wire| + N
  }

  /** Accepted frame k is with the engine: its slot is owned, described and filled. */
  ghost predicate Busy(s: Tx, k: nat)
    requires Sized(s) && |s.wire| <= k < |s.sent|
  {
    var i := k % N;
    var p := Padded(s.sent[k]);
    s.d[i] == Desc(true, Tbs(|p|), i == N - 1, i) && |p| <= BUF_SIZE && p == s.buf[i][..|p|]
  }

  /** The slots of the next frames belong to the driver. */
  ghost predicate Idle(s: Tx, k: nat)
    requires Sized(s) && |s.sent| <= k < |s.wire| + N
  {
    !s.d[k % N].own
  }

  ghost predicate Inv(s: Tx) {
    && Sized(s) && s.dma == |s.wire| % N
    && (forall k: nat :: |s.wire| <= k < |s.sent| ==> Busy(s, k))
    && (forall k: nat :: |s.sent| <= k < |s.wire| + N ==> Idle(s, k))
    && (forall k :: 0 <= k < |s.wire| ==> s.wire[k] == OnWire(s.sent[k]))
  }

  /** How many slots to go up to get from one to the other, going round. */
  function Round(from: nat, to: nat): int {
    if to >= from then to - from else to + N - from
  }

  /** Slots at a distance of less than `inFlight` from the engine, going round. */
  predicate Between(i: nat, dma: nat, inFlight: int) {
    Round(dma, i) < inFlight
  }

  /** The owned descriptors are the cyclic interval from the engine's position to the head, full ring included. */
  lemma OwnedInterval(s: Tx, i: nat)
    requires Inv(s) && i < N
    ensures s.d[i].own <==> Between(i, s.dma, |s.sent| - |s.wire|)
  {
    var dist: nat := Round(s.dma, i);
    var k := |s.wire| + dist;
    assert k % N == i;
    if k < |s.sent| {
      assert Busy(s, k);
    } else {
      assert Idle(s, k);
    }
  }

  // ---------------------------------------------------------------- steps

  /** The engine: a frame it owns goes out, the descriptor comes back. */
  function Transmit(s: Tx): Tx
    requires Sized(s) && s.dma < N
  {
    var x := s.d[s.dma];
    if !x.own || x.at >= N || x.tbs > BUF_SIZE then s else
    s.(d := s.d[s.dma := x.(own := false)], dma := if x.last then 0 else s.dma + 1,
       wire := s.wire + [s.buf[x.at][..x.tbs]])
  }

  /** The engine never finds a descriptor it cannot serve: while a frame is with it, its step sends the oldest. */
  lemma TransmitKeeps(s: Tx)
    requires Inv(s)
    ensures Inv(Transmit(s))
    ensures |Transmit(s).wire| == |s.wire| + (if |s.wire| < |s.sent| then 1 else 0)
  {
    var s' := Transmit(s);
    var w := |s.wire|;
    if w < |s.sent| {
      assert Busy(s, w);
      assert s'.wire[w] == OnWire(s.sent[w]);
      NextSlot(w, N);
      forall k: nat | w + 1 <= k < |s.sent|
        ensures Busy(s', k)
      {
        assert Busy(s, k);
        SlotsDiffer(w, k, N);
      }
      forall k: nat | |s.sent| <= k < w + 1 + N
        ensures Idle(s', k)
      {
        if k < w + N {
          assert Idle(s, k);
        }
      }
    } else {
      assert Idle(s, w);
    }
  }

  /** A write to a buffer or descriptor that stays with the driver. */
  function Write(s: Tx, i: nat, x: Desc, b: seq<Byte>): Tx
    requires Sized(s) && i < N
  {
    s.(d := s.d[i := x], buf := s.buf[i := b])
  }

  lemma WriteKeeps(s: Tx, x: Desc, b: seq<Byte>)
    requires Inv(s) && |s.sent| < |s.wire| + N && !x.own && |b| == BUF_SIZE
    ensures Inv(Write(s, |s.sent| % N, x, b))
  {
    var s' := Write(s, |s.sent| % N, x, b);
    forall k: nat | |s.wire| <= k < |s.sent|
      ensures Busy(s', k)
    {
      assert Busy(s, k);
      SlotsDiffer(k, |s.sent|, N);
    }
    forall k: nat | |s.sent| <= k < |s.wire| + N
      ensures Idle(s', k)
    {
      assert Idle(s, k);
    }
  }

  /** Setting OWN on the described and filled slot of the next frame. */
  function Post(s: Tx, f: Frame): Tx
    requires Sized(s)
  {
    var i := |s.sent| % N;
    s.(d := s.d[i := s.d[i].(own := true)], sent := s.sent + [f])
  }

  lemma PostKeeps(s: Tx, f: Frame)
    requires Inv(s) && |s.sent| < |s.wire| + N && |f| <= BUF_SIZE
    requires var i := |s.sent| % N;
             && s.d[i] == Desc(false, Tbs(|Padded(f)|), i == N - 1, i)
             && Padded(f) == s.buf[i][..|Padded(f)|]
    ensures Inv(Post(s, f))
  {
    var s' := Post(s, f);
    forall k: nat | |s.wire| <= k < |s'.sent|
      ensures Busy(s', k)
    {
      if k < |s.sent| {
        assert Busy(s, k);
        SlotsDiffer(k, |s.sent|, N);
      }
    }
    forall k: nat | |s'.sent| <= k < |s.wire| + N
      ensures Idle(s', k)
    {
      assert Idle(s, k);
      SlotsDiffer(|s.sent|, k, N);
    }
  }

  // ---------------------------------------------------------------- runs

  datatype Step = Engine | Fill(x: Desc, b: seq<Byte>) | Own(f: Frame)

  /** What the driver may do: touch the head slot while it is not the engine's, and hand it over filled. */
  predicate Enabled(s: Tx, step: Step)
    requires Sized(s)
  {
    var i := |s.sent| % N;
    match step
    case Engine => s.dma < N
    case Fill(x, b) => !s.d[i].own && !x.own && |b| == BUF_SIZE
    case Own(f) =>
      && |f| <= BUF_SIZE && s.d[i] == Desc(false, Tbs(|Padded(f)|), i == N - 1, i)
      && Padded(f) == s.buf[i][..|Padded(f)|]
  }

  function Do(s: Tx, step: Step): Tx
    requires Sized(s) && Enabled(s, step)
  {
    match step
    case Engine => Transmit(s)
    case Fill(x, b) => Write(s, |s.sent| % N, x, b)
    case Own(f) => Post(s, f)
  }

  ghost predicate IsStep(s: Tx, step: Step, s': Tx) {
    Sized(s) && Enabled(s, step) && s' == Do(s, step)
  }

  ghost predicate IsRun(ws: seq<Tx>, steps: seq<Step>) {
    && |ws| == |steps| + 1 && Inv(ws[0])
    && forall i: nat :: i < |steps| ==> IsStep(ws[i], steps[i], ws[i + 1])
  }

  /** A slot that is not owned at the head means room in the ring. */
  lemma RoomIffFree(s: Tx)
    requires Inv(s)
    ensures Sized(s) && (s.d[|s.sent| % N].own <==> |s.sent| == |s.wire| + N)
  {
    if |s.sent| == |s.wire| + N {
      NextSlot(|s.wire|, N);
      assert Busy(s, |s.wire|);
    } else {
      assert Idle(s, |s.sent|);
    }
  }

  lemma StepKeeps(s: Tx, step: Step)
    requires Inv(s) && Enabled(s, step)
    ensures Inv(Do(s, step)) && s.sent <= Do(s, step).sent && s.wire <= Do(s, step).wire
  {
    RoomIffFree(s);
    match step
    case Engine => TransmitKeeps(s);
    case Fill(x, b) => WriteKeeps(s, x, b);
    case Own(f) => PostKeeps(s, f);
  }

  /**
  In every interleaving of the driver and the engine: what has left is the accepted frames in order,
  each padded and cut by the length field, and the owned descriptors are those of the frames that
  have not left yet.
  */
  lemma {:induction false} FramesLeaveInOrder(ws: seq<Tx>, steps: seq<Step>, n: nat, k: nat, i: nat)
    requires IsRun(ws, steps) && n < |ws| && i < N
    ensures Inv(ws[n]) && |ws[n].wire| <= |ws[n].sent|
    ensures k < |ws[n].wire| ==> ws[n].wire[k] == OnWire(ws[n].sent[k])
    ensures ws[n].d[i].own <==> Between(i, ws[n].dma, |ws[n].sent| - |ws[n].wire|)
    decreases n
  {
    if n > 0 {
      assert IsStep(ws[n - 1], steps[n - 1], ws[n]);
      FramesLeaveInOrder(ws, steps, n - 1, k, i);
      StepKeeps(ws[n - 1], steps[n - 1]);
    }
    OwnedInterval(ws[n], i);
  }

  // ---------------------------------------------------------------- the driver

  class TxRing {
    const desc: array<Desc>
    const bufs: array<seq<Byte>>
    var head: nat
    var tail: nat
    var dma: nat
    ghost var w: Tx

    ghost predicate Shown()
      reads this, desc, bufs
    {
      w.d == desc[..] && w.buf == bufs[..] && w.dma == dma && Inv(w) && dma < N && tail < N
    }

    ghost predicate Valid()
      reads this, desc, bufs
    {
      Shown() && head == |w.sent| % N
    }

    /** cvitek_setup_tx_ring */
    constructor ()
      ensures Valid() && w.sent == [] && w.wire == [] && fresh(desc) && fresh(bufs)
    {
      desc := new Desc[N](i => Desc(false, 0, i == N - 1, i));
      bufs := new seq<Byte>[N](_ => Zeros(BUF_SIZE));
      head, tail, dma := 0, 0, 0;
      new;
      w := Tx(desc[..], bufs[..], 0, [], []);
      assert forall k: nat :: k < N ==> k % N == k;
    }

    /** The engine takes any number of steps. */
    method EngineRuns()
      requires Shown()
      modifies desc, `dma, `w
      ensures Shown() && w.sent == old(w.sent) && old(w.wire) <= w.wire && w.buf == old(w.buf)
      ensures OnlyClears(old(w), w)
    {
      var steps: nat := *;
      while steps > 0
        invariant Shown() && w.sent == old(w.sent) && old(w.wire) <= w.wire && w.buf == old(w.buf)
        invariant OnlyClears(old(w), w)
      {
        TransmitKeeps(w);
        w := Transmit(w);
        var x := desc[dma];
        if x.own && x.at < N && x.tbs <= BUF_SIZE {
          desc[dma] := x.(own := false);
          dma := if x.last then 0 else dma + 1;
        }
        steps := steps - 1;
      }
    }

    /**
    cvitek_reclaim_tx.  The tail moves towards the head, over descriptors that have come back and no
    others, and stops at the head or at one that has not.
    */
    method Reclaim()
      requires Valid()
      modifies desc, `dma, `w, `tail
      ensures Valid() && w.sent == old(w.sent) && old(w.wire) <= w.wire && w.buf == old(w.buf)
      ensures tail == head || desc[tail].own
      ensures Round(old(tail), tail) <= Round(old(tail), head)
      ensures forall i :: 0 <= i < N && Between(i, old(tail), Round(old(tail), tail)) ==> !desc[i].own
    {
      while tail != head
        invariant Valid() && w.sent == old(w.sent) && old(w.wire) <= w.wire && w.buf == old(w.buf)
        invariant Round(old(tail), tail) + Round(tail, head) == Round(old(tail), head)
        invariant forall i :: 0 <= i < N && Between(i, old(tail), Round(old(tail), tail)) ==> !desc[i].own
        decreases Round(tail, head)
      {
        hide Inv;
        EngineRuns();
        if desc[tail].own {
          break;
        }
        tail := (tail + 1) % N;
      }
    }

    /** Copying the frame into the buffer of the head slot, which the driver owns. */
    method FillBuffer(f: Frame)
      requires Valid() && |f| <= BUF_SIZE && |w.sent| < |w.wire| + N
      modifies bufs, `w
      ensures Valid() && w.sent == old(w.sent) && w.wire == old(w.wire) && w.d == old(w.d)
      ensures w.buf[head][..|Padded(f)|] == Padded(f)
    {
      var p := Padded(f);
      assert Idle(w, |w.sent|);
      var b := p + bufs[head][|p|..];
      WriteKeeps(w, w.d[head], b);
      assert Write(w, head, w.d[head], b).d == w.d;
      w := Write(w, head, w.d[head], b);
      bufs[head] := b;
      assert b[..|p|] == p;
    }

    /** The words of the head descriptor other than the one with OWN. */
    method Describe(len: nat)
      requires Valid() && |w.sent| < |w.wire| + N
      modifies desc, `w
      ensures Valid() && w.sent == old(w.sent) && w.wire == old(w.wire) && w.buf == old(w.buf)
      ensures w.d[head] == Desc(false, Tbs(len), head == N - 1, head)
    {
      var x := Desc(false, Tbs(len), head == N - 1, head);
      WriteKeeps(w, x, w.buf[head]);
      assert Write(w, head, x, w.buf[head]).buf == w.buf;
      w := Write(w, head, x, w.buf[head]);
      desc[head] := x;
    }

    /** The head slot holds the frame and lacks only OWN. */
    ghost predicate Ready(f: Frame)
      requires Valid()
      reads this, desc, bufs
    {
      && |f| <= BUF_SIZE && |w.sent| < |w.wire| + N
      && w.d[head] == Desc(false, Tbs(|Padded(f)|), head == N - 1, head)
      && Padded(f) == w.buf[head][..|Padded(f)|]
    }

    method Prepare(f: Frame)
      requires Valid() && |f| <= BUF_SIZE && |w.sent| < |w.wire| + N
      modifies desc, bufs, `dma, `w
      ensures Valid() && Ready(f) && w.sent == old(w.sent) && old(w.wire) <= w.wire
    {
      FillBuffer(f);
      hide Inv;
      EngineRuns();
      Describe(|Padded(f)|);
      EngineRuns();
    }

    /** OWN is written last; the engine may send the frame before the head moves on. */
    method Commit(f: Frame)
      requires Valid() && Ready(f)
      modifies desc, `dma, `w, `head
      ensures Valid() && w.sent == old(w.sent) + [f] && old(w.wire) <= w.wire
    {
      PostKeeps(w, f);
      w := Post(w, f);
      desc[head] := desc[head].(own := true);
      hide Inv;
      EngineRuns();
      NextSlot(|w.sent| - 1, N);
      head := (head + 1) % N;
    }

    /**
    cvitek_eth_send.  A frame of up to 2048 bytes is accepted whenever the ring was not full.  An
    accepted frame is queued behind the others; a refused one is not.
    */
    method Send(f: Frame) returns (ok: bool)
      requires Valid()
      modifies desc, bufs, `dma, `w, `head, `tail
      ensures Valid() && old(w.wire) <= w.wire
      ensures w.sent == if ok then old(w.sent) + [f] else old(w.sent)
      ensures ok ==> |f| <= BUF_SIZE
      ensures |f| <= BUF_SIZE && |old(w.sent)| < |old(w.wire)| + N ==> ok
    {
      hide Inv, Ready;
      if |f| > BUF_SIZE {
        return false;
      }
      Reclaim();
      EngineRuns();
      RoomIffFree(w);
      if desc[head].own {
        return false;
      }
      Prepare(f);
      Commit(f);
      return true;
    }
  }

  /** The engine changes no descriptor of the driver's, and only clears OWN. */
  predicate OnlyClears(s: Tx, s': Tx) {
    && |s'.d| == |s.d|
    && forall i :: 0 <= i < |s.d| ==> s'.d[i] == s.d[i] || (s.d[i].own && s'.d[i] == s.d[i].(own := false))
  }
}
