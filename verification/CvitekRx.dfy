/**
Reception (driver/eth/cvitek_eth.c, cvitek_requeue_rx and cvitek_eth_recv) with the DMA engine
storing frames at any moment.
*/
module CvitekRx {

  import opened Bytes
  import opened CvitekRings

  const N: nat := 256

  /** The buffer length in the descriptor: what the engine may store, frame check sequence included. */
  const ROOM: nat := 2047

  /** des0 is OWN, the error summary and the frame length; des1 and des2 end of ring and buffer. */
  datatype Desc = Desc(own: bool, es: bool, fl: nat, last: bool, at: nat)

  datatype Arrival = Arrival(data: Frame, fcs: seq<Byte>, bad: bool)

  /**
  `got` are the frames the engine has stored, `taken` how many of them the driver is done with, and
  `given` what it has read from their slots for its callers.
  */
  datatype Rx = Rx(d: seq<Desc>, buf: seq<seq<Byte>>, dma: nat, got: seq<Arrival>, taken: nat, given: seq<Frame>)

  predicate Fits(a: Arrival) { |a.fcs| == 4 && |a.data| + 4 <= ROOM }

  // ---------------------------------------------------------------- invariant

  predicate Sized(s: Rx) {
    && |s.d| == N && |s.buf| == N && (forall i :: 0 <= i < N ==> |s.buf[i]| == BUF_SIZE)
    && s.taken <= |s.got| <= s.taken + N
  }

  /** Frame k is stored and waits in its slot. */
  ghost predicate Full(s: Rx, k: nat)
    requires Sized(s) && s.taken <= k < |s.got|
  {
    var i := k % N;
    var a := s.got[k];
    Fits(a) && !s.d[i].own && s.d[i].es == a.bad && s.d[i].fl == |a.data| + 4 && s.buf[i][..|a.data|] == a.data
  }

  /** The slot of a frame yet to come is the engine's, and complete. */
  ghost predicate Free(s: Rx, k: nat)
    requires Sized(s) && |s.got| <= k < s.taken + N
  {
    var i := k % N;
    s.d[i].own && s.d[i].last == (i == N - 1) && s.d[i].at == i
  }

  ghost predicate Inv(s: Rx) {
    && Sized(s) && s.dma == |s.got| % N
    && (forall k: nat :: s.taken <= k < |s.got| ==> Full(s, k))
    && (forall k: nat :: |s.got| <= k < s.taken + N ==> Free(s, k))
    && s.given == Goods(s.got[..s.taken])
  }

  /** The error-free frames, in order. */
  function Goods(got: seq<Arrival>): seq<Frame> {
    if got == [] then []
    else
      var a := got[|got| - 1];
      Goods(got[..|got| - 1]) + (if a.bad then [] else [a.data])
  }

  lemma GoodsStep(got: seq<Arrival>, got': seq<Arrival>, k: nat)
    requires k <= |got| && got <= got'
    ensures got'[..k] == got[..k]
    ensures k < |got'| ==> Goods(got'[..k + 1]) == Goods(got[..k]) + (if got'[k].bad then [] else [got'[k].data])
  {
    assert got'[..k] == got[..k];
    if k < |got'| {
      assert got'[..k + 1][..k] == got'[..k];
    }
  }

  /** The engine owns the cyclic interval from its own position round to the driver's. */
  lemma OwnedInterval(s: Rx, i: nat)
    requires Inv(s) && i < N
    ensures s.d[i].own <==> (if i >= s.dma then i - s.dma else i + N - s.dma) < s.taken + N - |s.got|
  {
    hide Goods;
    var dist: nat := if i >= s.dma then i - s.dma else i + N - s.dma;
    var k := |s.got| + dist;
    SlotAhead(|s.got|, dist, i);
    if k < s.taken + N {
      assert Free(s, k);
    } else {
      NextSlot(k - N, N);
      assert Full(s, k - N);
    }
  }

  lemma SlotAhead(g: nat, dist: nat, i: nat)
    requires i < N && (g % N + dist == i || g % N + dist == i + N)
    ensures (g + dist) % N == i
  {
  }

  // ---------------------------------------------------------------- steps

  /** The engine stores a frame, or drops it when the driver has not freed the next slot. */
  function Store(s: Rx, a: Arrival): Rx
    requires Sized(s) && s.dma < N && Fits(a)
  {
    var x := s.d[s.dma];
    if !x.own || x.at >= N then s else
    var bytes := a.data + a.fcs;
    s.(d := s.d[s.dma := x.(own := false, es := a.bad, fl := |bytes|)],
       buf := s.buf[x.at := bytes + s.buf[x.at][|bytes|..]],
       dma := if x.last then 0 else s.dma + 1, got := s.got + [a])
  }

  lemma StoreKeeps(s: Rx, a: Arrival)
    requires Inv(s) && Fits(a)
    ensures Inv(Store(s, a)) && Store(s, a).given == s.given
    ensures Store(s, a).got == if |s.got| < s.taken + N then s.got + [a] else s.got
  {
    var s' := Store(s, a);
    var g := |s.got|;
    NextSlot(g, N);
    GoodsStep(s.got, s'.got, s.taken);
    if g < s.taken + N {
      assert Free(s, g);
      assert s'.buf[s.dma][..|a.data|] == a.data;
      forall k: nat | s.taken <= k < g + 1
        ensures Full(s', k)
      {
        if k < g {
          assert Full(s, k);
          SlotsDiffer(k, g, N);
        }
      }
      forall k: nat | g + 1 <= k < s.taken + N
        ensures Free(s', k)
      {
        assert Free(s, k);
        SlotsDiffer(g, k, N);
      }
    } else {
      NextSlot(s.taken, N);
      assert Full(s, s.taken);
    }
  }

  /** The words without OWN, in a slot that is the driver's. */
  function Describe(s: Rx): Rx
    requires Sized(s)
  {
    var i := s.taken % N;
    s.(d := s.d[i := s.d[i].(last := i == N - 1, at := i)])
  }

  lemma DescribeKeeps(s: Rx)
    requires Inv(s) && s.taken < |s.got|
    ensures Inv(Describe(s))
  {
    var s' := Describe(s);
    forall k: nat | s.taken <= k < |s.got|
      ensures Full(s', k)
    {
      assert Full(s, k);
    }
    forall k: nat | |s.got| <= k < s.taken + N
      ensures Free(s', k)
    {
      assert Free(s, k);
      SlotsDiffer(s.taken, k, N);
    }
  }

  /** The length cvitek_eth_recv takes from des0: 14 bits, less the check sequence, at most a buffer. */
  function FrameLength(fl: nat): (r: nat)
    ensures r <= BUF_SIZE
  {
    var n := fl % 0x4000;
    var m := if n >= 4 then n - 4 else n;
    if m > BUF_SIZE then BUF_SIZE else m
  }

  /** What the driver reads from its slot: nothing from a bad frame. */
  function Reading(s: Rx): seq<Frame>
    requires Sized(s)
  {
    var x := s.d[s.taken % N];
    if x.es then [] else [s.buf[s.taken % N][..FrameLength(x.fl)]]
  }

  /** The frame has been read, and OWN goes back to the engine. */
  function Release(s: Rx): Rx
    requires Sized(s)
  {
    var i := s.taken % N;
    s.(d := s.d[i := s.d[i].(own := true, es := false, fl := 0)], taken := s.taken + 1,
       given := s.given + Reading(s))
  }

  lemma ReleaseKeeps(s: Rx)
    requires Inv(s) && s.taken < |s.got|
    requires s.d[s.taken % N].last == (s.taken % N == N - 1) && s.d[s.taken % N].at == s.taken % N
    ensures Inv(Release(s))
    ensures Reading(s) == if s.got[s.taken].bad then [] else [s.got[s.taken].data]
  {
    var s' := Release(s);
    assert Full(s, s.taken);
    GoodsStep(s.got, s.got, s.taken);
    forall k: nat | s.taken + 1 <= k < |s.got|
      ensures Full(s', k)
    {
      assert Full(s, k);
      SlotsDiffer(s.taken, k, N);
    }
    forall k: nat | |s.got| <= k < s.taken + 1 + N
      ensures Free(s', k)
    {
      if k < s.taken + N {
        assert Free(s, k);
        SlotsDiffer(s.taken, k, N);
      } else {
        NextSlot(s.taken, N);
      }
    }
  }

  // ---------------------------------------------------------------- runs

  datatype Step = Arrive(a: Arrival) | Reword | Return

  /** The driver rewrites and returns the oldest waiting slot, and only when a frame waits there. */
  predicate Enabled(s: Rx, step: Step)
    requires Sized(s)
  {
    var x := s.d[s.taken % N];
    match step
    case Arrive(a) => s.dma < N && Fits(a)
    case Reword => !x.own
    case Return => !x.own && x.last == (s.taken % N == N - 1) && x.at == s.taken % N
  }

  function Do(s: Rx, step: Step): Rx
    requires Sized(s) && Enabled(s, step)
  {
    match step
    case Arrive(a) => Store(s, a)
    case Reword => Describe(s)
    case Return => Release(s)
  }

  ghost predicate IsStep(s: Rx, step: Step, s': Rx) {
    Sized(s) && Enabled(s, step) && s' == Do(s, step)
  }

  ghost predicate IsRun(ws: seq<Rx>, steps: seq<Step>) {
    && |ws| == |steps| + 1 && Inv(ws[0])
    && forall i: nat :: i < |steps| ==> IsStep(ws[i], steps[i], ws[i + 1])
  }

  lemma StepKeeps(s: Rx, step: Step)
    requires Inv(s) && Enabled(s, step)
    ensures Inv(Do(s, step)) && s.got <= Do(s, step).got && s.taken <= Do(s, step).taken
  {
    WaitingIffNotOwned(s);
    match step
    case Arrive(a) => StoreKeeps(s, a);
    case Reword => DescribeKeeps(s);
    case Return => ReleaseKeeps(s);
  }

  /**
  In every interleaving of the driver and the engine: what the driver has read for its callers is exactly
  the error-free frames among those it has taken, in arrival order, and the engine's descriptors are the
  exact interval.
  */
  lemma {:induction false} FramesArriveInOrder(ws: seq<Rx>, steps: seq<Step>, n: nat, i: nat)
    requires IsRun(ws, steps) && n < |ws| && i < N
    ensures Inv(ws[n]) && ws[n].taken <= |ws[n].got| && ws[n].given == Goods(ws[n].got[..ws[n].taken])
    ensures ws[n].d[i].own <==>
            (if i >= ws[n].dma then i - ws[n].dma else i + N - ws[n].dma) < ws[n].taken + N - |ws[n].got|
    decreases n
  {
    if n > 0 {
      assert IsStep(ws[n - 1], steps[n - 1], ws[n]);
      FramesArriveInOrder(ws, steps, n - 1, i);
      StepKeeps(ws[n - 1], steps[n - 1]);
    }
    OwnedInterval(ws[n], i);
  }

  class RxRing {
    const desc: array<Desc>
    const bufs: array<seq<Byte>>
    var cur: nat
    var dma: nat
    ghost var w: Rx

    ghost predicate Shown()
      reads this, desc, bufs
    {
      w.d == desc[..] && w.buf == bufs[..] && w.dma == dma && dma < N && Inv(w)
    }

    ghost predicate Valid()
      reads this, desc, bufs
    {
      Shown() && cur == w.taken % N
    }

    /** cvitek_setup_rx_ring */
    constructor ()
      ensures Valid() && w.got == [] && w.given == [] && w.taken == 0 && fresh(desc) && fresh(bufs)
    {
      desc := new Desc[N](i => Desc(true, false, 0, i == N - 1, i));
      bufs := new seq<Byte>[N](_ => Zeros(BUF_SIZE));
      cur, dma := 0, 0;
      new;
      w := Rx(desc[..], bufs[..], 0, [], 0, []);
      assert forall k: nat :: k < N ==> k % N == k;
    }

    /** The engine stores any number of frames. */
    method EngineRuns()
      requires Shown()
      modifies desc, bufs, `dma, `w
      ensures Shown() && w.taken == old(w.taken) && w.given == old(w.given)
      ensures old(w.got) <= w.got && Kept(old(w), w)
    {
      var steps: nat := *;
      while steps > 0
        invariant Shown() && w.taken == old(w.taken) && w.given == old(w.given)
        invariant old(w.got) <= w.got && Kept(old(w), w)
      {
        var a: Arrival := *;
        if Fits(a) {
          StoreKeeps(w, a);
          StoreKept(w, a);
          KeptTrans(old(w), w, Store(w, a));
          w := Store(w, a);
          var x := desc[dma];
          if x.own && x.at < N {
            var bytes := a.data + a.fcs;
            desc[dma] := x.(own := false, es := a.bad, fl := |bytes|);
            bufs[x.at] := bytes + bufs[x.at][|bytes|..];
            dma := if x.last then 0 else dma + 1;
          }
        }
        steps := steps - 1;
      }
    }

    /** cvitek_requeue_rx on the slot of the frame just read. */
    method Requeue()
      requires Valid() && w.taken < |w.got|
      modifies desc, bufs, `dma, `w
      ensures Shown() && w.taken == old(w.taken) + 1 && old(w.got) <= w.got
      ensures w.given == old(w.given) + old(Reading(w))
    {
      DescribeKeeps(w);
      w := Describe(w);
      desc[cur] := desc[cur].(last := cur == N - 1, at := cur);
      WaitingIffNotOwned(w);
      hide Inv, FrameLength;
      EngineRuns();
      WaitingIffNotOwned(w);
      ReleaseKeeps(w);
      w := Release(w);
      desc[cur] := desc[cur].(own := true, es := false, fl := 0);
    }

    /**
    cvitek_eth_recv.  If a frame was waiting, exactly the oldest one is used up.  What is returned is
    the frame just added to those given, cut to what the caller has room for; nothing is returned when
    none waited or the frame was bad.
    */
    method Recv(maxlen: nat) returns (r: Option<Frame>)
      requires Valid()
      modifies desc, bufs, `dma, `w, `cur
      ensures Valid() && old(w.got) <= w.got && old(w.taken) <= w.taken <= old(w.taken) + 1
      ensures old(w.taken) < |old(w.got)| ==> w.taken == old(w.taken) + 1
      ensures w.given == old(w.given) +
                (if w.taken > old(w.taken) && !w.got[old(w.taken)].bad then [w.got[old(w.taken)].data] else [])
      ensures if |w.given| == |old(w.given)| then r == None
              else var f := w.given[|old(w.given)|]; r == Some(f[..Min(|f|, maxlen)])
    {
      hide Inv, FrameLength, Reading;
      WaitingIffNotOwned(w);
      EngineRuns();
      WaitingIffNotOwned(w);
      if desc[cur].own {
        return None;
      }
      r := ReadSlot(maxlen);
      Requeue();
      NextSlot(old(w.taken), N);
      cur := (cur + 1) % N;
    }

    /** What the frame in the driver's slot is worth to the caller. */
    method ReadSlot(maxlen: nat) returns (r: Option<Frame>)
      requires Valid() && w.taken < |w.got|
      ensures Reading(w) == if w.got[w.taken].bad then [] else [w.got[w.taken].data]
      ensures r == if Reading(w) == [] then None else Some(Reading(w)[0][..Min(|Reading(w)[0]|, maxlen)])
    {
      WaitingIffNotOwned(w);
      hide Inv;
      var x := desc[cur];
      if x.es {
        return None;
      }
      var flen := FrameLength(x.fl);
      r := Some(bufs[cur][..Min(flen, maxlen)]);
      assert bufs[cur][..Min(flen, maxlen)] == bufs[cur][..flen][..Min(flen, maxlen)];
    }
  }

  /** A descriptor still owned at the driver's position means that no frame waits. */
  lemma WaitingIffNotOwned(s: Rx)
    requires Inv(s)
    ensures Sized(s) && (s.d[s.taken % N].own <==> |s.got| == s.taken)
    ensures s.taken < |s.got| ==> Full(s, s.taken)
  {
    if s.taken < |s.got| {
      assert Full(s, s.taken);
    } else {
      assert Free(s, s.taken);
    }
  }

  /** The engine leaves the slot the driver is reading alone, in content and in every word. */
  ghost predicate Kept(s: Rx, s': Rx) {
    && |s'.d| == |s.d| && |s'.buf| == |s.buf|
    && forall i :: 0 <= i < |s.d| && i < |s.buf| && !s.d[i].own ==> s'.d[i] == s.d[i] && s'.buf[i] == s.buf[i]
  }

  lemma StoreKept(s: Rx, a: Arrival)
    requires Inv(s) && Fits(a)
    ensures Kept(s, Store(s, a))
  {
    if |s.got| < s.taken + N {
      assert Free(s, |s.got|);
    } else {
      NextSlot(s.taken, N);
      assert Full(s, s.taken);
    }
  }

  lemma KeptTrans(a: Rx, b: Rx, c: Rx)
    requires Kept(a, b) && Kept(b, c)
    ensures Kept(a, c)
  {
  }
}
