/**
tools/tftp-server.py: cutting a file into DATA packets and sending them through a sliding
window with 16-bit block numbers, against a network that loses, duplicates and reorders
datagrams, and a receiver that takes blocks in order and acknowledges the last one it
took (section 4 of RFC 7440, section 6 of RFC 1350).
*/
module Tftp {
  import opened Bytes

  const BLOCKS: nat := 0x1_0000
  const MAX_RETRIES: nat := 8
  const MAX_WINDOW: nat := 128

  datatype Packet = Packet(blk: nat, payload: seq<Byte>)

  // ---------------------------------------------------------------- packetisation

  /** The payloads: full blocks, then one short block, which may be empty. */
  function Chunks(data: seq<Byte>, blksize: nat): (r: seq<seq<Byte>>)
    requires blksize >= 1
    ensures |r| >= 1
    decreases |data|
  {
    if |data| < blksize then [data] else [data[..blksize]] + Chunks(data[blksize..], blksize)
  }

  function Concat(s: seq<seq<Byte>>): seq<Byte> {
    if s == [] then [] else s[0] + Concat(s[1..])
  }

  lemma {:induction false} ConcatAppend(s: seq<seq<Byte>>, c: seq<Byte>)
    ensures Concat(s + [c]) == Concat(s) + c
  {
    if s == [] {
      assert s + [c] == [c];
      assert [c][1..] == [];
    } else {
      ConcatAppend(s[1..], c);
      assert (s + [c])[1..] == s[1..] + [c];
    }
  }

  /** The payloads spell the file, all but the last are full and the last is short. */
  lemma {:induction false} ChunksSpell(data: seq<Byte>, blksize: nat)
    requires blksize >= 1
    ensures Concat(Chunks(data, blksize)) == data
    ensures forall i :: 0 <= i < |Chunks(data, blksize)| - 1 ==> |Chunks(data, blksize)[i]| == blksize
    ensures |Chunks(data, blksize)[|Chunks(data, blksize)| - 1]| < blksize
    decreases |data|
  {
    var c := Chunks(data, blksize);
    if |data| < blksize {
      assert c[1..] == [];
    } else {
      ChunksSpell(data[blksize..], blksize);
      assert c[1..] == Chunks(data[blksize..], blksize);
      assert data == data[..blksize] + data[blksize..];
    }
  }

  function Numbered(chunks: seq<seq<Byte>>): (r: seq<Packet>)
    ensures |r| == |chunks|
  {
    seq(|chunks|, i requires 0 <= i < |chunks| => Packet((i + 1) % BLOCKS, chunks[i]))
  }

  lemma NumberedAppend(cut: seq<seq<Byte>>, chunk: seq<Byte>)
    ensures Numbered(cut + [chunk]) == Numbered(cut) + [Packet((|cut| + 1) % BLOCKS, chunk)]
  {
  }

  /** One cut at offset off. */
  lemma NextChunk(data: seq<Byte>, off: nat, blksize: nat)
    requires blksize >= 1 && off <= |data|
    ensures var chunk := data[off..Min(off + blksize, |data|)];
            if |chunk| < blksize then Chunks(data[off..], blksize) == [chunk]
            else off + blksize <= |data| &&
                 Chunks(data[off..], blksize) == [chunk] + Chunks(data[off + blksize..], blksize)
  {
    var rest := data[off..];
    if |rest| >= blksize {
      assert rest[..blksize] == data[off..off + blksize];
      assert rest[blksize..] == data[off + blksize..];
    } else {
      assert rest == data[off..Min(off + blksize, |data|)];
    }
  }

  /** The packing loop of handle_rrq. */
  method Packetise(data: seq<Byte>, blksize: nat) returns (pkts: seq<Packet>)
    requires blksize >= 1
    ensures pkts == Numbered(Chunks(data, blksize))
  {
    hide Chunks, Numbered;
    pkts := [];
    var off: nat := 0;
    ghost var cut: seq<seq<Byte>> := [];
    assert data[0..] == data && [] + Chunks(data, blksize) == Chunks(data, blksize);
    while true
      invariant 0 <= off <= |data|
      invariant Chunks(data, blksize) == cut + Chunks(data[off..], blksize)
      invariant pkts == Numbered(cut)
      decreases |data| - off
    {
      var chunk := data[off..Min(off + blksize, |data|)];
      var blk := (|pkts| + 1) % BLOCKS;
      NumberedAppend(cut, chunk);
      NextChunk(data, off, blksize);
      pkts := pkts + [Packet(blk, chunk)];
      cut := cut + [chunk];
      if |chunk| < blksize {
        break;
      }
      off := off + blksize;
    }
  }

  // ---------------------------------------------------------------- reading an acknowledgement

  /** The search of the ACK branch: from the newest packet sent down to the oldest unacknowledged. */
  function MapAck(base: nat, nxt: nat, blk: nat): nat
    requires base <= nxt
    decreases nxt - base
  {
    if nxt == base then base
    else if nxt % BLOCKS == blk then nxt
    else MapAck(base, nxt - 1, blk)
  }

  /** MapAck finds a number in the window that fits, the newest one. */
  lemma {:induction false} MapAckFinds(base: nat, nxt: nat, blk: nat)
    requires base <= nxt
    ensures base <= MapAck(base, nxt, blk) <= nxt
    ensures MapAck(base, nxt, blk) != base ==> MapAck(base, nxt, blk) % BLOCKS == blk
    ensures forall j :: MapAck(base, nxt, blk) < j <= nxt ==> j % BLOCKS != blk
    decreases nxt - base
  {
    if nxt != base && nxt % BLOCKS != blk {
      MapAckFinds(base, nxt - 1, blk);
    }
  }

  /** What an acknowledgement of the first a packets ought to do. */
  function Intended(base: nat, nxt: nat, a: nat): nat {
    if base < a <= nxt then a else base
  }

  /** Congruent numbers less than a full turn apart are equal. */
  lemma SameBlock(i: int, j: int)
    requires i % BLOCKS == j % BLOCKS && i - j < BLOCKS && j - i < BLOCKS
    ensures i == j
  {
  }

  /**
  A 16-bit acknowledgement is read as the one that was sent exactly when it is newer than
  the window's base, or old by so little that the window does not reach its next namesake.
  */
  lemma {:induction false} AckReadRight(base: nat, nxt: nat, a: nat)
    requires base <= nxt && nxt - base < BLOCKS && a < base + BLOCKS
    ensures MapAck(base, nxt, a % BLOCKS) == Intended(base, nxt, a)
            <==> a > base || (base - a) % BLOCKS + (nxt - base) < BLOCKS
  {
    var j := MapAck(base, nxt, a % BLOCKS);
    MapAckFinds(base, nxt, a % BLOCKS);
    if a > base {
      if j != base {
        SameBlock(j, a);
      }
    } else {
      var k := base + (BLOCKS - (base - a) % BLOCKS);
      assert k % BLOCKS == a % BLOCKS;
      if k <= nxt {
        assert j >= k;
      } else if j != base {
        assert j % BLOCKS == k % BLOCKS;
        SameBlock(j, k);
      }
    }
  }

  // ---------------------------------------------------------------- sender, network, receiver

  /** One transfer: the payloads, the agreed block size and the window. */
  datatype Job = Job(chunks: seq<seq<Byte>>, blksize: nat, window: nat)

  predicate GoodJob(p: Job) {
    && 1 <= p.window <= MAX_WINDOW && p.blksize >= 1 && |p.chunks| >= 1
    && (forall i :: 0 <= i < |p.chunks| - 1 ==> |p.chunks[i]| == p.blksize)
    && |p.chunks[|p.chunks| - 1]| < p.blksize
  }

  /**
  `base`, `nxt` and `retries` are the sender's.  `flying` holds the indices of the packets and
  `acks` the counts of the acknowledgements under way: anything in them may arrive, any number
  of times and in any order, until the network loses it.  `taken` and `got` are the receiver's.
  */
  datatype Sys = Sys(
    base: nat, nxt: nat, retries: nat, failed: bool,
    flying: set<nat>, acks: set<nat>,
    taken: nat, got: seq<Byte>, finished: bool)

  function Init(): Sys {
    Sys(0, 0, 0, false, {}, {}, 0, [], false)
  }

  function Edge(p: Job, s: Sys): nat {
    Min(s.base + p.window, |p.chunks|)
  }

  datatype Step =
    | SendStep | TimeoutStep | AckStep(a: nat) | JunkStep | DeliverStep(i: nat) | AckSendStep
    | LoseStep(i: nat) | LoseAckStep(a: nat)

  /** The sender is waiting in select with its window fully sent. */
  predicate Waiting(p: Job, s: Sys) {
    !s.failed && s.base < |p.chunks| && s.nxt >= Edge(p, s)
  }

  predicate Enabled(p: Job, s: Sys, e: Step) {
    match e
    case SendStep => !s.failed && s.base < |p.chunks| && s.nxt < Edge(p, s)
    case TimeoutStep => Waiting(p, s)
    case AckStep(a) => Waiting(p, s) && a in s.acks && s.base <= s.nxt
    case JunkStep => Waiting(p, s)
    case DeliverStep(i) => i in s.flying && i < |p.chunks|
    case AckSendStep => true
    case LoseStep(i) => i in s.flying
    case LoseAckStep(a) => a in s.acks
  }

  /** Every datagram carries only a 16-bit number; sender and receiver decide by it alone. */
  function After(p: Job, s: Sys, e: Step): Sys
    requires Enabled(p, s, e)
  {
    match e
    case SendStep => s.(flying := s.flying + {s.nxt}, nxt := s.nxt + 1)
    case TimeoutStep =>
      if s.retries + 1 >= MAX_RETRIES then s.(retries := s.retries + 1, failed := true)
      else s.(retries := s.retries + 1, nxt := s.base)
    case AckStep(a) => s.(retries := 0, base := MapAck(s.base, s.nxt, a % BLOCKS))
    case JunkStep => s
    case DeliverStep(i) =>
      if !s.finished && (i + 1) % BLOCKS == (s.taken + 1) % BLOCKS then
        s.(taken := s.taken + 1, got := s.got + p.chunks[i], finished := |p.chunks[i]| < p.blksize)
      else s
    case AckSendStep => s.(acks := s.acks + {s.taken})
    case LoseStep(i) => s.(flying := s.flying - {i})
    case LoseAckStep(a) => s.(acks := s.acks - {a})
  }

  /** Nothing that arrives is a whole turn of the block numbers old. */
  predicate Fresh(p: Job, s: Sys, e: Step) {
    match e
    case AckStep(a) => s.base - a < BLOCKS - p.window
    case DeliverStep(i) => s.taken - i < BLOCKS
    case _ => true
  }

  ghost predicate Inv(p: Job, s: Sys) {
    && GoodJob(p)
    && s.base <= s.nxt <= Edge(p, s)
    && s.base <= s.taken <= Edge(p, s)
    && (forall i :: i in s.flying ==> i < Edge(p, s))
    && (forall a :: a in s.acks ==> a <= s.taken)
    && s.got == Concat(p.chunks[..s.taken])
    && (s.finished <==> s.taken == |p.chunks|)
  }

  lemma DeliverKeeps(p: Job, s: Sys, i: nat)
    requires Inv(p, s) && Enabled(p, s, DeliverStep(i))
    requires Fresh(p, s, DeliverStep(i)) || |p.chunks| < BLOCKS
    ensures Inv(p, After(p, s, DeliverStep(i)))
  {
    if !s.finished && (i + 1) % BLOCKS == (s.taken + 1) % BLOCKS {
      SameBlock(i + 1, s.taken + 1);
      assert p.chunks[..i + 1] == p.chunks[..i] + [p.chunks[i]];
      ConcatAppend(p.chunks[..i], p.chunks[i]);
    }
  }

  lemma AckKeeps(p: Job, s: Sys, a: nat)
    requires Inv(p, s) && Enabled(p, s, AckStep(a))
    requires Fresh(p, s, AckStep(a)) || |p.chunks| < BLOCKS
    ensures Inv(p, After(p, s, AckStep(a)))
    ensures After(p, s, AckStep(a)).base == Intended(s.base, s.nxt, a)
  {
    var j := MapAck(s.base, s.nxt, a % BLOCKS);
    MapAckFinds(s.base, s.nxt, a % BLOCKS);
    if j != s.base {
      SameBlock(j, a);
    }
  }

  lemma StepKeeps(p: Job, s: Sys, e: Step)
    requires Inv(p, s) && Enabled(p, s, e)
    requires Fresh(p, s, e) || |p.chunks| < BLOCKS
    ensures Inv(p, After(p, s, e))
  {
    match e
    case DeliverStep(i) => DeliverKeeps(p, s, i);
    case AckStep(a) => AckKeeps(p, s, a);
    case _ =>
  }

  // ---------------------------------------------------------------- whole runs

  datatype Outcome = Stuck | At(s: Sys)

  function Exec(p: Job, s: Sys, steps: seq<Step>): Outcome
    decreases |steps|
  {
    if steps == [] then At(s)
    else if !Enabled(p, s, steps[0]) then Stuck
    else Exec(p, After(p, s, steps[0]), steps[1..])
  }

  predicate AllFresh(p: Job, s: Sys, steps: seq<Step>)
    decreases |steps|
  {
    steps == [] ||
    (Enabled(p, s, steps[0]) && Fresh(p, s, steps[0]) && AllFresh(p, After(p, s, steps[0]), steps[1..]))
  }

  lemma {:induction false} RunKeeps(p: Job, s: Sys, steps: seq<Step>)
    requires Inv(p, s) && Exec(p, s, steps).At?
    requires |p.chunks| < BLOCKS || AllFresh(p, s, steps)
    ensures Inv(p, Exec(p, s, steps).s)
    decreases |steps|
  {
    if steps != [] {
      StepKeeps(p, s, steps[0]);
      RunKeeps(p, After(p, s, steps[0]), steps[1..]);
    }
  }

  function JobOf(data: seq<Byte>, blksize: nat, window: nat): Job
    requires blksize >= 1
  {
    Job(Chunks(data, blksize), blksize, window)
  }

  lemma InitKeeps(data: seq<Byte>, blksize: nat, window: nat)
    requires blksize >= 1 && 1 <= window <= MAX_WINDOW
    ensures Inv(JobOf(data, blksize, window), Init())
  {
    ChunksSpell(data, blksize);
  }

  lemma {:induction false} ConcatPrefix(s: seq<seq<Byte>>, n: nat)
    requires n <= |s|
    ensures Concat(s[..n]) <= Concat(s)
    decreases |s|
  {
    if n > 0 {
      assert s[..n][1..] == s[1..][..n - 1];
      ConcatPrefix(s[1..], n - 1);
    }
  }

  /**
  Whatever the network does, the receiver always holds a prefix of the file, the window
  variables stay in order and behind the receiver, and when the sender finishes (or the
  receiver does) the receiver holds exactly the file.
  */
  lemma TransferIsSafe(data: seq<Byte>, blksize: nat, window: nat, steps: seq<Step>)
    requires blksize >= 1 && 1 <= window <= MAX_WINDOW
    requires Exec(JobOf(data, blksize, window), Init(), steps).At?
    requires |Chunks(data, blksize)| < BLOCKS || AllFresh(JobOf(data, blksize, window), Init(), steps)
    ensures var s := Exec(JobOf(data, blksize, window), Init(), steps).s;
            var total := |Chunks(data, blksize)|;
            && s.got <= data
            && s.base <= s.taken && s.base <= s.nxt <= Min(s.base + window, total)
            && (s.base == total ==> s.got == data)
            && (s.finished ==> s.got == data && s.taken == total)
  {
    var p := JobOf(data, blksize, window);
    InitKeeps(data, blksize, window);
    RunKeeps(p, Init(), steps);
    var s := Exec(p, Init(), steps).s;
    ChunksSpell(data, blksize);
    ConcatPrefix(p.chunks, s.taken);
    assert p.chunks[..|p.chunks|] == p.chunks;
  }

  // ---------------------------------------------------------------- the bound is exact

  lemma {:induction false} ExecAppend(p: Job, s: Sys, xs: seq<Step>, ys: seq<Step>)
    requires Exec(p, s, xs).At?
    ensures Exec(p, s, xs + ys) == Exec(p, Exec(p, s, xs).s, ys)
    decreases |xs|
  {
    if xs == [] {
      assert xs + ys == ys;
    } else {
      ExecAppend(p, After(p, s, xs[0]), xs[1..], ys);
      assert (xs + ys)[1..] == xs[1..] + ys;
    }
  }

  /** Sender and receiver agree on k blocks, and the whole window behind them is under way. */
  ghost predicate InStep(p: Job, s: Sys, k: nat) {
    && Inv(p, s) && !s.failed && s.base == k && s.taken == k && s.nxt == Edge(p, s)
    && (forall i :: k <= i < s.nxt ==> i in s.flying)
  }

  lemma {:induction false} FillWindow(p: Job, s: Sys) returns (steps: seq<Step>)
    requires Inv(p, s) && !s.failed && s.base < |p.chunks|
    ensures Exec(p, s, steps).At?
    ensures var v := Exec(p, s, steps).s;
            && Inv(p, v) && !v.failed && v.nxt == Edge(p, v) && v.base == s.base && v.taken == s.taken
            && v.acks == s.acks && v.retries == s.retries
            && s.flying <= v.flying && (forall i :: s.nxt <= i < v.nxt ==> i in v.flying)
    decreases Edge(p, s) - s.nxt
  {
    if s.nxt == Edge(p, s) {
      steps := [];
    } else {
      var s' := After(p, s, SendStep);
      var rest := FillWindow(p, s');
      steps := [SendStep] + rest;
      assert steps[1..] == rest;
    }
  }

  lemma {:induction false} LossFree(p: Job, k: nat) returns (steps: seq<Step>)
    requires GoodJob(p) && k < |p.chunks|
    ensures Exec(p, Init(), steps).At? && InStep(p, Exec(p, Init(), steps).s, k)
    ensures 0 in Exec(p, Init(), steps).s.acks
  {
    if k == 0 {
      var s0 := After(p, Init(), AckSendStep);
      var fill := FillWindow(p, s0);
      steps := [AckSendStep] + fill;
      assert steps[1..] == fill;
    } else {
      var before := LossFree(p, k - 1);
      var s := Exec(p, Init(), before).s;
      var more := OneBlock(p, s, k - 1);
      steps := before + more;
      ExecAppend(p, Init(), before, more);
    }
  }

  /** Deliver the next block, acknowledge it, and refill the window. */
  lemma OneBlock(p: Job, s: Sys, k: nat) returns (steps: seq<Step>)
    requires InStep(p, s, k) && k + 1 < |p.chunks|
    ensures Exec(p, s, steps).At? && InStep(p, Exec(p, s, steps).s, k + 1) && s.acks <= Exec(p, s, steps).s.acks
  {
    var head, s3 := DeliverAndAck(p, s, k);
    var fill := FillWindow(p, s3);
    steps := head + fill;
    ExecAppend(p, s, head, fill);
  }

  lemma DeliverAndAck(p: Job, s: Sys, k: nat) returns (steps: seq<Step>, s3: Sys)
    requires InStep(p, s, k) && k < |p.chunks|
    ensures Exec(p, s, steps) == At(s3)
    ensures Inv(p, s3) && !s3.failed && s3.base == k + 1 && s3.taken == k + 1 && s3.nxt == s.nxt
    ensures s.acks <= s3.acks && s3.flying == s.flying && s3.retries == 0
  {
    var s1 := After(p, s, DeliverStep(k));
    DeliverKeeps(p, s, k);
    var s2 := After(p, s1, AckSendStep);
    AckKeeps(p, s2, k + 1);
    s3 := After(p, s2, AckStep(k + 1));
    steps := [DeliverStep(k), AckSendStep, AckStep(k + 1)];
    assert steps[1..] == [AckSendStep, AckStep(k + 1)];
    assert steps[1..][1..] == [AckStep(k + 1)];
    assert steps[1..][1..][1..] == [];
    assert Exec(p, s2, [AckStep(k + 1)]) == At(s3);
    assert Exec(p, s1, [AckSendStep, AckStep(k + 1)]) == At(s3);
  }

  /** The transfer is complete on both sides. */
  predicate Complete(p: Job, s: Sys) {
    s.base == |p.chunks| && s.finished && !s.failed && s.got == Concat(p.chunks)
  }

  lemma CompleteAt(p: Job, s: Sys)
    requires Inv(p, s) && !s.failed && s.base == |p.chunks|
    ensures Complete(p, s)
  {
    assert p.chunks[..|p.chunks|] == p.chunks;
  }

  /** From there a run without further loss completes the transfer. */
  lemma {:induction false} FinishFrom(p: Job, s: Sys, k: nat) returns (steps: seq<Step>)
    requires InStep(p, s, k) && k < |p.chunks|
    ensures Exec(p, s, steps).At? && Complete(p, Exec(p, s, steps).s) && Exec(p, s, steps).s.retries == 0
    decreases |p.chunks| - k
  {
    if k + 1 == |p.chunks| {
      var v;
      steps, v := DeliverAndAck(p, s, k);
      CompleteAt(p, v);
    } else {
      var one := OneBlock(p, s, k);
      var rest := FinishFrom(p, Exec(p, s, one).s, k + 1);
      steps := one + rest;
      ExecAppend(p, s, one, rest);
    }
  }

  /** Every transfer has a run that completes it: sender done, receiver done, and the whole file across. */
  lemma SomeRunCompletes(p: Job) returns (steps: seq<Step>)
    requires GoodJob(p)
    ensures Exec(p, Init(), steps).At? && Complete(p, Exec(p, Init(), steps).s)
  {
    var before := LossFree(p, 0);
    var rest := FinishFrom(p, Exec(p, Init(), before).s, 0);
    steps := before + rest;
    ExecAppend(p, Init(), before, rest);
  }

  /** A timeout sends the whole window again, whatever of it was lost. */
  lemma TimeoutResends(p: Job, s: Sys) returns (steps: seq<Step>)
    requires Inv(p, s) && !s.failed && s.base < |p.chunks| && s.retries + 1 < MAX_RETRIES
    ensures Exec(p, s, steps).At?
    ensures var v := Exec(p, s, steps).s;
            && Inv(p, v) && !v.failed && v.base == s.base && v.taken == s.taken && v.nxt == Edge(p, v)
            && v.acks == s.acks && v.retries == s.retries + 1
            && (forall i :: v.base <= i < v.nxt ==> i in v.flying)
  {
    var fill := FillWindow(p, s);
    var s1 := Exec(p, s, fill).s;
    var s2 := After(p, s1, TimeoutStep);
    StepKeeps(p, s1, TimeoutStep);
    var again := FillWindow(p, s2);
    var rest := [TimeoutStep] + again;
    assert rest[1..] == again;
    steps := fill + rest;
    ExecAppend(p, s, fill, rest);
  }

  /** The receiver acknowledges what it has, the sender catches up with it and refills its window. */
  lemma CatchUp(p: Job, s: Sys) returns (steps: seq<Step>)
    requires Inv(p, s) && !s.failed && s.base < |p.chunks| && s.taken < |p.chunks| && s.nxt == Edge(p, s)
    requires forall i :: s.base <= i < s.nxt ==> i in s.flying
    ensures Exec(p, s, steps).At? && InStep(p, Exec(p, s, steps).s, s.taken)
  {
    var s1 := After(p, s, AckSendStep);
    StepKeeps(p, s, AckSendStep);
    AckKeeps(p, s1, s.taken);
    var s2 := After(p, s1, AckStep(s.taken));
    var head := [AckSendStep, AckStep(s.taken)];
    assert head[1..] == [AckStep(s.taken)] && head[1..][1..] == [];
    assert Exec(p, s1, [AckStep(s.taken)]) == At(s2);
    var fill := FillWindow(p, s2);
    steps := head + fill;
    ExecAppend(p, s, head, fill);
  }

  /**
  Loss is repaired.  From every state in which the network has lost everything under way, as long as
  the sender may time out once more, some run completes the transfer, and the retries count from zero.
  */
  lemma LossIsRepaired(p: Job, s: Sys) returns (steps: seq<Step>)
    requires Inv(p, s) && !s.failed && s.flying == {} && s.acks == {} && s.retries + 1 < MAX_RETRIES
    ensures Exec(p, s, steps).At? && Complete(p, Exec(p, s, steps).s)
    ensures s.base < |p.chunks| ==> Exec(p, s, steps).s.retries == 0
  {
    if s.base == |p.chunks| {
      steps := [];
      CompleteAt(p, s);
    } else {
      var again := TimeoutResends(p, s);
      var s1 := Exec(p, s, again).s;
      var rest := FinishAcked(p, s1);
      steps := again + rest;
      ExecAppend(p, s, again, rest);
    }
  }

  lemma FinishAcked(p: Job, s: Sys) returns (steps: seq<Step>)
    requires Inv(p, s) && !s.failed && s.base < |p.chunks| && s.nxt == Edge(p, s)
    requires forall i :: s.base <= i < s.nxt ==> i in s.flying
    ensures Exec(p, s, steps).At? && Complete(p, Exec(p, s, steps).s) && Exec(p, s, steps).s.retries == 0
  {
    if s.taken == |p.chunks| {
      var s1 := After(p, s, AckSendStep);
      StepKeeps(p, s, AckSendStep);
      AckKeeps(p, s1, s.taken);
      steps := [AckSendStep, AckStep(s.taken)];
      assert steps[1..] == [AckStep(s.taken)] && steps[1..][1..] == [];
      assert Exec(p, s1, [AckStep(s.taken)]) == At(After(p, s1, AckStep(s.taken)));
      CompleteAt(p, After(p, s1, AckStep(s.taken)));
    } else {
      var up := CatchUp(p, s);
      var rest := FinishFrom(p, Exec(p, s, up).s, s.taken);
      steps := up + rest;
      ExecAppend(p, s, up, rest);
    }
  }

  /**
  From 65536 blocks on the bound on the age of datagrams is needed: some run, in which the
  acknowledgement of the option reply arrives again late, moves the sender past a block
  the receiver does not have.
  */
  lemma StaleAckOvertakes(p: Job) returns (steps: seq<Step>)
    requires GoodJob(p) && |p.chunks| >= BLOCKS
    ensures Exec(p, Init(), steps).At?
    ensures Exec(p, Init(), steps).s.base > Exec(p, Init(), steps).s.taken
    ensures |p.chunks| == BLOCKS ==>
              Exec(p, Init(), steps).s.base == |p.chunks| && !Exec(p, Init(), steps).s.finished
  {
    var before := LossFree(p, BLOCKS - 1);
    var s := Exec(p, Init(), before).s;
    MapAckFinds(s.base, s.nxt, 0);
    assert BLOCKS % BLOCKS == 0;
    var last := [AckStep(0)];
    assert last[1..] == [];
    assert Exec(p, s, last) == At(After(p, s, AckStep(0)));
    steps := before + last;
    ExecAppend(p, Init(), before, last);
  }

  // ---------------------------------------------------------------- the loop of handle_rrq

  /** What may happen while the sender waits: time runs out, a datagram comes in, or the others act. */
  datatype Event =
    | Timeout | Ack(a: nat) | Junk | Arrive(i: nat) | Acknowledge | Lose(i: nat) | LoseAck(a: nat)

  datatype Verdict = Done | GaveUp | Running

  function StepOf(e: Event): Step {
    match e
    case Timeout => TimeoutStep
    case Ack(a) => AckStep(a)
    case Junk => JunkStep
    case Arrive(i) => DeliverStep(i)
    case Acknowledge => AckSendStep
    case Lose(i) => LoseStep(i)
    case LoseAck(a) => LoseAckStep(a)
  }

  /** The sender fills its window. */
  function FillUp(p: Job, s: Sys): Sys
    decreases Edge(p, s) - s.nxt
  {
    if Enabled(p, s, SendStep) then FillUp(p, After(p, s, SendStep)) else s
  }

  /** An event that the state allows happens; any other is passed over. */
  function React(p: Job, s: Sys, e: Event): Sys {
    if Enabled(p, s, StepOf(e)) then After(p, s, StepOf(e)) else s
  }

  predicate Over(p: Job, s: Sys) {
    s.failed || s.base >= |p.chunks|
  }

  /** The whole system under a schedule of events, until the sender is done or gives up. */
  function Play(p: Job, s: Sys, schedule: seq<Event>): Sys
    decreases |schedule|
  {
    if schedule == [] || Over(p, s) then s else Play(p, React(p, FillUp(p, s), schedule[0]), schedule[1..])
  }

  /** Some datagram that happens under the schedule is accepted a full turn of the numbers late. */
  predicate Late(p: Job, s: Sys, schedule: seq<Event>)
    decreases |schedule|
  {
    if schedule == [] || Over(p, s) then false
    else
      var v := FillUp(p, s);
      || (Enabled(p, v, StepOf(schedule[0])) && !Fresh(p, v, StepOf(schedule[0])))
      || Late(p, React(p, v, schedule[0]), schedule[1..])
  }

  function VerdictOf(p: Job, s: Sys): Verdict {
    if s.failed then GaveUp else if s.base >= |p.chunks| then Done else Running
  }

  // ---------------------------------------------------------------- what a schedule can do

  lemma {:induction false} FillUpIsRun(p: Job, s: Sys) returns (steps: seq<Step>)
    ensures Exec(p, s, steps) == At(FillUp(p, s))
    ensures Inv(p, s) ==> Inv(p, FillUp(p, s))
    ensures FillUp(p, s).retries == s.retries && FillUp(p, s).failed == s.failed
    decreases Edge(p, s) - s.nxt
  {
    if Enabled(p, s, SendStep) {
      if Inv(p, s) {
        StepKeeps(p, s, SendStep);
      }
      var rest := FillUpIsRun(p, After(p, s, SendStep));
      steps := [SendStep] + rest;
      assert steps[1..] == rest;
    } else {
      steps := [];
    }
  }

  /**
  What a schedule does is a run of sender, network and receiver; the sender gives up exactly when its
  retries are used up; and unless a datagram came a full turn late the window invariant holds.
  */
  lemma {:induction false} PlayIsRun(p: Job, s: Sys, schedule: seq<Event>) returns (steps: seq<Step>)
    requires s.failed <==> s.retries >= MAX_RETRIES
    ensures Exec(p, s, steps) == At(Play(p, s, schedule))
    ensures Play(p, s, schedule).failed <==> Play(p, s, schedule).retries >= MAX_RETRIES
    ensures Inv(p, s) && (|p.chunks| < BLOCKS || !Late(p, s, schedule)) ==> Inv(p, Play(p, s, schedule))
    decreases |schedule|
  {
    if schedule == [] || Over(p, s) {
      steps := [];
    } else {
      var fill := FillUpIsRun(p, s);
      var v := FillUp(p, s);
      var e := StepOf(schedule[0]);
      var u := React(p, v, schedule[0]);
      if Inv(p, v) && Enabled(p, v, e) && (|p.chunks| < BLOCKS || Fresh(p, v, e)) {
        StepKeeps(p, v, e);
      }
      var rest := PlayIsRun(p, u, schedule[1..]);
      var tail := if Enabled(p, v, e) then [e] + rest else rest;
      assert Enabled(p, v, e) ==> tail[1..] == rest;
      steps := fill + tail;
      ExecAppend(p, s, fill, tail);
    }
  }

  /** For every schedule the receiver has a prefix of the file, and all of it when the sender is done. */
  lemma PlayIsSafe(p: Job, schedule: seq<Event>)
    requires GoodJob(p) && (|p.chunks| < BLOCKS || !Late(p, Init(), schedule))
    ensures var s := Play(p, Init(), schedule);
            s.got <= Concat(p.chunks) && (s.base >= |p.chunks| ==> s.got == Concat(p.chunks))
  {
    var steps := PlayIsRun(p, Init(), schedule);
    var s := Play(p, Init(), schedule);
    ConcatPrefix(p.chunks, s.taken);
    assert p.chunks[..|p.chunks|] == p.chunks;
  }

  // ---------------------------------------------------------------- the loops themselves

  /** Network and receiver as the sender's surroundings. */
  datatype World = World(flying: set<nat>, acks: set<nat>, taken: nat, got: seq<Byte>, finished: bool)

  function Whole(base: nat, nxt: nat, retries: nat, w: World): Sys {
    Sys(base, nxt, retries, false, w.flying, w.acks, w.taken, w.got, w.finished)
  }

  /** The receiver's reaction to a datagram. */
  function Receive(pkts: seq<Packet>, blksize: nat, w: World, i: nat): World
    requires i < |pkts|
  {
    if !w.finished && pkts[i].blk == (w.taken + 1) % BLOCKS then
      w.(taken := w.taken + 1, got := w.got + pkts[i].payload, finished := |pkts[i].payload| < blksize)
    else w
  }

  /** The inner loop of handle_rrq: everything the window allows is sent. */
  method SendWindow(ghost p: Job, total: nat, base: nat, start: nat, ghost retries: nat, window: nat, before: World)
    returns (nxt: nat, w: World)
    requires total == |p.chunks| && window == p.window && base < total && base <= start
    ensures Whole(base, nxt, retries, w) == FillUp(p, Whole(base, start, retries, before))
    ensures base <= nxt && nxt >= Min(base + window, total)
    ensures w == before.(flying := w.flying)
  {
    nxt, w := start, before;
    while nxt < Min(base + window, total)
      invariant base <= nxt && w == before.(flying := w.flying)
      invariant FillUp(p, Whole(base, nxt, retries, w)) == FillUp(p, Whole(base, start, retries, before))
    {
      w := w.(flying := w.flying + {nxt});
      nxt := nxt + 1;
    }
  }

  /**
  The two nested loops of handle_rrq, for every schedule of the network and the receiver: they do
  exactly what the schedule makes of the system, and end early only when done or given up.  `stale`
  says that some datagram was accepted a full turn of the numbers late.
  */
  method Slide(ghost p: Job, pkts: seq<Packet>, blksize: nat, window: nat, schedule: seq<Event>)
    returns (verdict: Verdict, got: seq<Byte>, stale: bool)
    requires GoodJob(p) && pkts == Numbered(p.chunks) && blksize == p.blksize && window == p.window
    ensures var s := Play(p, Init(), schedule);
            verdict == VerdictOf(p, s) && got == s.got && stale == Late(p, Init(), schedule)
  {
    hide FillUp, MapAck;
    var total := |pkts|;
    var base, nxt, retries := 0, 0, 0;
    var w := World({}, {}, 0, [], false);
    stale := false;
    var t := 0;
    assert schedule[0..] == schedule;
    while base < total && t < |schedule|
      invariant t <= |schedule| && retries < MAX_RETRIES && base <= nxt
      invariant Play(p, Init(), schedule) == Play(p, Whole(base, nxt, retries, w), schedule[t..])
      invariant Late(p, Init(), schedule) == (stale || Late(p, Whole(base, nxt, retries, w), schedule[t..]))
      decreases |schedule| - t
    {
      nxt, w := SendWindow(p, total, base, nxt, retries, window, w);
      ghost var s := Whole(base, nxt, retries, w);
      ghost var e := schedule[t];
      assert schedule[t..][1..] == schedule[t + 1..];
      match schedule[t] {
        case Timeout =>
          retries := retries + 1;
          if retries >= MAX_RETRIES {
            assert React(p, s, e).failed;
            return GaveUp, w.got, stale;
          }
          nxt := base;
        case Ack(a) =>
          if a in w.acks {
            stale := stale || base - a >= BLOCKS - window;
            retries := 0;
            base := FindAck(base, nxt, a % BLOCKS);
          }
        case Junk =>
        case Arrive(i) =>
          if i in w.flying && i < total {
            stale := stale || w.taken - i >= BLOCKS;
            w := Receive(pkts, blksize, w, i);
          }
        case Acknowledge =>
          w := w.(acks := w.acks + {w.taken});
        case Lose(i) =>
          w := w.(flying := w.flying - {i});
        case LoseAck(a) =>
          w := w.(acks := w.acks - {a});
      }
      assert Whole(base, nxt, retries, w) == React(p, s, e);
      t := t + 1;
    }
    assert base >= total ==> Over(p, Whole(base, nxt, retries, w));
    verdict := if base >= total then Done else Running;
    got := w.got;
  }

  /** handle_rrq after the options are agreed, in terms of the file. */
  method Transfer(data: seq<Byte>, blksize: nat, window: nat, schedule: seq<Event>)
    returns (verdict: Verdict, got: seq<Byte>, stale: bool)
    requires blksize >= 1 && 1 <= window <= MAX_WINDOW
    ensures var p := JobOf(data, blksize, window);
            var s := Play(p, Init(), schedule);
            verdict == VerdictOf(p, s) && got == s.got && stale == Late(p, Init(), schedule)
    ensures |Chunks(data, blksize)| < BLOCKS || !stale ==> got <= data && (verdict == Done ==> got == data)
  {
    var pkts := Packetise(data, blksize);
    ChunksSpell(data, blksize);
    ghost var p := JobOf(data, blksize, window);
    verdict, got, stale := Slide(p, pkts, blksize, window, schedule);
    if |p.chunks| < BLOCKS || !stale {
      PlayIsSafe(p, schedule);
    }
  }

  /** The reverse search for the packet an acknowledgement names. */
  method FindAck(base: nat, nxt: nat, blk: nat) returns (newBase: nat)
    requires base <= nxt
    ensures newBase == MapAck(base, nxt, blk)
    ensures base <= newBase <= nxt
  {
    var i: int := nxt - 1;
    while i >= base
      invariant base - 1 <= i < nxt
      invariant MapAck(base, nxt, blk) == MapAck(base, i + 1, blk)
    {
      if (i + 1) % BLOCKS == blk {
        return i + 1;
      }
      i := i - 1;
    }
    return base;
  }
}
