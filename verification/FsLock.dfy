/**
fs/lwext4_port/fs_lock.c over the exclusive-access spin lock of
include/aarch64/spin_lock_impl.h: a lock re-entrant per CPU whose owner word is read
without holding the lock.

Every load and store of the code is a step of its own, taken by any task that runs on any
CPU.  Tasks are switched while interrupts are on and move between CPUs while they are
outside the lock functions; a task does not move between reading its CPU number and
switching interrupts off.  The code run under the lock does not switch interrupts on.
*/
module FsLock {

  /** Where a task is.  `me` is the CPU slot it computed on entry. */
  datatype Pc =
    | Idle
    // fs_lock
    | TestOwner(me: nat)
    | NestLoad(me: nat) | NestStore(me: nat, d: nat)
    | IrqRead(me: nat) | IrqOff(me: nat, f: bool) | SaveFlags(me: nat, f: bool)
    // spin_lock
    | Spin(me: nat) | LoadExcl(me: nat) | StoreExcl(me: nat)
    | SetDepth(me: nat) | SetOwner(me: nat)
    // fs_unlock
    | DecLoad(me: nat) | DecStore(me: nat, d: nat)
    | ClearOwner(me: nat) | ClearLock(me: nat)
    | FlagsLoad(me: nat) | IrqRestore(me: nat, f: bool)

  /**
  The first group is per task, the second per CPU, then the lock word and the owner
  (`None` is FS_LOCK_NO_OWNER), then the two tables of fs_lock.c.

  `nest`, `seen` and `holder` are the proof's: the number of fs_lock calls a task has not
  undone, the interrupt state when its outermost call began, and which of them has the
  lock word.
  */
  datatype Machine = Machine(
    cpu: seq<nat>, pc: seq<Pc>, nest: seq<nat>, seen: seq<bool>,
    run: seq<int>, irq: seq<bool>, excl: seq<bool>,
    lock: bool, owner: Owner, holder: int,
    depth: seq<nat>, flags: seq<bool>)

  datatype Owner = None | Slot(c: nat)

  /** `if (me >= AVATAR_MAX_CPUS) me = 0`, with the table size of the machine. */
  function Me(m: Machine, c: nat): nat {
    if c >= |m.depth| then 0 else c
  }

  predicate Sized(m: Machine) {
    && |m.pc| == |m.cpu| && |m.nest| == |m.cpu| && |m.seen| == |m.cpu|
    && |m.irq| == |m.run| && |m.excl| == |m.run|
    && |m.depth| >= 1 && |m.flags| == |m.depth|
    && (forall t :: 0 <= t < |m.cpu| ==> m.cpu[t] < |m.run|)
    && (forall t :: 0 <= t < |m.pc| ==> m.pc[t].Idle? || m.pc[t].me < |m.depth|)
  }

  datatype Step =
    | Enter(t: nat) | Leave(t: nat) | Go(t: nat, spurious: bool)
    | Switch(c: nat, to: int) | Move(t: nat, c: nat) | SetIrq(t: nat, on: bool)

  predicate Running(m: Machine, t: nat)
    requires Sized(m)
  {
    t < |m.cpu| && m.run[m.cpu[t]] == t
  }

  predicate Enabled(m: Machine, s: Step) {
    Sized(m) &&
    match s
    case Enter(t) => Running(m, t) && m.pc[t].Idle?
    case Leave(t) => Running(m, t) && m.pc[t].Idle? && m.nest[t] > 0
    case Go(t, _) => Running(m, t) && !m.pc[t].Idle?
    case Switch(c, to) => c < |m.run| && m.irq[c] && (to == -1 || (0 <= to < |m.cpu| && m.cpu[to] == c))
    case Move(t, c) => t < |m.cpu| && c < |m.run| && m.run[m.cpu[t]] != t && m.pc[t].Idle?
    case SetIrq(t, _) => Running(m, t) && m.pc[t].Idle? && m.nest[t] == 0
  }

  /** fs_lock around its spin_lock. */
  function LockStep(m: Machine, t: nat): Machine
    requires Sized(m) && t < |m.cpu|
  {
    var c := m.cpu[t];
    match m.pc[t]
    case TestOwner(me) =>
      if m.owner == Slot(me) then m.(pc := m.pc[t := NestLoad(me)]) else m.(pc := m.pc[t := IrqRead(me)])
    case NestLoad(me) => m.(pc := m.pc[t := NestStore(me, m.depth[me])])
    case NestStore(me, d) =>
      m.(depth := m.depth[me := d + 1], pc := m.pc[t := Idle], nest := m.nest[t := m.nest[t] + 1])
    case IrqRead(me) => m.(pc := m.pc[t := IrqOff(me, m.irq[c])])
    case IrqOff(me, f) => m.(irq := m.irq[c := false], pc := m.pc[t := SaveFlags(me, f)])
    case SaveFlags(me, f) => m.(flags := m.flags[me := f], pc := m.pc[t := Spin(me)])
    case SetDepth(me) => m.(depth := m.depth[me := 1], pc := m.pc[t := SetOwner(me)])
    case SetOwner(me) => m.(owner := Slot(me), pc := m.pc[t := Idle], nest := m.nest[t := 1])
    case _ => m
  }

  /** spin_lock; `spurious` lets a store-exclusive fail without cause. */
  function SpinStep(m: Machine, t: nat, spurious: bool): Machine
    requires Sized(m) && t < |m.cpu|
  {
    var c := m.cpu[t];
    match m.pc[t]
    case Spin(me) => if m.lock then m else m.(pc := m.pc[t := LoadExcl(me)])
    case LoadExcl(me) =>
      m.(excl := m.excl[c := true], pc := m.pc[t := if m.lock then Spin(me) else StoreExcl(me)])
    case StoreExcl(me) =>
      if m.excl[c] && !spurious then
        m.(lock := true, holder := t, excl := seq(|m.excl|, _ => false), pc := m.pc[t := SetDepth(me)])
      else
        m.(excl := m.excl[c := false], pc := m.pc[t := LoadExcl(me)])
    case _ => m
  }

  /** fs_unlock with its spin_unlock; the decrement is that of a 32-bit word. */
  function UnlockStep(m: Machine, t: nat): Machine
    requires Sized(m) && t < |m.cpu|
  {
    var c := m.cpu[t];
    match m.pc[t]
    case DecLoad(me) => m.(pc := m.pc[t := DecStore(me, m.depth[me])])
    case DecStore(me, d) =>
      var d' := if d == 0 then 0xFFFF_FFFF else d - 1;
      var nest := if m.nest[t] == 0 then 0 else m.nest[t] - 1;
      m.(depth := m.depth[me := d'], pc := m.pc[t := if d' != 0 then Idle else ClearOwner(me)],
         nest := m.nest[t := nest])
    case ClearOwner(me) => m.(owner := None, pc := m.pc[t := ClearLock(me)])
    case ClearLock(me) =>
      m.(lock := false, holder := -1, excl := seq(|m.excl|, _ => false), pc := m.pc[t := FlagsLoad(me)])
    case FlagsLoad(me) => m.(pc := m.pc[t := IrqRestore(me, m.flags[me])])
    case IrqRestore(_, f) => m.(irq := m.irq[c := f], pc := m.pc[t := Idle])
    case _ => m
  }

  predicate InSpin(p: Pc) {
    p.Spin? || p.LoadExcl? || p.StoreExcl?
  }

  predicate InUnlock(p: Pc) {
    p.DecLoad? || p.DecStore? || p.ClearOwner? || p.ClearLock? || p.FlagsLoad? || p.IrqRestore?
  }

  /** The next access of a task. */
  function GoStep(m: Machine, t: nat, spurious: bool): Machine
    requires Enabled(m, Go(t, spurious))
  {
    if InSpin(m.pc[t]) then SpinStep(m, t, spurious)
    else if InUnlock(m.pc[t]) then UnlockStep(m, t)
    else LockStep(m, t)
  }

  function After(m: Machine, s: Step): Machine
    requires Enabled(m, s)
  {
    match s
    case Enter(t) =>
      m.(pc := m.pc[t := TestOwner(Me(m, m.cpu[t]))],
         seen := if m.nest[t] == 0 then m.seen[t := m.irq[m.cpu[t]]] else m.seen)
    case Leave(t) => m.(pc := m.pc[t := DecLoad(Me(m, m.cpu[t]))])
    case Go(t, spurious) => GoStep(m, t, spurious)
    case Switch(c, to) => m.(run := m.run[c := to])
    case Move(t, c) => m.(cpu := m.cpu[t := c])
    case SetIrq(t, on) => m.(irq := m.irq[m.cpu[t] := on])
  }

  // ---------------------------------------------------------------- invariant

  /** The lock word is this task's. */
  predicate Holding(m: Machine, t: nat)
    requires Sized(m) && t < |m.cpu|
  {
    m.nest[t] > 0 || m.pc[t].SetDepth? || m.pc[t].SetOwner? || m.pc[t].ClearOwner? || m.pc[t].ClearLock?
  }

  /** It runs with interrupts off and cannot be switched away from. */
  predicate Pinned(m: Machine, t: nat)
    requires Sized(m) && t < |m.cpu|
  {
    m.run[m.cpu[t]] == t && !m.irq[m.cpu[t]]
  }

  /** On the slow path of fs_lock, interrupts still as they were. */
  predicate Entering(m: Machine, t: nat)
    requires Sized(m) && t < |m.cpu|
  {
    (m.pc[t].TestOwner? && m.nest[t] == 0) || m.pc[t].IrqRead? || m.pc[t].IrqOff?
  }

  predicate IrqsOff(m: Machine, t: nat)
    requires Sized(m) && t < |m.cpu|
  {
    m.nest[t] > 0 || !(m.pc[t].Idle? || Entering(m, t))
  }

  /** Between SaveFlags and the end the saved state sits in the CPU's slot. */
  predicate Saved(m: Machine, t: nat)
    requires Sized(m) && t < |m.cpu|
  {
    IrqsOff(m, t) && !m.pc[t].SaveFlags? && !m.pc[t].IrqRestore?
  }

  /** Where the number of calls not undone leaves its mark. */
  predicate DepthOk(m: Machine, t: nat)
    requires Sized(m) && t < |m.cpu|
  {
    var d := m.depth[Me(m, m.cpu[t])];
    && (m.nest[t] > 0 ==> d == m.nest[t])
    && (m.pc[t].SetOwner? ==> d == 1)
    && (m.pc[t].NestStore? || m.pc[t].DecStore? ==> m.pc[t].d == m.nest[t])
  }

  /** Which places go with an outstanding call and which do not. */
  predicate PlaceOk(m: Machine, t: nat)
    requires Sized(m) && t < |m.cpu|
  {
    match m.pc[t]
    case Idle => true
    case TestOwner(_) => true
    case NestLoad(_) => m.nest[t] > 0
    case NestStore(_, _) => m.nest[t] > 0
    case DecLoad(_) => m.nest[t] > 0
    case DecStore(_, _) => m.nest[t] > 0
    case _ => m.nest[t] == 0
  }

  ghost predicate TaskOk(m: Machine, t: nat)
    requires Sized(m) && t < |m.cpu|
  {
    var c := m.cpu[t];
    && (!m.pc[t].Idle? ==> m.pc[t].me == Me(m, c))
    && PlaceOk(m, t)
    && (Holding(m, t) <==> m.holder == t)
    && (IrqsOff(m, t) ==> Pinned(m, t))
    && (Entering(m, t) ==> (m.run[c] == t ==> m.irq[c] == m.seen[t]) && (!m.seen[t] ==> m.run[c] == t))
    && (m.pc[t].IrqOff? || m.pc[t].SaveFlags? || m.pc[t].IrqRestore? ==> m.pc[t].f == m.seen[t])
    && (Saved(m, t) ==> m.flags[Me(m, c)] == m.seen[t])
    && DepthOk(m, t)
    && (m.pc[t].StoreExcl? && m.excl[c] ==> !m.lock)
  }

  ghost predicate LockOk(m: Machine)
    requires Sized(m)
  {
    && -1 <= m.holder < |m.cpu|
    && (m.lock <==> m.holder >= 0)
    && m.owner == (if m.holder >= 0 && (m.nest[m.holder] > 0 || m.pc[m.holder].ClearOwner?)
                   then Slot(Me(m, m.cpu[m.holder])) else None)
  }

  /** CPUs have slots of their own. */
  predicate SlotsSuffice(m: Machine) {
    |m.run| <= |m.depth|
  }

  ghost predicate Inv(m: Machine) {
    && Sized(m) && SlotsSuffice(m) && LockOk(m)
    && (forall t: nat :: t < |m.cpu| ==> TaskOk(m, t))
  }

  // ---------------------------------------------------------------- every step keeps it

  /** A running task that touches only its own entries, its CPU's and its slot's disturbs nobody. */
  lemma OthersKeep(m: Machine, m': Machine, t: nat, u: nat)
    requires Inv(m) && Running(m, t) && Sized(m') && u < |m.cpu| && u != t
    requires m'.cpu == m.cpu && m'.run == m.run && |m'.depth| == |m.depth|
    requires m'.pc[u] == m.pc[u] && m'.nest[u] == m.nest[u] && m'.seen[u] == m.seen[u]
    requires forall c :: 0 <= c < |m.run| && c != m.cpu[t] ==> m'.irq[c] == m.irq[c]
    requires forall c :: 0 <= c < |m.run| && c != m.cpu[t] ==> (m'.excl[c] ==> m.excl[c] && (m'.lock ==> m.lock))
    requires forall d :: 0 <= d < |m.depth| && d != Me(m, m.cpu[t]) ==>
               m'.depth[d] == m.depth[d] && m'.flags[d] == m.flags[d]
    requires m'.holder == m.holder || (m.holder == -1 && m'.holder == t) || (m.holder == t && m'.holder == -1)
    ensures TaskOk(m', u)
  {
    assert TaskOk(m, u);
    assert m.cpu[u] == m.cpu[t] ==> !Pinned(m, u);
  }

  predicate InFastPath(p: Pc) {
    p.TestOwner? || p.NestLoad? || p.NestStore?
  }

  lemma FastKeepsOwn(m: Machine, t: nat)
    requires Inv(m) && Running(m, t) && InFastPath(m.pc[t])
    ensures var m' := LockStep(m, t);
            Sized(m') && TaskOk(m', t) && LockOk(m')
  {
    assert TaskOk(m, t);
    if m.holder >= 0 {
      assert TaskOk(m, m.holder);
    }
  }

  lemma SlowKeepsOwn(m: Machine, t: nat)
    requires Inv(m) && Running(m, t) && !m.pc[t].Idle? && !InFastPath(m.pc[t])
    requires !InSpin(m.pc[t]) && !InUnlock(m.pc[t])
    ensures var m' := LockStep(m, t);
            Sized(m') && TaskOk(m', t) && LockOk(m')
  {
    assert TaskOk(m, t);
    if m.holder >= 0 {
      assert TaskOk(m, m.holder);
    }
  }

  lemma LockKeeps(m: Machine, t: nat)
    requires Inv(m) && Running(m, t) && !m.pc[t].Idle? && !InSpin(m.pc[t]) && !InUnlock(m.pc[t])
    ensures Inv(LockStep(m, t))
  {
    var m' := LockStep(m, t);
    if InFastPath(m.pc[t]) {
      FastKeepsOwn(m, t);
    } else {
      SlowKeepsOwn(m, t);
    }
    forall u: nat | u < |m'.cpu|
      ensures TaskOk(m', u)
    {
      if u != t {
        assert TaskOk(m, t);
        OthersKeep(m, m', t, u);
      }
    }
  }

  lemma SpinKeepsOwn(m: Machine, t: nat, spurious: bool)
    requires Inv(m) && Running(m, t) && InSpin(m.pc[t])
    ensures var m' := SpinStep(m, t, spurious);
            Sized(m') && TaskOk(m', t) && LockOk(m')
  {
    assert TaskOk(m, t);
    if m.holder >= 0 {
      assert TaskOk(m, m.holder);
    }
  }

  lemma SpinKeeps(m: Machine, t: nat, spurious: bool)
    requires Inv(m) && Running(m, t) && InSpin(m.pc[t])
    ensures Inv(SpinStep(m, t, spurious))
  {
    var m' := SpinStep(m, t, spurious);
    SpinKeepsOwn(m, t, spurious);
    forall u: nat | u < |m'.cpu|
      ensures TaskOk(m', u)
    {
      if u != t {
        assert TaskOk(m, t);
        OthersKeep(m, m', t, u);
      }
    }
  }

  lemma UnlockKeepsOwn(m: Machine, t: nat)
    requires Inv(m) && Running(m, t) && InUnlock(m.pc[t])
    ensures var m' := UnlockStep(m, t);
            Sized(m') && TaskOk(m', t) && LockOk(m')
  {
    assert TaskOk(m, t);
    if m.holder >= 0 {
      assert TaskOk(m, m.holder);
    }
  }

  lemma UnlockKeeps(m: Machine, t: nat)
    requires Inv(m) && Running(m, t) && InUnlock(m.pc[t])
    ensures Inv(UnlockStep(m, t))
  {
    var m' := UnlockStep(m, t);
    UnlockKeepsOwn(m, t);
    forall u: nat | u < |m'.cpu|
      ensures TaskOk(m', u)
    {
      if u != t {
        assert TaskOk(m, t);
        OthersKeep(m, m', t, u);
      }
    }
  }

  lemma GoKeeps(m: Machine, t: nat, spurious: bool)
    requires Inv(m) && Enabled(m, Go(t, spurious))
    ensures Inv(GoStep(m, t, spurious))
  {
    if InSpin(m.pc[t]) {
      SpinKeeps(m, t, spurious);
    } else if InUnlock(m.pc[t]) {
      UnlockKeeps(m, t);
    } else {
      LockKeeps(m, t);
    }
  }

  lemma EnterKeeps(m: Machine, t: nat)
    requires Inv(m) && Enabled(m, Enter(t))
    ensures Inv(After(m, Enter(t)))
  {
    var m' := After(m, Enter(t));
    assert TaskOk(m, t);
    forall u: nat | u < |m'.cpu|
      ensures TaskOk(m', u)
    {
      if u != t {
        OthersKeep(m, m', t, u);
      }
    }
  }

  lemma LeaveKeeps(m: Machine, t: nat)
    requires Inv(m) && Enabled(m, Leave(t))
    ensures Inv(After(m, Leave(t)))
  {
    var m' := After(m, Leave(t));
    assert TaskOk(m, t);
    forall u: nat | u < |m'.cpu|
      ensures TaskOk(m', u)
    {
      if u != t {
        OthersKeep(m, m', t, u);
      }
    }
  }

  /** Only a task that is free to go can be switched away from. */
  lemma SwitchKeeps(m: Machine, c: nat, to: int)
    requires Inv(m) && Enabled(m, Switch(c, to))
    ensures Inv(After(m, Switch(c, to)))
  {
    var m' := After(m, Switch(c, to));
    forall u: nat | u < |m'.cpu|
      ensures TaskOk(m', u)
    {
      assert TaskOk(m, u);
    }
  }

  lemma MoveKeeps(m: Machine, t: nat, c: nat)
    requires Inv(m) && Enabled(m, Move(t, c))
    ensures Inv(After(m, Move(t, c)))
  {
    var m' := After(m, Move(t, c));
    assert TaskOk(m, t);
    if m.holder >= 0 {
      assert TaskOk(m, m.holder);
    }
    forall u: nat | u < |m'.cpu|
      ensures TaskOk(m', u)
    {
      assert TaskOk(m, u);
    }
  }

  lemma SetIrqKeeps(m: Machine, t: nat, on: bool)
    requires Inv(m) && Enabled(m, SetIrq(t, on))
    ensures Inv(After(m, SetIrq(t, on)))
  {
    var m' := After(m, SetIrq(t, on));
    assert TaskOk(m, t);
    forall u: nat | u < |m'.cpu|
      ensures TaskOk(m', u)
    {
      if u != t {
        OthersKeep(m, m', t, u);
      }
    }
  }

  lemma StepKeeps(m: Machine, s: Step)
    requires Inv(m) && Enabled(m, s)
    ensures Inv(After(m, s))
  {
    match s
    case Enter(t) => EnterKeeps(m, t);
    case Leave(t) => LeaveKeeps(m, t);
    case Go(t, spurious) => GoKeeps(m, t, spurious);
    case Switch(c, to) => SwitchKeeps(m, c, to);
    case Move(t, c) => MoveKeeps(m, t, c);
    case SetIrq(t, on) => SetIrqKeeps(m, t, on);
  }

  // ---------------------------------------------------------------- whole runs

  /** Nobody is in or near the lock; any placement of tasks, any interrupt states. */
  predicate Start(m: Machine) {
    && Sized(m) && !m.lock && m.owner == None && m.holder == -1
    && (forall t :: 0 <= t < |m.cpu| ==> m.pc[t] == Idle && m.nest[t] == 0)
  }

  datatype Outcome = Stuck | At(m: Machine)

  function Exec(m: Machine, steps: seq<Step>): Outcome
    decreases |steps|
  {
    if steps == [] then At(m)
    else
      var n := |steps| - 1;
      match Exec(m, steps[..n])
      case Stuck => Stuck
      case At(x) => if Enabled(x, steps[n]) then At(After(x, steps[n])) else Stuck
  }

  lemma {:induction false} EveryRunIsSafe(m: Machine, steps: seq<Step>)
    requires Start(m) && SlotsSuffice(m) && Exec(m, steps).At?
    ensures Inv(Exec(m, steps).m)
    decreases |steps|
  {
    if steps == [] {
      forall t: nat | t < |m.cpu|
        ensures TaskOk(m, t)
      {
      }
    } else {
      var n := |steps| - 1;
      EveryRunIsSafe(m, steps[..n]);
      StepKeeps(Exec(m, steps[..n]).m, steps[n]);
    }
  }

  // ---------------------------------------------------------------- what a caller sees

  /**
  What a task can tell from its own calls alone: which function it called last, how many fs_lock
  calls have returned that it has not begun to undo, and the interrupt state it had when it began the
  first of them.
  */
  datatype View = View(call: Call, open: int, found: bool)
  datatype Call = Locking | Unlocking

  predicate InterruptsOn(m: Machine, t: nat) {
    t < |m.cpu| && m.cpu[t] < |m.irq| && m.irq[m.cpu[t]]
  }

  predicate OutsideCalls(m: Machine, t: nat) {
    t < |m.pc| && m.pc[t].Idle?
  }

  /** The view of task t after a step from x to y. */
  function Observe(v: View, x: Machine, s: Step, y: Machine, t: nat): View {
    match s
    case Enter(u) => if u != t then v else View(Locking, v.open, if v.open == 0 then InterruptsOn(x, t) else v.found)
    case Leave(u) => if u != t then v else v.(call := Unlocking, open := v.open - 1)
    case Go(u, _) => if u == t && v.call.Locking? && OutsideCalls(y, t) then v.(open := v.open + 1) else v
    case _ => v
  }

  function ViewOf(m: Machine, steps: seq<Step>, t: nat): View
    requires Exec(m, steps).At?
    decreases |steps|
  {
    if steps == [] then View(Unlocking, 0, false)
    else
      var n := |steps| - 1;
      Observe(ViewOf(m, steps[..n], t), Exec(m, steps[..n]).m, steps[n], Exec(m, steps).m, t)
  }

  /** How a task's own view goes with the proof's counters. */
  predicate Agrees(v: View, m: Machine, t: nat) {
    && t < |m.pc| && t < |m.nest| && t < |m.seen|
    && m.nest[t] == v.open + (if m.pc[t].DecLoad? || m.pc[t].DecStore? then 1 else 0)
    && (!m.pc[t].Idle? ==> (v.call.Unlocking? <==> InUnlock(m.pc[t])))
    && (m.nest[t] > 0 || !m.pc[t].Idle? ==> v.found == m.seen[t])
  }

  /** An access ends a call of fs_lock exactly when it adds to the count. */
  lemma LockAgrees(v: View, m: Machine, t: nat, spurious: bool)
    requires Enabled(m, Go(t, spurious)) && PlaceOk(m, t) && Agrees(v, m, t)
    requires !InSpin(m.pc[t]) && !InUnlock(m.pc[t])
    ensures Agrees(Observe(v, m, Go(t, spurious), LockStep(m, t), t), LockStep(m, t), t)
  {
  }

  /** fs_unlock takes off what Leave took off the view. */
  lemma UnlockAgrees(v: View, m: Machine, t: nat, spurious: bool)
    requires Enabled(m, Go(t, spurious)) && PlaceOk(m, t) && Agrees(v, m, t) && InUnlock(m.pc[t])
    ensures Agrees(Observe(v, m, Go(t, spurious), UnlockStep(m, t), t), UnlockStep(m, t), t)
  {
  }

  lemma SpinAgrees(v: View, m: Machine, t: nat, spurious: bool)
    requires Enabled(m, Go(t, spurious)) && PlaceOk(m, t) && Agrees(v, m, t) && InSpin(m.pc[t])
    ensures var m' := SpinStep(m, t, spurious);
            Agrees(Observe(v, m, Go(t, spurious), m', t), m', t)
  {
  }

  lemma GoAgrees(v: View, m: Machine, t: nat, spurious: bool)
    requires Enabled(m, Go(t, spurious)) && PlaceOk(m, t) && Agrees(v, m, t)
    ensures var s := Go(t, spurious);
            Agrees(Observe(v, m, s, After(m, s), t), After(m, s), t)
  {
    hide Agrees, Observe, LockStep, UnlockStep, SpinStep, PlaceOk;
    if InSpin(m.pc[t]) {
      SpinAgrees(v, m, t, spurious);
    } else if InUnlock(m.pc[t]) {
      UnlockAgrees(v, m, t, spurious);
    } else {
      LockAgrees(v, m, t, spurious);
    }
  }

  lemma StepAgrees(v: View, m: Machine, s: Step, t: nat)
    requires Enabled(m, s) && t < |m.cpu| && PlaceOk(m, t) && Agrees(v, m, t)
    ensures Agrees(Observe(v, m, s, After(m, s), t), After(m, s), t)
  {
    if s.Go? {
      if s.t == t {
        GoAgrees(v, m, t, s.spurious);
      } else {
        GoLeavesOthers(m, s.t, s.spurious, t);
      }
    }
  }

  lemma GoLeavesOthers(m: Machine, t: nat, spurious: bool, u: nat)
    requires Enabled(m, Go(t, spurious)) && u < |m.cpu| && u != t
    ensures var m' := After(m, Go(t, spurious));
            && |m'.pc| == |m'.nest| == |m'.seen| == |m.cpu|
            && m'.pc[u] == m.pc[u] && m'.nest[u] == m.nest[u] && m'.seen[u] == m.seen[u]
  {
    if InSpin(m.pc[t]) {
      assert SpinStep(m, t, spurious).nest == m.nest;
    } else if InUnlock(m.pc[t]) {
      assert UnlockStep(m, t).seen == m.seen;
    } else {
      assert LockStep(m, t).seen == m.seen;
    }
  }

  lemma StepKeepsCpus(m: Machine, s: Step)
    requires Enabled(m, s)
    ensures |After(m, s).cpu| == |m.cpu|
  {
    if s.Go? {
      assert SpinStep(m, s.t, s.spurious).cpu == m.cpu;
      assert UnlockStep(m, s.t).cpu == m.cpu;
      assert LockStep(m, s.t).cpu == m.cpu;
    }
  }

  lemma {:induction false} ViewAgrees(m: Machine, steps: seq<Step>, t: nat)
    requires Start(m) && SlotsSuffice(m) && Exec(m, steps).At? && t < |m.cpu|
    ensures Inv(Exec(m, steps).m) && |Exec(m, steps).m.cpu| == |m.cpu|
    ensures TaskOk(Exec(m, steps).m, t) && Agrees(ViewOf(m, steps, t), Exec(m, steps).m, t)
    decreases |steps|
  {
    hide After, Observe, Enabled, TaskOk, LockOk, Agrees;
    EveryRunIsSafe(m, steps);
    if steps == [] {
      ViewAtStart(m, t);
    } else {
      var n := |steps| - 1;
      var x := Exec(m, steps[..n]).m;
      ViewAgrees(m, steps[..n], t);
      TaskIsPlaced(x, t);
      StepKeepsCpus(x, steps[n]);
      StepAgrees(ViewOf(m, steps[..n], t), x, steps[n], t);
    }
  }

  lemma ViewAtStart(m: Machine, t: nat)
    requires Start(m) && t < |m.cpu|
    ensures Agrees(ViewOf(m, [], t), m, t)
  {
  }

  lemma TaskIsPlaced(m: Machine, t: nat)
    requires Sized(m) && t < |m.cpu| && TaskOk(m, t)
    ensures PlaceOk(m, t)
  {
  }

  /**
  In every reachable state at most one task is between the return of its outermost fs_lock and its call
  of the matching fs_unlock; its interrupts are off, and between calls the depth counter of its CPU is
  the number of its calls that have returned and are not undone.
  */
  lemma MutualExclusion(m: Machine, steps: seq<Step>, t: nat, u: nat)
    requires Start(m) && SlotsSuffice(m) && Exec(m, steps).At? && t < |m.cpu| && u < |m.cpu|
    requires ViewOf(m, steps, t).open > 0 && ViewOf(m, steps, u).open > 0
    ensures t == u
    ensures var x := Exec(m, steps).m;
            && Sized(x) && t < |x.cpu| && Pinned(x, t) && x.cpu[t] < |x.depth|
            && (OutsideCalls(x, t) ==> x.depth[x.cpu[t]] == ViewOf(m, steps, t).open)
  {
    ViewAgrees(m, steps, t);
    ViewAgrees(m, steps, u);
  }

  /** While nobody is inside and nobody is in a call the lock is free. */
  lemma FreeWhenUnused(m: Machine, steps: seq<Step>)
    requires Start(m) && SlotsSuffice(m) && Exec(m, steps).At?
    requires forall t: nat :: t < |Exec(m, steps).m.cpu| ==>
               ViewOf(m, steps, t).open == 0 && OutsideCalls(Exec(m, steps).m, t)
    ensures !Exec(m, steps).m.lock && Exec(m, steps).m.owner == None
  {
    var x := Exec(m, steps).m;
    EveryRunIsSafe(m, steps);
    CpusStay(m, steps);
    if x.holder >= 0 {
      ViewAgrees(m, steps, x.holder);
    }
  }

  lemma {:induction false} CpusStay(m: Machine, steps: seq<Step>)
    requires Exec(m, steps).At?
    ensures |Exec(m, steps).m.cpu| == |m.cpu|
    decreases |steps|
  {
    hide After, Enabled;
    if steps != [] {
      var n := |steps| - 1;
      CpusStay(m, steps[..n]);
      StepKeepsCpus(Exec(m, steps[..n]).m, steps[n]);
    }
  }

  /** The test made without the lock succeeds exactly when the caller's own task has the lock. */
  lemma OwnerTestIsExact(m: Machine, steps: seq<Step>, t: nat)
    requires Start(m) && SlotsSuffice(m) && Exec(m, steps).At?
    requires var x := Exec(m, steps).m;
             Sized(x) && Running(x, t) && x.pc[t].TestOwner?
    ensures var x := Exec(m, steps).m;
            x.owner == Slot(x.pc[t].me) <==> x.nest[t] > 0
  {
    EveryRunIsSafe(m, steps);
    var x := Exec(m, steps).m;
    assert TaskOk(x, t);
    if x.holder >= 0 {
      assert TaskOk(x, x.holder);
    }
  }

  /** When the fs_unlock that undoes the outermost fs_lock returns, interrupts are as that fs_lock found them. */
  lemma UnlockRestoresInterrupts(m: Machine, steps: seq<Step>, t: nat)
    requires Start(m) && SlotsSuffice(m) && Exec(m, steps).At? && t < |m.cpu| && steps != []
    requires steps[|steps| - 1].Go? && steps[|steps| - 1].t == t
    requires ViewOf(m, steps, t).call.Unlocking? && ViewOf(m, steps, t).open == 0
    requires OutsideCalls(Exec(m, steps).m, t)
    ensures InterruptsOn(Exec(m, steps).m, t) == ViewOf(m, steps, t).found
  {
    var before := steps[..|steps| - 1];
    ViewAgrees(m, before, t);
    ViewAgrees(m, steps, t);
    LastAccess(ViewOf(m, before, t), Exec(m, before).m, steps[|before|]);
  }

  lemma LastAccess(v: View, m: Machine, s: Step)
    requires s.Go? && Enabled(m, s) && TaskOk(m, s.t) && Agrees(v, m, s.t) && v.call.Unlocking? && v.open == 0
    requires OutsideCalls(After(m, s), s.t)
    ensures InterruptsOn(After(m, s), s.t) == v.found
  {
    assert m.pc[s.t].IrqRestore?;
  }

  /** How many accesses a call still has to make when nothing holds it up. */
  function Remaining(p: Pc): nat {
    match p
    case Idle => 0
    case TestOwner(_) => 9
    case IrqRead(_) => 8
    case IrqOff(_, _) => 7
    case SaveFlags(_, _) => 6
    case Spin(_) => 5
    case LoadExcl(_) => 4
    case StoreExcl(_) => 3
    case SetDepth(_) => 2
    case SetOwner(_) => 1
    case NestLoad(_) => 2
    case NestStore(_, _) => 1
    case DecLoad(_) => 6
    case DecStore(_, _) => 5
    case ClearOwner(_) => 4
    case ClearLock(_) => 3
    case FlagsLoad(_) => 2
    case IrqRestore(_, _) => 1
  }

  /** Every access brings a call nearer its end, unless the lock word is taken or a store-exclusive fails. */
  lemma CallsAdvance(m: Machine, t: nat, spurious: bool)
    requires Enabled(m, Go(t, spurious))
    ensures var p := m.pc[t];
            || Remaining(After(m, Go(t, spurious)).pc[t]) < Remaining(p)
            || ((p.Spin? || p.LoadExcl?) && m.lock)
            || (p.StoreExcl? && (spurious || !m.excl[m.cpu[t]]))
  {
    if InSpin(m.pc[t]) {
      assert After(m, Go(t, spurious)) == SpinStep(m, t, spurious);
    } else if InUnlock(m.pc[t]) {
      assert After(m, Go(t, spurious)) == UnlockStep(m, t);
    } else {
      assert After(m, Go(t, spurious)) == LockStep(m, t);
    }
  }

  // ---------------------------------------------------------------- the slot count is exact

  lemma Take(m: Machine, steps: seq<Step>, x: Machine, s: Step) returns (more: seq<Step>)
    requires Exec(m, steps) == At(x) && Enabled(x, s)
    ensures Exec(m, more) == At(After(x, s))
    ensures forall t: nat :: ViewOf(m, more, t) == Observe(ViewOf(m, steps, t), x, s, After(x, s), t)
  {
    more := steps + [s];
    assert more[..|steps|] == steps;
  }

  /** The places of an uncontended fs_lock in order. */
  predicate Place(p: Pc, k: nat) {
    match k
    case 0 => p.TestOwner?
    case 1 => p.IrqRead?
    case 2 => p.IrqOff?
    case 3 => p.SaveFlags?
    case 4 => p.Spin?
    case 5 => p.LoadExcl?
    case 6 => p.StoreExcl?
    case 7 => p.SetDepth?
    case 8 => p.SetOwner?
    case _ => p.Idle?
  }

  /** Task t is k accesses into fs_lock; nobody else has moved. */
  predicate Alone(m: Machine, x: Machine, t: nat, k: nat) {
    && Sized(m) && Sized(x) && t < |m.cpu|
    && x.cpu == m.cpu && x.run == m.run && |x.depth| == |m.depth|
    && x.pc == m.pc[t := x.pc[t]] && Place(x.pc[t], k)
    && (k < 9 ==> x.pc[t].me == Me(m, m.cpu[t]))
    && x.nest == m.nest[t := if k < 9 then 0 else 1]
    && x.owner == (if k < 9 then None else Slot(Me(m, m.cpu[t])))
    && (k < 7 ==> !x.lock) && (k == 6 ==> x.excl[x.cpu[t]])
  }

  lemma Advance(m: Machine, x: Machine, t: nat, k: nat)
    requires Alone(m, x, t, k) && k < 9 && Running(m, t)
    ensures Enabled(x, Go(t, false)) && Alone(m, After(x, Go(t, false)), t, k + 1)
  {
  }

  /** A task alone at a free lock gets through fs_lock. */
  lemma {:induction false} Climb(m: Machine, steps: seq<Step>, x: Machine, t: nat, k: nat)
    returns (more: seq<Step>, y: Machine)
    requires Exec(m, steps) == At(x) && Alone(m, x, t, k) && k <= 9 && Running(m, t)
    requires ViewOf(m, steps, t).call.Locking?
    ensures Exec(m, more) == At(y) && Alone(m, y, t, 9)
    ensures ViewOf(m, more, t).open == ViewOf(m, steps, t).open + (if k < 9 then 1 else 0)
    ensures forall u: nat :: u != t ==> ViewOf(m, more, u) == ViewOf(m, steps, u)
    decreases 9 - k
  {
    if k == 9 {
      more, y := steps, x;
    } else {
      Advance(m, x, t, k);
      var next := Take(m, steps, x, Go(t, false));
      more, y := Climb(m, next, After(x, Go(t, false)), t, k + 1);
    }
  }

  /** The owner test sends a task whose slot is the owner's down the nested path. */
  lemma NestedPath(x: Machine, u: nat)
    requires Enabled(x, Enter(u)) && x.owner == Slot(Me(x, x.cpu[u]))
    ensures var x1 := After(x, Enter(u));
            Enabled(x1, Go(u, false)) && var x2 := After(x1, Go(u, false));
            Enabled(x2, Go(u, false)) && var x3 := After(x2, Go(u, false));
            Enabled(x3, Go(u, false)) && var x4 := After(x3, Go(u, false));
            !OutsideCalls(x2, u) && !OutsideCalls(x3, u) && OutsideCalls(x4, u)
  {
    var x1 := After(x, Enter(u));
    assert x1.pc[u] == TestOwner(Me(x, x.cpu[u]));
    var x2 := After(x1, Go(u, false));
    assert x2 == x1.(pc := x1.pc[u := NestLoad(Me(x, x.cpu[u]))]);
  }

  /** A task on a CPU without a slot of its own takes CPU 0's lock for its own. */
  lemma Intrude(m: Machine, steps: seq<Step>, x: Machine, u: nat) returns (more: seq<Step>)
    requires Exec(m, steps) == At(x) && Enabled(x, Enter(u)) && x.owner == Slot(Me(x, x.cpu[u]))
    ensures Exec(m, more).At? && ViewOf(m, more, u).open == ViewOf(m, steps, u).open + 1
    ensures forall t: nat :: t != u ==> ViewOf(m, more, t) == ViewOf(m, steps, t)
  {
    hide After, Enabled;
    NestedPath(x, u);
    var x1 := After(x, Enter(u));
    more := Take(m, steps, x, Enter(u));
    var x2 := After(x1, Go(u, false));
    more := Take(m, more, x1, Go(u, false));
    var x3 := After(x2, Go(u, false));
    more := Take(m, more, x2, Go(u, false));
    more := Take(m, more, x3, Go(u, false));
  }

  /**
  With more CPUs than slots the clamp of the CPU number lets two tasks in at once: whoever runs on
  the first CPU without a slot passes the owner test while CPU 0 has the lock.
  */
  lemma TooManyCpusBreakIt(m: Machine, t: nat, u: nat) returns (steps: seq<Step>)
    requires Start(m) && !SlotsSuffice(m)
    requires Running(m, t) && m.cpu[t] == 0 && Running(m, u) && m.cpu[u] == |m.depth|
    ensures Exec(m, steps).At? && t != u
    ensures ViewOf(m, steps, t).open > 0 && ViewOf(m, steps, u).open > 0
  {
    assert Exec(m, []) == At(m);
    var first := Take(m, [], m, Enter(t));
    var held, x := Climb(m, first, After(m, Enter(t)), t, 0);
    steps := Intrude(m, held, x, u);
  }
}
