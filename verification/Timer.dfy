/**
Tick arithmetic (driver/timer/timer.c) and the tick base of the riscv64 timer
(driver/timer/timer_riscv64_impl.h), in 64-bit arithmetic.
*/
module Timer {

  import opened Arith

  const U64: nat := 0x1_0000_0000_0000_0000
  const HALF: nat := 0x8000_0000_0000_0000
  const NS: nat := 1_000_000_000
  const US: nat := 1_000_000

  function Wrap(x: int): (r: nat)
    ensures r < U64
  {
    x % U64
  }

  /** The time of a number of periods, the whole periods in a time, and what is left over. */
  function Span(k: nat, period: nat): nat { k * period }

  function Count(time: nat, period: nat): nat
    requires period > 0
  {
    time / period
  }

  function Left(time: nat, period: nat): nat
    requires period > 0
  {
    time % period
  }

  // ---------------------------------------------------------------- conversions

  /** Quotient and remainder converted apart give the quotient of the product. */
  lemma SplitFloor(a: nat, m: nat, f: nat)
    requires f > 0
    ensures Span(Count(a, f), m) + Count(Span(Left(a, f), m), f) == Count(Span(a, m), f)
  {
    var q, r := a / f, a % f;
    var t := r * m;
    assert a * m == q * m * f + t by {
      assert a == q * f + r;
      Distribute(q, f, r, m);
    }
    assert (q * m + t / f) * f == q * m * f + t / f * f by { Distribute(q * m, 1, t / f, f); }
    assert t == t / f * f + t % f;
    DivMod(a * m, f, q * m + t / f, t % f);
  }

  lemma Distribute(q: nat, f: nat, r: nat, m: nat)
    ensures (q * f + r) * m == q * m * f + r * m
  {
  }

  lemma WrapSmall(x: nat)
    ensures x < U64 ==> Wrap(x) == x
  {
  }

  /** A quotient converted apart, with every operation in 64 bits. */
  function Split(a: nat, m: nat, f: nat): nat
    requires f > 0
  {
    Join(Span(Count(a, f), m), Span(Left(a, f), m), f)
  }

  function Join(high: nat, low: nat, f: nat): nat
    requires f > 0
  {
    Wrap(Wrap(high) + Count(Wrap(low), f))
  }

  lemma RemainderFits(a: nat, f: nat, m: nat)
    requires 0 < f && 0 < m && f * m <= U64
    ensures Span(Left(a, f), m) < U64
  {
    assert (a % f + 1) * m <= f * m;
  }

  /** It is exact precisely as long as the result fits, if the remainder's product cannot overflow. */
  lemma SplitExactIff(a: nat, m: nat, f: nat)
    requires f > 0 && Span(Left(a, f), m) < U64
    ensures Split(a, m, f) == Count(Span(a, m), f) <==> Count(Span(a, m), f) < U64
  {
    hide Join, Span, Count, Left;
    SplitFloor(a, m, f);
    JoinExactIff(Span(Count(a, f), m), Span(Left(a, f), m), f, Count(Span(a, m), f));
  }

  lemma JoinExactIff(high: nat, low: nat, f: nat, x: nat)
    requires f > 0 && low < U64 && high + Count(low, f) == x
    ensures Join(high, low, f) == x <==> x < U64
  {
    WrapSmall(high);
    WrapSmall(low);
    WrapSmall(x);
    hide Wrap, Count;
  }

  /** timer_counter_to_ns */
  function ToNs(ticks: nat, freq: nat): nat {
    if freq == 0 then 0 else Split(ticks, NS, freq)
  }

  /** For a counter of up to 18.4 GHz: the exact nanoseconds, precisely as long as they fit in 64 bits. */
  lemma ToNsExactIff(ticks: nat, freq: nat)
    requires 0 < freq && freq * NS <= U64
    ensures ToNs(ticks, freq) == ticks * NS / freq <==> ticks * NS / freq < U64
  {
    RemainderFits(ticks, freq, NS);
    SplitExactIff(ticks, NS, freq);
  }

  /** The ticks of a delay or timeout in microseconds. */
  function FromUs(freq: nat, us: nat): nat {
    Split(freq, us, US)
  }

  /** For up to 2^64 / 10^6 microseconds: the exact ticks, precisely as long as they fit in 64 bits. */
  lemma FromUsExactIff(freq: nat, us: nat)
    requires 0 < us && US * us <= U64
    ensures FromUs(freq, us) == freq * us / US <==> freq * us / US < U64
  {
    RemainderFits(freq, US, us);
    SplitExactIff(freq, us, US);
  }

  /** The unsplit product of timer_delay_ms is exact precisely as long as the product fits. */
  lemma FromMsExactIff(freq: nat, ms: nat)
    ensures Wrap(freq * ms) / 1000 == freq * ms / 1000 <==> freq * ms < U64
  {
    var x := freq * ms;
    WrapSmall(x);
    assert x >= U64 ==> Wrap(x) <= x - U64;
  }

  // ---------------------------------------------------------------- waiting

  /** The busy loop goes on: the counter minus the target is negative as a signed number. */
  predicate Waiting(counter: nat, target: nat) {
    Wrap(counter - target) >= HALF
  }

  /**
  Across counter wrap-around: started at time `start`, the delay loop goes on at time `now` exactly
  while the delay has not passed, as long as it is looked at within half the counter's range of its end.
  */
  lemma DelayIsExact(start: nat, now: nat, delay: nat)
    requires delay <= HALF && start <= now < start + delay + HALF
    ensures Waiting(Wrap(now), Wrap(Wrap(start) + delay)) <==> now < start + delay
  {
    WrapDiff(now, start + delay);
    WrapSum(start, delay);
  }

  /** The unsigned comparison of timer_poll_until_us. */
  lemma TimeoutIsExact(start: nat, now: nat, timeout: nat)
    requires start <= now < start + U64
    ensures Wrap(Wrap(now) - Wrap(start)) < timeout <==> now - start < timeout
  {
    WrapDiff(now, start);
  }

  lemma WrapSum(a: nat, b: nat)
    ensures Wrap(Wrap(a) + b) == Wrap(a + b)
  {
  }

  lemma WrapDiff(a: nat, b: nat)
    ensures Wrap(Wrap(a) - Wrap(b)) == Wrap(a - b)
    ensures 0 <= a - b < U64 ==> Wrap(a - b) == a - b
    ensures 0 < b - a <= HALF ==> Wrap(a - b) == a - b + U64
  {
  }

  // ---------------------------------------------------------------- the riscv64 tick

  /**
  The tick variables.  `now` is the counter when they were last computed and `origin` the moment
  the ticks count from; it may lie before the counter's zero, so only its low 64 bits are in `base`.
  */
  datatype Tick = Tick(base: nat, step: nat, ticks: nat, deadline: nat, now: nat, origin: int)

  datatype Event = Enable(freq: nat, at: nat) | Interrupt(freq: nat, at: nat)

  /** timer_arch_set_next_interrupt(ask) at time t: absolute, unless no period is known at all. */
  function Next(base: nat, step: nat, ticks: nat, ask: nat, t: nat): nat {
    var period := if step != 0 then step else ask;
    if period == 0 then Wrap(t + ask) else Wrap(base + Wrap(Span(ticks + 1, period)))
  }

  /** timer_arch_enable with the interrupt frequency hz, and timer_handler. */
  function Handle(s: Tick, e: Event, hz: nat): Tick
    requires hz > 0
  {
    match e
    case Enable(freq, t) =>
      var step := Count(freq, hz);
      var base := Wrap(t - Wrap(Span(s.ticks, step)));
      Tick(base, step, s.ticks, Next(base, step, s.ticks, step, t), t, t - Span(s.ticks, step))
    case Interrupt(freq, t) =>
      var ticks := if s.step != 0 then Count(Wrap(t - s.base), s.step) else Wrap(s.ticks + 1);
      s.(ticks := ticks, deadline := Next(s.base, s.step, ticks, Count(freq, hz), t), now := t)
  }

  /** Within one period of the elapsed time, and the next deadline in the coming period. */
  predicate OnTime(s: Tick) {
    && s.step > 0 && s.base == Wrap(s.origin)
    && Span(s.ticks, s.step) <= s.now - s.origin < Span(s.ticks, s.step) + s.step
    && s.deadline == Wrap(s.origin + Span(s.ticks, s.step) + s.step)
    && s.now < s.origin + Span(s.ticks, s.step) + s.step <= s.now + s.step
  }

  /** Time goes on, the counter is fast enough for the frequency, and the time since the origin fits in 64 bits. */
  predicate Allowed(s: Tick, e: Event, hz: nat) {
    && s.now <= e.at
    && (e.Enable? ==> hz <= e.freq)
    && (e.Interrupt? ==> e.at - s.origin < U64)
  }

  lemma NextIs(base: nat, origin: int, step: nat, ticks: nat, ask: nat, t: nat)
    requires step > 0 && base == Wrap(origin)
    ensures Next(base, step, ticks, ask, t) == Wrap(origin + Span(ticks, step) + step)
  {
    assert Span(ticks + 1, step) == Span(ticks, step) + step;
    WrapAdd(origin, Span(ticks, step) + step);
  }

  lemma WrapAdd(a: int, b: nat)
    ensures Wrap(Wrap(a) + Wrap(b)) == Wrap(a + b)
  {
  }

  lemma WrapSub(a: int, b: nat)
    ensures Wrap(b - Wrap(a)) == Wrap(b - a)
  {
  }

  lemma EnableKeeps(s: Tick, freq: nat, t: nat, hz: nat)
    requires 0 < hz <= freq
    ensures OnTime(Handle(s, Enable(freq, t), hz)) && Handle(s, Enable(freq, t), hz).ticks == s.ticks
  {
    hide Wrap, Span, Count;
    var step := Count(freq, hz);
    AtLeastOne(freq, hz);
    var x := Span(s.ticks, step);
    WrapSub(x, t);
    NextIs(Wrap(t - Wrap(x)), t - x, step, s.ticks, step, t);
  }

  lemma AtLeastOne(freq: nat, hz: nat)
    requires 0 < hz
    ensures Count(freq, hz) > 0 <==> hz <= freq
    ensures Count(freq, hz) <= freq
  {
    hide Span, Count;
    Periods(freq, hz);
    SpanAtLeast(Count(freq, hz), hz);
  }

  lemma SpanAtLeast(k: nat, step: nat)
    requires step > 0
    ensures k <= Span(k, step) && (k == 0 ==> Span(k, step) == 0) && (k > 0 ==> step <= Span(k, step))
  {
    assert k * 1 <= k * step;
    assert k > 0 ==> 1 * step <= k * step;
  }

  lemma InterruptKeeps(s: Tick, freq: nat, t: nat, hz: nat)
    requires hz > 0 && OnTime(s) && s.now <= t && t - s.origin < U64
    ensures OnTime(Handle(s, Interrupt(freq, t), hz)) && s.ticks <= Handle(s, Interrupt(freq, t), hz).ticks
  {
    hide Wrap, Span, Count;
    var e: nat := t - s.origin;
    WrapSub(s.origin, t);
    WrapSmall(e);
    var q := Count(e, s.step);
    Periods(e, s.step);
    NextIs(s.base, s.origin, s.step, q, Count(freq, hz), t);
    NoFewer(s.ticks, q, s.step, e);
  }

  /** The number of whole periods in a time. */
  lemma Periods(e: nat, step: nat)
    requires step > 0
    ensures Span(Count(e, step), step) <= e < Span(Count(e, step), step) + step
  {
  }

  lemma NoFewer(k: nat, q: nat, step: nat, e: nat)
    requires Span(k, step) <= e < Span(q, step) + step
    ensures k <= q
  {
    assert q < k ==> (q + 1) * step <= k * step;
  }

  ghost predicate IsRun(ws: seq<Tick>, es: seq<Event>, hz: nat) {
    && hz > 0 && |ws| == |es| + 1 && OnTime(ws[0])
    && forall i: nat :: i < |es| ==> IsStep(ws[i], es[i], ws[i + 1], hz)
  }

  ghost predicate IsStep(s: Tick, e: Event, s': Tick, hz: nat) {
    hz > 0 && Allowed(s, e, hz) && s' == Handle(s, e, hz)
  }

  /**
  Over any run of interrupts, however late, and re-enables: the tick count never decreases, is within
  one period of the elapsed time, and the deadline lies after the sampled time by at most one period.
  */
  lemma {:induction false} TicksKeepTime(ws: seq<Tick>, es: seq<Event>, hz: nat, m: nat, n: nat)
    requires IsRun(ws, es, hz) && m <= n < |ws|
    ensures OnTime(ws[n]) && ws[m].ticks <= ws[n].ticks
    decreases n
  {
    hide OnTime, Handle;
    if n > 0 {
      assert IsStep(ws[n - 1], es[n - 1], ws[n], hz);
      TicksKeepTime(ws, es, hz, if m < n then m else n - 1, n - 1);
      match es[n - 1]
      case Enable(freq, t) => EnableKeeps(ws[n - 1], freq, t, hz);
      case Interrupt(freq, t) => LateInterrupt(ws[n - 1], freq, t, hz);
    }
  }

  lemma LateInterrupt(s: Tick, freq: nat, t: nat, hz: nat)
    requires OnTime(s) && Allowed(s, Interrupt(freq, t), hz) && hz > 0
    ensures OnTime(Handle(s, Interrupt(freq, t), hz)) && s.ticks <= Handle(s, Interrupt(freq, t), hz).ticks
  {
    InterruptKeeps(s, freq, t, hz);
  }

  /** The count an interrupt computes is the elapsed periods exactly while the elapsed time fits in 64 bits. */
  lemma CountRightIff(elapsed: nat, step: nat)
    requires 0 < step < U64
    ensures Count(Wrap(elapsed), step) == Count(elapsed, step) <==> elapsed < U64
  {
    WrapSmall(elapsed);
    if elapsed >= U64 {
      assert Wrap(elapsed) + step <= elapsed;
      MorePeriods(Wrap(elapsed), elapsed, step);
    }
  }

  lemma MorePeriods(a: nat, b: nat, step: nat)
    requires 0 < step && a + step <= b
    ensures Count(a, step) < Count(b, step)
  {
    Periods(a, step);
    Periods(b, step);
    assert Span(Count(a, step) + 1, step) == Span(Count(a, step), step) + step;
    NoFewer(Count(a, step) + 1, Count(b, step), step, b);
  }

  /** With a counter slower than the tick frequency the period is zero and the next deadline is not in the future. */
  lemma DeadlineAheadIff(s: Tick, freq: nat, t: nat, hz: nat)
    requires 0 < hz && t + freq < U64
    ensures Handle(s, Enable(freq, t), hz).deadline > t <==> hz <= freq
  {
    hide Wrap, Span, Count;
    AtLeastOne(freq, hz);
    WrapSmall(t);
    if hz <= freq {
      EnableKeeps(s, freq, t, hz);
      WrapSmall(t + Count(freq, hz));
    }
  }

  class TickTimer {
    var base: nat
    var step: nat
    var ticks: nat
    var deadline: nat
    ghost var w: Tick

    ghost predicate Valid()
      reads this
    {
      w.base == base && w.step == step && w.ticks == ticks && w.deadline == deadline
    }

    /** timer_arch_set_next_interrupt */
    method SetNext(ticksFromNow: nat, t: nat)
      modifies `deadline
      ensures deadline == Next(base, step, ticks, ticksFromNow, t)
    {
      var period := if step != 0 then step else ticksFromNow;
      if period == 0 {
        deadline := Wrap(t + ticksFromNow);
      } else {
        deadline := Wrap(base + Wrap(Span(ticks + 1, period)));
      }
    }

    /** timer_arch_enable */
    method TurnOn(freq: nat, hz: nat, t: nat)
      requires Valid() && hz > 0
      modifies this
      ensures Valid() && w == Handle(old(w), Enable(freq, t), hz)
      ensures hz <= freq ==> OnTime(w) && ticks == old(ticks)
    {
      ghost var s := w;
      if hz <= freq {
        EnableKeeps(s, freq, t, hz);
      }
      hide OnTime, Wrap;
      step := Count(freq, hz);
      base := Wrap(t - (if step != 0 then Wrap(Span(ticks, step)) else 0));
      SetNext(step, t);
      w := Handle(s, Enable(freq, t), hz);
      assert step == 0 ==> Span(ticks, step) == 0;
      ZeroWraps();
    }

    /** The tick part of timer_handler */
    method OnInterrupt(freq: nat, t: nat, hz: nat)
      requires Valid() && hz > 0
      modifies this
      ensures Valid() && w == Handle(old(w), Interrupt(freq, t), hz)
      ensures old(OnTime(w)) && old(Allowed(w, Interrupt(freq, t), hz)) ==> OnTime(w) && old(ticks) <= ticks
    {
      ghost var s := w;
      if OnTime(s) && Allowed(s, Interrupt(freq, t), hz) {
        LateInterrupt(s, freq, t, hz);
      }
      hide OnTime, Wrap;
      if step != 0 {
        ticks := Count(Wrap(t - base), step);
      } else {
        ticks := Wrap(ticks + 1);
      }
      SetNext(Count(freq, hz), t);
      w := Handle(s, Interrupt(freq, t), hz);
    }
  }

  lemma ZeroWraps()
    ensures Wrap(0) == 0
  {
  }
}
