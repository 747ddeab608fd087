/** The SCC68070 timer of runner/src/periph.c: tick by tick, and in one quiet batch. */
module Timer {

  const TOP := 0xFFFF

  /** Timer registers. Status is the set of its one bits; mode1 and mode2 are the two-bit
      control fields of timers 1 and 2; `raised` counts interrupt requests made. */
  datatype Timers = Timers(t0: nat, t1: nat, t2: nat, reload: nat, status: set<int>, mode1: nat, mode2: nat,
                           priority: nat, prescale: nat, raised: nat)

  predicate WellFormed(t: Timers) {
    t.t0 <= TOP && t.t1 <= TOP && t.t2 <= TOP && t.reload <= TOP && t.mode1 < 4 && t.mode2 < 4 && t.prescale < 96
  }

  function Request(t: Timers): Timers {
    if t.priority != 0 then t.(raised := t.raised + 1) else t
  }

  function Clock0(t: Timers): Timers {
    if t.t0 == TOP then Request(t.(t0 := t.reload, status := t.status + {7})) else t.(t0 := t.t0 + 1)
  }

  function Clock1(t: Timers): Timers {
    if t.mode1 == 0 then t
    else
      var s := if t.t1 == TOP then Request(t.(status := t.status + {4}))
               else if t.mode1 == 3 then t.(status := t.status - {0, 4}) else t;
      var next := if t.t1 == TOP then 0 else t.t1 + 1;
      s.(t1 := next, status := s.status + (if next == t.t0 then {6} else {}))
  }

  function Clock2(t: Timers): Timers {
    if t.mode2 == 0 then t
    else
      var s := if t.t2 == TOP then Request(t.(status := t.status + {1}))
               else if t.mode2 == 3 then t.(status := t.status - {0, 1}) else t;
      var next := if t.t2 == TOP then 0 else t.t2 + 1;
      s.(t2 := next, status := s.status + (if next == t.t0 then {3} else {}))
  }

  /** One timer tick: timer 0, then 1, then 2. */
  function Tick(t: Timers): Timers { Clock2(Clock1(Clock0(t))) }

  function Ticks(t: Timers, n: nat): Timers {
    if n == 0 then t else Tick(Ticks(t, n - 1))
  }

  /** periph_increment_timer. */
  function Increment(t: Timers, cycles: nat): Timers {
    Ticks(t.(prescale := (t.prescale + cycles) % 96), (t.prescale + cycles) / 96)
  }

  function Increments(t: Timers, cycles: nat, n: nat): Timers {
    if n == 0 then t else Increment(Increments(t, cycles, n - 1), cycles)
  }

  /** The next tick takes an enabled counter over its top. */
  predicate AboutToWrap(t: Timers) {
    t.t0 == TOP || (t.mode1 != 0 && t.t1 == TOP) || (t.mode2 != 0 && t.t2 == TOP)
  }

  /** Ticks until the first enabled counter wraps. */
  function Headroom(t: Timers): nat
    requires WellFormed(t)
  {
    var a := TOP + 1 - t.t0;
    var b := if t.mode1 != 0 && TOP + 1 - t.t1 < a then TOP + 1 - t.t1 else a;
    if t.mode2 != 0 && TOP + 1 - t.t2 < b then TOP + 1 - t.t2 else b
  }

  class Periph {
    var t: Timers

    constructor (t: Timers)
      ensures this.t == t
    {
      this.t := t;
    }

    /** clock_timer_once. */
    method ClockTimerOnce()
      requires WellFormed(t)
      modifies this
      ensures t == Tick(old(t)) && WellFormed(t)
    {
      var timer0 := t.t0;
      if timer0 == TOP {
        timer0 := t.reload;
        t := t.(status := t.status + {7});
        t := Request(t);
      } else {
        timer0 := timer0 + 1;
      }
      t := t.(t0 := timer0);
      ClockTimer1(timer0);
      ClockTimer2(timer0);
    }

    method ClockTimer1(timer0: nat)
      requires WellFormed(t) && timer0 == t.t0
      modifies this
      ensures t == Clock1(old(t)) && WellFormed(t)
    {
      if t.mode1 != 0 {
        var timer1 := t.t1;
        if timer1 == TOP {
          t := Request(t.(status := t.status + {4}));
        } else if t.mode1 == 3 {
          t := t.(status := t.status - {0, 4});
        }
        timer1 := (timer1 + 1) % (TOP + 1);
        if timer1 == timer0 { t := t.(status := t.status + {6}); }
        t := t.(t1 := timer1);
      }
      assert t.status == Clock1(old(t)).status;
    }

    method ClockTimer2(timer0: nat)
      requires WellFormed(t) && timer0 == t.t0
      modifies this
      ensures t == Clock2(old(t)) && WellFormed(t)
    {
      if t.mode2 != 0 {
        var timer2 := t.t2;
        if timer2 == TOP {
          t := Request(t.(status := t.status + {1}));
        } else if t.mode2 == 3 {
          t := t.(status := t.status - {0, 1});
        }
        timer2 := (timer2 + 1) % (TOP + 1);
        if timer2 == timer0 { t := t.(status := t.status + {3}); }
        t := t.(t2 := timer2);
      }
      assert t.status == Clock2(old(t)).status;
    }

    method IncrementTimer(cycles: nat)
      requires WellFormed(t)
      modifies this
      ensures t == Increment(old(t), cycles) && WellFormed(t)
    {
      hide Tick;
      var accumulated := t.prescale + cycles;
      var ticks := accumulated / 96;
      t := t.(prescale := accumulated % 96);
      ghost var start := t;
      var done := 0;
      while done < ticks
        invariant 0 <= done <= ticks
        invariant WellFormed(t) && t == Ticks(start, done)
      {
        ClockTimerOnce();
        done := done + 1;
      }
    }

    /** periph_quiet_quanta: 25-cycle quanta that pass before anything can happen. */
    method QuietQuanta(maximum: nat) returns (n: nat)
      requires WellFormed(t)
      ensures n == QuietBound(t, maximum)
    {
      var ticks := TOP + 1 - t.t0;
      if t.mode1 != 0 && TOP + 1 - t.t1 < ticks { ticks := TOP + 1 - t.t1; }
      if t.mode2 != 0 && TOP + 1 - t.t2 < ticks { ticks := TOP + 1 - t.t2; }
      var cycles := ticks * 96 - t.prescale;
      var quiet := (cycles - 1) / 25;
      n := if quiet < maximum then quiet else maximum;
    }

    /** periph_advance_quiet: all the ticks at once. */
    method AdvanceQuiet(cycles: nat)
      requires WellFormed(t)
      modifies this
      ensures t == Batch(old(t), cycles)
    {
      hide Moved, Settled;
      var accumulated := t.prescale + cycles;
      var ticks := accumulated / 96;
      t := t.(prescale := accumulated % 96);
      if ticks != 0 { AdvanceCounters(ticks); }
    }

    method AdvanceCounters(ticks: nat)
      requires ticks > 0
      modifies this
      ensures t == BatchTicks(old(t), ticks)
    {
      hide Settle1, Settle2, Advanced;
      t := t.(t0 := Advanced(t.t0, ticks));
      AdvanceTimer1(ticks);
      AdvanceTimer2(ticks);
    }

    method AdvanceTimer1(ticks: nat)
      modifies this
      ensures var next := if old(t).mode1 == 0 then old(t).t1 else Advanced(old(t).t1, ticks);
        t == old(t).(t1 := next, status := Settle1(old(t).mode1, next == old(t).t0, old(t).status))
    {
      if t.mode1 == 0 { return; }
      var timer1 := Advanced(t.t1, ticks);
      if t.mode1 == 3 { t := t.(status := t.status - {0, 4}); }
      if timer1 == t.t0 { t := t.(status := t.status + {6}); }
      t := t.(t1 := timer1);
      assert t.status == Settle1(old(t).mode1, timer1 == old(t).t0, old(t).status);
    }

    method AdvanceTimer2(ticks: nat)
      modifies this
      ensures var next := if old(t).mode2 == 0 then old(t).t2 else Advanced(old(t).t2, ticks);
        t == old(t).(t2 := next, status := Settle2(old(t).mode2, next == old(t).t0, old(t).status))
    {
      if t.mode2 == 0 { return; }
      var timer2 := Advanced(t.t2, ticks);
      if t.mode2 == 3 { t := t.(status := t.status - {0, 1}); }
      if timer2 == t.t0 { t := t.(status := t.status + {3}); }
      t := t.(t2 := timer2);
      assert t.status == Settle2(old(t).mode2, timer2 == old(t).t0, old(t).status);
    }
  }

  function QuietBound(t: Timers, maximum: nat): nat
    requires WellFormed(t)
  {
    var quiet := (Headroom(t) * 96 - t.prescale - 1) / 25;
    if quiet < maximum then quiet else maximum
  }

  /** What quiet ticks do to the status: timer 1's bits, then timer 2's. `meets` says that
      the counter equals timer 0. */
  function Settle1(mode: nat, meets: bool, status: set<int>): set<int> {
    if mode == 0 then status
    else (if mode == 3 then status - {0, 4} else status) + (if meets then {6} else {})
  }

  function Settle2(mode: nat, meets: bool, status: set<int>): set<int> {
    if mode == 0 then status
    else (if mode == 3 then status - {0, 1} else status) + (if meets then {3} else {})
  }

  function Settled(t: Timers, status: set<int>): set<int> {
    Settle2(t.mode2, t.t2 == t.t0, Settle1(t.mode1, t.t1 == t.t0, status))
  }

  lemma SettledTwice(m1: nat, e1: bool, m2: nat, e2: bool, status: set<int>)
    ensures var s := Settle2(m2, e2, Settle1(m1, e1, status));
      Settle2(m2, e2, Settle1(m1, e1, s)) == s
  {
    var s := Settle2(m2, e2, Settle1(m1, e1, status));
    forall b | b in {0, 1, 3, 4, 6} ensures b in Settle2(m2, e2, Settle1(m1, e1, s)) <==> b in s {}
  }

  /** A 16-bit counter some ticks later. */
  function Advanced(counter: nat, ticks: nat): nat { (counter + ticks) % (TOP + 1) }

  function Moved(t: Timers, ticks: nat): Timers {
    t.(t0 := Advanced(t.t0, ticks),
       t1 := if t.mode1 == 0 then t.t1 else Advanced(t.t1, ticks),
       t2 := if t.mode2 == 0 then t.t2 else Advanced(t.t2, ticks))
  }

  function BatchTicks(t: Timers, ticks: nat): Timers {
    if ticks == 0 then t
    else
      var m := Moved(t, ticks);
      m.(status := Settled(m, t.status))
  }

  function Batch(t: Timers, cycles: nat): Timers {
    BatchTicks(t.(prescale := (t.prescale + cycles) % 96), (t.prescale + cycles) / 96)
  }

  // ----- the batch is the ticks -----

  /** A tick that wraps nothing moves every enabled counter and settles the status. */
  lemma QuietTick(t: Timers)
    requires WellFormed(t) && !AboutToWrap(t)
    ensures Tick(t) == Moved(t, 1).(status := Settled(Moved(t, 1), t.status))
    ensures Moved(t, 1).t0 == t.t0 + 1
    ensures Moved(t, 1).t1 == (if t.mode1 == 0 then t.t1 else t.t1 + 1)
    ensures Moved(t, 1).t2 == (if t.mode2 == 0 then t.t2 else t.t2 + 1)
  {}

  lemma MovedWithin(t: Timers, k: nat)
    requires WellFormed(t) && k < Headroom(t)
    ensures var m := Moved(t, k);
      && m.t0 == t.t0 + k && WellFormed(m)
      && m.t1 == (if t.mode1 == 0 then t.t1 else t.t1 + k)
      && m.t2 == (if t.mode2 == 0 then t.t2 else t.t2 + k)
    ensures AboutToWrap(Moved(t, k)) <==> k + 1 == Headroom(t)
  {}

  /** One more quiet tick after a batch. */
  lemma BatchTick(t: Timers, k: nat)
    requires WellFormed(t) && k + 1 < Headroom(t)
    ensures Tick(BatchTicks(t, k)) == BatchTicks(t, k + 1)
  {
    hide Moved, Tick, Settle1, Settle2, Headroom, AboutToWrap;
    var b, m := BatchTicks(t, k), Moved(t, k);
    MovedWithin(t, k);
    MovedWithin(t, k + 1);
    MovedZero(t);
    assert b == m.(status := b.status);
    StatusIgnored(m, b.status);
    QuietTick(b);
    SettledTwice(t.mode1, m.t1 == m.t0, t.mode2, m.t2 == m.t0, t.status);
    Unmoved(t, k);
    Unmoved(b, 0);
    var next := Moved(t, k + 1);
    SettledSame(m, next, t.status);
    SettledSame(m, next, b.status);
    SettledSame(next, Moved(b, 1), b.status);
  }

  lemma SettledSame(t: Timers, u: Timers, status: set<int>)
    requires t.mode1 == u.mode1 && t.mode2 == u.mode2
    requires t.mode1 != 0 ==> (t.t1 == t.t0 <==> u.t1 == u.t0)
    requires t.mode2 != 0 ==> (t.t2 == t.t0 <==> u.t2 == u.t0)
    ensures Settled(t, status) == Settled(u, status)
  {}

  lemma MovedZero(t: Timers)
    requires WellFormed(t)
    ensures Moved(t, 0) == t
  {}

  lemma Unmoved(t: Timers, k: nat)
    ensures Moved(t, k) == t.(t0 := Moved(t, k).t0, t1 := Moved(t, k).t1, t2 := Moved(t, k).t2)
    ensures Moved(t, k + 1) == t.(t0 := Moved(t, k + 1).t0, t1 := Moved(t, k + 1).t1, t2 := Moved(t, k + 1).t2)
  {}

  lemma StatusIgnored(t: Timers, status: set<int>)
    ensures AboutToWrap(t.(status := status)) <==> AboutToWrap(t)
    ensures Moved(t.(status := status), 1) == Moved(t, 1).(status := status)
  {}

  lemma {:induction false} BatchIsTicks(t: Timers, k: nat)
    requires WellFormed(t) && k < Headroom(t)
    ensures Ticks(t, k) == BatchTicks(t, k)
    ensures AboutToWrap(Ticks(t, k)) <==> k + 1 == Headroom(t)
    ensures Ticks(t, k).raised == t.raised
  {
    hide Tick, Headroom, Settled;
    MovedWithin(t, k);
    MovedZero(t);
    StatusIgnored(Moved(t, k), BatchTicks(t, k).status);
    if k > 0 {
      BatchIsTicks(t, k - 1);
      BatchTick(t, k - 1);
    }
  }

  lemma {:induction false} TicksAdd(t: Timers, a: nat, b: nat)
    ensures Ticks(Ticks(t, a), b) == Ticks(t, a + b)
  {
    hide Tick;
    if b > 0 { TicksAdd(t, a, b - 1); }
  }

  lemma CarrySplits(p: nat, c: nat)
    ensures (p % 96 + c) % 96 == (p + c) % 96
    ensures p / 96 + (p % 96 + c) / 96 == (p + c) / 96
  {
    assert p + c == 96 * (p / 96) + (p % 96 + c);
  }

  lemma WithinHeadroom(p: nat, room: nat)
    requires p < 96 * room
    ensures p / 96 < room
  {}

  /** One increment more after a batch of p - prescale cycles. */
  lemma BatchIncrement(t: Timers, p: nat, c: nat)
    requires WellFormed(t) && p + c < 96 * Headroom(t)
    ensures Increment(BatchTicks(t.(prescale := p % 96), p / 96), c)
         == BatchTicks(t.(prescale := (p + c) % 96), (p + c) / 96)
  {
    hide Tick, Headroom, Settled, Ticks, AboutToWrap, BatchTicks;
    var x := t.(prescale := (p + c) % 96);
    CarrySplits(p, c);
    WithinHeadroom(p, Headroom(t));
    WithinHeadroom(p + c, Headroom(t));
    HeadroomIgnores(t, (p + c) % 96);
    BatchIsTicks(x, p / 96);
    BatchIsTicks(x, (p + c) / 96);
    TicksAdd(x, p / 96, (p % 96 + c) / 96);
    PrescaleCarried(t, p / 96, p % 96, (p + c) % 96);
  }

  /** n increments of 25 cycles that stay short of the first wrap are one batch. */
  lemma {:induction false} IncrementsAreBatch(t: Timers, n: nat)
    requires WellFormed(t) && t.prescale + 25 * n < 96 * Headroom(t)
    ensures Increments(t, 25, n) == Batch(t, 25 * n)
  {
    hide Headroom, Settled, Ticks, Moved, Increment;
    if n == 0 {
      assert (t.prescale + 0) % 96 == t.prescale && (t.prescale + 0) / 96 == 0;
    } else {
      hide BatchTicks;
      IncrementsAreBatch(t, n - 1);
      BatchIncrement(t, t.prescale + 25 * (n - 1), 25);
      assert t.prescale + 25 * (n - 1) + 25 == t.prescale + 25 * n;
    }
  }

  lemma HeadroomIgnores(t: Timers, p: nat)
    requires WellFormed(t) && p < 96
    ensures Headroom(t.(prescale := p)) == Headroom(t)
  {}

  lemma PrescaleCarried(t: Timers, k: nat, p: nat, p': nat)
    ensures BatchTicks(t.(prescale := p), k).(prescale := p') == BatchTicks(t.(prescale := p'), k)
    ensures BatchTicks(t.(prescale := p), k).prescale == p
  {}

  // ----- the bound -----

  lemma BoundMeans(room: nat, prescale: nat, n: nat)
    requires 1 <= room && prescale < 96
    ensures n <= (room * 96 - prescale - 1) / 25 <==> prescale + 25 * n < 96 * room
  {}

  /** Within the bound one batch over 25n cycles is n timer increments of 25, and no tick of
      theirs wraps a counter or raises an interrupt. */
  lemma QuietBatch(t: Timers, maximum: nat, n: nat)
    requires WellFormed(t) && n <= QuietBound(t, maximum)
    ensures Batch(t, 25 * n) == Increments(t, 25, n)
    ensures Increments(t, 25, n).raised == t.raised
    ensures forall k :: 0 <= k < (t.prescale + 25 * n) / 96 ==> !AboutToWrap(Ticks(t, k))
  {
    hide Ticks, Tick, Settled, AboutToWrap;
    BoundMeans(Headroom(t), t.prescale, n);
    IncrementsAreBatch(t, n);
    WithinHeadroom(t.prescale + 25 * n, Headroom(t));
    forall k: nat | k < (t.prescale + 25 * n) / 96 ensures !AboutToWrap(Ticks(t, k)) {
      BatchIsTicks(t, k);
    }
  }

  /** The bound is the largest: one quantum more, when the caller would allow it, contains
      the tick that wraps. */
  lemma BoundIsMaximal(t: Timers, maximum: nat)
    requires WellFormed(t) && QuietBound(t, maximum) < maximum
    ensures var k := Headroom(t) - 1;
      && k < (t.prescale + 25 * (QuietBound(t, maximum) + 1)) / 96
      && AboutToWrap(Ticks(t, k))
  {
    hide Ticks, Tick, Settled, AboutToWrap;
    var n := QuietBound(t, maximum) + 1;
    BoundMeans(Headroom(t), t.prescale, n);
    BatchIsTicks(t, Headroom(t) - 1);
    ReachesWrap(t.prescale + 25 * n, Headroom(t));
  }

  lemma ReachesWrap(p: nat, room: nat)
    requires p >= 96 * room
    ensures p / 96 >= room
  {}

  // ----- any number of ticks -----

  /** Timer 0 is reloaded once when it first leaves the top, and then once every period. */
  function Wraps0(t: Timers, n: nat): nat
    requires WellFormed(t)
  {
    if t.t0 + n < 0x1_0000 then 0 else 1 + (t.t0 + n - 0x1_0000) / (0x1_0000 - t.reload)
  }

  function Count0(t: Timers, n: nat): nat
    requires WellFormed(t)
  {
    if t.t0 + n < 0x1_0000 then t.t0 + n else t.reload + (t.t0 + n - 0x1_0000) % (0x1_0000 - t.reload)
  }

  /** Timers 1 and 2 run freely, if at all. */
  function Wraps(counter: nat, mode: nat, n: nat): nat { if mode == 0 then 0 else (counter + n) / 0x1_0000 }

  function Count(counter: nat, mode: nat, n: nat): nat { if mode == 0 then counter else (counter + n) % 0x1_0000 }

  /** Some tick among the first n left the counter equal to timer 0. */
  ghost predicate Meets(t: Timers, counter: nat, mode: nat, n: nat)
    requires WellFormed(t)
  {
    mode != 0 && exists k :: 0 < k <= n && Count(counter, mode, k) == Count0(t, k)
  }

  lemma DivStep(x: nat, p: nat)
    requires p > 0
    ensures (x + 1) / p == x / p + (if x % p == p - 1 then 1 else 0)
    ensures (x + 1) % p == if x % p == p - 1 then 0 else x % p + 1
  {
    var q, r := x / p, x % p;
    assert x == q * p + r;
    if r == p - 1 {
      assert x + 1 == (q + 1) * p;
      Divided(x + 1, p, q + 1, 0);
    } else {
      Divided(x + 1, p, q, r + 1);
    }
  }

  lemma Multiple(d: int, p: nat)
    requires p > 0
    ensures 0 - p < d * p < p ==> d == 0
  {}

  lemma Divided(x: nat, p: nat, q: nat, r: nat)
    requires r < p && x == q * p + r
    ensures x / p == q && x % p == r
  {
    var d := x / p - q;
    assert d * p == r - x % p;
    Multiple(d, p);
  }

  /** What one more tick does to timer 0. */
  lemma Step0(t: Timers, n: nat)
    requires WellFormed(t)
    ensures Count0(t, n) <= 0xFFFF
    ensures Wraps0(t, n + 1) == Wraps0(t, n) + if Count0(t, n) == 0xFFFF then 1 else 0
    ensures Count0(t, n + 1) == if Count0(t, n) == 0xFFFF then t.reload else Count0(t, n) + 1
  {
    var x, p := t.t0 + n - 0x1_0000, 0x1_0000 - t.reload;
    if x >= 0 {
      DivStep(x, p);
      assert 0 <= x % p < p;
    } else if x == -1 {
      Divided(0, p, 0, 0);
    }
  }

  lemma Step(counter: nat, mode: nat, n: nat)
    requires counter <= 0xFFFF && mode != 0
    ensures Wraps(counter, mode, n + 1) == Wraps(counter, mode, n) + if Count(counter, mode, n) == 0xFFFF then 1 else 0
    ensures Count(counter, mode, n + 1) == if Count(counter, mode, n) == 0xFFFF then 0 else Count(counter, mode, n) + 1
  {}

  lemma MeetsNext(t: Timers, counter: nat, mode: nat, n: nat)
    requires WellFormed(t)
    ensures Meets(t, counter, mode, n + 1) <==>
      Meets(t, counter, mode, n) || (mode != 0 && Count(counter, mode, n + 1) == Count0(t, n + 1))
  {
    hide Count, Count0;
  }

  /** Where the counters stand after n ticks, and how many interrupts were requested: one for
      every counter that went over its top, if the timer has a priority at all. */
  ghost predicate Counted(t: Timers, n: nat, u: Timers)
    requires WellFormed(t)
  {
    && u.t0 == Count0(t, n) && u.t1 == Count(t.t1, t.mode1, n) && u.t2 == Count(t.t2, t.mode2, n)
    && u == t.(t0 := u.t0, t1 := u.t1, t2 := u.t2, status := u.status, raised := u.raised)
    && u.raised == t.raised + if t.priority == 0 then 0
                              else Wraps0(t, n) + Wraps(t.t1, t.mode1, n) + Wraps(t.t2, t.mode2, n)
  }

  /** An overflow bit stays once set, unless the mode is 3: then only the last tick counts. */
  predicate Overflowed(counter: nat, mode: nat, n: nat, was: bool) {
    if mode == 3 && n > 0 then Count(counter, mode, n) == 0 else was || Wraps(counter, mode, n) > 0
  }

  /** In mode 3 every tick that does not wrap takes bit 0 away. */
  predicate Erased(counter: nat, mode: nat, n: nat) { mode == 3 && Wraps(counter, mode, n) < n }

  /** The status after n ticks. */
  ghost predicate Flagged(t: Timers, n: nat, status: set<int>)
    requires WellFormed(t)
  {
    && (7 in status <==> 7 in t.status || Wraps0(t, n) > 0)
    && (4 in status <==> Overflowed(t.t1, t.mode1, n, 4 in t.status))
    && (1 in status <==> Overflowed(t.t2, t.mode2, n, 1 in t.status))
    && (6 in status <==> 6 in t.status || Meets(t, t.t1, t.mode1, n))
    && (3 in status <==> 3 in t.status || Meets(t, t.t2, t.mode2, n))
    && (0 in status <==> 0 in t.status && !Erased(t.t1, t.mode1, n) && !Erased(t.t2, t.mode2, n))
    && forall b :: b !in {0, 1, 3, 4, 6, 7} ==> (b in status <==> b in t.status)
  }

  /** One tick, counter by counter. */
  lemma TickCounts(u: Timers)
    requires WellFormed(u)
    ensures var v := Tick(u);
      && v.t0 == (if u.t0 == 0xFFFF then u.reload else u.t0 + 1)
      && v.t1 == (if u.mode1 == 0 then u.t1 else if u.t1 == 0xFFFF then 0 else u.t1 + 1)
      && v.t2 == (if u.mode2 == 0 then u.t2 else if u.t2 == 0xFFFF then 0 else u.t2 + 1)
      && v == u.(t0 := v.t0, t1 := v.t1, t2 := v.t2, status := v.status, raised := v.raised)
      && v.raised == u.raised + (if u.priority == 0 then 0 else
           (if u.t0 == 0xFFFF then 1 else 0) + (if u.mode1 != 0 && u.t1 == 0xFFFF then 1 else 0)
           + (if u.mode2 != 0 && u.t2 == 0xFFFF then 1 else 0))
  {}

  /** And bit by bit. */
  lemma TickFlags(u: Timers, b: int)
    requires WellFormed(u)
    ensures var v := Tick(u);
      b in v.status <==> match b
        case 7 => b in u.status || u.t0 == 0xFFFF
        case 4 => if u.mode1 == 3 then u.t1 == 0xFFFF else b in u.status || (u.mode1 != 0 && u.t1 == 0xFFFF)
        case 1 => if u.mode2 == 3 then u.t2 == 0xFFFF else b in u.status || (u.mode2 != 0 && u.t2 == 0xFFFF)
        case 6 => b in u.status || (u.mode1 != 0 && v.t1 == v.t0)
        case 3 => b in u.status || (u.mode2 != 0 && v.t2 == v.t0)
        case 0 => b in u.status && !(u.mode1 == 3 && u.t1 != 0xFFFF) && !(u.mode2 == 3 && u.t2 != 0xFFFF)
        case _ => b in u.status
  {}

  lemma NoTicks(t: Timers)
    requires WellFormed(t)
    ensures Counted(t, 0, t) && Flagged(t, 0, t.status)
  {}

  lemma CountedNext(t: Timers, n: nat, u: Timers)
    requires WellFormed(t) && Counted(t, n, u)
    ensures WellFormed(u) && Counted(t, n + 1, Tick(u))
  {
    Step0(t, n);
    if t.mode1 != 0 { Step(t.t1, t.mode1, n); }
    if t.mode2 != 0 { Step(t.t2, t.mode2, n); }
    assert WellFormed(u);
    TickCounts(u);
    hide Tick, Count0, Wraps0;
  }

  lemma OverflowedNext(counter: nat, mode: nat, n: nat, was: bool)
    requires counter <= 0xFFFF
    ensures var full := Count(counter, mode, n) == 0xFFFF;
      Overflowed(counter, mode, n + 1, was) <==>
        if mode == 3 then full else Overflowed(counter, mode, n, was) || (mode != 0 && full)
    ensures Erased(counter, mode, n + 1) <==>
      Erased(counter, mode, n) || (mode == 3 && Count(counter, mode, n) != 0xFFFF)
  {}

  lemma FlaggedNext(t: Timers, n: nat, u: Timers)
    requires WellFormed(t) && Counted(t, n, u) && Flagged(t, n, u.status)
    ensures Flagged(t, n + 1, Tick(u).status)
  {
    hide Tick, Count0, Wraps0, Count, Wraps, Overflowed, Erased, Meets;
    CountedNext(t, n, u);
    TickFlags(u, 0);
    TickFlags(u, 1);
    TickFlags(u, 3);
    TickFlags(u, 4);
    TickFlags(u, 6);
    TickFlags(u, 7);
    forall b | b !in {0, 1, 3, 4, 6, 7} ensures b in Tick(u).status <==> b in t.status { TickFlags(u, b); }
    Step0(t, n);
    OverflowedNext(t.t1, t.mode1, n, 4 in t.status);
    OverflowedNext(t.t2, t.mode2, n, 1 in t.status);
    MeetsNext(t, t.t1, t.mode1, n);
    MeetsNext(t, t.t2, t.mode2, n);
  }

  /** Any number of ticks: the counters, the requests and every status bit, each in closed form. */
  lemma {:induction false} TicksMean(t: Timers, n: nat)
    requires WellFormed(t)
    ensures Counted(t, n, Ticks(t, n)) && Flagged(t, n, Ticks(t, n).status)
  {
    hide Tick, Counted, Flagged;
    if n == 0 {
      NoTicks(t);
    } else {
      TicksMean(t, n - 1);
      CountedNext(t, n - 1, Ticks(t, n - 1));
      FlaggedNext(t, n - 1, Ticks(t, n - 1));
    }
  }

  /** Timer 0 on its own: the tick that takes it over the top leaves the reload value, sets bit 7
      and raises once, and the next such tick comes 0x10000 - reload ticks later. */
  lemma ReloadPeriod(t: Timers, n: nat)
    requires WellFormed(t) && t.t0 == 0xFFFF && t.mode1 == 0 && t.mode2 == 0 && t.priority != 0
    requires 1 <= n <= 0x1_0001 - t.reload
    ensures var u := Ticks(t, n);
      && 7 in u.status
      && u.t0 == (if n <= 0x1_0000 - t.reload then t.reload + n - 1 else t.reload)
      && u.raised == t.raised + (if n <= 0x1_0000 - t.reload then 1 else 2)
  {
    hide Ticks;
    TicksMean(t, n);
    var p := 0x1_0000 - t.reload;
    if n <= p { Divided(n - 1, p, 0, n - 1); } else { Divided(n - 1, p, 1, 0); }
  }
}
