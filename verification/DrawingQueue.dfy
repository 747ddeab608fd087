/** What the drawing routine does to its queue, at the addresses the module keeps it: the ring's
    start at A6-0x6E5A, its limit at A6-0x6E56, the tail at A6-0x6E52 and the head at A6-0x6E4E.
    Each entry is a function and its argument. */
module DrawingQueue {
  import opened Guest
  import opened Cpu68k
  import opened DrawingJob

  /** The four bytes at a RAM address, as a number. */
  function LongAt(ram: Memory, a: int): nat
    requires a >= 0 && InRam(a, 4)
  {
    0x100_0000 * (ram[Offset(a)] as int) + 0x1_0000 * (ram[Offset(a) + 1] as int)
    + 0x100 * (ram[Offset(a) + 2] as int) + ram[Offset(a) + 3]
  }

  /** The four queue pointers are in RAM. */
  predicate Placed(a6: u32) {
    a6 >= 0x6E5A && a6 % 2 == 0 && InRam(a6 - 0x6E5A, 16)
  }

  function Start(m: DrawMachine): nat requires Placed(m.r.a6) { LongAt(m.ram, m.r.a6 - 0x6E5A) }
  function Limit(m: DrawMachine): nat requires Placed(m.r.a6) { LongAt(m.ram, m.r.a6 - 0x6E56) }
  function TailOf(m: DrawMachine): nat requires Placed(m.r.a6) { LongAt(m.ram, m.r.a6 - 0x6E52) }
  function Head(m: DrawMachine): nat requires Placed(m.r.a6) { LongAt(m.ram, m.r.a6 - 0x6E4E) }

  /** Only the longword at a differs. */
  ghost predicate OnlyAt(before: Memory, after: Memory, a: int)
    requires a >= 0 && InRam(a, 4)
  {
    forall o :: 0 <= o < 2 * BANK && !(Offset(a) <= o < Offset(a) + 4) ==> after[o] == before[o]
  }

  /** Devices that leave RAM alone. */
  ghost predicate Silent(w: World) { forall n, ram :: w.devices(n, ram) == ram }

  // ----- addresses -----

  lemma Addresses(r: DrawRegisters)
    requires Placed(r.a6)
    ensures Global(r.a6, 0x6E5A) == (r.a6 as int) - 0x6E5A && Global(r.a6, 0x6E56) == (r.a6 as int) - 0x6E56
    ensures Global(r.a6, 0x6E52) == (r.a6 as int) - 0x6E52 && Global(r.a6, 0x6E4E) == (r.a6 as int) - 0x6E4E
    ensures InReach(7, r) && InReach(8, r) && InReach(10, r) && InReach(12, r) && InReach(15, r) && InReach(16, r)
      && InReach(17, r) && InReach(19, r)
  {}

  lemma LoadIs(ram: Memory, a: u32)
    requires InRam(a, 4)
    ensures Load(ram, a) == LongAt(ram, a)
  {}

  lemma StoreIs(ram: Memory, a: u32, v: u32)
    requires InRam(a, 4)
    ensures LongAt(Store(ram, a, v), a) == v && OnlyAt(ram, Store(ram, a, v), a)
  {
    WriteRead(ram, a, v);
    LoadIs(Store(ram, a, v), a);
    forall o | 0 <= o < 2 * BANK && !(Offset(a) <= o < Offset(a) + 4) ensures Store(ram, a, v)[o] == ram[o] {
      WriteElsewhere(ram, a, v, o);
    }
  }

  lemma LongKept(before: Memory, after: Memory, a: int, b: int)
    requires a >= 0 && b >= 0 && InRam(a, 4) && InRam(b, 4) && (a + 4 <= b || b + 4 <= a) && OnlyAt(before, after, a)
    ensures LongAt(after, b) == LongAt(before, b)
  {}

  // ----- one operation -----

  /** An operation that is not the call, with quiet devices. */
  lemma OneStep(w: World, base: u32, start: DrawMachine, n: nat, op: nat, m: DrawMachine)
    requires Trace(w, base, start, n) == Running(op, m) && InReach(op, m.r) && op < 28 && op != 14 && Silent(w)
    ensures var r := m.(r := Changed(op, m.r, m.ram), ram := Stored(base, op, m.r, m.ram));
      var next := Successor(op, r.r.sr);
      next < 29 ==> Trace(w, base, start, n + 1) == Running(next, At(base, next, r))
  {
    hide Trace, InReach, Changed, Stored, Successor, OpPc;
    TraceNext(w, base, start, n, op, m);
  }

  // ----- an empty queue -----

  /** Head and tail agree: the round looks, and writes nothing. */
  lemma EmptyRound(w: World, base: u32, start: DrawMachine, n: nat, m: DrawMachine)
    requires Trace(w, base, start, n) == Running(7, m) && Silent(w) && Placed(m.r.a6)
    requires Head(m) == TailOf(m)
    ensures var o := Trace(w, base, start, n + 3);
      && o.Running? && o.op == 20 && o.m.ram == m.ram
      && o.m.r == m.r.(d0 := TailOf(m), sr := o.m.r.sr)
  {
    hide Trace, Load, OpPc, Logic, Compare, InReach, Global;
    Addresses(m.r);
    LoadIs(m.ram, Global(m.r.a6, 0x6E52));
    LoadIs(m.ram, Global(m.r.a6, 0x6E4E));
    OneStep(w, base, start, n, 7, m);
    var a := Trace(w, base, start, n + 1).m;
    Addresses(a.r);
    CompareDecides(a.r.sr, a.r.d0, Load(m.ram, Global(m.r.a6, 0x6E4E)));
    OneStep(w, base, start, n + 1, 8, a);
    Branches(9, Trace(w, base, start, n + 2).m.r);
    OneStep(w, base, start, n + 2, 9, Trace(w, base, start, n + 2).m);
  }

  lemma Branches(op: nat, r: DrawRegisters)
    requires op in {9, 18, 20, 21, 22}
    ensures InReach(op, r)
  {}

  // ----- a queued entry -----

  /** The head's entry is in RAM, and there is room for a return address. */
  predicate Callable(m: DrawMachine)
    requires Placed(m.r.a6)
  {
    && Head(m) % 2 == 0 && InRam(Head(m), 8)
    && m.r.sp >= 4 && m.r.sp % 2 == 0 && InRam(m.r.sp - 4, 4)
  }

  /** Head and tail differ: eight operations later the routine calls the function stored at the
      head, with the argument behind it in D0 and its own continuation on the stack, having written
      nothing else. */
  lemma QueuedCall(w: World, base: u32, start: DrawMachine, n: nat, m: DrawMachine)
    requires Trace(w, base, start, n) == Running(7, m) && Silent(w) && Placed(m.r.a6)
    requires Head(m) != TailOf(m) && Callable(m)
    ensures exists c: DrawMachine ::
      && Trace(w, base, start, n + 8) == Follow(w, base, n + 7, 14, c)
      && c.r == m.r.(a0 := LongAt(m.ram, Head(m)), d0 := LongAt(m.ram, Head(m) + 4), sp := m.r.sp - 4, sr := c.r.sr)
      && LongAt(c.ram, m.r.sp - 4) == Wrap(base as int + 0x1_7044) && OnlyAt(m.ram, c.ram, m.r.sp - 4)
  {
    hide Trace, Load, Store, OpPc, Logic, Compare, InReach, Global, Follow, LongAt, OnlyAt, Successor;
    Addresses(m.r);
    LoadIs(m.ram, Global(m.r.a6, 0x6E52));
    LoadIs(m.ram, Global(m.r.a6, 0x6E4E));
    OneStep(w, base, start, n, 7, m);
    Next(7, Changed(7, m.r, m.ram).sr);
    var a := Trace(w, base, start, n + 1).m;
    Addresses(a.r);
    CompareDecides(a.r.sr, a.r.d0, Load(m.ram, Global(m.r.a6, 0x6E4E)));
    OneStep(w, base, start, n + 1, 8, a);
    Next(8, Changed(8, a.r, a.ram).sr);
    var b := Trace(w, base, start, n + 2).m;
    Branches(9, b.r);
    Next(9, b.r.sr);
    OneStep(w, base, start, n + 2, 9, b);
    QueuedFetch(w, base, start, n + 3, Trace(w, base, start, n + 3).m);
  }

  lemma Next(op: nat, sr: Status)
    ensures op in {7, 8, 10, 11, 12, 13, 15, 16, 17, 19, 20, 21} ==> Successor(op, sr) == op + 1
    ensures Successor(9, sr) == if sr.z then 20 else 10
    ensures Successor(18, sr) == if sr.c || sr.z then 20 else 19
    ensures Successor(22, sr) == if sr.n != sr.v then 7 else 23
  {}

  lemma QueuedFetch(w: World, base: u32, start: DrawMachine, n: nat, m: DrawMachine)
    requires Trace(w, base, start, n) == Running(10, m) && Silent(w) && Placed(m.r.a6) && Callable(m)
    ensures exists c: DrawMachine ::
      && Trace(w, base, start, n + 5) == Follow(w, base, n + 4, 14, c)
      && c.r == m.r.(a0 := LongAt(m.ram, Head(m)), d0 := LongAt(m.ram, Head(m) + 4), sp := m.r.sp - 4, sr := c.r.sr)
      && LongAt(c.ram, m.r.sp - 4) == Wrap(base as int + 0x1_7044) && OnlyAt(m.ram, c.ram, m.r.sp - 4)
  {
    hide Trace, Load, Store, OpPc, Logic, Compare, InReach, Global, Follow, LongAt, OnlyAt, Successor;
    Addresses(m.r);
    LoadIs(m.ram, Global(m.r.a6, 0x6E4E));
    OneStep(w, base, start, n, 10, m);
    Next(10, m.r.sr);
    var a := Trace(w, base, start, n + 1).m;
    EntryReach(m, a.r);
    OneStep(w, base, start, n + 1, 11, a);
    Next(11, Changed(11, a.r, a.ram).sr);
    var b := Trace(w, base, start, n + 2).m;
    Addresses(b.r);
    OneStep(w, base, start, n + 2, 12, b);
    Next(12, b.r.sr);
    var c := Trace(w, base, start, n + 3).m;
    EntryReach(m, c.r);
    OneStep(w, base, start, n + 3, 13, c);
    Next(13, c.r.sr);
    var d := Trace(w, base, start, n + 4).m;
    EntryReach(m, d.r);
    TraceNext(w, base, start, n + 4, 14, d);
    StoreIs(m.ram, m.r.sp - 4, Wrap(base as int + 0x1_7044));
    var e := Executed(w, base, n + 4, 14, d);
    assert Trace(w, base, start, n + 5) == Follow(w, base, n + 4, 14, e);
    assert e.ram == Store(m.ram, m.r.sp - 4, Wrap(base as int + 0x1_7044));
  }

  lemma EntryReach(m: DrawMachine, r: DrawRegisters)
    requires Placed(m.r.a6) && Callable(m) && r.sp == m.r.sp
    ensures r.a0 == Head(m) ==>
      && InReach(11, r) && InReach(13, r) && Wrap(r.a0 as int + 4) == Head(m) + 4
      && Load(m.ram, Head(m)) == LongAt(m.ram, Head(m)) && Load(m.ram, Head(m) + 4) == LongAt(m.ram, Head(m) + 4)
    ensures InReach(14, r) && Pushed(r.sp, 4) == (r.sp as int) - 4
  {
    hide LongAt;
    LoadIs(m.ram, Head(m));
    LoadIs(m.ram, Head(m) + 4);
  }

  // ----- retiring the entry -----

  /** The head is moved on in RAM and compared with the limit. */
  lemma MovedOn(w: World, base: u32, start: DrawMachine, n: nat, m: DrawMachine)
    requires Trace(w, base, start, n) == Running(15, m) && Silent(w) && Placed(m.r.a6)
    ensures var next := Wrap(Head(m) + 8);
      var o := Trace(w, base, start, n + 3);
      && o.Running? && o.op == 18 && o.m.r == m.r.(d0 := next, sr := o.m.r.sr)
      && Head(o.m) == next && Limit(o.m) == Limit(m) && Start(o.m) == Start(m)
      && OnlyAt(m.ram, o.m.ram, m.r.a6 - 0x6E4E)
      && (o.m.r.sr.c || o.m.r.sr.z <==> next <= Limit(m))
  {
    hide Trace, Load, Store, OpPc, Logic, Compare, Add, InReach, Global, Follow, LongAt, OnlyAt, Successor;
    var r := m.r;
    var head := (r.a6 as int) - 0x6E4E;
    Addresses(r);
    LoadIs(m.ram, head);
    var next := Wrap(Head(m) + 8);
    var ram := Store(m.ram, head, next);
    StoreIs(m.ram, head, next);
    LongKept(m.ram, ram, head, head - 12);
    LongKept(m.ram, ram, head, head - 8);
    OneStep(w, base, start, n, 15, m);
    Next(15, Changed(15, r, m.ram).sr);
    var a := Trace(w, base, start, n + 1).m;
    Addresses(a.r);
    LoadIs(ram, head);
    LoadIs(ram, head - 8);
    OneStep(w, base, start, n + 1, 16, a);
    Next(16, Changed(16, a.r, ram).sr);
    var b := Trace(w, base, start, n + 2).m;
    Addresses(b.r);
    CompareDecides(b.r.sr, b.r.d0, Load(ram, head - 8));
    OneStep(w, base, start, n + 2, 17, b);
    Next(17, Changed(17, b.r, ram).sr);
  }

  /** After the callback the head moves on by one entry of eight bytes, back to the ring's start if
      that passes the limit, and nothing else is written. */
  lemma Retired(w: World, base: u32, start: DrawMachine, n: nat, m: DrawMachine)
    requires Trace(w, base, start, n) == Running(15, m) && Silent(w) && Placed(m.r.a6)
    ensures var next := (Head(m) + 8) % 0x1_0000_0000;
      var wraps := next > Limit(m);
      var o := Trace(w, base, start, if wraps then n + 5 else n + 4);
      && o.Running? && o.op == 20 && o.m.r == m.r.(d0 := next, sr := o.m.r.sr)
      && Head(o.m) == (if wraps then Start(m) else next) && OnlyAt(m.ram, o.m.ram, m.r.a6 - 0x6E4E)
  {
    hide Trace, Load, Store, OpPc, Logic, InReach, Global, LongAt, OnlyAt, Successor;
    var head := (m.r.a6 as int) - 0x6E4E;
    MovedOn(w, base, start, n, m);
    var c := Trace(w, base, start, n + 3).m;
    Branches(18, c.r);
    OneStep(w, base, start, n + 3, 18, c);
    Next(18, c.r.sr);
    if Wrap(Head(m) + 8) > Limit(m) {
      var d := Trace(w, base, start, n + 4).m;
      Addresses(d.r);
      LoadIs(d.ram, head - 12);
      OneStep(w, base, start, n + 4, 19, d);
      Next(19, Changed(19, d.r, d.ram).sr);
      StoreIs(d.ram, head, Start(m));
      OnlyTwice(m.ram, d.ram, Store(d.ram, head, Start(m)), head);
    }
  }

  lemma OnlyTwice(a: Memory, b: Memory, c: Memory, at: int)
    requires at >= 0 && InRam(at, 4) && OnlyAt(a, b, at) && OnlyAt(b, c, at)
    ensures OnlyAt(a, c, at)
  {}

  // ----- counting the round -----

  /** Every round ends by counting it and going on while the count is below D4, as signed numbers. */
  lemma RoundCounts(w: World, base: u32, start: DrawMachine, n: nat, m: DrawMachine)
    requires Trace(w, base, start, n) == Running(20, m) && Silent(w)
    ensures var o := Trace(w, base, start, n + 3);
      var count := (m.r.d5 as int + 1) % 0x1_0000_0000;
      && o.Running? && o.m.ram == m.ram && o.m.r == m.r.(d5 := count, sr := o.m.r.sr)
      && o.op == if Signed(count) < Signed(m.r.d4) then 7 else 23
  {
    hide Trace, OpPc, Compare, Add, InReach, Successor, Signed;
    Branches(20, m.r);
    OneStep(w, base, start, n, 20, m);
    Next(20, Changed(20, m.r, m.ram).sr);
    var a := Trace(w, base, start, n + 1).m;
    Branches(21, a.r);
    CompareDecides(a.r.sr, a.r.d5, a.r.d4);
    OneStep(w, base, start, n + 1, 21, a);
    Next(21, Changed(21, a.r, a.ram).sr);
    var b := Trace(w, base, start, n + 2).m;
    Branches(22, b.r);
    Next(22, b.r.sr);
    OneStep(w, base, start, n + 2, 22, b);
  }
}
