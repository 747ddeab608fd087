/** What a drawing job that runs to its RTS means to its caller: the stack, the frame pointer
    and the saved registers are back, whatever the queue held and however often it called out. */
module DrawingFrame {
  import opened Guest
  import opened Cpu68k
  import opened DrawingJob

  /** The words a routine entered with this stack pointer saves A5, A0, D5 and D4 in. */
  function SaveArea(ram: Memory, sp: u32): seq<u32> {
    [Load(ram, Pushed(sp, 4)), Load(ram, Pushed(sp, 8)), Load(ram, Pushed(sp, 12)), Load(ram, Pushed(sp, 16))]
  }

  predicate Apart(a: u32, sp: u32) { a + 4 <= (sp as int) - 16 || sp <= a }

  /** An entry the dispatcher admits, with the queue's pointers outside the frame. */
  predicate Ready(r: DrawRegisters) {
    && RamRange(Pushed(r.sp, 20), 24) && RamRange(Global(r.a6, 0x6E5A), 16)
    && Apart(Global(r.a6, 0x6E52), r.sp) && Apart(Global(r.a6, 0x6E4E), r.sp)
  }

  /** Devices stay out of the frame, and callbacks keep it, A5, A6 and the stack pointer. */
  ghost predicate Polite(w: World, sp: u32) {
    && (forall n, ram :: SaveArea(w.devices(n, ram), sp) == SaveArea(ram, sp))
    && (forall n, m :: w.callback(n, m).Back? ==>
      && var b := w.callback(n, m).m;
      && SaveArea(b.ram, sp) == SaveArea(m.ram, sp) && b.r.a5 == m.r.a5 && b.r.a6 == m.r.a6
      && b.r.sp == if w.callback(n, m).popped then Wrap(m.r.sp as int + 4) else m.r.sp)
  }

  /** The caller's view after the routine. */
  predicate Restored(r0: DrawRegisters, r: DrawRegisters) {
    r.d4 == r0.d4 && r.d5 == r0.d5 && r.a0 == r0.a0 && r.a5 == r0.a5 && r.a6 == r0.a6 && r.sp == r0.sp
  }

  /** The frame while the routine is about to run an operation. */
  predicate Framed(r0: DrawRegisters, op: nat, r: DrawRegisters, ram: Memory) {
    var area := SaveArea(ram, r0.sp);
    && r.a6 == r0.a6
    && (op == 0 ==> r == r0)
    && (op == 1 ==> r == r0.(a5 := Pushed(r0.sp, 4), sp := Pushed(r0.sp, 4)) && area[0] == r0.a5)
    && (2 <= op <= 26 ==>
      && r.a5 == Pushed(r0.sp, 4) && r.sp == Pushed(r0.sp, 20)
      && area == [r0.a5, r0.a0, r0.d5, r0.d4])
    && (op == 27 ==>
      && r.a5 == Pushed(r0.sp, 4) && area[0] == r0.a5
      && r.d4 == r0.d4 && r.d5 == r0.d5 && r.a0 == r0.a0)
    && (op == 28 ==> Restored(r0, r))
  }

  predicate Keeps(r0: DrawRegisters, o: Outcome) {
    match o
    case Running(op, m) => Framed(r0, op, m.r, m.ram)
    case Finished(m) => Restored(r0, m.r)
    case _ => true
  }

  // ----- memory -----

  lemma StoreSame(ram: Memory, a: u32, v: u32)
    requires InRam(a, 4)
    ensures Load(Store(ram, a, v), a) == v
  {
    WriteRead(ram, a, v);
  }

  lemma StoreApart(ram: Memory, a: u32, v: u32, b: u32)
    requires InRam(b, 4) && (a + 4 <= b || b + 4 <= a)
    ensures Load(Store(ram, a, v), b) == Load(ram, b)
  {
    hide Read32;
    if InRam(a, 4) {
      forall o | Offset(b) <= o < Offset(b) + 4 ensures Store(ram, a, v)[o] == ram[o] {
        WriteElsewhere(ram, a, v, o);
      }
      ReadFrame(ram, Store(ram, a, v), b);
    }
  }

  lemma StackFlat(sp: u32, k: int)
    requires RamRange(Pushed(sp, 20), 24) && 0 <= k <= 20
    ensures Pushed(sp, k) == (sp as int) - k && InRam((sp as int) - k, 4)
  {}

  /** A store outside the frame leaves the saved words alone. */
  lemma StoreKeeps(ram: Memory, a: u32, v: u32, sp: u32)
    requires RamRange(Pushed(sp, 20), 24) && Apart(a, sp)
    ensures SaveArea(Store(ram, a, v), sp) == SaveArea(ram, sp)
  {
    hide Load, Store, InRam, Pushed, RamRange;
    StackFlat(sp, 4);
    StackFlat(sp, 8);
    StackFlat(sp, 12);
    StackFlat(sp, 16);
    StoreApart(ram, a, v, Pushed(sp, 4));
    StoreApart(ram, a, v, Pushed(sp, 8));
    StoreApart(ram, a, v, Pushed(sp, 12));
    StoreApart(ram, a, v, Pushed(sp, 16));
  }

  /** Four pushes fill four words. */
  lemma SavesAll(ram: Memory, sp: u32, a0: u32, d5: u32, d4: u32, d0: u32)
    requires RamRange(Pushed(sp, 20), 24)
    ensures var two := Store(Store(ram, Pushed(sp, 8), a0), Pushed(sp, 12), d5);
      var stored := Store(Store(two, Pushed(sp, 16), d4), Pushed(sp, 20), d0);
      SaveArea(stored, sp) == [Load(ram, Pushed(sp, 4)), a0, d5, d4]
  {
    hide Load, Store, InRam, Pushed, RamRange;
    StackFlat(sp, 4);
    StackFlat(sp, 8);
    StackFlat(sp, 12);
    StackFlat(sp, 16);
    StackFlat(sp, 20);
    var one := Store(ram, Pushed(sp, 8), a0);
    StoreSame(ram, Pushed(sp, 8), a0);
    StoreApart(ram, Pushed(sp, 8), a0, Pushed(sp, 4));
    var two := Store(one, Pushed(sp, 12), d5);
    StoreSame(one, Pushed(sp, 12), d5);
    StoreApart(one, Pushed(sp, 12), d5, Pushed(sp, 4));
    StoreApart(one, Pushed(sp, 12), d5, Pushed(sp, 8));
    var three := Store(two, Pushed(sp, 16), d4);
    StoreSame(two, Pushed(sp, 16), d4);
    StoreApart(two, Pushed(sp, 16), d4, Pushed(sp, 4));
    StoreApart(two, Pushed(sp, 16), d4, Pushed(sp, 8));
    StoreApart(two, Pushed(sp, 16), d4, Pushed(sp, 12));
    StoreKeeps(three, Pushed(sp, 20), d0, sp);
  }

  // ----- every operation keeps the frame -----

  lemma LinkKeeps(base: u32, r0: DrawRegisters, r: DrawRegisters, ram: Memory)
    requires Ready(r0) && Framed(r0, 0, r, ram)
    ensures Changed(0, r, ram) == r0.(a5 := Pushed(r0.sp, 4), sp := Pushed(r0.sp, 4))
    ensures SaveArea(Stored(base, 0, r, ram), r0.sp)[0] == r0.a5
  {
    hide Load, Store, Pushed, InRam, Wrap;
    StackFlat(r0.sp, 4);
    StoreSame(ram, Pushed(r0.sp, 4), r0.a5);
  }

  lemma SaveKeeps(base: u32, r0: DrawRegisters, r: DrawRegisters, ram: Memory)
    requires Ready(r0) && Framed(r0, 1, r, ram)
    ensures Changed(1, r, ram) == r.(sp := Pushed(r0.sp, 20))
    ensures SaveArea(Stored(base, 1, r, ram), r0.sp) == [r0.a5, r0.a0, r0.d5, r0.d4]
  {
    hide Load, Store, Pushed, InRam, Wrap;
    PushedAgain(r0.sp);
    SavesAll(ram, r0.sp, r0.a0, r0.d5, r0.d4, r0.d0);
  }

  lemma BodyKeeps(base: u32, r0: DrawRegisters, op: nat, r: DrawRegisters, ram: Memory)
    requires Ready(r0) && Framed(r0, op, r, ram) && 2 <= op <= 25
    ensures var c := Changed(op, r, ram);
      c.a5 == r.a5 && c.a6 == r.a6 && c.sp == if op == 14 then Pushed(r0.sp, 24) else r.sp
    ensures SaveArea(Stored(base, op, r, ram), r0.sp) == SaveArea(ram, r0.sp)
  {
    hide SaveArea, Load, Store, Global, Logic, Compare, Add, InRam;
    PushedFarther(r0.sp);
    if op == 14 {
      CallKeeps(ram, Wrap(base as int + 0x1_7044), r0.sp);
    } else if op == 15 {
      StoreKeeps(ram, Global(r.a6, 0x6E4E), Wrap(Load(ram, Global(r.a6, 0x6E4E)) as int + 8), r0.sp);
    } else if op == 24 {
      StoreKeeps(ram, Global(r.a6, 0x6E52), Load(ram, Global(r.a6, 0x6E5A)), r0.sp);
    } else {
      StoreKeeps(ram, Global(r.a6, 0x6E4E), Load(ram, Global(r.a6, 0x6E5A)), r0.sp);
    }
  }

  lemma PushedSum(sp: u32, a: int, b: int)
    ensures Pushed(Pushed(sp, a), b) == Pushed(sp, a + b) == Saved(Pushed(sp, a), b)
    ensures Wrap(Pushed(sp, a) as int + b) == Pushed(sp, a - b)
  {
    hide Wrap;
    WrapAdd((sp as int) - a, -b);
    WrapAdd((sp as int) - a, b);
  }

  lemma PushedFarther(sp: u32)
    ensures Pushed(Pushed(sp, 20), 4) == Pushed(sp, 24)
    ensures Wrap(Pushed(sp, 24) as int + 4) == Pushed(sp, 20)
    ensures Wrap(Pushed(sp, 4) as int + 4) == sp
    ensures Saved(Pushed(sp, 4), 12) == Pushed(sp, 16)
    ensures Saved(Pushed(sp, 4), 8) == Pushed(sp, 12) && Saved(Pushed(sp, 4), 4) == Pushed(sp, 8)
  {
    hide Saved, Wrap;
    PushedSum(sp, 20, 4);
    PushedSum(sp, 24, 4);
    PushedSum(sp, 4, 4);
    PushedSum(sp, 4, 8);
    PushedSum(sp, 4, 12);
    PushedNone(sp);
  }

  lemma PushedNone(sp: u32)
    ensures Pushed(sp, 0) == sp
  {}

  /** The return address goes below the frame. */
  lemma CallKeeps(ram: Memory, v: u32, sp: u32)
    requires RamRange(Pushed(sp, 20), 24)
    ensures SaveArea(Store(ram, Pushed(sp, 24), v), sp) == SaveArea(ram, sp)
  {
    hide SaveArea, Store;
    StackFlat(sp, 20);
    StoreKeeps(ram, Pushed(sp, 24), v, sp);
  }

  lemma ReturnKeeps(base: u32, r0: DrawRegisters, op: nat, r: DrawRegisters, ram: Memory)
    requires Ready(r0) && Framed(r0, op, r, ram) && 26 <= op <= 28
    ensures Stored(base, op, r, ram) == ram
    ensures var c := Changed(op, r, ram); Framed(r0, if op == 28 then 28 else op + 1, c, ram)
  {
    hide Load, Pushed, InRam, Saved, Wrap;
    PushedFarther(r0.sp);
  }

  lemma {:induction false} StepKeeps(w: World, base: u32, r0: DrawRegisters, n: nat, op: nat, m: DrawMachine)
    requires Ready(r0) && Polite(w, r0.sp) && Framed(r0, op, m.r, m.ram) && op <= 28
    ensures Keeps(r0, Follow(w, base, n, op, Executed(w, base, n, op, m)))
  {
    hide SaveArea, Changed, Stored, Ready, Pushed, OpPc, Wrap, Peek;
    if op == 0 {
      LinkKeeps(base, r0, m.r, m.ram);
    } else if op == 1 {
      SaveKeeps(base, r0, m.r, m.ram);
    } else if op <= 25 {
      BodyKeeps(base, r0, op, m.r, m.ram);
      PushedFarther(r0.sp);
    } else {
      ReturnKeeps(base, r0, op, m.r, m.ram);
    }
  }

  /** At every frontier of every run the frame is where the routine will look for it; a run
      that reaches its RTS has given the caller its registers and stack back. */
  lemma {:induction false} RunKeeps(w: World, base: u32, m: DrawMachine, n: nat)
    requires Ready(m.r) && Polite(w, m.r.sp)
    ensures Keeps(m.r, Trace(w, base, m, n))
    ensures Trace(w, base, m, n).Running? ==> Trace(w, base, m, n).op <= 28
  {
    hide Framed, Follow, Executed, Ready, Polite, InReach, OpPc;
    if n == 0 {
      EntryFramed(m.r, m.ram);
    } else {
      RunKeeps(w, base, m, n - 1);
      var o := Trace(w, base, m, n - 1);
      if o.Running? {
        StepKeeps(w, base, m.r, n - 1, o.op, o.m);
        FollowBounds(w, base, n - 1, o.op, Executed(w, base, n - 1, o.op, o.m));
      }
    }
  }

  lemma FollowBounds(w: World, base: u32, n: nat, op: nat, m: DrawMachine)
    requires op <= 28
    ensures Follow(w, base, n, op, m).Running? ==> Follow(w, base, n, op, m).op <= 28
  {
    hide OpPc, Peek, Wrap;
  }

  lemma EntryFramed(r: DrawRegisters, ram: Memory)
    ensures Framed(r, 0, r, ram)
  {
    hide SaveArea, Pushed;
  }
}
