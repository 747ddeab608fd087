/** runner/src/cdi_memory_jobs.c: the native rectangle fill against the 48 firmware bytes it
    replaces. */
module MemoryJob {
  import opened Guest
  import opened Cpu68k

  const BASE := 0x4461EC

  /** The firmware bytes the job insists on finding in ROM. */
  function FirmwareByte(i: nat): byte {
    match i
    case 0 => 0x48 case 1 => 0xE7 case 2 => 0x7E case 3 => 0x80
    case 4 => 0x20 case 5 => 0x40 case 6 => 0x24 case 7 => 0x2F
    case 8 => 0x00 case 9 => 0x20 case 10 => 0x28 case 11 => 0x2F
    case 12 => 0x00 case 13 => 0x28 case 14 => 0x98 case 15 => 0x81
    case 16 => 0x26 case 17 => 0x2F case 18 => 0x00 case 19 => 0x24
    case 20 => 0x53 case 21 => 0x42 case 22 => 0x53 case 23 => 0x41
    case 24 => 0x2A case 25 => 0x01 case 26 => 0x10 case 27 => 0xC3
    case 28 => 0x51 case 29 => 0xC9 case 30 => 0xFF case 31 => 0xFC
    case 32 => 0xD1 case 33 => 0xC4 case 34 => 0x22 case 35 => 0x05
    case 36 => 0x51 case 37 => 0xCA case 38 => 0xFF case 39 => 0xF4
    case 40 => 0x20 case 41 => 0x08 case 42 => 0x4C case 43 => 0xDF
    case 44 => 0x01 case 45 => 0x7E case 46 => 0x4E case 47 => 0x75
    case _ => 0
  }

  // ----- the reference: interpreting the firmware -----

  function Halfword(offset: nat): nat
    requires offset + 2 <= 48
  {
    FirmwareByte(offset) as int * 0x100 + FirmwareByte(offset + 1)
  }

  function Step(m: Machine): Option<Machine> {
    if m.pc % 2 != 0 || m.pc < BASE || m.pc + 2 > BASE + 48 then None
    else
      match Decode(Halfword(m.pc - BASE))
      case None => None
      case Some(i) => Execute(i, if m.pc + 4 <= BASE + 48 then Halfword(m.pc - BASE + 2) else 0, m)
  }

  /** What happens around the job at every operation count: the pending interrupt level (0:
      none), the debugger's observation epoch and whether that epoch allows native running, and
      what devices do to RAM once the operation's cycles are accounted; and what the bus holds
      outside RAM. */
  datatype World = World(level: nat -> nat, observed: nat -> nat, allowed: nat -> bool,
                         devices: (nat, Memory) -> Memory, elsewhere: u32 -> u32)

  /** The devices' turn after operation n. */
  function After(env: World, n: nat, m: Machine): Machine { m.(ram := env.devices(n, m.ram)) }

  /** The machine after n interpreted instructions, devices included. */
  function Steps(env: World, m: Machine, n: nat): Option<Machine> {
    if n == 0 then Some(m)
    else
      match Steps(env, m, n - 1)
      case None => None
      case Some(p) =>
        match Step(p)
        case None => None
        case Some(q) => Some(After(env, n - 1, q))
  }

  /** The disassembly. */
  function At(offset: nat): (Instruction, nat) {
    match offset
    case 0x00 => (MovemPush(7), 0x7E80)
    case 0x04 => (MoveLong(D(0), A(0)), 0)
    case 0x06 => (MoveArgument(7, 2), 0x20)
    case 0x0A => (MoveArgument(7, 4), 0x28)
    case 0x0E => (SubLong(1, 4), 0)
    case 0x10 => (MoveArgument(7, 3), 0x24)
    case 0x14 => (SubQuickWord(1, 2), 0)
    case 0x16 => (SubQuickWord(1, 1), 0)
    case 0x18 => (MoveLong(D(1), D(5)), 0)
    case 0x1A => (MoveByteUp(3, 0), 0)
    case 0x1C => (DecrementBranch(1), 0xFFFC)
    case 0x20 => (AddAddress(4, 0), 0)
    case 0x22 => (MoveLong(D(5), D(1)), 0)
    case 0x24 => (DecrementBranch(2), 0xFFF4)
    case 0x28 => (MoveLong(A(0), D(0)), 0)
    case 0x2A => (MovemPop(7), 0x017E)
    case _ => (Rts, 0)
  }

  predicate Extended(i: Instruction) {
    i.MovemPush? || i.MovemPop? || i.MoveArgument? || i.DecrementBranch?
  }

  predicate Boundary(offset: nat) {
    offset in {0x00, 0x04, 0x06, 0x0A, 0x0E, 0x10, 0x14, 0x16, 0x18, 0x1A, 0x1C, 0x20, 0x22, 0x24, 0x28, 0x2A, 0x2E}
  }

  lemma PrologueOpcodes()
    ensures Decode(0x48E7) == Some(MovemPush(7))
    ensures Decode(0x2040) == Some(MoveLong(D(0), A(0)))
    ensures Decode(0x242F) == Some(MoveArgument(7, 2))
    ensures Decode(0x282F) == Some(MoveArgument(7, 4))
    ensures Decode(0x9881) == Some(SubLong(1, 4))
    ensures Decode(0x262F) == Some(MoveArgument(7, 3))
  {}

  lemma LoopOpcodes()
    ensures Decode(0x5342) == Some(SubQuickWord(1, 2))
    ensures Decode(0x5341) == Some(SubQuickWord(1, 1))
    ensures Decode(0x2A01) == Some(MoveLong(D(1), D(5)))
    ensures Decode(0x10C3) == Some(MoveByteUp(3, 0))
    ensures Decode(0x51C9) == Some(DecrementBranch(1))
    ensures Decode(0xD1C4) == Some(AddAddress(4, 0))
  {}

  lemma ReturnOpcodes()
    ensures Decode(0x2205) == Some(MoveLong(D(5), D(1)))
    ensures Decode(0x51CA) == Some(DecrementBranch(2))
    ensures Decode(0x2008) == Some(MoveLong(A(0), D(0)))
    ensures Decode(0x4CDF) == Some(MovemPop(7))
    ensures Decode(0x4E75) == Some(Rts)
  {}

  lemma FirmwareDecodes(offset: nat)
    requires Boundary(offset)
    ensures offset + 2 <= 48 && Decode(Halfword(offset)) == Some(At(offset).0)
    ensures Extended(At(offset).0) ==> offset + 4 <= 48 && Halfword(offset + 2) == At(offset).1
  {
    PrologueOpcodes();
    LoopOpcodes();
    ReturnOpcodes();
    hide Decode;
  }

  lemma Extensionless(i: Instruction, ext: nat, m: Machine)
    requires !Extended(i)
    ensures Execute(i, ext, m) == Execute(i, 0, m)
  {}

  lemma StepIs(m: Machine)
    requires m.pc >= BASE && Boundary(m.pc - BASE)
    ensures Step(m) == Execute(At(m.pc - BASE).0, At(m.pc - BASE).1, m)
  {
    hide Execute, Decode;
    FirmwareDecodes(m.pc - BASE);
    if !Extended(At(m.pc - BASE).0) {
      Extensionless(At(m.pc - BASE).0, if m.pc + 4 <= BASE + 48 then Halfword(m.pc - BASE + 2) else 0, m);
      Extensionless(At(m.pc - BASE).0, At(m.pc - BASE).1, m);
    }
  }

  lemma NoMask(bit: nat, predecrement: bool)
    ensures MaskRegisters(0, bit, predecrement) == []
  {}

  function MaskRegister(bit: nat, predecrement: bool): Register
    requires bit < 16
  {
    if predecrement then (if bit < 8 then A(7 - bit) else D(15 - bit)) else (if bit < 8 then D(bit) else A(bit - 8))
  }

  lemma MaskStep(mask: nat, bit: nat, predecrement: bool, tail: seq<Register>)
    requires 0 < mask && bit < 16 && MaskRegisters(mask / 2, bit + 1, predecrement) == tail
    ensures mask % 2 == 0 ==> MaskRegisters(mask, bit, predecrement) == tail
    ensures mask % 2 == 1 ==> MaskRegisters(mask, bit, predecrement) == [MaskRegister(bit, predecrement)] + tail
  {}

  lemma PushList()
    ensures MaskRegisters(0x7E80, 0, true) == [A(0), D(6), D(5), D(4), D(3), D(2), D(1)]
  {
    hide MaskRegisters;
    NoMask(15, true);
    MaskStep(0x1, 14, true, []);
    MaskStep(0x3, 13, true, [D(1)]);
    MaskStep(0x7, 12, true, [D(2), D(1)]);
    MaskStep(0xF, 11, true, [D(3), D(2), D(1)]);
    MaskStep(0x1F, 10, true, [D(4), D(3), D(2), D(1)]);
    MaskStep(0x3F, 9, true, [D(5), D(4), D(3), D(2), D(1)]);
    MaskStep(0x7E, 8, true, [D(6), D(5), D(4), D(3), D(2), D(1)]);
    MaskStep(0xFD, 7, true, [D(6), D(5), D(4), D(3), D(2), D(1)]);
    MaskStep(0x1FA, 6, true, [A(0), D(6), D(5), D(4), D(3), D(2), D(1)]);
    MaskStep(0x3F4, 5, true, [A(0), D(6), D(5), D(4), D(3), D(2), D(1)]);
    MaskStep(0x7E8, 4, true, [A(0), D(6), D(5), D(4), D(3), D(2), D(1)]);
    MaskStep(0xFD0, 3, true, [A(0), D(6), D(5), D(4), D(3), D(2), D(1)]);
    MaskStep(0x1FA0, 2, true, [A(0), D(6), D(5), D(4), D(3), D(2), D(1)]);
    MaskStep(0x3F40, 1, true, [A(0), D(6), D(5), D(4), D(3), D(2), D(1)]);
    MaskStep(0x7E80, 0, true, [A(0), D(6), D(5), D(4), D(3), D(2), D(1)]);
  }

  lemma PopList()
    ensures MaskRegisters(0x017E, 0, false) == [D(1), D(2), D(3), D(4), D(5), D(6), A(0)]
  {
    hide MaskRegisters;
    NoMask(9, false);
    MaskStep(0x1, 8, false, []);
    MaskStep(0x2, 7, false, [A(0)]);
    MaskStep(0x5, 6, false, [A(0)]);
    MaskStep(0xB, 5, false, [D(6), A(0)]);
    MaskStep(0x17, 4, false, [D(5), D(6), A(0)]);
    MaskStep(0x2F, 3, false, [D(4), D(5), D(6), A(0)]);
    MaskStep(0x5F, 2, false, [D(3), D(4), D(5), D(6), A(0)]);
    MaskStep(0xBF, 1, false, [D(2), D(3), D(4), D(5), D(6), A(0)]);
    MaskStep(0x17E, 0, false, [D(1), D(2), D(3), D(4), D(5), D(6), A(0)]);
  }

  // ----- the native job -----

  /** A frontier that demands the CPU: the debugger forbids the job, or an interrupt is ready. */
  predicate Stops(env: World, n: nat, sr: Status) {
    !env.allowed(env.observed(n)) || IrqReady(env.level(n), sr)
  }

  ghost predicate Undisturbed(env: World, sr: Status, n: nat) {
    forall k :: 0 <= k < n ==> !Stops(env, k, sr)
  }

  /** The native machine is where the interpreted one is after n operations, and none of the
      frontiers it passed demanded to stop. */
  ghost predicate Follows(env: World, start: Machine, n: nat, m: Machine) {
    Steps(env, start, n) == Some(m) && Undisturbed(env, start.sr, n) && m.sr.system == start.sr.system
  }

  lemma FollowsStart(env: World, start: Machine)
    ensures Follows(env, start, 0, start)
  {}

  lemma Follow(env: World, start: Machine, n: nat, m: Machine, m': Machine)
    requires Follows(env, start, n, m) && !Stops(env, n, m.sr) && Step(m) == Some(m') && m'.sr.system == m.sr.system
    ensures Follows(env, start, n + 1, After(env, n, m'))
  {
    hide Step;
  }

  /** How the job or a part of it ends. */
  datatype Exit = Completed | Interrupted | Fallback

  /** An early end has its reason. */
  predicate Justified(env: World, n: nat, m: Machine, exit: Exit) {
    match exit
    case Completed => true
    case Interrupted => env.allowed(env.observed(n)) && IrqReady(env.level(n), m.sr)
    case Fallback => !env.allowed(env.observed(n)) || (m.pc == BASE + 0x1A && !InRam(m.a[0], 1))
  }

  /** frontier: permission is only asked for again when the observation epoch has moved. */
  method Pass(env: World, n: nat, m: Machine, before: nat) returns (exit: Exit, seen: nat)
    requires env.allowed(before)
    ensures exit.Completed? ==> env.allowed(seen) && !Stops(env, n, m.sr)
    ensures !exit.Completed? ==> Justified(env, n, m, exit)
    ensures exit.Fallback? <==> !env.allowed(env.observed(n))
    ensures exit.Interrupted? <==>
      && env.allowed(env.observed(n)) && env.level(n) > 0
      && (env.level(n) == 7 || env.level(n) > (SrNumber(m.sr) / 256) % 8)
  {
    hide SrNumber;
    MaskLaw(env.level(n), m.sr);
    seen := before;
    if env.observed(n) != seen {
      seen := env.observed(n);
      if !env.allowed(seen) { return Fallback, seen; }
    }
    exit := if IrqReady(env.level(n), m.sr) then Interrupted else Completed;
  }

  /** Devices that leave RAM alone. */
  ghost predicate Silent(env: World) { forall n, ram :: env.devices(n, ram) == ram }

  function Pushed(): seq<Register> { [A(0), D(6), D(5), D(4), D(3), D(2), D(1)] }

  function Popped(): seq<Register> { [D(1), D(2), D(3), D(4), D(5), D(6), A(0)] }

  function Sp(m: Machine): int { m.a[7] }

  /** The admission test on the stack: even, with 28 bytes below and 16 above in one bank. */
  predicate StackOk(m: Machine) {
    Sp(m) % 2 == 0 && InRam(Wrap(Sp(m) - 28), 44)
  }

  /** Which stack pointers that lets through. */
  lemma StackMeans(m: Machine)
    ensures StackOk(m) <==> m.a[7] % 2 == 0 && (0x1C <= m.a[7] <= 0x7_FFF0 || 0x20_001C <= m.a[7] <= 0x27_FFF0)
  {}

  lemma StackAt(m: Machine, k: int)
    requires StackOk(m) && -28 <= k <= 12
    ensures Sp(m) >= 28 && 0 <= Sp(m) + k < LIMIT && Wrap(Sp(m) + k) == Sp(m) + k && InRam(Sp(m) + k, 4)
  {}

  /** RAM with the first j registers of the list saved below the stack pointer. */
  function Saved(m: Machine, j: nat): Memory
    requires StackOk(m) && j <= 7
  {
    if j == 0 then m.ram
    else
      StackAt(m, -4 * j);
      Write32(Saved(m, j - 1), Sp(m) - 4 * j, Get(m, Pushed()[j - 1]))
  }

  lemma {:induction false} SavedIsPush(m: Machine, j: nat)
    requires StackOk(m) && j <= 7
    ensures Push(m, Pushed()[..j], m.a[7]) == Some(Saved(m, j))
  {
    hide Write32;
    if j > 0 {
      SavedIsPush(m, j - 1);
      StackAt(m, -4 * j);
      assert Pushed()[..j][..j - 1] == Pushed()[..j - 1] && Pushed()[..j][j - 1] == Pushed()[j - 1];
    }
  }

  /** The machine after the register save. */
  function AfterSave(m: Machine): Machine
    requires StackOk(m)
  {
    StackAt(m, -28);
    m.(ram := Saved(m, 7), a := m.a[7 := Sp(m) - 28], pc := BASE + 4)
  }

  lemma SaveStep(m: Machine)
    requires StackOk(m) && m.pc == BASE
    ensures Step(m) == Some(AfterSave(m))
  {
    hide Write32, Decode, Push, MaskRegisters, Saved;
    StepIs(m);
    PushList();
    SavedIsPush(m, 7);
    StackAt(m, -28);
    assert Pushed()[..7] == Pushed();
  }

  /** The longword k bytes above the caller's stack pointer. */
  function Above(m: Machine, ram: Memory, k: nat): u32
    requires StackOk(m) && k <= 12
  {
    StackAt(m, k);
    Read32(ram, Sp(m) + k)
  }

  /** An argument the caller left above the return address, once the registers are saved. */
  function Argument(m: Machine, k: nat): u32
    requires StackOk(m) && k <= 12
  {
    Above(m, Saved(m, 7), k)
  }

  function DecrementLow(x: u32): u32 { WithLow16(x, (Low16(x) - 1) % 0x1_0000) }

  // ----- one firmware instruction each -----

  lemma StepStart(m: Machine)
    requires m.pc == BASE + 0x04
    ensures Step(m) == Some(m.(a := m.a[0 := m.d[0]], pc := BASE + 0x06))
  {
    hide Write32, Write8, Read32, Decode, LogicFlags, SubFlags, WithLow16, Low16, Step, PushRegisters, PopRegisters;
    StepIs(m);
  }

  lemma StepHeight(m: Machine)
    requires m.pc == BASE + 0x06 && Sp(m) + 32 < LIMIT && InRam(Sp(m) + 32, 4)
    ensures var v := Read32(m.ram, Sp(m) + 32);
      Step(m) == Some(m.(d := m.d[2 := v], sr := LogicFlags(m.sr, v, LIMIT), pc := BASE + 0x0A))
  {
    hide Write32, Write8, Read32, Decode, LogicFlags, SubFlags, WithLow16, Low16, Step, PushRegisters, PopRegisters;
    StepIs(m);
  }

  lemma StepPitch(m: Machine)
    requires m.pc == BASE + 0x0A && Sp(m) + 40 < LIMIT && InRam(Sp(m) + 40, 4)
    ensures var v := Read32(m.ram, Sp(m) + 40);
      Step(m) == Some(m.(d := m.d[4 := v], sr := LogicFlags(m.sr, v, LIMIT), pc := BASE + 0x0E))
  {
    hide Write32, Write8, Read32, Decode, LogicFlags, SubFlags, WithLow16, Low16, Step, PushRegisters, PopRegisters;
    StepIs(m);
  }

  lemma StepValue(m: Machine)
    requires m.pc == BASE + 0x10 && Sp(m) + 36 < LIMIT && InRam(Sp(m) + 36, 4)
    ensures var v := Read32(m.ram, Sp(m) + 36);
      Step(m) == Some(m.(d := m.d[3 := v], sr := LogicFlags(m.sr, v, LIMIT), pc := BASE + 0x14))
  {
    hide Write32, Write8, Read32, Decode, LogicFlags, SubFlags, WithLow16, Low16, Step, PushRegisters, PopRegisters;
    StepIs(m);
  }

  lemma StepGap(m: Machine)
    requires m.pc == BASE + 0x0E
    ensures Step(m) == Some(m.(d := m.d[4 := Wrap((m.d[4] as int) - m.d[1])],
                               sr := SubFlags(m.sr, m.d[4], m.d[1], LIMIT), pc := BASE + 0x10))
  {
    hide Write32, Write8, Read32, Decode, LogicFlags, SubFlags, WithLow16, Low16, Step, PushRegisters, PopRegisters;
    StepIs(m);
  }

  lemma StepRows(m: Machine)
    requires m.pc == BASE + 0x14
    ensures Step(m) == Some(m.(d := m.d[2 := DecrementLow(m.d[2])],
                               sr := SubFlags(m.sr, Low16(m.d[2]), 1, 0x1_0000), pc := BASE + 0x16))
  {
    hide Write32, Write8, Read32, Decode, LogicFlags, SubFlags, WithLow16, Low16, Step, PushRegisters, PopRegisters;
    StepIs(m);
  }

  lemma StepColumns(m: Machine)
    requires m.pc == BASE + 0x16
    ensures Step(m) == Some(m.(d := m.d[1 := DecrementLow(m.d[1])],
                               sr := SubFlags(m.sr, Low16(m.d[1]), 1, 0x1_0000), pc := BASE + 0x18))
  {
    hide Write32, Write8, Read32, Decode, LogicFlags, SubFlags, WithLow16, Low16, Step, PushRegisters, PopRegisters;
    StepIs(m);
  }

  lemma StepKeep(m: Machine)
    requires m.pc == BASE + 0x18
    ensures Step(m) == Some(m.(d := m.d[5 := m.d[1]], sr := LogicFlags(m.sr, m.d[1], LIMIT), pc := BASE + 0x1A))
  {
    hide Write32, Write8, Read32, Decode, LogicFlags, SubFlags, WithLow16, Low16, Step, PushRegisters, PopRegisters;
    StepIs(m);
  }

  lemma StepByte(m: Machine)
    requires m.pc == BASE + 0x1A && InRam(m.a[0], 1)
    ensures Step(m) == Some(m.(ram := Write8(m.ram, m.a[0], m.d[3] % 0x100), a := m.a[0 := Wrap((m.a[0] as int) + 1)],
                               sr := LogicFlags(m.sr, m.d[3] % 0x100, 0x100), pc := BASE + 0x1C))
  {
    hide Write32, Write8, Read32, Decode, LogicFlags, SubFlags, WithLow16, Low16, Step, PushRegisters, PopRegisters;
    StepIs(m);
  }

  lemma StepColumn(m: Machine)
    requires m.pc == BASE + 0x1C
    ensures Step(m) == Some(m.(d := m.d[1 := DecrementLow(m.d[1])],
                               pc := if Low16(m.d[1]) == 0 then BASE + 0x20 else BASE + 0x1A))
  {
    hide Write32, Write8, Read32, Decode, LogicFlags, SubFlags, WithLow16, Step, PushRegisters, PopRegisters;
    StepIs(m);
  }

  lemma StepNextRow(m: Machine)
    requires m.pc == BASE + 0x20
    ensures Step(m) == Some(m.(a := m.a[0 := Wrap((m.a[0] as int) + m.d[4])], pc := BASE + 0x22))
  {
    hide Write32, Write8, Read32, Decode, LogicFlags, SubFlags, WithLow16, Low16, Step, PushRegisters, PopRegisters;
    StepIs(m);
  }

  lemma StepReload(m: Machine)
    requires m.pc == BASE + 0x22
    ensures Step(m) == Some(m.(d := m.d[1 := m.d[5]], sr := LogicFlags(m.sr, m.d[5], LIMIT), pc := BASE + 0x24))
  {
    hide Write32, Write8, Read32, Decode, LogicFlags, SubFlags, WithLow16, Low16, Step, PushRegisters, PopRegisters;
    StepIs(m);
  }

  lemma StepRow(m: Machine)
    requires m.pc == BASE + 0x24
    ensures Step(m) == Some(m.(d := m.d[2 := DecrementLow(m.d[2])],
                               pc := if Low16(m.d[2]) == 0 then BASE + 0x28 else BASE + 0x1A))
  {
    hide Write32, Write8, Read32, Decode, LogicFlags, SubFlags, WithLow16, Step, PushRegisters, PopRegisters;
    StepIs(m);
  }

  lemma StepResult(m: Machine)
    requires m.pc == BASE + 0x28
    ensures Step(m) == Some(m.(d := m.d[0 := m.a[0]], sr := LogicFlags(m.sr, m.a[0], LIMIT), pc := BASE + 0x2A))
  {
    hide Write32, Write8, Read32, Decode, LogicFlags, SubFlags, WithLow16, Low16, Step, PushRegisters, PopRegisters;
    StepIs(m);
  }

  // ----- up to the loops -----

  /** The machine when the first byte is about to be written. */
  function Prepared(m: Machine): Machine
    requires StackOk(m)
  {
    var s := AfterSave(m);
    var d1 := DecrementLow(m.d[1]);
    var gap := Wrap((Argument(m, 12) as int) - m.d[1]);
    Machine([m.d[0], d1, DecrementLow(Argument(m, 4)), Argument(m, 8), gap, d1, m.d[6], m.d[7]],
            s.a[0 := m.d[0]], LogicFlags(m.sr.(x := Low16(m.d[1]) == 0), d1, LIMIT), BASE + 0x1A, s.ram)
  }

  lemma FlagsSettle(sr: Status, sr': Status, l: u32, d: u32)
    requires sr.system == sr'.system
    ensures LogicFlags(SubFlags(sr', Low16(l), 1, 0x1_0000), d, LIMIT) == LogicFlags(sr.(x := Low16(l) == 0), d, LIMIT)
  {}

  /** What the loops rely on, whatever devices did to the arguments. */
  predicate Poised(start: Machine, m: Machine) {
    m.pc == BASE + 0x1A && m.d[5] == m.d[1] && Sp(m) == Sp(start) - 28
  }

  /** The save and the loads up to the row gap. */
  method LoadArguments(env: World, m0: Machine, before: nat) returns (m: Machine, n: nat, exit: Exit, seen: nat)
    requires StackOk(m0) && m0.pc == BASE && env.allowed(before)
    ensures Follows(env, m0, n, m) && (!exit.Completed? ==> Justified(env, n, m, exit))
    ensures exit.Completed? ==> env.allowed(seen) && m.pc == BASE + 0x10 && Sp(m) == Sp(m0) - 28
    ensures exit.Completed? && Silent(env) ==>
      && m.a == AfterSave(m0).a[0 := m0.d[0]] && m.ram == Saved(m0, 7)
      && m.d == m0.d[2 := Argument(m0, 4)][4 := Wrap((Argument(m0, 12) as int) - m0.d[1])]
  {
    hide Write32, Read32, Saved, Step, LogicFlags, SubFlags, Wrap, Follows, Stops, Justified;
    m, n := m0, 0;
    FollowsStart(env, m0);
    exit, seen := Pass(env, n, m, before);
    if !exit.Completed? { return; }
    SaveStep(m0);
    var next := AfterSave(m0);
    Follow(env, m0, n, m, next);
    m, n := After(env, n, next), n + 1;
    StackAt(m0, 4);
    StackAt(m0, 12);
    exit, seen := Pass(env, n, m, seen);
    if !exit.Completed? { return; }
    StepStart(m);
    next := m.(a := m.a[0 := m.d[0]], pc := BASE + 0x06);
    Follow(env, m0, n, m, next);
    m, n := After(env, n, next), n + 1;
    exit, seen := Pass(env, n, m, seen);
    if !exit.Completed? { return; }
    StepHeight(m);
    var height := Above(m0, m.ram, 4);
    next := m.(d := m.d[2 := height], sr := LogicFlags(m.sr, height, LIMIT), pc := BASE + 0x0A);
    Follow(env, m0, n, m, next);
    m, n := After(env, n, next), n + 1;
    exit, seen := Pass(env, n, m, seen);
    if !exit.Completed? { return; }
    StepPitch(m);
    var pitch := Above(m0, m.ram, 12);
    next := m.(d := m.d[4 := pitch], sr := LogicFlags(m.sr, pitch, LIMIT), pc := BASE + 0x0E);
    Follow(env, m0, n, m, next);
    m, n := After(env, n, next), n + 1;
    exit, seen := Pass(env, n, m, seen);
    if !exit.Completed? { return; }
    StepGap(m);
    next := m.(d := m.d[4 := Wrap((m.d[4] as int) - m.d[1])], sr := SubFlags(m.sr, m.d[4], m.d[1], LIMIT),
               pc := BASE + 0x10);
    Follow(env, m0, n, m, next);
    m, n := After(env, n, next), n + 1;
  }

  /** The machine with the value loaded and both counts taken down by one. */
  function Counted(start: Machine, m: Machine): Machine
    requires StackOk(start)
  {
    var d1 := DecrementLow(m.d[1]);
    var value := Above(start, m.ram, 8);
    m.(d := [m.d[0], d1, DecrementLow(m.d[2]), value, m.d[4], d1, m.d[6], m.d[7]],
       sr := LogicFlags(m.sr.(x := Low16(m.d[1]) == 0), d1, LIMIT), pc := BASE + 0x1A)
  }

  /** The value and the loop counts. */
  method SetCounts(env: World, ghost start: Machine, m0: Machine, n0: nat, before: nat)
    returns (m: Machine, n: nat, exit: Exit, seen: nat)
    requires StackOk(start) && Follows(env, start, n0, m0) && env.allowed(before)
    requires m0.pc == BASE + 0x10 && Sp(m0) == Sp(start) - 28
    ensures Follows(env, start, n, m) && (!exit.Completed? ==> Justified(env, n, m, exit))
    ensures exit.Completed? ==> env.allowed(seen) && Poised(start, m)
    ensures exit.Completed? && Silent(env) ==> m == Counted(start, m0)
  {
    hide Write32, Read32, Saved, Step, LogicFlags, SubFlags, DecrementLow, Low16, Wrap, Follows, Stops, Justified;
    m, n := m0, n0;
    StackAt(start, 8);
    exit, seen := Pass(env, n, m, before);
    if !exit.Completed? { return; }
    StepValue(m);
    var value := Read32(m.ram, Sp(m) + 36);
    var next := m.(d := m.d[3 := value], sr := LogicFlags(m.sr, value, LIMIT), pc := BASE + 0x14);
    Follow(env, start, n, m, next);
    m, n := After(env, n, next), n + 1;
    exit, seen := Pass(env, n, m, seen);
    if !exit.Completed? { return; }
    StepRows(m);
    next := m.(d := m.d[2 := DecrementLow(m.d[2])], sr := SubFlags(m.sr, Low16(m.d[2]), 1, 0x1_0000),
               pc := BASE + 0x16);
    Follow(env, start, n, m, next);
    m, n := After(env, n, next), n + 1;
    exit, seen := Pass(env, n, m, seen);
    if !exit.Completed? { return; }
    FlagsSettle(m0.sr, m.sr, m0.d[1], DecrementLow(m0.d[1]));
    StepColumns(m);
    next := m.(d := m.d[1 := DecrementLow(m.d[1])], sr := SubFlags(m.sr, Low16(m.d[1]), 1, 0x1_0000),
               pc := BASE + 0x18);
    Follow(env, start, n, m, next);
    m, n := After(env, n, next), n + 1;
    exit, seen := Pass(env, n, m, seen);
    if !exit.Completed? { return; }
    StepKeep(m);
    next := m.(d := m.d[5 := m.d[1]], sr := LogicFlags(m.sr, m.d[1], LIMIT), pc := BASE + 0x1A);
    Follow(env, start, n, m, next);
    m, n := After(env, n, next), n + 1;
  }

  /** Everything up to the loops, with a possible exit before each operation. */
  method Prologue(env: World, m0: Machine, before: nat) returns (m: Machine, n: nat, exit: Exit, seen: nat)
    requires StackOk(m0) && m0.pc == BASE && env.allowed(before)
    ensures Follows(env, m0, n, m) && (!exit.Completed? ==> Justified(env, n, m, exit))
    ensures exit.Completed? ==> env.allowed(seen) && Poised(m0, m)
    ensures exit.Completed? && Silent(env) ==>
      m.ram == Prepared(m0).ram && m.d == Prepared(m0).d && m.a == Prepared(m0).a
  {
    hide Saved, LogicFlags, DecrementLow, Low16, Wrap, Follows, Justified, Above;
    m, n, exit, seen := LoadArguments(env, m0, before);
    if !exit.Completed? { return; }
    m, n, exit, seen := SetCounts(env, m0, m, n, seen);
  }

  // ----- the fill -----

  function FillByte(ram: Memory, a: u32, v: byte): Memory {
    if InRam(a, 1) then Write8(ram, a, v) else ram
  }

  /** w bytes of value v from address a up. */
  function FillRow(ram: Memory, a: u32, w: nat, v: byte): Memory {
    if w == 0 then ram else FillByte(FillRow(ram, a, w - 1, v), Column(a, w - 1), v)
  }

  function Column(a: u32, c: nat): u32 { Wrap(a as int + c) }

  /** Where row r begins. */
  function RowAddress(a: u32, stride: u32, r: nat): u32 {
    if r == 0 then a else Wrap(RowAddress(a, stride, r - 1) as int + stride)
  }

  function FillRows(ram: Memory, a: u32, w: nat, stride: u32, v: byte, h: nat): Memory {
    if h == 0 then ram else FillRow(FillRows(ram, a, w, stride, v, h - 1), RowAddress(a, stride, h - 1), w, v)
  }

  ghost predicate RowInRam(a: u32, w: nat) {
    forall c :: 0 <= c < w ==> InRam(Column(a, c), 1)
  }

  lemma LowParts(x: u32, k: int)
    requires 0 <= k < 0x1_0000
    ensures Low16(WithLow16(x, k)) == k
    ensures DecrementLow(WithLow16(x, k)) == WithLow16(x, if k == 0 then 0xFFFF else k - 1)
    ensures WithLow16(x, Low16(x)) == x
  {}

  lemma ColumnNext(a: u32, c: nat)
    ensures Wrap(Column(a, c) as int + 1) == Column(a, c + 1)
    ensures Column(a, 0) == a
  {}

  /** The inner loop, with a possible exit before every byte and every branch. */
  method FillOneRow(env: World, ghost start: Machine, m0: Machine, n0: nat, before: nat)
    returns (m: Machine, n: nat, exit: Exit, seen: nat)
    requires Follows(env, start, n0, m0) && m0.pc == BASE + 0x1A && env.allowed(before)
    ensures Follows(env, start, n, m) && (!exit.Completed? ==> Justified(env, n, m, exit))
    ensures exit.Completed? ==>
      && var w, v := Low16(m0.d[1]) + 1, m0.d[3] % 0x100;
      && env.allowed(seen) && RowInRam(m0.a[0], w)
      && m == m0.(ram := m.ram, a := m0.a[0 := Column(m0.a[0], w)],
                  d := m0.d[1 := WithLow16(m0.d[1], 0xFFFF)], sr := LogicFlags(m0.sr, v, 0x100), pc := BASE + 0x20)
      && (Silent(env) ==> m.ram == FillRow(m0.ram, m0.a[0], w, v))
  {
    hide Write8, Step, LogicFlags, WithLow16, Low16, DecrementLow, Wrap, Column, Follows, Stops;
    var w, v := Low16(m0.d[1]) + 1, m0.d[3] % 0x100;
    LowRange(m0.d[1]);
    LowParts(m0.d[1], w - 1);
    ColumnNext(m0.a[0], 0);
    LogicTwice(m0.sr, v);
    m, n, seen := m0, n0, before;
    var c := 0;
    while true
      invariant 0 <= c < w && env.allowed(seen)
      invariant Follows(env, start, n, m)
      invariant m == m0.(ram := m.ram, a := m0.a[0 := Column(m0.a[0], c)],
                         d := m0.d[1 := WithLow16(m0.d[1], w - 1 - c)],
                         sr := if c == 0 then m0.sr else LogicFlags(m0.sr, v, 0x100))
      invariant Silent(env) ==> m.ram == FillRow(m0.ram, m0.a[0], c, v)
      invariant RowInRam(m0.a[0], c)
      decreases w - c
    {
      exit, seen := Pass(env, n, m, seen);
      if !exit.Completed? { return; }
      if !InRam(m.a[0], 1) { return m, n, Fallback, seen; }
      StepByte(m);
      ColumnNext(m0.a[0], c);
      var next := m.(ram := Write8(m.ram, m.a[0], v), a := m.a[0 := Wrap(m.a[0] as int + 1)],
                     sr := LogicFlags(m.sr, v, 0x100), pc := BASE + 0x1C);
      Follow(env, start, n, m, next);
      m, n := After(env, n, next), n + 1;
      exit, seen := Pass(env, n, m, seen);
      if !exit.Completed? { return; }
      StepColumn(m);
      LowParts(m0.d[1], w - 1 - c);
      next := m.(d := m.d[1 := DecrementLow(m.d[1])], pc := if Low16(m.d[1]) == 0 then BASE + 0x20 else BASE + 0x1A);
      Follow(env, start, n, m, next);
      m, n := After(env, n, next), n + 1;
      c := c + 1;
      if c == w { return m, n, Completed, seen; }
    }
  }

  lemma LowRange(x: u32)
    ensures 0 <= Low16(x) < 0x1_0000
  {}

  lemma LogicTwice(sr: Status, v: byte)
    ensures LogicFlags(LogicFlags(sr, v, 0x100), v, 0x100) == LogicFlags(sr, v, 0x100)
  {}

  lemma LogicOver(sr: Status, v: int, d: u32)
    ensures LogicFlags(LogicFlags(sr, v, 0x100), d, LIMIT) == LogicFlags(sr, d, LIMIT)
    ensures LogicFlags(LogicFlags(sr, d, LIMIT), v, 0x100) == LogicFlags(sr, v, 0x100)
  {}

  lemma RowNext(a: u32, stride: u32, r: nat, w: nat, gap: u32)
    requires stride == Wrap(w + gap)
    ensures Wrap(Column(RowAddress(a, stride, r), w) as int + gap) == RowAddress(a, stride, r + 1)
  {
    hide Wrap;
    var x: int := RowAddress(a, stride, r);
    WrapAdd(x + w, gap);
    WrapAdd(w + gap, x);
    assert x + w + gap == w + gap + x;
  }

  /** The job's dimensions as the loops see them: a count of zero means 65536. */
  function Count(x: u32): (n: nat)
    ensures 1 <= n <= 0x1_0000
  {
    (Low16(x) - 1) % 0x1_0000 + 1
  }

  ghost predicate RowsInRam(a: u32, w: nat, stride: u32, h: nat) {
    forall r :: 0 <= r < h ==> RowInRam(RowAddress(a, stride, r), w)
  }

  /** On to the next row: the gap, the column count again, and the row branch. */
  method EndRow(env: World, ghost start: Machine, m0: Machine, n0: nat, before: nat)
    returns (m: Machine, n: nat, exit: Exit, seen: nat)
    requires Follows(env, start, n0, m0) && m0.pc == BASE + 0x20 && env.allowed(before)
    ensures Follows(env, start, n, m) && (!exit.Completed? ==> Justified(env, n, m, exit))
    ensures exit.Completed? ==>
      && env.allowed(seen) && (Silent(env) ==> m.ram == m0.ram)
      && m == m0.(ram := m.ram, a := m0.a[0 := Wrap(m0.a[0] as int + m0.d[4])],
                  d := m0.d[1 := m0.d[5]][2 := DecrementLow(m0.d[2])], sr := LogicFlags(m0.sr, m0.d[5], LIMIT),
                  pc := if Low16(m0.d[2]) == 0 then BASE + 0x28 else BASE + 0x1A)
  {
    hide Step, LogicFlags, WithLow16, Low16, DecrementLow, Wrap, Follows, Stops, Justified;
    m, n := m0, n0;
    exit, seen := Pass(env, n, m, before);
    if !exit.Completed? { return; }
    StepNextRow(m);
    var next := m.(a := m.a[0 := Wrap(m.a[0] as int + m.d[4])], pc := BASE + 0x22);
    Follow(env, start, n, m, next);
    m, n := After(env, n, next), n + 1;
    exit, seen := Pass(env, n, m, seen);
    if !exit.Completed? { return; }
    StepReload(m);
    next := m.(d := m.d[1 := m.d[5]], sr := LogicFlags(m.sr, m.d[5], LIMIT), pc := BASE + 0x24);
    Follow(env, start, n, m, next);
    m, n := After(env, n, next), n + 1;
    exit, seen := Pass(env, n, m, seen);
    if !exit.Completed? { return; }
    StepRow(m);
    next := m.(d := m.d[2 := DecrementLow(m.d[2])], pc := if Low16(m.d[2]) == 0 then BASE + 0x28 else BASE + 0x1A);
    Follow(env, start, n, m, next);
    m, n := After(env, n, next), n + 1;
  }

  /** Both loops. */
  method FillRectangle(env: World, ghost start: Machine, m0: Machine, n0: nat, before: nat)
    returns (m: Machine, n: nat, exit: Exit, seen: nat)
    requires Follows(env, start, n0, m0) && m0.pc == BASE + 0x1A && m0.d[5] == m0.d[1] && env.allowed(before)
    ensures Follows(env, start, n, m) && (!exit.Completed? ==> Justified(env, n, m, exit))
    ensures exit.Completed? ==>
      && var w, h, v := Low16(m0.d[1]) + 1, Low16(m0.d[2]) + 1, m0.d[3] % 0x100;
      && var stride := Wrap(w + m0.d[4]);
      && env.allowed(seen) && RowsInRam(m0.a[0], w, stride, h)
      && m == m0.(ram := m.ram, a := m0.a[0 := RowAddress(m0.a[0], stride, h)],
                  d := m0.d[2 := WithLow16(m0.d[2], 0xFFFF)], sr := LogicFlags(m0.sr, m0.d[5], LIMIT),
                  pc := BASE + 0x28)
      && (Silent(env) ==> m.ram == FillRows(m0.ram, m0.a[0], w, stride, v, h))
  {
    hide Write8, Step, LogicFlags, WithLow16, Low16, DecrementLow, Wrap, Column, FillRow, RowInRam;
    hide Follows, Stops, Justified;
    var w, h, v := Low16(m0.d[1]) + 1, Low16(m0.d[2]) + 1, m0.d[3] % 0x100;
    LowRange(m0.d[1]);
    LowRange(m0.d[2]);
    LowParts(m0.d[2], h - 1);
    var stride := Wrap(w + m0.d[4]);
    m, n, seen := m0, n0, before;
    var r := 0;
    while true
      invariant 0 <= r < h && env.allowed(seen)
      invariant Follows(env, start, n, m)
      invariant m == m0.(ram := m.ram, a := m0.a[0 := RowAddress(m0.a[0], stride, r)],
                         d := m0.d[2 := WithLow16(m0.d[2], h - 1 - r)],
                         sr := if r == 0 then m0.sr else LogicFlags(m0.sr, m0.d[5], LIMIT))
      invariant Silent(env) ==> m.ram == FillRows(m0.ram, m0.a[0], w, stride, v, r)
      invariant RowsInRam(m0.a[0], w, stride, r)
      decreases h - r
    {
      m, n, exit, seen := FillOneRow(env, start, m, n, seen);
      if !exit.Completed? { return; }
      RowNext(m0.a[0], stride, r, w, m0.d[4]);
      LogicOver(m0.sr, v, m0.d[5]);
      LowParts(m0.d[2], h - 1 - r);
      m, n, exit, seen := EndRow(env, start, m, n, seen);
      if !exit.Completed? { return; }
      assert m.d == m0.d[2 := DecrementLow(WithLow16(m0.d[2], h - 1 - r))];
      r := r + 1;
      if r == h { return m, n, Completed, seen; }
    }
  }

  // ----- restoring -----

  /** The machine after the registers are loaded back from the save area. */
  function Restored(m: Machine): Machine
    requires InRam(Sp(m), 28) && Sp(m) + 28 < LIMIT
  {
    m.(d := seq(8, i requires 0 <= i < 8 => if 1 <= i <= 6 then Read32(m.ram, Sp(m) + 4 * (i - 1)) else m.d[i]),
       a := m.a[0 := Read32(m.ram, Sp(m) + 24)][7 := Sp(m) + 28], pc := BASE + 0x2E)
  }

  /** The first j registers of the list loaded. */
  function Loaded(m: Machine, j: nat): Machine
    requires InRam(Sp(m), 28) && Sp(m) + 28 < LIMIT && j <= 7
  {
    if j == 0 then m else Set(Loaded(m, j - 1), Popped()[j - 1], Read32(m.ram, Sp(m) + 4 * (j - 1)))
  }

  lemma {:induction false} LoadedIsPop(m: Machine, j: nat)
    requires InRam(Sp(m), 28) && Sp(m) + 28 < LIMIT && j <= 7
    ensures Pop(m, Popped()[..j], m.a[7]) == Some(Loaded(m, j))
  {
    hide Read32;
    if j > 0 {
      LoadedIsPop(m, j - 1);
      assert Popped()[..j][..j - 1] == Popped()[..j - 1] && Popped()[..j][j - 1] == Popped()[j - 1];
      assert Wrap(m.a[7] as int + 4 * (j - 1)) == Sp(m) + 4 * (j - 1);
    }
  }

  lemma {:induction false} LoadedData(m: Machine, j: nat)
    requires InRam(Sp(m), 28) && Sp(m) + 28 < LIMIT && j <= 6
    ensures var p := Loaded(m, j);
      && p == m.(d := p.d)
      && forall i :: 0 <= i < 8 ==> p.d[i] == if 1 <= i <= j then Read32(m.ram, Sp(m) + 4 * (i - 1)) else m.d[i]
  {
    hide Read32;
    if j > 0 {
      LoadedData(m, j - 1);
      assert Popped()[j - 1] == D(j);
    }
  }

  lemma LoadedAll(m: Machine)
    requires InRam(Sp(m), 28) && Sp(m) + 28 < LIMIT
    ensures var p := Loaded(m, 7);
      && p.d == Restored(m).d && p.a == m.a[0 := Read32(m.ram, Sp(m) + 24)] && p == m.(d := p.d, a := p.a)
  {
    hide Read32, Loaded;
    LoadedData(m, 6);
    LoadedLast(m);
    assert Loaded(m, 6).d == Restored(m).d;
  }

  lemma LoadedLast(m: Machine)
    requires InRam(Sp(m), 28) && Sp(m) + 28 < LIMIT
    ensures Loaded(m, 7) == Set(Loaded(m, 6), A(0), Read32(m.ram, Sp(m) + 24))
  {
    hide Read32, Set;
    assert Popped()[6] == A(0);
  }

  lemma RestoreStep(m: Machine)
    requires m.pc == BASE + 0x2A && InRam(Sp(m), 28) && Sp(m) + 28 < LIMIT
    ensures Step(m) == Some(Restored(m))
  {
    hide Read32, Decode, MaskRegisters, Pop, Step, Loaded;
    StepIs(m);
    PopList();
    LoadedIsPop(m, 7);
    LoadedAll(m);
    assert Popped()[..7] == Popped();
    assert Wrap(m.a[7] as int + 28) == Sp(m) + 28;
  }

  // ----- the whole job -----

  /** A job that runs to its end. */
  ghost predicate Done(m0: Machine, m: Machine)
    requires StackOk(m0)
  {
    var w, h, v := Count(m0.d[1]), Count(Argument(m0, 4)), Argument(m0, 8) % 0x100;
    var stride := Wrap(w + Argument(m0, 12) - m0.d[1]);
    StackAt(m0, -28);
    && RowsInRam(m0.d[0], w, stride, h)
    && m.ram == FillRows(Saved(m0, 7), m0.d[0], w, stride, v, h)
    && m.d[0] == RowAddress(m0.d[0], stride, h)
    && (forall j :: 1 <= j <= 6 ==> m.d[j] == Read32(m.ram, Sp(m0) - 28 + 4 * (j - 1)))
    && m.a[0] == Read32(m.ram, Sp(m0) - 4)
    && m.d[7] == m0.d[7] && m.a == m0.a[0 := m.a[0]]
    && m.sr.system == m0.sr.system && m.pc == BASE + 0x2E
  }

  /** The result move, the restore, and the frontier before RTS. */
  method Epilogue(env: World, ghost start: Machine, m0: Machine, n0: nat, before: nat)
    returns (m: Machine, n: nat, exit: Exit, seen: nat)
    requires Follows(env, start, n0, m0) && m0.pc == BASE + 0x28 && env.allowed(before)
    requires InRam(Sp(m0), 28) && Sp(m0) + 28 < LIMIT
    ensures Follows(env, start, n, m) && (!exit.Completed? ==> Justified(env, n, m, exit))
    ensures exit.Completed? ==> !Stops(env, n, m.sr) && m.pc == BASE + 0x2E && Sp(m) == Sp(m0) + 28
    ensures exit.Completed? && Silent(env) ==>
      m == Restored(m0.(d := m0.d[0 := m0.a[0]], sr := LogicFlags(m0.sr, m0.a[0], LIMIT), pc := BASE + 0x2A))
  {
    hide Step, LogicFlags, Read32, Follows, Stops, Justified;
    m, n := m0, n0;
    exit, seen := Pass(env, n, m, before);
    if !exit.Completed? { return; }
    StepResult(m);
    var next := m.(d := m.d[0 := m.a[0]], sr := LogicFlags(m.sr, m.a[0], LIMIT), pc := BASE + 0x2A);
    Follow(env, start, n, m, next);
    m, n := After(env, n, next), n + 1;
    exit, seen := Pass(env, n, m, seen);
    if !exit.Completed? { return; }
    RestoreStep(m);
    next := Restored(m);
    Follow(env, start, n, m, next);
    m, n := After(env, n, next), n + 1;
    exit, seen := Pass(env, n, m, seen);
  }

  /** The loops' result from a prepared machine, restored, is a finished job. */
  lemma JobDone(m0: Machine, p: Machine, f: Machine, m: Machine)
    requires StackOk(m0) && StackOk(m0.(pc := BASE))
    requires var q := Prepared(m0.(pc := BASE)); p.d == q.d && p.a == q.a && p.ram == q.ram
    requires var w, h, v := Low16(p.d[1]) + 1, Low16(p.d[2]) + 1, p.d[3] % 0x100;
      && var stride := Wrap(w + p.d[4]);
      && RowsInRam(p.a[0], w, stride, h) && f.ram == FillRows(p.ram, p.a[0], w, stride, v, h)
      && f.a == p.a[0 := RowAddress(p.a[0], stride, h)] && f.d[0] == p.d[0] && f.d[7] == p.d[7]
    requires InRam(Sp(f), 28) && Sp(f) + 28 < LIMIT
    requires m == Restored(f.(d := f.d[0 := f.a[0]], sr := m.sr, pc := BASE + 0x2A))
    requires m.sr.system == m0.sr.system
    ensures Done(m0, m)
  {
    hide LogicFlags, Read32, Saved, FillRows, RowAddress, RowsInRam, Low16, WithLow16;
    SavedPc(m0, BASE, 7);
    StackAt(m0, -28);
    CountIs(m0.d[1]);
    CountIs(Argument(m0, 4));
    StrideIs(Count(m0.d[1]), Argument(m0, 12), m0.d[1]);
  }

  /** ordinary_call: the CPU stands at a call to the routine, in RAM or ROM, and the return
      address of just that call is on the stack. */
  predicate OrdinaryCall(env: World, m: Machine) {
    && (InRam(m.pc, 6) || 0x40_0000 <= m.pc <= 0x4F_FFE0 - 6)
    && AnyCall(env.elsewhere, m) == Call(BASE, Peek(env.elsewhere, m.ram, m.a[7]))
  }

  /** The same, instruction word by instruction word. */
  method CheckCall(env: World, m: Machine) returns (ok: bool)
    ensures ok <==> OrdinaryCall(env, m)
  {
    hide Read32, Read8;
    var caller := m.pc as int;
    if !InRam(m.pc, 6) && !(caller >= 0x40_0000 && caller <= 0x4F_FFE0 - 6) { return false; }
    var opcode := Peek16(env.elsewhere, m.ram, m.pc);
    var next, target: u32 := caller + 2, 0;
    if opcode / 256 == 0x61 {
      var displacement: int := opcode % 256;
      if displacement == 0 {
        displacement := Peek16(env.elsewhere, m.ram, Wrap(next));
        if displacement >= 0x8000 { displacement := displacement - 0x1_0000; }
        next := next + 2;
      } else if displacement >= 0x80 {
        displacement := displacement - 0x100;
      }
      target := Wrap(caller + 2 + displacement);
    } else if opcode == 0x4EB9 {
      target := Peek(env.elsewhere, m.ram, Wrap(next));
      next := next + 4;
    } else if 0x4E90 <= opcode < 0x4E98 {
      target := m.a[opcode - 0x4E90];
    } else {
      return false;
    }
    return target == 0x4461EC && Peek(env.elsewhere, m.ram, m.a[7]) == Wrap(next);
  }

  /** cdi_memory_dispatch: whether the job takes over at all, and then what RunJob promises. */
  method Dispatch(m0: Machine, env: World, entry: bool)
    returns (taken: bool, m: Machine, n: nat, exit: Exit)
    ensures taken <==>
      && entry && m0.a[7] % 2 == 0 && (0x1C <= m0.a[7] <= 0x7_FFF0 || 0x20_001C <= m0.a[7] <= 0x27_FFF0)
      && env.allowed(env.observed(0)) && OrdinaryCall(env, m0)
    ensures if taken then StackOk(m0) else m == m0
    ensures taken ==> Follows(env, m0.(pc := BASE), n, m)
    ensures taken && !exit.Completed? ==> Justified(env, n, m, exit)
    ensures taken && exit.Completed? ==> !Stops(env, n, m.sr) && m.pc == BASE + 0x2E && Sp(m) == Sp(m0)
    ensures taken && exit.Completed? && Silent(env) ==> Done(m0, m)
  {
    hide Follows, Done, Stops, Justified, OrdinaryCall, StackOk;
    StackMeans(m0);
    var ordinary := CheckCall(env, m0);
    if !entry || !StackOk(m0) || !env.allowed(env.observed(0)) || !ordinary { return false, m0, 0, Fallback; }
    taken := true;
    m, n, exit := RunJob(m0, env);
  }

  /** The job itself: at every frontier it reaches, devices and all, the machine is exactly where
      interpreting the firmware from the entry would be, and it stops at the first one that
      demands it. A job that completes while devices leave RAM alone has filled its rectangle and
      reloaded the saved registers. */
  method RunJob(m0: Machine, env: World) returns (m: Machine, n: nat, exit: Exit)
    requires StackOk(m0) && env.allowed(env.observed(0))
    ensures Follows(env, m0.(pc := BASE), n, m)
    ensures !exit.Completed? ==> Justified(env, n, m, exit)
    ensures exit.Completed? ==> !Stops(env, n, m.sr) && m.pc == BASE + 0x2E && Sp(m) == Sp(m0)
    ensures exit.Completed? && Silent(env) ==> Done(m0, m)
  {
    hide Steps, LogicFlags, Read32, Saved, FillRows, RowAddress, RowsInRam, Low16, WithLow16, Prepared, Done;
    hide Undisturbed, Stops, Justified;
    var start := m0.(pc := BASE);
    var seen := env.observed(0);
    SavedPc(m0, BASE, 7);
    StackAt(m0, -28);
    m, n, exit, seen := Prologue(env, start, seen);
    if !exit.Completed? { return; }
    ghost var p := m;
    m, n, exit, seen := FillRectangle(env, start, m, n, seen);
    if !exit.Completed? { return; }
    ghost var f := m;
    m, n, exit, seen := Epilogue(env, start, m, n, seen);
    if exit.Completed? && Silent(env) { JobDone(m0, p, f, m); }
  }

  lemma {:induction false} SavedPc(m: Machine, pc: u32, j: nat)
    requires StackOk(m) && j <= 7
    ensures StackOk(m.(pc := pc)) && Saved(m.(pc := pc), j) == Saved(m, j)
  {
    hide Write32;
    if j > 0 { SavedPc(m, pc, j - 1); }
  }

  lemma CountIs(x: u32)
    ensures Low16(DecrementLow(x)) + 1 == Count(x)
  {}

  lemma StrideIs(w: nat, pitch: u32, d1: u32)
    ensures Wrap(w + Wrap((pitch as int) - d1)) == Wrap(w + pitch - d1)
  {
    WrapAdd((pitch as int) - d1, w);
    assert Wrap((pitch as int) - d1) as int + w == w + Wrap((pitch as int) - d1);
  }
}
