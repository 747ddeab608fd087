/** runner/src/cdi_drawing_jobs.c: the native drawing queue. The job runs whole segments of
    the module's routine with the CPU left behind at the segment's start, and rebuilds the CPU
    only where somebody may look at it. */
module DrawingJob {
  import opened Guest
  import opened Cpu68k

  /** The registers the routine touches. */
  datatype DrawRegisters = DrawRegisters(d0: u32, d4: u32, d5: u32, a0: u32, a5: u32, a6: u32, sp: u32, sr: Status)

  /** CPU and RAM; `others` are the registers no operation of the routine mentions. */
  datatype DrawMachine = DrawMachine(r: DrawRegisters, others: seq<u32>, pc: u32, ram: Memory)

  type Reads = s: seq<u32> | |s| == 4 witness [0, 0, 0, 0]

  /** A segment in flight: the registers at its start and the longwords read so far. */
  datatype Flight = Flight(before: DrawRegisters, read: Reads, first: nat, count: nat)

  const OPS: seq<nat> := [
    0x7018, 0x701C, 0x7020, 0x7022, 0x7024, 0x7026, 0x7028,
    0x702A, 0x702E, 0x7032,
    0x7034, 0x7038, 0x703C, 0x7040, 0x7042,
    0x7044, 0x7048, 0x704C, 0x7050, 0x7052,
    0x7058, 0x705A, 0x705C, 0x705E,
    0x7060, 0x7066, 0x706C, 0x7072, 0x7074]

  function OpPc(base: u32, op: nat): u32
    requires op < 29
  {
    Wrap(base as int + 0x1_0000 + OPS[op])
  }

  /** How long each instruction is: a word, one more for a displacement or a mask, two more for both
      or for two displacements. */
  function Length(op: nat): nat {
    if op in {19, 24, 25, 26} then 6 else if op in {0, 1, 7, 8, 10, 11, 12, 15, 16, 17} then 4 else 2
  }

  /** The routine is one stretch of code from the call's target to its RTS: every operation begins
      where the one before ends, and the callback returns to the operation after it. */
  lemma RoutineSpan(base: u32, i: nat)
    requires i < 29
    ensures OpPc(base, 0) == Wrap(base as int + 0x1_7018) && OpPc(base, 28) == Wrap(base as int + 0x1_7074)
    ensures i < 28 ==> OpPc(base, i + 1) == Wrap(OpPc(base, i) as int + Length(i))
    ensures OpPc(base, 15) == Wrap(base as int + 0x1_7044)
    ensures base % 2 == 0 ==> OpPc(base, i) % 2 == 0
  {
    hide OPS, Wrap;
    Offsets(i);
    if i < 28 { WrapAdd(base as int + 0x1_0000 + OPS[i], Length(i)); }
    EvenWrap(base as int + 0x1_0000 + OPS[i]);
  }

  lemma Offsets(i: nat)
    requires i < 29
    ensures |OPS| == 29 && OPS[0] == 0x7018 && OPS[15] == 0x7044 && OPS[28] == 0x7074 && OPS[i] % 2 == 0
    ensures i < 28 ==> OPS[i + 1] == OPS[i] + Length(i)
  {}

  lemma EvenWrap(x: int)
    ensures Wrap(x) % 2 == x % 2
  {
    var half := 0x8000_0000 * (x / LIMIT);
    assert x == 2 * half + Wrap(x);
    SameParity(x, Wrap(x), half);
  }

  lemma SameParity(x: int, y: int, half: int)
    requires x == 2 * half + y
    ensures x % 2 == y % 2
  {}

  /** An even span of RAM inside one bank. */
  predicate RamRange(a: u32, n: nat) { a % 2 == 0 && InRam(a, n) }

  // ----- flags -----

  function Logic(sr: Status, value: int): (r: Status)
    ensures r.system == sr.system && r.x == sr.x
  {
    LogicFlags(sr, value, LIMIT)
  }

  function Compare(sr: Status, a: u32, b: u32): (r: Status)
    ensures r.system == sr.system && r.x == sr.x
  {
    var r := Wrap((a as int) - b);
    Logic(sr, r).(c := b > a, v := Negative(a) != Negative(b) && Negative(a) != Negative(r))
  }

  function Add(sr: Status, a: u32, b: u32): (r: Status)
    ensures r.system == sr.system
  {
    var r, carry := Wrap(a as int + b), a as int + b >= LIMIT;
    Logic(sr, r).(x := carry, c := carry, v := Negative(a) == Negative(b) && Negative(a) != Negative(r))
  }

  predicate Negative(x: u32) { x >= 0x8000_0000 }

  function Signed(x: u32): int { if Negative(x) then x - LIMIT else x }

  /** What a signed and an unsigned branch after a comparison decide. */
  lemma CompareDecides(sr: Status, a: u32, b: u32)
    ensures var r := Compare(sr, a, b);
      && (r.n != r.v <==> Signed(a) < Signed(b))
      && (r.c || r.z <==> a <= b)
      && (r.z <==> a == b)
  {}

  /** A comparison leaves the flags of the difference and says whether it borrowed or overflowed. */
  lemma CompareMeans(sr: Status, a: u32, b: u32)
    ensures var r := Compare(sr, a, b);
      var exact := Signed(a) - Signed(b);
      && (r.c <==> a < b) && (r.z <==> a == b) && r.x == sr.x && r.system == sr.system
      && (r.v <==> !(-0x8000_0000 <= exact < 0x8000_0000))
      && (r.n <==> (exact < 0) != r.v)
  {}

  /** So does an addition, of the sum, and X follows C. */
  lemma AddMeans(sr: Status, a: u32, b: u32)
    ensures var r := Add(sr, a, b);
      var exact := Signed(a) + Signed(b);
      && r.c == r.x == (a as int + b >= 0x1_0000_0000) && (r.z <==> Wrap(a as int + b) == 0)
      && r.system == sr.system
      && (r.v <==> !(-0x8000_0000 <= exact < 0x8000_0000))
      && (r.n <==> (exact < 0) != r.v)
  {}

  // ----- the reference: one operation on the live CPU -----

  function Global(a6: u32, offset: int): u32 { Wrap((a6 as int) - offset) }

  function Pushed(sp: u32, n: int): u32 { Wrap((sp as int) - n) }

  function Saved(a5: u32, n: int): u32 { Wrap((a5 as int) - n) }

  /** The operands of an operation are plain RAM. */
  predicate InReach(op: nat, r: DrawRegisters) {
    match op
    case 0 => RamRange(Pushed(r.sp, 4), 4)
    case 1 => RamRange(Pushed(r.sp, 16), 16)
    case 7 => RamRange(Global(r.a6, 0x6E52), 4)
    case 8 => RamRange(Global(r.a6, 0x6E4E), 4)
    case 10 => RamRange(Global(r.a6, 0x6E4E), 4)
    case 11 => RamRange(Wrap(r.a0 as int + 4), 4)
    case 12 => RamRange(Global(r.a6, 0x6E4E), 4)
    case 13 => RamRange(r.a0, 4)
    case 14 => RamRange(Pushed(r.sp, 4), 4)
    case 15 => RamRange(Global(r.a6, 0x6E4E), 4)
    case 16 => RamRange(Global(r.a6, 0x6E4E), 4)
    case 17 => RamRange(Global(r.a6, 0x6E56), 4)
    case 19 => RamRange(Global(r.a6, 0x6E5A), 16)
    case 24 => RamRange(Global(r.a6, 0x6E5A), 16)
    case 25 => RamRange(Global(r.a6, 0x6E5A), 16)
    case 26 => RamRange(Saved(r.a5, 12), 12)
    case 27 => RamRange(r.a5, 4)
    case _ => true
  }

  function Load(ram: Memory, a: u32): u32 { if InRam(a, 4) then Read32(ram, a) else 0 }

  function Store(ram: Memory, a: u32, v: u32): Memory { if InRam(a, 4) then Write32(ram, a, v) else ram }

  /** The RAM an operation leaves, addressed by the live registers. */
  function Stored(base: u32, op: nat, r: DrawRegisters, ram: Memory): Memory {
    match op
    case 0 => Store(ram, Pushed(r.sp, 4), r.a5)
    case 1 =>
      var two := Store(Store(ram, Pushed(r.sp, 4), r.a0), Pushed(r.sp, 8), r.d5);
      Store(Store(two, Pushed(r.sp, 12), r.d4), Pushed(r.sp, 16), r.d0)
    case 14 => Store(ram, Pushed(r.sp, 4), Wrap(base as int + 0x1_7044))
    case 15 => Store(ram, Global(r.a6, 0x6E4E), Wrap(Load(ram, Global(r.a6, 0x6E4E)) as int + 8))
    case 19 => Store(ram, Global(r.a6, 0x6E4E), Load(ram, Global(r.a6, 0x6E5A)))
    case 24 => Store(ram, Global(r.a6, 0x6E52), Load(ram, Global(r.a6, 0x6E5A)))
    case 25 => Store(ram, Global(r.a6, 0x6E4E), Load(ram, Global(r.a6, 0x6E5A)))
    case _ => ram
  }

  /** The registers an operation leaves. */
  function Changed(op: nat, r: DrawRegisters, ram: Memory): DrawRegisters {
    match op
    case 0 => r.(sp := Pushed(r.sp, 4), a5 := Pushed(r.sp, 4))                        // LINK A5,#0
    case 1 => r.(sp := Pushed(r.sp, 16))                                              // MOVEM.L D0/D4-D5/A0,-(SP)
    case 2 => r.(d4 := r.d0, sr := Logic(r.sr, r.d0))                                 // MOVE.L D0,D4
    case 3 => r.(sr := Logic(r.sr, r.d4))                                             // TST.L D4
    case 5 => r.(d5 := 0, sr := Logic(r.sr, 0))                                       // MOVEQ #0,D5
    // MOVE.L tail,D0
    case 7 => var v := Load(ram, Global(r.a6, 0x6E52)); r.(d0 := v, sr := Logic(r.sr, v))
    case 8 => r.(sr := Compare(r.sr, r.d0, Load(ram, Global(r.a6, 0x6E4E))))          // CMP.L head,D0
    case 10 => r.(a0 := Load(ram, Global(r.a6, 0x6E4E)))                              // MOVEA.L head,A0
    // MOVE.L 4(A0),D0
    case 11 => var v := Load(ram, Wrap(r.a0 as int + 4)); r.(d0 := v, sr := Logic(r.sr, v))
    case 12 => r.(a0 := Load(ram, Global(r.a6, 0x6E4E)))                              // MOVEA.L head,A0
    case 13 => r.(a0 := Load(ram, r.a0))                                              // MOVEA.L (A0),A0
    case 14 => r.(sp := Pushed(r.sp, 4))                                              // JSR (A0)
    case 15 => r.(sr := Add(r.sr, Load(ram, Global(r.a6, 0x6E4E)), 8))                // ADDQ.L #8,head
    // MOVE.L head,D0
    case 16 => var v := Load(ram, Global(r.a6, 0x6E4E)); r.(d0 := v, sr := Logic(r.sr, v))
    case 17 => r.(sr := Compare(r.sr, r.d0, Load(ram, Global(r.a6, 0x6E56))))         // CMP.L limit,D0
    case 19 => r.(sr := Logic(r.sr, Load(ram, Global(r.a6, 0x6E5A))))                 // MOVE.L start,head
    case 20 => r.(d5 := Wrap(r.d5 as int + 1), sr := Add(r.sr, r.d5, 1))              // ADDQ.L #1,D5
    case 21 => r.(sr := Compare(r.sr, r.d5, r.d4))                                    // CMP.L D4,D5
    case 24 => r.(sr := Logic(r.sr, Load(ram, Global(r.a6, 0x6E5A))))                 // MOVE.L start,tail
    case 25 => r.(sr := Logic(r.sr, Load(ram, Global(r.a6, 0x6E5A))))                 // MOVE.L start,head
    // MOVEM.L -12(A5),D4-D5/A0
    case 26 => r.(d4 := Load(ram, Saved(r.a5, 12)), d5 := Load(ram, Saved(r.a5, 8)), a0 := Load(ram, Saved(r.a5, 4)))
    case 27 => r.(sp := Wrap(r.a5 as int + 4), a5 := Load(ram, r.a5))                 // UNLK A5
    case _ => r                                                                       // branches, RTS
  }

  /** Where control goes, by the condition codes. */
  function Successor(op: nat, sr: Status): (next: nat)
    ensures op < 29 ==> next <= 29
  {
    match op
    case 4 => if sr.z then 24 else 5              // BEQ
    case 6 => 21                                  // BRA
    case 9 => if sr.z then 20 else 10             // BEQ
    case 18 => if sr.c || sr.z then 20 else 19    // BLS
    case 22 => if sr.n != sr.v then 7 else 23     // BLT
    case 23 => 26                                 // BRA
    case _ => op + 1
  }

  // ----- the world around the job -----

  /** A callback hands the CPU back, or never comes back to the job. */
  datatype Answer = Gone(m: DrawMachine) | Back(m: DrawMachine, popped: bool)

  /** At every operation count: the pending interrupt level (0: none), the invalidation and
      observation epochs, what devices do to RAM, whether a debugger asks for the CPU, and what
      a callback does. Whether the binding's token passes depends on the epoch and the address. */
  datatype World = World(
    irq: nat -> nat, epoch: nat -> nat, valid: (nat, u32) -> bool, observed: nat -> nat, allowed: nat -> bool,
    devices: (nat, Memory) -> Memory, inspects: nat -> bool,
    callback: (nat, DrawMachine) -> Answer, elsewhere: u32 -> u32)

  /** In this epoch the token passes at every operation of the routine. */
  ghost predicate Passes(w: World, base: u32, epoch: nat) {
    forall op :: 0 <= op < 29 ==> w.valid(epoch, OpPc(base, op))
  }

  /** The routine lies inside one binding, at even addresses: where the token passes at one of its
      operations, it passes at all. */
  ghost predicate Uniform(w: World, base: u32) {
    forall epoch, op :: 0 <= op < 29 && w.valid(epoch, OpPc(base, op)) ==> Passes(w, base, epoch)
  }

  datatype Outcome =
    | Running(op: nat, m: DrawMachine)
    | Finished(m: DrawMachine)
    | Left(m: DrawMachine)
    | Redirected(m: DrawMachine, target: nat)
    | Unmapped

  function At(base: u32, op: nat, m: DrawMachine): DrawMachine {
    if op < 29 then m.(pc := OpPc(base, op)) else m
  }

  /** What follows an operation: the next one, a callback and then the next one, or the end. */
  function Follow(w: World, base: u32, n: nat, op: nat, m: DrawMachine): Outcome {
    if op == 14 then
      match w.callback(n, m)
      case Gone(left) => Left(left)
      case Back(b, popped) =>
        if popped then Running(15, At(base, 15, b))
        else
          var target := Peek(w.elsewhere, b.ram, b.r.sp);
          var after := b.(r := b.r.(sp := Wrap(b.r.sp as int + 4)));
          if target % 0x100_0000 != Wrap(base as int + 0x1_7044) then Redirected(after, target % 0x100_0000)
          else Running(15, At(base, 15, after))
    else
      var next := Successor(op, m.r.sr);
      if next >= 29 then Finished(m) else Running(next, At(base, next, m))
  }

  function Executed(w: World, base: u32, n: nat, op: nat, m: DrawMachine): DrawMachine {
    m.(r := Changed(op, m.r, m.ram), ram := w.devices(n, Stored(base, op, m.r, m.ram)))
  }

  function Step(w: World, base: u32, n: nat, o: Outcome): Outcome {
    if o.Running? then
      if InReach(o.op, o.m.r) then Follow(w, base, n, o.op, Executed(w, base, n, o.op, o.m)) else Unmapped
    else o
  }

  /** The routine run one operation at a time, n operations from its entry. */
  function Trace(w: World, base: u32, m: DrawMachine, n: nat): Outcome {
    if n == 0 then Running(0, At(base, 0, m)) else Step(w, base, n - 1, Trace(w, base, m, n - 1))
  }

  // ----- prefix and finish -----

  /** One replayed operation: no memory access, only what was read. */
  function Replayed(op: nat, read: Reads, s: DrawRegisters): (r: DrawRegisters)
    ensures r.a6 == s.a6 && r.sr.system == s.sr.system
  {
    match op
    case 0 => s.(sp := Wrap((s.sp as int) - 4), a5 := Wrap((s.sp as int) - 4))
    case 1 => s.(sp := Wrap((s.sp as int) - 16))
    case 2 => s.(d4 := s.d0, sr := Logic(s.sr, s.d0))
    case 3 => s.(sr := Logic(s.sr, s.d4))
    case 5 => s.(d5 := 0, sr := Logic(s.sr, 0))
    case 7 => s.(d0 := read[0], sr := Logic(s.sr, read[0]))
    case 8 => s.(sr := Compare(s.sr, s.d0, read[1]))
    case 10 => s.(a0 := read[0])
    case 11 => s.(d0 := read[1], sr := Logic(s.sr, read[1]))
    case 12 => s.(a0 := read[2])
    case 13 => s.(a0 := read[3])
    case 14 => s.(sp := Wrap((s.sp as int) - 4))
    case 15 => s.(sr := Add(s.sr, Wrap((read[0] as int) - 8), 8))
    case 16 => s.(d0 := read[1], sr := Logic(s.sr, read[1]))
    case 17 => s.(sr := Compare(s.sr, s.d0, read[2]))
    case 19 => s.(sr := Logic(s.sr, read[3]))
    case 20 => s.(sr := Add(s.sr, s.d5, 1), d5 := Wrap(s.d5 as int + 1))
    case 21 => s.(sr := Compare(s.sr, s.d5, s.d4))
    case 24 => s.(sr := Logic(s.sr, read[0]))
    case 25 => s.(sr := Logic(s.sr, read[1]))
    case 26 => s.(d4 := read[0], d5 := read[1], a0 := read[2])
    case 27 => s.(sp := Wrap(s.a5 as int + 4), a5 := read[3])
    case _ => s
  }

  function Replay(f: Flight, completed: nat): DrawRegisters {
    if completed == 0 then f.before else Replayed(f.first + completed - 1, f.read, Replay(f, completed - 1))
  }

  /** prefix: the CPU at an operation frontier, whatever the CPU left behind holds. */
  method Prefix(f: Flight, completed: nat, pc: u32, cpu: DrawMachine) returns (s: DrawMachine)
    ensures s == cpu.(r := Replay(f, completed), pc := pc)
  {
    s := cpu.(r := f.before);
    var i := 0;
    while i < completed
      invariant i <= completed && s == cpu.(r := Replay(f, i))
    {
      s := s.(r := Replayed(f.first + i, f.read, s.r));
      i := i + 1;
    }
    s := s.(pc := pc);
  }

  /** The segments cdi_drawing_dispatch runs; (15, 4) is (15, 5) cut short. */
  predicate Shape(first: nat, count: nat) {
    (first, count) in {(0, 5), (24, 2), (0, 7), (21, 2), (7, 3), (10, 5), (15, 5), (15, 4), (20, 3), (23, 1), (26, 3)}
  }

  /** finish: only what the segment changed, written over the CPU left behind. */
  function Finish(f: Flight, s: DrawRegisters): DrawRegisters {
    match f.first
    case 0 =>
      var t := s.(a5 := Wrap((f.before.sp as int) - 4), sp := Wrap((f.before.sp as int) - 20), d4 := f.before.d0);
      if f.count == 7 then t.(d5 := 0, sr := Logic(t.sr, 0)) else t.(sr := Logic(t.sr, t.d4))
    case 7 => s.(d0 := f.read[0], sr := Compare(s.sr, f.read[0], f.read[1]))
    case 10 => s.(d0 := f.read[1], a0 := f.read[3], sp := Wrap((f.before.sp as int) - 4), sr := Logic(s.sr, f.read[1]))
    case 15 =>
      var sr := s.sr.(x := f.read[0] < 8);
      s.(d0 := f.read[1], sr := if f.count == 5 then Logic(sr, f.read[3]) else Compare(sr, f.read[1], f.read[2]))
    case 20 =>
      var d5 := Wrap(f.before.d5 as int + 1);
      s.(d5 := d5, sr := Compare(s.sr.(x := f.before.d5 == LIMIT - 1), d5, s.d4))
    case 21 => s.(sr := Compare(s.sr, s.d5, s.d4))
    case 24 => s.(sr := Logic(s.sr, f.read[1]))
    case 26 =>
      s.(d4 := f.read[0], d5 := f.read[1], a0 := f.read[2], sp := Wrap(f.before.a5 as int + 4), a5 := f.read[3])
    case _ => s
  }

  // ----- finish is the whole prefix -----

  /** No replayed operation touches the interrupt mask or the queue's base register. */
  lemma {:induction false} SystemKept(f: Flight, n: nat)
    ensures Replay(f, n).sr.system == f.before.sr.system && Replay(f, n).a6 == f.before.a6
  {
    hide Replayed;
    if n > 0 { SystemKept(f, n - 1); }
  }

  lemma AbsorbsEntry(f: Flight, i: nat, s: DrawRegisters)
    requires Shape(f.first, f.count) && i < f.count && f.first == 0
    ensures Finish(f, Replayed(f.first + i, f.read, s)) == Finish(f, s)
  {
    hide Wrap, Negative;
  }

  lemma AbsorbsQueue(f: Flight, i: nat, s: DrawRegisters)
    requires Shape(f.first, f.count) && i < f.count && f.first in {7, 10}
    ensures Finish(f, Replayed(f.first + i, f.read, s)) == Finish(f, s)
  {
    hide Wrap, Negative;
  }

  lemma AbsorbsRetire(f: Flight, i: nat, s: DrawRegisters)
    requires Shape(f.first, f.count) && i < f.count && f.first == 15
    ensures Finish(f, Replayed(f.first + i, f.read, s)) == Finish(f, s)
  {
    hide Wrap, Negative;
  }

  lemma AbsorbsRound(f: Flight, i: nat, s: DrawRegisters)
    requires Shape(f.first, f.count) && i < f.count && f.first in {20, 21}
    ensures Finish(f, Replayed(f.first + i, f.read, s)) == Finish(f, s)
  {
    hide Wrap, Negative;
  }

  lemma AbsorbsRest(f: Flight, i: nat, s: DrawRegisters)
    requires Shape(f.first, f.count) && i < f.count && f.first in {23, 24, 26}
    ensures Finish(f, Replayed(f.first + i, f.read, s)) == Finish(f, s)
  {
    hide Wrap, Negative;
  }

  /** Publication does not care whether one of the segment's operations has been replayed. */
  lemma FinishAbsorbs(f: Flight, i: nat, s: DrawRegisters)
    requires Shape(f.first, f.count) && i < f.count
    ensures Finish(f, Replayed(f.first + i, f.read, s)) == Finish(f, s)
  {
    hide Replayed, Finish;
    match f.first
    case 0 => AbsorbsEntry(f, i, s);
    case 7 => AbsorbsQueue(f, i, s);
    case 10 => AbsorbsQueue(f, i, s);
    case 15 => AbsorbsRetire(f, i, s);
    case 20 => AbsorbsRound(f, i, s);
    case 21 => AbsorbsRound(f, i, s);
    case _ => AbsorbsRest(f, i, s);
  }

  lemma FewReplays(f: Flight)
    ensures Replay(f, 1) == Replayed(f.first, f.read, f.before)
    ensures Replay(f, 2) == Replayed(f.first + 1, f.read, Replay(f, 1))
    ensures Replay(f, 3) == Replayed(f.first + 2, f.read, Replay(f, 2))
    ensures Replay(f, 4) == Replayed(f.first + 3, f.read, Replay(f, 3))
    ensures Replay(f, 5) == Replayed(f.first + 4, f.read, Replay(f, 4))
    ensures Replay(f, 6) == Replayed(f.first + 5, f.read, Replay(f, 5))
    ensures Replay(f, 7) == Replayed(f.first + 6, f.read, Replay(f, 6))
  {
    hide Replayed;
  }

  lemma FinishEntry(f: Flight)
    requires Shape(f.first, f.count) && f.first == 0
    ensures Finish(f, f.before) == Replay(f, f.count)
  {
    hide Replay, Logic, Wrap;
    FewReplays(f);
    PushedTwice(f.before.sp);
    FlagsSettle(Replay(f, 3).sr, f.before.sr);
    FlagsSettle(Replay(f, 4).sr, f.before.sr);
    FlagsSettle(Replay(f, 5).sr, f.before.sr);
  }

  lemma PushedTwice(sp: u32)
    ensures Wrap((Wrap((sp as int) - 4) as int) - 16) == Wrap((sp as int) - 20)
  {}

  lemma FinishLook(f: Flight)
    requires Shape(f.first, f.count) && f.first == 7
    ensures Finish(f, f.before) == Replay(f, f.count)
  {
    hide Replay, Negative;
    FewReplays(f);
  }

  lemma FinishFetch(f: Flight)
    requires Shape(f.first, f.count) && f.first == 10
    ensures Finish(f, f.before) == Replay(f, f.count)
  {
    hide Replay, Negative;
    FewReplays(f);
  }

  lemma FinishRetire(f: Flight)
    requires Shape(f.first, f.count) && f.first == 15
    ensures Finish(f, f.before) == Replay(f, f.count)
  {
    hide Replay, Logic, Compare, Add;
    FewReplays(f);
    AddCarries(f.before.sr, f.read[0]);
    var added := Replay(f, 1).sr;
    var x := f.before.sr.(x := f.read[0] < 8);
    FlagsSettle(added, x);
    FlagsSettle(Replay(f, 2).sr, x);
    FlagsSettle(Replay(f, 3).sr, x);
  }

  /** The carry of the addition, seen from its sum. */
  lemma AddCarries(sr: Status, sum: u32)
    ensures Add(sr, Wrap((sum as int) - 8), 8).x == (sum < 8)
  {}

  /** Moves and comparisons overwrite every condition code but X. */
  lemma FlagsSettle(sr: Status, t: Status)
    requires sr.system == t.system && sr.x == t.x
    ensures forall v :: Logic(sr, v) == Logic(t, v)
    ensures forall a: u32, b: u32 :: Compare(sr, a, b) == Compare(t, a, b)
  {
    hide Negative, Wrap;
  }

  lemma FinishRound(f: Flight)
    requires Shape(f.first, f.count) && f.first == 20
    ensures Finish(f, f.before) == Replay(f, f.count)
  {
    hide Replay, Negative;
    FewReplays(f);
  }

  lemma FinishRest(f: Flight)
    requires Shape(f.first, f.count) && f.first in {21, 23, 24, 26}
    ensures Finish(f, f.before) == Replay(f, f.count)
  {
    hide Replay, Negative;
    FewReplays(f);
  }

  lemma FinishFromStart(f: Flight)
    requires Shape(f.first, f.count)
    ensures Finish(f, f.before) == Replay(f, f.count)
  {
    hide Replay, Finish;
    match f.first
    case 0 => FinishEntry(f);
    case 7 => FinishLook(f);
    case 10 => FinishFetch(f);
    case 15 => FinishRetire(f);
    case 20 => FinishRound(f);
    case _ => FinishRest(f);
  }

  /** The direct publication of a completed segment is the replay of all its operations, even
      over a CPU that a debugger had rebuilt at any earlier frontier. */
  lemma {:induction false} FinishIsReplay(f: Flight, k: nat)
    requires Shape(f.first, f.count) && k <= f.count
    ensures Finish(f, Replay(f, k)) == Replay(f, f.count)
  {
    hide Replayed, Finish;
    if k == 0 {
      FinishFromStart(f);
    } else {
      FinishIsReplay(f, k - 1);
      FinishAbsorbs(f, k - 1, Replay(f, k - 1));
    }
  }

  // ----- reads and writes of a segment -----

  datatype Access = Refused | Accessed(read: Reads, ram: Memory)

  /** memory_action: addresses come from the registers at the segment's start and from
      earlier reads, never from the live CPU. */
  function Action(base: u32, f: Flight, op: nat, ram: Memory): Access {
    var b, r := f.before, f.read;
    match op
    case 0 => if !RamRange(Pushed(b.sp, 4), 4) then Refused else Accessed(r, Store(ram, Pushed(b.sp, 4), b.a5))
    case 1 =>
      if !RamRange(Pushed(b.sp, 20), 16) then Refused
      else
        var two := Store(Store(ram, Pushed(b.sp, 8), b.a0), Pushed(b.sp, 12), b.d5);
        Accessed(r, Store(Store(two, Pushed(b.sp, 16), b.d4), Pushed(b.sp, 20), b.d0))
    case 7 => Fetched(f, 0, Global(b.a6, 0x6E52), ram)
    case 8 => Fetched(f, 1, Global(b.a6, 0x6E4E), ram)
    case 10 => Fetched(f, 0, Global(b.a6, 0x6E4E), ram)
    case 11 => Fetched(f, 1, Wrap(r[0] as int + 4), ram)
    case 12 => Fetched(f, 2, Global(b.a6, 0x6E4E), ram)
    case 13 => Fetched(f, 3, r[2], ram)
    case 14 =>
      if !RamRange(Pushed(b.sp, 4), 4) then Refused
      else Accessed(r, Store(ram, Pushed(b.sp, 4), Wrap(base as int + 0x1_7044)))
    case 15 =>
      if !RamRange(Global(b.a6, 0x6E4E), 4) then Refused
      else
        var v := Wrap(Load(ram, Global(b.a6, 0x6E4E)) as int + 8);
        Accessed(r[0 := v], Store(ram, Global(b.a6, 0x6E4E), v))
    case 16 => Fetched(f, 1, Global(b.a6, 0x6E4E), ram)
    case 17 => Fetched(f, 2, Global(b.a6, 0x6E56), ram)
    case 19 => Copied(f, 3, 0x6E4E, ram)
    case 24 => Copied(f, 0, 0x6E52, ram)
    case 25 => Copied(f, 1, 0x6E4E, ram)
    case 26 =>
      if !RamRange(Saved(b.a5, 12), 12) then Refused
      else
        var d4, d5, a0 := Load(ram, Saved(b.a5, 12)), Load(ram, Saved(b.a5, 8)), Load(ram, Saved(b.a5, 4));
        Accessed(r[0 := d4][1 := d5][2 := a0], ram)
    case 27 => Fetched(f, 3, b.a5, ram)
    case _ => Accessed(r, ram)
  }

  function Fetched(f: Flight, slot: nat, a: u32, ram: Memory): Access
    requires slot < 4
  {
    if RamRange(a, 4) then Accessed(f.read[slot := Load(ram, a)], ram) else Refused
  }

  /** The ring's start address copied into one of its pointers. */
  function Copied(f: Flight, slot: nat, to: nat, ram: Memory): Access
    requires slot < 4
  {
    if !RamRange(Global(f.before.a6, 0x6E5A), 16) then Refused
    else
      var v := Load(ram, Global(f.before.a6, 0x6E5A));
      Accessed(f.read[slot := v], Store(ram, Global(f.before.a6, to), v))
  }

  /** How the live CPU before operation `op` looks from the segment's start. */
  predicate LiveAt(op: nat, b: DrawRegisters, read: Reads, r: DrawRegisters) {
    && r.a6 == b.a6
    && (op == 0 ==> r == b)
    && (op == 1 ==> r.sp == Pushed(b.sp, 4) && r.a0 == b.a0 && r.d5 == b.d5 && r.d4 == b.d4 && r.d0 == b.d0)
    && (op == 11 ==> r.a0 == read[0])
    && (op == 13 ==> r.a0 == read[2])
    && (op == 14 ==> r.sp == b.sp)
    && (op == 26 || op == 27 ==> r.a5 == b.a5)
    && (op == 4 ==> (r.sr.z <==> b.d0 == 0))
    && (op == 18 ==> (r.sr.c || r.sr.z <==> read[1] <= read[2]))
    && (op == 22 ==> (r.sr.n != r.sr.v <==> Signed(r.d5) < Signed(r.d4)))
  }

  lemma LiveHolds(f: Flight, i: nat)
    requires Shape(f.first, f.count) && i < f.count
    ensures LiveAt(f.first + i, f.before, f.read, Replay(f, i))
  {
    hide Replay, Replayed, Signed, Pushed;
    SystemKept(f, i);
    ReplayNone(f);
    match f.first
    case 0 => LiveEntry(f);
    case 10 => LiveQueue(f);
    case 15 => LiveRetire(f);
    case 26 => LiveReturn(f);
    case _ => if f.first + i == 22 { LiveRound(f, i); }
  }

  lemma LiveEntry(f: Flight)
    requires f.first == 0
    ensures LiveAt(1, f.before, f.read, Replay(f, 1)) && LiveAt(4, f.before, f.read, Replay(f, 4))
  {
    hide Replay, Signed, Compare, Wrap;
    FewReplays(f);
    SystemKept(f, 1);
    SystemKept(f, 4);
  }

  lemma LiveQueue(f: Flight)
    requires f.first == 10
    ensures Replay(f, 1).a0 == f.read[0] && Replay(f, 3).a0 == f.read[2] && Replay(f, 4).sp == f.before.sp
  {
    hide Replay, Logic, Wrap;
    FewReplays(f);
  }

  lemma LiveReturn(f: Flight)
    requires f.first == 26
    ensures Replay(f, 1).a5 == f.before.a5
  {
    hide Replay, Wrap;
    FewReplays(f);
  }

  lemma ReplayNone(f: Flight)
    ensures Replay(f, 0) == f.before
  {}

  lemma LiveRetire(f: Flight)
    requires f.first == 15
    ensures var r := Replay(f, 3); r.sr.c || r.sr.z <==> f.read[1] <= f.read[2]
  {
    hide Replay, Compare, Logic, Add;
    FewReplays(f);
    CompareDecides(Replay(f, 2).sr, f.read[1], f.read[2]);
  }

  lemma LiveRound(f: Flight, i: nat)
    requires f.first + i == 22 && 0 < i
    ensures var r := Replay(f, i); r.sr.n != r.sr.v <==> Signed(r.d5) < Signed(r.d4)
  {
    hide Compare, Logic, Add, Signed;
    var s := Replay(f, i - 1);
    CompareDecides(s.sr, s.d5, s.d4);
  }

  /** One operation of a segment, done from the segment's start, is that operation done on the
      live CPU: it refuses the same operands, writes the same bytes and, replayed from what it
      read, leaves the same registers. */
  ghost predicate Agrees(base: u32, f: Flight, op: nat, r: DrawRegisters, ram: Memory) {
    var act := Action(base, f, op, ram);
    && (act.Accessed? <==> InReach(op, r))
    && (act.Accessed? ==>
      && act.ram == Stored(base, op, r, ram)
      && Replayed(op, act.read, r) == Changed(op, r, ram)
      && (forall j :: 0 <= j < Base(op) ==> act.read[j] == f.read[j]))
  }

  lemma AgreesEntry(base: u32, f: Flight, op: nat, r: DrawRegisters, ram: Memory)
    requires LiveAt(op, f.before, f.read, r) && op in {0, 1, 14}
    ensures Agrees(base, f, op, r, ram)
  {
    hide Load, Store, Logic, InRam, Wrap, Signed;
    PushedAgain(f.before.sp);
  }

  lemma AgreesQueue(base: u32, f: Flight, op: nat, r: DrawRegisters, ram: Memory)
    requires LiveAt(op, f.before, f.read, r) && op in {7, 8, 10, 11, 12, 13}
    ensures Agrees(base, f, op, r, ram)
  {
    hide Load, Store, Logic, Compare, InRam, Global, Wrap, Signed;
  }

  lemma AgreesRetire(base: u32, f: Flight, op: nat, r: DrawRegisters, ram: Memory)
    requires LiveAt(op, f.before, f.read, r) && op in {15, 16, 17, 19}
    ensures Agrees(base, f, op, r, ram)
  {
    hide Load, Store, Logic, Compare, Add, InRam, Global, Wrap, Signed;
    AddedBack(Load(ram, Global(r.a6, 0x6E4E)));
  }

  lemma AgreesReturn(base: u32, f: Flight, op: nat, r: DrawRegisters, ram: Memory)
    requires LiveAt(op, f.before, f.read, r) && op in {24, 25, 26, 27}
    ensures Agrees(base, f, op, r, ram)
  {
    hide Load, Store, Logic, InRam, Global, Saved, Wrap, Signed;
  }

  lemma AgreesPlain(base: u32, f: Flight, op: nat, r: DrawRegisters, ram: Memory)
    requires LiveAt(op, f.before, f.read, r) && op !in {0, 1, 14, 7, 8, 10, 11, 12, 13, 15, 16, 17, 19, 24, 25, 26, 27}
    ensures Agrees(base, f, op, r, ram)
  {
    hide Logic, Compare, Add, Wrap, Signed;
  }

  lemma PushedAgain(sp: u32)
    ensures forall n: nat :: n <= 16 ==> Pushed(Pushed(sp, 4), n) == Pushed(sp, n + 4)
  {}

  lemma AddedBack(v: u32)
    ensures Wrap((Wrap(v as int + 8) as int) - 8) == v
  {}

  lemma ActionIsLive(base: u32, f: Flight, op: nat, r: DrawRegisters, ram: Memory)
    requires LiveAt(op, f.before, f.read, r)
    ensures Agrees(base, f, op, r, ram)
  {
    hide LiveAt, Agrees;
    if op in {0, 1, 14} {
      AgreesEntry(base, f, op, r, ram);
    } else if op in {7, 8, 10, 11, 12, 13} {
      AgreesQueue(base, f, op, r, ram);
    } else if op in {15, 16, 17, 19} {
      AgreesRetire(base, f, op, r, ram);
    } else if op in {24, 25, 26, 27} {
      AgreesReturn(base, f, op, r, ram);
    } else {
      AgreesPlain(base, f, op, r, ram);
    }
  }

  /** Reads are kept in slots, each later operation of a segment in a later slot. */
  function Base(op: nat): nat {
    match op
    case 7 => 0
    case 8 => 1
    case 10 => 0
    case 11 => 1
    case 12 => 2
    case 13 => 3
    case 15 => 0
    case 16 => 1
    case 17 => 2
    case 19 => 3
    case 24 => 0
    case 25 => 1
    case 26 => 0
    case 27 => 3
    case _ => 4
  }

  /** An operation looks only at slots below this one. */
  function Top(op: nat): nat {
    if Base(op) == 4 then 0 else if op == 26 then 3 else Base(op) + 1
  }

  lemma LaterSlots(first: nat, count: nat, i: nat)
    requires Shape(first, count) && i < count
    ensures forall op :: first <= op < first + i ==> Top(op) <= Base(first + i)
  {}

  lemma ReplayedFrame(op: nat, read: Reads, other: Reads, s: DrawRegisters)
    requires forall k :: 0 <= k < Top(op) ==> read[k] == other[k]
    ensures Replayed(op, read, s) == Replayed(op, other, s)
  {
    hide Logic, Compare, Add, Wrap;
  }

  /** A replay looks only at what its own operations read. */
  lemma {:induction false} ReplayFrame(f: Flight, g: Flight, i: nat, slots: nat)
    requires g.before == f.before && g.first == f.first && slots <= 4
    requires forall k :: 0 <= k < slots ==> f.read[k] == g.read[k]
    requires forall op :: f.first <= op < f.first + i ==> Top(op) <= slots
    ensures Replay(f, i) == Replay(g, i)
  {
    hide Replayed, Top;
    if i > 0 {
      ReplayFrame(f, g, i - 1, slots);
      ReplayedFrame(f.first + i - 1, f.read, g.read, Replay(f, i - 1));
    }
  }

  // ----- the job -----

  /** How a job ends: at its RTS, at a frontier that demands the CPU, with a callback that did not
      come back to it, or after the rounds this run is given. */
  datatype Exit = Done | Invalidated | Fallback | Interrupted | Gone | Redirect(target: nat) | OutOfRounds

  /** Frontier k of the reference run gives the job no reason to stop. */
  ghost predicate Quiet(w: World, base: u32, start: DrawMachine, k: nat) {
    var o := Trace(w, base, start, k);
    && w.allowed(w.observed(k))
    && o.Running? && w.valid(w.epoch(k), o.m.pc) && !IrqReady(w.irq(k), o.m.r.sr) && InReach(o.op, o.m.r)
  }

  ghost predicate Undisturbed(w: World, base: u32, start: DrawMachine, n: nat) {
    forall k :: 0 <= k < n ==> Quiet(w, base, start, k)
  }

  /** Why a job stopped at frontier n, where the reference run holds the same machine. */
  ghost predicate Justified(w: World, base: u32, start: DrawMachine, n: nat, m: DrawMachine, exit: Exit) {
    var o := Trace(w, base, start, n);
    && o.Running? && o.m == m
    && match exit
       case Invalidated => !w.valid(w.epoch(n), m.pc)
       case Fallback => !w.allowed(w.observed(n)) || !InReach(o.op, m.r)
       case Interrupted => IrqReady(w.irq(n), m.r.sr)
       case _ => true
  }

  class Job {
    /** The CPU as others see it: left behind while a segment is in flight. */
    var cpu: DrawMachine
    var epoch: nat
    var observed: nat
    /** Operations completed. */
    var n: nat

    constructor (cpu: DrawMachine, epoch: nat, observed: nat)
      ensures this.cpu == cpu && this.epoch == epoch && this.observed == observed && n == 0
    {
      this.cpu, this.epoch, this.observed, n := cpu, epoch, observed, 0;
    }

    /** The checks before an operation, made with the CPU left behind. */
    method Frontier(w: World, base: u32, f: Flight, i: nat, ghost k: nat, ghost start: DrawMachine) returns (exit: Exit)
      requires f.first + i < 29 && cpu.r == Replay(f, k) && w.allowed(observed)
      requires Uniform(w, base) && Passes(w, base, epoch)
      requires Trace(w, base, start, n) == Running(f.first + i, At(base, f.first + i, cpu.(r := Replay(f, i))))
      modifies this
      ensures n == old(n) && exit in {Done, Invalidated, Fallback, Interrupted}
      ensures exit != Done ==> Justified(w, base, start, n, cpu, exit)
      ensures exit == Done ==>
        && cpu == old(cpu).(pc := OpPc(base, f.first + i)) && Passes(w, base, epoch) && w.allowed(observed)
        && w.valid(w.epoch(n), cpu.pc) && w.allowed(w.observed(n)) && !IrqReady(w.irq(n), Replay(f, i).sr)
    {
      hide Replay, Replayed, IrqReady, Trace, OpPc, InReach;
      var pc := OpPc(base, f.first + i);
      cpu := cpu.(pc := pc);
      if epoch != w.epoch(n) {
        epoch := w.epoch(n);
        if !w.valid(epoch, pc) {
          cpu := Prefix(f, i, pc, cpu);
          return Invalidated;
        }
      }
      if observed != w.observed(n) {
        observed := w.observed(n);
        if !w.allowed(observed) {
          cpu := Prefix(f, i, pc, cpu);
          return Fallback;
        }
      }
      MaskIsCurrent(w.irq(n), f, i, k);
      if IrqReady(w.irq(n), cpu.r.sr) {
        cpu := Prefix(f, i, pc, cpu);
        return Interrupted;
      }
      exit := Done;
    }

    /** One operation: its memory accesses, the devices' turn, and perhaps a debugger's look. */
    method Operate(w: World, base: u32, f: Flight, i: nat, ghost k: nat, ghost start: DrawMachine)
      returns (ok: bool, g: Flight, ghost seen: nat)
      requires Shape(f.first, f.count) && k <= i < f.count && cpu.r == Replay(f, k) && cpu.pc == OpPc(base, f.first + i)
      requires Trace(w, base, start, n) == Running(f.first + i, cpu.(r := Replay(f, i)))
      requires Undisturbed(w, base, start, n)
      requires w.valid(w.epoch(n), cpu.pc) && w.allowed(w.observed(n)) && !IrqReady(w.irq(n), Replay(f, i).sr)
      modifies this`cpu, this`n
      ensures Undisturbed(w, base, start, n)
      ensures !ok ==> n == old(n) && Justified(w, base, start, n, cpu, Fallback)
      ensures ok ==>
        && n == old(n) + 1 && g == f.(read := g.read) && seen <= i + 1
        && cpu.r == Replay(g, seen) && cpu.pc == OpPc(base, f.first + i)
        && Trace(w, base, start, n) == Follow(w, base, n - 1, f.first + i, cpu.(r := Replay(g, i + 1)))
    {
      hide Replayed, Action, Changed, Stored, InReach, LiveAt, IrqReady, Follow, Trace, OpPc, Base, Shape;
      var op := f.first + i;
      ok, g, seen := true, f, k;
      LiveHolds(f, i);
      ActionIsLive(base, f, op, Replay(f, i), cpu.ram);
      var act := Action(base, f, op, cpu.ram);
      if act.Refused? {
        cpu := Prefix(f, i, cpu.pc, cpu);
        return false, f, k;
      }
      ghost var live := cpu.(r := Replay(f, i));
      g := f.(read := act.read);
      KeepsEarlier(f, g, i, k);
      TraceNext(w, base, start, n, op, live);
      cpu := cpu.(ram := w.devices(n, act.ram));
      assert Executed(w, base, n, op, live) == cpu.(r := Replay(g, i + 1));
      if w.inspects(n) {
        cpu := Prefix(g, i + 1, cpu.pc, cpu);
        seen := i + 1;
      }
      n := n + 1;
    }

    /** segment: a run of operations published at once. However it ends, the CPU is the one the
        reference run holds at that frontier. */
    method Segment(w: World, base: u32, first: nat, count: nat, scratch: Reads, ghost start: DrawMachine)
      returns (exit: Exit, last: nat)
      requires Shape(first, count) && (first, count) != (15, 4)
      requires (first, count) == (0, 7) ==> cpu.r.d0 != 0
      requires Trace(w, base, start, n) == Running(first, At(base, first, cpu))
      requires Undisturbed(w, base, start, n) && Uniform(w, base) && Passes(w, base, epoch) && w.allowed(observed)
      modifies this
      ensures Undisturbed(w, base, start, n) && n >= old(n)
      ensures exit in {Done, Invalidated, Fallback, Interrupted}
      ensures exit != Done ==> Justified(w, base, start, n, cpu, exit)
      ensures exit == Done ==>
        && n > 0 && last < 29 && Passes(w, base, epoch) && w.allowed(observed)
        && Trace(w, base, start, n) == Follow(w, base, n - 1, last, cpu) && cpu.pc == OpPc(base, last)
        && (last == first + count - 1 || (first == 15 && last == 18))
        && n == old(n) + last - first + 1 && Settled(last, old(cpu).r, cpu.r)
    {
      hide Replay, Replayed, IrqReady, Successor, Finish, Trace, OpPc, Follow, Justified, Settled;
      hide Passes, Uniform, Undisturbed;
      ShapeBounds(first, count);
      var f, i, ok := Flight(cpu.r, scratch, first, count), 0, true;
      ghost var k := 0;
      ReplayNone(f);
      while true
        invariant 0 <= i < count && 0 <= k <= i && n == old(n) + i
        invariant f == Flight(old(cpu).r, f.read, first, count)
        invariant cpu.r == Replay(f, k) && Passes(w, base, epoch) && w.allowed(observed)
        invariant Undisturbed(w, base, start, n)
        invariant Trace(w, base, start, n) == Running(first + i, At(base, first + i, cpu.(r := Replay(f, i))))
        decreases count - i
      {
        last := first + i;
        exit := Frontier(w, base, f, i, k, start);
        if exit != Done { return; }
        ok, f, k := Operate(w, base, f, i, k, start);
        if !ok { return Fallback, last; }
        i := i + 1;
        if first == 15 && last == 18 && f.read[1] <= f.read[2] {
          f := f.(count := 4);
          break;
        }
        if i == count { break; }
        FallsThrough(w, base, n - 1, f, i, cpu.(r := Replay(f, i)));
      }
      CountIrrelevant(f, count, i, k);
      FinishIsReplay(f, k);
      Settles(f);
      cpu := cpu.(r := Finish(f, cpu.r));
      exit := Done;
    }

    /** The callback, and the return address it must leave. */
    method Callback(w: World, base: u32, ghost start: DrawMachine) returns (exit: Exit)
      requires n > 0 && Trace(w, base, start, n) == Follow(w, base, n - 1, 14, cpu)
      modifies this`cpu
      ensures exit == Done || exit == Exit.Gone || exit.Redirect?
      ensures exit == Done ==> Trace(w, base, start, n) == Running(15, At(base, 15, cpu))
      ensures exit != Done ==> Ends(Trace(w, base, start, n), cpu, exit)
    {
      hide Trace, OpPc, Peek, Wrap;
      match w.callback(n - 1, cpu)
      case Gone(m) =>
        cpu := m;
        return Exit.Gone;
      case Back(m, popped) =>
        cpu := m;
        if !popped {
          var target := Peek(w.elsewhere, cpu.ram, cpu.r.sp);
          cpu := cpu.(r := cpu.r.(sp := Wrap(cpu.r.sp as int + 4)));
          if target % 0x100_0000 != Wrap(base as int + 0x1_7044) { return Redirect(target % 0x100_0000); }
        }
        return Done;
    }

    /** One turn of the queue loop: look, perhaps call back and retire the entry, count. */
    method Round(w: World, base: u32, scratch: Reads, ghost start: DrawMachine) returns (exit: Exit)
      requires Trace(w, base, start, n) == Running(7, At(base, 7, cpu))
      requires Undisturbed(w, base, start, n) && Uniform(w, base) && Passes(w, base, epoch) && w.allowed(observed)
      modifies this
      ensures Undisturbed(w, base, start, n)
      ensures exit == Done ==>
        && n >= old(n) + 6 && Passes(w, base, epoch) && w.allowed(observed)
        && Trace(w, base, start, n) == Follow(w, base, n - 1, 22, cpu) && Settled(22, old(cpu).r, cpu.r)
      ensures exit != Done ==> n >= old(n) && exit != OutOfRounds
      ensures exit != Done ==> Stopped(w, base, start, n, cpu, exit)
    {
      hide Trace, OpPc, Undisturbed, Justified, Quiet, Signed, Ends, Passes, Uniform;
      var last;
      exit, last := Segment(w, base, 7, 3, scratch, start);
      if exit != Done { return; }
      if !cpu.r.sr.z {
        exit, last := Segment(w, base, 10, 5, scratch, start);
        if exit != Done { return; }
        exit := Callback(w, base, start);
        if exit != Done { return; }
        exit, last := Segment(w, base, 15, 5, scratch, start);
        if exit != Done { return; }
      }
      exit, last := Segment(w, base, 20, 3, scratch, start);
    }

    /** From the entry to the common exit. */
    method Body(w: World, base: u32, scratch: Reads, rounds: nat, ghost start: DrawMachine)
      returns (exit: Exit, made: nat)
      requires Trace(w, base, start, n) == Running(0, At(base, 0, cpu))
      requires Undisturbed(w, base, start, n) && Uniform(w, base) && Passes(w, base, epoch) && w.allowed(observed)
      modifies this
      ensures Undisturbed(w, base, start, n)
      ensures exit == Done ==>
        && Passes(w, base, epoch) && w.allowed(observed)
        && Trace(w, base, start, n) == Running(26, At(base, 26, cpu))
      ensures exit != Done ==> Stopped(w, base, start, n, cpu, exit)
      ensures made <= rounds && (made > 0 ==> n >= old(n) + 9 + 6 * made)
      ensures exit == OutOfRounds ==> made == rounds && n >= old(n) + 9 + 6 * made
    {
      hide Trace, OpPc, Undisturbed, Justified, Quiet, Signed, Passes, Uniform;
      made := 0;
      var last;
      if cpu.r.d0 == 0 {
        exit, last := Segment(w, base, 0, 5, scratch, start);
        if exit != Done { return; }
        exit, last := Segment(w, base, 24, 2, scratch, start);
        return;
      }
      exit, last := Segment(w, base, 0, 7, scratch, start);
      if exit != Done { return; }
      exit, last := Segment(w, base, 21, 2, scratch, start);
      if exit != Done { return; }
      while Signed(cpu.r.d5) < Signed(cpu.r.d4)
        invariant Undisturbed(w, base, start, n) && Passes(w, base, epoch) && w.allowed(observed)
        invariant made <= rounds && n >= old(n) + 9 + 6 * made
        invariant Trace(w, base, start, n) == Follow(w, base, n - 1, 22, cpu) && Settled(22, cpu.r, cpu.r)
        decreases rounds - made
      {
        if made >= rounds { return OutOfRounds, made; }
        exit := Round(w, base, scratch, start);
        if exit != Done { return; }
        made := made + 1;
      }
      exit, last := Segment(w, base, 23, 1, scratch, start);
    }

    /** cdi_drawing_dispatch: however the job ends, after any number of rounds, interrupts,
        debugger looks, device writes and callbacks, the CPU and RAM are those of the routine run
        one operation at a time, and it never ran past a frontier that demanded to stop. */
    method Dispatch(w: World, bound: bool, base: u32, scratch: Reads, rounds: nat)
      returns (taken: bool, exit: Exit, made: nat)
      requires n == 0 && Uniform(w, base) && (bound ==> Passes(w, base, w.epoch(0)))
      modifies this
      ensures taken <==> bound && w.allowed(w.observed(0)) && Eligible(w, base, old(cpu))
      ensures !taken ==> cpu == old(cpu)
      ensures taken ==> Undisturbed(w, base, old(cpu), n) && Stopped(w, base, old(cpu), n, cpu, exit)
      ensures taken && exit == Done ==> cpu.pc == OpPc(base, 28)
      ensures taken && exit == OutOfRounds ==> made == rounds && n >= 9 + 6 * made
    {
      hide Trace, OpPc, Undisturbed, Justified, Quiet, Signed, Eligible, Passes, Uniform;
      exit, made := Done, 0;
      observed := w.observed(0);
      var admitted := Admit(w, base);
      if !bound || !w.allowed(observed) || !admitted { return false, exit, made; }
      taken, epoch := true, w.epoch(0);
      TraceStart(w, base, cpu);
      exit, made := Body(w, base, scratch, rounds, cpu);
      if exit != Done { return; }
      var last;
      exit, last := Segment(w, base, 26, 3, scratch, old(cpu));
    }

    /** The entry tests, in the order they are made. */
    method Admit(w: World, base: u32) returns (ok: bool)
      ensures ok <==> Eligible(w, base, cpu)
    {
      hide Read32, Read8;
      var r := cpu.r;
      if r.d0 > 1024 && r.d0 < 0x8000_0000 { return false; }
      var stack, queue := Wrap((r.sp as int) - 20), Wrap((r.a6 as int) - 0x6E5A);
      if stack % 2 != 0 || !InRam(stack, 24) || queue % 2 != 0 || !InRam(queue, 16) { return false; }
      var word := Peek16(w.elsewhere, cpu.ram, cpu.pc);
      if word / 256 != 0x61 { return false; }
      var displacement: int, next := word % 256, cpu.pc as int + 2;
      if displacement == 0 {
        displacement := Peek16(w.elsewhere, cpu.ram, Wrap(next));
        if displacement >= 0x8000 { displacement := displacement - 0x1_0000; }
        next := next + 2;
      } else if displacement >= 0x80 {
        displacement := displacement - 0x100;
      }
      return Wrap(cpu.pc as int + 2 + displacement) == Wrap(base as int + 0x1_7018)
          && Peek(w.elsewhere, cpu.ram, r.sp) == Wrap(next);
    }
  }

  lemma TraceStart(w: World, base: u32, m: DrawMachine)
    ensures Trace(w, base, m, 0) == Running(0, At(base, 0, m)) && Undisturbed(w, base, m, 0)
  {}

  /** A run that ended with this machine. */
  predicate Ends(o: Outcome, m: DrawMachine, exit: Exit) {
    match exit
    case Done => o == Finished(m)
    case Gone => o == Left(m)
    case Redirect(target) => o == Redirected(m, target)
    case OutOfRounds => o.Running? && o.op == 7 && o.m == m.(pc := o.m.pc)
    case _ => false
  }

  ghost predicate Stopped(w: World, base: u32, start: DrawMachine, n: nat, m: DrawMachine, exit: Exit) {
    if exit in {Invalidated, Fallback, Interrupted} then Justified(w, base, start, n, m, exit)
    else Ends(Trace(w, base, start, n), m, exit)
  }

  /** The entry shape the job takes over: a BSR to the routine whose return address is on the
      stack, a count of at most 1024, and the stack and the queue in RAM. */
  predicate Eligible(w: World, base: u32, m: DrawMachine) {
    && Signed(m.r.d0) <= 1024 && RamRange(Pushed(m.r.sp, 20), 24) && RamRange(Global(m.r.a6, 0x6E5A), 16)
    && BranchCall(w.elsewhere, m.ram, m.pc)
       == Call.Call(Wrap(base as int + 0x1_7018), Peek(w.elsewhere, m.ram, m.r.sp))
  }

  lemma ShapeBounds(first: nat, count: nat)
    requires Shape(first, count)
    ensures 0 < count && first + count <= 29
  {}

  /** What the published flags tell the dispatcher's own tests. */
  predicate Settled(last: nat, b: DrawRegisters, r: DrawRegisters) {
    && (last == 4 ==> (r.sr.z <==> b.d0 == 0))
    && (last == 18 ==> r.sr.c || r.sr.z)
    && (last == 22 ==> (r.sr.n != r.sr.v <==> Signed(r.d5) < Signed(r.d4)))
  }

  lemma Settles(f: Flight)
    requires Shape(f.first, f.count) && (f.count == 4 ==> f.read[1] <= f.read[2])
    ensures Settled(f.first + f.count - 1, f.before, Replay(f, f.count))
  {
    hide Replay, Replayed, Signed;
    if f.first + f.count - 1 in {4, 18, 22} {
      LiveHolds(f, f.count - 1);
      BranchKeeps(f, f.count);
    }
  }

  lemma CountIrrelevant(f: Flight, count: nat, i: nat, k: nat)
    ensures var g := f.(count := count); Replay(f, i) == Replay(g, i) && Replay(f, k) == Replay(g, k)
  {
    hide Top;
    TopBound();
    ReplayFrame(f, f.(count := count), i, 4);
    ReplayFrame(f, f.(count := count), k, 4);
  }

  lemma TopBound()
    ensures forall op :: Top(op) <= 4
  {}

  /** Branches inside a segment are not taken. */
  lemma FallsThrough(w: World, base: u32, n: nat, f: Flight, i: nat, m: DrawMachine)
    requires Shape(f.first, f.count) && 0 < i < f.count && m.r == Replay(f, i)
    requires f.first + i == 5 ==> f.before.d0 != 0
    requires f.first + i == 19 ==> f.read[1] > f.read[2]
    ensures Follow(w, base, n, f.first + i - 1, m) == Running(f.first + i, At(base, f.first + i, m))
  {
    hide Replay, Signed, Replayed, OpPc;
    if f.first + i in {5, 19} {
      LiveHolds(f, i - 1);
      BranchKeeps(f, i);
    }
  }

  lemma BranchKeeps(f: Flight, i: nat)
    requires 0 < i && f.first + i - 1 in {4, 9, 18, 22}
    ensures Replay(f, i) == Replay(f, i - 1)
  {}

  lemma MaskIsCurrent(level: nat, f: Flight, i: nat, k: nat)
    ensures IrqReady(level, Replay(f, k).sr) <==> IrqReady(level, Replay(f, i).sr)
  {
    hide Replayed;
    SystemKept(f, k);
    SystemKept(f, i);
  }

  lemma KeepsEarlier(f: Flight, g: Flight, i: nat, k: nat)
    requires Shape(f.first, f.count) && k <= i < f.count
    requires g == f.(read := g.read) && forall j :: 0 <= j < Base(f.first + i) ==> g.read[j] == f.read[j]
    ensures Replay(g, i) == Replay(f, i) && Replay(g, k) == Replay(f, k)
  {
    hide Replay, Replayed, Top;
    LaterSlots(f.first, f.count, i);
    ReplayFrame(f, g, i, Base(f.first + i));
    ReplayFrame(f, g, k, Base(f.first + i));
  }

  lemma TraceNext(w: World, base: u32, start: DrawMachine, n: nat, op: nat, m: DrawMachine)
    requires Trace(w, base, start, n) == Running(op, m) && InReach(op, m.r)
    ensures Trace(w, base, start, n + 1) == Follow(w, base, n, op, Executed(w, base, n, op, m))
  {
    hide InReach, Follow, Executed;
  }
}
