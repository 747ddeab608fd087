/** The 68000 programming model and the part of the reference interpreter
    (runner/src/m68k_interp.c) that runs the firmware's rectangle fill. */
module Cpu68k {
  import opened Guest

  /** The status register: the five condition codes and everything above them. */
  datatype Status = Status(system: nat, x: bool, n: bool, z: bool, v: bool, c: bool)

  const LIMIT := 0x1_0000_0000

  type u32 = x: int | 0 <= x < LIMIT

  type Registers = s: seq<u32> | |s| == 8 witness [0, 0, 0, 0, 0, 0, 0, 0]

  /** CPU and RAM. Instructions come from ROM, which nothing writes. */
  datatype Machine = Machine(d: Registers, a: Registers, sr: Status, pc: u32, ram: Memory)

  // ----- arithmetic and flags -----

  function Wrap(x: int): u32 { x % LIMIT }

  function Low16(x: u32): int { x % 0x1_0000 }

  /** Replace the low word of a register. */
  function WithLow16(x: u32, low: int): u32
    requires 0 <= low < 0x1_0000
  {
    x - Low16(x) + low
  }

  /** A word operation leaves the high word of its register. */
  lemma WordKept(x: u32, low: int)
    requires 0 <= low < 0x1_0000
    ensures WithLow16(x, low) / 0x1_0000 == x / 0x1_0000 && WithLow16(x, low) % 0x1_0000 == low
    ensures WithLow16(x, Low16(x)) == x
  {
    var high := x / 0x1_0000;
    assert x == 0x1_0000 * high + x % 0x1_0000;
  }

  /** Flags of a value of `size` = 2^bits: N and Z from it, V and C clear. */
  function LogicFlags(sr: Status, value: int, size: nat): (r: Status)
    requires size > 0
    ensures r.system == sr.system
  {
    sr.(n := value % size >= size / 2, z := value % size == 0, v := false, c := false)
  }

  function SubFlags(sr: Status, left: int, right: int, size: nat): (r: Status)
    requires size > 0
    ensures r.system == sr.system
  {
    var l, r := left % size, right % size;
    var result := (l - r) % size;
    var borrow := r > l;
    LogicFlags(sr, result, size).(x := borrow, c := borrow,
      v := ((l >= size / 2) != (r >= size / 2)) && ((l >= size / 2) != (result >= size / 2)))
  }

  /** An interrupt of this level is let through by the mask in SR; level 7 always is. */
  predicate IrqReady(level: nat, sr: Status) {
    level > 0 && (level == 7 || level > (sr.system / 8) % 8)
  }

  // ----- what the flags mean -----

  /** The two's complement reading of a value of this size. */
  function SignedOf(value: int, size: nat): int
    requires size > 0
  {
    (value + size / 2) % size - size / 2
  }

  predicate OperandSize(size: nat) { size == 0x100 || size == 0x1_0000 || size == LIMIT }

  /** Zero and sign at every operand size; nothing else but V and C, cleared, moves. */
  lemma LogicMeans(sr: Status, value: int, size: nat)
    requires OperandSize(size)
    ensures var r := LogicFlags(sr, value, size);
      && (r.z <==> SignedOf(value, size) == 0) && (r.n <==> SignedOf(value, size) < 0)
      && !r.v && !r.c && r.x == sr.x && r.system == sr.system
  {}

  lemma SignedMod(value: int, size: nat)
    requires OperandSize(size)
    ensures SignedOf(value, size) == if value % size < size / 2 then value % size else value % size - size
  {}

  lemma SignedWrap(e: int, size: nat)
    requires OperandSize(size) && 0 - size < e < size
    ensures SignedOf(e, size) == if e < -(size / 2) then e + size else if e >= size / 2 then e - size else e
  {}

  lemma Difference(l: int, r: int, size: nat)
    requires 0 <= l < size && 0 <= r < size
    ensures (l - r) % size == if l >= r then l - r else l - r + size
  {
    if l < r { assert (l - r) == size * (-1) + (l - r + size); }
  }

  /** A subtraction borrows exactly when the unsigned result would be negative, overflows exactly
      when the signed one does not fit, and leaves the flags of its result. */
  lemma SubMeans(sr: Status, left: int, right: int, size: nat)
    requires OperandSize(size)
    ensures var r := SubFlags(sr, left, right, size);
      var exact := SignedOf(left, size) - SignedOf(right, size);
      && r.c == r.x == (left % size < right % size)
      && (r.z <==> left % size == right % size)
      && (r.v <==> exact != SignedOf(exact, size))
      && (r.n <==> SignedOf(exact, size) < 0)
  {
    hide SignedOf, LogicFlags;
    var l, r := left % size, right % size;
    var d := (l - r) % size;
    LogicMeans(sr, d, size);
    SignedMod(left, size);
    SignedMod(right, size);
    SignedMod(d, size);
    Small(d, size);
    Difference(l, r, size);
    SignedWrap(SignedOf(left, size) - SignedOf(right, size), size);
  }

  lemma Small(d: int, size: nat)
    requires 0 <= d < size
    ensures d % size == d
  {}

  // ----- the interrupt mask -----

  /** SR as the 16-bit number the CPU stacks. */
  function SrNumber(s: Status): nat {
    32 * s.system + (if s.x then 16 else 0) + (if s.n then 8 else 0) + (if s.z then 4 else 0)
    + (if s.v then 2 else 0) + (if s.c then 1 else 0)
  }

  /** The bits of SR above the condition codes are those of the system number. */
  lemma SrParts(s: Status)
    ensures SrNumber(s) / 256 == s.system / 8 && SrNumber(s) % 32 == SrNumber(s) - 32 * s.system
  {}

  /** SR with the three mask bits replaced, as on exception entry. */
  function WithMask(s: Status, mask: nat): Status
    requires mask < 8
  {
    s.(system := s.system - 8 * ((s.system / 8) % 8) + 8 * mask)
  }

  lemma WithMaskIs(s: Status, mask: nat)
    requires mask < 8
    ensures (SrNumber(WithMask(s, mask)) / 256) % 8 == mask
    ensures SrNumber(WithMask(s, mask)) == SrNumber(s) + 256 * (mask - (SrNumber(s) / 256) % 8)
  {
    SrParts(s);
    SrParts(WithMask(s, mask));
    MaskParts(s.system, mask);
  }

  lemma MaskParts(system: nat, mask: nat)
    requires mask < 8
    ensures ((system - 8 * ((system / 8) % 8) + 8 * mask) / 8) % 8 == mask
  {
    var q, m, low := system / 64, (system / 8) % 8, system % 8;
    assert system == 64 * q + 8 * m + low;
    assert system - 8 * m + 8 * mask == 64 * q + 8 * mask + low;
  }

  /** Interrupts get through by number: none at level 0, level 7 always, others above bits 8 to 10
      of SR. */
  lemma MaskLaw(level: nat, sr: Status)
    ensures IrqReady(level, sr) <==> level > 0 && (level == 7 || level > (SrNumber(sr) / 256) % 8)
  {
    SrParts(sr);
    hide SrNumber;
  }

  /** Taking an interrupt sets the mask to its level, which silences every level up to it below 7
      and nothing above; a mask one below lets the level through; mask 7 stops all but 7. */
  lemma MaskSilences(level: nat, other: nat, sr: Status)
    requires 1 <= level <= 7 && other <= 7
    ensures 0 < other < 7 ==> (IrqReady(other, WithMask(sr, level)) <==> other > level)
    ensures IrqReady(7, WithMask(sr, level)) && IrqReady(level, WithMask(sr, level - 1))
    ensures IrqReady(other, WithMask(sr, 7)) <==> other == 7
    ensures !IrqReady(0, sr)
  {
    hide SrNumber, WithMask, IrqReady;
    WithMaskIs(sr, level);
    WithMaskIs(sr, level - 1);
    WithMaskIs(sr, 7);
    MaskLaw(other, WithMask(sr, level));
    MaskLaw(7, WithMask(sr, level));
    MaskLaw(level, WithMask(sr, level - 1));
    MaskLaw(other, WithMask(sr, 7));
    MaskLaw(0, sr);
  }

  // ----- RAM, big end first -----

  function Read8(ram: Memory, a: u32): byte
    requires InRam(a, 1)
  {
    ram[Offset(a)]
  }

  function Write8(ram: Memory, a: u32, v: byte): Memory
    requires InRam(a, 1)
  {
    ram[Offset(a) := v]
  }

  function Read32(ram: Memory, a: u32): u32
    requires InRam(a, 4)
  {
    Be32(Slice(ram, a, 4), 0)
  }

  function Bytes32(v: u32): (s: seq<byte>)
    ensures |s| == 4
  {
    [v / 0x100_0000, (v / 0x1_0000) % 0x100, (v / 0x100) % 0x100, v % 0x100]
  }

  function Write32(ram: Memory, a: u32, v: u32): Memory
    requires InRam(a, 4)
  {
    ram[..Offset(a)] + Bytes32(v) + ram[Offset(a) + 4..]
  }

  lemma WriteRead(ram: Memory, a: u32, v: u32)
    requires InRam(a, 4)
    ensures Read32(Write32(ram, a, v), a) == v
  {
    assert Slice(Write32(ram, a, v), a, 4) == Bytes32(v);
    BytesRoundTrip(v);
  }

  lemma BytesRoundTrip(v: u32)
    ensures Be32(Bytes32(v), 0) == v
  {
    var b1, b2, b3 := v / 0x100, v / 0x1_0000, v / 0x100_0000;
    assert v == 0x100 * b1 + v % 0x100;
    assert b1 == 0x100 * b2 + b1 % 0x100;
    assert b2 == 0x100 * b3 + b2 % 0x100;
    assert b2 == v / 0x1_0000 && b3 == v / 0x100_0000;
  }

  lemma WriteElsewhere(ram: Memory, a: u32, v: u32, o: nat)
    requires InRam(a, 4) && o < 2 * BANK && !(Offset(a) <= o < Offset(a) + 4)
    ensures Write32(ram, a, v)[o] == ram[o]
  {}

  /** Reads depend on their four bytes only. */
  lemma ReadFrame(ram: Memory, ram': Memory, a: u32)
    requires InRam(a, 4)
    requires forall o :: Offset(a) <= o < Offset(a) + 4 ==> ram'[o] == ram[o]
    ensures Read32(ram', a) == Read32(ram, a)
  {
    assert Slice(ram', a, 4) == Slice(ram, a, 4);
  }

  lemma WrapAdd(x: int, y: int)
    ensures Wrap(Wrap(x) as int + y) == Wrap(x + y)
  {
    assert x + y == LIMIT * (x / LIMIT) + (x % LIMIT + y);
    WrapMultiple(x / LIMIT, x % LIMIT + y);
  }

  lemma WrapMultiple(q: int, z: int)
    ensures Wrap(LIMIT * q + z) == Wrap(z)
  {}

  // ----- instructions -----

  datatype Register = D(n: nat) | A(n: nat)

  datatype Instruction =
    | MovemPush(n: nat) | MovemPop(n: nat)
    | MoveLong(source: Register, target: Register) | MoveArgument(base: nat, to: nat)
    | MoveByteUp(from: nat, base: nat)
    | SubLong(from: nat, to: nat) | SubQuickWord(amount: nat, to: nat)
    | AddAddress(from: nat, to: nat) | DecrementBranch(n: nat) | Rts

  /** The opcode fields, for the encodings this model covers. */
  function Decode(op: nat): Option<Instruction> {
    var high, mode, source, low := (op / 0x200) % 8, (op / 0x40) % 8, (op / 8) % 8, op % 8;
    if op == 0x4E75 then Some(Rts)
    else if op / 8 == 0x48E0 / 8 then Some(MovemPush(low))
    else if op / 8 == 0x4CD8 / 8 then Some(MovemPop(low))
    else if op / 8 == 0x51C8 / 8 then Some(DecrementBranch(low))
    else if op / 0x1000 == 2 && mode == 0 && source == 0 then Some(MoveLong(D(low), D(high)))
    else if op / 0x1000 == 2 && mode == 0 && source == 1 then Some(MoveLong(A(low), D(high)))
    else if op / 0x1000 == 2 && mode == 0 && source == 5 then Some(MoveArgument(low, high))
    else if op / 0x1000 == 2 && mode == 1 && source == 0 then Some(MoveLong(D(low), A(high)))
    else if op / 0x1000 == 1 && mode == 3 && source == 0 then Some(MoveByteUp(low, high))
    else if op / 0x1000 == 9 && mode == 2 && source == 0 then Some(SubLong(low, high))
    else if op / 0x1000 == 5 && mode == 5 && source == 0 then Some(SubQuickWord(if high == 0 then 8 else high, low))
    else if op / 0x1000 == 0xD && mode == 7 && source == 0 then Some(AddAddress(low, high))
    else None
  }

  /** Registers of a 16-bit MOVEM mask from bit `bit` up; a predecrement mask runs from A7
      down. */
  function MaskRegisters(mask: nat, bit: nat, predecrement: bool): seq<Register> {
    if mask == 0 || bit >= 16 then []
    else
      (if mask % 2 == 0 then []
       else if predecrement then [if bit < 8 then A(7 - bit) else D(15 - bit)]
       else [if bit < 8 then D(bit) else A(bit - 8)])
      + MaskRegisters(mask / 2, bit + 1, predecrement)
  }

  function Get(m: Machine, r: Register): u32
    requires r.n < 8
  {
    match r case D(n) => m.d[n] case A(n) => m.a[n]
  }

  function Set(m: Machine, r: Register, v: u32): Machine
    requires r.n < 8
  {
    match r case D(n) => m.(d := m.d[n := v]) case A(n) => m.(a := m.a[n := v])
  }

  predicate Named(list: seq<Register>) {
    forall i :: 0 <= i < |list| ==> list[i].n < 8
  }

  /** Stores downwards from `at`; the registers are read before any of them changes. */
  function Push(m: Machine, list: seq<Register>, at: int): Option<Memory>
    requires Named(list)
  {
    if list == [] then Some(m.ram)
    else
      match Push(m, list[..|list| - 1], at)
      case None => None
      case Some(ram) =>
        var a := Wrap(at - 4 * |list|);
        if InRam(a, 4) then Some(Write32(ram, a, Get(m, list[|list| - 1]))) else None
  }

  /** Loads upwards from `at`. */
  function Pop(m: Machine, list: seq<Register>, at: int): Option<Machine>
    requires Named(list)
  {
    if list == [] then Some(m)
    else
      match Pop(m, list[..|list| - 1], at)
      case None => None
      case Some(p) =>
        var a := Wrap(at + 4 * (|list| - 1));
        if InRam(a, 4) then Some(Set(p, list[|list| - 1], Read32(m.ram, a))) else None
  }

  /** A sign-extended extension word. */
  function Signed16(w: nat): int {
    if w >= 0x8000 then w - 0x1_0000 else w
  }

  function PushRegisters(m: Machine, n: nat, mask: nat): Option<Machine> {
    var list := MaskRegisters(mask, 0, true);
    if n >= 8 || !Named(list) then None
    else
      match Push(m, list, m.a[n])
      case None => None
      case Some(ram) => Some(m.(ram := ram, a := m.a[n := Wrap(m.a[n] - 4 * |list|)], pc := Wrap(m.pc + 4)))
  }

  function PopRegisters(m: Machine, n: nat, mask: nat): Option<Machine> {
    var list := MaskRegisters(mask, 0, false);
    if n >= 8 || !Named(list) then None
    else
      match Pop(m, list, m.a[n])
      case None => None
      case Some(p) => Some(p.(a := p.a[n := Wrap(m.a[n] + 4 * |list|)], pc := Wrap(m.pc + 4)))
  }

  function Move(m: Machine, source: Register, target: Register): Option<Machine> {
    if source.n >= 8 || target.n >= 8 then None
    else
      var v := Get(m, source);
      var s := if target.D? then m.(sr := LogicFlags(m.sr, v, LIMIT)) else m;
      Some(Set(s, target, v).(pc := Wrap(m.pc + 2)))
  }

  function MoveFromStack(m: Machine, base: nat, to: nat, ext: nat): Option<Machine> {
    if base >= 8 || to >= 8 then None
    else
      var a := Wrap(m.a[base] + Signed16(ext));
      if !InRam(a, 4) then None
      else
        var v := Read32(m.ram, a);
        Some(m.(d := m.d[to := v], sr := LogicFlags(m.sr, v, LIMIT), pc := Wrap(m.pc + 4)))
  }

  function StoreByte(m: Machine, from: nat, base: nat): Option<Machine> {
    if from >= 8 || base >= 7 || !InRam(m.a[base], 1) then None
    else
      var v := m.d[from] % 0x100;
      Some(m.(ram := Write8(m.ram, m.a[base], v), a := m.a[base := Wrap(m.a[base] + 1)],
              sr := LogicFlags(m.sr, v, 0x100), pc := Wrap(m.pc + 2)))
  }

  function Subtract(m: Machine, from: nat, to: nat): Option<Machine> {
    if from >= 8 || to >= 8 then None
    else Some(m.(d := m.d[to := Wrap((m.d[to] as int) - m.d[from])],
                 sr := SubFlags(m.sr, m.d[to], m.d[from], LIMIT), pc := Wrap(m.pc + 2)))
  }

  function SubtractQuick(m: Machine, amount: nat, to: nat): Option<Machine> {
    if to >= 8 then None
    else
      var l := Low16(m.d[to]);
      Some(m.(d := m.d[to := WithLow16(m.d[to], (l - amount) % 0x1_0000)],
              sr := SubFlags(m.sr, l, amount, 0x1_0000), pc := Wrap(m.pc + 2)))
  }

  function AddToAddress(m: Machine, from: nat, to: nat): Option<Machine> {
    if from >= 8 || to >= 8 then None
    else Some(m.(a := m.a[to := Wrap((m.a[to] as int) + m.d[from])], pc := Wrap(m.pc + 2)))
  }

  function Decrement(m: Machine, n: nat, ext: nat): Option<Machine> {
    if n >= 8 then None
    else
      var l := (Low16(m.d[n]) - 1) % 0x1_0000;
      Some(m.(d := m.d[n := WithLow16(m.d[n], l)],
              pc := if l == 0xFFFF then Wrap(m.pc + 4) else Wrap(m.pc + 2 + Signed16(ext))))
  }

  function Return(m: Machine): Option<Machine> {
    if !InRam(m.a[7], 4) then None
    else Some(m.(a := m.a[7 := Wrap(m.a[7] + 4)], pc := Read32(m.ram, m.a[7])))
  }

  /** One instruction with its extension word. None stands for what the model leaves out:
      unknown encodings and accesses outside RAM. */
  function Execute(i: Instruction, ext: nat, m: Machine): Option<Machine> {
    match i
    case MovemPush(n) => PushRegisters(m, n, ext)
    case MovemPop(n) => PopRegisters(m, n, ext)
    case MoveLong(source, target) => Move(m, source, target)
    case MoveArgument(base, to) => MoveFromStack(m, base, to, ext)
    case MoveByteUp(from, base) => StoreByte(m, from, base)
    case SubLong(from, to) => Subtract(m, from, to)
    case SubQuickWord(amount, to) => SubtractQuick(m, amount, to)
    case AddAddress(from, to) => AddToAddress(m, from, to)
    case DecrementBranch(n) => Decrement(m, n, ext)
    case Rts => Return(m)
  }

  // ----- call instructions -----

  /** The longword at any bus address, RAM or not. */
  function Peek(elsewhere: u32 -> u32, ram: Memory, a: u32): u32 {
    if InRam(a, 4) then Read32(ram, a) else elsewhere(a)
  }

  function Peek16(elsewhere: u32 -> u32, ram: Memory, a: u32): nat {
    if InRam(a, 2) then (Read8(ram, a) as int) * 256 + ram[Offset(a) + 1] else elsewhere(a) / 0x1_0000
  }

  /** Where a call goes and where it returns to. */
  datatype Call = NoCall | Call(target: u32, next: u32)

  /** A BSR with an 8-bit or a 16-bit displacement. */
  function BranchCall(elsewhere: u32 -> u32, ram: Memory, caller: u32): Call {
    var word := Peek16(elsewhere, ram, caller);
    var short := word % 256;
    if word / 256 != 0x61 then NoCall
    else if short == 0 then
      Call(Wrap(caller as int + 2 + Signed16(Peek16(elsewhere, ram, Wrap(caller as int + 2)))), Wrap(caller as int + 4))
    else
      Call(Wrap(caller as int + 2 + if short >= 128 then short - 256 else short), Wrap(caller as int + 2))
  }

  /** The same, or a JSR to an absolute address or through an address register. */
  function AnyCall(elsewhere: u32 -> u32, m: Machine): Call {
    var word := Peek16(elsewhere, m.ram, m.pc);
    if word / 256 == 0x61 then BranchCall(elsewhere, m.ram, m.pc)
    else if word == 0x4EB9 then Call(Peek(elsewhere, m.ram, Wrap(m.pc as int + 2)), Wrap(m.pc as int + 6))
    else if word / 8 == 0x4E90 / 8 then Call(m.a[word % 8], Wrap(m.pc as int + 2))
    else NoCall
  }

  /** The halfword at a, spelled by its two bytes. */
  predicate Spells16(ram: Memory, a: u32, high: int, low: int) {
    InRam(a, 2) && ram[Offset(a)] == high && ram[Offset(a) + 1] == low
  }

  /** Assembling a short BSR and reading it back gives its target. */
  lemma ShortBranch(elsewhere: u32 -> u32, ram: Memory, caller: u32, target: u32)
    requires var d := (target as int) - caller - 2;
      -128 <= d < 128 && d != 0 && Spells16(ram, caller, 0x61, d % 256)
    ensures BranchCall(elsewhere, ram, caller) == Call(target, Wrap(caller as int + 2))
  {}

  /** So does assembling one with a 16-bit displacement. */
  lemma LongBranch(elsewhere: u32 -> u32, ram: Memory, caller: u32, target: u32)
    requires caller as int + 2 < LIMIT
    requires var d := (target as int) - caller - 2;
      && -0x8000 <= d < 0x8000 && Spells16(ram, caller, 0x61, 0)
      && Spells16(ram, caller as int + 2, (d % 0x1_0000) / 256, d % 256)
    ensures BranchCall(elsewhere, ram, caller) == Call(target, Wrap(caller as int + 4))
  {
    var d := (target as int) - caller - 2;
    Halves(d);
    hide Offset, InRam;
    assert Peek16(elsewhere, ram, Wrap(caller as int + 2)) == d % 0x1_0000;
  }

  lemma Halves(d: int)
    ensures 256 * ((d % 0x1_0000) / 256) + d % 256 == d % 0x1_0000
  {
    var m, k := d % 0x1_0000, d / 0x1_0000;
    assert d == m + 256 * (256 * k);
    ShiftedByte(m, 256 * k);
  }

  lemma ShiftedByte(m: int, k: int)
    ensures (m + 256 * k) % 256 == m % 256
  {}

  /** And a JSR, absolute or through an address register. */
  lemma Jumps(elsewhere: u32 -> u32, m: Machine, target: u32, k: nat)
    requires m.pc as int + 2 < LIMIT && k < 8
    ensures
      Spells16(m.ram, m.pc, 0x4E, 0xB9) && InRam(m.pc as int + 2, 4) && Read32(m.ram, m.pc as int + 2) == target ==>
      AnyCall(elsewhere, m) == Call(target, Wrap(m.pc as int + 6))
    ensures Spells16(m.ram, m.pc, 0x4E, 0x90 + k) ==> AnyCall(elsewhere, m) == Call(m.a[k], Wrap(m.pc as int + 2))
  {
    hide Read32;
  }
}
