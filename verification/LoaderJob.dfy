/** runner/src/cdi_loader_jobs.c: a native span of CRC words, with an interrupt possible at
    every operation frontier. */
module LoaderJob {
  import opened Words
  import opened Crc24
  import opened LoaderMath
  import opened LoaderCrc
  import Cpu68k
  import Guest

  /** How a span ends: back to the kernel's 256-word scheduling check, or an interrupt taken
      before operation `at` of word `word` (30 to 32 are the loop-control operations). */
  datatype Exit = Yielded | Interrupted(word: nat, at: nat)

  /** The value the k-th longword read returns at an address: devices may change RAM. */
  type Bus = (nat, nat) -> Word

  /** The pending interrupt level at every frontier (0: none). */
  type Levels = (nat, nat) -> nat

  const WORD_PC: seq<nat> := [
    0x6BF4, 0x6BF6, 0x6BF8, 0x6BFA, 0x6BFC, 0x6BFE, 0x6C00, 0x6C02, 0x6C04, 0x6C06,
    0x6C08, 0x6C0E, 0x6C10, 0x6C12, 0x6C14, 0x6C16, 0x6C1A, 0x6C1C, 0x6C1E, 0x6C20,
    0x6C22, 0x6C24, 0x6C26, 0x6C28, 0x6C2A, 0x6C2C, 0x6C2E, 0x6C30, 0x6C34, 0x6C36]

  /** How long each instruction of the word is: two more bytes for a word operand, four for a long one. */
  function Length(at: nat): nat { if at == 10 then 6 else if at in {15, 27} then 4 else 2 }

  /** The thirty operations are one stretch of code from the word's entry to the loop control. */
  lemma WordSpan(at: nat)
    requires at < 30
    ensures 0x40_0000 + WORD_PC[0] == ENTRY
    ensures 0x40_0000 + WORD_PC[at] + Length(at) == if at < 29 then 0x40_0000 + WORD_PC[at + 1] else AFTER
  {}

  // ----- the reference: firmware operations one after another -----

  function WordLength(s: Cpu, word: Word, rom: Rom): nat {
    if OddWord(rom, Taken(s.d1, word)) then 30 else 29
  }

  function WholeWord(s: Cpu, word: Word, rom: Rom): Cpu {
    Operations(s, word, rom, WordLength(s, word, rom)).(pc := AFTER)
  }

  /** The flags of a byte test. */
  function CountFlags(sr: Cpu68k.Status, count: nat): (r: Cpu68k.Status)
    ensures r.system == sr.system && r.x == sr.x
  {
    sr.(n := (count / 128) % 2 == 1, z := count % 256 == 0, v := false, c := false)
  }

  /** TST.B D3, the untaken branch, and the word-sized decrement of D3. */
  function LoopOperation(i: nat, s: Cpu): Cpu {
    match i
    case 0 => s.(sr := CountFlags(s.sr, s.d3), pc := 0x406C3A)
    case 1 => s.(pc := 0x406C5E)
    case _ => s.(d3 := if s.d3 % 0x1_0000 == 0 then s.d3 + 0xFFFF else s.d3 - 1, pc := ENTRY)
  }

  function LoopOperations(s: Cpu, count: nat): Cpu {
    if count == 0 then s else LoopOperation(count - 1, LoopOperations(s, count - 1))
  }

  /** The CPU when word k of the span begins. */
  function WordStart(s: Cpu, bus: Bus, rom: Rom, k: nat): Cpu
    decreases k, 0
  {
    if k == 0 then s.(pc := ENTRY)
    else LoopOperations(WordEnd(s, bus, rom, k - 1), 3)
  }

  function WordEnd(s: Cpu, bus: Bus, rom: Rom, k: nat): Cpu
    decreases k, 1
  {
    var start := WordStart(s, bus, rom, k);
    WholeWord(start, bus(k, start.a0), rom)
  }

  /** The CPU at a frontier of the reference run. */
  function Frontier(s: Cpu, bus: Bus, rom: Rom, k: nat, at: nat): Cpu
    requires at < 33
  {
    var start := WordStart(s, bus, rom, k);
    if at < 30 then Operations(start, bus(k, start.a0), rom, at).(pc := 0x40_0000 + WORD_PC[at])
    else LoopOperations(WordEnd(s, bus, rom, k), at - 30)
  }

  /** The bytes of the words fetched, in order. */
  function Fetched(s: Cpu, bus: Bus, words: nat): seq<Octet> {
    if words == 0 then [] else Fetched(s, bus, words - 1) + Bytes(bus(words - 1, AddAddress(s.a0, 4 * (words - 1))))
  }

  // ----- what the reference run does -----

  lemma EarlyOperationKeeps(i: nat, s: Cpu, word: Word, rom: Rom)
    requires i < 15
    ensures var r := Operation(i, s, word, rom);
      r.d3 == s.d3 && r.d5 == s.d5 && r.others == s.others && r.sr.system == s.sr.system
  {
    hide Xor, Left, Right, Range, Number, TableBit;
  }

  lemma LateOperationKeeps(i: nat, s: Cpu, word: Word, rom: Rom)
    requires i >= 15
    ensures var r := Operation(i, s, word, rom);
      r.d3 == s.d3 && r.d5 == s.d5 && r.others == s.others && r.sr.system == s.sr.system
  {
    hide Xor, Left, Right, Range, Number, TableBit;
  }

  /** No operation touches the interrupt mask, so testing it on the CPU left behind at the
      word's start is as good as testing it on the reconstructed one. */
  lemma {:induction false} OperationsKeep(s: Cpu, word: Word, rom: Rom, n: nat)
    ensures var r := Operations(s, word, rom, n);
      r.d3 == s.d3 && r.d5 == s.d5 && r.others == s.others && r.sr.system == s.sr.system
  {
    hide Operation;
    if n > 0 {
      OperationsKeep(s, word, rom, n - 1);
      if n - 1 < 15 {
        EarlyOperationKeeps(n - 1, Operations(s, word, rom, n - 1), word, rom);
      } else {
        LateOperationKeeps(n - 1, Operations(s, word, rom, n - 1), word, rom);
      }
    }
  }

  /** The first operation does not look at the fetched word. */
  lemma EarlyWordIrrelevant(s: Cpu, word: Word, other: Word, rom: Rom, n: nat)
    requires n <= 1
    ensures Operations(s, word, rom, n) == Operations(s, other, rom, n)
  {
    hide Left;
    if n == 1 {
      assert Operations(s, word, rom, 1) == Operation(0, s, word, rom);
      assert Operations(s, other, rom, 1) == Operation(0, s, other, rom);
    }
  }

  lemma FoldCounts(s: Cpu, word: Word, rom: Rom)
    ensures var r := WholeWord(s, word, rom);
      && r == FoldWord(s, word, rom)
      && r.a0 == AddAddress(s.a0, 4) && r.d3 == s.d3 && r.d5 == s.d5 && r.others == s.others
      && r.sr.system == s.sr.system && r.pc == AFTER
  {
    hide Xor, Left, Right, Range, Number, TableBit, ParityByte, EvenCrc, OddWord, Operations;
    FoldIsPrefix(s, word, rom);
  }

  lemma LoopCounts(s: Cpu)
    requires s.d3 % 256 != 0
    ensures var r := LoopOperations(s, 3);
      && r.d3 == s.d3 - 1 && r.sr.system == s.sr.system
      && r == s.(d3 := r.d3, sr := r.sr, pc := ENTRY)
  {
    hide CountFlags;
    AlignedWord(s.d3);
    ThreeLoopOperations(s);
  }

  lemma AlignedWord(d: nat)
    ensures d % 0x1_0000 == 0 ==> d % 256 == 0
  {
    var q := d / 0x1_0000;
    if d == 256 * (256 * q) { Multiple(256 * q); }
  }

  lemma Multiple(k: nat)
    ensures (256 * k) % 256 == 0
  {}

  lemma ThreeLoopOperations(s: Cpu)
    ensures LoopOperations(s, 1) == LoopOperation(0, s)
    ensures LoopOperations(s, 2) == LoopOperation(1, LoopOperation(0, s))
    ensures LoopOperations(s, 3) == LoopOperation(2, LoopOperation(1, LoopOperation(0, s)))
  {
    hide LoopOperation;
    assert LoopOperations(s, 1) == LoopOperation(0, s);
    assert LoopOperations(s, 2) == LoopOperation(1, LoopOperations(s, 1));
  }

  lemma Countdown(d: nat, k: nat)
    requires k <= d % 256
    ensures d >= k && (d - k) % 256 == d % 256 - k
  {
    assert d - k == 256 * (d / 256) + (d % 256 - k);
  }

  lemma AddressesAdd(a: nat, k: nat)
    ensures AddAddress(AddAddress(a, 4 * k), 4) == AddAddress(a, 4 * (k + 1))
    ensures a < 0x1_0000_0000 ==> AddAddress(a, 0) == a
  {}

  /** Word k reads at A0 + 4k and finds D3 counted down by k; the mask and the registers
      the checksum does not own are as they were. */
  lemma {:induction false} RunCounts(s: Cpu, bus: Bus, rom: Rom, k: nat)
    requires k <= s.d3 % 256 && s.a0 < 0x1_0000_0000
    ensures var r := WordStart(s, bus, rom, k);
      && r.a0 == AddAddress(s.a0, 4 * k) && r.d3 == s.d3 - k && r.d5 == s.d5 && r.others == s.others
      && r.sr.system == s.sr.system
  {
    hide WholeWord, FoldWord, AddAddress, LoopOperations;
    AddressesAdd(s.a0, 0);
    if k > 0 {
      AddressesAdd(s.a0, k - 1);
      Countdown(s.d3, k - 1);
      RunCounts(s, bus, rom, k - 1);
      var start := WordStart(s, bus, rom, k - 1);
      FoldCounts(start, bus(k - 1, start.a0), rom);
      LoopCounts(WordEnd(s, bus, rom, k - 1));
    }
  }

  lemma EndCounts(s: Cpu, bus: Bus, rom: Rom, k: nat)
    requires k <= s.d3 % 256 && s.a0 < 0x1_0000_0000
    ensures var r := WordEnd(s, bus, rom, k);
      && r.a0 == AddAddress(s.a0, 4 * (k + 1)) && r.d3 == s.d3 - k && r.d5 == s.d5 && r.others == s.others
      && r.sr.system == s.sr.system && r.pc == AFTER
  {
    hide FoldWord, WholeWord, AddAddress, WordStart;
    var start := WordStart(s, bus, rom, k);
    RunCounts(s, bus, rom, k);
    AddressesAdd(s.a0, k);
    FoldCounts(start, bus(k, start.a0), rom);
  }

  /** The k-th word of the span brings odd parity. */
  predicate OddAt(s: Cpu, bus: Bus, rom: Rom, k: nat) {
    var start := WordStart(s, bus, rom, k);
    OddWord(rom, Taken(start.d1, bus(k, start.a0)))
  }

  lemma EndFlags(s: Cpu, bus: Bus, rom: Rom, k: nat)
    ensures FoldedFlags(WordEnd(s, bus, rom, k), OddAt(s, bus, rom, k))
  {
    hide FoldedFlags, FoldWord, Operations, OddWord, Taken, WordStart, WholeWord;
    var start := WordStart(s, bus, rom, k);
    FoldCounts(start, bus(k, start.a0), rom);
    FoldFlags(start, bus(k, start.a0), rom);
  }

  lemma RegistersCarry(s: Cpu, bus: Bus, rom: Rom, k: nat)
    requires k <= s.d3 % 256 && s.a0 < 0x1_0000_0000
    ensures WordStart(s, bus, rom, k).d1 == if k == 0 then s.d1 else WordEnd(s, bus, rom, k - 1).d1
  {
    hide WordEnd, LoopOperations;
    if k > 0 {
      EndCounts(s, bus, rom, k - 1);
      Countdown(s.d3, k - 1);
      LoopCounts(WordEnd(s, bus, rom, k - 1));
    }
  }

  /** After k + 1 words the low 24 bits of D1 are the OS-9 CRC continued over the bytes of
      those words. */
  lemma {:induction false} RunFeeds(s: Cpu, bus: Bus, rom: Rom, k: nat)
    requires HoldsParity(rom) && Low24(s.d5) == Correction()
    requires k <= s.d3 % 256 && s.a0 < 0x1_0000_0000
    ensures Low24(WordEnd(s, bus, rom, k).d1) == Feed(Low24(s.d1), Fetched(s, bus, k + 1))
  {
    hide Low24, Correction, FoldWord, Bytes, HoldsParity, WholeWord, AddAddress, WordStart, ByteStep;
    var start := WordStart(s, bus, rom, k);
    RunCounts(s, bus, rom, k);
    assert Low24(start.d1) == Feed(Low24(s.d1), Fetched(s, bus, k)) by {
      if k > 0 { RunFeeds(s, bus, rom, k - 1); }
      RegistersCarry(s, bus, rom, k);
    }
    var word := bus(k, start.a0);
    FoldCounts(start, word, rom);
    FoldIsFourBytes(start, word, rom);
    FeedAppend(Low24(s.d1), Fetched(s, bus, k), Bytes(word));
    hide Feed;
  }

  // ----- the native span -----

  /** Frontier (k, at) comes before (k', at') in the run. */
  predicate Earlier(k: nat, at: nat, k': nat, at': nat) {
    k < k' || (k == k' && at < at')
  }

  /** Whether operation `at` of word k is executed at all. */
  predicate Visited(s: Cpu, bus: Bus, rom: Rom, k: nat, at: nat) {
    var start := WordStart(s, bus, rom, k);
    at != 29 || WordLength(start, bus(k, start.a0), rom) == 30
  }

  /** Nothing was ready at any frontier before (k, at). */
  ghost predicate Quiet(s: Cpu, bus: Bus, rom: Rom, level: Levels, k: nat, at: nat) {
    forall k', at' :: Earlier(k', at', k, at) && at' < 33 && Visited(s, bus, rom, k', at') ==>
      !Ready(s, bus, rom, level, k', at')
  }

  /** irq_ready on the CPU the reference run holds at a frontier. */
  predicate Ready(s: Cpu, bus: Bus, rom: Rom, level: Levels, k: nat, at: nat)
    requires at < 33
  {
    Cpu68k.IrqReady(level(k, at), Frontier(s, bus, rom, k, at).sr)
  }

  /** Only the mask counts. */
  lemma MaskDecides(level: nat, a: Cpu68k.Status, b: Cpu68k.Status)
    requires a.system == b.system
    ensures Cpu68k.IrqReady(level, a) <==> Cpu68k.IrqReady(level, b)
  {}

  /** The mask at any frontier of a word is the one at its start. */
  lemma FrontierMask(s: Cpu, bus: Bus, rom: Rom, k: nat, at: nat)
    requires at < 30
    ensures Frontier(s, bus, rom, k, at).sr.system == WordStart(s, bus, rom, k).sr.system
  {
    hide WordStart, Operations;
    var start := WordStart(s, bus, rom, k);
    OperationsKeep(start, bus(k, start.a0), rom, at);
  }

  lemma QuietStart(s: Cpu, bus: Bus, rom: Rom, level: Levels)
    ensures Quiet(s, bus, rom, level, 0, 0)
  {}

  lemma QuietNext(s: Cpu, bus: Bus, rom: Rom, level: Levels, k: nat, at: nat)
    requires Quiet(s, bus, rom, level, k, at) && at < 33
    requires Visited(s, bus, rom, k, at) ==> !Ready(s, bus, rom, level, k, at)
    ensures Quiet(s, bus, rom, level, k, at + 1)
  {
    hide Visited, Ready;
  }

  lemma QuietWord(s: Cpu, bus: Bus, rom: Rom, level: Levels, k: nat)
    requires Quiet(s, bus, rom, level, k, 33)
    ensures Quiet(s, bus, rom, level, k + 1, 0)
  {
    hide Visited, Ready;
  }

  lemma LoopFrontiers(s: Cpu, bus: Bus, rom: Rom, k: nat)
    ensures var end := WordEnd(s, bus, rom, k);
      && Frontier(s, bus, rom, k, 30) == end
      && Frontier(s, bus, rom, k, 31) == LoopOperation(0, end)
      && Frontier(s, bus, rom, k, 32) == LoopOperation(1, LoopOperation(0, end))
      && WordStart(s, bus, rom, k + 1) == LoopOperation(2, LoopOperation(1, LoopOperation(0, end)))
    ensures Visited(s, bus, rom, k, 30) && Visited(s, bus, rom, k, 31) && Visited(s, bus, rom, k, 32)
  {
    hide WordEnd, LoopOperation, WordLength;
    ThreeLoopOperations(WordEnd(s, bus, rom, k));
  }

  /** The thirty frontiers of one word. The word is folded as soon as it is fetched, and interrupts
      are tested on whatever CPU was left behind: the one at the word's start, or one rebuilt for a
      debugger since. Operation detail is only rebuilt when an interrupt is taken or a debugger
      looks; the shift at operation 19 shows its state before. */
  method RunWord(ghost s: Cpu, before: Cpu, bus: Bus, rom: Rom, level: Levels, inspects: (nat, nat) -> bool, k: nat)
    returns (interrupted: bool, at: nat, cpu: Cpu)
    requires before == WordStart(s, bus, rom, k) && Quiet(s, bus, rom, level, k, 0)
    ensures interrupted ==>
      && at < 30 && Visited(s, bus, rom, k, at) && Ready(s, bus, rom, level, k, at) && Quiet(s, bus, rom, level, k, at)
      && cpu == Frontier(s, bus, rom, k, at)
    ensures !interrupted ==> cpu == WordEnd(s, bus, rom, k) && Quiet(s, bus, rom, level, k, 30)
  {
    hide FoldWord, Operations, OddWord, Taken, WordStart, Quiet, WholeWord, Cpu68k.IrqReady;
    var word: Word := {};
    var odd := false;
    ghost var fetched := bus(k, before.a0);
    FoldCounts(before, fetched, rom);
    cpu := before;
    var left := before;
    var i := 0;
    while i < 30 && !(i == 29 && !odd)
      invariant 0 <= i <= 30 && left.sr.system == before.sr.system
      invariant i >= 2 ==> word == fetched && cpu == FoldWord(before, fetched, rom)
      invariant i >= 2 ==> odd == OddWord(rom, Taken(before.d1, fetched))
      invariant i == 30 ==> odd
      invariant Quiet(s, bus, rom, level, k, i)
    {
      FrontierMask(s, bus, rom, k, i);
      MaskDecides(level(k, i), left.sr, Frontier(s, bus, rom, k, i).sr);
      if Cpu68k.IrqReady(level(k, i), left.sr) {
        if i <= 1 { EarlyWordIrrelevant(before, word, fetched, rom, i); }
        cpu := Prefix(before, word, rom, i, 0x40_0000 + WORD_PC[i]);
        return true, i, cpu;
      }
      if i == 1 {
        word := bus(k, before.a0);
        cpu := FoldWord(before, word, rom);
        odd := OddWord(rom, Taken(before.d1, word));
      }
      QuietNext(s, bus, rom, level, k, i);
      if inspects(k, i) {
        var shown := if i == 19 then i else i + 1;
        left := Prefix(before, word, rom, shown, 0x40_0000 + WORD_PC[i]);
        OperationsKeep(before, word, rom, shown);
      }
      i := i + 1;
    }
    if i == 29 { QuietNext(s, bus, rom, level, k, 29); }
    return false, 30, cpu;
  }

  /** The three loop-control operations, each done directly on the live CPU. */
  method TestCount(s: Cpu) returns (r: Cpu)
    ensures r == LoopOperation(0, s)
  {
    r := s;
    r := r.(sr := r.sr.(n := false, z := false, v := false, c := false));
    if s.d3 % 256 == 0 { r := r.(sr := r.sr.(z := true)); }
    if s.d3 % 256 >= 128 { r := r.(sr := r.sr.(n := true)); }
    r := r.(pc := 0x406C3A);
  }

  method TakeBranch(s: Cpu) returns (r: Cpu)
    ensures r == LoopOperation(1, s)
  {
    r := s.(pc := 0x406C5E);
  }

  method CountDown(s: Cpu) returns (r: Cpu)
    ensures r == LoopOperation(2, s)
  {
    var low := s.d3 % 0x1_0000;
    r := s.(d3 := s.d3 - low + (low - 1) % 0x1_0000, pc := ENTRY);
  }

  /** The span loop: words until the low byte of D3 is exhausted. */
  method RunCrcSpan(s: Cpu, bus: Bus, rom: Rom, level: Levels, inspects: (nat, nat) -> bool)
    returns (exit: Exit, cpu: Cpu, words: nat)
    requires s.a0 < 0x1_0000_0000
    ensures exit.Yielded? ==>
      && words == s.d3 % 256 + 1 && cpu == WordEnd(s, bus, rom, words - 1)
      && Quiet(s, bus, rom, level, words - 1, 30)
    ensures exit.Interrupted? ==>
      && exit.word <= s.d3 % 256 && exit.at < 33 && Ready(s, bus, rom, level, exit.word, exit.at)
      && Visited(s, bus, rom, exit.word, exit.at)
      && cpu == Frontier(s, bus, rom, exit.word, exit.at)
      && Quiet(s, bus, rom, level, exit.word, exit.at)
  {
    hide LoopOperation, Quiet, Visited, Frontier, WordEnd, AddAddress, Cpu68k.IrqReady;
    cpu := s.(pc := ENTRY);
    words := 0;
    QuietStart(s, bus, rom, level);
    while true
      invariant words <= s.d3 % 256
      invariant cpu == WordStart(s, bus, rom, words)
      invariant Quiet(s, bus, rom, level, words, 0)
      decreases s.d3 % 256 - words
    {
      EndCounts(s, bus, rom, words);
      Countdown(s.d3, words);
      LoopFrontiers(s, bus, rom, words);
      hide WordStart;
      var interrupted, at;
      interrupted, at, cpu := RunWord(s, cpu, bus, rom, level, inspects, words);
      if interrupted { return Interrupted(words, at), cpu, words; }
      var k := words;
      words := words + 1;
      if cpu.d3 % 256 == 0 { return Yielded, cpu, words; }
      if Cpu68k.IrqReady(level(k, 30), cpu.sr) { return Interrupted(k, 30), cpu, words; }
      QuietNext(s, bus, rom, level, k, 30);
      cpu := TestCount(cpu);
      if Cpu68k.IrqReady(level(k, 31), cpu.sr) { return Interrupted(k, 31), cpu, words; }
      QuietNext(s, bus, rom, level, k, 31);
      cpu := TakeBranch(cpu);
      if Cpu68k.IrqReady(level(k, 32), cpu.sr) { return Interrupted(k, 32), cpu, words; }
      QuietNext(s, bus, rom, level, k, 32);
      cpu := CountDown(cpu);
      QuietWord(s, bus, rom, level, k);
    }
  }

  /** Whether a dispatch is taken over: an even source address, a 16-bit count, and every
      longword of the span in one RAM bank. */
  predicate Admitted(s: Cpu) {
    s.a0 % 2 == 0 && s.d3 <= 0xFFFF && Guest.InRam(s.a0, (s.d3 + 1) * 4)
  }

  /** A taken dispatch that meets no interrupt folds the next (D3 & 255) + 1 longwords, all
      of them inside the admitted span, and returns with the module CRC advanced over them,
      A0 past them and the low byte of D3 at zero. One that does stops at the first frontier
      with an interrupt ready. */
  method Dispatch(s: Cpu, bus: Bus, rom: Rom, level: Levels, inspects: (nat, nat) -> bool, entry: bool, allowed: bool)
    returns (taken: bool, exit: Exit, cpu: Cpu, words: nat)
    ensures taken <==> entry && allowed && Admitted(s)
    ensures !taken ==> cpu == s
    ensures taken ==> forall k :: 0 <= k <= s.d3 % 256 ==> Guest.InRam(WordStart(s, bus, rom, k).a0, 4)
    ensures taken && exit.Yielded? ==>
      && words == s.d3 % 256 + 1 && cpu.a0 == s.a0 + 4 * words && cpu.d3 == s.d3 - s.d3 % 256
      && cpu.d5 == s.d5 && cpu.others == s.others && cpu.sr.system == s.sr.system && cpu.pc == AFTER
      && cpu == WordEnd(s, bus, rom, words - 1) && Quiet(s, bus, rom, level, words - 1, 30)
      && FoldedFlags(cpu, OddAt(s, bus, rom, words - 1))
      && (HoldsParity(rom) && Low24(s.d5) == Correction() ==>
            Low24(cpu.d1) == Feed(Low24(s.d1), Fetched(s, bus, words)))
    ensures taken && exit.Interrupted? ==>
      && exit.word <= s.d3 % 256 && exit.at < 33 && Ready(s, bus, rom, level, exit.word, exit.at)
      && Visited(s, bus, rom, exit.word, exit.at) && Quiet(s, bus, rom, level, exit.word, exit.at)
      && cpu == Frontier(s, bus, rom, exit.word, exit.at)
  {
    hide WordStart, WordEnd, Quiet, Visited, Ready, Frontier, HoldsParity, Correction, Low24, Feed, Fetched;
    hide FoldedFlags, OddAt;
    if !entry || s.a0 % 2 != 0 || s.d3 > 0xFFFF || !Guest.InRam(s.a0, (s.d3 + 1) * 4) || !allowed {
      return false, Yielded, s, 0;
    }
    forall k: nat | k <= s.d3 % 256 ensures WordStart(s, bus, rom, k).a0 == s.a0 + 4 * k {
      RunCounts(s, bus, rom, k);
    }
    exit, cpu, words := RunCrcSpan(s, bus, rom, level, inspects);
    taken := true;
    if exit.Yielded? {
      EndCounts(s, bus, rom, words - 1);
      EndFlags(s, bus, rom, words - 1);
      if HoldsParity(rom) && Low24(s.d5) == Correction() { RunFeeds(s, bus, rom, words - 1); }
    }
  }
}
