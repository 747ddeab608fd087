/** runner/src/cdi_loader_math.h: the CRC word fold of the CD-RTOS module loader, as the
    firmware's thirty 68000 operations and as the closed form the native job runs. */
module LoaderMath {
  import opened Words
  import opened WordNumbers
  import Cpu68k

  /** The registers the fold touches. Those it treats as bit patterns are words; A0 and D3
      only ever count. `others` stands for D6, D7, A1-A7, USP and SSP. */
  datatype Cpu = Cpu(d0: Word, d1: Word, d2: Word, d3: nat, d4: Word, d5: Word, a0: nat,
                     sr: Cpu68k.Status, pc: nat, others: seq<nat>)

  type Rom = nat -> Word

  const TABLE := 0x6BC0
  const ENTRY := 0x406BF4
  const AFTER := 0x406C38

  function HighHalf(): Word { Range(16, 32) }  // 0xFFFF0000
  function LowHalf(): Word { Range(0, 16) }    // 0x0000FFFF

  function AddAddress(a: nat, n: nat): nat { (a + n) % 0x1_0000_0000 }

  // ----- the reference: one firmware operation at a time -----

  function Logical(sr: Cpu68k.Status, w: Word, bits: nat): Cpu68k.Status {
    sr.(n := bits - 1 in w, z := w * Range(0, bits) == {}, v := false, c := false)
  }

  /** The flags on the result's number: Z when it is zero at this size, N when it is negative. */
  lemma LogicalMeans(sr: Cpu68k.Status, w: Word, bits: nat)
    requires bits in {8, 16, 32}
    ensures var r := Logical(sr, w, bits);
      && (r.z <==> Number(w) % Size(bits) == 0)
      && (r.n <==> Number(w) % Size(bits) >= Size(bits) / 2)
      && !r.v && !r.c && r.x == sr.x && r.system == sr.system
  {
    hide Number, Range;
    LowBits(w, bits);
  }

  /** Flags of a shift whose last bit out is `carry`. */
  function Shifted(sr: Cpu68k.Status, result: Word, bits: nat, carry: bool): Cpu68k.Status {
    Logical(sr, result, bits).(x := carry, c := carry)
  }

  function Operation(i: nat, s: Cpu, word: Word, rom: Rom): Cpu {
    match i
    case 0 => var r := Left(s.d1, 8); s.(d1 := r, sr := Shifted(s.sr, r, 32, 24 in s.d1))
    case 1 => s.(d0 := word, a0 := AddAddress(s.a0, 4), sr := Logical(s.sr, word, 32))
    case 2 => var r := Xor(s.d1, s.d0); s.(d1 := r, sr := Logical(s.sr, r, 32))
    case 3 => s.(d2 := s.d1, sr := Logical(s.sr, s.d1, 32))
    case 4 => var r := (s.d4 * HighHalf()) + (s.d1 * LowHalf()); s.(d4 := r, sr := Logical(s.sr, r, 16))
    case 5 => s.(d2 := s.d2 * HighHalf(), sr := s.sr.(n := false, z := true, v := false, c := false))
    case 6 => var r := Right(s.d2, 16) + Left(s.d2, 16); s.(d2 := r, sr := Logical(s.sr, r, 32))
    case 7 => var r := Range(0, 2) + Range(7, 32); s.(d0 := r, sr := Logical(s.sr, r, 32))
    case 8 => var r := (s.d0 * HighHalf()) + ((s.d0 * s.d2) * LowHalf()); s.(d0 := r, sr := Logical(s.sr, r, 16))
    case 9 => var r := Xor(s.d4, s.d0 * LowHalf()); s.(d4 := r, sr := Logical(s.sr, r, 16))
    case 10 => var r := Range(0, 23); s.(d0 := r, sr := Logical(s.sr, r, 32))
    case 11 => var r := s.d0 * s.d1; s.(d0 := r, sr := Logical(s.sr, r, 32))
    case 12 => var r := Left(s.d0, 5); s.(d0 := r, sr := Shifted(s.sr, r, 32, 27 in s.d0))
    case 13 => var r := Xor(s.d1, s.d0); s.(d1 := r, sr := Logical(s.sr, r, 32))
    case 14 => s.(d0 := s.d1, sr := Logical(s.sr, s.d1, 32))
    case 15 => var r := (s.d2 * HighHalf()) + (s.d2 * Range(2, 16)); s.(d2 := r, sr := Logical(s.sr, r, 16))
    case 16 => var r := Left(s.d2, 3); s.(d2 := r, sr := Shifted(s.sr, r, 32, 29 in s.d2))
    case 17 => var r := Xor(s.d1, s.d2); s.(d1 := r, sr := Logical(s.sr, r, 32))
    case 18 => var r := TwentyThree(); s.(d2 := r, sr := Logical(s.sr, r, 32))
    case 19 => var r := Right(s.d0, 23); s.(d0 := r, sr := Shifted(s.sr, r, 32, 22 in s.d0))
    case 20 => var r := Xor(s.d1, s.d0); s.(d1 := r, sr := Logical(s.sr, r, 32))
    case 21 =>
      var r := Left(s.d1, 1);
      s.(d1 := r, sr := Shifted(s.sr, r, 32, 31 in s.d1).(v := (31 in s.d1) != (31 in r)))
    case 22 => var r := (s.d0 * HighHalf()) + (s.d4 * LowHalf()); s.(d0 := r, sr := Logical(s.sr, r, 16))
    case 23 =>
      var r := Right(s.d0 * LowHalf(), 8);
      s.(d0 := (s.d0 * HighHalf()) + r, sr := Shifted(s.sr, r, 16, 7 in s.d0))
    case 24 => var r := Xor(s.d0, s.d4 * Range(0, 8)); s.(d0 := r, sr := Logical(s.sr, r, 8))
    case 25 => var r := (s.d4 * HighHalf()) + (s.d0 * LowHalf()); s.(d4 := r, sr := Logical(s.sr, r, 16))
    case 26 =>
      var r := Right(s.d4 * Range(0, 8), 3);
      s.(d4 := (s.d4 * Range(8, 32)) + r, sr := Shifted(s.sr, r, 8, 2 in s.d4))
    case 27 => s.(sr := s.sr.(z := !TableBit(rom, s.d4 * LowHalf(), s.d0 * Range(0, 3))))
    case 29 => var r := Xor(s.d1, s.d5); s.(d1 := r, sr := Logical(s.sr, r, 32))
    case _ => s
  }

  function TwentyThree(): Word { Range(0, 3) + Range(4, 5) }

  /** Bit `bit` of byte `index` of the bitmap in ROM. */
  predicate TableBit(rom: Rom, index: Word, bit: Word) {
    Number(bit) in rom(TABLE + Number(index))
  }

  function Operations(s: Cpu, word: Word, rom: Rom, completed: nat): Cpu {
    if completed == 0 then s
    else Operation(completed - 1, Operations(s, word, rom, completed - 1), word, rom)
  }

  /** The reconstruction of a partly executed word, with the frontier's program counter. */
  method Prefix(before: Cpu, word: Word, rom: Rom, completed: nat, pc: nat) returns (s: Cpu)
    ensures s == Operations(before, word, rom, completed).(pc := pc)
  {
    hide Operation;
    s := before;
    var i := 0;
    while i < completed
      invariant 0 <= i <= completed
      invariant s == Operations(before, word, rom, i)
    {
      s := Operation(i, s, word, rom);
      i := i + 1;
    }
    s := s.(pc := pc);
  }

  // ----- the closed form -----

  /** The shifted register with the fetched word folded in. */
  function Taken(d1: Word, word: Word): Word { Xor(Left(d1, 8), word) }

  function ParityWord(t: Word): Word {
    Xor(t * LowHalf(), Right(t, 16) * (Range(0, 2) + Range(7, 16)))
  }

  /** The byte looked up in the parity bitmap. */
  function ParityByte(t: Word): Word {
    var w := ParityWord(t);
    Xor(Right(w, 8), w) * Range(0, 8)
  }

  function U(t: Word): Word { Xor(t, Left(t * Range(0, 23), 5)) }

  /** The register before the parity correction. */
  function EvenCrc(t: Word): Word {
    Left(Xor(Xor(U(t), Left(Right(t, 16) * Range(2, 16), 3)), Right(U(t), 23)), 1)
  }

  predicate OddWord(rom: Rom, t: Word) {
    var p := ParityByte(t);
    TableBit(rom, Right(p, 3), p * Range(0, 3))
  }

  function LowWord(d: Word, low: Word): Word { (d * HighHalf()) + low }

  function FoldWord(s: Cpu, word: Word, rom: Rom): Cpu {
    var t := Taken(s.d1, word);
    var p := ParityByte(t);
    var odd := OddWord(rom, t);
    var crc := if odd then Xor(EvenCrc(t), s.d5) else EvenCrc(t);
    var sr := Cpu68k.Status.Status(s.sr.system, 2 in p, false, false, false, false);
    Cpu(p, crc, TwentyThree(), s.d3, LowWord(s.d4, Right(p, 3)), s.d5, AddAddress(s.a0, 4),
        if odd then Logical(sr, crc, 32) else sr.(z := true, c := 2 in p),
        AFTER, s.others)
  }

  // ----- the closed form is the sequence of operations -----

  /** Operations `first` up to `last`, from the state at `first`. */
  function Block(s: Cpu, word: Word, rom: Rom, first: nat, last: nat): Cpu
    requires first <= last
  {
    if first == last then s else Operation(last - 1, Block(s, word, rom, first, last - 1), word, rom)
  }

  lemma {:induction false} BlocksCompose(s: Cpu, word: Word, rom: Rom, middle: nat, last: nat)
    requires middle <= last
    ensures Operations(s, word, rom, last) == Block(Operations(s, word, rom, middle), word, rom, middle, last)
  {
    hide Operation;
    if middle < last { BlocksCompose(s, word, rom, middle, last - 1); }
  }

  /** One more operation at the end of a block. */
  lemma Grow(s: Cpu, word: Word, rom: Rom, first: nat, last: nat)
    requires first < last
    ensures Block(s, word, rom, first, last) == Operation(last - 1, Block(s, word, rom, first, last - 1), word, rom)
  {}

  function Swapped(t: Word): Word {
    Right(t * HighHalf(), 16) + Left(t * HighHalf(), 16)
  }

  function MaskedHalf(t: Word): Word {
    var mask := Range(0, 2) + Range(7, 32);
    (mask * HighHalf()) + ((mask * Swapped(t)) * LowHalf())
  }

  /** Operations 0 to 9, register by register. */
  lemma FirstBlock(s: Cpu, word: Word, rom: Rom)
    ensures var t := Taken(s.d1, word); var r := Block(s, word, rom, 0, 10);
      && r == s.(d0 := MaskedHalf(t), d1 := t, d2 := Swapped(t), a0 := AddAddress(s.a0, 4), sr := r.sr,
                 d4 := Xor((s.d4 * HighHalf()) + (t * LowHalf()), MaskedHalf(t) * LowHalf()))
      && r.sr.system == s.sr.system
  {
    hide Xor, Left, Right, Range, HighHalf, LowHalf, Number, TableBit, AddAddress, TwentyThree;
    Grow(s, word, rom, 0, 1);
    Grow(s, word, rom, 0, 2);
    Grow(s, word, rom, 0, 3);
    Grow(s, word, rom, 0, 4);
    Grow(s, word, rom, 0, 5);
    Grow(s, word, rom, 0, 6);
    Grow(s, word, rom, 0, 7);
    Grow(s, word, rom, 0, 8);
    Grow(s, word, rom, 0, 9);
    Grow(s, word, rom, 0, 10);
  }

  lemma FirstBlockMeaning(t: Word, d4: Word)
    ensures Swapped(t) == Right(t, 16)
    ensures Xor((d4 * HighHalf()) + (t * LowHalf()), MaskedHalf(t) * LowHalf()) == (d4 * HighHalf()) + ParityWord(t)
  {
    assert Swapped(t) == Right(t, 16);
    assert MaskedHalf(t) * LowHalf() == Right(t, 16) * (Range(0, 2) + Range(7, 16));
  }

  /** Operations 10 to 21, register by register. */
  lemma SecondBlock(s: Cpu, word: Word, rom: Rom)
    ensures var t := s.d1; var r := Block(s, word, rom, 10, 22);
      var u := Xor(t, Left(Range(0, 23) * t, 5));
      var d2 := Left((s.d2 * HighHalf()) + (s.d2 * Range(2, 16)), 3);
      && r == s.(d0 := Right(u, 23), d1 := Left(Xor(Xor(u, d2), Right(u, 23)), 1), d2 := TwentyThree(), sr := r.sr)
      && r.sr.system == s.sr.system
  {
    hide Xor, Left, Right, Range, HighHalf, LowHalf, Number, TableBit, AddAddress, TwentyThree;
    Grow(s, word, rom, 10, 11);
    Grow(s, word, rom, 10, 12);
    Grow(s, word, rom, 10, 13);
    Grow(s, word, rom, 10, 14);
    Grow(s, word, rom, 10, 15);
    Grow(s, word, rom, 10, 16);
    Grow(s, word, rom, 10, 17);
    Grow(s, word, rom, 10, 18);
    Grow(s, word, rom, 10, 19);
    Grow(s, word, rom, 10, 20);
    Grow(s, word, rom, 10, 21);
    Grow(s, word, rom, 10, 22);
  }

  lemma SecondBlockMeaning(t: Word)
    ensures Left(Range(0, 23) * t, 5) == Left(t * Range(0, 23), 5)
    ensures (Right(t, 16) * HighHalf()) + (Right(t, 16) * Range(2, 16)) == Right(t, 16) * Range(2, 16)
    ensures Right(U(t), 23) * HighHalf() == {}
  {
    assert Range(0, 23) * t == t * Range(0, 23);
  }

  /** D0 after operations 22 to 24. */
  function Moved(d0: Word, d4: Word): Word {
    var x := (d0 * HighHalf()) + (d4 * LowHalf());
    Xor((x * HighHalf()) + Right(x * LowHalf(), 8), d4 * Range(0, 8))
  }

  /** Operations 22 to 28, register by register. */
  lemma ThirdBlock(s: Cpu, word: Word, rom: Rom)
    ensures var r := Block(s, word, rom, 22, 29);
      var d0 := Moved(s.d0, s.d4);
      var d4 := (s.d4 * HighHalf()) + (d0 * LowHalf());
      var shifted := Right(d4 * Range(0, 8), 3);
      var d4' := (d4 * Range(8, 32)) + shifted;
      r == s.(d0 := d0, d4 := d4',
              sr := Shifted(s.sr, shifted, 8, 2 in d4).(z := !TableBit(rom, d4' * LowHalf(), d0 * Range(0, 3))))
  {
    hide Xor, Left, Right, Range, HighHalf, LowHalf, Number, TableBit, AddAddress, TwentyThree;
    Grow(s, word, rom, 22, 23);
    Grow(s, word, rom, 22, 24);
    Grow(s, word, rom, 22, 25);
    Grow(s, word, rom, 22, 26);
    Grow(s, word, rom, 22, 27);
    Grow(s, word, rom, 22, 28);
    Grow(s, word, rom, 22, 29);
  }

  lemma MovedIsParityByte(t: Word, d0: Word, high: Word)
    requires d0 * HighHalf() == {} && high * LowHalf() == {}
    ensures Moved(d0, high + ParityWord(t)) == ParityByte(t)
  {
    var w := ParityWord(t);
    assert (high + w) * LowHalf() == w;
    var x := (d0 * HighHalf()) + w;
    assert x == w && x * LowHalf() == w && x * HighHalf() == {};
    assert (high + w) * Range(0, 8) == w * Range(0, 8);
    assert Xor(Right(w, 8), w * Range(0, 8)) == Xor(Right(w, 8), w) * Range(0, 8);
  }

  lemma ThirdBlockMeaning(p: Word, high: Word)
    requires Fits(p, 8) && high * LowHalf() == {}
    ensures p * LowHalf() == p
    ensures var d4 := high + p;
      && (2 in d4 <==> 2 in p)
      && Right(d4 * Range(0, 8), 3) == Right(p, 3)
      && (d4 * Range(8, 32)) + Right(p, 3) == high + Right(p, 3)
      && (high + Right(p, 3)) * LowHalf() == Right(p, 3)
      && 7 !in Right(p, 3)
  {
    forall i | i in high ensures i >= 16 {
      assert i !in high * LowHalf();
    }
    assert (high + p) * Range(0, 8) == p;
    assert (high + p) * Range(8, 32) == high;
  }

  lemma ParityByteFits(t: Word)
    ensures Fits(ParityByte(t), 8)
  {}

  lemma HalvesDisjoint(d4: Word, p: Word)
    ensures (d4 * HighHalf()) * LowHalf() == {}
    ensures ((d4 * HighHalf()) + p) * HighHalf() == (d4 * HighHalf()) + (p * HighHalf())
    ensures Fits(p, 16) ==> p * HighHalf() == {}
  {}

  lemma HighOfParityWord(d4: Word, t: Word)
    ensures ((d4 * HighHalf()) + ParityWord(t)) * HighHalf() == d4 * HighHalf()
  {}

  /** The first 29 operations on every CPU state, word and table. */
  lemma TwentyNine(s: Cpu, word: Word, rom: Rom)
    ensures var t := Taken(s.d1, word); var p := ParityByte(t);
      Operations(s, word, rom, 29) == Cpu(p, EvenCrc(t), TwentyThree(), s.d3, (s.d4 * HighHalf()) + Right(p, 3), s.d5,
        AddAddress(s.a0, 4), Cpu68k.Status.Status(s.sr.system, 2 in p, false, !OddWord(rom, t), false, 2 in p),
        s.pc, s.others)
  {
    hide Xor, Left, Right, Range, HighHalf, LowHalf, Number, TableBit, AddAddress, TwentyThree, Operation,
      ParityWord, Swapped, MaskedHalf, ParityByte, Fits, Moved;
    var t, high := Taken(s.d1, word), s.d4 * HighHalf();
    var p := ParityByte(t);
    BlocksCompose(s, word, rom, 0, 10);
    FirstBlock(s, word, rom);
    FirstBlockMeaning(t, s.d4);
    var s1 := Operations(s, word, rom, 10);
    BlocksCompose(s, word, rom, 10, 22);
    SecondBlock(s1, word, rom);
    SecondBlockMeaning(t);
    var s2 := Operations(s, word, rom, 22);
    assert s2.d0 == Right(U(t), 23) && s2.d1 == EvenCrc(t) && s2.d4 == high + ParityWord(t);
    BlocksCompose(s, word, rom, 22, 29);
    ThirdBlock(s2, word, rom);
    HalvesDisjoint(s.d4, p);
    MovedIsParityByte(t, s2.d0, high);
    HighOfParityWord(s.d4, t);
    ParityByteFits(t);
    ThirdBlockMeaning(p, high);
  }

  /** The closed form is the firmware's operation sequence: 29 operations when the parity
      bit is clear and 30 when it is set, in every register and every condition code. */
  lemma FoldIsPrefix(s: Cpu, word: Word, rom: Rom)
    ensures var count := if OddWord(rom, Taken(s.d1, word)) then 30 else 29;
      FoldWord(s, word, rom) == Operations(s, word, rom, count).(pc := AFTER)
  {
    TwentyNine(s, word, rom);
    hide Xor, Left, Right, Range, HighHalf, LowHalf, Number, TableBit, AddAddress, TwentyThree,
      ParityByte, EvenCrc, OddWord, Taken;
    assert Operations(s, word, rom, 30) == Operation(29, Operations(s, word, rom, 29), word, rom);
  }

  /** The flags a folded word leaves. After odd parity they are those of D1 as a number; after even
      parity Z is set, as the branch that skipped the correction left it. X is bit 2 of the parity
      byte left in D0. */
  ghost predicate FoldedFlags(r: Cpu, odd: bool) {
    && (r.sr.x <==> 2 in r.d0) && !r.sr.v
    && if odd
       then (r.sr.z <==> Number(r.d1) == 0) && (r.sr.n <==> Number(r.d1) >= 0x8000_0000) && !r.sr.c
       else r.sr.z && !r.sr.n && r.sr.c == r.sr.x
  }

  lemma FoldFlags(s: Cpu, word: Word, rom: Rom)
    ensures FoldedFlags(FoldWord(s, word, rom), OddWord(rom, Taken(s.d1, word)))
  {
    hide Xor, Left, Right, Range, Number, TableBit, ParityByte, EvenCrc, Logical, OddWord;
    var r := FoldWord(s, word, rom);
    NumberBits(r.d1, 0);
    LogicalMeans(Cpu68k.Status.Status(s.sr.system, 2 in r.d0, false, false, false, false), r.d1, 32);
  }
}
