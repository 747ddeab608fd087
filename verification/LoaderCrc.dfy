/** The native word fold computes the OS-9 module CRC, four bytes at a time. */
module LoaderCrc {
  import opened Words
  import opened Bits
  import opened WordNumbers
  import opened Crc24
  import opened LoaderMath

  function Low24(w: Word): Word { w * Range(0, 24) }

  /** What the ROM bitmap at 0x6BC0 holds, eight bytes' parities to a byte: bit v % 8 of the byte at
      v / 8 says whether v has an odd number of ones. */
  ghost predicate HoldsParity(rom: Rom) {
    forall p: Octet :: Number(p) % 8 in rom(0x6BC0 + Number(p) / 8) <==> Odd(p)
  }

  /** Where the firmware looks for a byte's parity. */
  lemma TableIndex(p: Octet)
    ensures Number(Right(p, 3)) == Number(p) / 8 && Number(p * Range(0, 3)) == Number(p) % 8
  {
    hide Number, BitOf;
    RightIs(p, 0);
    RightIs(p, 1);
    RightIs(p, 2);
    LowThree(p, p * Range(0, 3));
    Eighth(Number(p));
  }

  lemma Eighth(n: nat)
    ensures n / 2 / 2 / 2 == n / 8
  {}

  lemma LowThree(p: Word, b: Word)
    requires b == p * Range(0, 3)
    ensures Number(b) == Number(p) % 8
  {
    hide Number, BitOf;
    NumberBits(b, 0);
    var n := Number(p);
    assert Power(3) == 8;
    forall i | 0 <= i < 32 ensures BitOf(Number(b), i) == BitOf(n % 8, i) {
      NumberBits(b, i);
      NumberBits(p, i);
      JoinedBits(n / 8, n % 8, 3, i);
      if i >= 3 { HighBits(n % 8, 3, i); }
      assert Bit(i);
    }
    SameBits(Number(b), n % 8, 32);
  }

  lemma ParityLooksUp(rom: Rom, p: Octet)
    requires HoldsParity(rom)
    ensures TableBit(rom, Right(p, 3), p * Range(0, 3)) <==> Odd(p)
  {
    hide Number, Right, Range;
    TableIndex(p);
  }

  /** 0x800021, the correction the loader keeps in D5. */
  function Correction(): Word { Range(0, 1) + Range(5, 6) + Range(23, 24) }

  lemma CorrectionNumber()
    ensures Number(Correction()) == 0x80_0021
  {
    assert ByteAt(Correction(), 0) == 0x21;
    assert ByteAt(Correction(), 8) == 0;
    assert ByteAt(Correction(), 16) == 0x80;
    assert ByteAt(Correction(), 24) == 0;
  }

  /** The low 24 bits of the fold, given a parity bitmap. */
  function Closed(t: Word): Word {
    Xor(EvenCrc(t) * Range(0, 24), if Odd(ParityByte(t)) then Correction() else {})
  }

  /** The bit-serial register, given the 32 bits it still has to take in. */
  function Serial(t: Word): Word {
    Xor(Steps(Right(t, 8), 32), Steps(Left(t * Range(0, 8), 16), 8))
  }

  // ----- both are linear -----

  lemma ULinear(a: Word, b: Word)
    ensures U(Xor(a, b)) == Xor(U(a), U(b))
  {}

  function Middle(t: Word): Word { Left(Right(t, 16) * Range(2, 16), 3) }

  lemma MiddleLinear(a: Word, b: Word)
    ensures Middle(Xor(a, b)) == Xor(Middle(a), Middle(b))
  {}

  lemma TopLinear(a: Word, b: Word)
    ensures Right(Xor(a, b), 23) == Xor(Right(a, 23), Right(b, 23))
  {}

  /** The sum of three linear parts, shifted. */
  lemma SumLinear(u: Word, m: Word, r: Word, u': Word, m': Word, r': Word)
    ensures Left(Xor(Xor(Xor(u, u'), Xor(m, m')), Xor(r, r')), 1)
         == Xor(Left(Xor(Xor(u, m), r), 1), Left(Xor(Xor(u', m'), r'), 1))
  {}

  lemma EvenCrcLinear(a: Word, b: Word)
    ensures EvenCrc(Xor(a, b)) == Xor(EvenCrc(a), EvenCrc(b))
  {
    hide U, Left, Right, Range, Xor;
    ULinear(a, b);
    MiddleLinear(a, b);
    TopLinear(U(a), U(b));
    SumLinear(U(a), Middle(a), Right(U(a), 23), U(b), Middle(b), Right(U(b), 23));
  }

  lemma ParityByteLinear(a: Word, b: Word)
    ensures ParityByte(Xor(a, b)) == Xor(ParityByte(a), ParityByte(b))
  {
    assert ParityWord(Xor(a, b)) == Xor(ParityWord(a), ParityWord(b));
    hide ParityWord;
  }

  lemma ClosedLinear(a: Word, b: Word)
    ensures Closed(Xor(a, b)) == Xor(Closed(a), Closed(b))
  {
    EvenCrcLinear(a, b);
    ParityByteLinear(a, b);
    OddXor(ParityByte(a), ParityByte(b));
    hide EvenCrc, ParityByte, Odd, Correction;
  }

  lemma SerialLinear(a: Word, b: Word)
    ensures Serial(Xor(a, b)) == Xor(Serial(a), Serial(b))
  {
    assert Right(Xor(a, b), 8) == Xor(Right(a, 8), Right(b, 8));
    assert Left(Xor(a, b) * Range(0, 8), 16) == Xor(Left(a * Range(0, 8), 16), Left(b * Range(0, 8), 16));
    hide Steps, Left, Right, Range;
    StepsLinear(Right(a, 8), Right(b, 8), 32);
    StepsLinear(Left(a * Range(0, 8), 16), Left(b * Range(0, 8), 16), 8);
  }

  // ----- and agree on single bits -----

  /** The fold of the single bit j. */
  function BasisForm(j: nat): Word {
    if j < 18 then Xor(Single(j + 1) + Single(j + 6), Correction())
    else if j < 23 then Single(j + 1) + Single(j - 12) + Single(j - 17)
    else Xor(Single(j - 12) + Single(j - 22), Correction())
  }

  /** The word with only bit j set. */
  function Single(j: nat): Word { Range(j, j + 1) }

  lemma SingleParityWord(j: nat)
    requires j < 32
    ensures ParityWord(Single(j)) == if j < 16 then Single(j) else if 18 <= j < 23 then {} else Single(j - 16)
  {}

  lemma SingleParityByte(j: nat)
    requires j < 16
    ensures Xor(Right(Single(j), 8), Single(j)) * Range(0, 8) == Single(if j < 8 then j else j - 8)
    ensures Xor(Right({}, 8), {}) * Range(0, 8) == {}
  {}

  lemma SingleOdd(j: nat)
    requires j < 32
    ensures Odd(Single(j)) && !Odd({})
  {
    assert Single(j) == {j};
  }

  lemma SingleParity(j: nat)
    requires j < 32
    ensures Odd(ParityByte(Single(j))) <==> !(18 <= j < 23)
  {
    hide Xor, Right, Range, Odd, ParityWord, Single;
    var k := if j < 16 then j else j - 16;
    SingleParityWord(j);
    SingleParityByte(k);
    SingleOdd(if k < 8 then k else k - 8);
  }

  lemma SingleU(j: nat)
    requires j < 32
    ensures U(Single(j)) == if j < 23 then Single(j) + Single(j + 5) else Single(j)
    ensures Left(Right(Single(j), 16) * Range(2, 16), 3) == if j < 18 then {} else Single(j - 13)
  {}

  lemma SingleTop(j: nat)
    requires j < 32
    ensures Right(Single(j), 23) == if j < 23 then {} else Single(j - 23)
    ensures j < 23 ==> Right(Single(j) + Single(j + 5), 23) == if j < 18 then {} else Single(j - 18)
  {}

  lemma SingleSum(j: nat)
    requires j < 32
    ensures j < 18 ==>
      Left(Xor(Xor(Single(j) + Single(j + 5), {}), {}), 1) * Range(0, 24) == Single(j + 1) + Single(j + 6)
    ensures 18 <= j < 23 ==>
      Left(Xor(Xor(Single(j) + Single(j + 5), Single(j - 13)), Single(j - 18)), 1) * Range(0, 24)
        == Single(j + 1) + Single(j - 12) + Single(j - 17)
    ensures 23 <= j ==>
      Left(Xor(Xor(Single(j), Single(j - 13)), Single(j - 23)), 1) * Range(0, 24) == Single(j - 12) + Single(j - 22)
  {}

  lemma SingleCrc(j: nat)
    requires j < 32
    ensures Xor(EvenCrc(Single(j)) * Range(0, 24), if 18 <= j < 23 then {} else Correction()) == BasisForm(j)
  {
    hide Left, Right, Correction, Range, U, Single;
    SingleU(j);
    SingleTop(j);
    SingleSum(j);
  }

  lemma BasisStep(j: nat)
    requires j < 31
    ensures Step(BasisForm(j)) == BasisForm(j + 1)
  {}

  lemma BasisStart()
    ensures Fits(Single(0), 1) && Left(Single(0), 23) == Single(23) && Step(Single(23)) == BasisForm(0)
  {}

  lemma {:induction false} BasisOrbit(j: nat)
    requires j < 32
    ensures Steps(Single(0), 24 + j) == BasisForm(j)
  {
    if j == 0 {
      hide Step, BasisForm, Single, Left;
      BasisStart();
      StepsShift(Single(0), 23);
    } else {
      hide Step, BasisForm;
      BasisOrbit(j - 1);
      BasisStep(j - 1);
    }
  }

  lemma SingleMoves(j: nat)
    requires j < 32
    ensures j < 8 ==> Right(Single(j), 8) == {} && Left(Single(j) * Range(0, 8), 16) == Left(Single(0), 16 + j)
    ensures j >= 8 ==> Right(Single(j), 8) == Left(Single(0), j - 8) && Left(Single(j) * Range(0, 8), 16) == {}
    ensures Fits(Single(0), 1)
  {}

  lemma XorNothing(w: Word)
    ensures Xor({}, w) == w == Xor(w, {})
  {}

  lemma FitsMore(w: Word, m: nat, n: nat)
    requires Fits(w, m) && m <= n
    ensures Fits(w, n)
  {}

  lemma SerialSingle(j: nat)
    requires j < 32
    ensures Serial(Single(j)) == Steps(Single(0), 24 + j)
  {
    hide Left, Right, Xor, Range, Single, Fits, Step;
    SingleMoves(j);
    var k := if j < 8 then 16 + j else j - 8;
    FitsMore(Single(0), 1, 24 - k);
    StepsShift(Single(0), k);
    NoSteps(32);
    NoSteps(8);
    StepsAdd(Single(0), k, if j < 8 then 8 else 32);
    XorNothing(Steps(Single(0), 24 + j));
  }

  lemma {:induction false} NoSteps(n: nat)
    ensures Steps({}, n) == {}
  {
    if n > 0 {
      NoSteps(n - 1);
      assert Step({}) == {};
    }
  }

  lemma SingleAgrees(j: nat)
    requires j < 32
    ensures Closed(Single(j)) == Serial(Single(j))
  {
    hide EvenCrc, ParityByte, Correction, Odd, BasisForm, Serial, Steps;
    SingleParity(j);
    SingleCrc(j);
    SerialSingle(j);
    BasisOrbit(j);
  }

  // ----- hence everywhere -----

  lemma Pick<T>(s: set<T>) returns (j: T)
    requires s != {}
    ensures j in s
  {
    j :| j in s;
  }

  lemma {:induction false} ClosedIsSerial(t: Word)
    ensures Closed(t) == Serial(t)
    decreases |t|
  {
    if t != {} {
      var j := Pick(t);
      var rest: Word := t - {j};
      assert Xor(Single(j), rest) == t;
      ClosedIsSerial(rest);
      SingleAgrees(j);
      ClosedLinear(Single(j), rest);
      SerialLinear(Single(j), rest);
    } else {
      assert Xor(t, t) == t;
      ClosedLinear(t, t);
      SerialLinear(t, t);
    }
  }

  /** The four bytes of a word, big end first. */
  function Bytes(word: Word): seq<Octet> {
    [Right(word, 24), Right(word, 16) * Range(0, 8), Right(word, 8) * Range(0, 8), word * Range(0, 8)]
  }

  lemma WordSplits(d1: Word, word: Word)
    ensures var t := Taken(d1, word); var b := Bytes(word);
      && Xor(d1 * Range(0, 24), Word24(b[0], b[1], b[2])) == Right(t, 8)
      && b[3] == t * Range(0, 8)
  {}

  lemma FeedFour(crc: Word, b: seq<Octet>)
    requires |b| == 4
    ensures Feed(crc, b) == ByteStep(ByteStep(ByteStep(ByteStep(crc, b[0]), b[1]), b[2]), b[3])
  {
    hide ByteStep;
    FeedThree(crc, b[..3]);
  }

  /** One native fold moves the low 24 bits of D1 exactly as the bit-serial CRC does over
      the fetched word's four bytes, whatever else the CPU holds. */
  lemma FoldIsFourBytes(s: Cpu, word: Word, rom: Rom)
    requires HoldsParity(rom) && Low24(s.d5) == Correction()
    ensures Low24(FoldWord(s, word, rom).d1) == Feed(Low24(s.d1), Bytes(word))
  {
    var t := Taken(s.d1, word);
    var crc: Word := s.d1 * Range(0, 24);
    var b := Bytes(word);
    assert FoldWord(s, word, rom).d1 * Range(0, 24) == Closed(t) by {
      var p := ParityByte(t);
      ParityByteFits(t);
      ParityLooksUp(rom, p);
      assert OddWord(rom, t) <==> Odd(p);
      MaskXor(EvenCrc(t), s.d5);
      hide EvenCrc, ParityByte, Odd;
    }
    hide FoldWord, Closed, Taken, Bytes, Word24, ByteStep;
    ClosedIsSerial(t);
    WordSplits(s.d1, word);
    FeedFour(crc, b);
    assert Fits(crc, 24);
    FourBytes(crc, b[0], b[1], b[2], b[3]);
  }

  lemma MaskXor(a: Word, b: Word)
    ensures Xor(a, b) * Range(0, 24) == Xor(a * Range(0, 24), b * Range(0, 24))
    ensures Xor(a * Range(0, 24), {}) == a * Range(0, 24)
  {}
}
