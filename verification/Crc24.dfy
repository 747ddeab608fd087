/** The OS-9 module CRC of recompiler/src/disc_parser.c: a bit-serial 24-bit register,
    most significant bit first, polynomial 0x800063, seeded with all ones. */
module Crc24 {
  import opened Words

  type Octet = w: Word | Fits(w, 8)

  const SEED: Word := Range(0, 24)              // 0xFFFFFF
  const POLYNOMIAL: Word := {0, 1, 5, 6, 23}    // 0x800063
  const RESIDUE: Word := {0, 1, 23} + Range(5, 12) // 0x800FE3

  lemma SeedNumber()
    ensures Number(SEED) == 0xFF_FFFF
  {
    assert ByteAt(SEED, 0) == 0xFF;
    assert ByteAt(SEED, 8) == 0xFF;
    assert ByteAt(SEED, 16) == 0xFF;
    assert ByteAt(SEED, 24) == 0x00;
  }

  lemma PolynomialNumber()
    ensures Number(POLYNOMIAL) == 0x80_0063
  {
    assert ByteAt(POLYNOMIAL, 0) == 0x63;
    assert ByteAt(POLYNOMIAL, 8) == 0x00;
    assert ByteAt(POLYNOMIAL, 16) == 0x80;
    assert ByteAt(POLYNOMIAL, 24) == 0x00;
  }

  lemma ResidueNumber()
    ensures Number(RESIDUE) == 0x80_0FE3
  {
    assert ByteAt(RESIDUE, 0) == 0xE3;
    assert ByteAt(RESIDUE, 8) == 0x0F;
    assert ByteAt(RESIDUE, 16) == 0x80;
    assert ByteAt(RESIDUE, 24) == 0x00;
  }

  /** One iteration of the inner loop. Bits above the 24th are left to pile up. */
  function BitStep(crc: Word): Word {
    var s := Left(crc, 1);
    if 24 in s then Xor(s, POLYNOMIAL) else s
  }

  function BitSteps(crc: Word, n: nat): Word {
    if n == 0 then crc else BitStep(BitSteps(crc, n - 1))
  }

  function ByteStep(crc: Word, data: Octet): Word {
    BitSteps(Xor(crc, Left(data, 16)), 8) * Range(0, 24)
  }

  /** The register after feeding `data` from state `crc`. */
  function Feed(crc: Word, data: seq<Octet>): Word {
    if data == [] then crc else ByteStep(Feed(crc, data[..|data| - 1]), data[|data| - 1])
  }

  /** The accumulator loops exactly as written. */
  method ModuleCrc24(data: seq<Octet>) returns (crc: Word)
    ensures crc == Feed(SEED, data)
  {
    hide Xor, Left, Range, Fits;
    crc := SEED;
    var i := 0;
    while i < |data|
      invariant 0 <= i <= |data|
      invariant crc == Feed(SEED, data[..i])
    {
      assert data[..i + 1][..i] == data[..i];
      crc := Xor(crc, Left(data[i], 16));
      ghost var start := crc;
      var b := 0;
      while b < 8
        invariant 0 <= b <= 8
        invariant crc == BitSteps(start, b)
      {
        crc := Left(crc, 1);
        if 24 in crc { crc := Xor(crc, POLYNOMIAL); }
        b := b + 1;
      }
      crc := crc * Range(0, 24);
      i := i + 1;
    }
    assert data[..|data|] == data;
  }

  // ----- the register as a linear map on 24-bit words -----

  /** The same step with the register masked every time. */
  function Step(x: Word): (r: Word)
    ensures Fits(r, 24)
  {
    set i | 0 <= i < 24 && Bit(i) && ((i - 1 in x) != (23 in x && i in {0, 1, 5, 6, 23}))
  }

  function Steps(x: Word, n: nat): (r: Word)
    ensures Fits(x, 24) ==> Fits(r, 24)
  {
    if n == 0 then x else Step(Steps(x, n - 1))
  }

  lemma {:induction false} LateMask(crc: Word, n: nat)
    ensures BitSteps(crc, n) * Range(0, 24) == Steps(crc * Range(0, 24), n)
  {
    if n > 0 {
      LateMask(crc, n - 1);
      var x := BitSteps(crc, n - 1);
      assert BitStep(x) * Range(0, 24) == Step(x * Range(0, 24));
    }
  }

  lemma StepLinear(a: Word, b: Word)
    ensures Step(Xor(a, b)) == Xor(Step(a), Step(b))
  {}

  lemma {:induction false} StepsLinear(a: Word, b: Word, n: nat)
    ensures Steps(Xor(a, b), n) == Xor(Steps(a, n), Steps(b, n))
  {
    hide Xor, Step;
    if n > 0 {
      StepsLinear(a, b, n - 1);
      StepLinear(Steps(a, n - 1), Steps(b, n - 1));
    }
  }

  lemma {:induction false} StepsAdd(x: Word, m: nat, n: nat)
    ensures Steps(Steps(x, m), n) == Steps(x, m + n)
  {
    hide Step;
    if n > 0 { StepsAdd(x, m, n - 1); }
  }

  /** The polynomial is odd, so the bit that was shifted out can be read off the bottom. */
  lemma StepInjective(a: Word, b: Word)
    requires Fits(a, 24) && Fits(b, 24) && Step(a) == Step(b)
    ensures a == b
  {
    assert 23 in a <==> 0 in Step(a);
    assert 23 in b <==> 0 in Step(b);
    forall i | 0 <= i < 23 ensures i in a <==> i in b {
      assert i + 1 in Step(a) <==> (i in a) != (23 in a && i + 1 in POLYNOMIAL);
      assert i + 1 in Step(b) <==> (i in b) != (23 in b && i + 1 in POLYNOMIAL);
    }
  }

  lemma {:induction false} StepsInjective(a: Word, b: Word, n: nat)
    requires Fits(a, 24) && Fits(b, 24) && Steps(a, n) == Steps(b, n)
    ensures a == b
  {
    hide Step, Fits;
    if n > 0 {
      StepInjective(Steps(a, n - 1), Steps(b, n - 1));
      StepsInjective(a, b, n - 1);
    }
  }

  // ----- whole bytes -----

  /** Three bytes as one big-endian 24-bit word. */
  function Word24(b0: Octet, b1: Octet, b2: Octet): (r: Word)
    ensures Fits(r, 24)
  {
    Xor(Xor(Left(b0, 16), Left(b1, 8)), b2)
  }

  lemma ByteIsSteps(crc: Word, data: Octet)
    requires Fits(crc, 24)
    ensures ByteStep(crc, data) == Steps(Xor(crc, Left(data, 16)), 8)
  {
    var x := Xor(crc, Left(data, 16));
    LateMask(x, 8);
    assert x * Range(0, 24) == x;
  }

  lemma OctetFits(data: Octet)
    ensures Fits(data, 8)
  {}

  /** Steps over bits that have not reached the top only shift them. */
  lemma {:induction false} StepsShift(x: Word, n: nat)
    requires n <= 24 && Fits(x, 24 - n)
    ensures Steps(x, n) == Left(x, n)
  {
    if n == 0 {
      assert Left(x, 0) == x;
    } else {
      StepsShift(x, n - 1);
      assert 23 !in Left(x, n - 1);
      assert Step(Left(x, n - 1)) == Left(x, n);
    }
  }

  /** Three bytes fed together act as one 24-bit word. */
  lemma ThreeBytes(crc: Word, b0: Octet, b1: Octet, b2: Octet)
    requires Fits(crc, 24)
    ensures ByteStep(ByteStep(ByteStep(crc, b0), b1), b2) == Steps(Xor(crc, Word24(b0, b1, b2)), 24)
  {
    var m := Left(b1, 8);
    var x0 := Xor(crc, Left(b0, 16));
    var x1 := Xor(x0, m);
    var x2 := Xor(x1, b2);
    assert Fits(x0, 24) && Fits(x1, 24) && Fits(m, 16);
    assert Left(m, 8) == Left(b1, 16);
    assert x2 == Xor(crc, Word24(b0, b1, b2));
    hide Xor, Left, Step, ByteStep, Word24, Fits;
    ByteIsSteps(crc, b0);
    ByteIsSteps(Steps(x0, 8), b1);
    StepsShift(m, 8);
    StepsLinear(x0, m, 8);
    StepsAdd(x1, 8, 8);
    ByteIsSteps(Steps(x1, 16), b2);
    OctetFits(b2);
    StepsShift(b2, 16);
    StepsLinear(x1, b2, 16);
    StepsAdd(x2, 16, 8);
  }

  /** Four bytes fed together: the first three as a word, the last one over eight steps. */
  lemma FourBytes(crc: Word, b0: Octet, b1: Octet, b2: Octet, b3: Octet)
    requires Fits(crc, 24)
    ensures ByteStep(ByteStep(ByteStep(ByteStep(crc, b0), b1), b2), b3)
         == Xor(Steps(Xor(crc, Word24(b0, b1, b2)), 32), Steps(Left(b3, 16), 8))
  {
    var x := Xor(crc, Word24(b0, b1, b2));
    ThreeBytes(crc, b0, b1, b2);
    ByteIsSteps(Steps(x, 24), b3);
    StepsLinear(Steps(x, 24), Left(b3, 16), 8);
    StepsAdd(x, 24, 8);
  }

  // ----- the footer -----

  lemma {:induction false} FeedFits(crc: Word, data: seq<Octet>)
    requires Fits(crc, 24)
    ensures Fits(Feed(crc, data), 24)
  {}

  lemma {:induction false} FeedAppend(crc: Word, a: seq<Octet>, b: seq<Octet>)
    ensures Feed(crc, a + b) == Feed(Feed(crc, a), b)
  {
    if b == [] {
      assert a + b == a;
    } else {
      FeedAppend(crc, a, b[..|b| - 1]);
      assert (a + b)[..|a + b| - 1] == a + b[..|b| - 1];
    }
  }

  lemma FeedThree(crc: Word, data: seq<Octet>)
    requires |data| == 3
    ensures Feed(crc, data) == ByteStep(ByteStep(ByteStep(crc, data[0]), data[1]), data[2])
  {
    hide ByteStep;
    assert data[..2][..1][..0] == [];
    assert Feed(crc, data[..2][..1]) == ByteStep(crc, data[0]);
    assert Feed(crc, data[..2]) == ByteStep(ByteStep(crc, data[0]), data[1]);
  }

  /** The register after 2k steps from all ones. */
  function Orbit(k: nat): Word
    requires k <= 9
  {
    Xor(Xor(Range(1, 6), {2 * k}), Range(6 + 2 * k, 24))
  }

  /** The same one step later. */
  function Between(k: nat): Word
    requires k < 9
  {
    Xor(Xor(Range(0, 5), {2 * k + 1}), Range(7 + 2 * k, 23))
  }

  lemma OrbitOut(k: nat)
    requires k < 9
    ensures Step(Orbit(k)) == Between(k)
  {
    assert 23 in Orbit(k);
  }

  lemma OrbitBack(k: nat)
    requires k < 9
    ensures Step(Between(k)) == Orbit(k + 1)
  {
    assert 23 !in Between(k);
  }

  lemma {:induction false} OnesOrbit(k: nat)
    requires k <= 9
    ensures Steps(SEED, 2 * k) == Orbit(k)
  {
    if k == 0 {
      assert SEED == Orbit(0);
    } else {
      hide Step, Orbit, Between;
      OnesOrbit(k - 1);
      OrbitOut(k - 1);
      OrbitBack(k - 1);
      assert Steps(SEED, 2 * k) == Step(Steps(SEED, 2 * k - 1));
    }
  }

  lemma LastOrbit()
    ensures Fits(Orbit(9), 19)
    ensures Left(Orbit(9), 5) == Range(6, 11) + {23}
  {
    assert Orbit(9) == Range(1, 6) + {18};
  }

  lemma LastStep()
    ensures Step(Range(6, 11) + {23}) == RESIDUE
  {
    var y: Word := Range(6, 11) + {23};
    assert forall i :: 0 <= i < 32 && Bit(i) ==> (i in Step(y) <==> i in RESIDUE);
  }

  /** 24 steps over all ones leave the residue of every good module. */
  lemma ResidueOfOnes()
    ensures Steps(SEED, 24) == RESIDUE
  {
    hide Orbit, Left, Range, Step, Fits;
    LastOrbit();
    LastStep();
    OnesOrbit(9);
    StepsShift(Orbit(9), 5);
    StepsAdd(SEED, 18, 5);
    assert Steps(SEED, 24) == Step(Steps(SEED, 23));
  }

  /** A module checks out exactly when its last three bytes are the big-endian
      complement of the CRC of everything before them. */
  lemma FooterResidue(message: seq<Octet>, footer: seq<Octet>)
    requires |footer| == 3
    ensures Feed(SEED, message + footer) == RESIDUE
       <==> Word24(footer[0], footer[1], footer[2]) == Range(0, 24) - Feed(SEED, message)
  {
    var c := Feed(SEED, message);
    var f := Word24(footer[0], footer[1], footer[2]);
    FeedFits(SEED, message);
    FeedAppend(SEED, message, footer);
    FeedThree(c, footer);
    ThreeBytes(c, footer[0], footer[1], footer[2]);
    ResidueOfOnes();
    assert Xor(c, f) == SEED <==> f == Range(0, 24) - c;
    if Steps(Xor(c, f), 24) == RESIDUE {
      StepsInjective(Xor(c, f), SEED, 24);
    }
  }
}
