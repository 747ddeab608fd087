/** Bit patterns and the numbers they denote. */
module WordNumbers {
  import opened Words
  import opened Bits

  lemma ByteZero(w: Word, k: nat)
    ensures ByteAt(w, k) == 0 <==> forall j :: k <= j < k + 8 ==> j !in w
  {}

  lemma ByteTop(w: Word, k: nat)
    ensures ByteAt(w, k) >= 128 <==> k + 7 in w
  {}

  /** Two to the size of a byte, word or longword. */
  function Size(bits: nat): nat { if bits == 8 then 0x100 else if bits == 16 then 0x1_0000 else 0x1_0000_0000 }

  /** Zero and sign of the low 8, 16 or 32 bits, on the number. */
  lemma LowBits(w: Word, bits: nat)
    requires bits in {8, 16, 32}
    ensures w * Range(0, bits) == {} <==> Number(w) % Size(bits) == 0
    ensures bits - 1 in w <==> Number(w) % Size(bits) >= Size(bits) / 2
  {
    hide ByteAt;
    ByteZero(w, 0);
    ByteZero(w, 8);
    ByteZero(w, 16);
    ByteZero(w, 24);
    ByteTop(w, 0);
    ByteTop(w, 8);
    ByteTop(w, 24);
    LowPart(ByteAt(w, 0), ByteAt(w, 8), ByteAt(w, 16), ByteAt(w, 24));
    EmptyLow(w, bits);
  }

  lemma EmptyLow(w: Word, bits: nat)
    requires bits <= 32
    ensures w * Range(0, bits) == {} <==> forall j :: 0 <= j < bits ==> j !in w
  {
    var low := w * Range(0, bits);
    assert forall j :: 0 <= j < bits && Bit(j) && j in w ==> j in low;
    assert forall j :: j in w ==> Bit(j);
  }

  lemma LowPart(a: nat, b: nat, c: nat, d: nat)
    requires a < 256 && b < 256 && c < 256 && d < 256
    ensures var n := a + 0x100 * b + 0x1_0000 * c + 0x100_0000 * d;
      n % 0x100 == a && n % 0x1_0000 == a + 0x100 * b && n < 0x1_0000_0000
  {}

  /** The number in the m bits from k up. */
  function Tail(w: Word, k: nat, m: nat): nat
    decreases m
  {
    if m == 0 then 0 else (if k in w then 1 else 0) + 2 * Tail(w, k + 1, m - 1)
  }

  lemma {:induction false} TailBits(w: Word, k: nat, m: nat, i: nat)
    ensures BitOf(Tail(w, k, m), i) <==> i < m && k + i in w
    decreases m
  {
    if m == 0 {
      ZeroBits(i);
    } else if i > 0 {
      TailBits(w, k + 1, m - 1, i - 1);
    }
  }

  lemma {:induction false} TailBound(w: Word, k: nat, m: nat)
    ensures Tail(w, k, m) < Power(m)
    decreases m
  {
    if m > 0 { TailBound(w, k + 1, m - 1); }
  }

  lemma {:induction false} TailSplits(w: Word, k: nat, m: nat, n: nat)
    ensures Tail(w, k, m + n) == Tail(w, k, m) + Power(m) * Tail(w, k + m, n)
    decreases m
  {
    if m > 0 {
      TailSplits(w, k + 1, m - 1, n);
      var t := Tail(w, k + m, n);
      TwiceTimes(Power(m - 1), t);
      assert Tail(w, k + 1, m - 1 + n) == Tail(w, k + 1, m - 1) + Power(m - 1) * t;
      assert m + n - 1 == m - 1 + n;
    }
  }

  lemma ByteAtIs(w: Word, k: nat)
    ensures ByteAt(w, k) == Tail(w, k, 8)
  {
    assert Tail(w, k + 8, 0) == 0 && Tail(w, k + 7, 1) == if k + 7 in w then 1 else 0;
    assert Tail(w, k + 6, 2) == (if k + 6 in w then 1 else 0) + (if k + 7 in w then 2 else 0);
    assert Tail(w, k + 4, 4)
        == (if k + 4 in w then 1 else 0) + (if k + 5 in w then 2 else 0) + 4 * Tail(w, k + 6, 2);
    assert Tail(w, k + 2, 6)
        == (if k + 2 in w then 1 else 0) + (if k + 3 in w then 2 else 0) + 4 * Tail(w, k + 4, 4);
    assert Tail(w, k, 8) == (if k in w then 1 else 0) + (if k + 1 in w then 2 else 0) + 4 * Tail(w, k + 2, 6);
  }

  lemma NumberIs(w: Word)
    ensures Number(w) == Tail(w, 0, 32)
  {
    hide ByteAt, Tail;
    assert Power(8) == 256;
    ByteAtIs(w, 0);
    ByteAtIs(w, 8);
    ByteAtIs(w, 16);
    ByteAtIs(w, 24);
    TailSplits(w, 0, 8, 24);
    TailSplits(w, 8, 8, 16);
    TailSplits(w, 16, 8, 8);
  }

  /** A word is the set of its number's bits. */
  lemma NumberBits(w: Word, i: nat)
    ensures BitOf(Number(w), i) <==> i in w
    ensures Number(w) < Power(32) == 0x1_0000_0000
  {
    hide BitOf, Tail, Number;
    LongPower();
    NumberIs(w);
    TailBits(w, 0, 32, i);
    TailBound(w, 0, 32);
    assert i in w ==> Bit(i);
  }

  /** Symmetric difference is exclusive or. */
  lemma XorIs(a: Word, b: Word)
    ensures Number(Xor(a, b)) == XorNumber(Number(a), Number(b))
  {
    hide BitOf, Number;
    LongPower();
    NumberBits(a, 0);
    NumberBits(b, 0);
    NumberBits(Xor(a, b), 0);
    XorBound(Number(a), Number(b), 32);
    forall i | 0 <= i < 32
      ensures BitOf(Number(Xor(a, b)), i) == BitOf(XorNumber(Number(a), Number(b)), i)
    {
      NumberBits(a, i);
      NumberBits(b, i);
      NumberBits(Xor(a, b), i);
      XorBits(Number(a), Number(b), i);
    }
    SameBits(Number(Xor(a, b)), XorNumber(Number(a), Number(b)), 32);
  }

  lemma LongPower()
    ensures Power(32) == 0x1_0000_0000
  {
    assert Power(8) == 256;
    PowerAdds(8, 8);
    PowerAdds(16, 16);
  }

  /** Shifting right once more halves. */
  lemma RightIs(w: Word, k: nat)
    ensures Right(w, 0) == w && Number(Right(w, k + 1)) == Number(Right(w, k)) / 2
  {
    var a, b := Right(w, k), Right(w, k + 1);
    assert Right(w, 0) == w by { assert forall i :: i in w ==> Bit(i); }
    forall i | 0 <= i < 32 ensures i in b <==> i + 1 in a { assert Bit(i) && (i + 1 in a ==> Bit(i + 1)); }
    HalfNumber(a, b);
  }

  lemma HalfNumber(a: Word, b: Word)
    requires forall i :: 0 <= i < 32 ==> (i in b <==> i + 1 in a)
    ensures Number(b) == Number(a) / 2
  {
    hide Number;
    NumberBits(a, 0);
    NumberBits(b, 0);
    var n := Number(a);
    forall i | 0 <= i < 32 ensures BitOf(Number(b), i) == BitOf(n / 2, i) {
      NumberBits(b, i);
      NumberBits(a, i + 1);
      assert BitOf(n, i + 1) == BitOf(n / 2, i);
    }
    SameBits(Number(b), n / 2, 32);
  }

  /** Shifting left once more doubles, in 32 bits. */
  lemma LeftIs(w: Word, k: nat)
    ensures Left(w, 0) == w && Number(Left(w, k + 1)) == (2 * Number(Left(w, k))) % 0x1_0000_0000
  {
    var a, b := Left(w, k), Left(w, k + 1);
    assert Left(w, 0) == w by { assert forall i :: i in w ==> Bit(i); }
    forall i | 0 <= i < 32 ensures i in b <==> i > 0 && i - 1 in a {
      assert Bit(i) && (i > 0 ==> Bit(i - 1));
      assert i == 0 ==> i - (k + 1) !in w by { assert -(k + 1) in w ==> Bit(-(k + 1)); }
    }
    DoubleNumber(a, b);
  }

  lemma DoubleNumber(a: Word, b: Word)
    requires forall i :: 0 <= i < 32 ==> (i in b <==> i > 0 && i - 1 in a)
    ensures Number(b) == (2 * Number(a)) % 0x1_0000_0000
  {
    hide Number;
    NumberBits(a, 0);
    NumberBits(b, 0);
    var n := 2 * Number(a);
    var high, low := n / Power(32), n % Power(32);
    forall i | 0 <= i < 32 ensures BitOf(Number(b), i) == BitOf(low, i) {
      NumberBits(b, i);
      JoinedBits(high, low, 32, i);
      assert n == Power(32) * high + low;
      if i > 0 {
        NumberBits(a, i - 1);
        assert BitOf(n, i) == BitOf(n / 2, i - 1);
      }
    }
    SameBits(Number(b), low, 32);
  }
}
