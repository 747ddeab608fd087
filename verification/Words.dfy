/** Unsigned 32-bit words seen as bit patterns: a word is the set of its one bits. */
module Words {

  predicate Bit(i: int) { 0 <= i < 32 }

  type Word = w: set<int> | forall i :: i in w ==> Bit(i)

  /** Bits lo, ..., hi-1. */
  function Range(lo: nat, hi: nat): Word {
    set i | 0 <= i < 32 && Bit(i) && lo <= i < hi
  }

  function Xor(a: Word, b: Word): Word {
    (a - b) + (b - a)
  }

  /** `w << k` in 32 bits. */
  function Left(w: Word, k: nat): Word {
    set i | 0 <= i < 32 && Bit(i) && i - k in w
  }

  /** `w >> k`. */
  function Right(w: Word, k: nat): Word {
    set i | 0 <= i < 32 && Bit(i) && i + k in w
  }

  predicate Fits(w: Word, bits: nat) {
    forall i :: i in w ==> i < bits
  }

  /** The number in the eight bits from k up. */
  function ByteAt(w: Word, k: nat): (n: nat)
    ensures n < 256
  {
    (if k in w then 1 else 0) + (if k + 1 in w then 2 else 0) +
    (if k + 2 in w then 4 else 0) + (if k + 3 in w then 8 else 0) +
    (if k + 4 in w then 16 else 0) + (if k + 5 in w then 32 else 0) +
    (if k + 6 in w then 64 else 0) + (if k + 7 in w then 128 else 0)
  }

  /** The number a word denotes. */
  function Number(w: Word): nat {
    ByteAt(w, 0) + 0x100 * ByteAt(w, 8) + 0x1_0000 * ByteAt(w, 16) + 0x100_0000 * ByteAt(w, 24)
  }

  /** Odd number of one bits. */
  predicate Odd(w: Word) {
    |w| % 2 == 1
  }

  lemma OddXor(a: Word, b: Word)
    ensures Odd(Xor(a, b)) <==> Odd(a) != Odd(b)
  {
    assert a == (a - b) + (a * b);
    assert b == (b - a) + (a * b);
    assert |a| == |a - b| + |a * b| && |b| == |b - a| + |a * b|;
    assert |(a - b) + (b - a)| == |a - b| + |b - a|;
  }
}
