/** Incremental RAM hashing for differential co-simulation: the native side
    (runner/src/cosim_state.c) and the oracle side (oracle/cosim_state.cpp). */
module CosimHash {
  import opened Guest
  import opened Bits

  const PAGE := 4096
  const PAGES := 128            // per bank
  const U64 := 0x1_0000_0000_0000_0000
  const U32 := 0x1_0000_0000
  const BASIS := 0x1465_0FB0_739D_0383
  const PRIME := 0x0000_0100_0000_01B3
  const CANARY := 0xC051_7EC0_517E_C051

  type Hash = x: int | 0 <= x < U64

  // ----- FNV-1a -----

  function XorByte(a: byte, b: byte): byte {
    assert Power(8) == 256;
    XorBound(a, b, 8);
    XorNumber(a, b)
  }

  function FnvStep(h: Hash, b: byte): Hash {
    ((h - h % 256 + XorByte(h % 256, b)) * PRIME) % U64
  }

  /** One step on numbers: exclusive or with the byte, times the prime, in 64 bits. */
  lemma FnvStepIs(h: Hash, b: byte)
    ensures FnvStep(h, b) == (XorNumber(h, b) * 0x100_0000_01B3) % 0x1_0000_0000_0000_0000
  {
    LowByteXor(h, b);
  }

  /** An exclusive or with a byte stays in the low byte. */
  lemma LowByteXor(h: Hash, b: byte)
    ensures h - h % 256 + XorByte(h % 256, b) == XorNumber(h, b)
  {
    hide XorNumber;
    assert Power(8) == 256;
    var high, low := h / 256, h % 256;
    XorLow(high, low, b, 8);
    assert h == 256 * high + low;
  }

  function Fnv(h: Hash, data: seq<byte>): Hash {
    if data == [] then h else FnvStep(Fnv(h, data[..|data| - 1]), data[|data| - 1])
  }

  method Fnv1a(h0: Hash, data: seq<byte>) returns (h: Hash)
    ensures h == Fnv(h0, data)
  {
    hide FnvStep;
    h := h0;
    var i := 0;
    while i < |data|
      invariant 0 <= i <= |data| && h == Fnv(h0, data[..i])
    {
      assert data[..i + 1][..i] == data[..i];
      h := FnvStep(h, data[i]);
      i := i + 1;
    }
    assert data[..|data|] == data;
  }

  lemma {:induction false} FnvAppend(h: Hash, a: seq<byte>, b: seq<byte>)
    ensures Fnv(h, a + b) == Fnv(Fnv(h, a), b)
  {
    hide FnvStep;
    if b == [] {
      assert a + b == a;
    } else {
      FnvAppend(h, a, b[..|b| - 1]);
      assert (a + b)[..|a + b| - 1] == a + b[..|b| - 1];
    }
  }

  /** The eight bytes of a hash, low end first, by repeated shifting. */
  function LittleEnd(v: Hash, n: nat): (s: seq<byte>)
    ensures |s| == n
  {
    if n == 0 then [] else [v % 256] + LittleEnd(v / 256, n - 1)
  }

  /** `v >> (8 * i)`. */
  function ShiftBytes(v: Hash, i: nat): Hash {
    if i == 0 then v else ShiftBytes(v, i - 1) / 256
  }

  lemma {:induction false} ShiftFirst(v: Hash, i: nat)
    requires i > 0
    ensures ShiftBytes(v, i) == ShiftBytes(v / 256, i - 1)
  {
    if i > 1 { ShiftFirst(v, i - 1); }
  }

  /** The oracle shifts the whole value for each byte instead. */
  lemma {:induction false} LittleEndAt(v: Hash, n: nat, i: nat)
    requires i < n
    ensures LittleEnd(v, n)[i] == ShiftBytes(v, i) % 256
  {
    if i > 0 {
      LittleEndAt(v / 256, n - 1, i - 1);
      ShiftFirst(v, i);
    }
  }

  // ----- bank hashes -----

  function Page(mem: Memory, q: nat): seq<byte>
    requires q < 2 * PAGES
  {
    mem[PAGE * q..PAGE * q + PAGE]
  }

  function PageHash(mem: Memory, q: nat): Hash
    requires q < 2 * PAGES
  {
    Fnv(BASIS, Page(mem, q))
  }

  /** Page hashes folded in order. */
  function FoldPages(h: Hash, hashes: seq<Hash>): Hash {
    if hashes == [] then h else Fnv(FoldPages(h, hashes[..|hashes| - 1]), LittleEnd(hashes[|hashes| - 1], 8))
  }

  function FoldStart(bank: nat): Hash { if bank == 0 then Fnv(BASIS, LittleEnd(CANARY, 8)) else BASIS }

  /** The hash of a bank computed from its bytes alone. */
  function BankHash(mem: Memory, bank: nat): Hash
    requires bank < 2
  {
    FoldPages(FoldStart(bank), PageHashes(mem, bank, PAGES))
  }

  function PageHashes(mem: Memory, bank: nat, n: nat): (s: seq<Hash>)
    requires bank < 2 && n <= PAGES
    ensures |s| == n && forall p :: 0 <= p < n ==> s[p] == PageHash(mem, bank * PAGES + p)
  {
    if n == 0 then [] else PageHashes(mem, bank, n - 1) + [PageHash(mem, bank * PAGES + n - 1)]
  }

  /** fold_bank_hash of the native side: one value after another. */
  method NativeFold(bank: nat, hashes: seq<Hash>) returns (h: Hash)
    ensures h == FoldPages(FoldStart(bank), hashes)
  {
    hide Fnv, LittleEnd;
    h := BASIS;
    if bank == 0 { h := Fnv1a(h, LittleEnd(CANARY, 8)); }
    var p := 0;
    while p < |hashes|
      invariant 0 <= p <= |hashes| && h == FoldPages(FoldStart(bank), hashes[..p])
    {
      assert hashes[..p + 1][..p] == hashes[..p];
      h := Fnv1a(h, LittleEnd(hashes[p], 8));
      p := p + 1;
    }
    assert hashes[..|hashes|] == hashes;
  }

  function Serialized(hashes: seq<Hash>): seq<byte> {
    if hashes == [] then [] else Serialized(hashes[..|hashes| - 1]) + LittleEnd(hashes[|hashes| - 1], 8)
  }

  lemma {:induction false} FoldIsOneBuffer(h: Hash, hashes: seq<Hash>)
    ensures FoldPages(h, hashes) == Fnv(h, Serialized(hashes))
  {
    hide LittleEnd;
    if hashes != [] {
      var n := |hashes| - 1;
      FoldIsOneBuffer(h, hashes[..n]);
      FnvAppend(h, Serialized(hashes[..n]), LittleEnd(hashes[n], 8));
    }
  }

  /** One value as the oracle writes it. */
  method OracleBytes(v: Hash) returns (buf: seq<byte>)
    ensures buf == LittleEnd(v, 8)
  {
    buf := [];
    var i := 0;
    while i < 8
      invariant 0 <= i <= 8 && |buf| == i
      invariant forall k :: 0 <= k < i ==> buf[k] == LittleEnd(v, 8)[k]
    {
      LittleEndAt(v, 8, i);
      buf := buf + [ShiftBytes(v, i) % 256];
      i := i + 1;
    }
  }

  /** fold_page_hashes of the oracle side: all the bytes in a buffer, hashed once. */
  method OracleFold(hashes: seq<Hash>, withCanary: bool) returns (h: Hash)
    ensures h == FoldPages(FoldStart(if withCanary then 0 else 1), hashes)
  {
    hide Fnv, LittleEnd, FoldPages;
    h := BASIS;
    if withCanary {
      var canary := OracleBytes(CANARY);
      h := Fnv1a(h, canary);
    }
    var buf: seq<byte> := [];
    var p := 0;
    while p < |hashes|
      invariant 0 <= p <= |hashes| && buf == Serialized(hashes[..p])
    {
      assert hashes[..p + 1][..p] == hashes[..p];
      var bytes := OracleBytes(hashes[p]);
      buf := buf + bytes;
      p := p + 1;
    }
    assert hashes[..|hashes|] == hashes;
    FoldIsOneBuffer(h, hashes);
    h := Fnv1a(h, buf);
  }

  // ----- which pages a write marks -----

  /** The page of a RAM byte, counting both banks through. */
  function PageOf(a: nat): (q: nat)
    requires InRam(a, 1)
    ensures q < 2 * PAGES
  {
    Offset(a) / PAGE
  }

  function ByteAddress(phys: nat, i: nat): nat { (phys + i) % U32 }

  /** The oracle marks the page of every byte that lies in RAM. */
  ghost predicate OracleMarks(phys: nat, n: nat, q: nat) {
    exists i: nat :: i < n && InRam(ByteAddress(phys, i), 1) && PageOf(ByteAddress(phys, i)) == q
  }

  /** The native side marks from the first page to the last, clipped to the starting bank. */
  predicate NativeMarks(phys: nat, n: nat, q: nat) {
    && n > 0 && phys < U32 && InRam(phys, 1)
    && var base := if phys < BANK then 0 else RAM1;
    && var last := (phys + n - 1) % U32;
    && var off1 := if last >= base && last - base < BANK then last - base else BANK - 1;
    && (phys - base) / PAGE <= q - (if base == 0 then 0 else PAGES) <= off1 / PAGE
  }

  /** No byte of the write lies in a RAM bank other than the one it starts in. */
  ghost predicate OneBank(phys: nat, n: nat) {
    forall i: nat :: i < n && InRam(ByteAddress(phys, i), 1) ==>
      InRam(phys, 1) && (ByteAddress(phys, i) < BANK <==> phys < BANK)
  }

  /** A write that meets both banks is marked differently by the two sides. */
  lemma MarksDiffer(phys: nat, n: nat) returns (q: nat)
    requires 0 < n < U32 && phys < U32 && !OneBank(phys, n)
    ensures OracleMarks(phys, n, q) && !NativeMarks(phys, n, q)
  {
    var i: nat :| i < n && InRam(ByteAddress(phys, i), 1) &&
      !(InRam(phys, 1) && (ByteAddress(phys, i) < BANK <==> phys < BANK));
    q := PageOf(ByteAddress(phys, i));
  }

  /** Within one bank no write is long enough to come around. */
  lemma NoWrap(phys: nat, n: nat)
    requires 0 < n < U32 && phys < U32 && InRam(phys, 1)
    ensures OneBank(phys, n) ==> phys + n <= U32 && (phys < BANK ==> phys + n <= RAM1)
  {
    if phys < BANK && phys + n > RAM1 {
      assert ByteAddress(phys, RAM1 - phys) == RAM1;
    } else if phys + n > U32 {
      assert ByteAddress(phys, U32 - phys) == 0;
    }
  }

  /** The last RAM byte of the write, in end-to-end order. */
  function LastByte(phys: nat, n: nat): nat
    requires n > 0 && InRam(phys, 1)
  {
    var end := if phys < BANK then BANK else 2 * BANK;
    if Offset(phys) + n <= end then Offset(phys) + n - 1 else end - 1
  }

  lemma NativeFlat(phys: nat, n: nat, q: nat)
    requires n > 0 && phys + n <= U32 && InRam(phys, 1)
    ensures NativeMarks(phys, n, q) <==> Offset(phys) / PAGE <= q <= LastByte(phys, n) / PAGE
  {
    assert (phys + n - 1) % U32 == phys + n - 1;
    if phys >= BANK {
      assert Offset(phys) == PAGES * PAGE + (phys - RAM1);
      AddPages(phys - RAM1);
      AddPages(LastByte(phys, n) - BANK);
    }
  }

  lemma AddPages(x: nat)
    ensures (PAGES * PAGE + x) / PAGE == PAGES + x / PAGE
  {}

  lemma PageBetween(low: nat, high: nat, q: nat) returns (x: nat)
    requires low <= high && low / PAGE <= q <= high / PAGE
    ensures low <= x <= high && x / PAGE == q
  {
    x := if PAGE * q > low then PAGE * q else low;
  }

  lemma PageMonotone(x: nat, y: nat)
    requires x <= y
    ensures x / PAGE <= y / PAGE
  {}

  /** A byte of the write that lies in RAM is between the first and the last. */
  lemma ByteFlat(phys: nat, n: nat, i: nat)
    requires i < n && phys + n <= U32 && InRam(phys, 1) && (phys < BANK ==> phys + n <= RAM1)
    ensures ByteAddress(phys, i) == phys + i
    ensures InRam(phys + i, 1) <==> Offset(phys) + i <= LastByte(phys, n)
    ensures InRam(phys + i, 1) ==> Offset(phys + i) == Offset(phys) + i
  {}

  lemma MarksAgree(phys: nat, n: nat, q: nat)
    requires 0 < n < U32 && phys < U32 && OneBank(phys, n)
    ensures OracleMarks(phys, n, q) <==> NativeMarks(phys, n, q)
  {
    if InRam(phys, 1) {
      NoWrap(phys, n);
      hide OneBank, NativeMarks, ByteAddress, InRam, Offset, LastByte;
      NativeFlat(phys, n, q);
      if NativeMarks(phys, n, q) {
        ByteFlat(phys, n, 0);
        var x := PageBetween(Offset(phys), LastByte(phys, n), q);
        LastByteWithin(phys, n);
        ByteFlat(phys, n, x - Offset(phys));
      }
      if i: nat :| i < n && InRam(ByteAddress(phys, i), 1) && PageOf(ByteAddress(phys, i)) == q {
        ByteFlat(phys, n, i);
        PageMonotone(Offset(phys), Offset(phys) + i);
        PageMonotone(Offset(phys) + i, LastByte(phys, n));
      }
    }
  }

  lemma LastByteWithin(phys: nat, n: nat)
    requires n > 0 && InRam(phys, 1)
    ensures Offset(phys) <= LastByte(phys, n) < Offset(phys) + n
  {}

  /** A guest write that starts in RAM stays in its bank: it is one or two bytes long. */
  lemma GuestWriteIsOneBank(phys: nat, n: nat)
    requires InRam(phys, 1) && n <= 2
    ensures OneBank(phys, n)
  {}

  /** Two bytes from 0x1FFFFF: the second is the first byte of bank 1, whose page only the oracle
      marks. */
  lemma StraddleExample()
    ensures !OneBank(RAM1 - 1, 2)
    ensures OracleMarks(RAM1 - 1, 2, PAGES) && !NativeMarks(RAM1 - 1, 2, PAGES)
  {
    assert ByteAddress(RAM1 - 1, 1) == RAM1 && Offset(RAM1) == BANK && PageOf(RAM1) == PAGES;
  }

  /** The two sides mark the same pages exactly when the write stays out of the other bank. */
  lemma MarksAgreeIff(phys: nat, n: nat)
    requires 0 < n < U32 && phys < U32
    ensures OneBank(phys, n) <==> forall q :: OracleMarks(phys, n, q) <==> NativeMarks(phys, n, q)
  {
    if OneBank(phys, n) {
      forall q: nat ensures OracleMarks(phys, n, q) <==> NativeMarks(phys, n, q) { MarksAgree(phys, n, q); }
    } else {
      var q := MarksDiffer(phys, n);
    }
  }
}
