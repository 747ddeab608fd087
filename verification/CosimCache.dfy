/** The dirty-page cache in front of the bank hashes, as either side of the co-simulation
    keeps it. */
module CosimCache {
  import opened Guest
  import opened CosimHash

  datatype Side = Native | Oracle

  lemma PageFrame(mem: Memory, mem': Memory, address: nat, size: nat, q: nat)
    requires size > 0 && InRam(address, size) && WrittenOnly(mem, mem', address, size) && q < 2 * PAGES
    requires !(Offset(address) / PAGE <= q <= (Offset(address) + size - 1) / PAGE)
    ensures Page(mem', q) == Page(mem, q)
  {
    if q < Offset(address) / PAGE {
      assert PAGE * q + PAGE <= Offset(address);
    } else {
      assert PAGE * q > Offset(address) + size - 1;
    }
  }

  /** Either side marks every page a notified in-bank write touches. */
  lemma WriteIsMarked(side: Side, address: nat, size: nat, q: nat)
    requires size > 0 && InRam(address, size)
    requires Offset(address) / PAGE <= q <= (Offset(address) + size - 1) / PAGE
    ensures Marks(side, address, size, q)
  {
    InBank(address, size);
    NativeFlat(address, size, q);
    MarksAgree(address, size, q);
  }

  lemma InBank(address: nat, size: nat)
    requires size > 0 && InRam(address, size)
    ensures address + size <= U32 && size < U32 && OneBank(address, size)
    ensures LastByte(address, size) == Offset(address) + size - 1
  {
    forall i: nat | i < size ensures ByteAddress(address, i) == address + i {}
  }

  ghost predicate Marks(side: Side, phys: nat, n: nat, q: nat) {
    match side case Native => NativeMarks(phys, n, q) case Oracle => OracleMarks(phys, n, q)
  }

  lemma OracleStep(phys: nat, i: nat)
    ensures var a := ByteAddress(phys, i);
      forall q :: OracleMarks(phys, i + 1, q) <==> OracleMarks(phys, i, q) || (InRam(a, 1) && PageOf(a) == q)
  {
    hide ByteAddress;
    forall q ensures var a := ByteAddress(phys, i);
      OracleMarks(phys, i + 1, q) <==> OracleMarks(phys, i, q) || (InRam(a, 1) && PageOf(a) == q)
    {
      if OracleMarks(phys, i, q) {
        var k: nat :| k < i && InRam(ByteAddress(phys, k), 1) && PageOf(ByteAddress(phys, k)) == q;
        assert k < i + 1;
      }
    }
  }

  class PageCache {
    const side: Side
    const ram: array<byte>
    const hashes: array<Hash>
    const dirty: array<bool>
    /** Whether the side's initialisation has been called. */
    var ready: bool

    ghost predicate Shape() {
      && ram.Length == 2 * BANK && hashes.Length == dirty.Length == 2 * PAGES
      && (ram as object) != hashes && (ram as object) != dirty && (hashes as object) != dirty
    }

    /** Once initialised, a clean page has its current hash. */
    ghost predicate Valid()
      reads this, ram, hashes, dirty
    {
      Shape() && (ready ==> Right(ram[..]))
    }

    ghost predicate Right(mem: Memory)
      requires Shape()
      reads this, hashes, dirty
    {
      forall q :: 0 <= q < 2 * PAGES && !dirty[q] ==> hashes[q] == PageHash(mem, q)
    }

    constructor (side: Side, image: Memory)
      ensures Valid() && ram[..] == image && this.side == side && !ready
      ensures fresh(ram) && fresh(hashes) && fresh(dirty)
    {
      this.side := side;
      ram := new byte[2 * BANK](i requires 0 <= i < 2 * BANK => image[i]);
      hashes := new Hash[2 * PAGES](_ => 0);
      dirty := new bool[2 * PAGES](_ => false);
      ready := false;
    }

    /** cdi_cosim_init and cdi_cosim_state_init: every page is to be hashed at its first use. */
    method Init()
      requires Shape()
      modifies this, hashes, dirty
      ensures Valid() && ready
      ensures forall q :: 0 <= q < 2 * PAGES ==> dirty[q]
    {
      hide PageHash;
      var q := 0;
      while q < 2 * PAGES
        invariant 0 <= q <= 2 * PAGES && forall k :: 0 <= k < q ==> dirty[k]
        modifies hashes, dirty
      {
        hashes[q], dirty[q] := 0, true;
        q := q + 1;
      }
      ready := true;
    }

    /** cdi_cosim_note_ram_write of the native side. */
    method NativeNote(phys: nat, n: nat)
      requires Shape() && phys < U32 && n < U32
      modifies dirty
      ensures forall q :: 0 <= q < 2 * PAGES ==> dirty[q] == (old(dirty[q]) || NativeMarks(phys, n, q))
    {
      if n == 0 || !InRam(phys, 1) { return; }
      var base := if phys < BANK then 0 else RAM1;
      var shift := if phys < BANK then 0 else PAGES;
      var last := (phys + n - 1) % U32;
      var off0 := phys - base;
      var off1 := if last >= base && last - base < BANK then last - base else BANK - 1;
      var p0, p1 := off0 / PAGE, off1 / PAGE;
      if p1 >= PAGES { p1 := PAGES - 1; }
      assert forall q :: 0 <= q < 2 * PAGES ==> (NativeMarks(phys, n, q) <==> p0 <= q - shift <= p1);
      var p := p0;
      while p <= p1
        invariant p == p0 || p0 < p <= p1 + 1
        invariant forall q :: 0 <= q < 2 * PAGES ==> dirty[q] == (old(dirty[q]) || p0 <= q - shift < p)
      {
        dirty[shift + p] := true;
        p := p + 1;
      }
    }

    /** The same of the oracle side: byte by byte. */
    method OracleNote(phys: nat, n: nat)
      requires Shape() && phys < U32 && n < U32
      modifies dirty
      ensures forall q :: 0 <= q < 2 * PAGES ==> dirty[q] == (old(dirty[q]) || OracleMarks(phys, n, q))
    {
      hide ByteAddress;
      var i := 0;
      while i < n
        invariant 0 <= i <= n
        invariant forall q :: 0 <= q < 2 * PAGES ==> dirty[q] == (old(dirty[q]) || OracleMarks(phys, i, q))
      {
        var a := ByteAddress(phys, i);
        if InRam(a, 1) { dirty[PageOf(a)] := true; }
        OracleStep(phys, i);
        i := i + 1;
      }
    }

    /** Before its initialisation the oracle does not listen. */
    method Note(phys: nat, n: nat)
      requires Shape() && phys < U32 && n < U32
      modifies dirty
      ensures forall q :: 0 <= q < 2 * PAGES ==>
        dirty[q] == (old(dirty[q]) || (Marks(side, phys, n, q) && (side.Native? || ready)))
    {
      if side.Native? {
        NativeNote(phys, n);
      } else if ready {
        OracleNote(phys, n);
      }
    }

    /** A store inside one bank, with its notification. */
    method Store(address: nat, data: seq<byte>)
      requires Valid() && data != [] && InRam(address, |data|)
      modifies ram, dirty
      ensures Valid() && WrittenOnly(old(ram[..]), ram[..], address, |data|)
      ensures Slice(ram[..], address, |data|) == data
    {
      hide PageHash, Marks;
      var o := Offset(address);
      ghost var before := ram[..];
      var i := 0;
      while i < |data|
        invariant 0 <= i <= |data|
        invariant forall k :: 0 <= k < i ==> ram[o + k] == data[k]
        invariant forall k :: 0 <= k < 2 * BANK && !(o <= k < o + |data|) ==> ram[k] == before[k]
        modifies ram
      {
        ram[o + i] := data[i];
        i := i + 1;
      }
      Notified(before, address, |data|);
    }

    /** Telling the cache about the bytes just written makes it agree with RAM again. */
    method Notified(ghost before: Memory, address: nat, size: nat)
      requires Shape() && size > 0 && InRam(address, size) && WrittenOnly(before, ram[..], address, size)
      requires ready ==> Right(before)
      modifies dirty
      ensures Valid()
    {
      hide Marks, Fnv;
      InBank(address, size);
      Note(address, size);
      forall q | ready && 0 <= q < 2 * PAGES && !dirty[q] ensures PageHash(ram[..], q) == PageHash(before, q) {
        if Offset(address) / PAGE <= q <= (Offset(address) + size - 1) / PAGE {
          WriteIsMarked(side, address, size, q);
        } else {
          PageFrame(before, ram[..], address, size, q);
        }
      }
    }

    /** cdi_cosim_inject_ram: flip bits of a RAM byte; anything else is left alone, and so is
        everything by an oracle not yet initialised. */
    method Inject(address: nat, flip: byte)
      requires Valid() && address < U32
      modifies ram, dirty
      ensures Valid()
      ensures !InRam(address, 1) || (side.Oracle? && !ready) ==> ram[..] == old(ram[..])
      ensures InRam(address, 1) && (side.Native? || ready) ==>
        ram[..] == old(ram[..])[Offset(address) := XorByte(old(ram[..])[Offset(address)], flip)]
    {
      hide XorByte, PageHash;
      if (side.Oracle? && !ready) || !InRam(address, 1) { return; }
      ghost var before := ram[..];
      ram[Offset(address)] := XorByte(ram[Offset(address)], flip);
      assert WrittenOnly(before, ram[..], address, 1);
      Notified(before, address, 1);
    }

    /** cdi_cosim_ram_hash: rehash what is dirty and fold. Whatever happened before, the
        answer is the hash of the bank's bytes. */
    method RamHash(bank: nat) returns (h: Hash)
      requires Valid()
      modifies hashes, dirty
      ensures Valid()
      ensures bank < 2 && ready ==> h == BankHash(ram[..], bank)
      ensures bank >= 2 || (side.Oracle? && !ready) ==> h == 0
    {
      hide Fnv, FoldPages, Page;
      if bank >= 2 || (side.Oracle? && !ready) { return 0; }
      var p := 0;
      while p < PAGES
        invariant 0 <= p <= PAGES && Valid()
        invariant forall q :: bank * PAGES <= q < bank * PAGES + p ==> !dirty[q]
      {
        var q := bank * PAGES + p;
        if dirty[q] {
          PageSlice(q);
          hashes[q] := Fnv1a(BASIS, ram[PAGE * q..PAGE * q + PAGE]);
          dirty[q] := false;
        }
        p := p + 1;
      }
      var row := hashes[bank * PAGES..bank * PAGES + PAGES];
      forall k | ready && 0 <= k < PAGES ensures row[k] == PageHash(ram[..], bank * PAGES + k) {
        assert !dirty[bank * PAGES + k];
      }
      assert ready ==> row == PageHashes(ram[..], bank, PAGES);
      h := Fold(bank, row);
    }

    /** cdi_cosim_full_ram_hash: every page afresh. */
    method FullHash(bank: nat) returns (h: Hash)
      requires Shape()
      ensures bank < 2 && (side.Native? || ready) ==> h == BankHash(ram[..], bank)
      ensures bank >= 2 || (side.Oracle? && !ready) ==> h == 0
    {
      hide Fnv, FoldPages, Page;
      if bank >= 2 || (side.Oracle? && !ready) { return 0; }
      var row: seq<Hash> := [];
      var p := 0;
      while p < PAGES
        invariant 0 <= p <= PAGES && row == PageHashes(ram[..], bank, p)
      {
        var q := bank * PAGES + p;
        PageSlice(q);
        var x := Fnv1a(BASIS, ram[PAGE * q..PAGE * q + PAGE]);
        row := row + [x];
        p := p + 1;
      }
      h := Fold(bank, row);
    }

    method Fold(bank: nat, row: seq<Hash>) returns (h: Hash)
      requires bank < 2
      ensures h == FoldPages(FoldStart(bank), row)
    {
      if side.Native? { h := NativeFold(bank, row); } else { h := OracleFold(row, bank == 0); }
    }

    lemma PageSlice(q: nat)
      requires Shape() && q < 2 * PAGES
      ensures ram[PAGE * q..PAGE * q + PAGE] == Page(ram[..], q)
    {}
  }
}
