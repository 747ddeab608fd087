/** The static-module binding cache of runner/src/cdi_native.c: it watches every RAM write
    and binds a loaded module only by its full digest. */
module NativeCache {
  import opened Guest
  import opened NativeSpec
  import opened SyncTags
  import opened CoverageLedger

  const SLOTS := 1024

  /** Conservative bounds of every binding cached in one bank. */
  datatype Span = Span(first: nat, last: nat)

  const EMPTY := Span(0xFFFF_FFFF, 0)

  datatype Stats = Stats(bindings: nat, invalidations: nat, rejections: nat, active: int)

  /** Resolution stops the process when every slot is in use. */
  datatype Resolution = Found(slot: nat) | NotFound | Aborted

  /** A well-formed image over the address that no slot is kept for. */
  ghost predicate Homeless(mem: Memory, bs: seq<Binding>, base: nat, size: nat, address: nat) {
    && base % 2 == 0 && size >= 0x33 && InRam(base, size) && base <= address < base + size
    && WellFormed(Slice(mem, base, size))
    && forall i :: 0 <= i < |bs| ==> bs[i].base != base
  }

  function Bank(address: nat): nat { if address >= RAM1 then 1 else 0 }

  function Cover(spans: seq<Span>, address: nat, size: nat): (r: seq<Span>)
    requires |spans| == 2
    ensures |r| == 2
  {
    var s := spans[Bank(address)];
    var s := if address < s.first then s.(first := address) else s;
    var s := if address + size > s.last then s.(last := address + size) else s;
    spans[Bank(address) := s]
  }

  predicate MayOverlap(spans: seq<Span>, address: nat, end: nat)
    requires |spans| == 2
  {
    address < spans[Bank(address)].last && end > spans[Bank(address)].first
  }

  predicate Covered(spans: seq<Span>, b: Binding) {
    |spans| == 2 && spans[Bank(b.base)].first <= b.base && b.base + b.size <= spans[Bank(b.base)].last
  }

  /** A miss of the range filter means the unfiltered scan would revoke nothing. */
  lemma FilterMiss(spans: seq<Span>, bs: seq<Binding>, address: nat, size: nat)
    requires |spans| == 2 && size > 0 && InRam(address, size)
    requires forall i :: 0 <= i < |bs| ==> Covered(spans, bs[i]) && bs[i].size > 0 && InRam(bs[i].base, bs[i].size)
    requires !MayOverlap(spans, address, address + size)
    ensures Revoke(bs, address, address + size) == bs
  {
    forall i | 0 <= i < |bs| ensures !Overlaps(bs[i], address, address + size) {
      assert Covered(spans, bs[i]);
    }
  }

  lemma {:induction false} ValidCountUpdate(bs: seq<Binding>, i: nat, b: Binding)
    requires i < |bs|
    ensures ValidCount(bs[i := b]) == ValidCount(bs) - (if bs[i].valid then 1 else 0) + (if b.valid then 1 else 0)
  {
    var n := |bs| - 1;
    if i == n {
      assert bs[i := b][..n] == bs[..n];
    } else {
      ValidCountUpdate(bs[..n], i, b);
      assert bs[i := b][..n] == bs[..n][i := b];
    }
  }

  lemma ValidCountAppend(bs: seq<Binding>, b: Binding)
    ensures ValidCount(bs + [b]) == ValidCount(bs) + (if b.valid then 1 else 0)
  {
    assert (bs + [b])[..|bs|] == bs;
  }

  lemma RecheckedSame(v: View, modules: seq<Module>, digest: Digest)
    ensures Rechecked(v, v, modules, digest)
  {}

  /** No image reaches outside RAM. */
  lemma NothingOutside(mem: Memory, modules: seq<Module>, digest: Digest, address: nat)
    requires !InRam(address, 2) && address % 2 == 0
    ensures !Findable(mem, modules, digest, address)
  {}

  lemma RecheckedTrans(a: View, b: View, c: View, modules: seq<Module>, digest: Digest)
    requires Rechecked(a, b, modules, digest) && Rechecked(b, c, modules, digest)
    requires forall i :: 0 <= i < |b.bindings| && Written(a, b, i) ==> b.bindings[i].checked
    ensures Rechecked(a, c, modules, digest)
  {
    hide Truthful;
    forall i | 0 <= i < |c.bindings| && Written(a, c, i)
      ensures Truthful(c.bindings[i], c.mem, modules, digest) && c.bindings[i].epoch <= c.epoch
      ensures c.bindings[i].valid ==> a.epoch < c.bindings[i].epoch
    {
      if !Written(b, c, i) { assert Written(a, b, i); }
    }
  }

  /** Putting a truthful claim into a missing or unchecked slot is a step of resolution. */
  lemma ClaimRechecks(v: View, slot: nat, b: Binding, v': View, modules: seq<Module>, digest: Digest)
    requires Sound(v, modules, digest) && slot <= |v.bindings|
    requires slot < |v.bindings| ==> v.bindings[slot].base == b.base && !v.bindings[slot].checked
    requires slot == |v.bindings| ==> forall i :: 0 <= i < |v.bindings| ==> v.bindings[i].base != b.base
    requires v'.bindings == if slot < |v.bindings| then v.bindings[slot := b] else v.bindings + [b]
    requires v'.mem == v.mem && v'.invalidations == v.invalidations && v.epoch <= v'.epoch
    requires Truthful(b, v'.mem, modules, digest) && b.epoch <= v'.epoch && (b.valid ==> v.epoch < b.epoch)
    ensures Rechecked(v, v', modules, digest)
  {
    hide Truthful;
  }

  lemma CoverGrows(spans: seq<Span>, bs: seq<Binding>, b: Binding)
    requires |spans| == 2
    ensures Covered(Cover(spans, b.base, b.size), b)
    ensures forall i :: 0 <= i < |bs| && Covered(spans, bs[i]) ==> Covered(Cover(spans, b.base, b.size), bs[i])
  {}

  lemma NothingToRevoke(address: nat, end: nat)
    ensures Revoke([], address, end) == []
  {}

  /** Words outside a written span hold what they held. */
  lemma TagsFollow(mem: Memory, mem': Memory, address: nat, size: nat)
    requires size > 0 && InRam(address, size) && WrittenOnly(mem, mem', address, size)
    ensures forall w :: 0 <= w < WORDS && !Touched(w, address, size) ==> (Sync(mem', w) <==> Sync(mem, w))
  {}

  /** No image that starts at `base` contains `address`. */
  ghost predicate NoImage(mem: Memory, modules: seq<Module>, digest: Digest, base: nat, address: nat) {
    forall size: nat :: !ImageOver(mem, modules, digest, base, size, address)
  }

  /** An image has its length in its own header. */
  lemma ImageHeader(mem: Memory, modules: seq<Module>, digest: Digest, base: nat, size: nat, address: nat)
    requires ImageOver(mem, modules, digest, base, size, address)
    ensures InRam(base, 0x30) && Be32(Slice(mem, base, 0x30), 4) == size >= 0x33
    ensures InRam(base, 2) && base % 2 == 0 && Sync(mem, Index(base))
    ensures HeaderXor(Slice(mem, base, 0x30), 0x18) == 0xFFFF
    ensures exists m :: 0 <= m < |modules| && modules[m].size == size
  {
    hide FoldHalfword;
    var image := Slice(mem, base, size);
    HeaderXorPrefix(image, Slice(mem, base, 0x30), 0x18);
    var m: nat :| Matches(image, modules, digest, m);
  }

  lemma {:induction false} HeaderXorPrefix(a: seq<byte>, b: seq<byte>, n: nat)
    requires 2 * n <= |a| && 2 * n <= |b| && a[..2 * n] == b[..2 * n]
    ensures HeaderXor(a, n) == HeaderXor(b, n)
  {
    hide FoldHalfword;
    if n > 0 {
      assert a[..2 * n - 2] == a[..2 * n][..2 * n - 2] == b[..2 * n][..2 * n - 2] == b[..2 * n - 2];
      HeaderXorPrefix(a, b, n - 1);
      assert a[2 * n - 2] == a[..2 * n][2 * n - 2] && a[2 * n - 1] == a[..2 * n][2 * n - 1];
      assert b[2 * n - 2] == b[..2 * n][2 * n - 2] && b[2 * n - 1] == b[..2 * n][2 * n - 1];
    }
  }

  /** The length field is the same in any slice that holds it. */
  lemma HeadLength(mem: Memory, base: nat, size: nat)
    requires InRam(base, size) && InRam(base, 0x30) && size >= 8
    ensures Be32(Slice(mem, base, size), 4) == Be32(Slice(mem, base, 0x30), 4)
  {}

  /** For a well-formed image over the address, identity is all that is left to ask. */
  lemma IdentityDecides(mem: Memory, modules: seq<Module>, digest: Digest, base: nat, size: nat, address: nat)
    requires base % 2 == 0 && size >= 0x33 && InRam(base, size) && InRam(base, 0x30) && base <= address < base + size
    requires WellFormed(Slice(mem, base, size)) && Be32(Slice(mem, base, 0x30), 4) == size
    ensures Known(Slice(mem, base, size), modules, digest) ==> ImageOver(mem, modules, digest, base, size, address)
    ensures !Known(Slice(mem, base, size), modules, digest) ==> NoImage(mem, modules, digest, base, address)
  {
    hide WellFormed, Known, Slice, Be32;
    forall n: nat | ImageOver(mem, modules, digest, base, n, address) ensures n == size {
      ImageHeader(mem, modules, digest, base, n, address);
    }
  }

  /** A header that passes every test heads a well-formed image. */
  lemma HeaderPasses(mem: Memory, base: nat, size: nat)
    requires base % 2 == 0 && InRam(base, 0x30) && InRam(base, size) && size >= 0x33 && InRam(base, 2)
    requires Sync(mem, Index(base)) && Be32(Slice(mem, base, 0x30), 4) == size
    requires HeaderXor(Slice(mem, base, 0x30), 0x18) == 0xFFFF
    ensures WellFormed(Slice(mem, base, size))
  {
    hide FoldHalfword;
    HeaderXorPrefix(Slice(mem, base, size), Slice(mem, base, 0x30), 0x18);
  }

  class Cache {
    const modules: seq<Module>
    const digest: Digest
    const filtered: bool
    const ram: array<byte>
    const tagset: TagSet
    var bindings: seq<Binding>
    var spans: seq<Span>
    var epoch: nat
    var invalidationEpoch: nat
    var stats: Stats

    /** What holds even between a RAM mutation and its notification. */
    ghost predicate Shape()
      reads this, ram, tagset, tagset.tags, tagset.indices
    {
      && ram.Length == 2 * BANK
      && (ram as object) != tagset.tags && (ram as object) != tagset.indices
      && tagset.Valid()
      && |bindings| <= SLOTS && |spans| == 2
      && (forall i :: 0 <= i < |bindings| ==> bindings[i].size > 0 && InRam(bindings[i].base, bindings[i].size))
      && (filtered ==> forall i :: 0 <= i < |bindings| ==> Covered(spans, bindings[i]))
      && stats.active == ValidCount(bindings)
    }

    ghost function View(): View
      requires ram.Length == 2 * BANK
      reads this, ram
    {
      NativeSpec.View(ram[..], bindings, epoch, invalidationEpoch)
    }

    /** The cache agrees with RAM: bindings tell the truth and the tag set is exactly the
        sync words. */
    ghost predicate Valid()
      reads this, ram, tagset, tagset.tags, tagset.indices
    {
      && Shape()
      && Sound(View(), modules, digest)
      && (modules == [] ==> bindings == [])
      && (modules != [] ==> forall w :: 0 <= w < WORDS ==> (tagset.Has(w) <==> Sync(ram[..], w)))
    }

    constructor (modules: seq<Module>, digest: Digest, filtered: bool, image: Memory)
      ensures Valid() && View() == NativeSpec.View(image, [], 0, 1)
      ensures this.modules == modules && this.digest == digest
      ensures fresh(ram) && fresh(tagset) && fresh(tagset.tags) && fresh(tagset.indices)
    {
      this.modules := modules;
      this.digest := digest;
      this.filtered := filtered;
      ram := new byte[2 * BANK](i requires 0 <= i < 2 * BANK => image[i]);
      tagset := new TagSet();
      bindings := [];
      spans := [EMPTY, EMPTY];
      epoch := 0;
      invalidationEpoch := 0;
      stats := Stats(0, 0, 0, 0);
      new;
      assert ram[..] == image;
      Reset();
    }

    /** cdi_native_reset: RAM is kept, everything learnt about it is forgotten and found
        again; epochs stay unique across resets. */
    method Reset()
      requires Shape()
      modifies this`bindings, this`spans, this`stats, this`invalidationEpoch, tagset, tagset.tags, tagset.indices
      ensures Valid()
      ensures Next(old(View()), NativeSpec.Reset, View(), modules, digest)
    {
      hide Sync, Inverse, Covered;
      invalidationEpoch := invalidationEpoch + 1;
      tagset.Clear();
      bindings := [];
      spans := [EMPTY, EMPTY];
      stats := Stats(0, 0, 0, 0);
      NotifyWrite(0, BANK);
      NotifyWrite(RAM1, BANK);
      assert forall w :: 0 <= w < WORDS ==> Touched(w, 0, BANK) || Touched(w, RAM1, BANK);
      assert forall w :: 0 <= w < WORDS ==> !(Touched(w, 0, BANK) && Touched(w, RAM1, BANK));
    }

    /** The bytes of a store, before anybody is told. */
    method Put(address: nat, data: seq<byte>)
      requires ram.Length == 2 * BANK && data != [] && InRam(address, |data|)
      modifies ram
      ensures WrittenOnly(old(ram[..]), ram[..], address, |data|)
      ensures Slice(ram[..], address, |data|) == data
    {
      var o := Offset(address);
      var i := 0;
      while i < |data|
        invariant 0 <= i <= |data|
        invariant forall k :: 0 <= k < i ==> ram[o + k] == data[k]
        invariant forall k :: 0 <= k < 2 * BANK && !(o <= k < o + |data|) ==> ram[k] == old(ram[k])
      {
        ram[o + i] := data[i];
        i := i + 1;
      }
    }

    /** A CPU, DMA or injected store of consecutive bytes, with its notification. */
    method Store(address: nat, data: seq<byte>)
      requires Valid() && data != [] && InRam(address, |data|)
      modifies this`bindings, this`stats, this`invalidationEpoch, ram, tagset, tagset.tags, tagset.indices
      ensures Valid()
      ensures Next(old(View()), Write(address, |data|), View(), modules, digest)
      ensures Slice(ram[..], address, |data|) == data
    {
      hide Sync, Sound, Slice, WrittenOnly, Touched, Inverse, Covered, ValidCount;
      Put(address, data);
      TagsFollow(old(ram[..]), ram[..], address, |data|);
      NotifyWrite(address, |data|);
      if modules == [] { NothingToRevoke(address, address + |data|); }
      WriteSound(old(View()), address, |data|, View(), modules, digest);
    }

    /** The binding half of a notification. */
    method RevokeBindings(address: nat, size: nat)
      requires Shape() && size > 0 && InRam(address, size)
      modifies this`bindings, this`stats, this`invalidationEpoch
      ensures Shape()
      ensures bindings == Revoke(old(bindings), address, address + size)
      ensures invalidationEpoch == old(invalidationEpoch) + ValidCount(old(bindings)) - ValidCount(bindings)
      ensures invalidationEpoch >= old(invalidationEpoch)
      ensures stats == old(stats).(
        active := ValidCount(bindings),
        invalidations := old(stats).invalidations + invalidationEpoch - old(invalidationEpoch))
    {
      hide Covered, Inverse, ValidCount, Overlaps;
      CoveredAfter(bindings, address, address + size);
      if !filtered || MayOverlap(spans, address, address + size) {
        RevokeScan(address, address + size);
      } else {
        FilterMiss(spans, bindings, address, size);
      }
    }

    /** The unfiltered scan of every cached binding. */
    method RevokeScan(address: nat, end: nat)
      requires stats.active == ValidCount(bindings)
      modifies this`bindings, this`stats, this`invalidationEpoch
      ensures bindings == Revoke(old(bindings), address, end)
      ensures invalidationEpoch == old(invalidationEpoch) + ValidCount(old(bindings)) - ValidCount(bindings)
      ensures invalidationEpoch >= old(invalidationEpoch)
      ensures stats == old(stats).(
        active := ValidCount(bindings),
        invalidations := old(stats).invalidations + invalidationEpoch - old(invalidationEpoch))
    {
      hide ValidCount;
      var i := 0;
      while i < |bindings|
        invariant 0 <= i <= |bindings| == |old(bindings)|
        invariant forall j :: 0 <= j < i ==> bindings[j] == Revoked(old(bindings[j]), address, end)
        invariant forall j :: i <= j < |bindings| ==> bindings[j] == old(bindings[j])
        invariant stats.active == ValidCount(bindings)
        invariant invalidationEpoch + stats.active == old(invalidationEpoch + stats.active)
        invariant invalidationEpoch >= old(invalidationEpoch)
        invariant stats == old(stats).(
          active := stats.active,
          invalidations := old(stats).invalidations + invalidationEpoch - old(invalidationEpoch))
      {
        var b := bindings[i];
        if address < b.base + b.size && end > b.base {
          ValidCountUpdate(bindings, i, b.(valid := false, checked := false));
          if b.valid {
            stats := stats.(invalidations := stats.invalidations + 1, active := stats.active - 1);
            invalidationEpoch := invalidationEpoch + 1;
          }
          bindings := bindings[i := b.(valid := false, checked := false)];
        }
        i := i + 1;
      }
      assert bindings == Revoke(old(bindings), address, end);
    }

    lemma CoveredAfter(bs: seq<Binding>, address: nat, end: nat)
      requires |spans| == 2
      ensures forall i :: 0 <= i < |bs| ==>
        (Covered(spans, bs[i]) <==> Covered(spans, Revoke(bs, address, end)[i]))
    {}

    /** cdi_native_notify_write. */
    method NotifyWrite(address: nat, size: nat)
      requires Shape()
      modifies this`bindings, this`stats, this`invalidationEpoch, tagset, tagset.tags, tagset.indices
      ensures Shape()
      ensures modules == [] || size == 0 || !InRam(address, size) ==>
        && bindings == old(bindings) && invalidationEpoch == old(invalidationEpoch)
        && forall w :: 0 <= w < WORDS ==> (tagset.Has(w) <==> old(tagset.Has(w)))
      ensures modules != [] && size > 0 && InRam(address, size) ==>
        && bindings == Revoke(old(bindings), address, address + size)
        && invalidationEpoch == old(invalidationEpoch) + ValidCount(old(bindings)) - ValidCount(bindings)
        && forall w :: 0 <= w < WORDS ==>
             (tagset.Has(w) <==> if Touched(w, address, size) then Sync(ram[..], w) else old(tagset.Has(w)))
    {
      if modules == [] || size == 0 || !InRam(address, size) { return; }
      RevokeBindings(address, size);
      tagset.Notify(ram[..], address, size);
    }

    // ----- resolution -----

    /** The first valid binding over an address. */
    method FindValid(address: nat) returns (found: bool, slot: nat)
      requires Shape()
      ensures found ==> slot < |bindings| && Contains(bindings[slot], address)
      ensures !found ==> forall i :: 0 <= i < |bindings| ==> !Contains(bindings[i], address)
    {
      slot := 0;
      while slot < |bindings|
        invariant slot <= |bindings|
        invariant forall i :: 0 <= i < slot ==> !Contains(bindings[i], address)
      {
        if Contains(bindings[slot], address) { return true, slot; }
        slot := slot + 1;
      }
      return false, 0;
    }

    method Cached(base: nat) returns (found: bool, slot: nat)
      requires Shape()
      ensures found ==> slot < |bindings| && bindings[slot].base == base
      ensures !found ==> forall i :: 0 <= i < |bindings| ==> bindings[i].base != base
    {
      slot := 0;
      while slot < |bindings|
        invariant slot <= |bindings|
        invariant forall i :: 0 <= i < slot ==> bindings[i].base != base
      {
        if bindings[slot].base == base { return true, slot; }
        slot := slot + 1;
      }
      return false, 0;
    }

    method SizeKnown(size: nat) returns (possible: bool)
      ensures possible <==> exists m :: 0 <= m < |modules| && modules[m].size == size
    {
      var m := 0;
      while m < |modules|
        invariant 0 <= m <= |modules|
        invariant forall k :: 0 <= k < m ==> modules[k].size != size
      {
        if modules[m].size == size { return true; }
        m := m + 1;
      }
      return false;
    }

    method FindModule(image: seq<byte>) returns (found: bool, m: nat)
      ensures found ==> Matches(image, modules, digest, m)
      ensures found <==> Known(image, modules, digest)
    {
      m := 0;
      var d := digest(image);
      while m < |modules|
        invariant 0 <= m <= |modules|
        invariant forall k: nat :: k < m ==> !Matches(image, modules, digest, k)
      {
        if modules[m].size == |image| && modules[m].sha256 == d {
          assert Matches(image, modules, digest, m);
          return true, m;
        }
        m := m + 1;
      }
      return false, 0;
    }

    /** Record a claim in its slot, with the range filter and the counters. */
    method Claim(slot: nat, b: Binding)
      requires Shape() && slot <= |bindings| && b.size > 0 && InRam(b.base, b.size)
      requires slot == |bindings| ==> slot < SLOTS
      requires slot < |bindings| ==> !bindings[slot].valid
      modifies this`bindings, this`spans, this`stats
      ensures Shape()
      ensures bindings == if slot < |old(bindings)| then old(bindings)[slot := b] else old(bindings) + [b]
    {
      hide Covered, Inverse, ValidCount;
      CoverGrows(spans, bindings, b);
      if filtered { spans := Cover(spans, b.base, b.size); }
      if slot < |bindings| {
        ValidCountUpdate(bindings, slot, b);
        bindings := bindings[slot := b];
      } else {
        ValidCountAppend(bindings, b);
        bindings := bindings + [b];
      }
      if b.valid {
        stats := stats.(bindings := stats.bindings + 1, active := stats.active + 1);
      } else {
        stats := stats.(rejections := stats.rejections + 1);
      }
    }

    /** Check the identity of a well-formed image whose slot is missing or unchecked. */
    method CheckIdentity(base: nat, size: nat, slot: nat) returns (found: bool)
      requires Valid() && modules != []
      requires base % 2 == 0 && size >= 0x33 && InRam(base, size) && WellFormed(Slice(ram[..], base, size))
      requires slot <= |bindings|
      requires slot < |bindings| ==> bindings[slot].base == base && !bindings[slot].checked
      requires slot == |bindings| ==> slot < SLOTS && forall i :: 0 <= i < |bindings| ==> bindings[i].base != base
      modifies this`bindings, this`spans, this`stats, this`epoch
      ensures Valid() && Rechecked(old(View()), View(), modules, digest)
      ensures slot < |bindings| && bindings[slot].base == base && bindings[slot].size == size
      ensures bindings[slot].checked && bindings[slot].valid == found
      ensures bindings ==
        if slot < |old(bindings)| then old(bindings)[slot := bindings[slot]] else old(bindings) + [bindings[slot]]
      ensures found == Known(Slice(ram[..], base, size), modules, digest)
    {
      hide WellFormed, Slice, Known, Matches, Sync, Sound, Rechecked, Covered, Inverse, ValidCount;
      SliceOf(base, size);
      var image := ram[Offset(base)..Offset(base) + size];
      var m;
      found, m := FindModule(image);
      var last := 0;
      if slot < |bindings| {
        SoundAt(View(), modules, digest, slot);
        last := bindings[slot].epoch;
      }
      if found { epoch := epoch + 1; }
      var b := Binding(base, size, if found then epoch else last, m, true, found);
      assert Truthful(b, ram[..], modules, digest);
      Claim(slot, b);
      ClaimRechecks(old(View()), slot, b, View(), modules, digest);
      RecheckedSound(old(View()), View(), modules, digest);
    }

    lemma SliceOf(base: nat, size: nat)
      requires ram.Length == 2 * BANK && size > 0 && InRam(base, size)
      ensures ram[Offset(base)..Offset(base) + size] == Slice(ram[..], base, size)
    {}

    /** The header words folded together. */
    method HeaderParity(base: nat) returns (parity: nat)
      requires ram.Length == 2 * BANK && InRam(base, 0x30)
      ensures parity == HeaderXor(Slice(ram[..], base, 0x30), 0x18)
      ensures parity == 0xFFFF <==> OddColumns(Slice(ram[..], base, 0x30))
    {
      hide FoldHalfword, OddColumns;
      ghost var header := Slice(ram[..], base, 0x30);
      var o := Offset(base);
      parity := 0;
      var w := 0;
      while w < 0x18
        invariant 0 <= w <= 0x18
        invariant parity == HeaderXor(header, w)
      {
        assert header[2 * w] == ram[o + 2 * w] && header[2 * w + 1] == ram[o + 2 * w + 1];
        parity := FoldHalfword(parity, ram[o + 2 * w], ram[o + 2 * w + 1]);
        w := w + 1;
      }
      ParityMeans(header);
    }

    /** Outcome of looking at one tag. */
    method TryTag(base: nat, address: nat) returns (r: Resolution)
      requires Valid() && modules != []
      requires base % 2 == 0 && InRam(base, 2) && Sync(ram[..], Index(base))
      requires forall i :: 0 <= i < |bindings| ==> !Contains(bindings[i], address)
      modifies this`bindings, this`spans, this`stats, this`epoch
      ensures Valid() && Rechecked(old(View()), View(), modules, digest)
      ensures forall i :: 0 <= i < |bindings| && Written(old(View()), View(), i) ==> bindings[i].checked
      ensures r.Found? ==> r.slot < |bindings| && Contains(bindings[r.slot], address)
      ensures r.Found? ==> exists size: nat :: ImageOver(ram[..], modules, digest, base, size, address)
      ensures r.NotFound? ==>
        && NoImage(ram[..], modules, digest, base, address)
        && forall i :: 0 <= i < |bindings| ==> !Contains(bindings[i], address)
      ensures r.Aborted? ==> |bindings| == SLOTS && exists size: nat :: Homeless(ram[..], bindings, base, size, address)
    {
      hide Sound, WellFormed, Slice, Sync, Inverse, Covered, ValidCount, Known, Be32, ImageOver, NoImage;
      RecheckedSame(View(), modules, digest);
      hide Rechecked;
      var plausible, size := HeaderTest(base, address);
      if !plausible { return NotFound; }
      var known, slot := Cached(base);
      if known && bindings[slot].checked {
        RejectedTag(slot, size, address);
        return NotFound;
      }
      var wellFormed := ImageTest(base, size, address);
      if !wellFormed { return NotFound; }
      if !known {
        if |bindings| == SLOTS {
          assert Homeless(ram[..], bindings, base, size, address);
          return Aborted;
        }
        slot := |bindings|;
      }
      var found := CheckIdentity(base, size, slot);
      IdentityDecides(ram[..], modules, digest, base, size, address);
      return if found then Found(slot) else NotFound;
    }

    /** The tests before any cache is consulted. */
    method HeaderTest(base: nat, address: nat) returns (plausible: bool, size: nat)
      requires ram.Length == 2 * BANK && base % 2 == 0 && InRam(base, 2)
      ensures plausible ==>
        && InRam(base, 0x30) && size >= 0x33 && InRam(base, size) && base <= address < base + size
        && Be32(Slice(ram[..], base, 0x30), 4) == size
      ensures !plausible ==> NoImage(ram[..], modules, digest, base, address)
    {
      hide WellFormed, Slice, Sync, Known, HeaderXor, Be32;
      forall n: nat | ImageOver(ram[..], modules, digest, base, n, address)
        ensures InRam(base, 0x30) && Be32(Slice(ram[..], base, 0x30), 4) == n >= 0x33
      {
        ImageHeader(ram[..], modules, digest, base, n, address);
      }
      if base > address || !InRam(base, 0x30) { return false, 0; }
      SliceOf(base, 0x30);
      size := Be32(ram[Offset(base)..Offset(base) + 0x30], 4);
      plausible := !(size < 0x33 || address - base >= size || !InRam(base, size));
    }

    /** Is any compiled module that long, and is the header intact? */
    method ImageTest(base: nat, size: nat, address: nat) returns (wellFormed: bool)
      requires ram.Length == 2 * BANK && base % 2 == 0 && InRam(base, 2) && Sync(ram[..], Index(base))
      requires InRam(base, 0x30) && size >= 0x33 && InRam(base, size)
      requires Be32(Slice(ram[..], base, 0x30), 4) == size
      ensures wellFormed ==> WellFormed(Slice(ram[..], base, size))
      ensures !wellFormed ==> NoImage(ram[..], modules, digest, base, address)
    {
      hide WellFormed, Slice, Sync, Known, HeaderXor, Be32;
      forall n: nat | ImageOver(ram[..], modules, digest, base, n, address)
        ensures n == size && HeaderXor(Slice(ram[..], base, 0x30), 0x18) == 0xFFFF
        ensures exists m :: 0 <= m < |modules| && modules[m].size == size
      {
        ImageHeader(ram[..], modules, digest, base, n, address);
      }
      var possible := SizeKnown(size);
      if !possible { return false; }
      var parity := HeaderParity(base);
      if parity != 0xFFFF { return false; }
      HeaderPasses(ram[..], base, size);
      return true;
    }

    /** A checked binding that is not valid is a rejection that still stands. */
    lemma RejectedTag(slot: nat, size: nat, address: nat)
      requires Valid() && slot < |bindings| && bindings[slot].checked
      requires forall i :: 0 <= i < |bindings| ==> !Contains(bindings[i], address)
      requires size >= 0x33 && InRam(bindings[slot].base, size) && InRam(bindings[slot].base, 0x30)
      requires Be32(Slice(ram[..], bindings[slot].base, 0x30), 4) == size
      requires bindings[slot].base <= address < bindings[slot].base + size
      ensures NoImage(ram[..], modules, digest, bindings[slot].base, address)
    {
      hide Sound, Sync, Inverse, Covered, ValidCount, Known, HeaderXor;
      var b := bindings[slot];
      SoundAt(View(), modules, digest, slot);
      HeadLength(ram[..], b.base, b.size);
      forall n: nat ensures !ImageOver(ram[..], modules, digest, b.base, n, address) {
        if ImageOver(ram[..], modules, digest, b.base, n, address) {
          ImageHeader(ram[..], modules, digest, b.base, n, address);
        }
      }
    }

    /** resolve: the binding that covers an address, found exactly when a scan of all RAM
        with no cache would find a compiled module's image there. */
    method Resolve(address: nat) returns (r: Resolution)
      requires Valid() && modules != [] && address % 2 == 0
      modifies this`bindings, this`spans, this`stats, this`epoch
      ensures Valid() && Next(old(View()), NativeSpec.Resolve, View(), modules, digest)
      ensures r.Found? ==> r.slot < |bindings| && Contains(bindings[r.slot], address)
      ensures r.Found? ==> Findable(ram[..], modules, digest, address)
      ensures r.NotFound? ==> !Findable(ram[..], modules, digest, address)
      ensures r.Found? ==> exists base: nat, size: nat :: Spelled(ram[..], modules, digest, base, size, address)
      ensures r.NotFound? ==> forall base: nat, size: nat :: !Spelled(ram[..], modules, digest, base, size, address)
      ensures r.Aborted? ==>
        |bindings| == SLOTS && exists base: nat, size: nat :: Homeless(ram[..], bindings, base, size, address)
    {
      hide Sound, Sync, Inverse, Covered, ValidCount, ImageOver, Rechecked, Homeless, Spelled;
      ghost var v := View();
      FindableIs(ram[..], modules, digest, address);
      RecheckedSame(v, modules, digest);
      var found, slot := FindValid(address);
      if found {
        BindingIsImage(slot, address);
        return Found(slot);
      }
      if !InRam(address, 2) {
        NothingOutside(ram[..], modules, digest, address);
        return NotFound;
      }
      var i := 0;
      while i < tagset.count
        invariant 0 <= i <= tagset.count
        invariant Valid() && Rechecked(v, View(), modules, digest)
        invariant forall k :: 0 <= k < |bindings| && Written(v, View(), k) ==> bindings[k].checked
        invariant forall k :: 0 <= k < |bindings| ==> !Contains(bindings[k], address)
        invariant forall k :: 0 <= k < i ==> NoImage(ram[..], modules, digest, tagset.tags[k], address)
      {
        tagset.ListedIsWord(i);
        ghost var w := View();
        r := TryTag(tagset.tags[i], address);
        RecheckedTrans(v, w, View(), modules, digest);
        if !r.NotFound? { return; }
        i := i + 1;
      }
      NothingListed(address);
      return NotFound;
    }

    lemma BindingIsImage(slot: nat, address: nat)
      requires Valid() && slot < |bindings| && Contains(bindings[slot], address)
      ensures Findable(ram[..], modules, digest, address)
    {
      hide Sound, Sync, Inverse, Covered, ValidCount, WellFormed;
      SoundAt(View(), modules, digest, slot);
      var b := bindings[slot];
      assert ImageOver(ram[..], modules, digest, b.base, b.size, address);
    }

    lemma NothingListed(address: nat)
      requires Valid() && modules != []
      requires forall k :: 0 <= k < tagset.count ==> NoImage(ram[..], modules, digest, tagset.tags[k], address)
      ensures !Findable(ram[..], modules, digest, address)
    {
      hide Sound, Sync, Inverse, Covered, ValidCount, WellFormed;
      forall base: nat, size: nat ensures !ImageOver(ram[..], modules, digest, base, size, address) {
        if ImageOver(ram[..], modules, digest, base, size, address) {
          ImageHeader(ram[..], modules, digest, base, size, address);
          var k := tagset.Listed(base);
        }
      }
    }

    // ----- tokens -----

    /** cdi_native_execution_token: a token for the valid binding at `base`, or zero. */
    method ExecutionToken(base: nat, expected: nat) returns (token: nat, ghost slot: nat)
      requires Valid()
      ensures token != 0 ==>
        && slot < |bindings| && bindings[slot].valid && bindings[slot].base == base
        && bindings[slot].mod < |modules| && modules[bindings[slot].mod].dispatch == expected
        && token == Token(bindings[slot].epoch, slot + 1)
      ensures token == 0 ==> forall i :: 0 <= i < |bindings| && bindings[i].valid && bindings[i].base == base ==>
        bindings[i].mod < |modules| && modules[bindings[i].mod].dispatch != expected
    {
      hide Sound, Inverse, Covered, ValidCount, Sync, Token;
      var i := 0;
      while i < |bindings|
        invariant 0 <= i <= |bindings|
        invariant forall k :: 0 <= k < i && bindings[k].valid && bindings[k].base == base ==>
          bindings[k].mod < |modules| && modules[bindings[k].mod].dispatch != expected
      {
        SoundAt(View(), modules, digest, i);
        var b := bindings[i];
        if b.valid && b.base == base && modules[b.mod].dispatch == expected {
          TokenNonzero(b.epoch, i + 1);
          return Token(b.epoch, i + 1), i;
        }
        i := i + 1;
      }
      return 0, 0;
    }

    /** cdi_native_job_binding: the base and token of the binding of a module over a caller. */
    method JobBinding(mod: nat, caller: nat) returns (found: bool, base: nat, token: nat, ghost slot: nat)
      requires Valid()
      ensures found ==>
        && slot < |bindings| && Contains(bindings[slot], caller) && bindings[slot].mod == mod
        && base == bindings[slot].base && token == Token(bindings[slot].epoch, slot + 1)
      ensures !found ==> forall i :: 0 <= i < |bindings| && Contains(bindings[i], caller) ==> bindings[i].mod != mod
    {
      hide Sound, Inverse, Covered, ValidCount, Sync, Token;
      var i := 0;
      while i < |bindings|
        invariant 0 <= i <= |bindings|
        invariant forall k :: 0 <= k < i && Contains(bindings[k], caller) ==> bindings[k].mod != mod
      {
        var b := bindings[i];
        if Contains(b, caller) && b.mod == mod { return true, b.base, Token(b.epoch, i + 1), i; }
        i := i + 1;
      }
      return false, 0, 0, 0;
    }
  }

  lemma ModuleKnown(v: View, modules: seq<Module>, digest: Digest, i: nat)
    requires Sound(v, modules, digest) && i < |v.bindings| && v.bindings[i].valid
    ensures v.bindings[i].mod < |modules|
  {
    hide Sound;
    SoundAt(v, modules, digest, i);
  }

  lemma TokenNonzero(epoch: nat, slot: nat)
    requires 0 < slot < EPOCH_UNIT
    ensures Token(epoch, slot) != 0
  {
    TokenParts(epoch, slot);
  }

  /** cdi_native_record_target: an interpreted entry into a bound image that the generated
      code does not cover goes to the ledger under its module and offset. */
  method RecordTarget(cache: Cache, ledger: Ledger, address: nat, frame: nat, trace: nat) returns (r: Resolution)
    requires cache.Valid() && ledger.Valid()
    requires {cache, cache.ram, cache.tagset, cache.tagset.tags, cache.tagset.indices}
      !! {ledger, ledger.targets, ledger.indices}
    modifies cache`bindings, cache`spans, cache`stats, cache`epoch, ledger, ledger.targets, ledger.indices
    ensures cache.Valid() && ledger.Valid()
    ensures Next(old(cache.View()), NativeSpec.Resolve, cache.View(), cache.modules, cache.digest)
    ensures cache.modules != [] && address % 2 == 0 && !r.Aborted? ==>
      (r.Found? <==> Findable(cache.ram[..], cache.modules, cache.digest, address))
    ensures r.Found? ==> r.slot < |cache.bindings| && Contains(cache.bindings[r.slot], address)
    ensures r.Found? ==> var b := cache.bindings[r.slot];
      && b.mod < |cache.modules|
      && if cache.modules[b.mod].hasOffset(address - b.base)
         then ledger.calls == old(ledger.calls) && ledger.Records() == old(ledger.Records())
         else
           && ledger.calls == old(ledger.calls) + 1
           && Recorded(old(ledger.Records()), old(ledger.dropped),
                       Target(Key(b.mod, address - b.base), b.base, b.epoch, frame, trace, 1),
                       ledger.Records(), ledger.dropped)
    ensures !r.Found? ==> ledger.calls == old(ledger.calls) && ledger.Records() == old(ledger.Records())
  {
    hide Sound, Inverse, Covered, ValidCount, Sync, Findable, Indexed, TotalHits, Rechecked, Truthful, Recorded;
    RecheckedSame(cache.View(), cache.modules, cache.digest);
    if cache.modules == [] || address % 2 != 0 { return NotFound; }
    r := cache.Resolve(address);
    if !r.Found? { return; }
    ModuleKnown(cache.View(), cache.modules, cache.digest, r.slot);
    var b := cache.bindings[r.slot];
    if cache.modules[b.mod].hasOffset(address - b.base) { return; }
    var key := Key(b.mod, address - b.base);
    ledger.Record(key, b.base, b.epoch, frame, trace);
  }

  /** cdi_native_reset as a whole: the cache and the ledger start over on the RAM as it is. */
  method ResetAll(cache: Cache, ledger: Ledger)
    requires cache.Shape() && ledger.Valid()
    requires {cache, cache.ram, cache.tagset, cache.tagset.tags, cache.tagset.indices}
      !! {ledger, ledger.targets, ledger.indices}
    modifies cache`bindings, cache`spans, cache`stats, cache`invalidationEpoch,
      cache.tagset, cache.tagset.tags, cache.tagset.indices, ledger, ledger.indices
    ensures cache.Valid() && Next(old(cache.View()), NativeSpec.Reset, cache.View(), cache.modules, cache.digest)
    ensures ledger.Valid() && ledger.Records() == [] && ledger.dropped == 0
  {
    hide Sound, Inverse, Covered, ValidCount, Sync, Indexed, TotalHits;
    cache.Reset();
    ledger.Reset();
  }
}
