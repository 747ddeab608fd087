/** What runner/src/cdi_native.c caches about guest RAM, stated on values: module images,
    bindings, execution tokens, and the transitions of the cache. */
module NativeSpec {
  import opened Guest
  import opened Bits

  /** A compiled module: its image identity and what the generated code offers. */
  datatype Module = Module(size: nat, sha256: seq<byte>, dispatch: nat, hasOffset: nat -> bool)

  type Digest = seq<byte> -> seq<byte>

  // ----- module images in RAM -----

  function FoldHalfword(parity: nat, high: byte, low: byte): nat {
    XorNumber(parity, 256 * (high as int) + low)
  }

  /** XOR of the first n big-endian halfwords. */
  function HeaderXor(s: seq<byte>, n: nat): nat
    requires 2 * n <= |s|
  {
    if n == 0 then 0
    else FoldHalfword(HeaderXor(s, n - 1), s[2 * n - 2], s[2 * n - 1])
  }

  /** An OS-9 module as far as its header says: sync word, own length, header parity. */
  predicate WellFormed(image: seq<byte>) {
    && |image| >= 0x33
    && image[0] == 0x4A && image[1] == 0xFC
    && Be32(image, 4) == |image|
    && HeaderXor(image, 0x18) == 0xFFFF
  }

  predicate Matches(image: seq<byte>, modules: seq<Module>, digest: Digest, m: nat) {
    m < |modules| && modules[m].size == |image| && modules[m].sha256 == digest(image)
  }

  ghost predicate Known(image: seq<byte>, modules: seq<Module>, digest: Digest) {
    exists m: nat :: Matches(image, modules, digest, m)
  }

  /** An image of module m lies at `base` and contains `address`. */
  ghost predicate ImageOver(mem: Memory, modules: seq<Module>, digest: Digest, base: nat, size: nat, address: nat) {
    && base % 2 == 0 && size > 0 && InRam(base, size) && base <= address < base + size
    && WellFormed(Slice(mem, base, size)) && Known(Slice(mem, base, size), modules, digest)
  }

  /** What a scan of all RAM with no cache at all would answer. */
  ghost predicate Findable(mem: Memory, modules: seq<Module>, digest: Digest, address: nat) {
    exists base: nat, size: nat :: ImageOver(mem, modules, digest, base, size, address)
  }

  // ----- the header, byte by byte -----

  /** Bit b of the halfword these two bytes spell. */
  predicate Lit(high: byte, low: byte, b: nat)
    requires b < 16
  {
    var unit := [1, 2, 4, 8, 16, 32, 64, 128];
    if b < 8 then (low / unit[b]) % 2 == 1 else (high / unit[b - 8]) % 2 == 1
  }

  /** How many of the first n halfwords have bit b set. */
  function Column(s: seq<byte>, b: nat, n: nat): nat
    requires b < 16 && 2 * n <= |s|
  {
    if n == 0 then 0 else Column(s, b, n - 1) + if Lit(s[2 * n - 2], s[2 * n - 1], b) then 1 else 0
  }

  /** Every one of the 16 bit positions is set in an odd number of the 24 header halfwords. */
  predicate OddColumns(header: seq<byte>)
    requires |header| >= 0x30
  {
    forall b :: 0 <= b < 16 ==> Column(header, b, 0x18) % 2 == 1
  }

  lemma ByteBits(v: byte, b: nat)
    requires b < 8
    ensures BitOf(v, b) <==> (v / [1, 2, 4, 8, 16, 32, 64, 128][b]) % 2 == 1
  {
    hide BitOf;
    NibbleBits(v, b);
    if b >= 4 {
      NibbleBits(v / 16, b - 4);
      assert v / 16 / 2 == v / 32 && v / 16 / 4 == v / 64 && v / 16 / 8 == v / 128;
    }
  }

  lemma HalfwordBits(high: byte, low: byte, b: nat)
    requires b < 16
    ensures BitOf(256 * (high as int) + low, b) <==> Lit(high, low, b)
  {
    hide BitOf;
    assert Power(8) == 256;
    JoinedBits(high, low, 8, b);
    ByteBits(if b < 8 then low else high, b % 8);
  }

  lemma {:induction false} ColumnParity(s: seq<byte>, b: nat, n: nat)
    requires b < 16 && 2 * n <= |s|
    ensures BitOf(HeaderXor(s, n), b) <==> Column(s, b, n) % 2 == 1
  {
    hide Lit, BitOf, XorNumber;
    if n == 0 {
      ZeroBits(b);
    } else {
      ColumnParity(s, b, n - 1);
      var high, low := s[2 * n - 2], s[2 * n - 1];
      XorBits(HeaderXor(s, n - 1), 256 * (high as int) + low, b);
      HalfwordBits(high, low, b);
    }
  }

  lemma {:induction false} HeaderXorFits(s: seq<byte>, n: nat)
    requires 2 * n <= |s|
    ensures HeaderXor(s, n) < Power(16)
  {
    hide XorNumber;
    assert Power(8) == 256 && Power(16) == 65536;
    if n > 0 {
      HeaderXorFits(s, n - 1);
      XorBound(HeaderXor(s, n - 1), 256 * (s[2 * n - 2] as int) + s[2 * n - 1], 16);
    }
  }

  /** The parity test, counted on the header's bytes. */
  lemma ParityMeans(header: seq<byte>)
    requires |header| >= 0x30
    ensures HeaderXor(header, 0x18) == 0xFFFF <==> OddColumns(header)
  {
    hide HeaderXor, Column, BitOf;
    var parity := HeaderXor(header, 0x18);
    assert Power(8) == 256 && Power(16) == 65536;
    HeaderXorFits(header, 0x18);
    if OddColumns(header) {
      forall b | 0 <= b < 16 ensures BitOf(parity, b) { ColumnParity(header, b, 0x18); }
      AllOnes(parity, 16);
    }
    if parity == 0xFFFF {
      forall b | 0 <= b < 16 ensures Column(header, b, 0x18) % 2 == 1 {
        OnesBits(16, b);
        ColumnParity(header, b, 0x18);
      }
    }
  }

  /** An image as its bytes in RAM spell it: sync word, own length, an odd count in every column of
      the header, and the digest of one of the compiled modules. */
  ghost predicate Spelled(mem: Memory, modules: seq<Module>, digest: Digest, base: nat, size: nat, address: nat) {
    && base % 2 == 0 && size >= 0x33 && InRam(base, size) && base <= address < base + size
    && var s := mem[Offset(base)..Offset(base) + size];
    && s[0] == 0x4A && s[1] == 0xFC
    && size == 0x100_0000 * (s[4] as int) + 0x1_0000 * (s[5] as int) + 0x100 * (s[6] as int) + s[7]
    && OddColumns(s)
    && exists m :: 0 <= m < |modules| && modules[m].size == size && modules[m].sha256 == digest(s)
  }

  lemma SpelledIs(mem: Memory, modules: seq<Module>, digest: Digest, base: nat, size: nat, address: nat)
    ensures ImageOver(mem, modules, digest, base, size, address)
       <==> Spelled(mem, modules, digest, base, size, address)
  {
    hide HeaderXor, OddColumns;
    if base % 2 == 0 && size >= 0x33 && InRam(base, size) {
      var s := Slice(mem, base, size);
      ParityMeans(s);
      assert Known(s, modules, digest) <==>
        exists m :: 0 <= m < |modules| && modules[m].size == size && modules[m].sha256 == digest(s) by {
        if m: nat :| Matches(s, modules, digest, m) { assert modules[m].size == size; }
        if m :| 0 <= m < |modules| && modules[m].size == size && modules[m].sha256 == digest(s) {
          assert Matches(s, modules, digest, m);
        }
      }
    }
  }

  /** What an uncached scan finds, in bytes. */
  lemma FindableIs(mem: Memory, modules: seq<Module>, digest: Digest, address: nat)
    ensures Findable(mem, modules, digest, address)
       <==> exists base: nat, size: nat :: Spelled(mem, modules, digest, base, size, address)
  {
    hide ImageOver, Spelled;
    forall base: nat, size: nat
      ensures ImageOver(mem, modules, digest, base, size, address)
         <==> Spelled(mem, modules, digest, base, size, address)
    {
      SpelledIs(mem, modules, digest, base, size, address);
    }
  }

  // ----- cached bindings -----

  datatype Binding = Binding(base: nat, size: nat, epoch: nat, mod: nat, checked: bool, valid: bool)

  predicate Overlaps(b: Binding, address: nat, end: nat) {
    address < b.base + b.size && end > b.base
  }

  predicate Contains(b: Binding, address: nat) {
    b.valid && b.base <= address && address - b.base < b.size
  }

  /** What a binding may claim: a checked one describes the bytes in RAM now. */
  ghost predicate Truthful(b: Binding, mem: Memory, modules: seq<Module>, digest: Digest) {
    && b.base % 2 == 0 && b.size >= 0x33 && InRam(b.base, b.size)
    && (b.valid ==> b.checked)
    && (b.checked ==> WellFormed(Slice(mem, b.base, b.size)))
    && (b.valid ==> Matches(Slice(mem, b.base, b.size), modules, digest, b.mod))
    && (b.checked && !b.valid ==> !Known(Slice(mem, b.base, b.size), modules, digest))
  }

  function Revoked(b: Binding, address: nat, end: nat): Binding {
    if Overlaps(b, address, end) then b.(valid := false, checked := false) else b
  }

  function Revoke(bs: seq<Binding>, address: nat, end: nat): (r: seq<Binding>)
    ensures |r| == |bs|
    ensures forall i :: 0 <= i < |bs| ==> r[i] == Revoked(bs[i], address, end)
  {
    seq(|bs|, i requires 0 <= i < |bs| => Revoked(bs[i], address, end))
  }

  function ValidCount(bs: seq<Binding>): (n: nat)
    ensures n <= |bs|
  {
    if bs == [] then 0 else ValidCount(bs[..|bs| - 1]) + (if bs[|bs| - 1].valid then 1 else 0)
  }

  // ----- the cache as a transition system -----

  datatype View = View(mem: Memory, bindings: seq<Binding>, epoch: nat, invalidations: nat)

  /** A RAM mutation followed by its notification, a resolution, or a warm reset. */
  datatype Event = Write(address: nat, size: nat) | Resolve | Reset

  ghost predicate Sound(v: View, modules: seq<Module>, digest: Digest) {
    && (forall i :: 0 <= i < |v.bindings| ==> Truthful(v.bindings[i], v.mem, modules, digest))
    && (forall i :: 0 <= i < |v.bindings| ==> v.bindings[i].epoch <= v.epoch)
    && (forall i, j :: 0 <= i < j < |v.bindings| ==> v.bindings[i].base != v.bindings[j].base)
  }

  /** A slot that resolution has written. */
  predicate Written(v: View, v': View, i: nat)
    requires i < |v'.bindings|
  {
    i >= |v.bindings| || v'.bindings[i] != v.bindings[i]
  }

  /** Resolution may check unchecked slots and append new ones, at bases of their own. What it
      writes down is true of RAM, and what it newly declares valid carries a fresh epoch. */
  ghost predicate Rechecked(v: View, v': View, modules: seq<Module>, digest: Digest) {
    && v'.mem == v.mem && v'.invalidations == v.invalidations && v'.epoch >= v.epoch
    && |v'.bindings| >= |v.bindings|
    && (forall i :: 0 <= i < |v.bindings| ==> v'.bindings[i].base == v.bindings[i].base)
    && (forall i :: 0 <= i < |v.bindings| && v.bindings[i].checked ==> v'.bindings[i] == v.bindings[i])
    && (forall i, j :: 0 <= i < j < |v'.bindings| && j >= |v.bindings| ==> v'.bindings[i].base != v'.bindings[j].base)
    && (forall i :: 0 <= i < |v'.bindings| && Written(v, v', i) ==>
      && Truthful(v'.bindings[i], v'.mem, modules, digest) && v'.bindings[i].epoch <= v'.epoch
      && (v'.bindings[i].valid ==> v.epoch < v'.bindings[i].epoch))
  }

  ghost predicate Next(v: View, event: Event, v': View, modules: seq<Module>, digest: Digest) {
    match event
    case Write(address, size) =>
      && size > 0 && InRam(address, size) && WrittenOnly(v.mem, v'.mem, address, size)
      && v'.bindings == Revoke(v.bindings, address, address + size)
      && v'.epoch == v.epoch
      && v'.invalidations == v.invalidations + ValidCount(v.bindings) - ValidCount(v'.bindings)
    case Resolve => Rechecked(v, v', modules, digest)
    case Reset => v'.mem == v.mem && v'.bindings == [] && v'.epoch == v.epoch && v'.invalidations == v.invalidations + 1
  }

  lemma SliceFrame(mem: Memory, mem': Memory, address: nat, size: nat, b: Binding)
    requires size > 0 && InRam(address, size) && WrittenOnly(mem, mem', address, size)
    requires b.size > 0 && InRam(b.base, b.size) && !Overlaps(b, address, address + size)
    ensures Slice(mem', b.base, b.size) == Slice(mem, b.base, b.size)
  {}

  /** A revoking write keeps every remaining claim true. */
  lemma WriteSound(v: View, address: nat, size: nat, v': View, modules: seq<Module>, digest: Digest)
    requires Sound(v, modules, digest) && Next(v, Write(address, size), v', modules, digest)
    ensures Sound(v', modules, digest)
  {
    hide WellFormed, Matches, Known, Slice;
    forall i | 0 <= i < |v'.bindings| ensures Truthful(v'.bindings[i], v'.mem, modules, digest) {
      var b := v.bindings[i];
      assert Truthful(b, v.mem, modules, digest);
      if !Overlaps(b, address, address + size) { SliceFrame(v.mem, v'.mem, address, size, b); }
    }
  }

  lemma {:induction false} RevokeCount(bs: seq<Binding>, address: nat, end: nat)
    ensures ValidCount(Revoke(bs, address, end)) <= ValidCount(bs)
    ensures ValidCount(Revoke(bs, address, end)) == ValidCount(bs) ==>
      forall i :: 0 <= i < |bs| && bs[i].valid ==> Revoke(bs, address, end)[i] == bs[i]
  {
    if bs != [] {
      var n := |bs| - 1;
      RevokeCount(bs[..n], address, end);
      assert Revoke(bs, address, end)[..n] == Revoke(bs[..n], address, end);
    }
  }

  // ----- execution tokens -----

  const EPOCH_UNIT := 0x1_0000
  const TOKEN_LIMIT := 0x1_0000_0000_0000_0000

  /** (epoch << 16) | slot in 64 bits. */
  function Token(epoch: nat, slot: nat): nat
    requires slot < EPOCH_UNIT
  {
    (epoch * EPOCH_UNIT + slot) % TOKEN_LIMIT
  }

  /** The safepoint test before an emitted instruction. */
  predicate InstructionValid(bs: seq<Binding>, modules: seq<Module>, address: nat, expected: nat, token: nat) {
    var slot := token % EPOCH_UNIT;
    && 1 <= slot <= |bs|
    && var b := bs[slot - 1];
    && b.valid && b.epoch == token / EPOCH_UNIT
    && b.mod < |modules| && modules[b.mod].dispatch == expected
    && address % 2 == 0 && b.base <= address && address - b.base < b.size
  }

  lemma TokenParts(epoch: nat, slot: nat)
    requires slot < EPOCH_UNIT
    ensures Token(epoch, slot) % EPOCH_UNIT == slot
    ensures Token(epoch, slot) / EPOCH_UNIT == epoch % 0x1_0000_0000_0000
  {
    var q, r := epoch / 0x1_0000_0000_0000, epoch % 0x1_0000_0000_0000;
    assert epoch * EPOCH_UNIT + slot == q * TOKEN_LIMIT + (r * EPOCH_UNIT + slot);
    ModOf(q, r * EPOCH_UNIT + slot);
    DivOf(r, slot);
  }

  lemma ModOf(q: nat, r: nat)
    requires r < TOKEN_LIMIT
    ensures (q * TOKEN_LIMIT + r) % TOKEN_LIMIT == r
  {}

  lemma DivOf(r: nat, slot: nat)
    requires slot < EPOCH_UNIT
    ensures (r * EPOCH_UNIT + slot) % EPOCH_UNIT == slot && (r * EPOCH_UNIT + slot) / EPOCH_UNIT == r
  {}

  /** A run of the cache from a sound state. */
  ghost predicate Run(vs: seq<View>, events: seq<Event>, modules: seq<Module>, digest: Digest) {
    && |vs| == |events| + 1
    && Sound(vs[0], modules, digest)
    && forall k :: 0 <= k < |events| ==> Next(vs[k], events[k], vs[k + 1], modules, digest)
  }

  lemma RunLength(vs: seq<View>, events: seq<Event>, modules: seq<Module>, digest: Digest)
    requires Run(vs, events, modules, digest)
    ensures |vs| == |events| + 1
  {}

  lemma SoundAt(v: View, modules: seq<Module>, digest: Digest, i: nat)
    requires Sound(v, modules, digest) && i < |v.bindings|
    ensures Truthful(v.bindings[i], v.mem, modules, digest) && v.bindings[i].epoch <= v.epoch
  {}

  lemma {:induction false} RunSound(vs: seq<View>, events: seq<Event>, modules: seq<Module>, digest: Digest, k: nat)
    requires Run(vs, events, modules, digest) && k < |vs|
    ensures Sound(vs[k], modules, digest)
  {
    hide Sound, WrittenOnly;
    if k > 0 {
      RunSound(vs, events, modules, digest, k - 1);
      match events[k - 1]
      case Write(address, size) => WriteSound(vs[k - 1], address, size, vs[k], modules, digest);
      case Resolve => RecheckedSound(vs[k - 1], vs[k], modules, digest);
      case Reset => ResetSound(vs[k], modules, digest);
    }
  }

  /** Slots resolution left alone were sound, and the others are true. */
  lemma RecheckedSound(v: View, v': View, modules: seq<Module>, digest: Digest)
    requires Sound(v, modules, digest) && Rechecked(v, v', modules, digest)
    ensures Sound(v', modules, digest)
  {
    hide Truthful;
    forall i | 0 <= i < |v'.bindings|
      ensures Truthful(v'.bindings[i], v'.mem, modules, digest) && v'.bindings[i].epoch <= v'.epoch
    {
      if !Written(v, v', i) { SoundAt(v, modules, digest, i); }
    }
  }

  lemma ResetSound(v: View, modules: seq<Module>, digest: Digest)
    requires v.bindings == []
    ensures Sound(v, modules, digest)
  {}

  /** No write between states i and k touched [base, base + size). */
  ghost predicate Untouched(events: seq<Event>, i: nat, k: nat, b: Binding)
    requires i <= k <= |events|
  {
    forall t :: i <= t < k && events[t].Write? ==> !Overlaps(b, events[t].address, events[t].address + events[t].size)
  }

  /** What a slot that still carries an epoch up to the issued one says about its past. */
  ghost predicate Remembers(vs: seq<View>, events: seq<Event>, i: nat, k: nat, slot: nat, b: Binding)
    requires i <= k < |vs| && |vs| == |events| + 1 && b.size > 0 && InRam(b.base, b.size)
  {
    && vs[k].epoch >= b.epoch
    && (slot < |vs[k].bindings| && vs[k].bindings[slot].valid && vs[k].bindings[slot].epoch <= b.epoch ==>
      && vs[k].bindings[slot] == b
      && Slice(vs[k].mem, b.base, b.size) == Slice(vs[i].mem, b.base, b.size)
      && Untouched(events, i, k, b))
  }

  lemma RememberStep(vs: seq<View>, events: seq<Event>, modules: seq<Module>, digest: Digest,
                     i: nat, k: nat, slot: nat, b: Binding)
    requires Run(vs, events, modules, digest) && i <= k < |events|
    requires b.size > 0 && InRam(b.base, b.size)
    requires Remembers(vs, events, i, k, slot, b)
    ensures Remembers(vs, events, i, k + 1, slot, b)
  {
    hide Sound, Slice, WrittenOnly, ValidCount;
    var v, v' := vs[k], vs[k + 1];
    if slot < |v'.bindings| && v'.bindings[slot].valid && v'.bindings[slot].epoch <= b.epoch {
      match events[k]
      case Write(address, size) =>
        assert v'.bindings[slot] == Revoked(v.bindings[slot], address, address + size);
        SliceFrame(v.mem, v'.mem, address, size, b);
      case Resolve =>
        assert slot < |v.bindings| && v'.bindings[slot] == v.bindings[slot];
      case Reset =>
    }
  }

  lemma {:induction false} Remembered(vs: seq<View>, events: seq<Event>, modules: seq<Module>, digest: Digest,
                                      i: nat, k: nat, slot: nat, b: Binding)
    requires Run(vs, events, modules, digest) && i <= k < |vs|
    requires slot < |vs[i].bindings| && vs[i].bindings[slot] == b && b.valid
    requires b.size > 0 && InRam(b.base, b.size)
    ensures Remembers(vs, events, i, k, slot, b)
  {
    if k == i {
      RunSound(vs, events, modules, digest, i);
    } else {
      hide Run, Remembers;
      Remembered(vs, events, modules, digest, i, k - 1, slot, b);
      RunLength(vs, events, modules, digest);
      RememberStep(vs, events, modules, digest, i, k - 1, slot, b);
    }
  }

  /** A token that still passes the safepoint test at state j, however long after its issue
      at state i and across resets and slot reuse: no write has overlapped its module since,
      RAM still holds the very bytes it held, and they are the compiled module's image. */
  lemma TokenSafety(vs: seq<View>, events: seq<Event>, modules: seq<Module>, digest: Digest,
                    i: nat, j: nat, slot: nat, address: nat, expected: nat)
    requires Run(vs, events, modules, digest) && i <= j < |vs|
    requires slot < |vs[i].bindings| && slot + 1 < EPOCH_UNIT && vs[i].bindings[slot].valid
    requires InstructionValid(vs[j].bindings, modules, address, expected, Token(vs[i].bindings[slot].epoch, slot + 1))
    ensures var b := vs[i].bindings[slot];
      && b.size > 0 && InRam(b.base, b.size) && b.base <= address < b.base + b.size
      && slot < |vs[j].bindings| && vs[j].bindings[slot] == b
      && Untouched(events, i, j, b)
      && Slice(vs[j].mem, b.base, b.size) == Slice(vs[i].mem, b.base, b.size)
      && Matches(Slice(vs[j].mem, b.base, b.size), modules, digest, b.mod)
      && modules[b.mod].dispatch == expected
  {
    hide Run, Sound, Slice, Untouched;
    var b := vs[i].bindings[slot];
    TokenParts(b.epoch, slot + 1);
    RunLength(vs, events, modules, digest);
    RunSound(vs, events, modules, digest, i);
    RunSound(vs, events, modules, digest, j);
    SoundAt(vs[i], modules, digest, slot);
    Remembered(vs, events, modules, digest, i, j, slot, b);
    assert b.epoch % 0x1_0000_0000_0000 <= b.epoch;
    SoundAt(vs[j], modules, digest, slot);
  }

  lemma ValidIsChecked(v: View, modules: seq<Module>, digest: Digest, i: nat)
    requires Sound(v, modules, digest) && i < |v.bindings| && v.bindings[i].valid
    ensures v.bindings[i].checked
  {
    hide Sound, WellFormed, Known, Matches;
    SoundAt(v, modules, digest, i);
  }

  lemma StableSlot(v: View, event: Event, v': View, modules: seq<Module>, digest: Digest, slot: nat)
    requires Sound(v, modules, digest) && Next(v, event, v', modules, digest)
    requires v'.invalidations == v.invalidations
    requires slot < |v.bindings| && v.bindings[slot].valid
    ensures slot < |v'.bindings| && v'.bindings[slot] == v.bindings[slot]
  {
    hide Sound, WrittenOnly, ValidCount;
    ValidIsChecked(v, modules, digest, slot);
    match event
    case Write(a, size) => RevokeCount(v.bindings, a, a + size);
    case Resolve =>
    case Reset =>
  }

  lemma StableStep(v: View, event: Event, v': View, modules: seq<Module>, digest: Digest,
                   address: nat, expected: nat, token: nat)
    requires Sound(v, modules, digest) && Next(v, event, v', modules, digest)
    requires v'.invalidations == v.invalidations
    requires InstructionValid(v.bindings, modules, address, expected, token)
    ensures InstructionValid(v'.bindings, modules, address, expected, token)
  {
    hide Sound, Next;
    StableSlot(v, event, v', modules, digest, token % EPOCH_UNIT - 1);
  }

  lemma {:induction false} InvalidationsGrow(vs: seq<View>, events: seq<Event>, modules: seq<Module>, digest: Digest,
                                             i: nat, j: nat)
    requires Run(vs, events, modules, digest) && i <= j < |vs|
    ensures vs[i].invalidations <= vs[j].invalidations
  {
    hide Sound, WrittenOnly;
    if i < j {
      InvalidationsGrow(vs, events, modules, digest, i, j - 1);
      if events[j - 1].Write? {
        RevokeCount(vs[j - 1].bindings, events[j - 1].address, events[j - 1].address + events[j - 1].size);
      }
    }
  }

  /** While the invalidation epoch stands still, a token that passed the safepoint test
      goes on passing it: a job may skip the test until the epoch moves. */
  lemma {:induction false} TokenStable(vs: seq<View>, events: seq<Event>, modules: seq<Module>, digest: Digest,
                                       i: nat, j: nat, address: nat, expected: nat, token: nat)
    requires Run(vs, events, modules, digest) && i <= j < |vs|
    requires vs[i].invalidations == vs[j].invalidations
    requires InstructionValid(vs[i].bindings, modules, address, expected, token)
    ensures InstructionValid(vs[j].bindings, modules, address, expected, token)
  {
    hide Sound, InstructionValid, Next;
    if i < j {
      InvalidationsGrow(vs, events, modules, digest, i, j - 1);
      InvalidationsGrow(vs, events, modules, digest, j - 1, j);
      TokenStable(vs, events, modules, digest, i, j - 1, address, expected, token);
      RunSound(vs, events, modules, digest, j - 1);
      StableStep(vs[j - 1], events[j - 1], vs[j], modules, digest, address, expected, token);
    }
  }

  /** A token passes at its own issue exactly when its epoch still fits 48 bits. */
  lemma FreshTokenPasses(v: View, modules: seq<Module>, digest: Digest, slot: nat, address: nat)
    requires Sound(v, modules, digest) && slot < |v.bindings| && slot + 1 < EPOCH_UNIT
    requires Contains(v.bindings[slot], address) && address % 2 == 0
    ensures var b := v.bindings[slot];
      && b.mod < |modules|
      && (InstructionValid(v.bindings, modules, address, modules[b.mod].dispatch, Token(b.epoch, slot + 1))
          <==> b.epoch < 0x1_0000_0000_0000)
  {
    hide Sound;
    SoundAt(v, modules, digest, slot);
    TokenParts(v.bindings[slot].epoch, slot + 1);
  }

  /** The epoch 2^48 is one too many for the 64 bits of a token; the one before passes. */
  lemma EpochExample(hasOffset: nat -> bool)
    ensures var m := [Module(0x40, [], 5, hasOffset)];
      var last := 0xFFFF_FFFF_FFFF;
      && InstructionValid([Binding(0, 0x40, last, 0, true, true)], m, 0, 5, Token(last, 1))
      && !InstructionValid([Binding(0, 0x40, last + 1, 0, true, true)], m, 0, 5, Token(last + 1, 1))
  {
    hide Token;
    TokenParts(0xFFFF_FFFF_FFFF, 1);
    TokenParts(0x1_0000_0000_0000, 1);
  }

  /** The test looks at the address only to see that it is even and inside the binding. */
  lemma TokenCovers(bs: seq<Binding>, modules: seq<Module>, a: nat, b: nat, expected: nat, token: nat)
    requires InstructionValid(bs, modules, a, expected, token)
    ensures InstructionValid(bs, modules, b, expected, token)
       <==> b % 2 == 0 && Contains(bs[token % EPOCH_UNIT - 1], b)
  {}

  /** A job may move through its module and skip the test: while the invalidation epoch stands
      still, a token that passed at one address passes at every even address of the binding. */
  lemma TokenStableThroughout(vs: seq<View>, events: seq<Event>, modules: seq<Module>, digest: Digest,
                              i: nat, j: nat, a: nat, b: nat, expected: nat, token: nat)
    requires Run(vs, events, modules, digest) && i <= j < |vs|
    requires vs[i].invalidations == vs[j].invalidations
    requires InstructionValid(vs[i].bindings, modules, a, expected, token)
    requires b % 2 == 0 && Contains(vs[i].bindings[token % EPOCH_UNIT - 1], b)
    ensures InstructionValid(vs[j].bindings, modules, b, expected, token)
  {
    hide Run;
    TokenCovers(vs[i].bindings, modules, a, b, expected, token);
    TokenStable(vs, events, modules, digest, i, j, b, expected, token);
  }
}
