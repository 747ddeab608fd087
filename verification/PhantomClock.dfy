/** The DS1216 phantom clock behind the battery-backed SRAM (runner/src/cdi_nvram.c): unlock
    by a 64-bit key, 64 serial register accesses, commit, and the passing of time. */
module PhantomClock {
  import opened Guest
  import opened Bits
  import opened Calendar

  const SRAM := 0x8000

  // ----- bits of a byte -----

  /** v with bit i replaced. */
  function Replace(v: nat, i: nat, b: bool): nat {
    if i == 0 then 2 * (v / 2) + (if b then 1 else 0) else 2 * Replace(v / 2, i - 1, b) + v % 2
  }

  lemma {:induction false} ReplaceBits(v: nat, i: nat, b: bool, j: nat)
    ensures BitOf(Replace(v, i, b), j) == if j == i then b else BitOf(v, j)
  {
    if i > 0 && j > 0 { ReplaceBits(v / 2, i - 1, b, j - 1); }
  }

  lemma {:induction false} ReplaceFits(v: nat, i: nat, b: bool, n: nat)
    requires i < n && v < Power(n)
    ensures Replace(v, i, b) < Power(n)
  {
    if i > 0 { ReplaceFits(v / 2, i - 1, b, n - 1); }
  }

  function WithBit(v: byte, i: nat, b: bool): byte
    requires i < 8
  {
    assert Power(4) == 16 && Power(8) == 256;
    ReplaceFits(v, i, b, 8);
    Replace(v, i, b)
  }

  // ----- the key -----

  function KeyByte(i: nat): byte
    requires i < 8
  {
    match i % 4 case 0 => 0xC5 case 1 => 0x3A case 2 => 0xA3 case _ => 0x5C
  }

  /** The key as it is presented on D0: every byte low bit first. */
  function Key(): (k: seq<bool>)
    ensures |k| == 64
  {
    seq(64, i requires 0 <= i < 64 => BitOf(KeyByte(i / 8), i % 8))
  }

  function Blank(): (w: seq<bool>)
    ensures |w| == 64 && forall i :: 0 <= i < 64 ==> !w[i]
  {
    seq(64, _ => false)
  }

  /** The 64-bit shift register after it has taken in `heard`. */
  function Window(heard: seq<bool>): (w: seq<bool>)
    ensures |w| == 64
  {
    (Blank() + heard)[|heard|..]
  }

  /** The last 64 bits heard are the key. */
  predicate Spells(heard: seq<bool>) {
    |heard| >= 64 && heard[|heard| - 64..] == Key()
  }

  lemma WindowShifts(heard: seq<bool>, bit: bool)
    ensures Window(heard)[1..] + [bit] == Window(heard + [bit])
  {}

  /** Zeros shifted in at reset can never complete the key, which begins with a one. */
  lemma WindowSpells(heard: seq<bool>)
    ensures Window(heard) == Key() <==> Spells(heard)
  {
    assert Key()[0];
    if |heard| < 64 {
      assert !Window(heard)[0];
    } else {
      assert Window(heard) == heard[|heard| - 64..];
    }
  }

  // ----- how the key can be found early -----

  /** One half of the key, which is the same half twice. */
  predicate One(i: nat) { i in {0, 2, 6, 7, 9, 11, 12, 13, 16, 17, 21, 23, 26, 27, 28, 30} }

  function Half(i: nat): nat { if i < 32 then i else i - 32 }

  lemma KeyOnes(i: nat)
    requires i < 64
    ensures Key()[i] <==> One(Half(i))
  {
    ByteOnes(i / 8, i % 8);
    assert i == 8 * (i / 8) + i % 8;
  }

  lemma ByteOnes(j: nat, b: nat)
    requires j < 8 && b < 8
    ensures BitOf(KeyByte(j), b) <==> One(Half(8 * j + b))
  {
    hide BitOf;
    var v := KeyByte(j);
    NibbleBits(v, b);
    if b >= 4 { NibbleBits(v / 16, b - 4); }
    assert v == if j in {0, 4} then 0xC5 else if j in {1, 5} then 0x3A else if j in {2, 6} then 0xA3 else 0x5C;
  }

  /** The key begins as it ends, for exactly three proper lengths. */
  lemma KeyBorders(k: nat)
    requires 0 < k < 64
    ensures Key()[..k] == Key()[64 - k..] <==> k in {2, 4, 32}
  {
    hide Key;
    forall i | 0 <= i < 64 ensures Key()[i] <==> One(Half(i)) { KeyOnes(i); }
    if k in {2, 4, 32} {
      forall i | 0 <= i < k ensures Key()[..k][i] == Key()[64 - k..][i] {}
    } else {
      var i := Mismatch(k);
      assert Key()[..k][i] != Key()[64 - k..][i];
    }
  }

  /** Where two copies of the key, one shifted against the other, first differ. */
  function Mismatch(k: nat): (i: nat)
    requires 0 < k < 64 && k !in {2, 4, 32}
    ensures i < k && One(Half(i)) != One(Half(64 - k + i))
  {
    if !One(Half(64 - k)) then 0
    else if k > 1 && One(Half(65 - k)) then 1
    else if k > 2 && !One(Half(66 - k)) then 2
    else if k > 3 && One(Half(67 - k)) then 3
    else if k > 4 && One(Half(68 - k)) then 4
    else 5
  }

  predicate EndsIn(heard: seq<bool>, n: nat)
    requires n <= 64
  {
    |heard| >= n && heard[|heard| - n..] == Key()[..n]
  }

  /** The bits heard before the key already end in a piece of it that the key's own first bits
      complete. */
  predicate Primed(heard: seq<bool>) { EndsIn(heard, 62) || EndsIn(heard, 60) || EndsIn(heard, 32) }

  /** The first k bits of the key complete a copy of it. */
  predicate Early(heard: seq<bool>, k: nat)
    requires k <= 64
  {
    Spells(heard + Key()[..k])
  }

  lemma EarlyKey(heard: seq<bool>, k: nat)
    requires 0 < k < 64
    ensures Early(heard, k) <==> k in {2, 4, 32} && EndsIn(heard, 64 - k)
  {
    hide Key;
    KeyBorders(k);
    var all, n := heard + Key()[..k], |heard| - (64 - k);
    if n >= 0 {
      assert all[|all| - 64..] == heard[n..] + Key()[..k];
      assert Key() == Key()[..64 - k] + Key()[64 - k..];
      assert (heard[n..] + Key()[..k])[..64 - k] == heard[n..] && (heard[n..] + Key()[..k])[64 - k..] == Key()[..k];
      assert Key()[..64 - k] == (Key()[..64 - k] + Key()[64 - k..])[..64 - k];
    }
  }

  lemma EarlyIff(heard: seq<bool>)
    ensures Primed(heard) <==> exists k :: 0 < k < 64 && Early(heard, k)
  {
    hide Early, EndsIn;
    forall k | 0 < k < 64 ensures Early(heard, k) <==> k in {2, 4, 32} && EndsIn(heard, 64 - k) { EarlyKey(heard, k); }
    assert Early(heard, 2) <==> EndsIn(heard, 62);
    assert Early(heard, 4) <==> EndsIn(heard, 60);
    assert Early(heard, 32) <==> EndsIn(heard, 32);
  }

  lemma PrefixOf(heard: seq<bool>, k: nat)
    requires k <= 64
    ensures |Key()[..k]| == k
    ensures forall j :: 0 < j <= k ==> (Early(heard, j) <==> Spells(heard + Key()[..k][..j]))
  {
    hide Key, Spells;
    forall j | 0 < j <= k ensures Early(heard, j) <==> Spells(heard + Key()[..k][..j]) {
      assert Key()[..k][..j] == Key()[..j];
    }
  }

  /** The shortest piece of the key, no longer than k, that completes a copy of it. */
  lemma {:induction false} FirstEarly(heard: seq<bool>, k: nat) returns (first: nat)
    requires k < 64 && exists j :: 0 < j <= k && Early(heard, j)
    ensures 0 < first <= k && Early(heard, first)
    ensures forall j :: 0 < j < first ==> !Early(heard, j)
  {
    hide Early;
    if j :| 0 < j < k && Early(heard, j) {
      first := FirstEarly(heard, k - 1);
    } else {
      first := k;
    }
  }

  /** Half a key, then the key: the transfer opens 32 bits early. */
  lemma HalfKeyPrimes()
    ensures Primed(Key()[..32])
  {
    hide Key;
    assert Key()[..32][0..] == Key()[..32];
  }

  // ----- registers -----

  function Encode(v: nat): byte
    requires v <= 99
  {
    (v / 10) * 16 + v % 10
  }

  function Decode(v: byte): nat { (v / 16) * 10 + v % 16 }

  function Bounded(v: nat, low: nat, high: nat, fallback: nat): nat {
    if low <= v <= high then v else fallback
  }

  type Registers = s: seq<byte> | |s| == 8 witness [0, 0, 0, 0, 0, 0, 0, 0]

  function EncodeHour(hour: nat, twelve: bool): byte
    requires hour <= 23
  {
    if twelve then
      var display := if hour % 12 == 0 then 12 else hour % 12;
      0x80 + (if hour >= 12 then 0x20 else 0) + Encode(display)
    else Encode(hour)
  }

  function DecodeHour(v: byte): nat {
    if v >= 0x80 then
      var hour := Bounded(Decode(v % 0x20), 1, 12, 12);
      (if hour == 12 then 0 else hour) + (if (v / 0x20) % 2 == 1 then 12 else 0)
    else Bounded(Decode(v % 0x40), 0, 23, 0)
  }

  /** latch_clock_registers: the hour mode and the day register's control bits stay. */
  function Latch(old': Registers, t: Time): Registers
    requires Civil(t)
  {
    [Encode(t.hundredth), Encode(t.second), Encode(t.minute), EncodeHour(t.hour, old'[3] >= 0x80),
     ((old'[4] / 16) % 4) * 16 + t.weekday, Encode(t.date), Encode(t.month), Encode(t.year % 100)]
  }

  /** commit_clock_registers: whatever was shifted in becomes a time that exists. */
  function CommitTime(r: Registers): Time {
    var y := Decode(r[7]);
    var year := if y < 70 then 2000 + y else 1900 + y;
    var month := Bounded(Decode(r[6] % 0x20), 1, 12, 1);
    Time(year, month, Bounded(Decode(r[5] % 0x40), 1, DaysInMonth(year, month), 1), Bounded(r[4] % 8, 1, 7, 1),
         DecodeHour(r[3]), Bounded(Decode(r[2] % 0x80), 0, 59, 0), Bounded(Decode(r[1] % 0x80), 0, 59, 0),
         Bounded(Decode(r[0]), 0, 99, 0))
  }

  lemma Digits(tens: nat, units: nat)
    requires tens <= 9 && units <= 9
    ensures (tens * 16 + units) / 16 == tens && (tens * 16 + units) % 16 == units
  {}

  lemma SmallHour(v: nat)
    requires v <= 23
    ensures v <= 12 ==> Encode(v) < 0x20
    ensures Encode(v) < 0x40
  {}

  /** The year two digits stand for. */
  function TwoDigits(year: int): int { 1970 + (year - 1970) % 100 }

  /** Latching a time and committing it brings back everything but the century, in either hour
      mode and under any control bits. */
  lemma LatchCommits(r: Registers, t: Time)
    requires Civil(t)
    ensures CommitTime(Latch(r, t)) == t.(year := TwoDigits(t.year))
  {
    hide Latch, CommitTime, Shown;
    LatchShows(r, t);
    CommitReads(Latch(r, t), t);
  }

  /** So the round trip is exact for every time up to 2069 and for no later one. */
  lemma LatchCommit(r: Registers, t: Time)
    requires Civil(t)
    ensures CommitTime(Latch(r, t)) == t <==> t.year <= 2069
  {
    hide CommitTime, Latch;
    LatchCommits(r, t);
  }

  lemma DateFits(t: Time)
    requires Civil(t)
    ensures t.date <= 31
  {}

  lemma YearBack(year: int)
    requires 1970 <= year
    ensures var y := year % 100; TwoDigits(year) == if y < 70 then 2000 + y else 1900 + y
  {}

  lemma DecodedHour(v: byte)
    ensures DecodeHour(v) <= 23
  {}

  /** Whatever 64 bits are shifted in, the clock is left at a time that exists, between 1970
      and 2069. */
  lemma CommitIsSeedable(r: Registers)
    ensures Seedable(CommitTime(r))
  {
    DecodedHour(r[3]);
    hide DecodeHour;
  }

  // ----- what the registers say -----

  /** Two decimal digits. */
  predicate Bcd(v: nat, n: nat) { v / 16 <= 9 && v % 16 <= 9 && n == 10 * (v / 16) + v % 16 }

  /** Hours from midnight or noon, on a dial that begins with twelve. */
  predicate Dial(shown: nat, hour: nat) { 1 <= shown <= 12 && (shown % 12 == hour % 12) }

  /** The registers show a time: bits beyond the fields do not matter, bit 7 of the hours
      chooses the twelve-hour dial, and there bit 5 is the afternoon. */
  ghost predicate Shown(r: Registers, t: Time) {
    && Bcd(r[0], t.hundredth) && Bcd(r[1] % 0x80, t.second) && Bcd(r[2] % 0x80, t.minute)
    && (if BitOf(r[3], 7) then
          (BitOf(r[3], 5) <==> t.hour >= 12) && exists n: nat :: Bcd(r[3] % 0x20, n) && Dial(n, t.hour)
        else Bcd(r[3] % 0x40, t.hour))
    && r[4] % 8 == t.weekday && Bcd(r[5] % 0x40, t.date) && Bcd(r[6] % 0x20, t.month) && Bcd(r[7], t.year % 100)
  }

  lemma EncodeShows(v: nat)
    requires v <= 99
    ensures Bcd(Encode(v), v)
  {
    Digits(v / 10, v % 10);
  }

  lemma DecodeReads(v: byte, n: nat)
    requires Bcd(v, n)
    ensures Decode(v) == n
  {}

  lemma LatchHour(hour: nat, twelve: bool)
    requires hour <= 23
    ensures var v := EncodeHour(hour, twelve);
      && (v >= 0x80 <==> twelve) && (v / 64) % 2 == 0
      && (twelve ==> ((v / 32) % 2 == 1 <==> hour >= 12) && exists n: nat :: Bcd(v % 0x20, n) && Dial(n, hour))
      && (!twelve ==> Bcd(v % 0x40, hour))
  {
    hide Bcd, Encode;
    if twelve {
      var display := if hour % 12 == 0 then 12 else hour % 12;
      EncodeShows(display);
      SmallHour(display);
      assert EncodeHour(hour, twelve) % 0x20 == Encode(display) && Dial(display, hour);
    } else {
      EncodeShows(hour);
      SmallHour(hour);
    }
  }

  lemma ControlKept(v: byte, weekday: nat)
    requires 1 <= weekday <= 7
    ensures var d := ((v / 16) % 4) * 16 + weekday;
      d < 0x40 && d % 16 == weekday && d % 8 == weekday && (d / 16) % 2 == (v / 16) % 2 && (d / 32) % 2 == (v / 32) % 2
  {}

  /** Latching shows the time in decimal digits. The hour mode and the day register's two control
      bits are those of before, and no other bit is set. */
  lemma LatchShows(r: Registers, t: Time)
    requires Civil(t)
    ensures var l := Latch(r, t);
      && Shown(l, t) && l[1] < 0x80 && l[2] < 0x80 && l[4] < 0x40 && l[4] % 16 == t.weekday
      && l[5] < 0x40 && l[6] < 0x20 && !BitOf(l[3], 6) && (BitOf(l[3], 7) <==> BitOf(r[3], 7))
      && (BitOf(l[4], 4) <==> BitOf(r[4], 4)) && (BitOf(l[4], 5) <==> BitOf(r[4], 5))
  {
    hide BitOf, Bcd, Encode, EncodeHour, DaysInMonth;
    var l := Latch(r, t);
    DateFits(t);
    Shorts(t.second);
    Shorts(t.minute);
    Shorts(t.date);
    Shorts(t.month);
    EncodeShows(t.hundredth);
    EncodeShows(t.year % 100);
    LatchHour(t.hour, r[3] >= 0x80);
    ControlKept(r[4], t.weekday);
    BitsOfByte(r[3]);
    BitsOfByte(l[3]);
    BitsOfByte(r[4]);
    BitsOfByte(l[4]);
  }

  lemma Shorts(v: nat)
    requires v <= 59
    ensures Encode(v) < 0x80 && Bcd(Encode(v) % 0x80, v)
    ensures v <= 31 ==> Encode(v) < 0x40 && Bcd(Encode(v) % 0x40, v)
    ensures v <= 12 ==> Encode(v) < 0x20 && Bcd(Encode(v) % 0x20, v)
  {
    hide Bcd;
    EncodeShows(v);
    Digits(v / 10, v % 10);
  }

  lemma CommitHour(v: byte, hour: nat)
    requires hour <= 23
    requires if v >= 0x80 then ((v / 32) % 2 == 1 <==> hour >= 12) && exists n: nat :: Bcd(v % 0x20, n) && Dial(n, hour)
             else Bcd(v % 0x40, hour)
    ensures DecodeHour(v) == hour
  {
    hide Bcd, Decode;
    if v >= 0x80 {
      var n: nat :| Bcd(v % 0x20, n) && Dial(n, hour);
      DecodeReads(v % 0x20, n);
    } else {
      DecodeReads(v % 0x40, hour);
    }
  }

  /** Committing reads exactly what is shown, in either hour mode and under any other bits; the
      century is the one from 1970 on. */
  lemma CommitReads(r: Registers, t: Time)
    requires Civil(t) && Shown(r, t)
    ensures CommitTime(r) == t.(year := TwoDigits(t.year))
  {
    hide BitOf, Bcd, Decode, DecodeHour, DaysInMonth;
    BitsOfByte(r[3]);
    CommitHour(r[3], t.hour);
    DecodeReads(r[0], t.hundredth);
    DecodeReads(r[1] % 0x80, t.second);
    DecodeReads(r[2] % 0x80, t.minute);
    DecodeReads(r[5] % 0x40, t.date);
    DecodeReads(r[6] % 0x20, t.month);
    DecodeReads(r[7], t.year % 100);
    YearBack(t.year);
    CenturiesAgree(t.year, t.month);
  }

  /** Ten times the high digit, of which only the low bits count, and the low digit. */
  function Value(v: byte, limit: nat): nat
    requires limit > 0
  {
    10 * ((v / 16) % limit) + v % 16
  }

  /** Registers that show no time at all: a field out of its range becomes the least it can be,
      whatever the other fields are. */
  lemma CommitFalls(r: Registers)
    ensures var t := CommitTime(r);
      && t.hundredth == (if Value(r[0], 16) <= 99 then Value(r[0], 16) else 0)
      && t.second == (if Value(r[1], 8) <= 59 then Value(r[1], 8) else 0)
      && t.minute == (if Value(r[2], 8) <= 59 then Value(r[2], 8) else 0)
      && t.weekday == (if r[4] % 8 == 0 then 1 else r[4] % 8)
      && t.date == (if 1 <= Value(r[5], 4) <= DaysInMonth(t.year, t.month) then Value(r[5], 4) else 1)
      && t.month == (if 1 <= Value(r[6], 2) <= 12 then Value(r[6], 2) else 1)
      && t.year == (if Value(r[7], 16) < 70 then 2000 else 1900) + Value(r[7], 16)
  {
    hide DecodeHour, DaysInMonth, Decode, Value;
    WholeByte(r[0]);
    LowSeven(r[1]);
    LowSeven(r[2]);
    LowSix(r[5]);
    LowFive(r[6]);
    WholeByte(r[7]);
  }

  lemma WholeByte(v: byte)
    ensures Decode(v) == Value(v, 16)
  {}

  lemma LowSeven(v: byte)
    ensures Decode(v % 0x80) == Value(v, 8)
  {
    var rest, digit, low := v / 128, (v / 16) % 8, v % 16;
    assert v == 128 * rest + 16 * digit + low;
    assert v % 128 == 16 * digit + low;
  }

  lemma LowSix(v: byte)
    ensures Decode(v % 0x40) == Value(v, 4)
  {
    var rest, digit, low := v / 64, (v / 16) % 4, v % 16;
    assert v == 64 * rest + 16 * digit + low;
    assert v % 64 == 16 * digit + low;
  }

  lemma LowFive(v: byte)
    ensures Decode(v % 0x20) == Value(v, 2)
  {
    var rest, digit, low := v / 32, (v / 16) % 2, v % 16;
    assert v == 32 * rest + 16 * digit + low;
    assert v % 32 == 16 * digit + low;
  }

  // ----- the device -----

  datatype Clock = Clock(sram: seq<byte>, transfer: Registers, now: Time, window: seq<bool>, phase: real,
                         bit: nat, transferring: bool, seeded: bool)

  predicate Sane(c: Clock) {
    |c.sram| == SRAM && Civil(c.now) && |c.window| == 64 && c.bit < 64 && (!c.transferring ==> c.bit == 0)
  }

  /** finish_transfer_bit. */
  function FinishBit(c: Clock): Clock {
    if c.bit + 1 == 64 then
      c.(transferring := false, bit := 0, window := Blank(), now := CommitTime(c.transfer), phase := 0.0)
    else c.(bit := c.bit + 1)
  }

  /** nvram_get_byte. */
  function Get(c: Clock, address: nat): (Clock, byte)
    requires Sane(c)
  {
    if !c.transferring then (c, c.sram[address % SRAM])
    else (FinishBit(c), if BitOf(c.transfer[c.bit / 8], c.bit % 8) then 1 else 0)
  }

  /** observe_key_bit. */
  function Observe(c: Clock, bit: bool): Clock
    requires Sane(c)
  {
    var window := c.window[1..] + [bit];
    if window == Key() then c.(window := Blank(), transfer := Latch(c.transfer, c.now), bit := 0, transferring := true)
    else c.(window := window)
  }

  /** nvram_set_byte. */
  function Put(c: Clock, address: nat, data: byte): Clock
    requires Sane(c)
  {
    if !c.transferring then Observe(c.(sram := c.sram[address % SRAM := data]), data % 2 == 1)
    else
      var r := c.bit / 8;
      FinishBit(c.(transfer := c.transfer[r := WithBit(c.transfer[r], c.bit % 8, data % 2 == 1)]))
  }

  // ----- bits shifted into the registers -----

  lemma PutSane(c: Clock, address: nat, data: byte)
    requires Sane(c)
    ensures Sane(Put(c, address, data))
  {
    hide CommitTime, Latch, WithBit, Key;
    CommitIsSeedable(Put(c, address, data).transfer);
  }

  /** Registers some of whose bits have been replaced, low bit of the first register first. */
  ghost predicate Holds(r: Registers, before: Registers, data: seq<bool>) {
    forall k :: 0 <= k < 64 ==> BitOf(r[k / 8], k % 8) == if k < |data| then data[k] else BitOf(before[k / 8], k % 8)
  }

  lemma HoldsNext(r: Registers, before: Registers, data: seq<bool>, b: bool)
    requires |data| < 64 && Holds(r, before, data)
    ensures var n := |data|; Holds(r[n / 8 := WithBit(r[n / 8], n % 8, b)], before, data + [b])
  {
    var n := |data|;
    var r' := r[n / 8 := WithBit(r[n / 8], n % 8, b)];
    forall k | 0 <= k < 64
      ensures BitOf(r'[k / 8], k % 8) == if k < n + 1 then (data + [b])[k] else BitOf(before[k / 8], k % 8)
    {
      ReplaceBits(r[n / 8], n % 8, b, k % 8);
      hide BitOf, Replace;
      assert k == 8 * (k / 8) + k % 8 && n == 8 * (n / 8) + n % 8;
    }
  }

  lemma HoldsNothing(r: Registers)
    ensures Holds(r, r, [])
  {}

  // ----- the device object -----

  type Rounded = (real, real) -> real

  class Device {
    /** How the machine adds nanoseconds to the phase: rounded in whatever way. */
    const plus: Rounded
    var c: Clock
    /** D0 bits written since reset or the last transfer. */
    ghost var heard: seq<bool>

    ghost predicate Valid()
      reads this
    {
      Sane(c) && c.window == Window(heard) && (c.transferring ==> heard == [])
    }

    /** nvram_reset. */
    constructor (plus: Rounded)
      ensures this.plus == plus && Valid() && heard == [] && !c.transferring
      ensures var now := Time(1989, 1, 1, 7, 0, 0, 0, 0);
        && now.weekday == WeekdayOf(DayNumber(now))
        && c == Clock(seq(SRAM, _ => 0xFF), Latch([0, 0, 0, 0, 0, 0, 0, 0], now), now, Blank(), 0.0, 0, false, false)
    {
      this.plus := plus;
      var now := Time(1989, 1, 1, 7, 0, 0, 0, 0);
      c := Clock(seq(SRAM, _ => 0xFF), Latch([0, 0, 0, 0, 0, 0, 0, 0], now), now, Blank(), 0.0, 0, false, false);
      heard := [];
      ResetDate();
      new;
      hide WeekdayOf, DayNumber, Latch;
      assert Window([]) == Blank();
    }

    method GetByte(address: nat) returns (data: byte)
      requires Valid()
      modifies this
      ensures Valid() && c == Get(old(c), address).0 && data == Get(old(c), address).1
      ensures heard == old(heard)
    {
      hide CommitTime, BitOf;
      if !c.transferring { return c.sram[address % SRAM]; }
      var reg, shift := c.bit / 8, c.bit % 8;
      data := if BitOf(c.transfer[reg], shift) then 1 else 0;
      FinishTransferBit();
    }

    method FinishTransferBit()
      requires Valid() && c.transferring
      modifies this`c
      ensures Valid() && c == FinishBit(old(c))
    {
      hide CommitTime;
      c := c.(bit := c.bit + 1);
      if c.bit == 64 {
        c := c.(transferring := false, bit := 0, window := Blank());
        CommitIsSeedable(c.transfer);
        c := c.(now := CommitTime(c.transfer), phase := 0.0);
      }
      assert Window([]) == Blank();
    }

    /** nvram_set_byte: a transfer starts exactly when the last 64 bits written since reset or
        the previous transfer spell the key. */
    method SetByte(address: nat, data: byte)
      requires Valid()
      modifies this
      ensures Valid() && c == Put(old(c), address, data)
      ensures !old(c).transferring ==> (c.transferring <==> Spells(old(heard) + [data % 2 == 1]))
      ensures !old(c).transferring ==> heard == if c.transferring then [] else old(heard) + [data % 2 == 1]
      ensures old(c).transferring ==> heard == []
    {
      hide CommitTime, BitOf, Key, Window, Spells, WithBit, Latch;
      WindowEmpty();
      if !c.transferring {
        var bit := data % 2 == 1;
        WindowShifts(heard, bit);
        WindowSpells(heard + [bit]);
        c := c.(sram := c.sram[address % SRAM := data]);
        c := c.(window := c.window[1..] + [bit]);
        heard := heard + [bit];
        if c.window == Key() {
          c := c.(transfer := Latch(c.transfer, c.now), window := Blank(), bit := 0, transferring := true);
          heard := [];
        }
        return;
      }
      var reg, shift := c.bit / 8, c.bit % 8;
      c := c.(transfer := c.transfer[reg := WithBit(c.transfer[reg], shift, data % 2 == 1)]);
      FinishTransferBit();
    }

    /** nvram_seed_clock_once. */
    method SeedOnce(t: Time) returns (result: int)
      requires Valid()
      modifies this`c
      ensures Valid()
      ensures result == if old(c).seeded then 0 else if Seedable(t) then 1 else -1
      ensures result == 1 ==>
        c == old(c).(now := t, phase := 0.0, seeded := true, transfer := Latch(old(c).transfer, t))
      ensures result != 1 ==> c == old(c)
    {
      if c.seeded { return 0; }
      if !Seedable(t) { return -1; }
      c := c.(now := t, phase := 0.0, seeded := true);
      c := c.(transfer := Latch(c.transfer, c.now));
      return 1;
    }

    /** nvram_increment_clock: the clock moves by exactly what the addition put into the phase (all
        of `ns` when the addition is exact), and a stopped oscillator stops it. */
    method IncrementClock(ns: real)
      requires Valid() && plus(c.phase, ns) >= 0.0 && c.phase >= 0.0
      modifies this`c
      ensures Valid() && c.phase >= 0.0 && c == Clocked(plus, old(c), ns)
      ensures Stopped(old(c)) ==> c == old(c)
      ensures !Stopped(old(c)) ==>
        && c == old(c).(now := c.now, phase := c.phase) && c.phase < HUNDREDTH
        && Elapsed(c) == Elapsed(old(c)) + (plus(old(c).phase, ns) - old(c).phase)
      ensures !Stopped(old(c)) && plus(old(c).phase, ns) == old(c).phase + ns ==> Elapsed(c) == Elapsed(old(c)) + ns
      ensures old(c).now.weekday == WeekdayOf(DayNumber(old(c).now)) ==> c.now.weekday == WeekdayOf(DayNumber(c.now))
    {
      hide BitOf, WeekdayOf, DayNumber, Ticked, Elapsed, Civil, Window;
      if Stopped(c) { return; }
      PhaseElapses(c, plus(c.phase, ns));
      c := c.(phase := plus(c.phase, ns));
      while c.phase >= HUNDREDTH
        invariant Valid() && c.phase >= 0.0 && c == old(c).(now := c.now, phase := c.phase)
        invariant Elapsed(c) == Elapsed(old(c)) + (plus(old(c).phase, ns) - old(c).phase)
        invariant Settle(c) == Clocked(plus, old(c), ns)
        invariant old(c).now.weekday == WeekdayOf(DayNumber(old(c).now)) ==>
          c.now.weekday == WeekdayOf(DayNumber(c.now))
        decreases (c.phase / HUNDREDTH).Floor
      {
        FloorDrops(c.phase);
        TickedKeeps(c);
        HundredthPasses();
      }
    }

    method HundredthPasses()
      modifies this`c
      ensures c == Ticked(old(c))
    {
      c := c.(phase := c.phase - HUNDREDTH);
      c := c.(now := c.now.(hundredth := c.now.hundredth + 1));
      if c.now.hundredth == 100 {
        var next := AdvanceOneSecond(c.now.(hundredth := 0));
        c := c.(now := next);
      }
    }

    /** nvram_quiet_quanta: increments that pass before the hundredths can move. */
    method QuietQuanta(maximum: nat, quantum: real) returns (count: nat)
      ensures count <= maximum
      ensures Stopped(c) ==> count == maximum
      ensures !Stopped(c) ==> forall k :: 1 <= k <= count ==> Added(plus, c.phase, quantum, k) < HUNDREDTH
      ensures !Stopped(c) && count < maximum ==> Added(plus, c.phase, quantum, count + 1) >= HUNDREDTH
    {
      if Stopped(c) { return maximum; }
      var phase := c.phase;
      count := 0;
      while count < maximum
        invariant count <= maximum && phase == Added(plus, c.phase, quantum, count)
        invariant forall k :: 1 <= k <= count ==> Added(plus, c.phase, quantum, k) < HUNDREDTH
      {
        phase := plus(phase, quantum);
        if phase >= HUNDREDTH { break; }
        count := count + 1;
      }
    }

    /** nvram_advance_quiet: the same additions, without looking. */
    method AdvanceQuiet(quanta: nat, quantum: real)
      modifies this`c
      ensures c == if Stopped(old(c)) then old(c) else old(c).(phase := Added(plus, old(c).phase, quantum, quanta))
    {
      if Stopped(c) { return; }
      var left := quanta;
      while left > 0
        invariant 0 <= left <= quanta && c == old(c).(phase := Added(plus, old(c).phase, quantum, quanta - left))
      {
        left := left - 1;
        c := c.(phase := plus(c.phase, quantum));
      }
    }
  }

  // ----- skipping idle time -----

  predicate Stopped(c: Clock) { BitOf(c.transfer[4], 5) }

  /** Repeated addition, each sum rounded like the ones before. */
  function Added(plus: Rounded, phase: real, quantum: real, n: nat): real {
    if n == 0 then phase else plus(Added(plus, phase, quantum, n - 1), quantum)
  }

  /** One hundredth of a second moved from the phase into the time. */
  function Ticked(c: Clock): (r: Clock)
    ensures r.phase == c.phase - HUNDREDTH
  {
    var t := c.now;
    c.(phase := c.phase - HUNDREDTH,
       now := if t.hundredth + 1 == 100 then NextSecond(t.(hundredth := 0)) else t.(hundredth := t.hundredth + 1))
  }

  lemma TickedKeeps(c: Clock)
    requires Sane(c)
    ensures var r := Ticked(c);
      && Sane(r) && r == c.(now := r.now, phase := r.phase) && Elapsed(r) == Elapsed(c)
      && Hundredths(r.now) == Hundredths(c.now) + 1
      && (c.now.weekday == WeekdayOf(DayNumber(c.now)) ==> r.now.weekday == WeekdayOf(DayNumber(r.now)))
  {
    hide WeekdayOf, DayNumber, NextSecond;
    if c.now.hundredth + 1 == 100 {
      NextSecondCounts(c.now.(hundredth := 0));
      DateOnly(c.now, 0);
    } else {
      DateOnly(c.now, c.now.hundredth + 1);
    }
  }

  lemma PhaseElapses(c: Clock, phase: real)
    ensures Elapsed(c.(phase := phase)) == Elapsed(c) + (phase - c.phase)
  {
    hide SecondNumber;
  }

  /** Time only ever moves forward, whatever has been added to the phase. */
  lemma {:induction false} SettleKeeps(c: Clock)
    requires Sane(c)
    ensures var r := Settle(c);
      && Sane(r) && r == c.(now := r.now, phase := r.phase) && Elapsed(r) == Elapsed(c)
      && (c.phase >= 0.0 ==> r.phase >= 0.0)
      && (r.now == c.now || Hundredths(c.now) < Hundredths(r.now))
    decreases (c.phase / HUNDREDTH).Floor
  {
    hide Ticked, Hundredths, Civil;
    if c.phase >= HUNDREDTH {
      FloorDrops(c.phase);
      TickedKeeps(c);
      SettleKeeps(Ticked(c));
    }
  }

  /** The clock once its phase is below a hundredth again. */
  function Settle(c: Clock): Clock
    decreases (c.phase / HUNDREDTH).Floor
  {
    if c.phase < HUNDREDTH then c
    else
      FloorDrops(c.phase);
      Settle(Ticked(c))
  }

  /** nvram_increment_clock. */
  function Clocked(plus: Rounded, c: Clock, ns: real): Clock {
    if Stopped(c) then c else Settle(c.(phase := plus(c.phase, ns)))
  }

  function Increments(plus: Rounded, c: Clock, quantum: real, n: nat): Clock {
    if n == 0 then c else Clocked(plus, Increments(plus, c, quantum, n - 1), quantum)
  }

  /** As many increments as the bound allows are the plain additions, bit for bit however they
      round, and no hundredth passes. */
  lemma {:induction false} QuietIncrements(plus: Rounded, c: Clock, quantum: real, n: nat)
    requires !Stopped(c) ==> forall k :: 1 <= k <= n ==> Added(plus, c.phase, quantum, k) < HUNDREDTH
    ensures Increments(plus, c, quantum, n) == if Stopped(c) then c else c.(phase := Added(plus, c.phase, quantum, n))
  {
    hide BitOf;
    if n > 0 {
      QuietIncrements(plus, c, quantum, n - 1);
      assert !Stopped(c) ==> Added(plus, c.phase, quantum, n) < HUNDREDTH;
    }
  }

  const HUNDREDTH: real := 10000000.0

  /** Hundredths of a second on the calendar. */
  function Hundredths(t: Time): int { SecondNumber(t) * 100 + t.hundredth }

  /** Nanoseconds on the calendar. */
  function Elapsed(c: Clock): real { Hundredths(c.now) as real * HUNDREDTH + c.phase }

  lemma FloorDrops(p: real)
    requires p >= HUNDREDTH
    ensures ((p - HUNDREDTH) / HUNDREDTH).Floor < (p / HUNDREDTH).Floor && (p / HUNDREDTH).Floor >= 0
  {
    assert (p - HUNDREDTH) / HUNDREDTH == p / HUNDREDTH - 1.0;
  }

  lemma DateOnly(t: Time, h: nat)
    ensures DayNumber(t.(hundredth := h)) == DayNumber(t) && SecondNumber(t.(hundredth := h)) == SecondNumber(t)
  {}

  lemma WindowEmpty()
    ensures Window([]) == Blank()
  {}
}
