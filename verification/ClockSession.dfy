/** Whole conversations with the clock chip of runner/src/cdi_nvram.c: reads, writes and the
    passing of time, in any order. */
module ClockSession {
  import opened Guest
  import opened Bits
  import opened Calendar
  import opened PhantomClock

  /** One thing that happens to the chip. Time passes between accesses, and during a transfer. */
  datatype Access = Read(address: nat) | Write(address: nat, data: byte) | Wait(ns: real)

  function Served(plus: Rounded, c: Clock, a: Access): (r: Clock)
    requires Sane(c)
    ensures Sane(r)
  {
    match a
    case Read(address) =>
      GetSane(c, address);
      Get(c, address).0
    case Write(address, data) =>
      PutSane(c, address, data);
      Put(c, address, data)
    case Wait(ns) =>
      SettleKeeps(c.(phase := plus(c.phase, ns)));
      Clocked(plus, c, ns)
  }

  lemma GetSane(c: Clock, address: nat)
    requires Sane(c)
    ensures Sane(Get(c, address).0)
  {
    hide CommitTime, BitOf;
    CommitIsSeedable(c.transfer);
  }

  function Serve(plus: Rounded, c: Clock, es: seq<Access>): (r: Clock)
    requires Sane(c)
    ensures Sane(r)
  {
    if es == [] then c else Served(plus, Serve(plus, c, es[..|es| - 1]), es[|es| - 1])
  }

  /** The D0 bits written. */
  function Sent(es: seq<Access>): seq<bool> {
    if es == [] then []
    else
      var a := es[|es| - 1];
      Sent(es[..|es| - 1]) + if a.Write? then [a.data % 2 == 1] else []
  }

  function Gets(es: seq<Access>): nat {
    if es == [] then 0 else Gets(es[..|es| - 1]) + if es[|es| - 1].Read? then 1 else 0
  }

  /** SRAM with the writes of a listening chip in it. */
  function Poked(sram: seq<byte>, es: seq<Access>): (r: seq<byte>)
    requires |sram| == SRAM
    ensures |r| == SRAM
  {
    if es == [] then sram
    else
      var before, a := Poked(sram, es[..|es| - 1]), es[|es| - 1];
      if a.Write? then before[a.address % SRAM := a.data] else before
  }

  /** Time passed, and nothing else happened. */
  predicate Later(c: Clock, r: Clock) {
    r == c.(now := r.now, phase := r.phase) && (r.now == c.now || Hundredths(c.now) < Hundredths(r.now))
  }

  lemma WaitIsLater(plus: Rounded, c: Clock, ns: real)
    requires Sane(c)
    ensures Later(c, Served(plus, c, Wait(ns)))
  {
    hide Settle, BitOf, Hundredths;
    SettleKeeps(c.(phase := plus(c.phase, ns)));
  }

  // ----- listening for the key -----

  /** A listening chip that does not hear the key completed. */
  lemma ListenOnce(plus: Rounded, c: Clock, heard: seq<bool>, a: Access)
    requires Sane(c) && !c.transferring && c.window == Window(heard)
    requires a.Write? ==> !Spells(heard + [a.data % 2 == 1])
    ensures var r := Served(plus, c, a);
      && Later(c.(window := r.window, sram := r.sram), r)
      && r.window == (if a.Write? then Window(heard + [a.data % 2 == 1]) else c.window)
      && r.sram == if a.Write? then c.sram[a.address % SRAM := a.data] else c.sram
  {
    hide CommitTime, BitOf, Key, Latch, Window, Spells, WithBit, Settle, Hundredths;
    match a
    case Read(_) =>
    case Write(_, data) =>
      WindowShifts(heard, data % 2 == 1);
      WindowSpells(heard + [data % 2 == 1]);
    case Wait(ns) => WaitIsLater(plus, c, ns);
  }

  /** No prefix of these bits, heard after the others, completes the key. */
  ghost predicate Hushed(heard: seq<bool>, data: seq<bool>) {
    forall j :: 0 < j <= |data| ==> !Spells(heard + data[..j])
  }

  lemma HushedPrefix(heard: seq<bool>, data: seq<bool>, bit: bool)
    requires Hushed(heard, data + [bit])
    ensures Hushed(heard, data) && !Spells(heard + data + [bit])
  {
    hide Spells;
    forall j | 0 < j <= |data| ensures !Spells(heard + data[..j]) { assert (data + [bit])[..j] == data[..j]; }
    assert (data + [bit])[..|data| + 1] == data + [bit] && heard + (data + [bit]) == heard + data + [bit];
  }

  /** What reads, writes and waiting do to a chip that hears no key: the bits go through the
      shift register, the bytes into SRAM, and time passes. */
  lemma {:induction false} Listens(plus: Rounded, c: Clock, heard: seq<bool>, es: seq<Access>)
    requires Sane(c) && !c.transferring && c.window == Window(heard) && Hushed(heard, Sent(es))
    ensures Later(c.(window := Window(heard + Sent(es)), sram := Poked(c.sram, es)), Serve(plus, c, es))
  {
    hide Served, Window, Spells, Hundredths, Hushed;
    if es == [] {
      assert heard + [] == heard;
    } else {
      var n := |es| - 1;
      var a, bits := es[n], Sent(es[..n]);
      if a.Write? {
        HushedPrefix(heard, bits, a.data % 2 == 1);
        assert heard + bits + [a.data % 2 == 1] == heard + Sent(es);
      } else {
        assert Sent(es) == bits;
      }
      Listens(plus, c, heard, es[..n]);
      ListenOnce(plus, Serve(plus, c, es[..n]), heard + bits, a);
    }
  }

  /** The write that completes the key latches the time of that moment. */
  lemma Opens(plus: Rounded, c: Clock, heard: seq<bool>, es: seq<Access>)
    requires Sane(c) && !c.transferring && c.window == Window(heard) && es != [] && es[|es| - 1].Write?
    requires Hushed(heard, Sent(es[..|es| - 1])) && Spells(heard + Sent(es))
    ensures var k := Serve(plus, c, es[..|es| - 1]);
      && Later(c.(window := k.window, sram := k.sram), k)
      && Serve(plus, c, es) == k.(sram := Poked(c.sram, es), transfer := Latch(c.transfer, k.now),
                                  window := Blank(), bit := 0, transferring := true)
  {
    hide CommitTime, BitOf, Key, Latch, Window, Spells, WithBit, Hundredths, Hushed, Settle;
    var n := |es| - 1;
    var bits, b := Sent(es[..n]), es[n].data % 2 == 1;
    Listens(plus, c, heard, es[..n]);
    WindowShifts(heard + bits, b);
    assert heard + bits + [b] == heard + Sent(es);
    WindowSpells(heard + Sent(es));
  }

  lemma {:induction false} BitsOfPrefix(es: seq<Access>, k: nat)
    requires k <= |es|
    ensures Sent(es[..k]) <= Sent(es)
    ensures k < |es| && es[|es| - 1].Write? ==> |Sent(es[..k])| < |Sent(es)|
  {
    if k == |es| {
      assert es[..k] == es;
    } else {
      var n := |es| - 1;
      assert es[..n][..k] == es[..k];
      BitsOfPrefix(es[..n], k);
    }
  }

  /** The f-th write. */
  lemma {:induction false} NthWrite(es: seq<Access>, f: nat) returns (k: nat)
    requires 0 < f <= |Sent(es)|
    ensures k < |es| && es[k].Write? && |Sent(es[..k])| == f - 1 && Sent(es[..k + 1]) == Sent(es)[..f]
  {
    var n := |es| - 1;
    if f <= |Sent(es[..n])| {
      k := NthWrite(es[..n], f);
      assert es[..n][..k] == es[..k] && es[..n][..k + 1] == es[..k + 1];
    } else {
      k := n;
      assert es[..n + 1] == es;
    }
  }

  lemma HushedKey(heard: seq<bool>, m: nat)
    requires m <= 64
    ensures Hushed(heard, Key()[..m]) <==> forall j :: 0 < j <= m ==> !Early(heard, j)
  {
    hide Key, Spells;
    PrefixOf(heard, m);
  }

  /** Writing the key, with whatever reads and waiting in between, opens a transfer with its last
      bit and not before, exactly when the bits heard earlier do not end in its first 32, 60 or
      62. */
  lemma KeyOpensIff(plus: Rounded, c: Clock, heard: seq<bool>, es: seq<Access>)
    requires Sane(c) && !c.transferring && c.window == Window(heard)
    requires Sent(es) == Key() && es != [] && es[|es| - 1].Write?
    ensures (forall k :: 0 <= k < |es| ==> !Serve(plus, c, es[..k]).transferring) <==> !Primed(heard)
    ensures !Primed(heard) ==>
      && var k := Serve(plus, c, es[..|es| - 1]);
      && Later(c.(window := k.window, sram := k.sram), k)
      && Serve(plus, c, es) == k.(sram := Poked(c.sram, es), transfer := Latch(c.transfer, k.now),
                                  window := Blank(), bit := 0, transferring := true)
  {
    hide Latch, Window, Serve, Primed, Spells, Early, Hushed, Sent, Hundredths, Key;
    EarlyIff(heard);
    if Primed(heard) {
      var f := FirstEarly(heard, 63);
      var k := NthWrite(es, f);
      EarlyOpens(plus, c, heard, es, f, k);
    } else {
      forall k | 0 <= k < |es| ensures !Serve(plus, c, es[..k]).transferring {
        BitsOfPrefix(es, k);
        var m := |Sent(es[..k])|;
        assert Sent(es[..k]) == Key()[..m];
        HushedKey(heard, m);
        Listens(plus, c, heard, es[..k]);
      }
      BitsOfPrefix(es, |es| - 1);
      var m := |Sent(es[..|es| - 1])|;
      assert Sent(es[..|es| - 1]) == Key()[..m];
      HushedKey(heard, m);
      KeySpells(heard);
      Opens(plus, c, heard, es);
    }
  }

  lemma KeySpells(heard: seq<bool>)
    ensures Spells(heard + Key())
  {
    hide Key;
    assert (heard + Key())[|heard|..] == Key();
  }

  lemma EarlyOpens(plus: Rounded, c: Clock, heard: seq<bool>, es: seq<Access>, f: nat, k: nat)
    requires Sane(c) && !c.transferring && c.window == Window(heard) && Sent(es) == Key()
    requires 0 < f < 64 && Early(heard, f) && (forall j :: 0 < j < f ==> !Early(heard, j))
    requires k < |es| && es[k].Write? && |Sent(es[..k])| == f - 1 && Sent(es[..k + 1]) == Key()[..f]
    ensures Serve(plus, c, es[..k + 1]).transferring && k + 1 < |es|
  {
    hide Latch, Window, Serve, Spells, Hushed, Sent, Hundredths, Key;
    var p := es[..k + 1];
    assert p[..k] == es[..k];
    BitsOfPrefix(p, k);
    assert Sent(p[..k]) == Key()[..f][..f - 1] == Key()[..f - 1];
    HushedKey(heard, f - 1);
    Opens(plus, c, heard, p);
    assert es[..|es|] == es;
  }

  // ----- reading -----

  predicate NoWrites(es: seq<Access>) { forall i :: 0 <= i < |es| ==> !es[i].Write? }

  /** Reads of an open transfer move on by one bit each; nothing else but time moves. */
  lemma {:induction false} ReadsOn(plus: Rounded, c: Clock, es: seq<Access>)
    requires Sane(c) && c.transferring && NoWrites(es) && c.bit + Gets(es) < 64
    ensures Later(c.(bit := c.bit + Gets(es)), Serve(plus, c, es))
  {
    hide CommitTime, BitOf, Settle, Hundredths;
    if es != [] {
      var n := |es| - 1;
      ReadsOn(plus, c, es[..n]);
      if es[n].Wait? { WaitIsLater(plus, Serve(plus, c, es[..n]), es[n].ns); }
    }
  }

  /** Every read of an open transfer delivers the next bit of the registers, low bit first. */
  lemma ReadsDeliver(plus: Rounded, c: Clock, es: seq<Access>, address: nat)
    requires Sane(c) && c.transferring && c.bit == 0 && NoWrites(es) && Gets(es) < 64
    ensures var k := Gets(es);
      Get(Serve(plus, c, es), address).1 == if BitOf(c.transfer[k / 8], k % 8) then 1 else 0
  {
    hide CommitTime, BitOf, Settle, Hundredths;
    ReadsOn(plus, c, es);
  }

  /** However much time passes between the key and its 64 reads, the last of them ends the
      transfer, drops the phase, and sets the clock back to the time last latched, but for its
      century. */
  lemma FullRead(plus: Rounded, c: Clock, latched: Registers, t: Time, es: seq<Access>, address: nat)
    requires Sane(c) && c.transferring && c.bit == 0 && Civil(t) && c.transfer == Latch(latched, t)
    requires NoWrites(es) && Gets(es) == 63
    ensures Get(Serve(plus, c, es), address).0 ==
      c.(transferring := false, bit := 0, window := Blank(), phase := 0.0, now := t.(year := TwoDigits(t.year)))
  {
    hide CommitTime, BitOf, Latch, Settle, Hundredths;
    ReadsOn(plus, c, es);
    LatchCommits(latched, t);
  }

  lemma CenturyBack(t: Time)
    requires Civil(t)
    ensures var u := t.(year := TwoDigits(t.year));
      && (t.year <= 2069 ==> u == t)
      && (t.year > 2069 ==> Hundredths(u) < Hundredths(t))
  {
    hide DayNumber;
    if t.year > 2069 { CenturyDays(t, TwoDigits(t.year)); }
  }

  /** What the last read costs: the phase, every hundredth since the time was latched, and from
      2070 on whole centuries. So time is conserved exactly when there is no phase, no hundredth has
      passed since the latch, and the year is at most 2069. */
  lemma ReadCosts(plus: Rounded, c: Clock, latched: Registers, t: Time, es: seq<Access>, address: nat)
    requires Sane(c) && c.transferring && c.bit == 0 && Civil(t) && c.transfer == Latch(latched, t)
    requires NoWrites(es) && Gets(es) == 63 && Hundredths(t) <= Hundredths(c.now)
    requires Serve(plus, c, es).phase >= 0.0
    ensures var before := Serve(plus, c, es);
      var after := Get(before, address).0;
      && Elapsed(before) - Elapsed(after)
         == before.phase + (Hundredths(before.now) - Hundredths(after.now)) as real * HUNDREDTH
      && Elapsed(after) <= Elapsed(before)
      && (Elapsed(after) == Elapsed(before) <==>
            before.phase == 0.0 && Hundredths(before.now) == Hundredths(t) && t.year <= 2069)
  {
    hide Latch, CommitTime, BitOf, Hundredths, Settle, Get, Serve;
    var before := Serve(plus, c, es);
    var after := Get(before, address).0;
    FullRead(plus, c, latched, t, es, address);
    ReadsOn(plus, c, es);
    CenturyBack(t);
    Costs(Hundredths(before.now), Hundredths(after.now), before.phase);
  }

  /** An addition that does not fall below zero keeps the phase from doing so. */
  lemma {:induction false} PhaseStays(plus: Rounded, c: Clock, es: seq<Access>)
    requires Sane(c) && c.phase >= 0.0 && forall p, ns :: p >= 0.0 && ns >= 0.0 ==> plus(p, ns) >= 0.0
    requires forall i :: 0 <= i < |es| && es[i].Wait? ==> es[i].ns >= 0.0
    ensures Serve(plus, c, es).phase >= 0.0
  {
    hide CommitTime, BitOf, Settle, Hundredths, Key, Latch, WithBit;
    if es != [] {
      var n := |es| - 1;
      PhaseStays(plus, c, es[..n]);
      var p := Serve(plus, c, es[..n]);
      if es[n].Wait? { SettleKeeps(p.(phase := plus(p.phase, es[n].ns))); }
    }
  }

  lemma Costs(a: int, b: int, phase: real)
    requires b <= a && phase >= 0.0
    ensures var lost := a as real * HUNDREDTH + phase - b as real * HUNDREDTH;
      && lost == phase + (a - b) as real * HUNDREDTH && lost >= 0.0
      && (lost == 0.0 <==> phase == 0.0 && a == b)
  {}

  // ----- reads that lose time -----

  /** An open transfer that latched time t, with the clock now at another time. */
  function Mid(t: Time, now: Time, phase: real): Clock
    requires Civil(t)
  {
    Clock(seq(SRAM, _ => 0), Latch([0, 0, 0, 0, 0, 0, 0, 0], t), now, Blank(), phase, 0, true, false)
  }

  function ReadsOnly(n: nat): seq<Access> { seq(n, _ => Read(0)) }

  lemma {:induction false} GetsAll(n: nat)
    ensures Gets(ReadsOnly(n)) == n
  {
    if n > 0 {
      assert ReadsOnly(n)[..n - 1] == ReadsOnly(n - 1);
      GetsAll(n - 1);
    }
  }

  /** The state after the 64 reads. */
  function AfterRead(plus: Rounded, c: Clock): Clock
    requires Sane(c)
  {
    Get(Serve(plus, c, ReadsOnly(63)), 0).0
  }

  lemma ReadsOnlyLose(plus: Rounded, t: Time, now: Time, phase: real)
    requires Civil(t) && Civil(now)
    ensures AfterRead(plus, Mid(t, now, phase))
         == Mid(t, now, phase).(transferring := false, phase := 0.0, now := t.(year := TwoDigits(t.year)))
  {
    hide CommitTime, BitOf, Latch, Settle, Hundredths, Get, Serve;
    GetsAll(63);
    FullRead(plus, Mid(t, now, phase), [0, 0, 0, 0, 0, 0, 0, 0], t, ReadsOnly(63), 0);
  }

  /** One hundredth passed since the key: it is lost, though there is no phase. */
  lemma HundredthLost(plus: Rounded)
    ensures var t := Time(1989, 1, 1, 7, 0, 0, 0, 0);
      var c := Mid(t, t.(hundredth := 1), 0.0);
      Elapsed(AfterRead(plus, c)) == Elapsed(c) - HUNDREDTH
  {
    hide AfterRead, Latch, SecondNumber;
    var t := Time(1989, 1, 1, 7, 0, 0, 0, 0);
    ReadsOnlyLose(plus, t, t.(hundredth := 1), 0.0);
    DateOnly(t, 1);
  }

  /** A nanosecond of phase: it is lost too. */
  lemma PhaseLost(plus: Rounded)
    ensures var t := Time(1989, 1, 1, 7, 0, 0, 0, 0);
      var c := Mid(t, t, 1.0);
      Elapsed(AfterRead(plus, c)) == Elapsed(c) - 1.0
  {
    hide AfterRead, Latch, Hundredths;
    var t := Time(1989, 1, 1, 7, 0, 0, 0, 0);
    ReadsOnlyLose(plus, t, t, 1.0);
  }

  /** New year 2070 is read as 1970, and the clock is left there. */
  lemma CenturyLost(plus: Rounded)
    ensures var t := Time(2070, 1, 1, 3, 0, 0, 0, 0);
      && CommitTime(Latch([0, 0, 0, 0, 0, 0, 0, 0], t)) == t.(year := 1970)
      && AfterRead(plus, Mid(t, t, 0.0)).now == t.(year := 1970)
  {
    hide AfterRead, Latch, CommitTime;
    var t := Time(2070, 1, 1, 3, 0, 0, 0, 0);
    LatchCommits([0, 0, 0, 0, 0, 0, 0, 0], t);
    ReadsOnlyLose(plus, t, t, 0.0);
  }

  // ----- setting the clock -----

  predicate NoReads(es: seq<Access>) { forall i :: 0 <= i < |es| ==> !es[i].Read? }

  /** Writes to an open transfer replace one register bit each; nothing else but time moves. */
  lemma {:induction false} WritesOn(plus: Rounded, c: Clock, es: seq<Access>)
    requires Sane(c) && c.transferring && c.bit == 0 && NoReads(es) && |Sent(es)| < 64
    ensures var r := Serve(plus, c, es);
      Later(c.(bit := |Sent(es)|, transfer := r.transfer), r) && Holds(r.transfer, c.transfer, Sent(es))
  {
    hide CommitTime, BitOf, Key, WithBit, Holds, Settle, Hundredths;
    if es == [] {
      HoldsNothing(c.transfer);
    } else {
      var n := |es| - 1;
      WritesOn(plus, c, es[..n]);
      var p := Serve(plus, c, es[..n]);
      match es[n]
      case Write(_, data) => HoldsNext(p.transfer, c.transfer, Sent(es[..n]), data % 2 == 1);
      case Wait(ns) =>
        assert Sent(es) == Sent(es[..n]);
        WaitIsLater(plus, p, ns);
    }
  }

  /** 64 bits written after the key, however much time passes, become the eight registers, bit for
      bit, and the time is what those registers say. */
  lemma FullWrite(plus: Rounded, c: Clock, es: seq<Access>)
    requires Sane(c) && c.transferring && c.bit == 0 && NoReads(es)
    requires |Sent(es)| == 64 && es[|es| - 1].Write?
    ensures var w := Serve(plus, c, es);
      && w == c.(transferring := false, bit := 0, window := Blank(), transfer := w.transfer,
                 now := CommitTime(w.transfer), phase := 0.0)
      && forall k :: 0 <= k < 64 ==> BitOf(w.transfer[k / 8], k % 8) == Sent(es)[k]
  {
    hide CommitTime, BitOf, Key, WithBit, Hundredths;
    var n := |es| - 1;
    WritesOn(plus, c, es[..n]);
    HoldsNext(Serve(plus, c, es[..n]).transfer, c.transfer, Sent(es[..n]), es[n].data % 2 == 1);
  }

  // ----- the whole transaction -----

  /** A whole read of an idle clock: the key, then 64 reads, with time passing anywhere. SRAM holds
      the bytes written, the registers those of the moment k of the key's last bit, the clock that
      time but for its century, the phase is gone, and the rest is as before. */
  lemma ReadTransaction(plus: Rounded, c: Clock, heard: seq<bool>, key: seq<Access>, es: seq<Access>, address: nat)
    requires Sane(c) && !c.transferring && c.window == Window(heard) && !Primed(heard)
    requires Sent(key) == Key() && key != [] && key[|key| - 1].Write? && NoWrites(es) && Gets(es) == 63
    ensures var k := Serve(plus, c, key[..|key| - 1]);
      Get(Serve(plus, Serve(plus, c, key), es), address).0 ==
        c.(sram := Poked(c.sram, key), transfer := Latch(c.transfer, k.now), window := Blank(),
           phase := 0.0, now := k.now.(year := TwoDigits(k.now.year)))
  {
    hide CommitTime, BitOf, Key, Latch, Window, Primed, Get, Serve, Poked, Hundredths, Sent;
    KeyOpensIff(plus, c, heard, key);
    var k := Serve(plus, c, key[..|key| - 1]);
    FullRead(plus, Serve(plus, c, key), c.transfer, k.now, es, address);
  }
}
