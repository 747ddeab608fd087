/** The coverage ledger of runner/src/cdi_native.c: dense records of uncovered entry points,
    found through an open-addressing index probed linearly. */
module CoverageLedger {
  import Counting

  const CAPACITY := 262144
  const INDEX := 2 * CAPACITY

  datatype Key = Key(mod: nat, offset: nat)

  /** A record with the provenance of its first sighting. */
  datatype Target = Target(key: Key, base: nat, epoch: nat, frame: nat, trace: nat, hits: nat)

  /** Where probing for a key begins. */
  function Hash(key: Key): (h: nat)
    ensures h < INDEX
  {
    var m, o := (key.mod % 0x1_0000_0000) as bv32, (key.offset % 0x1_0000_0000) as bv32;
    var x := (m * 0x9e37_79b9) ^ ((o >> 1) * 0x85eb_ca6b);
    ((x ^ (x >> 16)) as int) % INDEX
  }

  /** The slot d steps along from h. */
  function Probe(h: nat, d: nat): (s: nat)
    ensures s < INDEX
  {
    (h + d) % INDEX
  }

  lemma ProbeReaches(h: nat, z: nat) returns (d: nat)
    requires h < INDEX && z < INDEX
    ensures d < INDEX && Probe(h, d) == z
  {
    d := if z >= h then z - h else z + INDEX - h;
    if z < h { assert h + d == z + INDEX; }
  }

  function Keys(records: seq<Target>): (r: seq<Key>)
    ensures |r| == |records| && forall i :: 0 <= i < |r| ==> r[i] == records[i].key
  {
    seq(|records|, i requires 0 <= i < |records| => records[i].key)
  }

  function TotalHits(records: seq<Target>): nat {
    if records == [] then 0 else TotalHits(records[..|records| - 1]) + records[|records| - 1].hits
  }

  lemma {:induction false} HitCounts(records: seq<Target>, k: nat)
    requires k < |records|
    ensures TotalHits(records[k := records[k].(hits := records[k].hits + 1)]) == TotalHits(records) + 1
  {
    var n := |records| - 1;
    var r := records[k := records[k].(hits := records[k].hits + 1)];
    if k == n {
      assert r[..n] == records[..n];
    } else {
      HitCounts(records[..n], k);
      assert r[..n] == records[..n][k := records[k].(hits := records[k].hits + 1)];
    }
  }

  lemma NewCounts(records: seq<Target>, t: Target)
    ensures TotalHits(records + [t]) == TotalHits(records) + t.hits
  {
    assert (records + [t])[..|records|] == records;
  }

  /** Record k sits `distance[k]` probes from its hash, behind an unbroken chain; every
      occupied slot belongs to exactly one record. */
  ghost predicate Indexed(keys: seq<Key>, indices: seq<nat>, distance: seq<nat>) {
    && |indices| == INDEX && |distance| == |keys| <= CAPACITY
    && (forall k :: 0 <= k < |keys| ==> indices[Probe(Hash(keys[k]), distance[k])] == k + 1)
    && (forall k, e :: 0 <= k < |keys| && 0 <= e < distance[k] ==> indices[Probe(Hash(keys[k]), e)] != 0)
    && (forall s :: 0 <= s < INDEX && indices[s] != 0 ==> indices[s] <= |keys|)
    && (forall s :: 0 <= s < INDEX && indices[s] != 0 ==>
      s == Probe(Hash(keys[indices[s] - 1]), distance[indices[s] - 1]))
    && Counting.Distinct(keys)
  }

  lemma NothingIndexed(indices: seq<nat>)
    requires |indices| == INDEX && forall s :: 0 <= s < INDEX ==> indices[s] == 0
    ensures Indexed(Keys([]), indices, []) && TotalHits([]) == 0
  {}

  /** Half-full at most, so every probe sequence meets an empty slot. */
  lemma EmptySlot(keys: seq<Key>, indices: seq<nat>, distance: seq<nat>) returns (z: nat)
    requires Indexed(keys, indices, distance)
    ensures z < INDEX && indices[z] == 0
  {
    hide Probe, Hash;
    if z' :| 0 <= z' < INDEX && indices[z'] == 0 {
      z := z';
    } else {
      var owners: seq<int> := seq(INDEX, s requires 0 <= s < INDEX => indices[s] - 1);
      Counting.Pigeonhole(owners, CAPACITY);
      assert false;
    }
  }

  /** A probe that met an empty slot without meeting the key proves it absent. */
  lemma Absent(keys: seq<Key>, indices: seq<nat>, distance: seq<nat>, key: Key, i: nat)
    requires Indexed(keys, indices, distance)
    requires indices[Probe(Hash(key), i)] == 0
    requires forall e :: 0 <= e < i && indices[Probe(Hash(key), e)] != 0 ==>
      keys[indices[Probe(Hash(key), e)] - 1] != key
    ensures key !in keys
  {
    hide Probe, Hash;
    forall k | 0 <= k < |keys| ensures keys[k] != key {
      assert indices[Probe(Hash(keys[k]), distance[k])] == k + 1;
    }
  }

  lemma Inserted(keys: seq<Key>, indices: seq<nat>, distance: seq<nat>, key: Key, i: nat)
    requires Indexed(keys, indices, distance) && |keys| < CAPACITY && key !in keys
    requires indices[Probe(Hash(key), i)] == 0
    requires forall e :: 0 <= e < i ==> indices[Probe(Hash(key), e)] != 0
    ensures Indexed(keys + [key], indices[Probe(Hash(key), i) := |keys| + 1], distance + [i])
  {
    hide Probe, Hash;
    var at := Probe(Hash(key), i);
    var keys', indices', distance' := keys + [key], indices[at := |keys| + 1], distance + [i];
    forall s | 0 <= s < INDEX && indices'[s] != 0
      ensures indices'[s] <= |keys'| && s == Probe(Hash(keys'[indices'[s] - 1]), distance'[indices'[s] - 1])
    {
      if s != at { assert indices'[s] == indices[s]; }
    }
  }

  /** What one sighting does: a stored key counts a hit and keeps its first provenance, a new one
      is appended, and only a full ledger drops it. */
  ghost predicate Recorded(before: seq<Target>, lost: nat, t: Target, after: seq<Target>, lost': nat) {
    if t.key in Keys(before) then
      && lost' == lost
      && exists k :: 0 <= k < |before| && before[k].key == t.key
           && after == before[k := before[k].(hits := before[k].hits + 1)]
    else if |before| < CAPACITY then lost' == lost && after == before + [t]
    else lost' == lost + 1 && after == before
  }

  lemma HitIsRecorded(before: seq<Target>, k: nat, t: Target, lost: nat)
    requires k < |before| && before[k].key == t.key
    ensures Recorded(before, lost, t, before[k := before[k].(hits := before[k].hits + 1)], lost)
  {
    assert Keys(before)[k] == t.key;
  }

  lemma NewIsRecorded(before: seq<Target>, t: Target, lost: nat)
    requires |before| < CAPACITY && t.key !in Keys(before)
    ensures Recorded(before, lost, t, before + [t], lost)
  {}

  lemma LossIsRecorded(before: seq<Target>, t: Target, lost: nat)
    requires |before| >= CAPACITY && t.key !in Keys(before)
    ensures Recorded(before, lost, t, before, lost + 1)
  {}

  class Ledger {
    const targets: array<Target>
    const indices: array<nat>
    var count: nat
    var dropped: nat
    ghost var distance: seq<nat>
    ghost var calls: nat

    ghost predicate Valid()
      reads this, targets, indices
    {
      && targets.Length == CAPACITY && indices.Length == INDEX && count <= CAPACITY
      && (targets as object) != indices
      && Indexed(Keys(targets[..count]), indices[..], distance)
      && TotalHits(targets[..count]) + dropped == calls
    }

    ghost function Records(): seq<Target>
      requires count <= targets.Length
      reads this, targets
    {
      targets[..count]
    }

    constructor ()
      ensures Valid() && Records() == [] && dropped == 0 && calls == 0
      ensures fresh(targets) && fresh(indices)
    {
      targets := new Target[CAPACITY](_ => Target(Key(0, 0), 0, 0, 0, 0, 0));
      indices := new nat[INDEX](_ => 0);
      count := 0;
      dropped := 0;
      distance := [];
      calls := 0;
      new;
      hide Indexed;
      NothingIndexed(indices[..]);
    }

    /** Forget every record. */
    method Reset()
      requires Valid()
      modifies this, indices
      ensures Valid() && Records() == [] && dropped == 0 && calls == 0
    {
      hide Indexed, TotalHits;
      var i := 0;
      while i < INDEX
        invariant 0 <= i <= INDEX && indices.Length == INDEX
        invariant forall s :: 0 <= s < i ==> indices[s] == 0
        modifies indices
      {
        indices[i] := 0;
        i := i + 1;
      }
      count, dropped, distance, calls := 0, 0, [], 0;
      NothingIndexed(indices[..]);
    }

    /** One qualifying sighting: a stored key counts a hit, a new one is appended with its
        first provenance, and only a full ledger drops it. */
    method Record(key: Key, base: nat, epoch: nat, frame: nat, trace: nat)
      requires Valid()
      modifies this, targets, indices
      ensures Valid() && calls == old(calls) + 1
      ensures Recorded(old(Records()), old(dropped), Target(key, base, epoch, frame, trace, 1), Records(), dropped)
      ensures key in Keys(Records()) || dropped == old(dropped) + 1
    {
      hide Probe, Hash, TotalHits, Indexed, Recorded;
      var t := Target(key, base, epoch, frame, trace, 1);
      ghost var records, keys, index := Records(), Keys(Records()), indices[..];
      var found, at, i := Search(key);
      calls := calls + 1;
      if found {
        var k := indices[at] - 1;
        HitCounts(records, k);
        targets[k] := targets[k].(hits := targets[k].hits + 1);
        assert Records() == records[k := records[k].(hits := records[k].hits + 1)];
        assert Keys(Records()) == keys;
        assert records[k].key == key == keys[k];
        HitIsRecorded(records, k, t, dropped);
        return;
      }
      if count == CAPACITY {
        dropped := dropped + 1;
        LossIsRecorded(records, t, old(dropped));
        return;
      }
      Inserted(keys, index, distance, key, i);
      NewIsRecorded(records, t, dropped);
      NewCounts(records, t);
      indices[at] := count + 1;
      targets[count] := t;
      count := count + 1;
      distance := distance + [i];
      assert Records() == records + [t];
      assert Keys(Records()) == keys + [key];
      assert Keys(Records())[|keys|] == key;
      assert indices[..] == index[at := count];
    }

    /** The probe loop. */
    method Search(key: Key) returns (found: bool, at: nat, ghost i: nat)
      requires Valid()
      ensures at < INDEX && at == Probe(Hash(key), i)
      ensures found ==> 1 <= indices[at] <= count && targets[indices[at] - 1].key == key
      ensures !found ==> indices[at] == 0 && key !in Keys(Records())
      ensures !found ==> forall e :: 0 <= e < i ==> indices[Probe(Hash(key), e)] != 0
    {
      hide Probe, Hash, TotalHits, Indexed, Keys;
      ghost var keys := Keys(Records());
      var h := Hash(key);
      ProbeZero(h);
      ghost var z := EmptySlot(keys, indices[..], distance);
      ghost var d := ProbeReaches(h, z);
      at := h;
      i := 0;
      while indices[at] != 0
        invariant 0 <= i <= d && at == Probe(h, i)
        invariant forall e :: 0 <= e < i ==> 1 <= indices[Probe(h, e)] <= |keys|
        invariant forall e :: 0 <= e < i ==> keys[indices[Probe(h, e)] - 1] != key
        decreases d - i
      {
        OwnerKnown(keys, indices[..], distance, at);
        if targets[indices[at] - 1].key == key { return true, at, i; }
        ProbeNext(h, i);
        at := (at + 1) % INDEX;
        i := i + 1;
      }
      Absent(keys, indices[..], distance, key, i);
      return false, at, i;
    }

    /** A page of records from `from` on. */
    method Page(capacity: nat, from: nat) returns (out: seq<Target>, total: nat, lost: nat)
      requires Valid()
      ensures total == |Records()| && lost == dropped
      ensures from <= total ==> out == Records()[from..if from + capacity < total then from + capacity else total]
      ensures from > total ==> out == []
    {
      hide TotalHits, Indexed;
      total, lost := count, dropped;
      out := [];
      var i := from;
      while i < count && |out| < capacity
        invariant from <= count ==> from <= i <= count && out == targets[from..i]
        invariant from > count ==> i == from && out == []
        invariant |out| <= capacity && (from <= count ==> |out| == i - from)
      {
        out := out + [targets[i]];
        i := i + 1;
      }
    }
  }

  lemma ProbeZero(h: nat)
    requires h < INDEX
    ensures Probe(h, 0) == h
  {}

  lemma OwnerKnown(keys: seq<Key>, indices: seq<nat>, distance: seq<nat>, s: nat)
    requires Indexed(keys, indices, distance) && s < INDEX
    ensures |indices| == INDEX && indices[s] <= |keys|
  {}

  lemma ProbeNext(h: nat, i: nat)
    ensures (Probe(h, i) + 1) % INDEX == Probe(h, i + 1)
  {}
}
