/** The dense set of even RAM words that hold the OS-9 sync word 0x4AFC
    (runner/src/cdi_native.c): an unordered array of addresses plus its inverse, with
    removal by swapping the last address into the hole. */
module SyncTags {
  import opened Guest
  import Counting

  const WORDS := BANK   // even words in both banks

  /** tag_index: the number of an even RAM word. */
  function Index(address: nat): (w: nat)
    requires InRam(address, 2) && address % 2 == 0
    ensures w < WORDS && 2 * w == Offset(address)
  {
    if address < BANK then address / 2 else BANK / 2 + (address - RAM1) / 2
  }

  /** The guest address of word w. */
  function WordAddress(w: nat): (a: nat)
    requires w < WORDS
    ensures InRam(a, 2) && a % 2 == 0 && Index(a) == w
  {
    if w < BANK / 2 then 2 * w else RAM1 + 2 * (w - BANK / 2)
  }

  lemma IndexInjective(a: nat, b: nat)
    requires InRam(a, 2) && a % 2 == 0 && InRam(b, 2) && b % 2 == 0 && Index(a) == Index(b)
    ensures a == b
  {}

  predicate Sync(mem: Memory, w: nat)
    requires w < WORDS
  {
    mem[2 * w] == 0x4A && mem[2 * w + 1] == 0xFC
  }

  /** Word w shares a byte with the span. */
  predicate Touched(w: nat, address: nat, size: nat)
    requires size > 0 && InRam(address, size)
  {
    2 * w < Offset(address) + size && Offset(address) < 2 * w + 2
  }

  /** The k-th word from the start of a span lies in RAM, and is the only one the span touches
      at that place. */
  lemma WordOf(address: nat, size: nat, k: nat)
    requires size > 0 && InRam(address, size) && address - address % 2 + 2 * k < address + size
    ensures var a := address - address % 2 + 2 * k;
      && InRam(a, 2) && a % 2 == 0 && Index(a) == Offset(address) / 2 + k && Touched(Index(a), address, size)
  {}

  lemma LastWord(address: nat, size: nat, w: nat, k: nat)
    requires size > 0 && InRam(address, size) && Touched(w, address, size)
    requires address - address % 2 + 2 * k >= address + size
    ensures w < Offset(address) / 2 + k
  {}

  /** Every slot below `count` names a distinct even RAM word, and `indices` is its inverse
      (one more than the slot; zero for words not in the set). */
  predicate Inverse(tags: seq<nat>, indices: seq<nat>, count: nat) {
    && |tags| == WORDS && |indices| == WORDS && count <= WORDS
    && (forall i :: 0 <= i < count ==> InRam(tags[i], 2) && tags[i] % 2 == 0)
    && (forall i :: 0 <= i < count ==> indices[Index(tags[i])] == i + 1)
    && (forall w :: 0 <= w < WORDS && indices[w] != 0 ==> indices[w] <= count)
    && (forall w :: 0 <= w < WORDS && indices[w] != 0 ==> Index(tags[indices[w] - 1]) == w)
  }

  /** An inverse with a word left over has room for one more. */
  lemma Room(tags: seq<nat>, indices: seq<nat>, count: nat, w: nat)
    requires Inverse(tags, indices, count) && w < WORDS && indices[w] == 0
    ensures count < WORDS
  {
    var taken: seq<int> := seq(count, i requires 0 <= i < count => Index(tags[i])) + [w];
    forall i, j | 0 <= i < j < |taken| ensures taken[i] != taken[j] {
      assert i < count ==> indices[taken[i]] == i + 1;
      assert j < count ==> indices[taken[j]] == j + 1;
    }
    Counting.Pigeonhole(taken, WORDS);
  }

  lemma Added(tags: seq<nat>, indices: seq<nat>, count: nat, a: nat)
    requires Inverse(tags, indices, count) && count < WORDS
    requires InRam(a, 2) && a % 2 == 0 && indices[Index(a)] == 0
    ensures Inverse(tags[count := a], indices[Index(a) := count + 1], count + 1)
  {
    hide Index;
  }

  /** The last address moves into the hole. */
  lemma Removed(tags: seq<nat>, indices: seq<nat>, count: nat, a: nat)
    requires Inverse(tags, indices, count)
    requires InRam(a, 2) && a % 2 == 0 && indices[Index(a)] != 0
    ensures count > 0 && InRam(tags[count - 1], 2) && tags[count - 1] % 2 == 0
    ensures var slot, last := indices[Index(a)], tags[count - 1];
      && slot - 1 < count
      && Inverse(tags[slot - 1 := last], indices[Index(last) := slot][Index(a) := 0], count - 1)
    ensures var slot, last := indices[Index(a)], tags[count - 1];
      forall w :: 0 <= w < WORDS && w != Index(a) ==>
        (indices[Index(last) := slot][Index(a) := 0][w] != 0 <==> indices[w] != 0)
  {
    hide Index;
  }

  class TagSet {
    const tags: array<nat>
    const indices: array<nat>
    var count: nat

    ghost predicate Valid()
      reads this, tags, indices
    {
      && tags != indices && tags.Length == WORDS && indices.Length == WORDS && count <= WORDS
      && Inverse(tags[..], indices[..], count)
    }

    predicate Has(w: nat)
      requires indices.Length == WORDS && w < WORDS
      reads indices
    {
      indices[w] != 0
    }

    /** Every word in the set is listed. */
    lemma Listed(a: nat) returns (i: nat)
      requires Valid() && InRam(a, 2) && a % 2 == 0 && Has(Index(a))
      ensures i < count && tags[i] == a
    {
      i := indices[Index(a)] - 1;
      IndexInjective(a, tags[..][i]);
    }

    /** Everything listed is an even RAM word of the set. */
    lemma ListedIsWord(i: nat)
      requires Valid() && i < count
      ensures InRam(tags[i], 2) && tags[i] % 2 == 0 && Has(Index(tags[i]))
    {
      assert tags[i] == tags[..][i];
    }

    constructor ()
      ensures Valid() && count == 0 && fresh(tags) && fresh(indices)
      ensures forall w :: 0 <= w < WORDS ==> indices[w] == 0
    {
      tags := new nat[WORDS](_ => 0);
      indices := new nat[WORDS](_ => 0);
      count := 0;
    }

    method Clear()
      requires Valid()
      modifies this, indices
      ensures Valid() && count == 0
      ensures forall w :: 0 <= w < WORDS ==> indices[w] == 0
    {
      var i := 0;
      while i < WORDS
        invariant 0 <= i <= WORDS && indices.Length == WORDS
        invariant forall w :: 0 <= w < i ==> indices[w] == 0
        modifies indices
      {
        indices[i] := 0;
        i := i + 1;
      }
      count := 0;
    }

    /** Bring one word up to date. */
    method Update(mem: Memory, a: nat)
      requires Valid() && InRam(a, 2) && a % 2 == 0
      modifies this, tags, indices
      ensures Valid()
      ensures Has(Index(a)) <==> Sync(mem, Index(a))
      ensures forall w :: 0 <= w < WORDS && w != Index(a) ==> (Has(w) <==> old(Has(w)))
    {
      hide Inverse;
      var index := Index(a);
      var slot := indices[index];
      ghost var t, x := tags[..], indices[..];
      if Sync(mem, index) {
        if slot == 0 {
          Room(t, x, count, index);
          Added(t, x, count, a);
          tags[count] := a;
          count := count + 1;
          indices[index] := count;
          assert tags[..] == t[count - 1 := a] && indices[..] == x[index := count];
        }
      } else if slot != 0 {
        Removed(t, x, count, a);
        count := count - 1;
        var last := tags[count];
        tags[slot - 1] := last;
        indices[Index(last)] := slot;
        indices[index] := 0;
        assert tags[..] == t[slot - 1 := last] && indices[..] == x[Index(last) := slot][index := 0];
      }
    }

    /** After a write to [address, address + size): the words it touches are in the set
        exactly when they now hold the sync word, and the others are as before. */
    method Notify(mem: Memory, address: nat, size: nat)
      requires Valid() && size > 0 && InRam(address, size)
      modifies this, tags, indices
      ensures Valid()
      ensures forall w :: 0 <= w < WORDS ==>
        (Has(w) <==> if Touched(w, address, size) then Sync(mem, w) else old(Has(w)))
    {
      hide Inverse, Sync;
      var a := address - address % 2;
      var end := address + size;
      ghost var first, k := Offset(address) / 2, 0;
      while a < end
        invariant a == address - address % 2 + 2 * k
        invariant Valid()
        invariant forall w :: 0 <= w < WORDS ==>
          (Has(w) <==> if Touched(w, address, size) && w < first + k then Sync(mem, w) else old(Has(w)))
        decreases end - a
      {
        WordOf(address, size, k);
        hide Touched;
        if InRam(a, 2) { Update(mem, a); }
        a, k := a + 2, k + 1;
      }
      forall w: nat | w < WORDS && Touched(w, address, size) ensures w < first + k {
        LastWord(address, size, w, k);
      }
    }
  }
}
