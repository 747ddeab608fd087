/** What a successful walk of recompiler/src/disc_parser.c lists, and when it succeeds: the
    directory tree spelled out on the bytes of the disc (directory records as in section 9.1 of
    ECMA-119), with no memory of where the walk has been. */
module DiscTree {
  import opened Guest
  import opened Bits
  import opened Counting
  import opened DiscWalk

  // ----- bytes of a directory -----

  /** Byte i of the extent that begins at a sector. */
  function ByteOn(d: Disc, lba: nat, i: nat): byte {
    match d.read(lba + i / 2048) case Some(s) => s[i % 2048] case None => 0
  }

  function Extent(d: Disc, lba: nat, size: nat): (s: seq<byte>)
    ensures |s| == size
  {
    seq(size, i requires 0 <= i < size => ByteOn(d, lba, i))
  }

  /** Every sector the extent touches is on the disc and yields its payload. */
  ghost predicate Readable(d: Disc, lba: nat, size: nat) {
    forall i :: 0 <= i < size ==> lba + i / 2048 < d.sectors && d.read(lba + i / 2048).Some?
  }

  function Field(bytes: seq<byte>, i: nat): byte { if i < |bytes| then bytes[i] else 0 }

  /** Four bytes, most significant first. */
  function Long(bytes: seq<byte>, i: nat): nat {
    256 * (256 * (256 * Field(bytes, i) + Field(bytes, i + 1)) + Field(bytes, i + 2)) + Field(bytes, i + 3)
  }

  // ----- one record -----

  /** The record after the one at `at`; a length of zero leaves the rest of the sector empty. */
  function Following(bytes: seq<byte>, at: nat): (next: nat)
    ensures next > at
  {
    if Field(bytes, at) == 0 then (at / 2048 + 1) * 2048 else at + Field(bytes, at)
  }

  function NameLength(bytes: seq<byte>, at: nat): nat { Field(bytes, at + 32) }

  function Name(bytes: seq<byte>, at: nat): seq<byte> {
    var first, last := at + 33, at + 33 + NameLength(bytes, at);
    if last <= |bytes| then bytes[first..last] else []
  }

  /** The system use area begins at an even distance behind the name. */
  function SystemUse(bytes: seq<byte>, at: nat): nat { (34 + NameLength(bytes, at)) / 2 * 2 }

  /** The directory itself, or its parent. */
  predicate Dot(bytes: seq<byte>, at: nat) { NameLength(bytes, at) == 1 && Field(bytes, at + 33) <= 1 }

  /** CD-i discs say so in the attributes, ISO 9660 discs in the flags. */
  predicate Folder(cdi: bool, bytes: seq<byte>, at: nat) {
    if cdi then BitOf(Field(bytes, at + SystemUse(bytes, at) + 2), 7) else BitOf(Field(bytes, at + 25), 1)
  }

  /** No terminator and no separator. */
  predicate Clean(name: seq<byte>) { 0 !in name && 0x2F !in name && 0x5C !in name }

  predicate OnDisc(d: Disc, lba: nat, size: nat) { lba < d.sectors && lba * 2048 + size <= d.sectors * 2048 }

  ghost predicate Shaped(cdi: bool, bytes: seq<byte>, at: nat) {
    var length := Field(bytes, at);
    && 34 <= length && at + length <= |bytes| && at / 2048 == (at + length - 1) / 2048
    && NameLength(bytes, at) >= 1 && SystemUse(bytes, at) + (if cdi then 8 else 0) <= length
    && Field(bytes, at + 1) == 0
  }

  /** One extent on the disc, not interleaved, under a path that fits. */
  ghost predicate Nameable(d: Disc, cdi: bool, bytes: seq<byte>, at: nat, prefix: seq<byte>) {
    && OnDisc(d, Long(bytes, at + 6), Long(bytes, at + 14))
    && (cdi || !BitOf(Field(bytes, at + 25), 7)) && Field(bytes, at + 26) == 0 && Field(bytes, at + 27) == 0
    && |prefix| + NameLength(bytes, at) + (if Folder(cdi, bytes, at) then 1 else 0) < 256
    && Clean(Name(bytes, at))
  }

  ghost predicate RecordSound(d: Disc, cdi: bool, bytes: seq<byte>, at: nat, prefix: seq<byte>) {
    Field(bytes, at) == 0 || (Shaped(cdi, bytes, at) && (Dot(bytes, at) || Nameable(d, cdi, bytes, at, prefix)))
  }

  function Located(bytes: seq<byte>, at: nat, path: seq<byte>): File {
    File(path, Long(bytes, at + 6), Long(bytes, at + 14))
  }

  // ----- the tree -----

  function Join(a: Walk, b: Walk): Walk { Walk(a.files + b.files, a.directories + b.directories) }

  /** The directory and everything below it, in the order of the records. */
  function Tree(d: Disc, cdi: bool, lba: nat, size: nat, prefix: seq<byte>, depth: nat): Walk
    decreases 17 - depth, 1, 0
  {
    if depth > 16 then Walk([], [])
    else Join(Walk([], [lba]), Records(d, cdi, Extent(d, lba, size), 0, prefix, depth))
  }

  function Records(d: Disc, cdi: bool, bytes: seq<byte>, at: nat, prefix: seq<byte>, depth: nat): Walk
    requires depth <= 16
    decreases 17 - depth, 0, |bytes| - at
  {
    if at >= |bytes| then Walk([], [])
    else Join(Record(d, cdi, bytes, at, prefix, depth), Records(d, cdi, bytes, Following(bytes, at), prefix, depth))
  }

  function Record(d: Disc, cdi: bool, bytes: seq<byte>, at: nat, prefix: seq<byte>, depth: nat): Walk
    requires depth <= 16
    decreases 16 - depth, 2, 0
  {
    var path := prefix + Name(bytes, at);
    if Field(bytes, at) == 0 || Dot(bytes, at) then Walk([], [])
    else if Folder(cdi, bytes, at) then
      Tree(d, cdi, Long(bytes, at + 6), Long(bytes, at + 14), path + [0x2F], depth + 1)
    else Walk([Located(bytes, at, path)], [])
  }

  /** Every directory of the tree can be read and every record of it is well formed. */
  ghost predicate Sound(d: Disc, cdi: bool, lba: nat, size: nat, prefix: seq<byte>, depth: nat)
    decreases 17 - depth, 1, 0
  {
    && 0 < size <= 0x100_0000 && depth <= 16 && OnDisc(d, lba, size) && Readable(d, lba, size)
    && RecordsSound(d, cdi, Extent(d, lba, size), 0, prefix, depth)
  }

  ghost predicate RecordsSound(d: Disc, cdi: bool, bytes: seq<byte>, at: nat, prefix: seq<byte>, depth: nat)
    requires depth <= 16
    decreases 17 - depth, 0, |bytes| - at
  {
    at >= |bytes| || (
      && RecordSound(d, cdi, bytes, at, prefix)
      && (Field(bytes, at) != 0 && !Dot(bytes, at) && Folder(cdi, bytes, at) ==>
            Sound(d, cdi, Long(bytes, at + 6), Long(bytes, at + 14), prefix + Name(bytes, at) + [0x2F], depth + 1))
      && RecordsSound(d, cdi, bytes, Following(bytes, at), prefix, depth))
  }

  /** The directories entered before and the new ones are all different and few enough, and there
      is memory to read each new one. */
  ghost predicate Enterable(d: Disc, before: seq<nat>, more: seq<nat>) {
    && Distinct(before + more) && |before + more| <= 256
    && forall k :: |before| <= k < |before + more| ==> d.memory(k)
  }

  // ----- the parser reads what the bytes say -----

  lemma ExtentAgrees(d: Disc, lba: nat, size: nat)
    ensures ValidExtent(d, lba, size) <==> OnDisc(d, lba, size)
  {}

  lemma {:induction false} ReadIsExtent(d: Disc, lba: nat, size: nat)
    ensures ReadDirectory(d, lba, size).Some? <==> Readable(d, lba, size)
    ensures Readable(d, lba, size) ==> ReadDirectory(d, lba, size).value == Extent(d, lba, size)
    decreases size
  {
    if size > 0 {
      var last := (size - 1) / 2048;
      var head := last * 2048;
      ReadIsExtent(d, lba, head);
      forall i | head <= i < size ensures i / 2048 == last && i % 2048 == i - head {}
      if Readable(d, lba, head) && Fetch(d, lba + last).Some? {
        assert Readable(d, lba, size);
        var got := ReadDirectory(d, lba, size).value;
        forall i | 0 <= i < size ensures got[i] == Extent(d, lba, size)[i] {
          if i < head { assert Extent(d, lba, head)[i] == ByteOn(d, lba, i); }
        }
      } else if Readable(d, lba, size) {
        assert Readable(d, lba, head);
        assert false;
      }
    }
  }

  lemma LongIsBe32(bytes: seq<byte>, at: nat, n: nat, i: nat)
    requires i + 4 <= n && at + n <= |bytes|
    ensures Be32(bytes[at..at + n], i) == Long(bytes, at + i)
  {}

  lemma SameSector(at: nat, n: nat)
    requires n > 0
    ensures n <= 2048 - at % 2048 <==> at / 2048 == (at + n - 1) / 2048
  {
    var q, r := at / 2048, at % 2048;
    assert at == 2048 * q + r;
  }

  lemma NextSector(at: nat)
    ensures at + DATA - at % DATA == (at / 2048 + 1) * 2048
  {}

  lemma NameIs(bytes: seq<byte>, at: nat, n: nat)
    requires at + n <= |bytes| && n >= 34 && 33 + NameLength(bytes, at) <= n
    ensures var r, k := bytes[at..at + n], NameLength(bytes, at);
      && Name(bytes, at) == r[33..33 + k]
      && (Clean(Name(bytes, at)) <==> forall i :: 33 <= i < 33 + k ==> NameChar(r[i]))
  {
    var r, k := bytes[at..at + n], NameLength(bytes, at);
    var m, l := at + 33, at + 33 + k;
    assert r[33..33 + k] == bytes[m..l];
    if Clean(Name(bytes, at)) {
      forall i | 33 <= i < 33 + k ensures NameChar(r[i]) { assert r[i] == r[33..33 + k][i - 33]; }
    }
  }

  /** One record: refused, passed over, a file or a directory exactly as its bytes say. */
  lemma NamedIs(d: Disc, cdi: bool, bytes: seq<byte>, at: nat, prefix: seq<byte>)
    requires at + Field(bytes, at) <= |bytes| && Field(bytes, at) >= 34
    requires at / 2048 == (at + Field(bytes, at) - 1) / 2048
    ensures var e, path := ParseNamed(d, cdi, bytes, at, Field(bytes, at), prefix), prefix + Name(bytes, at);
      if !RecordSound(d, cdi, bytes, at, prefix) then e.Bad?
      else if Dot(bytes, at) then e == Skip(Following(bytes, at))
      else if Folder(cdi, bytes, at) then e == Subdirectory(Located(bytes, at, path + [0x2F]), Following(bytes, at))
      else e == Plain(Located(bytes, at, path), Following(bytes, at))
  {
    hide Be32, Long, Name, BitOf, ValidExtent, OnDisc;
    var n: nat := Field(bytes, at);
    var r := bytes[at..at + n];
    assert forall i :: 0 <= i < n ==> r[i] == Field(bytes, at + i);
    LongIsBe32(bytes, at, n, 6);
    LongIsBe32(bytes, at, n, 14);
    ExtentAgrees(d, Long(bytes, at + 6), Long(bytes, at + 14));
    BitsOfByte(Field(bytes, at + 25));
    var name := NameLength(bytes, at);
    var extension := 33 + name + (if name % 2 == 1 then 0 else 1);
    assert extension == SystemUse(bytes, at);
    BitsOfByte(Field(bytes, at + extension + 2));
    if 33 + name <= n { NameIs(bytes, at, n); }
  }

  /** The parser's answer for any record. */
  lemma RecordIs(d: Disc, cdi: bool, bytes: seq<byte>, at: nat, prefix: seq<byte>)
    requires at < |bytes|
    ensures var e, path := ParseRecord(d, cdi, bytes, at, prefix), prefix + Name(bytes, at);
      if !RecordSound(d, cdi, bytes, at, prefix) then e.Bad?
      else if Field(bytes, at) == 0 then
        e.Skip? && (e.next == Following(bytes, at) || e.next == |bytes| <= Following(bytes, at))
      else if Dot(bytes, at) then e == Skip(Following(bytes, at))
      else if Folder(cdi, bytes, at) then e == Subdirectory(Located(bytes, at, path + [0x2F]), Following(bytes, at))
      else e == Plain(Located(bytes, at, path), Following(bytes, at))
  {
    hide ParseNamed, Nameable, Folder, Located, Dot, Name;
    var n: nat := Field(bytes, at);
    NextSector(at);
    if n > 0 { SameSector(at, n); }
    if n >= 34 && at + n <= |bytes| && at / 2048 == (at + n - 1) / 2048 { NamedIs(d, cdi, bytes, at, prefix); }
  }

  // ----- the walk is the tree -----

  lemma EnterOne(d: Disc, before: seq<nat>, lba: nat, more: seq<nat>)
    requires Distinct(before) && |before| <= 256
    ensures Enterable(d, before, [lba] + more) <==>
      && |before| < 256 && lba !in before && d.memory(|before|) && Enterable(d, before + [lba], more)
    ensures |before| < 256 && lba !in before ==> Distinct(before + [lba])
  {
    assert before + ([lba] + more) == before + [lba] + more;
    var all := before + [lba] + more;
    assert all[|before|] == lba && forall i :: 0 <= i < |before| ==> all[i] == before[i];
    assert forall i :: 0 <= i <= |before| ==> all[i] == (before + [lba])[i];
  }

  lemma EnterBoth(d: Disc, before: seq<nat>, first: seq<nat>, second: seq<nat>)
    ensures Enterable(d, before, first + second) <==>
      Enterable(d, before, first) && Enterable(d, before + first, second)
  {
    var all, part := before + first + second, before + first;
    assert before + (first + second) == all;
    assert forall i :: 0 <= i < |part| ==> all[i] == part[i];
  }

  lemma JoinThree(a: Walk, b: Walk, c: Walk)
    ensures Join(Join(a, b), c) == Join(a, Join(b, c)) && Join(a, Walk([], [])) == a && Join(Walk([], []), a) == a
  {}

  /** A walk succeeds if and only if the tree is sound and its directories can be entered after
      those entered before; and then it lists the tree. */
  lemma {:induction false} WalkIsTree(d: Disc, cdi: bool, w: Walk, lba: nat, size: nat, prefix: seq<byte>, depth: nat)
    requires |w.directories| <= 256 && Distinct(w.directories)
    ensures var r, t := WalkDirectory(d, cdi, w, lba, size, prefix, depth), Tree(d, cdi, lba, size, prefix, depth);
      && (r.0 <==> Sound(d, cdi, lba, size, prefix, depth) && Enterable(d, w.directories, t.directories))
      && (r.0 ==> r.1 == Join(w, t))
    decreases DIRECTORIES - |w.directories|, 0, 0
  {
    hide ValidExtent, OnDisc, Readable, ReadDirectory, Extent, RecordsSound, Records, Grows, Enterable, WalkRecords;
    hide Distinct;
    ExtentAgrees(d, lba, size);
    ReadIsExtent(d, lba, size);
    if depth <= 16 {
      var rest := Records(d, cdi, Extent(d, lba, size), 0, prefix, depth);
      EnterOne(d, w.directories, lba, rest.directories);
      if |w.directories| < 256 && lba !in w.directories && d.memory(|w.directories|) {
        var entered := Join(w, Walk([], [lba]));
        assert entered == w.(directories := w.directories + [lba]);
        RecordsAreTree(d, cdi, entered, Extent(d, lba, size), 0, prefix, depth);
        JoinThree(w, Walk([], [lba]), rest);
      }
    }
  }

  lemma {:induction false} RecordsAreTree(d: Disc, cdi: bool, w: Walk, bytes: seq<byte>, at: nat,
                                          prefix: seq<byte>, depth: nat)
    requires |w.directories| <= 256 && Distinct(w.directories) && depth <= 16
    ensures var r, t := WalkRecords(d, cdi, w, bytes, at, prefix, depth), Records(d, cdi, bytes, at, prefix, depth);
      && (r.0 <==> RecordsSound(d, cdi, bytes, at, prefix, depth) && Enterable(d, w.directories, t.directories))
      && (r.0 ==> r.1 == Join(w, t))
    decreases DIRECTORIES - |w.directories|, 1, |bytes| - at
  {
    hide ParseRecord, RecordSound, Field, Dot, Folder, Name, Long, Following, Distinct, Tree, Sound, WalkDirectory;
    hide Enterable;
    if at >= |bytes| {
      EnterNone(d, w.directories);
      JoinThree(w, w, w);
    } else {
      RecordIs(d, cdi, bytes, at, prefix);
      var here, next := Record(d, cdi, bytes, at, prefix, depth), Following(bytes, at);
      var rest := Records(d, cdi, bytes, next, prefix, depth);
      EnterBoth(d, w.directories, here.directories, rest.directories);
      JoinThree(w, here, rest);
      match ParseRecord(d, cdi, bytes, at, prefix)
      case Bad =>
      case Skip(n) =>
        EnterNone(d, w.directories);
        RecordsAreTree(d, cdi, w, bytes, n, prefix, depth);
      case Plain(file, n) =>
        EnterNone(d, w.directories);
        RecordsAreTree(d, cdi, w.(files := w.files + [file]), bytes, n, prefix, depth);
      case Subdirectory(file, n) =>
        WalkIsTree(d, cdi, w, file.lba, file.size, file.path, depth + 1);
        var sub := WalkDirectory(d, cdi, w, file.lba, file.size, file.path, depth + 1);
        if sub.0 {
          EnteredWell(d, w.directories, here.directories);
          RecordsAreTree(d, cdi, sub.1, bytes, n, prefix, depth);
        }
    }
  }

  lemma EnteredWell(d: Disc, before: seq<nat>, more: seq<nat>)
    requires Enterable(d, before, more)
    ensures |before + more| <= 256 && Distinct(before + more)
  {}

  lemma EnterNone(d: Disc, before: seq<nat>)
    requires Distinct(before) && |before| <= 256
    ensures Enterable(d, before, []) && before + [] == before
  {
    assert before + [] == before;
  }

  // ----- the whole disc -----

  /** The five bytes that say which standard the disc follows. */
  predicate Standard(v: seq<byte>, name: seq<byte>) { |v| >= 6 && v[1..6] == name }

  function CdiName(): seq<byte> { [0x43, 0x44, 0x2D, 0x49, 0x20] }

  function IsoName(): seq<byte> { [0x43, 0x44, 0x30, 0x30, 0x31] }

  /** The directory's own first record names its sector and its size. */
  ghost predicate SelfDescribed(d: Disc, lba: nat, size: nat) {
    var r := Extent(d, lba, 2048);
    && Readable(d, lba, 2048) && Field(r, 0) >= 34 && Field(r, 32) == 1 && Field(r, 33) == 0
    && Long(r, 6) == lba && Long(r, 14) == size
  }

  /** The first entry of the path table names the root directory. */
  ghost predicate TableRoot(d: Disc, table: nat, lba: nat) {
    var t := Extent(d, table, 2048);
    && Readable(d, table, 2048) && Field(t, 0) == 1 && Field(t, 1) == 0 && Long(t, 2) == lba
    && Field(t, 6) == 0 && Field(t, 7) == 1 && Field(t, 8) == 0
  }

  ghost predicate RootAt(d: Disc, root: Root) {
    var v := Extent(d, 16, 2048);
    && Readable(d, 16, 2048) && Field(v, 0) == 1 && Field(v, 6) == 1
    && if root.cdi then
         && Standard(v, CdiName()) && Long(v, 136) >= 10 && OnDisc(d, Long(v, 148), Long(v, 136))
         && TableRoot(d, Long(v, 148), root.lba) && SelfDescribed(d, root.lba, root.size)
       else
         && Standard(v, IsoName()) && Field(v, 156) >= 34 && Field(v, 157) == 0
         && root.lba == Long(v, 162) && root.size == Long(v, 170)
  }

  lemma FetchIs(d: Disc, lba: nat)
    ensures Fetch(d, lba).Some? <==> Readable(d, lba, 2048)
    ensures Readable(d, lba, 2048) ==> Fetch(d, lba).value == Extent(d, lba, 2048)
  {
    if Fetch(d, lba).Some? {
      assert forall i :: 0 <= i < 2048 ==> lba + i / 2048 == lba;
    }
    if Readable(d, lba, 2048) {
      assert lba + 0 / 2048 < d.sectors;
      assert forall i :: 0 <= i < 2048 ==> ByteOn(d, lba, i) == Fetch(d, lba).value[i];
    }
  }

  lemma LongOf(v: seq<byte>, i: nat)
    requires i + 4 <= |v|
    ensures Be32(v, i) == Long(v, i)
  {}

  lemma CdiRootIs(d: Disc, lba: nat, root: Root)
    ensures CdiRoot(d, lba) == Some(root) <==> root.cdi && root.lba == lba && SelfDescribed(d, lba, root.size)
  {
    hide Fetch, Readable, Extent, Be32, Long;
    FetchIs(d, lba);
    LongOf(Extent(d, lba, 2048), 6);
    LongOf(Extent(d, lba, 2048), 14);
  }

  /** The root is found exactly where the volume descriptor, or the path table it points to, has it. */
  lemma RootIs(d: Disc, root: Root)
    ensures FindRoot(d) == Some(root) <==> RootAt(d, root)
  {
    hide Fetch, Readable, Extent, Be32, Long, CdiRoot, SelfDescribed, ValidExtent, OnDisc;
    var v := Extent(d, 16, 2048);
    FetchIs(d, 16);
    LongOf(v, 136);
    LongOf(v, 148);
    LongOf(v, 162);
    LongOf(v, 170);
    ExtentAgrees(d, Long(v, 148), Long(v, 136));
    assert CdiName() != IsoName() by { assert CdiName()[2] != IsoName()[2]; }
    var table := Long(v, 148);
    FetchIs(d, table);
    var t := Extent(d, table, 2048);
    LongOf(t, 2);
    CdiRootIs(d, Long(t, 2), root);
  }

  /** A root whose tree is sound and can be entered from nothing. */
  ghost predicate Walkable(d: Disc, root: Root) {
    && RootAt(d, root) && Sound(d, root.cdi, root.lba, root.size, [], 0)
    && Enterable(d, [], Tree(d, root.cdi, root.lba, root.size, [], 0).directories)
  }

  /** There is a catalogue if and only if the disc has a root that can be walked, and it is the
      tree under it: every plain record of every directory once, in order, with the name, the sector
      and the size its bytes spell. */
  lemma CatalogueIs(d: Disc)
    ensures Catalogue(d).Some? <==> exists root :: Walkable(d, root)
    ensures forall root :: Walkable(d, root) ==>
      Catalogue(d) == Some(Tree(d, root.cdi, root.lba, root.size, [], 0))
  {
    hide RootAt, Sound, Enterable, Tree, FindRoot, WalkDirectory;
    var none := Walk([], []);
    forall root | Walkable(d, root) ensures Catalogue(d) == Some(Tree(d, root.cdi, root.lba, root.size, [], 0)) {
      RootIs(d, root);
      WalkIsTree(d, root.cdi, none, root.lba, root.size, [], 0);
      JoinThree(Tree(d, root.cdi, root.lba, root.size, [], 0), none, none);
    }
    if Catalogue(d).Some? {
      var root := FindRoot(d).value;
      RootIs(d, root);
      WalkIsTree(d, root.cdi, none, root.lba, root.size, [], 0);
      assert Walkable(d, root);
    }
  }
}
