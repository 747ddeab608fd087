/** The directory walk of recompiler/src/disc_parser.c over arbitrary disc metadata
    (directory records as in section 9.1 of ECMA-119). */
module DiscWalk {
  import opened Guest
  import opened Counting

  const DATA := 2048
  const DIRECTORIES := 256
  const PATH := 256
  const LARGEST := 16 * 1024 * 1024

  type Sector = s: seq<byte> | |s| == DATA witness seq(DATA, _ => 0)

  /** A disc: its size in sectors, the Form 1 payload each sector yields (if it has one), and
      whether the k-th directory buffer can be allocated. */
  datatype Disc = Disc(sectors: nat, read: nat -> Option<Sector>, memory: nat -> bool)

  datatype File = File(path: seq<byte>, lba: nat, size: nat)

  /** What a walk has seen so far. */
  datatype Walk = Walk(files: seq<File>, directories: seq<nat>)

  predicate ValidExtent(d: Disc, lba: nat, size: nat) {
    lba < d.sectors && (size + DATA - 1) / DATA <= d.sectors - lba
  }

  function Fetch(d: Disc, lba: nat): Option<Sector> {
    if lba < d.sectors then d.read(lba) else None
  }

  // ----- one directory record -----

  datatype Entry = Skip(next: nat) | Bad | Plain(file: File, next: nat) | Subdirectory(file: File, next: nat)

  predicate NameChar(c: byte) { c != 0 && c != 0x2F && c != 0x5C }

  /** The record at `at`, whose length `n` has been found sound. */
  function ParseNamed(d: Disc, cdi: bool, bytes: seq<byte>, at: nat, n: nat, prefix: seq<byte>): (e: Entry)
    requires n >= 34 && at + n <= |bytes|
    ensures !e.Bad? ==> e.next == at + n
    ensures e.Plain? || e.Subdirectory? ==> ValidExtent(d, e.file.lba, e.file.size) && |e.file.path| < PATH
  {
    var r := bytes[at..at + n];
    var name: nat := r[32];
    var extension := 33 + name + (if name % 2 == 1 then 0 else 1);
    if name == 0 || extension > n || (cdi && n - extension < 8) || r[1] != 0 then Bad
    else if name == 1 && r[33] <= 1 then Skip(at + n)
    else
      var lba, size := Be32(r, 6), Be32(r, 14);
      var directory := if cdi then r[extension + 2] >= 0x80 else (r[25] / 2) % 2 == 1;
      if !ValidExtent(d, lba, size) || (!cdi && r[25] >= 0x80) || r[26] != 0 || r[27] != 0 then Bad
      else if |prefix| + name >= PATH || !(forall i :: 33 <= i < 33 + name ==> NameChar(r[i])) then Bad
      else
        var path := prefix + r[33..33 + name];
        if !directory then Plain(File(path, lba, size), at + n)
        else if |path| + 1 >= PATH then Bad
        else Subdirectory(File(path + [0x2F], lba, size), at + n)
  }

  function ParseRecord(d: Disc, cdi: bool, bytes: seq<byte>, at: nat, prefix: seq<byte>): (e: Entry)
    requires at < |bytes|
    ensures !e.Bad? ==> at < e.next <= |bytes|
    ensures e.Plain? || e.Subdirectory? ==> ValidExtent(d, e.file.lba, e.file.size) && |e.file.path| < PATH
  {
    var n: nat := bytes[at];
    if n == 0 then
      var next := at + DATA - at % DATA;
      Skip(if next < |bytes| then next else |bytes|)
    else if n < 34 || n > |bytes| - at || n > DATA - at % DATA then Bad
    else ParseNamed(d, cdi, bytes, at, n, prefix)
  }

  // ----- the walk -----

  /** The bytes of a directory, sector by sector. */
  function ReadDirectory(d: Disc, lba: nat, size: nat): (r: Option<seq<byte>>)
    ensures r.Some? ==> |r.value| == size
    decreases size
  {
    if size == 0 then Some([])
    else
      var last := (size - 1) / DATA;
      var count := size - last * DATA;
      match ReadDirectory(d, lba, last * DATA)
      case None => None
      case Some(head) =>
        match Fetch(d, lba + last)
        case None => None
        case Some(sector) => Some(head + sector[..count])
  }

  /** Walk one directory: (success, what has been seen). */
  function WalkDirectory(d: Disc, cdi: bool, w: Walk, lba: nat, size: nat, prefix: seq<byte>, depth: nat)
    : (r: (bool, Walk))
    requires |w.directories| <= DIRECTORIES
    ensures Grows(w, r.1)
    decreases DIRECTORIES - |w.directories|, 0, 0
  {
    if size == 0 || size > LARGEST || depth > 16 || !ValidExtent(d, lba, size)
       || |w.directories| >= DIRECTORIES || lba in w.directories
    then (false, w)
    else
      var entered := w.(directories := w.directories + [lba]);
      if !d.memory(|w.directories|) then (false, entered)
      else
        match ReadDirectory(d, lba, size)
        case None => (false, entered)
        case Some(bytes) => WalkRecords(d, cdi, entered, bytes, 0, prefix, depth)
  }

  function WalkRecords(d: Disc, cdi: bool, w: Walk, bytes: seq<byte>, at: nat, prefix: seq<byte>, depth: nat)
    : (r: (bool, Walk))
    requires |w.directories| <= DIRECTORIES
    ensures Grows(w, r.1)
    decreases DIRECTORIES - |w.directories|, 1, |bytes| - at
  {
    if at >= |bytes| then (true, w)
    else
      match ParseRecord(d, cdi, bytes, at, prefix)
      case Bad => (false, w)
      case Skip(next) => WalkRecords(d, cdi, w, bytes, next, prefix, depth)
      case Plain(file, next) => WalkRecords(d, cdi, w.(files := w.files + [file]), bytes, next, prefix, depth)
      case Subdirectory(file, next) =>
        var sub := WalkDirectory(d, cdi, w, file.lba, file.size, file.path, depth + 1);
        if !sub.0 then sub else WalkRecords(d, cdi, sub.1, bytes, next, prefix, depth)
  }

  /** Nothing seen is forgotten, and at most 256 directories are entered. */
  predicate Grows(w: Walk, r: Walk) {
    w.files <= r.files && w.directories <= r.directories && |r.directories| <= DIRECTORIES
  }

  // ----- what every walk keeps -----

  predicate Listed(d: Disc, w: Walk) {
    && Distinct(w.directories)
    && (forall i :: 0 <= i < |w.directories| ==> w.directories[i] < d.sectors)
    && (forall i :: 0 <= i < |w.files| ==> ValidExtent(d, w.files[i].lba, w.files[i].size) && |w.files[i].path| < PATH)
  }

  /** However the directories refer to each other, none is entered twice, and every file
      listed fits the disc. */
  lemma {:induction false} WalkKeeps(d: Disc, cdi: bool, w: Walk, lba: nat, size: nat, prefix: seq<byte>, depth: nat)
    requires |w.directories| <= DIRECTORIES && Listed(d, w)
    ensures Listed(d, WalkDirectory(d, cdi, w, lba, size, prefix, depth).1)
    decreases DIRECTORIES - |w.directories|, 0, 0
  {
    hide ParseRecord, Grows;
    if !(size == 0 || size > LARGEST || depth > 16 || !ValidExtent(d, lba, size)
         || |w.directories| >= DIRECTORIES || lba in w.directories) {
      var entered := w.(directories := w.directories + [lba]);
      if d.memory(|w.directories|) && ReadDirectory(d, lba, size).Some? {
        RecordsKeep(d, cdi, entered, ReadDirectory(d, lba, size).value, 0, prefix, depth);
      }
    }
  }

  lemma {:induction false} RecordsKeep(d: Disc, cdi: bool, w: Walk, bytes: seq<byte>, at: nat,
                                       prefix: seq<byte>, depth: nat)
    requires |w.directories| <= DIRECTORIES && Listed(d, w)
    ensures Listed(d, WalkRecords(d, cdi, w, bytes, at, prefix, depth).1)
    decreases DIRECTORIES - |w.directories|, 1, |bytes| - at
  {
    hide ValidExtent;
    if at < |bytes| {
      match ParseRecord(d, cdi, bytes, at, prefix)
      case Bad =>
      case Skip(next) => RecordsKeep(d, cdi, w, bytes, next, prefix, depth);
      case Plain(file, next) => RecordsKeep(d, cdi, w.(files := w.files + [file]), bytes, next, prefix, depth);
      case Subdirectory(file, next) =>
        WalkKeeps(d, cdi, w, file.lba, file.size, file.path, depth + 1);
        var sub := WalkDirectory(d, cdi, w, file.lba, file.size, file.path, depth + 1);
        if sub.0 { RecordsKeep(d, cdi, sub.1, bytes, next, prefix, depth); }
    }
  }

  // ----- the count fits a C int -----

  /** Every listed file has its own record of at least 34 bytes in an entered directory. */
  lemma {:induction false} WalkBudget(d: Disc, cdi: bool, w: Walk, lba: nat, size: nat, prefix: seq<byte>, depth: nat)
    requires |w.directories| <= DIRECTORIES
    ensures var r := WalkDirectory(d, cdi, w, lba, size, prefix, depth).1;
      34 * (|r.files| - |w.files|) <= LARGEST * (|r.directories| - |w.directories|)
    decreases DIRECTORIES - |w.directories|, 0, 0
  {
    hide ParseRecord;
    if !(size == 0 || size > LARGEST || depth > 16 || !ValidExtent(d, lba, size)
         || |w.directories| >= DIRECTORIES || lba in w.directories) {
      var entered := w.(directories := w.directories + [lba]);
      if d.memory(|w.directories|) && ReadDirectory(d, lba, size).Some? {
        RecordsBudget(d, cdi, entered, ReadDirectory(d, lba, size).value, 0, prefix, depth);
      }
    }
  }

  lemma {:induction false} RecordsBudget(d: Disc, cdi: bool, w: Walk, bytes: seq<byte>, at: nat,
                                         prefix: seq<byte>, depth: nat)
    requires |w.directories| <= DIRECTORIES && at <= |bytes|
    ensures var r := WalkRecords(d, cdi, w, bytes, at, prefix, depth).1;
      34 * (|r.files| - |w.files|) <= |bytes| - at + LARGEST * (|r.directories| - |w.directories|)
    decreases DIRECTORIES - |w.directories|, 1, |bytes| - at
  {
    hide ValidExtent, ParseRecord, WalkDirectory, Be32, ParseNamed, ReadDirectory;
    if at < |bytes| {
      PlainIsLong(d, cdi, bytes, at, prefix);
      match ParseRecord(d, cdi, bytes, at, prefix)
      case Bad =>
      case Skip(next) => RecordsBudget(d, cdi, w, bytes, next, prefix, depth);
      case Plain(file, next) => RecordsBudget(d, cdi, w.(files := w.files + [file]), bytes, next, prefix, depth);
      case Subdirectory(file, next) =>
        WalkBudget(d, cdi, w, file.lba, file.size, file.path, depth + 1);
        var sub := WalkDirectory(d, cdi, w, file.lba, file.size, file.path, depth + 1);
        if sub.0 { RecordsBudget(d, cdi, sub.1, bytes, next, prefix, depth); }
    }
  }

  lemma PlainIsLong(d: Disc, cdi: bool, bytes: seq<byte>, at: nat, prefix: seq<byte>)
    requires at < |bytes|
    ensures var e := ParseRecord(d, cdi, bytes, at, prefix); e.Plain? ==> e.next >= at + 34
  {}

  // ----- finding the root -----

  datatype Root = Root(cdi: bool, lba: nat, size: nat)

  /** CD-i discs name the root in the path table, ISO 9660 discs in the descriptor. */
  function FindRoot(d: Disc): Option<Root> {
    match Fetch(d, 16)
    case None => None
    case Some(v) =>
      if v[0] != 1 || v[6] != 1 then None
      else if v[1..6] == [0x43, 0x44, 0x2D, 0x49, 0x20] then
        var tableSize, table := Be32(v, 136), Be32(v, 148);
        if tableSize < 10 || !ValidExtent(d, table, tableSize) then None
        else
          match Fetch(d, table)
          case None => None
          case Some(t) =>
            if t[0] != 1 || t[1] != 0 || t[6] != 0 || t[7] != 1 || t[8] != 0 then None
            else CdiRoot(d, Be32(t, 2))
      else if v[1..6] == [0x43, 0x44, 0x30, 0x30, 0x31] then
        if v[156] < 34 || v[157] != 0 then None else Some(Root(false, Be32(v, 162), Be32(v, 170)))
      else None
  }

  function CdiRoot(d: Disc, lba: nat): Option<Root> {
    match Fetch(d, lba)
    case None => None
    case Some(r) =>
      if r[0] < 34 || r[32] != 1 || r[33] != 0 || Be32(r, 6) != lba then None else Some(Root(true, lba, Be32(r, 14)))
  }

  /** Everything on the disc, if its metadata can be walked. */
  function Catalogue(d: Disc): (r: Option<Walk>) {
    match FindRoot(d)
    case None => None
    case Some(root) =>
      var (ok, w) := WalkDirectory(d, root.cdi, Walk([], []), root.lba, root.size, [], 0);
      if ok then Some(w) else None
  }

  /** Over any metadata, cyclic or not: a catalogue comes from at most 256 directories, no two
      the same, and its files all fit the disc and are few enough for a C int. */
  lemma CatalogueSound(d: Disc)
    requires Catalogue(d).Some?
    ensures var w := Catalogue(d).value;
      Listed(d, w) && |w.directories| <= DIRECTORIES && |w.files| < 0x8000_0000
  {
    hide WalkDirectory, ValidExtent, Fetch;
    var root := FindRoot(d).value;
    WalkKeeps(d, root.cdi, Walk([], []), root.lba, root.size, [], 0);
    WalkBudget(d, root.cdi, Walk([], []), root.lba, root.size, [], 0);
  }

  // ----- the walk as the parser runs it -----

  lemma {:induction false} ReadFails(d: Disc, lba: nat, part: nat, size: nat)
    requires ReadDirectory(d, lba, part).None? && part <= size
    requires part % DATA == 0 || part == size
    ensures ReadDirectory(d, lba, size).None?
    decreases size
  {
    if part < size { ReadFails(d, lba, part, (size - 1) / DATA * DATA); }
  }

  lemma ReadNothing(d: Disc, lba: nat)
    ensures ReadDirectory(d, lba, 0) == Some([])
  {}

  lemma ReadNext(d: Disc, lba: nat, offset: nat, count: nat)
    requires offset % DATA == 0 && 0 < count <= DATA
    ensures ReadDirectory(d, lba, offset).Some? ==>
      && var sector := Fetch(d, lba + offset / DATA);
      && ReadDirectory(d, lba, offset + count)
         == if sector.None? then None else Some(ReadDirectory(d, lba, offset).value + sector.value[..count])
    ensures count == DATA ==> (offset + count) % DATA == 0
  {
    hide Fetch;
    var q := offset / DATA;
    assert (offset + count - 1) / DATA == q;
  }

  method Load(d: Disc, lba: nat, size: nat) returns (r: Option<seq<byte>>)
    ensures r == ReadDirectory(d, lba, size)
  {
    hide ReadDirectory, Fetch;
    ReadNothing(d, lba);
    var offset, bytes: seq<byte> := 0, [];
    while offset < size
      invariant offset <= size && (offset % DATA == 0 || offset == size)
      invariant ReadDirectory(d, lba, offset) == Some(bytes)
    {
      var sector := Fetch(d, lba + offset / DATA);
      var count := if size - offset > DATA then DATA else size - offset;
      ReadNext(d, lba, offset, count);
      if sector.None? {
        ReadFails(d, lba, offset + count, size);
        return None;
      }
      bytes := bytes + sector.value[..count];
      offset := offset + count;
    }
    return Some(bytes);
  }

  class DirectoryWalk {
    const disc: Disc
    const cdi: bool
    const out: array?<File>
    const capacity: nat
    var count: nat
    const directories: array<nat>
    var directoryCount: nat
    /** Everything met, whether or not the caller's buffer had room for it. */
    ghost var seen: Walk

    ghost predicate Valid()
      reads this, out, directories
    {
      && directories.Length == DIRECTORIES && directoryCount <= DIRECTORIES
      && directories[..directoryCount] == seen.directories
      && count == |seen.files|
      && (out != null ==> capacity <= out.Length) && (out == null ==> capacity == 0)
      && (forall i :: 0 <= i < count && i < capacity ==> out[i] == seen.files[i])
    }

    constructor (disc: Disc, cdi: bool, out: array?<File>, capacity: nat)
      requires if out == null then capacity == 0 else capacity <= out.Length
      ensures Valid() && seen == Walk([], []) && fresh(directories)
      ensures this.disc == disc && this.cdi == cdi && this.out == out && this.capacity == capacity
    {
      this.disc, this.cdi, this.out, this.capacity, count := disc, cdi, out, capacity, 0;
      directories, directoryCount, seen := new nat[DIRECTORIES], 0, Walk([], []);
    }

    method Entered(lba: nat) returns (found: bool)
      requires Valid()
      ensures found <==> lba in seen.directories
    {
      var i := 0;
      while i < directoryCount
        invariant i <= directoryCount && lba !in seen.directories[..i]
      {
        assert seen.directories[i] == directories[i];
        if directories[i] == lba { return true; }
        assert seen.directories[..i + 1] == seen.directories[..i] + [directories[i]];
        i := i + 1;
      }
      assert seen.directories[..i] == seen.directories;
      return false;
    }

    method Enter(lba: nat)
      requires Valid() && directoryCount < DIRECTORIES
      modifies this`directoryCount, this`seen, directories
      ensures Valid() && directoryCount == old(directoryCount) + 1
      ensures seen == old(seen).(directories := old(seen).directories + [lba])
    {
      directories[directoryCount] := lba;
      directoryCount := directoryCount + 1;
      seen := seen.(directories := seen.directories + [lba]);
    }

    method Emit(file: File)
      requires Valid()
      modifies this, out
      ensures Valid() && seen == old(seen).(files := old(seen).files + [file])
      ensures directoryCount == old(directoryCount)
      ensures out != null ==> forall i :: capacity <= i < out.Length ==> out[i] == old(out[i])
    {
      if count < capacity { out[count] := file; }
      count := count + 1;
      seen := seen.(files := seen.files + [file]);
    }

    /** walk_directory: the same walk whatever the capacity; only what is kept differs. */
    method Visit(lba: nat, size: nat, prefix: seq<byte>, depth: nat) returns (ok: bool)
      requires Valid()
      modifies this, out, directories
      ensures Valid() && (ok, seen) == WalkDirectory(disc, cdi, old(seen), lba, size, prefix, depth)
      ensures directoryCount >= old(directoryCount)
      ensures out != null ==> forall i :: capacity <= i < out.Length ==> out[i] == old(out[i])
      decreases DIRECTORIES - directoryCount
    {
      hide ValidExtent, ParseRecord, ReadDirectory, Grows, Be32, Fetch, ParseNamed;
      ok := false;
      if size == 0 || size > LARGEST || depth > 16 || !ValidExtent(disc, lba, size) || directoryCount >= DIRECTORIES {
        return;
      }
      var again := Entered(lba);
      if again { return; }
      Enter(lba);
      if !disc.memory(directoryCount - 1) { return; }
      var loaded := Load(disc, lba, size);
      if loaded.None? { return; }
      var bytes := loaded.value;
      ghost var entered := seen;
      var offset := 0;
      ok := true;
      while ok && offset < |bytes|
        invariant Valid() && directoryCount > old(directoryCount)
        invariant WalkRecords(disc, cdi, entered, bytes, 0, prefix, depth)
               == if ok then WalkRecords(disc, cdi, seen, bytes, offset, prefix, depth) else (false, seen)
        invariant out != null ==> forall i :: capacity <= i < out.Length ==> out[i] == old(out[i])
        decreases ok, |bytes| - offset
      {
        match ParseRecord(disc, cdi, bytes, offset, prefix)
        case Bad => ok := false;
        case Skip(next) => offset := next;
        case Plain(file, next) =>
          Emit(file);
          offset := next;
        case Subdirectory(file, next) =>
          ok := Visit(file.lba, file.size, file.path, depth + 1);
          offset := next;
      }
    }
  }

  /** cdi_list_files: -1, or the number of files on the disc with as many as fit in `out`. */
  method ListFiles(d: Disc, out: array?<File>, max: int) returns (count: int)
    requires out != null ==> max <= out.Length
    modifies out
    ensures count == -1 <==> max < 0 || (max > 0 && out == null) || Catalogue(d).None?
    ensures count != -1 ==>
      && count == |Catalogue(d).value.files|
      && forall i :: 0 <= i < count && i < max ==> out[i] == Catalogue(d).value.files[i]
    ensures out != null && max >= 0 ==> forall i :: max <= i < out.Length ==> out[i] == old(out[i])
  {
    hide WalkDirectory, FindRoot;
    if max < 0 || (max > 0 && out == null) { return -1; }
    var root := FindRoot(d);
    if root.None? { return -1; }
    var walk := new DirectoryWalk(d, root.value.cdi, out, max);
    var ok := walk.Visit(root.value.lba, root.value.size, [], 0);
    return if ok then walk.count else -1;
  }

  /** Two walks of the same disc that both succeed see the same, whichever buffers each of them was
      refused or not. */
  lemma {:induction false} WalksAgree(d: Disc, e: Disc, cdi: bool, w: Walk, lba: nat, size: nat,
                                      prefix: seq<byte>, depth: nat)
    requires e == d.(memory := e.memory) && |w.directories| <= DIRECTORIES
    requires WalkDirectory(d, cdi, w, lba, size, prefix, depth).0
    requires WalkDirectory(e, cdi, w, lba, size, prefix, depth).0
    ensures WalkDirectory(d, cdi, w, lba, size, prefix, depth) == WalkDirectory(e, cdi, w, lba, size, prefix, depth)
    decreases DIRECTORIES - |w.directories|, 0, 0
  {
    hide ParseRecord, Grows;
    ReadsAgree(d, e, lba, size);
    var entered := w.(directories := w.directories + [lba]);
    RecordsAgree(d, e, cdi, entered, ReadDirectory(d, lba, size).value, 0, prefix, depth);
  }

  lemma {:induction false} ReadsAgree(d: Disc, e: Disc, lba: nat, size: nat)
    requires e == d.(memory := e.memory)
    ensures ReadDirectory(d, lba, size) == ReadDirectory(e, lba, size)
    decreases size
  {
    if size > 0 { ReadsAgree(d, e, lba, (size - 1) / DATA * DATA); }
  }

  lemma ParseAgrees(d: Disc, e: Disc, cdi: bool, bytes: seq<byte>, at: nat, prefix: seq<byte>)
    requires e == d.(memory := e.memory) && at < |bytes|
    ensures ParseRecord(d, cdi, bytes, at, prefix) == ParseRecord(e, cdi, bytes, at, prefix)
  {
    hide Be32;
  }

  lemma {:induction false} RecordsAgree(d: Disc, e: Disc, cdi: bool, w: Walk, bytes: seq<byte>, at: nat,
                                        prefix: seq<byte>, depth: nat)
    requires e == d.(memory := e.memory) && |w.directories| <= DIRECTORIES
    requires WalkRecords(d, cdi, w, bytes, at, prefix, depth).0 && WalkRecords(e, cdi, w, bytes, at, prefix, depth).0
    ensures WalkRecords(d, cdi, w, bytes, at, prefix, depth) == WalkRecords(e, cdi, w, bytes, at, prefix, depth)
    decreases DIRECTORIES - |w.directories|, 1, |bytes| - at
  {
    hide ValidExtent, ParseRecord, WalkDirectory;
    if at < |bytes| {
      ParseAgrees(d, e, cdi, bytes, at, prefix);
      match ParseRecord(d, cdi, bytes, at, prefix)
      case Skip(next) => RecordsAgree(d, e, cdi, w, bytes, next, prefix, depth);
      case Plain(file, next) => RecordsAgree(d, e, cdi, w.(files := w.files + [file]), bytes, next, prefix, depth);
      case Subdirectory(file, next) =>
        WalksAgree(d, e, cdi, w, file.lba, file.size, file.path, depth + 1);
        var sub := WalkDirectory(d, cdi, w, file.lba, file.size, file.path, depth + 1);
        RecordsAgree(d, e, cdi, sub.1, bytes, next, prefix, depth);
    }
  }

  lemma CataloguesAgree(d: Disc, e: Disc)
    requires e == d.(memory := e.memory) && Catalogue(d).Some? && Catalogue(e).Some?
    ensures Catalogue(d) == Catalogue(e)
  {
    hide WalkDirectory, ValidExtent, Fetch;
    RootsAgree(d, e);
    var root := FindRoot(d).value;
    WalksAgree(d, e, root.cdi, Walk([], []), root.lba, root.size, [], 0);
  }

  lemma RootsAgree(d: Disc, e: Disc)
    requires e == d.(memory := e.memory)
    ensures FindRoot(d) == FindRoot(e)
  {
    hide Be32;
  }

  /** The two passes of cdi_scan_os9_modules: the buffer sized by the count-only pass is filled
      exactly by the second. Memory may be refused to either pass and to the buffer itself, but
      passes that succeed never disagree. */
  method ListAll(d: Disc, memory: nat -> bool, granted: nat -> bool) returns (ok: bool, entries: seq<File>)
    ensures ok <==> Catalogue(d).Some? && granted(|Catalogue(d).value.files|) && Catalogue(d.(memory := memory)).Some?
    ensures ok ==> entries == Catalogue(d).value.files
  {
    hide Catalogue;
    var files := ListFiles(d, null, 0);
    if files < 0 || !granted(files) { return false, []; }
    var buffer := new File[files](_ => File([], 0, 0));
    var again := ListFiles(d.(memory := memory), buffer, files);
    if Catalogue(d.(memory := memory)).Some? { CataloguesAgree(d, d.(memory := memory)); }
    if again != files { return false, []; }
    return true, buffer[..];
  }
}
