/** Shared ownership of raster rows and frames in runner/src/cdi_raster_jobs.c. Allocated
    objects are cells of two growing tables; a freed cell stays behind as Freed, so a use
    after free would be visible. */
module RasterOwnership {
  import opened RasterSpans

  const MAX_HEIGHT := 560
  const NULL := -1

  datatype Row = Row(refs: nat, identity: nat, spans: seq<Span>) | FreedRow

  /** The row pointers of a frame; those from `height` on are null. */
  datatype Frame = Frame(refs: nat, width: nat, height: nat, generation: nat, epoch: nat, rows: seq<int>) | FreedFrame

  // ----- counting owners -----

  /** References a frame holds to a row. A frame on its way out (count zero) holds none. */
  function Holds(f: Frame, id: int): nat {
    if f.Frame? && f.refs > 0 then multiset(f.rows)[id] else 0
  }

  function HoldSum(frames: seq<Frame>, id: int): nat {
    if frames == [] then 0 else HoldSum(frames[..|frames| - 1], id) + Holds(frames[|frames| - 1], id)
  }

  lemma {:induction false} HoldSumUpdate(frames: seq<Frame>, i: nat, f: Frame, id: int)
    requires i < |frames|
    ensures HoldSum(frames[i := f], id) == HoldSum(frames, id) - Holds(frames[i], id) + Holds(f, id)
  {
    var n := |frames| - 1;
    if i == n {
      assert frames[i := f][..n] == frames[..n];
    } else {
      HoldSumUpdate(frames[..n], i, f, id);
      assert frames[i := f][..n] == frames[..n][i := f];
    }
  }

  lemma HoldSumAppend(frames: seq<Frame>, f: Frame, id: int)
    ensures HoldSum(frames + [f], id) == HoldSum(frames, id) + Holds(f, id)
  {
    assert (frames + [f])[..|frames|] == frames;
  }

  lemma {:induction false} HoldsCount(frames: seq<Frame>, f: nat, id: int)
    requires f < |frames|
    ensures HoldSum(frames, id) >= Holds(frames[f], id)
  {
    if f < |frames| - 1 { HoldsCount(frames[..|frames| - 1], f, id); }
  }

  lemma {:induction false} SomeHolder(frames: seq<Frame>, id: int)
    requires HoldSum(frames, id) > 0
    ensures exists f :: 0 <= f < |frames| && frames[f].Frame? && id in frames[f].rows
  {
    var n := |frames| - 1;
    if Holds(frames[n], id) > 0 {
      assert id in frames[n].rows;
    } else {
      SomeHolder(frames[..n], id);
      var f :| 0 <= f < n && frames[..n][f].Frame? && id in frames[..n][f].rows;
      assert frames[f] == frames[..n][f];
    }
  }

  /** Working slot, live frames, and references in the hands of running code. */
  function Owners(working: seq<int>, frames: seq<Frame>, loose: multiset<int>, id: int): nat {
    multiset(working)[id] + HoldSum(frames, id) + loose[id]
  }

  /** A row's count is the number of its owners; without owners it is gone. */
  ghost predicate RowsCounted(rows: seq<Row>, working: seq<int>, frames: seq<Frame>, loose: multiset<int>) {
    forall id :: 0 <= id < |rows| ==>
      && Owners(working, frames, loose, id) == (if rows[id].Row? then rows[id].refs else 0)
      && (rows[id].Row? ==> rows[id].refs > 0)
  }

  function FrameOwners(published: int, acquired: multiset<int>, loose: multiset<int>, f: int): nat {
    (if published == f then 1 else 0) + acquired[f] + loose[f]
  }

  /** The same for frames; a frame being dropped may be seen with count zero. */
  ghost predicate FramesCounted(frames: seq<Frame>, published: int, acquired: multiset<int>, loose: multiset<int>) {
    forall f :: 0 <= f < |frames| ==>
      FrameOwners(published, acquired, loose, f) == (if frames[f].Frame? then frames[f].refs else 0)
      && (frames[f].Frame? ==> frames[f].refs > 0)
  }

  /** A picture size the display has. */
  predicate Displayable(w: nat, h: nat) { 0 < w <= MAX_WIDTH && 0 < h <= MAX_HEIGHT }

  predicate Pointers(s: seq<int>, n: nat) { forall y :: 0 <= y < |s| ==> NULL <= s[y] < n }

  /** Every live frame has its rows, all of them real. */
  ghost predicate Complete(frames: seq<Frame>, rows: nat) {
    forall f :: 0 <= f < |frames| && frames[f].Frame? ==>
      && 0 < frames[f].height <= |frames[f].rows| == MAX_HEIGHT
      && Pointers(frames[f].rows, rows)
      && forall y :: 0 <= y < MAX_HEIGHT ==> (frames[f].rows[y] != NULL <==> y < frames[f].height)
  }

  /** Objects never change under their owners: a cell keeps everything but its count, or is
      freed for good. */
  ghost predicate RowsKept(a: seq<Row>, b: seq<Row>) {
    |a| <= |b| && forall i :: 0 <= i < |a| ==>
      if a[i].FreedRow? then b[i].FreedRow? else b[i].FreedRow? || b[i] == a[i].(refs := b[i].refs)
  }

  ghost predicate FramesKept(a: seq<Frame>, b: seq<Frame>) {
    |a| <= |b| && forall i :: 0 <= i < |a| ==>
      if a[i].FreedFrame? then b[i].FreedFrame? else b[i].FreedFrame? || b[i] == a[i].(refs := b[i].refs)
  }

  /** A row that is still there stays inside a picture of this width. */
  ghost predicate RowFits(rows: seq<Row>, id: int, width: nat) {
    0 <= id < |rows| && rows[id].Row? ==> Bounded(rows[id].spans, width)
  }

  ghost predicate SlotsFit(rows: seq<Row>, working: seq<int>, width: nat) {
    forall y :: 0 <= y < |working| ==> RowFits(rows, working[y], width)
  }

  ghost predicate FramesFit(rows: seq<Row>, frames: seq<Frame>) {
    forall f :: 0 <= f < |frames| && frames[f].Frame? ==> SlotsFit(rows, frames[f].rows, frames[f].width)
  }

  lemma SlotsStillFit(rows: seq<Row>, rows': seq<Row>, working: seq<int>, width: nat)
    requires RowsKept(rows, rows') && Pointers(working, |rows|) && SlotsFit(rows, working, width)
    ensures SlotsFit(rows', working, width)
  {
    hide Bounded;
    forall y | 0 <= y < |working| ensures RowFits(rows', working[y], width) {
      assert RowFits(rows, working[y], width);
    }
  }

  lemma FramesStillFit(rows: seq<Row>, rows': seq<Row>, frames: seq<Frame>, frames': seq<Frame>)
    requires RowsKept(rows, rows') && FramesKept(frames, frames') && |frames'| == |frames|
    requires Complete(frames, |rows|) && FramesFit(rows, frames)
    ensures FramesFit(rows', frames')
  {
    hide RowsKept, SlotsFit;
    forall f | 0 <= f < |frames'| && frames'[f].Frame? ensures SlotsFit(rows', frames'[f].rows, frames'[f].width) {
      SlotsStillFit(rows, rows', frames[f].rows, frames[f].width);
    }
  }

  /** A fitting row put into a slot. */
  lemma ReplacedFits(rows: seq<Row>, rows': seq<Row>, working: seq<int>, y: nat, frames: seq<Frame>, width: nat)
    requires RowsKept(rows, rows') && Pointers(working, |rows|) && Complete(frames, |rows|) && y < |working|
    requires SlotsFit(rows, working, width) && FramesFit(rows, frames)
    requires |rows'| == |rows| + 1 && rows'[|rows|].Row? && Bounded(rows'[|rows|].spans, width)
    ensures SlotsFit(rows', working[y := |rows|], width) && FramesFit(rows', frames)
  {
    hide Bounded, FramesFit, Complete;
    SlotsStillFit(rows, rows', working, width);
    FramesStillFit(rows, rows', frames, frames);
  }

  /** A frame made of fitting slots fits. */
  lemma InstalledFits(rows: seq<Row>, kept: seq<Row>, rows': seq<Row>, working: seq<int>,
                      frames: seq<Frame>, frame: Frame, frames': seq<Frame>, h: nat)
    requires RowsKept(rows, kept) && RowsKept(kept, rows') && |kept| == |rows| && Complete(frames, |rows|)
    requires Complete(frames + [frame], |rows|) && Pointers(working, |rows|)
    requires frame.Frame? && h <= |working| && h <= MAX_HEIGHT
    requires frame.rows == working[..h] + seq(MAX_HEIGHT - h, _ => NULL)
    requires SlotsFit(rows, working, frame.width) && FramesFit(rows, frames)
    requires FramesKept(frames + [frame], frames') && |frames'| == |frames| + 1
    ensures FramesFit(rows', frames') && SlotsFit(rows', working, frame.width)
  {
    hide Bounded;
    assert SlotsFit(rows, frame.rows, frame.width) by {
      forall y | 0 <= y < |frame.rows| ensures RowFits(rows, frame.rows[y], frame.width) {
        if y < h { assert RowFits(rows, working[y], frame.width); }
      }
    }
    KeptTrans(rows, kept, rows');
    FramesStillFit(rows, rows', frames + [frame], frames');
    SlotsStillFit(rows, rows', working, frame.width);
  }

  lemma NoSlotsFit(rows: seq<Row>, working: seq<int>, width: nat)
    requires forall y :: 0 <= y < |working| ==> working[y] == NULL
    ensures SlotsFit(rows, working, width)
  {}

  /** Taking a frame's count down moves its row references, if it was the last, into loose
      hands. */
  lemma CountDown(rows: seq<Row>, working: seq<int>, frames: seq<Frame>, f: nat)
    requires f < |frames| && frames[f].Frame? && frames[f].refs > 0
    requires RowsCounted(rows, working, frames, multiset{})
    ensures var frame := frames[f];
      RowsCounted(rows, working, frames[f := frame.(refs := frame.refs - 1)],
                  if frame.refs == 1 then multiset(frame.rows) else multiset{})
  {
    hide HoldSum;
    var frame := frames[f];
    forall id ensures HoldSum(frames[f := frame.(refs := frame.refs - 1)], id)
        + (if frame.refs == 1 then multiset(frame.rows)[id] else 0) == HoldSum(frames, id) {
      HoldSumUpdate(frames, f, frame.(refs := frame.refs - 1), id);
    }
  }

  lemma Forget(rows: seq<Row>, working: seq<int>, frames: seq<Frame>, f: nat)
    requires f < |frames| && frames[f].Frame? && frames[f].refs == 0
    requires RowsCounted(rows, working, frames, multiset{})
    ensures RowsCounted(rows, working, frames[f := FreedFrame], multiset{})
  {
    hide HoldSum;
    forall id ensures HoldSum(frames[f := FreedFrame], id) == HoldSum(frames, id) {
      HoldSumUpdate(frames, f, FreedFrame, id);
    }
  }

  class Raster {
    var enabled: bool
    var currentRow: nat
    var width: nat
    var height: nat
    var pending: seq<Span>
    var identity: nat
    var epoch: nat
    var working: seq<int>
    var published: int
    var rows: seq<Row>
    var frames: seq<Frame>
    ghost var acquired: multiset<int>

    /** Everything but the counts. */
    ghost predicate Shape()
      reads this
    {
      && |working| == MAX_HEIGHT && Pointers(working, |rows|)
      && NULL <= published < |frames| && Complete(frames, |rows|)
      && forall f :: f in acquired ==> 0 <= f < |frames|
    }

    ghost predicate Valid()
      reads this
    {
      && Shape()
      && RowsCounted(rows, working, frames, multiset{})
      && FramesCounted(frames, published, acquired, multiset{})
    }

    /** Every stored span stays inside the picture it was drawn for. */
    ghost predicate Fits()
      reads this
    {
      Bounded(pending, width) && SlotsFit(rows, working, width) && FramesFit(rows, frames)
    }

    /** A frame somebody owns is alive, and so is every row it shows. */
    lemma OwnedFrameIntact(f: int)
      requires Valid() && 0 <= f < |frames| && (published == f || f in acquired)
      ensures frames[f].Frame? && |frames[f].rows| == MAX_HEIGHT >= frames[f].height
      ensures forall y :: 0 <= y < frames[f].height ==> 0 <= frames[f].rows[y] < |rows| && rows[frames[f].rows[y]].Row?
    {
      assert FrameOwners(published, acquired, multiset{}, f) > 0;
      forall y | 0 <= y < frames[f].height ensures 0 <= frames[f].rows[y] < |rows| && rows[frames[f].rows[y]].Row? {
        var id := frames[f].rows[y];
        assert multiset(frames[f].rows)[id] > 0;
        HoldsCount(frames, f, id);
        assert Owners(working, frames, multiset{}, id) > 0;
      }
    }

    /** Nothing leaks: a row that is still allocated is in a working slot or in a live frame. */
    lemma LiveRowOwned(id: nat)
      requires Valid() && id < |rows| && rows[id].Row?
      ensures id in working || exists f :: 0 <= f < |frames| && frames[f].Frame? && id in frames[f].rows
    {
      assert Owners(working, frames, multiset{}, id) > 0;
      if id !in working { SomeHolder(frames, id); }
    }

    /** And a frame that is still allocated is published or held. */
    lemma LiveFrameOwned(f: nat)
      requires Valid() && f < |frames| && frames[f].Frame?
      ensures published == f || f in acquired
    {
      assert FrameOwners(published, acquired, multiset{}, f) > 0;
    }

    constructor ()
      ensures Valid() && Fits() && !enabled && published == NULL && acquired == multiset{}
    {
      enabled := false;
      currentRow, width, height := 0, 0, 0;
      pending := [];
      identity, epoch := 0, 0;
      working := seq(MAX_HEIGHT, _ => NULL);
      published := NULL;
      rows := [];
      frames := [];
      acquired := multiset{};
    }

    /** release_row: give up one of the loose references. */
    method ReleaseRow(id: int, ghost loose: multiset<int>)
      requires NULL <= id < |rows| && RowsCounted(rows, working, frames, loose) && (id != NULL ==> loose[id] > 0)
      modifies this`rows
      ensures RowsCounted(rows, working, frames, loose - multiset{id})
      ensures RowsKept(old(rows), rows) && |rows| == |old(rows)|
      ensures forall i :: 0 <= i < |rows| && i != id ==> rows[i] == old(rows)[i]
    {
      hide HoldSum;
      if id != NULL {
        var row := rows[id];
        rows := rows[id := if row.refs == 1 then FreedRow else row.(refs := row.refs - 1)];
      }
    }

    /** Every row reference of a frame, one after another. */
    method ReleaseRows(list: seq<int>, n: nat)
      requires n <= |list| && Pointers(list, |rows|) && (forall y :: n <= y < |list| ==> list[y] == NULL)
      requires RowsCounted(rows, working, frames, multiset(list))
      modifies this`rows
      ensures RowsCounted(rows, working, frames, multiset{})
      ensures RowsKept(old(rows), rows) && |rows| == |old(rows)|
    {
      hide HoldSum, RowsCounted, RowsKept;
      assert list[0..] == list;
      KeptSelf(rows);
      var y := 0;
      while y < n
        invariant 0 <= y <= n && |rows| == |old(rows)| && RowsKept(old(rows), rows)
        invariant RowsCounted(rows, working, frames, multiset(list[y..]))
      {
        assert list[y..] == [list[y]] + list[y + 1..];
        assert multiset(list[y..]) - multiset{list[y]} == multiset(list[y + 1..]);
        ghost var before := rows;
        ReleaseRow(list[y], multiset(list[y..]));
        KeptTrans(old(rows), before, rows);
        y := y + 1;
      }
      LooseNulls(rows, working, frames, list[n..]);
    }

    /** cdi_raster_release for a reference already taken out of its owner's hands. */
    method DropFrame(f: int)
      requires Shape() && NULL <= f < |frames|
      requires RowsCounted(rows, working, frames, multiset{})
      requires FramesCounted(frames, published, acquired, multiset{f})
      modifies this`rows, this`frames
      ensures Valid() && RowsKept(old(rows), rows) && FramesKept(old(frames), frames)
      ensures |rows| == |old(rows)| && |frames| == |old(frames)|
      ensures forall i :: 0 <= i < |frames| && i != f ==> frames[i] == old(frames)[i]
    {
      hide HoldSum;
      if f == NULL { return; }
      assert FrameOwners(published, acquired, multiset{f}, f) > 0;
      var frame := frames[f];
      CountDown(rows, working, frames, f);
      frames := frames[f := frame.(refs := frame.refs - 1)];
      if frame.refs != 1 { return; }
      ReleaseRows(frame.rows, frame.height);
      Forget(rows, working, frames, f);
      frames := frames[f := FreedFrame];
    }

    /** cdi_raster_release by a holder of the frame. */
    method Release(f: int)
      requires Valid() && NULL <= f < |frames| && (f != NULL ==> acquired[f] > 0)
      modifies this`rows, this`frames, this`acquired
      ensures Valid() && acquired == old(acquired) - multiset{f}
      ensures RowsKept(old(rows), rows) && FramesKept(old(frames), frames) && (old(Fits()) ==> Fits())
    {
      hide HoldSum, RowsCounted, Complete, Pointers, SlotsFit, FramesFit;
      acquired := acquired - multiset{f};
      DropFrame(f);
      if old(Fits()) {
        FramesStillFit(old(rows), rows, old(frames), frames);
        SlotsStillFit(old(rows), rows, working, width);
      }
    }

    method ClearSlot(y: nat)
      requires Valid() && y < MAX_HEIGHT
      modifies this`rows, this`working
      ensures Valid() && working == old(working)[y := NULL]
      ensures RowsKept(old(rows), rows) && |rows| == |old(rows)|
    {
      hide HoldSum, Complete, FramesCounted;
      var id := working[y];
      working := working[y := NULL];
      assert multiset(working) == multiset(old(working)) - multiset{id} + multiset{NULL};
      ReleaseRow(id, multiset{id});
    }

    method Unpublish()
      requires Valid()
      modifies this`rows, this`frames, this`published
      ensures Valid() && published == NULL
      ensures RowsKept(old(rows), rows) && FramesKept(old(frames), frames)
      ensures |rows| == |old(rows)| && |frames| == |old(frames)|
    {
      hide HoldSum, Complete, RowsCounted, Pointers, RowsKept, FramesKept;
      var f := published;
      published := NULL;
      DropFrame(f);
    }

    method ClearSlots()
      requires Valid()
      modifies this`rows, this`working
      ensures Valid() && (forall y :: 0 <= y < MAX_HEIGHT ==> working[y] == NULL)
      ensures RowsKept(old(rows), rows) && |rows| == |old(rows)|
    {
      hide HoldSum, Complete, RowsCounted, FramesCounted, Pointers, RowsKept;
      KeptSelf(rows);
      var y := 0;
      while y < MAX_HEIGHT
        invariant 0 <= y <= MAX_HEIGHT && Valid()
        invariant forall k :: 0 <= k < y ==> working[k] == NULL
        invariant RowsKept(old(rows), rows) && |rows| == |old(rows)|
      {
        ghost var kept := rows;
        ClearSlot(y);
        KeptTrans(old(rows), kept, rows);
        y := y + 1;
      }
    }

    /** Nothing published, drawn or in any slot. */
    ghost predicate Blank()
      reads this
    {
      && published == NULL && pending == []
      && |working| == MAX_HEIGHT && forall y :: 0 <= y < MAX_HEIGHT ==> working[y] == NULL
    }

    /** cdi_raster_reset: let go of the published frame and every working row. */
    method Reset()
      requires Valid()
      modifies this`rows, this`frames, this`working, this`published, this`width, this`height, this`pending, this`epoch
      ensures Valid() && published == NULL && (forall y :: 0 <= y < MAX_HEIGHT ==> working[y] == NULL)
      ensures width == height == 0 && pending == [] && epoch == old(epoch) + 1 && |frames| == |old(frames)|
      ensures RowsKept(old(rows), rows) && FramesKept(old(frames), frames) && (old(Fits()) ==> Fits())
    {
      hide HoldSum, Complete, RowsCounted, FramesCounted, Pointers, SlotsFit, FramesFit, RowsKept;
      Unpublish();
      ghost var kept := rows;
      ClearSlots();
      KeptTrans(old(rows), kept, rows);
      width, height, pending := 0, 0, [];
      epoch := epoch + 1;
      if old(Fits()) {
        FramesStillFit(old(rows), rows, old(frames), frames);
        NoSlotsFit(rows, working, 0);
      }
    }

    /** cdi_raster_capture. */
    method Capture(value: bool) returns (changed: bool)
      requires Valid()
      modifies this`rows, this`frames, this`working, this`published, this`width, this`height, this`pending, this`epoch,
        this`enabled
      ensures Valid() && enabled == value && changed == (old(enabled) != value)
      ensures changed ==> Blank() && width == height == 0 && epoch == old(epoch) + 1
      ensures !changed ==>
        && rows == old(rows) && frames == old(frames) && working == old(working) && published == old(published)
        && width == old(width) && height == old(height) && pending == old(pending) && epoch == old(epoch)
      ensures RowsKept(old(rows), rows) && FramesKept(old(frames), frames) && (old(Fits()) ==> Fits())
    {
      hide HoldSum, Complete, RowsCounted, FramesCounted, SlotsFit, FramesFit;
      if value == enabled { return false; }
      Reset();
      enabled := value;
      return true;
    }

    /** cdi_raster_begin: a new geometry forgets the old one. */
    method Begin(row: nat, w: nat, h: nat)
      requires Valid()
      modifies this`rows, this`frames, this`working, this`published, this`width, this`height, this`pending, this`epoch,
        this`currentRow
      ensures Valid() && RowsKept(old(rows), rows) && FramesKept(old(frames), frames) && (old(Fits()) ==> Fits())
      ensures enabled ==> width == w && height == h && currentRow == row && pending == []
      ensures enabled && (old(width) != w || old(height) != h) ==> Blank() && epoch == old(epoch) + 1
      ensures !enabled || (old(width) == w && old(height) == h) ==>
        && rows == old(rows) && frames == old(frames) && working == old(working) && published == old(published)
        && width == old(width) && height == old(height) && epoch == old(epoch)
      ensures !enabled ==> currentRow == old(currentRow) && pending == old(pending)
    {
      hide HoldSum, Complete, RowsCounted, FramesCounted, SlotsFit, FramesFit;
      if !enabled { return; }
      if width != w || height != h {
        Reset();
        width, height := w, h;
        NoSlotsFit(rows, working, w);
      }
      currentRow := row;
      pending := [];
    }

    method SpanTo(first: nat, last: nat, a: nat, b: nat, control: nat)
      requires Valid()
      modifies this`pending
      ensures Valid() && (old(Fits()) ==> Fits())
      ensures pending == if enabled then Append(old(pending), Span(first, last, a, b, control), width) else old(pending)
    {
      if enabled { pending := Append(pending, Span(first, last, a, b, control), width); }
    }

    method OverlayPending(first: nat, last: nat, color: nat)
      requires Valid()
      modifies this`pending
      ensures Valid() && (old(Fits()) ==> Fits())
      ensures pending == if enabled then Overlay(old(pending), first, last, color, width) else old(pending)
    {
      OverlayBounded(pending, Band(first, Min(last, width), color), width);
      if enabled { pending := OverlaySpans(pending, first, last, color, width); }
    }

    /** The slot of the current row already shows the pending spans. */
    ghost predicate InSlot()
      reads this
    {
      && currentRow < |working| && 0 <= working[currentRow] < |rows|
      && rows[working[currentRow]].Row? && rows[working[currentRow]].spans == pending
    }

    /** There is something to store, and a row of the picture to store it in that has something
        else or nothing: memory will be asked for. */
    ghost predicate Asks()
      reads this
    {
      enabled && pending != [] && currentRow < height && currentRow < MAX_HEIGHT && !InSlot()
    }

    /** cdi_raster_finish: the pending spans become the row's working copy, unless they are
        what it already is. Running out of memory, and nothing else, turns capture off. */
    method Finish(memory: bool)
      requires Valid()
      modifies this`rows, this`frames, this`working, this`published, this`width, this`height, this`pending, this`epoch,
        this`enabled, this`identity
      ensures Valid() && RowsKept(old(rows), rows) && FramesKept(old(frames), frames) && (old(Fits()) ==> Fits())
      ensures enabled <==> old(enabled) && (old(Asks()) ==> memory)
      ensures enabled == old(enabled) ==>
        && width == old(width) && height == old(height) && epoch == old(epoch) && pending == old(pending)
        && published == old(published) && frames == old(frames)
      ensures enabled && pending != [] && currentRow < height && currentRow < MAX_HEIGHT ==> InSlot()
      ensures old(Asks()) && memory ==>
        && identity == old(identity) + 1 && working == old(working)[currentRow := |old(rows)|]
        && |rows| == |old(rows)| + 1 && rows[|old(rows)|] == Row(1, identity, old(pending))
      ensures old(Asks()) && !memory ==> Blank() && width == height == 0 && epoch == old(epoch) + 1
      ensures !old(Asks()) ==> rows == old(rows) && working == old(working)
      ensures !old(Asks()) || !memory ==> identity == old(identity)
    {
      hide HoldSum, Complete, SlotsFit, FramesFit;
      if !enabled || pending == [] || currentRow >= height || currentRow >= MAX_HEIGHT { return; }
      var id := working[currentRow];
      if id != NULL {
        assert multiset(working)[id] > 0;
        if rows[id].spans == pending { return; }
      }
      if !memory {
        var changed := Capture(false);
        return;
      }
      identity := identity + 1;
      ReplaceRow(id);
    }

    /** The new row takes the slot before the old one is released. */
    method ReplaceRow(id: int)
      requires Valid() && currentRow < MAX_HEIGHT && working[currentRow] == id
      modifies this`rows, this`working
      ensures Valid() && RowsKept(old(rows), rows) && (old(Fits()) ==> Fits())
      ensures working == old(working)[currentRow := |old(rows)|]
      ensures |rows| == |old(rows)| + 1 && rows[|old(rows)|] == Row(1, identity, pending)
    {
      hide HoldSum, Owners, FramesCounted, SlotsFit, FramesFit, Bounded;
      NobodyHolds(|rows|);
      SlotTaken(rows, working, frames, currentRow, Row(1, identity, pending));
      CompleteGrows(frames, |rows|);
      hide RowsCounted, Complete;
      rows := rows + [Row(1, identity, pending)];
      working := working[currentRow := |rows| - 1];
      ReleaseRow(id, multiset{id});
      assert multiset{id} - multiset{id} == multiset{};
      if old(Fits()) { ReplacedFits(old(rows), rows, old(working), currentRow, frames, width); }
    }

    /** A fresh row has no owner yet. */
    lemma NobodyHolds(id: nat)
      requires Shape() && id >= |rows|
      ensures multiset(working)[id] == 0 && HoldSum(frames, id) == 0
    {
      NoHolds(frames, |rows|, id);
    }
    /** cdi_raster_acquire. */
    method Acquire() returns (f: int)
      requires Valid()
      modifies this`frames, this`acquired
      ensures Valid() && f == published && FramesKept(old(frames), frames) && (old(Fits()) ==> Fits())
      ensures acquired == if f == NULL then old(acquired) else old(acquired) + multiset{f}
      ensures f != NULL ==> frames[f].Frame? && frames[f].refs >= 2
    {
      hide HoldSum, SlotsFit, FramesFit;
      f := published;
      if f != NULL {
        assert FrameOwners(published, acquired, multiset{}, f) > 0;
        ghost var before := frames;
        frames := frames[f := frames[f].(refs := frames[f].refs + 1)];
        acquired := acquired + multiset{f};
        forall id ensures HoldSum(frames, id) == HoldSum(before, id) { HoldSumUpdate(before, f, frames[f], id); }
        if old(Fits()) { FramesStillFit(rows, rows, before, frames); }
      }
    }

    /** The row in slot y shows these pixels. */
    ghost predicate Drawn(y: nat, row: seq<nat>)
      reads this
    {
      y < |working| && 0 <= working[y] < |rows| && rows[working[y]].Row? && Shows(rows[working[y]].spans, row)
    }

    lemma WorkingLive(y: nat)
      requires Valid() && y < MAX_HEIGHT && working[y] != NULL
      ensures 0 <= working[y] < |rows| && rows[working[y]].Row?
    {
      hide HoldSum, Complete;
      assert multiset(working)[working[y]] > 0;
    }

    /** A row in a slot keeps its picture while other rows come and go. */
    lemma StillDrawn(before: seq<Row>, y: nat, row: seq<nat>)
      requires Valid() && y < MAX_HEIGHT && 0 <= working[y] < |before| && before[working[y]].Row?
      requires Shows(before[working[y]].spans, row) && RowsKept(before, rows)
      ensures Drawn(y, row)
    {
      hide HoldSum, Complete, RowsCounted, FramesCounted, Shows;
      WorkingLive(y);
    }

    /** Rows of the picture that nothing has captured are made from its own pixels; the others
        are left alone. */
    method FillMissing(native: seq<seq<nat>>, memory: nat -> bool)
      requires Valid() && enabled && 0 < width <= MAX_WIDTH && 0 < height <= MAX_HEIGHT
      requires |native| == height && forall y :: 0 <= y < height ==> |native[y]| == width
      modifies this`rows, this`frames, this`working, this`published, this`width, this`height, this`pending, this`epoch,
        this`enabled, this`identity, this`currentRow
      ensures Valid() && RowsKept(old(rows), rows) && FramesKept(old(frames), frames) && (old(Fits()) ==> Fits())
      ensures enabled <==> Granted(old(working), old(height), memory)
      ensures enabled ==> width == old(width) && height == old(height)
      ensures enabled ==> published == old(published) && frames == old(frames) && epoch == old(epoch)
      ensures enabled ==> forall y :: 0 <= y < height ==>
        working[y] != NULL && if old(working)[y] == NULL then Drawn(y, native[y]) else working[y] == old(working)[y]
      ensures !enabled ==> Blank() && epoch == old(epoch) + 1
    {
      hide HoldSum, Complete, RowsCounted, FramesCounted, Pointers, Shows, SlotsFit, FramesFit;
      var h := height;
      var y := 0;
      while y < h
        invariant 0 <= y <= h == old(height) && Valid() && enabled && (old(Fits()) ==> Fits())
        invariant width == old(width) && height == h && published == old(published) && frames == old(frames)
        invariant RowsKept(old(rows), rows) && epoch == old(epoch)
        invariant forall k :: 0 <= k < y && old(working)[k] == NULL ==> memory(k)
        invariant forall k :: 0 <= k < y ==>
          working[k] != NULL && if old(working)[k] == NULL then Drawn(k, native[k]) else working[k] == old(working)[k]
        invariant forall k :: y <= k < MAX_HEIGHT ==> working[k] == old(working)[k]
      {
        if working[y] == NULL {
          currentRow := y;
          pending := Synthesize(native[y]);
          ghost var kept, slots := rows, working;
          Finish(memory(y));
          KeptTrans(old(rows), kept, rows);
          if !enabled { return; }
          forall k | 0 <= k < y && old(working)[k] == NULL ensures Drawn(k, native[k]) {
            StillDrawn(kept, k, native[k]);
          }
        }
        y := y + 1;
      }
    }

    /** Memory is there for every row that nothing has captured. */
    ghost predicate Granted(slots: seq<int>, h: nat, memory: nat -> bool) {
      forall y :: 0 <= y < h && y < |slots| && slots[y] == NULL ==> memory(y)
    }

    /** A new published frame over every working row. */
    ghost predicate Fresh(before: nat, generation: nat)
      reads this
    {
      && published == before && |frames| == before + 1 && height <= |working|
      && frames[before].Frame? && frames[before].refs == 1
      && frames[before].width == width && frames[before].height == height
      && frames[before].generation == generation && frames[before].epoch == epoch
      && |frames[before].rows| >= height
      && forall y :: 0 <= y < height ==> frames[before].rows[y] == working[y] != NULL
    }

    /** Fill the missing rows and make the frame, memory permitting. */
    method Compose(native: seq<seq<nat>>, generation: nat, memory: nat -> bool)
      requires Valid() && enabled && 0 < width <= MAX_WIDTH && 0 < height <= MAX_HEIGHT
      requires |native| == height && forall y :: 0 <= y < height ==> |native[y]| == width
      modifies this`rows, this`frames, this`working, this`published, this`width, this`height, this`pending, this`epoch,
        this`enabled, this`identity, this`currentRow
      ensures Valid() && RowsKept(old(rows), rows) && FramesKept(old(frames), frames) && (old(Fits()) ==> Fits())
      ensures enabled <==> Granted(old(working), old(height), memory) && memory(old(height))
      ensures !enabled ==> Blank() && epoch == old(epoch) + 1
      ensures enabled ==> epoch == old(epoch)
      ensures enabled ==> width == old(width) && height == old(height) && Fresh(|old(frames)|, generation)
      ensures enabled ==> forall y :: 0 <= y < height ==>
        if old(working)[y] == NULL then Drawn(y, native[y]) else working[y] == old(working)[y]
    {
      hide HoldSum, Complete, RowsCounted, FramesCounted, Pointers, Shows, SlotsFit, FramesFit, RowsKept, FramesKept;
      FillMissing(native, memory);
      if !enabled { return; }
      ghost var r, f := rows, frames;
      if memory(height) {
        Install(width, height, generation);
        forall y | 0 <= y < height && old(working)[y] == NULL ensures Drawn(y, native[y]) {
          StillDrawn(r, y, native[y]);
        }
      } else {
        var changed := Capture(false);
      }
      KeptTrans(old(rows), r, rows);
      FramesTrans(old(frames), f, frames);
    }

    /** cdi_raster_publish: a frame that shares every working row becomes the published one. Rows
        captured for this geometry are kept, and the others show the native pixels. */
    method Publish(native: seq<seq<nat>>, w: nat, h: nat, generation: nat, memory: nat -> bool)
      requires Valid() && |native| == h && forall y :: 0 <= y < h ==> |native[y]| == w
      modifies this
      ensures Valid() && RowsKept(old(rows), rows) && FramesKept(old(frames), frames) && (old(Fits()) ==> Fits())
      ensures acquired == old(acquired)
      ensures !old(enabled) || !Displayable(w, h) ==>
        && enabled == old(enabled) && rows == old(rows) && frames == old(frames) && working == old(working)
        && published == old(published) && width == old(width) && height == old(height) && epoch == old(epoch)
        && pending == old(pending) && currentRow == old(currentRow) && identity == old(identity)
      ensures old(enabled) && Displayable(w, h) ==>
        (enabled <==> memory(h) && forall y :: 0 <= y < h ==>
           ((old(width) == w && old(height) == h && old(working)[y] != NULL) || memory(y)))
      ensures old(enabled) && !enabled ==> Blank()
      ensures enabled && Displayable(w, h) ==>
        && epoch == old(epoch) + (if old(width) == w && old(height) == h then 0 else 1)
        && width == w && height == h && Fresh(|old(frames)|, generation)
        && forall y :: 0 <= y < h ==>
             if old(width) == w && old(height) == h && old(working)[y] != NULL then working[y] == old(working)[y]
             else Drawn(y, native[y])
    {
      hide HoldSum, Complete, RowsCounted, FramesCounted, Pointers, Shows, SlotsFit, FramesFit;
      hide RowsKept, FramesKept, Fresh;
      if !enabled || w == 0 || h == 0 || w > MAX_WIDTH || h > MAX_HEIGHT {
        KeptSelf(rows);
        FramesSelf(frames);
        return;
      }
      if width != w || height != h {
        Reset();
        width, height := w, h;
        NoSlotsFit(rows, working, w);
      } else {
        KeptSelf(rows);
        FramesSelf(frames);
      }
      ghost var r, f := rows, frames;
      Compose(native, generation, memory);
      KeptTrans(old(rows), r, rows);
      FramesTrans(old(frames), f, frames);
    }

    /** Row y of a frame, as it lies in the pixel buffer, is the row's spans over what was there. */
    ghost predicate RowRendered(frame: Frame, y: nat, before: seq<nat>, after: seq<nat>)
      reads this
    {
      && frame.Frame? && y < |frame.rows| && 0 <= frame.rows[y] < |rows| && rows[frame.rows[y]].Row?
      && var at := RowStart(y, frame.width);
      && 0 <= at <= at + frame.width <= |before| == |after|
      && Rendered(rows[frame.rows[y]].spans, before[at..at + frame.width], after[at..at + frame.width])
    }

    /** cdi_raster_native: refuses a missing frame, a missing buffer and one too small; otherwise
        paints every row at its place and nothing behind the last. */
    method Native(f: int, pixels: array?<nat>) returns (ok: bool)
      requires Valid() && Fits() && NULL <= f < |frames| && (f != NULL ==> published == f || f in acquired)
      modifies pixels
      ensures f != NULL ==> frames[f].Frame?
      ensures ok <==> f != NULL && pixels != null && frames[f].width * frames[f].height <= pixels.Length
      ensures ok ==>
        && (forall y :: 0 <= y < frames[f].height ==> RowRendered(frames[f], y, old(pixels[..]), pixels[..]))
        && forall k :: frames[f].width * frames[f].height <= k < pixels.Length ==> pixels[k] == old(pixels[k])
      ensures !ok && pixels != null ==> pixels[..] == old(pixels[..])
    {
      hide HoldSum, RowsCounted, FramesCounted, RowRendered, SlotsFit, Complete;
      if f == NULL { return false; }
      OwnedFrameIntact(f);
      var frame := frames[f];
      RowStartIs(frame.height, frame.width);
      if pixels == null || frame.width * frame.height > pixels.Length { return false; }
      var y := 0;
      while y < frame.height
        invariant 0 <= y <= frame.height
        invariant forall k :: 0 <= k < y ==> RowRendered(frame, k, old(pixels[..]), pixels[..])
        invariant forall k :: RowStart(y, frame.width) <= k < pixels.Length ==> pixels[k] == old(pixels[k])
      {
        RowsApart(y, frame.height, frame.width);
        ghost var before := pixels[..];
        NativeRow(frame, y, pixels);
        RowsStay(frame, y, old(pixels[..]), before, pixels[..]);
        y := y + 1;
      }
      ok := true;
    }

    method NativeRow(frame: Frame, y: nat, pixels: array<nat>)
      requires frame.Frame? && y < |frame.rows| && 0 <= frame.rows[y] < |rows| && rows[frame.rows[y]].Row?
      requires SlotsFit(rows, frame.rows, frame.width) && RowStart(y + 1, frame.width) <= pixels.Length
      modifies pixels
      ensures RowRendered(frame, y, old(pixels[..]), pixels[..])
      ensures forall k :: 0 <= k < pixels.Length && !(RowStart(y, frame.width) <= k < RowStart(y + 1, frame.width)) ==>
        pixels[k] == old(pixels[k])
    {
      hide Bounded, Rendered;
      assert RowFits(rows, frame.rows[y], frame.width);
      RenderRow(rows[frame.rows[y]].spans, pixels, RowStart(y, frame.width), frame.width);
    }

    /** Rendering row y leaves the rows before it alone, and finds the buffer there as it was. */
    lemma RowsStay(frame: Frame, y: nat, first: seq<nat>, before: seq<nat>, after: seq<nat>)
      requires |first| == |before| == |after| && RowRendered(frame, y, before, after)
      requires forall k :: 0 <= k < y ==> RowRendered(frame, k, first, before)
      requires forall k :: RowStart(y, frame.width) <= k < |first| ==> before[k] == first[k]
      requires forall k :: 0 <= k < |after| && k < RowStart(y, frame.width) ==> after[k] == before[k]
      ensures forall k :: 0 <= k <= y ==> RowRendered(frame, k, first, after)
    {
      hide Rendered;
      forall k | 0 <= k <= y ensures RowRendered(frame, k, first, after) {
        var at := RowStart(k, frame.width);
        if k < y {
          RowsApart(k, y, frame.width);
          assert RowRendered(frame, k, first, before);
          assert after[at..at + frame.width] == before[at..at + frame.width];
        } else {
          assert first[at..at + frame.width] == before[at..at + frame.width];
        }
      }
    }

    /** A picture nobody captured comes back from its published frame pixel for pixel. */
    method PublishAndRender(native: seq<seq<nat>>, w: nat, h: nat, generation: nat, memory: nat -> bool,
                            pixels: array<nat>)
      requires Valid() && Fits() && enabled && Displayable(w, h) && |native| == h
      requires (forall y :: 0 <= y < h ==> |native[y]| == w) && w * h <= pixels.Length
      requires (width == w && height == h) ==> forall y :: 0 <= y < h ==> working[y] == NULL
      modifies this, pixels
      ensures enabled <==> forall y :: 0 <= y <= h ==> memory(y)
      ensures (forall y :: 0 <= y <= h ==> memory(y)) ==> forall y :: 0 <= y < h ==> At(pixels[..], y, w) == native[y]
      ensures !enabled ==> pixels[..] == old(pixels[..])
    {
      hide HoldSum, Complete, RowsCounted, FramesCounted, Pointers, SlotsFit, FramesFit, RowsKept, FramesKept;
      Publish(native, w, h, generation, memory);
      if !enabled { return; }
      ghost var before := pixels[..];
      var ok := Native(published, pixels);
      forall y | 0 <= y < h ensures At(pixels[..], y, w) == native[y] {
        RowsApart(y, h, w);
        assert Drawn(y, native[y]) && RowRendered(frames[published], y, before, pixels[..]);
      }
    }

    // ----- installing the new frame -----

    method TakeReference(id: int, ghost loose: multiset<int>)
      requires 0 <= id < |rows| && rows[id].Row? && RowsCounted(rows, working, frames, loose)
      modifies this`rows
      ensures RowsCounted(rows, working, frames, loose + multiset{id})
      ensures RowsKept(old(rows), rows) && |rows| == |old(rows)|
      ensures forall i :: 0 <= i < |rows| ==> rows[i].Row? == old(rows[i].Row?)
    {
      hide HoldSum;
      rows := rows[id := rows[id].(refs := rows[id].refs + 1)];
    }

    method TakeReferences(h: nat)
      requires Valid() && h <= MAX_HEIGHT && forall y :: 0 <= y < h ==> working[y] != NULL
      modifies this`rows
      ensures RowsCounted(rows, working, frames, multiset(working[..h]))
      ensures RowsKept(old(rows), rows) && |rows| == |old(rows)|
    {
      hide HoldSum, Complete, FramesCounted;
      forall y | 0 <= y < h ensures rows[working[y]].Row? {
        assert multiset(working)[working[y]] > 0;
      }
      var y := 0;
      while y < h
        invariant 0 <= y <= h && |rows| == |old(rows)| && RowsKept(old(rows), rows)
        invariant RowsCounted(rows, working, frames, multiset(working[..y]))
        invariant forall k :: 0 <= k < h ==> rows[working[k]].Row?
      {
        assert working[..y + 1] == working[..y] + [working[y]];
        TakeReference(working[y], multiset(working[..y]));
        y := y + 1;
      }
    }

    method Install(w: nat, h: nat, generation: nat)
      requires Valid() && w == width && 0 < h <= MAX_HEIGHT && forall y :: 0 <= y < h ==> working[y] != NULL
      modifies this`rows, this`frames, this`published
      ensures Valid() && RowsKept(old(rows), rows) && FramesKept(old(frames), frames) && (old(Fits()) ==> Fits())
      ensures published == |old(frames)| && |frames| == |old(frames)| + 1
      ensures frames[published].Frame? && frames[published].refs == 1
      ensures frames[published].width == w && frames[published].height == h
      ensures frames[published].generation == generation && frames[published].epoch == epoch
      ensures |frames[published].rows| == MAX_HEIGHT
      ensures forall y :: 0 <= y < h ==> frames[published].rows[y] == working[y] != NULL
    {
      hide HoldSum, RowsCounted, SlotsFit, FramesFit;
      TakeReferences(h);
      var list := working[..h] + seq(MAX_HEIGHT - h, _ => NULL);
      var frame := Frame(1, w, h, generation, epoch, list);
      HoldsTaken(rows, working, frames, frame, h);
      ghost var kept := rows;
      var before := published;
      frames := frames + [frame];
      published := |frames| - 1;
      NewFrameCounted(old(frames), frame, before, acquired);
      ghost var added := frames;
      DropFrame(before);
      KeptTrans(old(rows), kept, rows);
      if old(Fits()) { InstalledFits(old(rows), kept, rows, working, old(frames), frame, frames, h); }
    }
  }

  /** A new row in a working slot; the row that was there is loose. */
  lemma SlotTaken(rows: seq<Row>, working: seq<int>, frames: seq<Frame>, y: nat, row: Row)
    requires y < |working| && row.Row? && row.refs == 1 && NULL <= working[y] < |rows|
    requires RowsCounted(rows, working, frames, multiset{})
    requires multiset(working)[|rows|] == 0 && HoldSum(frames, |rows|) == 0
    ensures RowsCounted(rows + [row], working[y := |rows|], frames, multiset{working[y]})
  {
    hide HoldSum;
    assert multiset(working[y := |rows|]) == multiset(working) - multiset{working[y]} + multiset{|rows|};
  }

  lemma CompleteGrows(frames: seq<Frame>, n: nat)
    requires Complete(frames, n)
    ensures Complete(frames, n + 1)
  {}

  /** The references taken for a new frame become its own. */
  lemma HoldsTaken(rows: seq<Row>, working: seq<int>, frames: seq<Frame>, frame: Frame, h: nat)
    requires h <= |working| && h <= MAX_HEIGHT && frame.Frame? && frame.refs > 0
    requires frame.rows == working[..h] + seq(MAX_HEIGHT - h, _ => NULL)
    requires RowsCounted(rows, working, frames, multiset(working[..h]))
    ensures RowsCounted(rows, working, frames + [frame], multiset{})
  {
    hide HoldSum;
    var nulls: seq<int> := seq(MAX_HEIGHT - h, _ => NULL);
    assert multiset(frame.rows) == multiset(working[..h]) + multiset(nulls);
    forall id | 0 <= id < |rows|
      ensures HoldSum(frames + [frame], id) == HoldSum(frames, id) + multiset(working[..h])[id]
    {
      HoldSumAppend(frames, frame, id);
      assert id !in nulls;
    }
  }

  lemma NewFrameCounted(frames: seq<Frame>, frame: Frame, before: int, acquired: multiset<int>)
    requires FramesCounted(frames, before, acquired, multiset{}) && NULL <= before < |frames|
    requires frame.Frame? && frame.refs == 1 && |frames| !in acquired
    ensures FramesCounted(frames + [frame], |frames|, acquired, multiset{before})
  {
    forall f | 0 <= f < |frames| ensures
      FrameOwners(|frames|, acquired, multiset{before}, f) == FrameOwners(before, acquired, multiset{}, f) {}
  }

  lemma LooseNulls(rows: seq<Row>, working: seq<int>, frames: seq<Frame>, list: seq<int>)
    requires RowsCounted(rows, working, frames, multiset(list)) && forall y :: 0 <= y < |list| ==> list[y] == NULL
    ensures RowsCounted(rows, working, frames, multiset{})
  {
    hide HoldSum;
    assert forall id :: 0 <= id ==> id !in list;
  }

  lemma KeptSelf(rows: seq<Row>)
    ensures RowsKept(rows, rows)
  {}

  /** Where row y of a pixel buffer with rows of w pixels begins. */
  function RowStart(y: nat, w: nat): nat { if y == 0 then 0 else RowStart(y - 1, w) + w }

  lemma {:induction false} RowStartIs(y: nat, w: nat)
    ensures RowStart(y, w) == w * y
  {
    if y > 0 {
      RowStartIs(y - 1, w);
      assert w * y == w * (y - 1) + w;
    }
  }

  lemma {:induction false} RowsApart(k: nat, y: nat, w: nat)
    requires k < y
    ensures RowStart(k, w) + w == RowStart(k + 1, w) <= RowStart(y, w)
  {
    if k + 1 < y { RowsApart(k, y - 1, w); }
  }

  function At(pixels: seq<nat>, y: nat, w: nat): seq<nat> {
    if RowStart(y + 1, w) <= |pixels| then pixels[RowStart(y, w)..RowStart(y + 1, w)] else []
  }

  lemma FramesSelf(frames: seq<Frame>)
    ensures FramesKept(frames, frames)
  {}

  lemma KeptTrans(a: seq<Row>, b: seq<Row>, c: seq<Row>)
    requires RowsKept(a, b) && RowsKept(b, c)
    ensures RowsKept(a, c)
  {}

  lemma FramesTrans(a: seq<Frame>, b: seq<Frame>, c: seq<Frame>)
    requires FramesKept(a, b) && FramesKept(b, c)
    ensures FramesKept(a, c)
  {}

  lemma {:induction false} NoHolds(frames: seq<Frame>, n: nat, id: nat)
    requires Complete(frames, n) && id >= n
    ensures HoldSum(frames, id) == 0
  {
    if frames != [] {
      var k := |frames| - 1;
      NoHolds(frames[..k], n, id);
      if frames[k].Frame? { assert id !in frames[k].rows; }
    }
  }
}
