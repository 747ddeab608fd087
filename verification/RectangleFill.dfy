/** What a completed rectangle fill has done to the guest, in terms of the caller's arguments. */
module RectangleFill {
  import opened Guest
  import opened Cpu68k
  import opened MemoryJob

  /** Column c of row r. */
  function Cell(a: u32, stride: u32, r: nat, c: nat): u32 { Column(RowAddress(a, stride, r), c) }

  /** RAM byte o is a cell of the rectangle of h rows and w columns. */
  ghost predicate InRectangle(o: nat, a: u32, w: nat, stride: u32, h: nat) {
    exists r: nat, c: nat :: r < h && c < w && InRam(Cell(a, stride, r, c), 1) && Offset(Cell(a, stride, r, c)) == o
  }

  ghost predicate InRow(o: nat, a: u32, w: nat) {
    exists c: nat :: c < w && InRam(Column(a, c), 1) && Offset(Column(a, c)) == o
  }

  lemma {:induction false} FillRowMeans(ram: Memory, a: u32, w: nat, v: byte, o: nat)
    requires o < 2 * BANK
    ensures FillRow(ram, a, w, v)[o] == if InRow(o, a, w) then v else ram[o]
  {
    hide Column;
    if w > 0 {
      FillRowMeans(ram, a, w - 1, v, o);
      var x := Column(a, w - 1);
      assert InRow(o, a, w) <==> InRow(o, a, w - 1) || (InRam(x, 1) && Offset(x) == o);
    }
  }

  /** The nested loops write the rectangle's bytes and no others. */
  lemma {:induction false} FillRowsMeans(ram: Memory, a: u32, w: nat, stride: u32, v: byte, h: nat, o: nat)
    requires o < 2 * BANK
    ensures FillRows(ram, a, w, stride, v, h)[o] == if InRectangle(o, a, w, stride, h) then v else ram[o]
  {
    hide Column, RowAddress, FillRow;
    if h > 0 {
      FillRowsMeans(ram, a, w, stride, v, h - 1, o);
      var before, row := FillRows(ram, a, w, stride, v, h - 1), RowAddress(a, stride, h - 1);
      FillRowMeans(before, row, w, v, o);
      RowsSplit(o, a, w, stride, h);
    }
  }

  lemma RowsSplit(o: nat, a: u32, w: nat, stride: u32, h: nat)
    requires h > 0
    ensures InRectangle(o, a, w, stride, h) <==>
      InRectangle(o, a, w, stride, h - 1) || InRow(o, RowAddress(a, stride, h - 1), w)
  {
    hide Column, RowAddress;
    if InRow(o, RowAddress(a, stride, h - 1), w) {
      var row := RowAddress(a, stride, h - 1);
      var c: nat :| c < w && InRam(Column(row, c), 1) && Offset(Column(row, c)) == o;
      assert Offset(Cell(a, stride, h - 1, c)) == o;
    }
  }

  lemma {:induction false} RowAddressIs(a: u32, stride: u32, r: nat)
    ensures RowAddress(a, stride, r) == Wrap(a as int + r * stride)
  {
    if r > 0 {
      RowAddressIs(a, stride, r - 1);
      WrapAdd(a as int + (r - 1) * stride, stride);
      assert a as int + (r - 1) * stride + stride == a as int + r * stride;
    }
  }

  // ----- the save area -----

  ghost predicate InSaveArea(m: Machine, o: nat)
    requires StackOk(m)
  {
    StackAt(m, -28);
    Offset(Sp(m) - 28) <= o < Offset(Sp(m) - 28) + 28
  }

  lemma StackOffset(m: Machine, k: int)
    requires StackOk(m) && -28 <= k <= 12
    ensures Sp(m) - 28 >= 0 && InRam(Sp(m) - 28, 4) && InRam(Sp(m) + k, 4) && 0 <= Sp(m) + k < LIMIT
    ensures Offset(Sp(m) + k) == Offset(Sp(m) - 28) + 28 + k
  {
    StackAt(m, -28);
    StackAt(m, k);
  }

  lemma {:induction false} SavedElsewhere(m: Machine, j: nat, o: nat)
    requires StackOk(m) && j <= 7 && o < 2 * BANK && Sp(m) - 28 >= 0 && InRam(Sp(m) - 28, 4)
    requires !(Offset(Sp(m) - 28) + 28 - 4 * j <= o < Offset(Sp(m) - 28) + 28)
    ensures Saved(m, j)[o] == m.ram[o]
  {
    hide Write32, Offset;
    if j > 0 {
      SavedElsewhere(m, j - 1, o);
      StackOffset(m, -4 * j);
      WriteElsewhere(Saved(m, j - 1), Sp(m) - 4 * j, Get(m, Pushed()[j - 1]), o);
    }
  }

  /** Slot i of the save area holds the i-th register of the list. */
  lemma {:induction false} SavedSlot(m: Machine, j: nat, i: nat)
    requires StackOk(m) && 1 <= i <= j <= 7
    ensures 0 <= Sp(m) - 4 * i < LIMIT && InRam(Sp(m) - 4 * i, 4)
    ensures Read32(Saved(m, j), Sp(m) - 4 * i) == Get(m, Pushed()[i - 1])
  {
    hide Write32, Read32, Offset;
    StackOffset(m, -4 * i);
    StackOffset(m, -4 * j);
    if i == j {
      WriteRead(Saved(m, j - 1), Sp(m) - 4 * j, Get(m, Pushed()[j - 1]));
    } else {
      SavedSlot(m, j - 1, i);
      OffsetBound(Sp(m) - 4 * i);
      forall o | Offset(Sp(m) - 4 * i) <= o < Offset(Sp(m) - 4 * i) + 4 ensures Saved(m, j)[o] == Saved(m, j - 1)[o] {
        WriteElsewhere(Saved(m, j - 1), Sp(m) - 4 * j, Get(m, Pushed()[j - 1]), o);
      }
      ReadFrame(Saved(m, j - 1), Saved(m, j), Sp(m) - 4 * i);
    }
  }

  lemma OffsetBound(a: nat)
    requires InRam(a, 4)
    ensures 0 <= Offset(a) && Offset(a) + 4 <= 2 * BANK
  {}

  /** The caller's arguments survive the save. */
  lemma ArgumentKept(m: Machine, k: nat)
    requires StackOk(m) && k <= 12
    ensures Sp(m) + k < LIMIT && InRam(Sp(m) + k, 4) && Argument(m, k) == Above(m, m.ram, k)
  {
    hide Read32, Offset;
    StackOffset(m, k);
    OffsetBound(Sp(m) + k);
    forall o | Offset(Sp(m) + k) <= o < Offset(Sp(m) + k) + 4 ensures Saved(m, 7)[o] == m.ram[o] {
      SavedElsewhere(m, 7, o);
    }
    ReadFrame(m.ram, Saved(m, 7), Sp(m) + k);
  }

  // ----- the completed job -----

  datatype Job = Job(start: u32, width: nat, height: nat, stride: u32, value: byte)

  /** The rectangle a call fills: address in D0, width in D1, and height, value and pitch on the
      stack. Counts are 16 bits wide, and zero means 65536. */
  function JobOf(m: Machine): Job
    requires StackOk(m)
  {
    var width := Count(m.d[1]);
    var stride := Wrap(width + Above(m, m.ram, 12) - m.d[1]);
    Job(m.d[0], width, Count(Above(m, m.ram, 4)), stride, Above(m, m.ram, 8) % 0x100)
  }

  ghost predicate Inside(j: Job, o: nat) { InRectangle(o, j.start, j.width, j.stride, j.height) }

  /** The rectangle as the caller wrote it down: all of D1 wide, all of the height argument high,
      rows a pitch apart. */
  function Asked(m: Machine): Job
    requires StackOk(m)
  {
    Job(m.d[0], m.d[1], Above(m, m.ram, 4), Above(m, m.ram, 12), Above(m, m.ram, 8) % 0x100)
  }

  /** A count the firmware takes at its word: one to 65536. */
  predicate Ordinary(count: u32) { 1 <= count <= 0x1_0000 }

  /** Rows are as wide as asked, and a pitch apart, exactly for ordinary widths. */
  lemma WidthIff(m: Machine)
    requires StackOk(m)
    ensures JobOf(m).width == m.d[1] <==> Ordinary(m.d[1])
    ensures JobOf(m).stride == Above(m, m.ram, 12) <==> Ordinary(m.d[1])
  {
    hide Read32;
    StackAt(m, 12);
  }

  /** There are as many rows as asked exactly for ordinary heights. */
  lemma HeightIff(m: Machine)
    requires StackOk(m)
    ensures JobOf(m).height == Above(m, m.ram, 4) <==> Ordinary(Above(m, m.ram, 4))
  {
    hide Read32;
    StackAt(m, 4);
  }

  /** The rectangle filled is the rectangle asked for exactly when both counts are ordinary. */
  lemma AskedIff(m: Machine)
    requires StackOk(m)
    ensures JobOf(m) == Asked(m) <==> Ordinary(m.d[1]) && Ordinary(Above(m, m.ram, 4))
  {
    hide Read32, Count, Wrap;
    WidthIff(m);
    HeightIff(m);
    StackAt(m, 4);
    StackAt(m, 8);
    StackAt(m, 12);
  }

  /** Any count: only its low word is obeyed, and zero there means 65536. What a width has
      above that comes off the distance between rows. */
  lemma OtherCounts(m: Machine, high: nat, low: nat)
    requires StackOk(m) && low < 0x1_0000
    ensures m.d[1] == 0x1_0000 * high + low ==>
      && JobOf(m).width == (if low == 0 then 0x1_0000 else low)
      && JobOf(m).stride == Wrap(Above(m, m.ram, 12) - 0x1_0000 * (if low == 0 then high - 1 else high))
    ensures Above(m, m.ram, 4) == 0x1_0000 * high + low ==> JobOf(m).height == if low == 0 then 0x1_0000 else low
  {
    hide Read32;
    StackAt(m, 4);
    StackAt(m, 12);
  }

  /** Width zero: 65536 bytes a row, the rows 65536 plus the pitch apart. */
  lemma ZeroWidth(m: Machine)
    requires StackOk(m) && m.d[1] == 0
    ensures JobOf(m).width == 0x1_0000 && JobOf(m).stride == Wrap(0x1_0000 + Above(m, m.ram, 12))
  {
    hide Above;
    OtherCounts(m, 0, 0);
  }

  /** Width 0x10001: one byte a row, the rows 65536 less than the pitch apart. */
  lemma WideWidth(m: Machine)
    requires StackOk(m) && m.d[1] == 0x1_0001
    ensures JobOf(m).width == 1 && JobOf(m).stride == Wrap(Above(m, m.ram, 12) as int - 0x1_0000)
  {
    hide Above;
    OtherCounts(m, 1, 1);
  }

  /** A completed job has stored the value in every byte of its rectangle and, apart from the
      28-byte save area, changed no other byte. */
  lemma CompletedWrites(m0: Machine, m: Machine, o: nat)
    requires StackOk(m0) && Done(m0, m) && o < 2 * BANK
    ensures Inside(JobOf(m0), o) ==> m.ram[o] == JobOf(m0).value
    ensures !Inside(JobOf(m0), o) && !InSaveArea(m0, o) ==> m.ram[o] == m0.ram[o]
    ensures !Inside(JobOf(m0), o) ==> m.ram[o] == Saved(m0, 7)[o]
  {
    hide Read32, Saved, FillRows, RowAddress, RowsInRam, InRectangle, Offset;
    ArgumentKept(m0, 4);
    ArgumentKept(m0, 8);
    ArgumentKept(m0, 12);
    var j := JobOf(m0);
    FillRowsMeans(Saved(m0, 7), j.start, j.width, j.stride, j.value, j.height, o);
    StackOffset(m0, -28);
    if !InSaveArea(m0, o) { SavedElsewhere(m0, 7, o); }
  }

  /** If the rectangle stays out of the save area, a completed job gives back D1 to D6 and
      every address register, and returns in D0 the address of the row after the last. */
  lemma CompletedRestores(m0: Machine, m: Machine)
    requires StackOk(m0) && Done(m0, m)
    requires forall o :: 0 <= o < 2 * BANK && InSaveArea(m0, o) ==> !Inside(JobOf(m0), o)
    ensures m.d == m0.d[0 := Wrap(m0.d[0] as int + JobOf(m0).height * JobOf(m0).stride)]
    ensures m.a == m0.a && m.sr.system == m0.sr.system
  {
    hide Read32, Saved, FillRows, RowAddress, RowsInRam, InRectangle, Offset;
    ArgumentKept(m0, 4);
    ArgumentKept(m0, 12);
    var j := JobOf(m0);
    RowAddressIs(j.start, j.stride, j.height);
    assert m.a[0] == m0.a[0] by { assert Pushed()[0] == A(0); SlotSurvives(m0, m, 1); }
    forall k | 1 <= k <= 6 ensures m.d[k] == m0.d[k] {
      assert Pushed()[(8 - k) - 1] == D(k);
      SlotSurvives(m0, m, 8 - k);
      assert Sp(m0) - 28 + 4 * (k - 1) == Sp(m0) - 4 * (8 - k);
    }
  }

  lemma SlotSurvives(m0: Machine, m: Machine, i: nat)
    requires StackOk(m0) && Done(m0, m) && 1 <= i <= 7
    requires forall o :: 0 <= o < 2 * BANK && InSaveArea(m0, o) ==> !Inside(JobOf(m0), o)
    ensures 0 <= Sp(m0) - 4 * i < LIMIT && InRam(Sp(m0) - 4 * i, 4)
    ensures Read32(m.ram, Sp(m0) - 4 * i) == Get(m0, Pushed()[i - 1])
  {
    hide Read32, Saved, Done, Inside, Offset, JobOf;
    SavedSlot(m0, 7, i);
    StackOffset(m0, -4 * i);
    OffsetBound(Sp(m0) - 4 * i);
    forall o | Offset(Sp(m0) - 4 * i) <= o < Offset(Sp(m0) - 4 * i) + 4 ensures m.ram[o] == Saved(m0, 7)[o] {
      CompletedWrites(m0, m, o);
    }
    ReadFrame(Saved(m0, 7), m.ram, Sp(m0) - 4 * i);
  }
}
