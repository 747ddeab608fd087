/** Span lists of runner/src/cdi_raster_jobs.c and the pixels they stand for. */
module RasterSpans {
  import opened Guest

  const MAX_WIDTH := 768

  /** A visible span [first, last) with the authored colours and mixing control. */
  datatype Span = Span(first: nat, last: nat, a: nat, b: nat, control: nat)

  // ----- colour -----

  /** C's integer division. */
  function Truncated(x: int, y: int): int
    requires y > 0
  {
    if x >= 0 then x / y else -((-x) / y)
  }

  function Clamp(x: int): nat { if x < 0 then 0 else if x > 255 then 255 else x }

  function Channel(color: nat, factor: nat): nat {
    Clamp(Truncated(factor * (color - 16), 63) + 16)
  }

  /** The byte of a colour at a shift of 8k bits, given 256^k. */
  function Component(color: nat, unit: nat): nat
    requires unit > 0
  {
    (color / unit) % 256
  }

  function Mixed(s: Span, unit: nat): nat
    requires unit > 0
  {
    var own := Channel(Component(s.a, unit), (s.control / 4) % 64);
    var other := Channel(Component(s.b, unit), (s.control / 256) % 64);
    Clamp(if s.control % 4 == 2 then own + other - 16 else own)
  }

  function Color(s: Span): nat {
    if s.control % 4 == 0 then s.a
    else 0xFF00_0000 + 0x1_0000 * Mixed(s, 0x1_0000) + 0x100 * Mixed(s, 0x100) + Mixed(s, 1)
  }

  /** v is a colour byte moved towards black, which is 16, leaving factor parts in 63 of its distance;
      fractions are dropped on the side of black. */
  predicate Scaled(color: nat, factor: nat, v: nat) {
    if color >= 16 then v >= 16 && 63 * (v - 16) <= factor * (color - 16) < 63 * (v - 15)
    else v <= 16 && 63 * (16 - v) <= factor * (16 - color) < 63 * (17 - v)
  }

  lemma ScaledIs(color: nat, factor: nat, v: nat)
    requires color <= 255 && factor <= 63
    ensures Scaled(color, factor, v) <==> v == Channel(color, factor)
    ensures color >= 16 ==> 16 <= Channel(color, factor) <= color
    ensures color <= 16 ==> color <= Channel(color, factor) <= 16
    ensures factor == 0 ==> Channel(color, factor) == 16
    ensures factor == 63 ==> Channel(color, factor) == color
  {
    hide Truncated;
    var x := if color >= 16 then color - 16 else 16 - color;
    var y := factor * x;
    Product(factor, x);
    TruncatedIs(y);
    assert factor * (color - 16) == if color >= 16 then y else 0 - y;
    Quotient(y, x, if color >= 16 then v - 16 else 16 - v);
  }

  lemma Product(factor: nat, x: nat)
    requires factor <= 63
    ensures factor * x <= 63 * x
  {}

  lemma TruncatedIs(y: nat)
    ensures Truncated(y, 63) == y / 63 && Truncated(0 - y, 63) == -(y / 63)
  {}

  lemma Quotient(y: nat, x: nat, q: int)
    requires y <= 63 * x
    ensures 0 <= y / 63 <= x && (y == 63 * x ==> y / 63 == x)
    ensures 63 * q <= y < 63 * (q + 1) <==> q == y / 63
  {}

  function Argb(alpha: byte, red: byte, green: byte, blue: byte): nat {
    0x100_0000 * alpha + 0x1_0000 * red + 0x100 * green + blue
  }

  /** Two scaled bytes added above black, or in the other modes the first alone. */
  ghost predicate Blended(mode: nat, x: byte, fx: nat, y: byte, fy: nat, v: byte) {
    exists own: nat, other: nat :: Scaled(x, fx, own) && Scaled(y, fy, other)
      && v == if mode != 2 then own
              else if own + other < 16 then 0 else if own + other > 271 then 255 else own + other - 16
  }

  lemma ArgbParts(alpha: byte, red: byte, green: byte, blue: byte)
    ensures var c := Argb(alpha, red, green, blue);
      Component(c, 0x1_0000) == red && Component(c, 0x100) == green && Component(c, 1) == blue
  {
    var c, high, middle := Argb(alpha, red, green, blue), 0x100 * alpha + red, 0x1_0000 * alpha + 0x100 * red + green;
    assert c == 0x1_0000 * high + (0x100 * green + blue) && c / 0x1_0000 == high;
    assert c == 0x100 * middle + blue && c / 0x100 == middle;
    LastByte(alpha, red);
    LastByte(0x100 * alpha + red, green);
    LastByte(middle, blue);
  }

  lemma LastByte(n: nat, v: byte)
    ensures (0x100 * n + v) % 256 == v
  {}

  lemma ControlParts(mode: nat, fa: nat, fb: nat, rest: nat)
    requires mode < 4 && fa < 64 && fb < 64
    ensures var c := mode + 4 * fa + 0x100 * fb + 0x4000 * rest;
      c % 4 == mode && (c / 4) % 64 == fa && (c / 0x100) % 64 == fb
  {
    var c := mode + 4 * fa + 0x100 * fb + 0x4000 * rest;
    var high, middle := fb + 64 * rest, fa + 64 * (fb + 64 * rest);
    LowField(c, middle, mode, 4);
    LowField(c, high, mode + 4 * fa, 0x100);
    LowField(middle, high, fa, 64);
    LowField(high, rest, fb, 64);
  }

  lemma LowField(c: nat, high: nat, low: nat, unit: nat)
    requires unit in {4, 64, 0x100} && low < unit && c == unit * high + low
    ensures c / unit == high && c % unit == low
  {}

  lemma MixedBlends(s: Span, unit: nat, mode: nat, x: byte, fx: nat, y: byte, fy: nat)
    requires unit > 0 && Component(s.a, unit) == x && Component(s.b, unit) == y && fx <= 63 && fy <= 63
    requires s.control % 4 == mode && (s.control / 4) % 64 == fx && (s.control / 0x100) % 64 == fy
    ensures Mixed(s, unit) <= 255 && Blended(mode, x, fx, y, fy, Mixed(s, unit))
  {
    hide Component, Channel, Scaled;
    ScaledIs(x, fx, Channel(x, fx));
    ScaledIs(y, fy, Channel(y, fy));
  }

  /** The colour of a span, from its bytes and its control fields: mode 0 is the first colour as it
      is, any other is opaque, channel by channel. */
  lemma ColorMeans(s: Span, mode: nat, fa: nat, fb: nat, rest: nat,
                   a: (byte, byte, byte, byte), b: (byte, byte, byte, byte))
    requires mode < 4 && fa < 64 && fb < 64 && s.control == mode + 4 * fa + 0x100 * fb + 0x4000 * rest
    requires s.a == Argb(a.0, a.1, a.2, a.3) && s.b == Argb(b.0, b.1, b.2, b.3)
    ensures mode == 0 ==> Color(s) == s.a
    ensures mode != 0 ==>
      (exists red, green, blue ::
         && Color(s) == Argb(255, red, green, blue) && Blended(mode, a.1, fa, b.1, fb, red)
         && Blended(mode, a.2, fa, b.2, fb, green) && Blended(mode, a.3, fa, b.3, fb, blue))
  {
    hide Component, Mixed, Blended;
    ControlParts(mode, fa, fb, rest);
    ArgbParts(a.0, a.1, a.2, a.3);
    ArgbParts(b.0, b.1, b.2, b.3);
    MixedBlends(s, 0x1_0000, mode, a.1, fa, b.1, fb);
    MixedBlends(s, 0x100, mode, a.2, fa, b.2, fb);
    MixedBlends(s, 1, mode, a.3, fa, b.3, fb);
    assert mode != 0 ==> Color(s) == Argb(255, Mixed(s, 0x1_0000), Mixed(s, 0x100), Mixed(s, 1));
  }

  // ----- what a list shows -----

  predicate Over(s: Span, x: nat) { s.first <= x < s.last }

  /** The pixel a list leaves at x: spans are painted in order. */
  function Pixel(spans: seq<Span>, x: nat): Option<nat> {
    if spans == [] then None
    else if Over(spans[|spans| - 1], x) then Some(Color(spans[|spans| - 1]))
    else Pixel(spans[..|spans| - 1], x)
  }

  function End(spans: seq<Span>): nat { if spans == [] then 0 else spans[|spans| - 1].last }

  /** Nonempty spans inside the row, in order and disjoint. */
  predicate Ordered(spans: seq<Span>, width: nat) {
    && (forall i :: 0 <= i < |spans| ==> spans[i].first < spans[i].last <= width)
    && (forall i :: 0 < i < |spans| ==> spans[i - 1].last <= spans[i].first)
  }

  lemma {:induction false} OrderedCount(spans: seq<Span>, width: nat)
    requires Ordered(spans, width)
    ensures |spans| <= End(spans) <= width
  {
    if |spans| > 1 {
      var rest := spans[..|spans| - 1];
      assert Ordered(rest, width);
      OrderedCount(rest, width);
      assert spans[|spans| - 2].last <= spans[|spans| - 1].first;
    }
  }

  lemma {:induction false} NothingBeyond(spans: seq<Span>, width: nat, x: nat)
    requires Ordered(spans, width) && x >= End(spans)
    ensures Pixel(spans, x) == None
  {
    if |spans| > 0 {
      var n := |spans| - 1;
      assert Ordered(spans[..n], width);
      if n > 0 { assert spans[n - 1].last <= spans[n].first; }
      NothingBeyond(spans[..n], width, x);
    }
  }

  // ----- append -----

  predicate Same(s: Span, t: Span) { s.a == t.a && s.b == t.b && s.control == t.control }

  /** Add a span, or let the previous one grow into it. */
  function Append(spans: seq<Span>, s: Span, width: nat): seq<Span> {
    if s.last <= s.first || s.last > width || |spans| >= MAX_WIDTH then spans
    else if |spans| > 0 && spans[|spans| - 1].last == s.first && Same(spans[|spans| - 1], s)
    then spans[|spans| - 1 := spans[|spans| - 1].(last := s.last)]
    else spans + [s]
  }

  /** A span appended behind an ordered list keeps it ordered. It shows exactly itself while the
      buffer has room, and nothing afterwards. */
  lemma AppendShows(spans: seq<Span>, s: Span, width: nat)
    requires Ordered(spans, width) && End(spans) <= s.first < s.last <= width
    ensures var r := Append(spans, s, width);
      && Ordered(r, width) && |spans| <= |r|
      && (|spans| >= MAX_WIDTH ==> r == spans)
      && (|spans| < MAX_WIDTH ==>
        && End(r) == s.last
        && forall x: nat :: Pixel(r, x) == if Over(s, x) then Some(Color(s)) else Pixel(spans, x))
  {
    hide Color;
    var r := Append(spans, s, width);
    if |spans| < MAX_WIDTH {
      forall x: nat ensures Pixel(r, x) == if Over(s, x) then Some(Color(s)) else Pixel(spans, x) {
        if |r| == |spans| {
          var n := |spans| - 1;
          assert r[..n] == spans[..n];
          SameColor(spans[n], r[n]);
          SameColor(spans[n], s);
        } else {
          assert r[..|spans|] == spans;
        }
      }
    }
  }

  /** A row no wider than the buffer is long never fills it. */
  lemma RoomFor(spans: seq<Span>, first: nat, width: nat)
    requires Ordered(spans, width) && End(spans) <= first < width <= MAX_WIDTH
    ensures |spans| < MAX_WIDTH
  {
    OrderedCount(spans, width);
  }

  lemma SameColor(s: Span, t: Span)
    requires Same(s, t)
    ensures Color(s) == Color(t)
  {}

  lemma AppendNothing(spans: seq<Span>, s: Span, width: nat)
    requires s.last <= s.first
    ensures Append(spans, s, width) == spans
  {}

  // ----- overlay -----

  datatype Band = Band(first: nat, last: nat, color: nat)

  function Max(a: nat, b: nat): nat { if a > b then a else b }
  function Min(a: nat, b: nat): nat { if a < b then a else b }

  /** One span with a band painted over it. */
  function OverlaySpan(acc: seq<Span>, s: Span, o: Band, width: nat): seq<Span> {
    if s.last <= o.first || s.first >= o.last then Append(acc, s, width)
    else
      var before := if s.first < o.first then Append(acc, s.(last := o.first), width) else acc;
      var painted := Append(before, Span(Max(s.first, o.first), Min(s.last, o.last), o.color, 0, 0), width);
      if s.last > o.last then Append(painted, s.(first := o.last), width) else painted
  }

  function OverlayAll(spans: seq<Span>, o: Band, width: nat): seq<Span> {
    if spans == [] then [] else OverlaySpan(OverlayAll(spans[..|spans| - 1], o, width), spans[|spans| - 1], o, width)
  }

  /** cdi_raster_overlay on the pending list. */
  function Overlay(spans: seq<Span>, first: nat, last: nat, color: nat, width: nat): seq<Span> {
    if spans == [] || first >= width then spans
    else OverlayAll(spans, Band(first, Min(last, width), color), width)
  }

  method OverlaySpans(spans: seq<Span>, first: nat, last: nat, color: nat, width: nat) returns (r: seq<Span>)
    ensures r == Overlay(spans, first, last, color, width)
  {
    hide Append;
    if spans == [] || first >= width { return spans; }
    var end := if last > width then width else last;
    r := [];
    var i := 0;
    while i < |spans|
      invariant 0 <= i <= |spans| && r == OverlayAll(spans[..i], Band(first, end, color), width)
    {
      assert spans[..i + 1][..i] == spans[..i];
      var s := spans[i];
      if s.last <= first || s.first >= end {
        r := Append(r, s, width);
      } else {
        if s.first < first { r := Append(r, s.(last := first), width); }
        var from, to := if s.first > first then s.first else first, if s.last < end then s.last else end;
        r := Append(r, Span(from, to, color, 0, 0), width);
        if s.last > end { r := Append(r, s.(first := end), width); }
      }
      i := i + 1;
    }
    assert spans[..|spans|] == spans;
  }

  /** What the row shows with a band painted over its covered part. */
  function Painted(shown: Option<nat>, o: Band, x: nat): Option<nat> {
    if shown.Some? && o.first <= x < o.last then Some(o.color) else shown
  }

  lemma BandColor(o: Band, first: nat, last: nat)
    ensures Color(Span(first, last, o.color, 0, 0)) == o.color
  {}

  // ----- an overlay appends pieces -----

  /** What is left of a span under a band, in order. */
  function Cut(s: Span, o: Band): seq<Span> {
    if s.last <= o.first || s.first >= o.last then [s]
    else
      var middle := Span(Max(s.first, o.first), Min(s.last, o.last), o.color, 0, 0);
      (if s.first < o.first then [s.(last := o.first)] else [])
      + (if middle.first < middle.last then [middle] else [])
      + (if s.last > o.last then [s.(first := o.last)] else [])
  }

  function Pieces(spans: seq<Span>, o: Band): seq<Span> {
    if spans == [] then [] else Pieces(spans[..|spans| - 1], o) + Cut(spans[|spans| - 1], o)
  }

  function AppendAll(acc: seq<Span>, pieces: seq<Span>, width: nat): seq<Span> {
    if pieces == [] then acc else Append(AppendAll(acc, pieces[..|pieces| - 1], width), pieces[|pieces| - 1], width)
  }

  lemma {:induction false} AppendAllConcat(acc: seq<Span>, p: seq<Span>, q: seq<Span>, width: nat)
    ensures AppendAll(acc, p + q, width) == AppendAll(AppendAll(acc, p, width), q, width)
  {
    hide Append;
    if q == [] {
      assert p + q == p;
    } else {
      var n := |q| - 1;
      assert (p + q)[..|p + q| - 1] == p + q[..n];
      AppendAllConcat(acc, p, q[..n], width);
    }
  }

  lemma AppendFew(acc: seq<Span>, a: Span, b: Span, c: Span, width: nat)
    ensures AppendAll(acc, [], width) == acc
    ensures AppendAll(acc, [a], width) == Append(acc, a, width)
    ensures AppendAll(acc, [a, b], width) == Append(Append(acc, a, width), b, width)
    ensures AppendAll(acc, [a, b, c], width) == Append(Append(Append(acc, a, width), b, width), c, width)
  {
    hide Append;
    assert [a][..0] == [] && [a, b][..1] == [a] && [a, b, c][..2] == [a, b];
  }

  lemma AppendMaybe(acc: seq<Span>, s: Span, wanted: bool, width: nat)
    ensures AppendAll(acc, if wanted then [s] else [], width) == if wanted then Append(acc, s, width) else acc
  {
    hide Append;
    AppendFew(acc, s, s, s, width);
  }

  lemma CutIsOverlay(acc: seq<Span>, s: Span, o: Band, width: nat)
    ensures OverlaySpan(acc, s, o, width) == AppendAll(acc, Cut(s, o), width)
  {
    hide Append, AppendAll;
    if s.last <= o.first || s.first >= o.last {
      AppendFew(acc, s, s, s, width);
    } else {
      var a, c := s.(last := o.first), s.(first := o.last);
      var m := Span(Max(s.first, o.first), Min(s.last, o.last), o.color, 0, 0);
      var x, y, z := s.first < o.first, m.first < m.last, s.last > o.last;
      var p, q, r := if x then [a] else [], if y then [m] else [], if z then [c] else [];
      var before := if x then Append(acc, a, width) else acc;
      var painted := if y then Append(before, m, width) else before;
      if !y { AppendNothing(before, m, width); }
      AppendMaybe(acc, a, x, width);
      AppendMaybe(before, m, y, width);
      AppendMaybe(painted, c, z, width);
      AppendAllConcat(acc, p, q, width);
      AppendAllConcat(acc, p + q, r, width);
    }
  }

  lemma {:induction false} OverlayAppends(spans: seq<Span>, o: Band, width: nat)
    ensures OverlayAll(spans, o, width) == AppendAll([], Pieces(spans, o), width)
  {
    hide Append, OverlaySpan, Cut;
    if spans != [] {
      var n := |spans| - 1;
      OverlayAppends(spans[..n], o, width);
      CutIsOverlay(OverlayAll(spans[..n], o, width), spans[n], o, width);
      AppendAllConcat([], Pieces(spans[..n], o), Cut(spans[n], o), width);
    }
  }

  // ----- pieces show the recoloured row -----

  lemma {:induction false} PixelConcat(p: seq<Span>, q: seq<Span>, x: nat)
    ensures Pixel(p + q, x) == if Pixel(q, x).Some? then Pixel(q, x) else Pixel(p, x)
  {
    hide Color;
    if q == [] {
      assert p + q == p;
    } else {
      var n := |q| - 1;
      assert (p + q)[..|p + q| - 1] == p + q[..n];
      PixelConcat(p, q[..n], x);
    }
  }

  lemma OrderedConcat(p: seq<Span>, q: seq<Span>, width: nat)
    requires Ordered(p, width) && Ordered(q, width) && (q != [] ==> End(p) <= q[0].first)
    ensures Ordered(p + q, width) && End(p + q) == if q == [] then End(p) else End(q)
  {}

  lemma CutShows(s: Span, o: Band, width: nat)
    requires s.first < s.last <= width && o.first <= o.last
    ensures var p := Cut(s, o);
      && p != [] && Ordered(p, width) && p[0].first == s.first && End(p) == s.last
      && forall x: nat :: Pixel(p, x) == if Over(s, x) then Painted(Some(Color(s)), o, x) else None
  {
    hide Color;
    var p := Cut(s, o);
    forall x: nat ensures Pixel(p, x) == if Over(s, x) then Painted(Some(Color(s)), o, x) else None {
      SameColor(s, s.(last := o.first));
      SameColor(s, s.(first := o.last));
      BandColor(o, Max(s.first, o.first), Min(s.last, o.last));
      FewPixels(p, x);
    }
  }

  lemma FewPixels(p: seq<Span>, x: nat)
    requires 1 <= |p| <= 3
    ensures Pixel(p, x) ==
      if |p| >= 3 && Over(p[2], x) then Some(Color(p[2]))
      else if |p| >= 2 && Over(p[1], x) then Some(Color(p[1]))
      else if Over(p[0], x) then Some(Color(p[0])) else None
  {
    hide Color;
    assert p[..|p| - 1][..0] == [];
    if |p| == 3 { assert p[..2][..1] == p[..1]; }
  }

  lemma OrderedPrefix(spans: seq<Span>, width: nat)
    requires Ordered(spans, width) && spans != []
    ensures var n := |spans| - 1;
      Ordered(spans[..n], width) && End(spans[..n]) <= spans[n].first < spans[n].last <= width
  {}

  /** The pieces of an ordered row under an upright band are ordered and cover the same pixels,
      those in the band with its colour. */
  lemma {:induction false} PiecesShow(spans: seq<Span>, o: Band, width: nat)
    requires Ordered(spans, width) && o.first <= o.last
    ensures var p := Pieces(spans, o);
      && Ordered(p, width) && End(p) == End(spans)
      && forall x: nat :: Pixel(p, x) == Painted(Pixel(spans, x), o, x)
  {
    hide Color, Cut, Ordered;
    if spans == [] {
      NothingShown(width);
    } else {
      var n := |spans| - 1;
      OrderedPrefix(spans, width);
      PiecesShow(spans[..n], o, width);
      var p, q := Pieces(spans[..n], o), Cut(spans[n], o);
      CutShows(spans[n], o, width);
      OrderedConcat(p, q, width);
      forall x: nat ensures Pixel(p + q, x) == Painted(Pixel(spans, x), o, x) { PixelConcat(p, q, x); }
    }
  }

  // ----- the buffer of 768 spans -----

  /** The second span continues the first. */
  predicate Joins(a: Span, b: Span) { a.last == b.first && Same(a, b) }

  /** How many spans a list comes to once continuations are merged. */
  function Runs(pieces: seq<Span>): nat {
    if pieces == [] then 0
    else
      var n := |pieces| - 1;
      Runs(pieces[..n]) + if n > 0 && Joins(pieces[n - 1], pieces[n]) then 0 else 1
  }

  /** The pieces before the last come to fewer than 768 spans. */
  predicate Roomy(pieces: seq<Span>) {
    pieces == [] || Runs(pieces[..|pieces| - 1]) < MAX_WIDTH
  }

  /** The list ends like the pieces do. */
  predicate SameTail(r: seq<Span>, pieces: seq<Span>) {
    r != [] && pieces != [] && End(r) == End(pieces) && Same(r[|r| - 1], pieces[|pieces| - 1])
  }

  lemma AppendOne(spans: seq<Span>, s: Span, width: nat)
    requires s.first < s.last <= width && |spans| < MAX_WIDTH
    ensures var r := Append(spans, s, width);
      && |r| == |spans| + (if spans != [] && Joins(spans[|spans| - 1], s) then 0 else 1)
      && SameTail(r, [s])
  {}

  /** The buffer holds as many spans as the pieces come to, up to 768. */
  lemma {:induction false} BufferCounts(pieces: seq<Span>, width: nat)
    requires Ordered(pieces, width)
    ensures var r := AppendAll([], pieces, width);
      && |r| == Min(Runs(pieces), MAX_WIDTH)
      && (pieces != [] && |r| < MAX_WIDTH ==> SameTail(r, pieces))
  {
    hide Append, Ordered;
    if pieces != [] {
      var n := |pieces| - 1;
      OrderedPrefix(pieces, width);
      BufferCounts(pieces[..n], width);
      var acc := AppendAll([], pieces[..n], width);
      if |acc| < MAX_WIDTH {
        AppendOne(acc, pieces[n], width);
      } else {
        AppendFull(acc, pieces[n], width);
      }
    }
  }

  lemma AppendFull(spans: seq<Span>, s: Span, width: nat)
    requires |spans| >= MAX_WIDTH
    ensures Append(spans, s, width) == spans
  {}

  lemma RoomyIs(pieces: seq<Span>, width: nat)
    requires Ordered(pieces, width) && pieces != []
    ensures Roomy(pieces) <==> |AppendAll([], pieces[..|pieces| - 1], width)| < MAX_WIDTH
  {
    OrderedPrefix(pieces, width);
    BufferCounts(pieces[..|pieces| - 1], width);
  }

  /** Appending ordered pieces always gives an ordered row, and one that shows them all exactly
      when the buffer does not fill up before the last. */
  lemma {:induction false} AppendAllShows(pieces: seq<Span>, width: nat)
    requires Ordered(pieces, width)
    ensures var r := AppendAll([], pieces, width);
      && Ordered(r, width) && End(r) <= End(pieces)
      && (Roomy(pieces) ==> End(r) == End(pieces) && forall x: nat :: Pixel(r, x) == Pixel(pieces, x))
      && (!Roomy(pieces) ==> Pixel(r, pieces[|pieces| - 1].first) != Pixel(pieces, pieces[|pieces| - 1].first))
  {
    hide Color, Ordered, Append, Roomy;
    NothingShown(width);
    NothingRoomy();
    if pieces != [] {
      RoomyIs(pieces, width);
      var n := |pieces| - 1;
      var acc := AppendAll([], pieces[..n], width);
      OrderedPrefix(pieces, width);
      AppendAllShows(pieces[..n], width);
      AppendShows(acc, pieces[n], width);
      if n > 0 {
        RoomyIs(pieces[..n], width);
        AppendGrows(AppendAll([], pieces[..n][..n - 1], width), pieces[n - 1], width);
      }
      if !Roomy(pieces) { NothingBeyond(acc, width, pieces[n].first); }
    }
  }

  lemma AppendGrows(spans: seq<Span>, s: Span, width: nat)
    ensures |spans| <= |Append(spans, s, width)|
  {}

  lemma {:induction false} RoomyNarrow(pieces: seq<Span>, width: nat)
    requires Ordered(pieces, width) && width <= MAX_WIDTH
    ensures Roomy(pieces)
  {
    if pieces != [] {
      var n := |pieces| - 1;
      OrderedPrefix(pieces, width);
      AppendAllShows(pieces[..n], width);
      RoomFor(AppendAll([], pieces[..n], width), pieces[n].first, width);
      RoomyIs(pieces, width);
    }
  }

  predicate Unmerged(pieces: seq<Span>) {
    forall i :: 0 < i < |pieces| ==> !Joins(pieces[i - 1], pieces[i])
  }

  lemma {:induction false} UnmergedRuns(pieces: seq<Span>)
    requires Unmerged(pieces)
    ensures Runs(pieces) == |pieces|
  {
    hide Joins;
    if pieces != [] { UnmergedRuns(pieces[..|pieces| - 1]); }
  }

  /** Where nothing merges, the buffer is big enough exactly for 768 pieces. */
  lemma RoomyUnmerged(pieces: seq<Span>)
    requires Unmerged(pieces)
    ensures Roomy(pieces) <==> |pieces| <= MAX_WIDTH
  {
    hide Joins;
    if pieces != [] { UnmergedRuns(pieces[..|pieces| - 1]); }
  }

  // ----- overlays with an upright band -----

  /** The row an overlay should leave. */
  ghost predicate Recoloured(spans: seq<Span>, o: Band, r: seq<Span>) {
    forall x: nat :: Pixel(r, x) == Painted(Pixel(spans, x), o, x)
  }

  /** An overlay of an ordered row of any width with an upright band keeps it ordered, and
      recolours exactly the covered part of the band, losing nothing, if and only if the pieces
      before the last come to fewer than 768 spans. */
  lemma OverlayShowsIff(spans: seq<Span>, first: nat, last: nat, color: nat, width: nat)
    requires Ordered(spans, width) && first <= Min(last, width)
    ensures var o, r := Band(first, Min(last, width), color), Overlay(spans, first, last, color, width);
      && Ordered(r, width)
      && (Recoloured(spans, o, r) <==> first >= width || Roomy(Pieces(spans, o)))
  {
    hide Color, OverlayAll, Ordered, Roomy;
    var o := Band(first, Min(last, width), color);
    NothingRoomy();
    if spans == [] || first >= width {
      forall x: nat ensures Pixel(spans, x) == Painted(Pixel(spans, x), o, x) {}
    } else {
      OverlayAppends(spans, o, width);
      PiecesShow(spans, o, width);
      AppendAllShows(Pieces(spans, o), width);
    }
  }

  lemma NothingRoomy()
    ensures Roomy([])
  {}

  /** A row of at most 768 pixels never fills the buffer. */
  lemma OverlayShows(spans: seq<Span>, first: nat, last: nat, color: nat, width: nat)
    requires Ordered(spans, width) && width <= MAX_WIDTH && first <= Min(last, width)
    ensures var r := Overlay(spans, first, last, color, width);
      && Ordered(r, width) && |r| <= MAX_WIDTH
      && Recoloured(spans, Band(first, Min(last, width), color), r)
  {
    hide Color, OverlayAll, Ordered, Roomy, Recoloured;
    var o := Band(first, Min(last, width), color);
    OverlayShowsIff(spans, first, last, color, width);
    PiecesShow(spans, o, width);
    RoomyNarrow(Pieces(spans, o), width);
    OrderedCount(Overlay(spans, first, last, color, width), width);
  }

  /** k spans with gaps between them. */
  function Comb(k: nat): seq<Span> { seq(k, i requires 0 <= i < k => Span(4 * i, 4 * i + 3, 7, 0, 0)) }

  lemma {:induction false} CombPieces(k: nat)
    requires k > 0
    ensures Pieces(Comb(k), Band(1, 2, 9)) ==
      [Span(0, 1, 7, 0, 0), Span(1, 2, 9, 0, 0), Span(2, 3, 7, 0, 0)] + Comb(k)[1..]
  {
    var o := Band(1, 2, 9);
    var n := k - 1;
    assert Comb(k)[..n] == Comb(n) && Comb(k)[n] == Span(4 * n, 4 * n + 3, 7, 0, 0);
    if n == 0 {
      assert Pieces(Comb(0), o) == [];
    } else {
      CombPieces(n);
      assert Cut(Comb(k)[n], o) == [Comb(k)[n]];
      assert Comb(k)[1..] == Comb(n)[1..] + [Comb(k)[n]];
    }
  }

  /** 768 spans in a row of 3072 pixels: cutting the first in three pushes the last two out. */
  lemma WideRowExample()
    ensures Ordered(Comb(768), 3072) && !Recoloured(Comb(768), Band(1, 2, 9), Overlay(Comb(768), 1, 2, 9, 3072))
  {
    hide Pieces, Roomy, Recoloured, Overlay;
    var o := Band(1, 2, 9);
    CombPieces(768);
    PiecesShow(Comb(768), o, 3072);
    RoomyUnmerged(Pieces(Comb(768), o));
    OverlayShowsIff(Comb(768), 1, 2, 9, 3072);
  }

  // ----- bands that end before they begin -----

  /** The span reaches over both ends of an inverted band. */
  predicate Straddles(s: Span, o: Band) { s.first < o.last && s.last > o.first }

  /** Two neighbours overlap. */
  predicate Broken(spans: seq<Span>) {
    exists i :: 0 < i < |spans| && spans[i - 1].last > spans[i].first
  }

  lemma BrokenStays(spans: seq<Span>, s: Span, width: nat)
    requires Broken(spans)
    ensures Broken(Append(spans, s, width))
  {
    var r := Append(spans, s, width);
    var i :| 0 < i < |spans| && spans[i - 1].last > spans[i].first;
    assert r[i - 1].last > r[i].first;
  }

  lemma {:induction false} BrokenForGood(spans: seq<Span>, pieces: seq<Span>, width: nat)
    requires Broken(spans)
    ensures Broken(AppendAll(spans, pieces, width))
  {
    hide Append, Broken;
    if pieces != [] {
      var n := |pieces| - 1;
      BrokenForGood(spans, pieces[..n], width);
      BrokenStays(AppendAll(spans, pieces[..n], width), pieces[n], width);
    }
  }

  /** A full buffer takes nothing more. */
  lemma {:induction false} FullForGood(spans: seq<Span>, pieces: seq<Span>, width: nat)
    requires |spans| >= MAX_WIDTH
    ensures AppendAll(spans, pieces, width) == spans
  {
    if pieces != [] { FullForGood(spans, pieces[..|pieces| - 1], width); }
  }

  lemma BrokenNotOrdered(spans: seq<Span>, width: nat)
    requires Broken(spans)
    ensures !Ordered(spans, width)
  {}

  /** Nothing is cut from spans that do not straddle an inverted band. */
  lemma {:induction false} InvertedPieces(spans: seq<Span>, o: Band)
    requires o.last < o.first && forall i :: 0 <= i < |spans| ==> !Straddles(spans[i], o)
    ensures Pieces(spans, o) == spans
  {
    if spans != [] { InvertedPieces(spans[..|spans| - 1], o); }
  }

  /** A band that ends before it begins does nothing to a row no span of which straddles it,
      except that a row too long for the buffer is cut short. */
  lemma InvertedQuiet(spans: seq<Span>, o: Band, width: nat)
    requires Ordered(spans, width) && o.last < o.first
    requires forall i :: 0 <= i < |spans| ==> !Straddles(spans[i], o)
    ensures var r := OverlayAll(spans, o, width);
      Ordered(r, width) && ((forall x: nat :: Pixel(r, x) == Pixel(spans, x)) <==> Roomy(spans))
  {
    hide Color, Append, Ordered, Roomy, Straddles, OverlayAll;
    OverlayAppends(spans, o, width);
    InvertedPieces(spans, o);
    AppendAllShows(spans, width);
  }

  /** The row up to the part of spans[i] before an inverted band comes to 768 spans, so that the
      part behind the band, which would overlap, is dropped. */
  predicate Saturated(spans: seq<Span>, i: nat, o: Band)
    requires i < |spans|
  {
    Runs(spans[..i] + [spans[i].(last := o.first)]) >= MAX_WIDTH
  }

  /** In terms of the buffer. */
  lemma SaturatedIs(spans: seq<Span>, i: nat, o: Band, width: nat)
    requires Ordered(spans, width) && o.last < o.first && i < |spans| && Straddles(spans[i], o)
    ensures Saturated(spans, i, o) <==>
      |Append(OverlayAll(spans[..i], o, width), spans[i].(last := o.first), width)| >= MAX_WIDTH
  {
    hide Append, Cut, OverlayAll;
    var head, a := spans[..i], spans[i].(last := o.first);
    OneStraddles(spans, o, width, i);
    OrderedParts(spans, width, i);
    InvertedPieces(head, o);
    OverlayAppends(head, o, width);
    OrderedConcat(head, [a], width);
    assert (head + [a])[..i] == head;
    BufferCounts(head + [a], width);
  }

  /** Spans on either side of one that straddles do not. */
  lemma OneStraddles(spans: seq<Span>, o: Band, width: nat, i: nat)
    requires Ordered(spans, width) && o.last < o.first && i < |spans| && Straddles(spans[i], o)
    ensures forall j :: 0 <= j < |spans| && j != i ==> !Straddles(spans[j], o)
  {
    forall j | 0 <= j < |spans| && j != i ensures !Straddles(spans[j], o) {
      if j < i { OrderedApart(spans, width, j, i); } else { OrderedApart(spans, width, i, j); }
    }
  }

  lemma {:induction false} OrderedApart(spans: seq<Span>, width: nat, i: nat, j: nat)
    requires Ordered(spans, width) && i < j < |spans|
    ensures spans[i].last <= spans[j].first
  {
    if i + 1 < j { OrderedApart(spans, width, i, j - 1); }
  }

  /** What a straddling span does to the row so far. */
  lemma StraddleBreaks(acc: seq<Span>, s: Span, o: Band, width: nat)
    requires Ordered(acc, width) && End(acc) <= s.first < s.last <= width
    requires o.last < o.first && Straddles(s, o)
    ensures var r, before := AppendAll(acc, Cut(s, o), width), Append(acc, s.(last := o.first), width);
      && Ordered(before, width)
      && (|before| >= MAX_WIDTH ==> r == before)
      && (|before| < MAX_WIDTH ==> Broken(r))
  {
    hide Pixel;
    var a, c := s.(last := o.first), s.(first := o.last);
    var before := Append(acc, a, width);
    AppendShows(acc, a, width);
    AppendFew(acc, a, c, c, width);
    assert Cut(s, o) == [a, c];
    if |before| < MAX_WIDTH {
      AppendGrows(acc, a, width);
      var r := Append(before, c, width);
      assert r == before + [c];
      assert r[|before| - 1].last > r[|before|].first;
    }
  }

  lemma InvertedIff(spans: seq<Span>, o: Band, width: nat, i: nat)
    requires Ordered(spans, width) && o.last < o.first && i < |spans| && Straddles(spans[i], o)
    ensures Ordered(OverlayAll(spans, o, width), width) <==> Saturated(spans, i, o)
  {
    hide Append, Ordered, Straddles, Cut, OverlayAll, Broken, Pixel, Saturated;
    SaturatedIs(spans, i, o, width);
    var head, s, tail := spans[..i], spans[i], spans[i + 1..];
    assert spans == head + [s] + tail;
    OneStraddles(spans, o, width, i);
    OrderedParts(spans, width, i);
    InvertedQuiet(head, o, width);
    InvertedPieces(head, o);
    AppendAllShows(head, width);
    OverlayAppends(head, o, width);
    OverlayAppends(spans, o, width);
    PiecesConcat(head, [s], o);
    PiecesConcat(head + [s], tail, o);
    PiecesOne(s, o);
    var acc := OverlayAll(head, o, width);
    AppendAllConcat([], head, Cut(s, o), width);
    AppendAllConcat([], head + Cut(s, o), Pieces(tail, o), width);
    var r := AppendAll(acc, Cut(s, o), width);
    StraddleBreaks(acc, s, o, width);
    if |Append(acc, s.(last := o.first), width)| >= MAX_WIDTH {
      FullForGood(r, Pieces(tail, o), width);
    } else {
      BrokenForGood(r, Pieces(tail, o), width);
      BrokenNotOrdered(OverlayAll(spans, o, width), width);
    }
  }

  lemma OrderedParts(spans: seq<Span>, width: nat, i: nat)
    requires Ordered(spans, width) && i < |spans|
    ensures Ordered(spans[..i], width) && End(spans[..i]) <= spans[i].first < spans[i].last <= width
  {}

  lemma PiecesOne(s: Span, o: Band)
    ensures Pieces([s], o) == Cut(s, o)
  {
    hide Cut;
    assert [s][..0] == [] && Pieces([], o) == [];
  }

  lemma {:induction false} PiecesConcat(a: seq<Span>, b: seq<Span>, o: Band)
    ensures Pieces(a + b, o) == Pieces(a, o) + Pieces(b, o)
  {
    hide Cut;
    if b == [] {
      assert a + b == a;
    } else {
      var n := |b| - 1;
      assert (a + b)[..|a + b| - 1] == a + b[..n];
      PiecesConcat(a, b[..n], o);
    }
  }

  /** Exactly when an overlay keeps an ordered row of any width ordered: the band starts past the
      row or is not inverted, or a span that lies across it is cut off by the full buffer, or there
      is no such span. */
  lemma OverlayOrderedIff(spans: seq<Span>, first: nat, last: nat, color: nat, width: nat)
    requires Ordered(spans, width)
    ensures var o := Band(first, Min(last, width), color);
      Ordered(Overlay(spans, first, last, color, width), width) <==>
        (first >= width || first <= o.last
         || forall i :: 0 <= i < |spans| && Straddles(spans[i], o) ==> Saturated(spans, i, o))
  {
    hide Color, OverlayAll, Roomy, Saturated, Recoloured, Straddles;
    var o := Band(first, Min(last, width), color);
    if first < width {
      if first <= o.last {
        OverlayShowsIff(spans, first, last, color, width);
      } else if i :| 0 <= i < |spans| && Straddles(spans[i], o) {
        OneStraddles(spans, o, width, i);
        InvertedIff(spans, o, width, i);
      } else {
        InvertedQuiet(spans, o, width);
      }
    }
  }

  /** A row of at most 768 pixels is never saturated. */
  lemma NarrowNeverSaturated(spans: seq<Span>, i: nat, o: Band, width: nat)
    requires Ordered(spans, width) && width <= MAX_WIDTH && i < |spans|
    requires o.last < o.first && Straddles(spans[i], o)
    ensures !Saturated(spans, i, o)
  {
    hide Color, OverlayAll, Pixel, Saturated;
    SaturatedIs(spans, i, o, width);
    OneStraddles(spans, o, width, i);
    OrderedParts(spans, width, i);
    InvertedPieces(spans[..i], o);
    OverlayAppends(spans[..i], o, width);
    AppendAllShows(spans[..i], width);
    var acc, a := OverlayAll(spans[..i], o, width), spans[i].(last := o.first);
    AppendShows(acc, a, width);
    RoomFor(acc, a.first, width);
    RoomFor(Append(acc, a, width), o.first, width);
  }

  /** A one-span row and a band from 5 back to 3: the row comes out overlapping itself. */
  lemma InvertedBandExample()
    ensures var spans := [Span(0, 10, 7, 0, 0)];
      Ordered(spans, 10) && !Ordered(Overlay(spans, 5, 3, 9, 10), 10)
  {
    hide Saturated, Overlay;
    var spans, o := [Span(0, 10, 7, 0, 0)], Band(5, 3, 9);
    assert Straddles(spans[0], o);
    NarrowNeverSaturated(spans, 0, o, 10);
    OverlayOrderedIff(spans, 5, 3, 9, 10);
  }

  // ----- staying inside the row -----

  predicate Bounded(spans: seq<Span>, width: nat) { forall i :: 0 <= i < |spans| ==> spans[i].last <= width }

  lemma AppendBounded(spans: seq<Span>, s: Span, width: nat)
    requires Bounded(spans, width)
    ensures Bounded(Append(spans, s, width), width)
  {}

  /** Even an inverted band leaves every span inside the row. */
  lemma {:induction false} OverlayBounded(spans: seq<Span>, o: Band, width: nat)
    ensures Bounded(OverlayAll(spans, o, width), width)
  {
    hide Append, Bounded;
    if spans == [] {
      NothingBounded(width);
    } else {
      var acc, s := OverlayAll(spans[..|spans| - 1], o, width), spans[|spans| - 1];
      OverlayBounded(spans[..|spans| - 1], o, width);
      AppendBounded(acc, s, width);
      AppendBounded(acc, s.(last := o.first), width);
      var before := if s.first < o.first then Append(acc, s.(last := o.first), width) else acc;
      var band := Span(Max(s.first, o.first), Min(s.last, o.last), o.color, 0, 0);
      AppendBounded(before, band, width);
      AppendBounded(Append(before, band, width), s.(first := o.last), width);
    }
  }

  lemma NothingBounded(width: nat)
    ensures Bounded([], width)
  {}

  // ----- rows made from native pixels -----

  /** A list that shows every pixel of a row. */
  ghost predicate Shows(spans: seq<Span>, row: seq<nat>) {
    forall x :: 0 <= x < |row| ==> Pixel(spans, x) == Some(row[x])
  }

  /** The run-length scan of publish: the row's own pixels as spans. */
  method Synthesize(row: seq<nat>) returns (spans: seq<Span>)
    requires |row| <= MAX_WIDTH
    ensures Ordered(spans, |row|) && Shows(spans, row)
    ensures row != [] ==> spans != []
  {
    hide Color, Append, Ordered, Pixel;
    spans := [];
    NothingShown(|row|);
    var x := 0;
    while x < |row|
      invariant 0 <= x <= |row| && Ordered(spans, |row|) && End(spans) == x
      invariant forall k :: 0 <= k < x ==> Pixel(spans, k) == Some(row[k])
    {
      var color := row[x];
      var end := x + 1;
      while end < |row| && row[end] == color
        invariant x < end <= |row| && forall k :: x <= k < end ==> row[k] == color
      {
        end := end + 1;
      }
      var s := Span(x, end, color, 0, 0);
      AppendShows(spans, s, |row|);
      RoomFor(spans, x, |row|);
      BandColor(Band(0, 0, color), x, end);
      spans := Append(spans, s, |row|);
      x := end;
    }
  }

  lemma NothingShown(width: nat)
    ensures Ordered([], width) && End([]) == 0
  {}

  /** The pixels under a list are its colours, the others as they were. */
  ghost predicate Rendered(spans: seq<Span>, pixels: seq<nat>, r: seq<nat>) {
    && |r| == |pixels|
    && forall x :: 0 <= x < |pixels| ==> r[x] == match Pixel(spans, x) case Some(color) => color case None => pixels[x]
  }

  /** cdi_raster_native for one row of `width` pixels at offset `at` of the buffer: spans painted
      in order over what was there. */
  method RenderRow(spans: seq<Span>, pixels: array<nat>, at: nat, width: nat)
    requires Bounded(spans, width) && at + width <= pixels.Length
    modifies pixels
    ensures Rendered(spans, old(pixels[at..at + width]), pixels[at..at + width])
    ensures forall k :: 0 <= k < pixels.Length && !(at <= k < at + width) ==> pixels[k] == old(pixels[k])
  {
    hide Color, Rendered;
    ghost var was := pixels[at..at + width];
    RenderedNone(was);
    var i := 0;
    while i < |spans|
      invariant 0 <= i <= |spans|
      invariant Rendered(spans[..i], was, pixels[at..at + width])
      invariant forall k :: 0 <= k < pixels.Length && !(at <= k < at + width) ==> pixels[k] == old(pixels[k])
    {
      ghost var before := pixels[at..at + width];
      PaintSpan(spans[i], pixels, at, width);
      RenderedNext(spans, i, was, before, pixels[at..at + width]);
      i := i + 1;
    }
    assert spans[..|spans|] == spans;
  }

  method PaintSpan(s: Span, pixels: array<nat>, at: nat, width: nat)
    requires s.last <= width && at + width <= pixels.Length
    modifies pixels
    ensures forall k :: 0 <= k < pixels.Length ==>
      pixels[k] == if at + s.first <= k < at + s.last then Color(s) else old(pixels[k])
  {
    hide Color;
    var color := Color(s);
    var x := s.first;
    while x < s.last
      invariant x == s.first || s.first < x <= s.last
      invariant forall k :: 0 <= k < pixels.Length ==>
        pixels[k] == if at + s.first <= k < at + x then color else old(pixels[k])
    {
      pixels[at + x] := color;
      x := x + 1;
    }
  }

  lemma RenderedNone(pixels: seq<nat>)
    ensures Rendered([], pixels, pixels)
  {}

  lemma RenderedNext(spans: seq<Span>, i: nat, was: seq<nat>, before: seq<nat>, r: seq<nat>)
    requires i < |spans| && Rendered(spans[..i], was, before) && |r| == |before|
    requires forall x :: 0 <= x < |r| ==> r[x] == if Over(spans[i], x) then Color(spans[i]) else before[x]
    ensures Rendered(spans[..i + 1], was, r)
  {
    hide Color;
    assert spans[..i + 1][..i] == spans[..i];
  }

  /** Synthesising a row and rendering it again gives back the native pixels, whatever the
      buffer held. */
  method SynthesizeAndRender(row: seq<nat>, buffer: array<nat>) returns (spans: seq<Span>)
    requires |row| == buffer.Length <= MAX_WIDTH
    modifies buffer
    ensures buffer[..] == row
  {
    hide Pixel;
    spans := Synthesize(row);
    RenderRow(spans, buffer, 0, |row|);
    assert buffer[..] == buffer[0..|row|];
  }
}
