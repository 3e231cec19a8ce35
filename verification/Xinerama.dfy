/**
 Reading an image that spans several screens. The picture is stitched together
 from the screens' own images, box by box and chunk by chunk; it comes out as
 if it had been read from one big screen.
 */
module Xinerama {
  import opened Bits

  // ---------- pixels in a buffer ----------

  function Slice(data: seq<byte>, at: nat, n: nat): seq<byte> {
    if at + n <= |data| then data[at..at + n] else []
  }

  /** The pixel in row r, column c of a buffer of rows of `pitch` bytes. */
  function PixelAt(data: seq<byte>, pitch: nat, bpp: nat, r: nat, c: nat): seq<byte> {
    Slice(data, Times(r, pitch) + Times(c, bpp), bpp)
  }

  function Splice(data: seq<byte>, at: nat, src: seq<byte>): (r: seq<byte>)
    requires at + |src| <= |data|
    ensures |r| == |data|
  {
    data[..at] + src + data[at + |src|..]
  }

  lemma {:induction false} SpliceSlice(data: seq<byte>, at: nat, src: seq<byte>, i: nat, n: nat)
    requires at + |src| <= |data| && i + n <= |data|
    ensures i + n <= at || at + |src| <= i ==> Slice(Splice(data, at, src), i, n) == Slice(data, i, n)
    ensures at <= i && i + n <= at + |src| ==> Slice(Splice(data, at, src), i, n) == Slice(src, i - at, n)
  {
    var r := Splice(data, at, src);
    assert forall k :: 0 <= k < |r| ==>
        r[k] == if k < at then data[k] else if k < at + |src| then src[k - at] else data[k];
  }

  /** A run of pixels inside one row ends before the next row starts, and inside the buffer. */
  lemma {:induction false} RunFits(n: nat, pitch: nat, bpp: nat, cols: nat, rows: nat, r: nat, c: nat, w: nat)
    requires Times(cols, bpp) <= pitch && Times(rows, pitch) <= n && r < rows && c + w <= cols
    ensures Times(c, bpp) + Times(w, bpp) == Times(c + w, bpp) <= pitch
    ensures Times(r, pitch) + pitch <= n
  {
    TimesMono(c + w, cols, bpp);
    TimesStep(r, rows, pitch);
    TimesAdd(c, w, bpp);
  }

  /** Whether pixel (s, d) lies in the run of w pixels from (r, c) on, and where in it. */
  lemma {:induction false} RunPosition(
    n: nat, pitch: nat, bpp: nat, cols: nat, rows: nat, r: nat, c: nat, w: nat, s: nat, d: nat)
    requires Times(cols, bpp) <= pitch && Times(rows, pitch) <= n && r < rows && c + w <= cols && s < rows && d < cols
    ensures var at, i, len := Times(r, pitch) + Times(c, bpp), Times(s, pitch) + Times(d, bpp), Times(w, bpp);
            && i + bpp <= n
            && if s == r && c <= d < c + w then i == at + Times(d - c, bpp) && Times(d - c, bpp) + bpp <= len
               else i + bpp <= at || at + len <= i
  {
    RunFits(n, pitch, bpp, cols, rows, r, c, w);
    RunFits(n, pitch, bpp, cols, rows, s, d, 1);
    if s < r {
      TimesStep(s, r, pitch);
    } else if r < s {
      TimesStep(r, s, pitch);
    } else if d < c {
      TimesStep(d, c, bpp);
    } else if d < c + w {
      TimesStep(d - c, w, bpp);
      TimesAdd(c, d - c, bpp);
    } else {
      TimesMono(c + w, d, bpp);
    }
  }

  /** Copying a run of w pixels into row r changes exactly those pixels. */
  lemma {:induction false} SplicePixels(
    data: seq<byte>, pitch: nat, bpp: nat, cols: nat, rows: nat, r: nat, c: nat, w: nat, src: seq<byte>, s: nat, d: nat)
    requires Times(cols, bpp) <= pitch && Times(rows, pitch) <= |data| && r < rows && c + w <= cols
    requires |src| == Times(w, bpp)
    requires Times(r, pitch) + Times(c, bpp) + |src| <= |data|
    requires s < rows && d < cols
    ensures PixelAt(Splice(data, Times(r, pitch) + Times(c, bpp), src), pitch, bpp, s, d) ==
            if s == r && c <= d < c + w then PixelAt(src, 0, bpp, 0, d - c) else PixelAt(data, pitch, bpp, s, d)
  {
    var at, i := Times(r, pitch) + Times(c, bpp), Times(s, pitch) + Times(d, bpp);
    RunPosition(|data|, pitch, bpp, cols, rows, r, c, w, s, d);
    SpliceSlice(data, at, src, i, bpp);
    if s == r && c <= d < c + w {
      assert i - at == Times(d - c, bpp);
      assert PixelAt(src, 0, bpp, 0, d - c) == Slice(src, i - at, bpp);
    }
  }

  // ---------- rows that stay as they were ----------

  /** Every byte outside rows [r0, r1) is as before, padding included. */
  ghost predicate RowsKept(now: seq<byte>, before: seq<byte>, pitch: nat, r0: nat, r1: nat) {
    && |now| == |before|
    && forall k :: 0 <= k < |now| && !(Times(r0, pitch) <= k < Times(r1, pitch)) ==> now[k] == before[k]
  }

  /** Two changes, each inside rows [t0, t1), change nothing outside those rows. */
  lemma {:induction false} RowsKeptThen(
    now: seq<byte>, mid: seq<byte>, before: seq<byte>, pitch: nat, r0: nat, r1: nat, s0: nat, s1: nat, t0: nat, t1: nat)
    requires RowsKept(mid, before, pitch, r0, r1) && RowsKept(now, mid, pitch, s0, s1)
    requires t0 <= r0 && r1 <= t1 && t0 <= s0 && s1 <= t1
    ensures RowsKept(now, before, pitch, t0, t1)
  {
    TimesMono(t0, r0, pitch);
    TimesMono(r1, t1, pitch);
    TimesMono(t0, s0, pitch);
    TimesMono(s1, t1, pitch);
  }

  /** A pixel of a kept row is as before. */
  lemma {:induction false} KeptPixel(
    now: seq<byte>, before: seq<byte>, pitch: nat, bpp: nat, r0: nat, r1: nat, cols: nat, rows: nat, r: nat, c: nat)
    requires RowsKept(now, before, pitch, r0, r1) && Times(cols, bpp) <= pitch && Times(rows, pitch) <= |now|
    requires r < rows && c < cols && !(r0 <= r < r1)
    ensures PixelAt(now, pitch, bpp, r, c) == PixelAt(before, pitch, bpp, r, c)
  {
    RunFits(|now|, pitch, bpp, cols, rows, r, c, 1);
    if r < r0 {
      TimesStep(r, r0, pitch);
    } else {
      TimesMono(r1, r, pitch);
    }
    var at := Times(r, pitch) + Times(c, bpp);
    assert Times(1, bpp) == bpp by {
      assert Times(0, bpp) == 0;
    }
    assert forall k :: at <= k < at + bpp ==> now[k] == before[k];
    assert now[at..at + bpp] == before[at..at + bpp];
  }

  /** A splice inside row r keeps the other rows. */
  lemma {:induction false} SpliceKeepsRows(data: seq<byte>, pitch: nat, r: nat, from: nat, src: seq<byte>)
    requires from + |src| <= pitch && Times(r, pitch) + pitch <= |data|
    ensures RowsKept(Splice(data, Times(r, pitch) + from, src), data, pitch, r, r + 1)
  {
    assert Times(r + 1, pitch) == Times(r, pitch) + pitch;
  }

  // ---------- boxes and regions ----------

  datatype Point = Point(x: int, y: int)

  datatype Box = Box(x1: int, y1: int, x2: int, y2: int)

  predicate In(p: Point, b: Box) {
    b.x1 <= p.x < b.x2 && b.y1 <= p.y < b.y2
  }

  function Region(b: Box): (r: set<Point>)
    ensures forall p :: p in r <==> In(p, b)
  {
    set x, y | b.x1 <= x < b.x2 && b.y1 <= y < b.y2 :: Point(x, y)
  }

  predicate Inside(a: Box, b: Box) {
    b.x1 <= a.x1 && a.x2 <= b.x2 && b.y1 <= a.y1 && a.y2 <= b.y2
  }

  predicate Disjoint(a: Box, b: Box) {
    a.x2 <= b.x1 || b.x2 <= a.x1 || a.y2 <= b.y1 || b.y2 <= a.y1
  }

  /** Some boxes that together cover exactly a region. */
  method RegionRects(region: set<Point>) returns (boxes: seq<Box>)
    ensures forall k, p :: 0 <= k < |boxes| && In(p, boxes[k]) ==> p in region
    ensures forall p :: p in region ==> exists k :: 0 <= k < |boxes| && In(p, boxes[k])
    ensures forall k :: 0 <= k < |boxes| ==> boxes[k].x1 < boxes[k].x2 && boxes[k].y1 < boxes[k].y2
  {
    boxes := [];
    var rest := region;
    while rest != {}
      invariant rest <= region
      invariant forall k, p :: 0 <= k < |boxes| && In(p, boxes[k]) ==> p in region
      invariant forall p :: p in region ==> p in rest || exists k :: 0 <= k < |boxes| && In(p, boxes[k])
      invariant forall k :: 0 <= k < |boxes| ==> boxes[k].x1 < boxes[k].x2 && boxes[k].y1 < boxes[k].y2
      decreases rest
    {
      var p :| p in rest;
      ghost var before := boxes;
      boxes := boxes + [Box(p.x, p.y, p.x + 1, p.y + 1)];
      assert boxes[|before|] == Box(p.x, p.y, p.x + 1, p.y + 1) && In(p, boxes[|before|]);
      assert forall k :: 0 <= k < |before| ==> boxes[k] == before[k];
      rest := rest - {p};
    }
  }

  // ---------- screens ----------

  /** A screen: where it lies, where the drawable lies on it, and its own pixels. */
  datatype Screen = Screen(box: Box, drawX: int, drawY: int, frame: (int, int) -> seq<byte>)

  type Picture = (int, int) -> seq<byte>

  /** The screen shows the logical picture wherever it lies. */
  ghost predicate Shows(s: Screen, pic: Picture) {
    forall x, y :: In(Point(x, y), s.box) ==> s.frame(x - s.box.x1, y - s.box.y1) == pic(x, y)
  }

  ghost predicate PixelSize(s: Screen, bpp: nat) {
    forall x, y :: |s.frame(x, y)| == bpp
  }

  /** Where an image lies in a buffer: `box` starts at row `row0`, column 0. */
  datatype Frame = Frame(pitch: nat, bpp: nat, row0: nat, rows: nat, box: Box)

  ghost predicate FrameFits(g: Frame, size: nat) {
    && g.bpp > 0
    && g.box.x1 < g.box.x2 && g.box.y1 < g.box.y2
    && Times(g.box.x2 - g.box.x1, g.bpp) <= g.pitch
    && g.row0 + (g.box.y2 - g.box.y1) <= g.rows
    && Times(g.rows, g.pitch) <= size
  }

  /** The pixel of the buffer that stands for the logical point (x, y). */
  ghost function Px(data: seq<byte>, g: Frame, x: int, y: int): seq<byte>
    requires In(Point(x, y), g.box)
  {
    PixelAt(data, g.pitch, g.bpp, g.row0 + (y - g.box.y1), x - g.box.x1)
  }

  /** All bytes of the rows that do not belong to the frame are as before. */
  ghost predicate OtherRowsKept(now: seq<byte>, before: seq<byte>, g: Frame) {
    g.box.y1 <= g.box.y2 && RowsKept(now, before, g.pitch, g.row0, g.row0 + (g.box.y2 - g.box.y1))
  }

  /** Points of `region` are as before, the other points of the frame show the picture. */
  ghost predicate Painted(now: seq<byte>, before: seq<byte>, g: Frame, region: set<Point>, pic: Picture) {
    && OtherRowsKept(now, before, g)
    && forall x, y :: In(Point(x, y), g.box) ==>
         Px(now, g, x, y) == if Point(x, y) in region then Px(before, g, x, y) else pic(x, y)
  }

  // ---------- copying ----------

  lemma {:induction false} SpliceNext(data: seq<byte>, at: nat, src: seq<byte>, k: nat)
    requires at + |src| <= |data| && k < |src|
    ensures Splice(data, at, src[..k])[at + k := src[k]] == Splice(data, at, src[..k + 1])
  {
    assert src[..k + 1] == src[..k] + [src[k]];
  }

  /** memcpy into the buffer. */
  method CopyBytes(data: array<byte>, at: nat, src: seq<byte>)
    requires at + |src| <= data.Length
    modifies data
    ensures data[..] == Splice(old(data[..]), at, src)
  {
    var k := 0;
    assert data[..] == Splice(data[..], at, src[..0]);
    while k < |src|
      invariant k <= |src|
      invariant data[..] == Splice(old(data[..]), at, src[..k])
    {
      SpliceNext(old(data[..]), at, src, k);
      data[at + k] := src[k];
      k := k + 1;
    }
    assert src[..k] == src;
  }

  /** w pixels from (r, c) on are those of `src`, every other pixel is as before, and so are the other rows. */
  ghost predicate RunCopied(
    now: seq<byte>, before: seq<byte>, pitch: nat, bpp: nat, cols: nat, rows: nat, r: nat, c: nat, w: nat,
    src: seq<byte>)
  {
    && RowsKept(now, before, pitch, r, r + 1)
    && forall s: nat, d: nat :: s < rows && d < cols ==>
         PixelAt(now, pitch, bpp, s, d) ==
         if s == r && c <= d < c + w then PixelAt(src, 0, bpp, 0, d - c) else PixelAt(before, pitch, bpp, s, d)
  }

  /** Copies w pixels to row r from column c on. */
  method CopyRun(data: array<byte>, pitch: nat, bpp: nat, ghost cols: nat, ghost rows: nat,
                 r: nat, c: nat, ghost w: nat, src: seq<byte>)
    requires Times(cols, bpp) <= pitch && Times(rows, pitch) <= data.Length
    requires r < rows && c + w <= cols && |src| == Times(w, bpp)
    modifies data
    ensures RunCopied(data[..], old(data[..]), pitch, bpp, cols, rows, r, c, w, src)
  {
    RunFits(data.Length, pitch, bpp, cols, rows, r, c, w);
    ghost var before := data[..];
    SpliceKeepsRows(before, pitch, r, Times(c, bpp), src);
    CopyBytes(data, Times(r, pitch) + Times(c, bpp), src);
    forall s: nat, d: nat | s < rows && d < cols
      ensures PixelAt(data[..], pitch, bpp, s, d) ==
              if s == r && c <= d < c + w then PixelAt(src, 0, bpp, 0, d - c) else PixelAt(before, pitch, bpp, s, d)
    {
      SplicePixels(before, pitch, bpp, cols, rows, r, c, w, src, s, d);
    }
  }

  /** Rows [row0, row0 + h) show the w by h box of the drawable at (x, y); the other rows are as before. */
  ghost predicate ImageRead(
    now: seq<byte>, before: seq<byte>, s: Screen, x: int, y: int, w: nat, h: nat, bpp: nat, pitch: nat, row0: nat,
    rows: nat)
  {
    && RowsKept(now, before, pitch, row0, row0 + h)
    && forall r: nat, c: nat :: r < rows && c < w ==>
         PixelAt(now, pitch, bpp, r, c) ==
         if row0 <= r < row0 + h then s.frame(s.drawX + x + c, s.drawY + y + (r - row0))
         else PixelAt(before, pitch, bpp, r, c)
  }

  /** One more row of an image. */
  lemma {:induction false} ImageNextRow(
    now: seq<byte>, mid: seq<byte>, before: seq<byte>, s: Screen, x: int, y: int, w: nat, h: nat, bpp: nat, pitch: nat,
    row0: nat, rows: nat)
    requires ImageRead(mid, before, s, x, y, w, h, bpp, pitch, row0, rows)
    requires ImageRead(now, mid, s, x, y + h, w, 1, bpp, pitch, row0 + h, rows)
    ensures ImageRead(now, before, s, x, y, w, h + 1, bpp, pitch, row0, rows)
  {
    RowsKeptThen(now, mid, before, pitch, row0, row0 + h, row0 + h, row0 + h + 1, row0, row0 + h + 1);
  }

  /** A driver's image of a w by h box of the drawable on screen `s`, in rows from `row0` on. */
  method GetImage(s: Screen, x: int, y: int, w: nat, h: nat, bpp: nat, data: array<byte>, pitch: nat,
                  row0: nat, ghost rows: nat)
    requires PixelSize(s, bpp) && Times(w, bpp) <= pitch && Times(rows, pitch) <= data.Length && row0 + h <= rows
    modifies data
    ensures ImageRead(data[..], old(data[..]), s, x, y, w, h, bpp, pitch, row0, rows)
  {
    var j := 0;
    while j < h
      invariant j <= h
      invariant ImageRead(data[..], old(data[..]), s, x, y, w, j, bpp, pitch, row0, rows)
    {
      ghost var mid := data[..];
      ReadRow(s, x, y + j, w, bpp, data, pitch, row0 + j, rows);
      ImageNextRow(data[..], mid, old(data[..]), s, x, y, w, j, bpp, pitch, row0, rows);
      j := j + 1;
    }
  }

  /** The first i pixels of a row show the drawable at (x, y); every other pixel and row is as before. */
  ghost predicate RowRead(
    now: seq<byte>, before: seq<byte>, s: Screen, x: int, y: int, w: nat, i: nat, bpp: nat, pitch: nat, row: nat,
    rows: nat)
  {
    && RowsKept(now, before, pitch, row, row + 1)
    && forall r: nat, c: nat :: r < rows && c < w ==>
         PixelAt(now, pitch, bpp, r, c) ==
         if r == row && c < i then s.frame(s.drawX + x + c, s.drawY + y) else PixelAt(before, pitch, bpp, r, c)
  }

  lemma {:induction false} RowNextPixel(
    now: seq<byte>, mid: seq<byte>, before: seq<byte>, s: Screen, x: int, y: int, w: nat, i: nat, bpp: nat, pitch: nat,
    row: nat, rows: nat, pixel: seq<byte>)
    requires RowRead(mid, before, s, x, y, w, i, bpp, pitch, row, rows)
    requires RunCopied(now, mid, pitch, bpp, w, rows, row, i, 1, pixel)
    requires PixelAt(pixel, 0, bpp, 0, 0) == s.frame(s.drawX + x + i, s.drawY + y)
    ensures RowRead(now, before, s, x, y, w, i + 1, bpp, pitch, row, rows)
  {
    RowsKeptThen(now, mid, before, pitch, row, row + 1, row, row + 1, row, row + 1);
  }

  lemma {:induction false} RowIsImage(
    now: seq<byte>, before: seq<byte>, s: Screen, x: int, y: int, w: nat, bpp: nat, pitch: nat, row: nat, rows: nat)
    requires RowRead(now, before, s, x, y, w, w, bpp, pitch, row, rows)
    ensures ImageRead(now, before, s, x, y, w, 1, bpp, pitch, row, rows)
  {
  }

  method ReadRow(s: Screen, x: int, y: int, w: nat, bpp: nat, data: array<byte>, pitch: nat, row: nat, ghost rows: nat)
    requires PixelSize(s, bpp) && Times(w, bpp) <= pitch && Times(rows, pitch) <= data.Length && row < rows
    modifies data
    ensures ImageRead(data[..], old(data[..]), s, x, y, w, 1, bpp, pitch, row, rows)
  {
    var i := 0;
    while i < w
      invariant i <= w
      invariant RowRead(data[..], old(data[..]), s, x, y, w, i, bpp, pitch, row, rows)
    {
      var pixel := s.frame(s.drawX + x + i, s.drawY + y);
      OnePixel(pixel, bpp);
      ghost var mid := data[..];
      CopyRun(data, pitch, bpp, w, rows, row, i, 1, pixel);
      RowNextPixel(data[..], mid, old(data[..]), s, x, y, w, i, bpp, pitch, row, rows, pixel);
      i := i + 1;
    }
    RowIsImage(data[..], old(data[..]), s, x, y, w, bpp, pitch, row, rows);
  }

  lemma {:induction false} OnePixel(pixel: seq<byte>, bpp: nat)
    requires |pixel| == bpp
    ensures Times(1, bpp) == bpp && PixelAt(pixel, 0, bpp, 0, 0) == pixel
  {
    assert Times(0, bpp) == 0 && pixel[0..bpp] == pixel;
  }

  lemma {:induction false} RowOfScratch(scratch: seq<byte>, sp: nat, bpp: nat, w: nat, h: nat, j: nat, i: nat)
    requires Times(w, bpp) <= sp && Times(h, sp) <= |scratch| && j < h && i < w
    ensures Times(j, sp) + Times(w, bpp) <= |scratch|
    ensures PixelAt(scratch[Times(j, sp)..Times(j, sp) + Times(w, bpp)], 0, bpp, 0, i) ==
            PixelAt(scratch, sp, bpp, j, i)
  {
    TimesStep(j, h, sp);
    TimesStep(i, w, bpp);
    assert Times(0, 0) == 0;
    var at, from := Times(j, sp), Times(i, bpp);
    SliceOfSlice(scratch, at, Times(w, bpp), from, bpp);
  }

  lemma {:induction false} SliceOfSlice(s: seq<byte>, at: nat, n: nat, from: nat, m: nat)
    requires at + n <= |s| && from + m <= n
    ensures s[at..at + n][from..from + m] == s[at + from..at + from + m]
  {
    var left, right := s[at..at + n][from..from + m], s[at + from..at + from + m];
    assert |left| == |right| && forall k :: 0 <= k < m ==> left[k] == right[k];
  }

  /** h rows of w pixels at (y0, x0) are rows j0 on of `image`, everything else is as before. */
  ghost predicate BoxCopied(
    now: seq<byte>, before: seq<byte>, pitch: nat, bpp: nat, cols: nat, rows: nat, x0: nat, y0: nat, w: nat, h: nat,
    image: seq<byte>, sp: nat, j0: nat)
  {
    && RowsKept(now, before, pitch, y0, y0 + h)
    && forall r: nat, c: nat :: r < rows && c < cols ==>
         PixelAt(now, pitch, bpp, r, c) ==
         if y0 <= r < y0 + h && x0 <= c < x0 + w then PixelAt(image, sp, bpp, j0 + (r - y0), c - x0)
         else PixelAt(before, pitch, bpp, r, c)
  }

  /** One more row of a box. */
  lemma {:induction false} BoxNextRow(
    now: seq<byte>, mid: seq<byte>, before: seq<byte>, pitch: nat, bpp: nat, cols: nat, rows: nat, x0: nat, y0: nat,
    w: nat, h: nat, image: seq<byte>, sp: nat)
    requires BoxCopied(mid, before, pitch, bpp, cols, rows, x0, y0, w, h, image, sp, 0)
    requires BoxCopied(now, mid, pitch, bpp, cols, rows, x0, y0 + h, w, 1, image, sp, h)
    ensures BoxCopied(now, before, pitch, bpp, cols, rows, x0, y0, w, h + 1, image, sp, 0)
  {
    RowsKeptThen(now, mid, before, pitch, y0, y0 + h, y0 + h, y0 + h + 1, y0, y0 + h + 1);
  }

  lemma {:induction false} RunIsBoxRow(
    now: seq<byte>, before: seq<byte>, pitch: nat, bpp: nat, cols: nat, rows: nat, x0: nat, r: nat, w: nat,
    row: seq<byte>,
    image: seq<byte>, sp: nat, j: nat)
    requires RunCopied(now, before, pitch, bpp, cols, rows, r, x0, w, row)
    requires forall i :: 0 <= i < w ==> PixelAt(row, 0, bpp, 0, i) == PixelAt(image, sp, bpp, j, i)
    ensures BoxCopied(now, before, pitch, bpp, cols, rows, x0, r, w, 1, image, sp, j)
  {
  }

  /** Copies row j of a scratch image to row r, column x0 on. */
  method CopyBoxRow(data: array<byte>, pitch: nat, bpp: nat, ghost cols: nat, ghost rows: nat, r: nat, x0: nat, w: nat,
                    ghost h: nat, scratch: array<byte>, sp: nat, j: nat)
    requires Times(cols, bpp) <= pitch && Times(rows, pitch) <= data.Length && x0 + w <= cols && r < rows && w > 0
    requires Times(w, bpp) <= sp && Times(h, sp) <= scratch.Length && scratch != data && j < h
    modifies data
    ensures BoxCopied(data[..], old(data[..]), pitch, bpp, cols, rows, x0, r, w, 1, scratch[..], sp, j)
  {
    var at := Times(j, sp);
    RowOfScratch(scratch[..], sp, bpp, w, h, j, 0);
    var row := scratch[..][at..at + Times(w, bpp)];
    forall i | 0 <= i < w
      ensures PixelAt(row, 0, bpp, 0, i) == PixelAt(scratch[..], sp, bpp, j, i)
    {
      RowOfScratch(scratch[..], sp, bpp, w, h, j, i);
    }
    ghost var before := data[..];
    CopyRun(data, pitch, bpp, cols, rows, r, x0, w, row);
    RunIsBoxRow(data[..], before, pitch, bpp, cols, rows, x0, r, w, row, scratch[..], sp, j);
  }

  /** Copies the rows of a scratch image to row y0, column x0 on. */
  method CopyBox(data: array<byte>, pitch: nat, bpp: nat, ghost cols: nat, ghost rows: nat,
                 x0: nat, y0: nat, w: nat, h: nat, scratch: array<byte>, sp: nat)
    requires Times(cols, bpp) <= pitch && Times(rows, pitch) <= data.Length && x0 + w <= cols && y0 + h <= rows && w > 0
    requires Times(w, bpp) <= sp && Times(h, sp) <= scratch.Length && scratch != data
    modifies data
    ensures BoxCopied(data[..], old(data[..]), pitch, bpp, cols, rows, x0, y0, w, h, scratch[..], sp, 0)
  {
    var j := 0;
    while j < h
      invariant j <= h && scratch[..] == old(scratch[..])
      invariant BoxCopied(data[..], old(data[..]), pitch, bpp, cols, rows, x0, y0, w, j, scratch[..], sp, 0)
    {
      ghost var mid := data[..];
      CopyBoxRow(data, pitch, bpp, cols, rows, y0 + j, x0, w, h, scratch, sp, j);
      BoxNextRow(data[..], mid, old(data[..]), pitch, bpp, cols, rows, x0, y0, w, j, scratch[..], sp);
      j := j + 1;
    }
  }

  /** PixmapBytePad for whole bytes per pixel: rows are padded to 32 bits. */
  function BytePad(w: nat, bpp: nat): (r: nat)
    ensures Times(w, bpp) <= r < Times(w, bpp) + 4 && r % 4 == 0
  {
    (Times(w, bpp) + 3) / 4 * 4
  }

  // ---------- one screen ----------

  /** Box `b` of the frame now shows the picture, everything else is as before. */
  ghost predicate Grabbed(now: seq<byte>, before: seq<byte>, g: Frame, b: Box, pic: Picture) {
    && OtherRowsKept(now, before, g)
    && forall x, y :: In(Point(x, y), g.box) ==>
         Px(now, g, x, y) == if In(Point(x, y), b) then pic(x, y) else Px(before, g, x, y)
  }

  /** What reading box `b` into scratch memory and copying it over leaves behind. */
  ghost predicate ReadAndCopied(
    now: seq<byte>, before: seq<byte>, image: seq<byte>, was: seq<byte>, sp: nat, s: Screen, g: Frame, b: Box)
    requires b.x1 < b.x2 && b.y1 < b.y2 && Inside(b, g.box)
  {
    var w, h := b.x2 - b.x1, b.y2 - b.y1;
    && ImageRead(image, was, s, b.x1 - s.drawX - s.box.x1, b.y1 - s.drawY - s.box.y1, w, h, g.bpp, sp, 0, h)
    && BoxCopied(now, before, g.pitch, g.bpp, g.box.x2 - g.box.x1, g.rows,
                 b.x1 - g.box.x1, g.row0 + (b.y1 - g.box.y1), w, h, image, sp, 0)
  }

  lemma {:induction false} CopiedPixel(
    now: seq<byte>, before: seq<byte>, image: seq<byte>, was: seq<byte>, sp: nat, s: Screen, g: Frame, b: Box,
    pic: Picture,
    x: int, y: int)
    requires FrameFits(g, |now|) && Shows(s, pic) && b.x1 < b.x2 && b.y1 < b.y2 && Inside(b, g.box) && Inside(b, s.box)
    requires ReadAndCopied(now, before, image, was, sp, s, g, b) && In(Point(x, y), g.box)
    ensures Px(now, g, x, y) == if In(Point(x, y), b) then pic(x, y) else Px(before, g, x, y)
  {
    if In(Point(x, y), b) {
      assert PixelAt(image, sp, g.bpp, y - b.y1, x - b.x1) == s.frame(x - s.box.x1, y - s.box.y1);
      assert In(Point(x, y), s.box);
    }
  }

  lemma {:induction false} CopiedBoxIsGrabbed(
    now: seq<byte>, before: seq<byte>, image: seq<byte>, was: seq<byte>, sp: nat, s: Screen, g: Frame, b: Box,
    pic: Picture)
    requires FrameFits(g, |now|) && Shows(s, pic) && b.x1 < b.x2 && b.y1 < b.y2 && Inside(b, g.box) && Inside(b, s.box)
    requires ReadAndCopied(now, before, image, was, sp, s, g, b)
    ensures Grabbed(now, before, g, b, pic)
  {
    var y0, h := g.row0 + (b.y1 - g.box.y1), b.y2 - b.y1;
    RowsKeptThen(now, before, before, g.pitch, y0, y0 + h, y0, y0 + h, g.row0, g.row0 + (g.box.y2 - g.box.y1));
    forall x, y | In(Point(x, y), g.box)
      ensures Px(now, g, x, y) == if In(Point(x, y), b) then pic(x, y) else Px(before, g, x, y)
    {
      CopiedPixel(now, before, image, was, sp, s, g, b, pic, x, y);
    }
  }

  /** Reads one box from a screen into scratch memory and copies it over. */
  method GrabBox(s: Screen, g: Frame, b: Box, data: array<byte>, scratch: array<byte>, ghost pic: Picture)
    requires FrameFits(g, data.Length) && Shows(s, pic) && PixelSize(s, g.bpp) && scratch != data
    requires b.x1 < b.x2 && b.y1 < b.y2 && Inside(b, g.box) && Inside(b, s.box)
    requires Times(b.y2 - b.y1, BytePad(b.x2 - b.x1, g.bpp)) <= scratch.Length
    modifies data, scratch
    ensures Grabbed(data[..], old(data[..]), g, b, pic)
  {
    var w, h := b.x2 - b.x1, b.y2 - b.y1;
    var sp := BytePad(w, g.bpp);
    ghost var before, was := data[..], scratch[..];
    GetImage(s, b.x1 - s.drawX - s.box.x1, b.y1 - s.drawY - s.box.y1, w, h, g.bpp, scratch, sp, 0, h);
    ghost var image := scratch[..];
    CopyBox(data, g.pitch, g.bpp, g.box.x2 - g.box.x1, g.rows,
            b.x1 - g.box.x1, g.row0 + (b.y1 - g.box.y1), w, h, scratch, sp);
    assert scratch[..] == image && data.Length == |before|;
    CopiedBoxIsGrabbed(data[..], before, image, was, sp, s, g, b, pic);
  }

  /** The points `copied` of the frame show the picture, everything else is as before. */
  ghost predicate Gathered(now: seq<byte>, before: seq<byte>, g: Frame, copied: set<Point>, pic: Picture) {
    && OtherRowsKept(now, before, g)
    && forall x, y :: In(Point(x, y), g.box) ==>
         Px(now, g, x, y) == if Point(x, y) in copied then pic(x, y) else Px(before, g, x, y)
  }

  lemma {:induction false} GatherOne(
    now: seq<byte>, mid: seq<byte>, before: seq<byte>, g: Frame, copied: set<Point>, b: Box, pic: Picture)
    requires Gathered(mid, before, g, copied, pic) && Grabbed(now, mid, g, b, pic)
    ensures Gathered(now, before, g, copied + Region(b), pic)
  {
  }

  /** Grabs a box with scratch memory that grows when it is too small. */
  method GrabWith(s: Screen, g: Frame, b: Box, data: array<byte>, scratch: array<byte>, ghost pic: Picture)
    returns (used: array<byte>)
    requires FrameFits(g, data.Length) && Shows(s, pic) && PixelSize(s, g.bpp) && scratch != data
    requires b.x1 < b.x2 && b.y1 < b.y2 && Inside(b, g.box) && Inside(b, s.box)
    modifies data, scratch
    ensures Grabbed(data[..], old(data[..]), g, b, pic)
    ensures used == scratch || fresh(used)
  {
    var size := Times(b.y2 - b.y1, BytePad(b.x2 - b.x1, g.bpp));
    used := scratch;
    if size > used.Length {
      used := new byte[size];
    }
    GrabBox(s, g, b, data, used, pic);
  }

  /** Copies the part `grab` of the frame from a screen, box by box. */
  method GrabRegion(s: Screen, g: Frame, grab: set<Point>, data: array<byte>, ghost pic: Picture)
    requires FrameFits(g, data.Length) && Shows(s, pic) && PixelSize(s, g.bpp)
    requires forall p :: p in grab ==> In(p, g.box) && In(p, s.box)
    modifies data
    ensures Gathered(data[..], old(data[..]), g, grab, pic)
  {
    var boxes := RegionRects(grab);
    var scratch := new byte[0];
    ghost var copied: set<Point> := {};
    var k := 0;
    while k < |boxes|
      invariant k <= |boxes| && fresh(scratch)
      invariant copied <= grab
      invariant forall j, p :: 0 <= j < k && In(p, boxes[j]) ==> p in copied
      invariant Gathered(data[..], old(data[..]), g, copied, pic)
    {
      var b := boxes[k];
      BoxOfRegion(b, g.box, s.box, grab);
      ghost var mid := data[..];
      scratch := GrabWith(s, g, b, data, scratch, pic);
      GatherOne(data[..], mid, old(data[..]), g, copied, b, pic);
      copied := copied + Region(b);
      k := k + 1;
    }
    assert copied == grab;
  }

  /** A box whose points all lie in two boxes lies inside both. */
  lemma {:induction false} BoxOfRegion(b: Box, g: Box, s: Box, region: set<Point>)
    requires b.x1 < b.x2 && b.y1 < b.y2
    requires forall p :: In(p, b) ==> p in region
    requires forall p :: p in region ==> In(p, g) && In(p, s)
    ensures Inside(b, g) && Inside(b, s)
  {
    assert In(Point(b.x1, b.y1), b) && In(Point(b.x2 - 1, b.y2 - 1), b);
  }

  // ---------- all screens ----------

  /** XineramaGetImageDataScr: takes what this screen can give; `more` tells whether to go on. */
  method GetImageDataScr(
    s: Screen, g: Frame, region: set<Point>, data: array<byte>, ghost before: seq<byte>, ghost pic: Picture)
    returns (more: bool, left: set<Point>)
    requires FrameFits(g, data.Length) && Shows(s, pic) && PixelSize(s, g.bpp)
    requires forall p :: p in region ==> In(p, g.box)
    requires Painted(data[..], before, g, region, pic)
    modifies data
    ensures Painted(data[..], before, g, left, pic)
    ensures left == region - Region(s.box)
    ensures !more ==> left == {}
    ensures more <==> !Inside(g.box, s.box) && (Disjoint(g.box, s.box) || region * Region(s.box) == {} || left != {})
  {
    left := region - Region(s.box);
    if Inside(g.box, s.box) {
      ReadWhole(s, g, data, before, pic);
      return false, left;
    } else if Disjoint(g.box, s.box) {
      return true, left;
    }
    var grab := region * Region(s.box);
    if grab == {} {
      assert forall p :: p in region && p in Region(s.box) ==> p in grab;
      assert left == region;
      return true, left;
    }
    GrabRegion(s, g, grab, data, pic);
    more := left != {};
  }

  /** The shortcut for a screen that contains the whole box: the image goes straight to the buffer. */
  method ReadWhole(s: Screen, g: Frame, data: array<byte>, ghost before: seq<byte>, ghost pic: Picture)
    requires FrameFits(g, data.Length) && Shows(s, pic) && PixelSize(s, g.bpp) && Inside(g.box, s.box)
    requires OtherRowsKept(data[..], before, g)
    modifies data
    ensures Painted(data[..], before, g, {}, pic)
  {
    var w, h := g.box.x2 - g.box.x1, g.box.y2 - g.box.y1;
    ghost var mid := data[..];
    GetImage(s, g.box.x1 - s.drawX - s.box.x1, g.box.y1 - s.drawY - s.box.y1, w, h, g.bpp, data, g.pitch, g.row0,
             g.rows);
    RowsKeptThen(data[..], mid, before, g.pitch, g.row0, g.row0 + h, g.row0, g.row0 + h, g.row0, g.row0 + h);
    forall x, y | In(Point(x, y), g.box)
      ensures Px(data[..], g, x, y) == pic(x, y)
    {
      assert In(Point(x, y), s.box);
      assert s.frame(x - s.box.x1, y - s.box.y1) == pic(x, y);
    }
  }

  predicate Covered(screens: seq<Screen>, p: Point) {
    exists k :: 0 <= k < |screens| && In(p, screens[k].box)
  }

  /**
   XineramaGetImageData: the sweep from the last screen to the first. Every
   covered pixel of the box is the logical one, every other pixel is untouched.
   */
  method GetImageData(screens: seq<Screen>, g: Frame, data: array<byte>, ghost pic: Picture)
    requires FrameFits(g, data.Length)
    requires forall k :: 0 <= k < |screens| ==> Shows(screens[k], pic) && PixelSize(screens[k], g.bpp)
    modifies data
    ensures Shown(data[..], old(data[..]), screens, g, pic)
  {
    var region := Region(g.box);
    var i := |screens|;
    while i > 0
      invariant 0 <= i <= |screens|
      invariant forall p :: p in region <==> In(p, g.box) && forall k :: i <= k < |screens| ==> !In(p, screens[k].box)
      invariant Painted(data[..], old(data[..]), g, region, pic)
    {
      i := i - 1;
      var more, left := GetImageDataScr(screens[i], g, region, data, old(data[..]), pic);
      region := left;
      if !more {
        break;
      }
    }
    assert forall p :: In(p, g.box) ==> (p in region <==> !Covered(screens, p));
  }

  // ---------- chunks ----------

  const IMAGE_BUFSIZE := 256 * 1024

  function LinesPerBuf(widthBytes: nat, h: nat): (r: nat)
    ensures r <= h && (widthBytes > 0 && h > 0 ==> r > 0)
    ensures widthBytes == 0 ==> r == 0
  {
    if widthBytes == 0 || h == 0 then 0
    else if widthBytes >= IMAGE_BUFSIZE then 1
    else if IMAGE_BUFSIZE / widthBytes > h then h
    else IMAGE_BUFSIZE / widthBytes
  }

  /** A chunk fits the buffer unless it is a single row, and one row more would not fit. */
  lemma {:induction false} LinesFill(widthBytes: nat, h: nat)
    requires widthBytes > 0 && h > 0
    ensures var r := LinesPerBuf(widthBytes, h);
            && (r > 1 ==> Times(r, widthBytes) <= 262144)
            && (r < h ==> Times(r + 1, widthBytes) > 262144)
  {
    var r, q := LinesPerBuf(widthBytes, h), IMAGE_BUFSIZE / widthBytes;
    TimesIsProduct(q, widthBytes);
    TimesIsProduct(r + 1, widthBytes);
    if widthBytes < IMAGE_BUFSIZE {
      Quotient(IMAGE_BUFSIZE, widthBytes);
      if q > h {
        TimesMono(r, q, widthBytes);
      }
    } else {
      TimesMono(1, r + 1, widthBytes);
      assert Times(1, widthBytes) == widthBytes && Times(2, widthBytes) == 2 * widthBytes;
    }
  }

  lemma {:induction false} Quotient(n: nat, d: nat)
    requires d > 0
    ensures (n / d) * d <= n < (n / d + 1) * d
  {
  }

  lemma {:induction false} PadIsPositive(w: nat, bpp: nat)
    requires bpp > 0
    ensures BytePad(w, bpp) > 0 <==> w > 0
  {
    assert Times(0, bpp) == 0;
    if w > 0 {
      TimesStep(0, w, bpp);
    }
  }

  /** A pixel that was asked for shows the picture where a screen covers it; any other pixel is as before. */
  ghost predicate PixelShown(
    now: seq<byte>, before: seq<byte>, screens: seq<Screen>, x: int, y: int, asked: bool, pic: Picture)
  {
    if asked then ShownAt(now, before, screens, pic, x, y) else now == before
  }

  /** Rows [first, last) show the picture where a screen covers it; every other pixel is as before. */
  ghost predicate RowsShown(
    now: seq<byte>, before: seq<byte>, screens: seq<Screen>, x: int, y: int, w: nat, h: nat, bpp: nat, pitch: nat,
    first: nat, last: nat, pic: Picture)
  {
    forall r: nat, c: nat :: r < h && c < w ==>
      PixelShown(PixelAt(now, pitch, bpp, r, c), PixelAt(before, pitch, bpp, r, c), screens, x + c, y + r,
                 first <= r < last, pic)
  }

  /** One more chunk of rows. */
  lemma {:induction false} NextChunk(
    now: seq<byte>, mid: seq<byte>, before: seq<byte>, screens: seq<Screen>, x: int, y: int, w: nat, h: nat, bpp: nat,
    pitch: nat, done: nat, next: nat, pic: Picture)
    requires RowsShown(mid, before, screens, x, y, w, h, bpp, pitch, 0, done, pic)
    requires RowsShown(now, mid, screens, x, y, w, h, bpp, pitch, done, next, pic) && done <= next
    ensures RowsShown(now, before, screens, x, y, w, h, bpp, pitch, 0, next, pic)
  {
  }

  /**
   PanoramiXGetImage for ZPixmap: the w by h image at logical position (x, y) is
   read in chunks of rows into a reply buffer of exactly the announced length.
   */
  method ReadZPixmap(
    screens: seq<Screen>, x: int, y: int, w: nat, h: nat, bpp: nat, buf: array<byte>, ghost pic: Picture)
    requires bpp > 0 && buf.Length == Times(h, BytePad(w, bpp))
    requires forall k :: 0 <= k < |screens| ==> Shows(screens[k], pic) && PixelSize(screens[k], bpp)
    modifies buf
    ensures RowsShown(buf[..], old(buf[..]), screens, x, y, w, h, bpp, BytePad(w, bpp), 0, h, pic)
  {
    var pitch := BytePad(w, bpp);
    var lines := LinesPerBuf(pitch, h);
    PadIsPositive(w, bpp);
    if lines == 0 {
      return;
    }
    var linesDone := 0;
    while linesDone < h
      invariant linesDone <= h
      invariant RowsShown(buf[..], old(buf[..]), screens, x, y, w, h, bpp, pitch, 0, linesDone, pic)
    {
      var nlines := if lines < h - linesDone then lines else h - linesDone;
      ghost var mid := buf[..];
      ReadChunk(screens, x, y, w, h, bpp, buf, pitch, linesDone, nlines, pic);
      NextChunk(buf[..], mid, old(buf[..]), screens, x, y, w, h, bpp, pitch, linesDone, linesDone + nlines, pic);
      linesDone := linesDone + nlines;
    }
  }

  /** The frame shows the picture where a screen covers it, and is as before everywhere else. */
  ghost predicate Shown(now: seq<byte>, before: seq<byte>, screens: seq<Screen>, g: Frame, pic: Picture) {
    && OtherRowsKept(now, before, g)
    && forall x, y :: In(Point(x, y), g.box) ==>
         Px(now, g, x, y) == if Covered(screens, Point(x, y)) then pic(x, y) else Px(before, g, x, y)
  }

  /** What Shown says of one point. */
  ghost predicate ShownAt(now: seq<byte>, before: seq<byte>, screens: seq<Screen>, pic: Picture, x: int, y: int) {
    now == if Covered(screens, Point(x, y)) then pic(x, y) else before
  }

  lemma {:induction false} ShownPx(
    now: seq<byte>, before: seq<byte>, screens: seq<Screen>, g: Frame, pic: Picture, x: int, y: int)
    requires Shown(now, before, screens, g, pic) && In(Point(x, y), g.box)
    ensures ShownAt(Px(now, g, x, y), Px(before, g, x, y), screens, pic, x, y)
  {
  }

  lemma {:induction false} PixelIsPx(data: seq<byte>, g: Frame, r: nat, c: nat, x: int, y: int)
    requires In(Point(x, y), g.box) && x == g.box.x1 + c && y == g.box.y1 + (r - g.row0)
    ensures Px(data, g, x, y) == PixelAt(data, g.pitch, g.bpp, r, c)
  {
  }

  /** The same for a pixel of the frame named by its row and column in the buffer. */
  lemma {:induction false} ChunkPixel(
    now: seq<byte>, before: seq<byte>, screens: seq<Screen>, g: Frame, pic: Picture, r: nat, c: nat, x: int, y: int)
    requires Shown(now, before, screens, g, pic)
    requires In(Point(x, y), g.box) && x == g.box.x1 + c && y == g.box.y1 + (r - g.row0)
    ensures ShownAt(PixelAt(now, g.pitch, g.bpp, r, c), PixelAt(before, g.pitch, g.bpp, r, c), screens, pic, x, y)
  {
    ShownPx(now, before, screens, g, pic, x, y);
    PixelIsPx(now, g, r, c, x, y);
    PixelIsPx(before, g, r, c, x, y);
  }

  lemma {:induction false} ChunkRowsKept(
    now: seq<byte>, before: seq<byte>, screens: seq<Screen>, g: Frame, pic: Picture, first: nat, last: nat)
    requires Shown(now, before, screens, g, pic) && g.row0 == first && g.box.y2 - g.box.y1 == last - first
    ensures RowsKept(now, before, g.pitch, first, last)
  {
  }

  lemma {:induction false} ChunkPixelShown(
    now: seq<byte>, before: seq<byte>, screens: seq<Screen>, g: Frame, pic: Picture, r: nat, c: nat, x: int, y: int)
    requires FrameFits(g, |now|) && Shown(now, before, screens, g, pic) && r < g.rows && c < g.box.x2 - g.box.x1
    requires x == g.box.x1 + c && y == g.box.y1 + (r - g.row0)
    ensures PixelShown(PixelAt(now, g.pitch, g.bpp, r, c), PixelAt(before, g.pitch, g.bpp, r, c), screens, x, y,
                       g.row0 <= r < g.row0 + (g.box.y2 - g.box.y1), pic)
  {
    var last := g.row0 + (g.box.y2 - g.box.y1);
    if g.row0 <= r < last {
      ChunkPixel(now, before, screens, g, pic, r, c, x, y);
    } else {
      ChunkRowsKept(now, before, screens, g, pic, g.row0, last);
      KeptPixel(now, before, g.pitch, g.bpp, g.row0, last, g.box.x2 - g.box.x1, g.rows, r, c);
    }
  }

  lemma {:induction false} ChunkIsShown(
    now: seq<byte>, before: seq<byte>, screens: seq<Screen>, x: int, y: int, w: nat, h: nat, bpp: nat, pitch: nat,
    first: nat, nlines: nat, pic: Picture)
    requires FrameFits(ChunkFrame(x, y, w, h, bpp, pitch, first, nlines), |now|)
    requires Shown(now, before, screens, ChunkFrame(x, y, w, h, bpp, pitch, first, nlines), pic)
    ensures RowsShown(now, before, screens, x, y, w, h, bpp, pitch, first, first + nlines, pic)
  {
    forall r: nat, c: nat | r < h && c < w
      ensures PixelShown(PixelAt(now, pitch, bpp, r, c), PixelAt(before, pitch, bpp, r, c), screens, x + c, y + r,
                         first <= r < first + nlines, pic)
    {
      ChunkPixelShown(now, before, screens, ChunkFrame(x, y, w, h, bpp, pitch, first, nlines), pic, r, c, x + c, y + r);
    }
  }

  /** Where a chunk of rows lies in the reply buffer. */
  function ChunkFrame(x: int, y: int, w: nat, h: nat, bpp: nat, pitch: nat, first: nat, nlines: nat): Frame {
    Frame(pitch, bpp, first, h, Box(x, y + first, x + w, y + first + nlines))
  }

  method ReadChunk(screens: seq<Screen>, x: int, y: int, w: nat, h: nat, bpp: nat, buf: array<byte>,
                   pitch: nat, first: nat, nlines: nat, ghost pic: Picture)
    requires bpp > 0 && w > 0 && nlines > 0 && first + nlines <= h
    requires Times(w, bpp) <= pitch && Times(h, pitch) <= buf.Length
    requires forall k :: 0 <= k < |screens| ==> Shows(screens[k], pic) && PixelSize(screens[k], bpp)
    modifies buf
    ensures RowsShown(buf[..], old(buf[..]), screens, x, y, w, h, bpp, pitch, first, first + nlines, pic)
  {
    ghost var before := buf[..];
    GetImageData(screens, ChunkFrame(x, y, w, h, bpp, pitch, first, nlines), buf, pic);
    ChunkIsShown(buf[..], before, screens, x, y, w, h, bpp, pitch, first, nlines, pic);
  }
}
