/**
 Reading an image plane by plane: which planes are visited, how their rows are
 cut into chunks, and that the bytes produced are the length announced before.
 */
module ImagePlanes {
  import opened Bits
  import X = Xinerama

  // ---------- the planes a mask asks for ----------

  /** The planes below `depth` that the mask asks for, highest first. */
  function Planes(mask: nat, depth: nat): (r: seq<nat>)
    ensures forall k :: 0 <= k < |r| ==> r[k] < depth && Bit(mask, r[k])
  {
    if depth == 0 then []
    else if Bit(mask, depth - 1) then [depth - 1] + Planes(mask, depth - 1)
    else Planes(mask, depth - 1)
  }

  lemma {:induction false} PlanesComplete(mask: nat, depth: nat, k: nat)
    requires k < depth && Bit(mask, k)
    ensures k in Planes(mask, depth)
  {
    if k < depth - 1 {
      PlanesComplete(mask, depth - 1, k);
    }
  }

  /** Higher planes come first, each once. */
  lemma {:induction false} PlanesDescend(mask: nat, depth: nat)
    ensures Descends(Planes(mask, depth))
  {
    if depth > 0 {
      PlanesDescend(mask, depth - 1);
      if Bit(mask, depth - 1) {
        HigherFirst(depth - 1, Planes(mask, depth - 1));
      }
    }
  }

  predicate Descends(ps: seq<nat>) {
    forall i, j :: 0 <= i < j < |ps| ==> ps[i] > ps[j]
  }

  lemma {:induction false} HigherFirst(p: nat, ps: seq<nat>)
    requires Descends(ps) && forall k :: 0 <= k < |ps| ==> ps[k] < p
    ensures Descends([p] + ps)
  {
    var qs := [p] + ps;
    assert forall k :: 0 < k < |qs| ==> qs[k] == ps[k - 1];
  }

  lemma {:induction false} PlanesCounted(mask: nat, depth: nat)
    ensures |Planes(mask, depth)| == CountBits(mask, depth)
  {
    if depth > 0 {
      PlanesCounted(mask, depth - 1);
    }
  }

  /** The number of planes as the server computes it: the ones of the mask below 2^depth. */
  function PlaneCount(mask: nat, depth: nat): nat
    requires depth > 0
  {
    var plane := Pow2(depth - 1);
    Ones(And(mask, Or(plane, plane - 1)))
  }

  /** The announced number of planes is the number of planes the shifting loop visits. */
  lemma {:induction false} PlaneCountExact(mask: nat, depth: nat)
    requires depth > 0
    ensures PlaneCount(mask, depth) == |Planes(mask, depth)|
  {
    OrBelow(depth - 1);
    AndMask(mask, depth);
    OnesOfLow(mask, depth);
    PlanesCounted(mask, depth);
  }

  /** The plane mask of the shifting loop when `left` planes are left to visit. */
  predicate IsPlane(plane: nat, left: nat) {
    plane == if left == 0 then 0 else Pow2(left - 1)
  }

  /** One turn of the shifting loop: the plane is visited exactly when the mask has its bit. */
  lemma {:induction false} PlaneTurn(mask: nat, plane: nat, left: nat)
    requires IsPlane(plane, left) && plane > 0
    ensures left > 0 && IsPlane(plane / 2, left - 1)
    ensures And(mask, plane) != 0 ==> Planes(mask, left) == [left - 1] + Planes(mask, left - 1)
    ensures And(mask, plane) == 0 ==> Planes(mask, left) == Planes(mask, left - 1)
  {
    AndOnePlane(mask, left - 1);
  }

  // ---------- chunks of rows ----------

  datatype Chunk = Chunk(plane: nat, first: nat, lines: nat)

  /** The chunks cover rows [from, h) of one plane in order, without gap or overlap. */
  predicate TilesRows(cs: seq<Chunk>, plane: nat, from: nat, h: nat) {
    if cs == [] then from == h
    else
      && cs[0].plane == plane && cs[0].first == from && cs[0].lines > 0
      && TilesRows(cs[1..], plane, from + cs[0].lines, h)
  }

  /** Each plane's chunks, plane after plane. */
  predicate TilesPlanes(css: seq<seq<Chunk>>, planes: seq<nat>, h: nat) {
    |css| == |planes| && forall k :: 0 <= k < |css| ==> TilesRows(css[k], Pow2(planes[k]), 0, h)
  }

  lemma {:induction false} TilesAppend(cs: seq<Chunk>, plane: nat, from: nat, mid: nat, c: Chunk)
    requires TilesRows(cs, plane, from, mid) && c.plane == plane && c.first == mid && c.lines > 0
    ensures TilesRows(cs + [c], plane, from, mid + c.lines)
  {
    if cs == [] {
      assert [c][1..] == [];
    } else {
      TilesAppend(cs[1..], plane, from + cs[0].lines, mid, c);
      assert (cs + [c])[1..] == cs[1..] + [c];
    }
  }

  /** The row loop for one plane: how much it reserves, and which rows each reservation holds. */
  method ReadRows(plane: nat, widthBytes: nat, h: nat, linesPerBuf: nat) returns (cs: seq<Chunk>, bytes: nat)
    requires linesPerBuf > 0
    ensures TilesRows(cs, plane, 0, h)
    ensures forall k :: 0 <= k < |cs| ==> cs[k].lines <= linesPerBuf
    ensures bytes == Times(h, widthBytes)
  {
    cs, bytes := [], 0;
    var linesDone := 0;
    while linesDone < h
      invariant linesDone <= h
      invariant TilesRows(cs, plane, 0, linesDone)
      invariant forall k :: 0 <= k < |cs| ==> cs[k].lines <= linesPerBuf
      invariant bytes == Times(linesDone, widthBytes)
    {
      var nlines := if linesPerBuf < h - linesDone then linesPerBuf else h - linesDone;
      TilesAppend(cs, plane, 0, linesDone, Chunk(plane, linesDone, nlines));
      TimesAdd(linesDone, nlines, widthBytes);
      cs := cs + [Chunk(plane, linesDone, nlines)];
      bytes := bytes + Times(nlines, widthBytes);
      linesDone := linesDone + nlines;
    }
  }

  /** BitmapBytePad */
  function BitPad(w: nat): (r: nat)
    ensures 8 * r >= w && r % 4 == 0 && (r == 0 <==> w == 0)
    ensures r > 0 ==> 8 * (r - 4) < w
  {
    (w + 31) / 32 * 4
  }

  /** PanoramiXGetImage for XYPixmap: the plane loop around the row loop. */
  method ReadXYPixmap(w: nat, h: nat, depth: nat, mask: nat) returns (css: seq<seq<Chunk>>, bytes: nat, length: nat)
    requires depth > 0
    ensures length == Times(PlaneCount(mask, depth), Times(h, BitPad(w)))
    ensures bytes == length
    ensures w > 0 && h > 0 ==> TilesPlanes(css, Planes(mask, depth), h)
    ensures w == 0 || h == 0 ==> css == []
  {
    var widthBytes := BitPad(w);
    var perPlane := Times(h, widthBytes);
    length := Times(PlaneCount(mask, depth), perPlane);
    var linesPerBuf := X.LinesPerBuf(widthBytes, h);
    css, bytes := [], 0;
    if linesPerBuf == 0 {
      TimesIsProduct(h, widthBytes);
      TimesIsProduct(PlaneCount(mask, depth), perPlane);
      return;
    }
    PlaneCountExact(mask, depth);
    css, bytes := ReadPlanes(widthBytes, h, depth, mask, linesPerBuf);
  }

  lemma {:induction false} NextTile(planes: seq<nat>, n: nat, head: nat, tail: seq<nat>)
    requires n <= |planes| && planes[n..] == [head] + tail
    ensures n < |planes| && planes[n] == head && planes[n + 1..] == tail && planes[..n + 1] == planes[..n] + [head]
  {
    assert planes[n] == planes[n..][0];
    assert planes[n + 1..] == planes[n..][1..];
  }

  /** The plane-shifting loop; each visited plane is read row by row. */
  method ReadPlanes(widthBytes: nat, h: nat, depth: nat, mask: nat, linesPerBuf: nat)
    returns (css: seq<seq<Chunk>>, bytes: nat)
    requires depth > 0 && linesPerBuf > 0
    ensures TilesPlanes(css, Planes(mask, depth), h)
    ensures bytes == Times(|Planes(mask, depth)|, Times(h, widthBytes))
  {
    css, bytes := [], 0;
    ghost var planes := Planes(mask, depth);
    ghost var left: nat := depth;
    var plane := Pow2(depth - 1);
    while plane > 0
      invariant IsPlane(plane, left)
      invariant |css| <= |planes| && planes[|css|..] == Planes(mask, left)
      invariant TilesPlanes(css, planes[..|css|], h)
      invariant bytes == Times(|css|, Times(h, widthBytes))
      decreases plane
    {
      PlaneTurn(mask, plane, left);
      if And(mask, plane) != 0 {
        NextTile(planes, |css|, left - 1, Planes(mask, left - 1));
        var cs, n := ReadRows(plane, widthBytes, h, linesPerBuf);
        css, bytes := css + [cs], bytes + n;
      }
      plane := plane / 2;
      left := left - 1;
    }
  }

  // ---------- the shared-memory plane loop ----------

  /** The image of one plane, by the plane's mask, and where it is written. */
  datatype Write = Write(plane: nat, start: nat)

  datatype ShmReply = BadAccess | Planewise(size: nat, writes: seq<Write>)

  /** The planes are written in the order given, side by side from `offset` on. */
  ghost predicate Adjacent(writes: seq<Write>, planes: seq<nat>, offset: nat, lenPer: nat) {
    && |writes| <= |planes|
    && forall k :: 0 <= k < |writes| ==> writes[k] == Write(Pow2(planes[k]), offset + Times(k, lenPer))
  }

  /**
   ShmGetImage for XYPixmap: which plane's image is written where in the
   segment. The requested planes are written highest first and side by side;
   they fill exactly the announced size and stay in the segment.
   */
  method ShmGetPlanes(offset: nat, w: nat, h: nat, depth: nat, mask: nat, segmentSize: nat) returns (r: ShmReply)
    requires depth > 0
    ensures var lenPer := Times(h, BitPad(w));
            var size := Times(PlaneCount(mask, depth), lenPer);
            if offset + size > segmentSize then r == BadAccess
            else
              && r.Planewise? && r.size == size
              && (size == 0 ==> r.writes == [])
              && (size > 0 ==>
                   && |r.writes| == |Planes(mask, depth)| && Adjacent(r.writes, Planes(mask, depth), offset, lenPer)
                   && (forall k :: 0 <= k < |r.writes| ==> r.writes[k].start + lenPer <= offset + size <= segmentSize))
  {
    var lenPer := Times(h, BitPad(w));
    var size := Times(PlaneCount(mask, depth), lenPer);
    if offset + size > segmentSize {
      return BadAccess;
    }
    if size == 0 {
      return Planewise(size, []);
    }
    PlaneCountExact(mask, depth);
    var writes := WritePlanes(offset, lenPer, depth, mask);
    forall k | 0 <= k < |writes|
      ensures Times(k, lenPer) + lenPer <= size
    {
      TimesStep(k, |writes|, lenPer);
    }
    return Planewise(size, writes);
  }

  /** Writing the next plane behind the others. */
  lemma {:induction false} WriteNext(
    writes: seq<Write>, planes: seq<nat>, offset: nat, lenPer: nat, plane: nat, head: nat, tail: seq<nat>)
    requires Adjacent(writes, planes, offset, lenPer) && planes[|writes|..] == [head] + tail && plane == Pow2(head)
    ensures var next := writes + [Write(plane, offset + Times(|writes|, lenPer))];
            && Adjacent(next, planes, offset, lenPer) && planes[|next|..] == tail
            && Times(|next|, lenPer) == Times(|writes|, lenPer) + lenPer
  {
    NextTile(planes, |writes|, head, tail);
  }

  /** The plane loop of ShmGetImage, which advances `length` by one plane's bytes. */
  method WritePlanes(offset: nat, lenPer: nat, depth: nat, mask: nat) returns (writes: seq<Write>)
    requires depth > 0
    ensures |writes| == |Planes(mask, depth)| && Adjacent(writes, Planes(mask, depth), offset, lenPer)
  {
    writes := [];
    var length := offset;
    ghost var planes := Planes(mask, depth);
    ghost var left: nat := depth;
    var plane := Pow2(depth - 1);
    assert Times(0, lenPer) == 0;
    while plane > 0
      invariant IsPlane(plane, left)
      invariant Adjacent(writes, planes, offset, lenPer) && planes[|writes|..] == Planes(mask, left)
      invariant length == offset + Times(|writes|, lenPer)
      decreases plane
    {
      PlaneTurn(mask, plane, left);
      if And(mask, plane) != 0 {
        WriteNext(writes, planes, offset, lenPer, plane, left - 1, Planes(mask, left - 1));
        writes := writes + [Write(plane, length)];
        length := length + lenPer;
      }
      plane := plane / 2;
      left := left - 1;
    }
  }
}
