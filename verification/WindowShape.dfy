/**
 The shape of a window: a missing region stands for the default region, and
 every operation takes a shortcut for it. Clients cannot tell the difference
 from a window that always stores its whole region.
 */
module WindowShape {
  import opened Wrappers
  import opened Xinerama

  datatype Kind = Bounding | Clip | Input

  const SHAPE_SET := 0
  const SHAPE_UNION := 1
  const SHAPE_INTERSECT := 2
  const SHAPE_SUBTRACT := 3
  const SHAPE_INVERT := 4

  datatype Window = Window(isRoot: bool, width: nat, height: nat, borderWidth: nat)

  /** CreateBoundingShape and CreateClipShape */
  function DefaultShape(w: Window, kind: Kind): set<Point> {
    var b: int := w.borderWidth;
    if kind.Clip? then Region(Box(0, 0, w.width, w.height))
    else Region(Box(-b, -b, w.width + b, w.height + b))
  }

  function Translate(r: set<Point>, dx: int, dy: int): set<Point> {
    set p | p in r :: Point(p.x + dx, p.y + dy)
  }

  /** A request: the source region if there is one, the operation code, and the offset. */
  datatype Request = Request(src: Option<set<Point>>, op: int, dx: int, dy: int)

  predicate Known(op: int) {
    SHAPE_SET <= op <= SHAPE_INVERT
  }

  datatype Reply = Success(notified: bool) | BadValue

  // ---------- the operation on an optional region ----------

  function Operate(shape: Option<set<Point>>, w: Window, kind: Kind, q: Request): (Option<set<Point>>, Reply) {
    if w.isRoot then (shape, Success(false))
    else if q.src.None? then (None, Success(shape.Some?))
    else if !Known(q.op) then (shape, BadValue)
    else
      var src := Translate(q.src.value, q.dx, q.dy);
      var next :=
        if q.op == SHAPE_SET then Some(src)
        else if q.op == SHAPE_UNION then (if shape.Some? then Some(shape.value + src) else None)
        else if q.op == SHAPE_INTERSECT then (if shape.Some? then Some(shape.value * src) else Some(src))
        else if q.op == SHAPE_SUBTRACT then Some((if shape.Some? then shape.value else DefaultShape(w, kind)) - src)
        else (if shape.Some? then Some(src - shape.value) else Some({}));
      (next, Success(true))
  }

  // ---------- the simple form: always a whole region ----------

  function FullOperate(region: set<Point>, w: Window, kind: Kind, q: Request): set<Point> {
    if w.isRoot || (q.src.Some? && !Known(q.op)) then region
    else if q.src.None? then DefaultShape(w, kind)
    else
      var src := Translate(q.src.value, q.dx, q.dy);
      if q.op == SHAPE_SET then src
      else if q.op == SHAPE_UNION then region + src
      else if q.op == SHAPE_INTERSECT then region * src
      else if q.op == SHAPE_SUBTRACT then region - src
      else src - region
  }

  /** The effective region: what is stored, or the default, clipped to the default. */
  function Effective(shape: Option<set<Point>>, w: Window, kind: Kind): set<Point> {
    (match shape case None => DefaultShape(w, kind) case Some(r) => r) * DefaultShape(w, kind)
  }

  /** One request keeps the two forms looking the same. */
  lemma {:induction false} OperateAgrees(
    shape: Option<set<Point>>, region: set<Point>, w: Window, kind: Kind, q: Request)
    requires Effective(shape, w, kind) == Effective(Some(region), w, kind)
    ensures Effective(Operate(shape, w, kind, q).0, w, kind) ==
            Effective(Some(FullOperate(region, w, kind, q)), w, kind)
  {
    var d := DefaultShape(w, kind);
    var full := match shape case None => d case Some(r) => r;
    var a, b :=
        Effective(Operate(shape, w, kind, q).0, w, kind), Effective(Some(FullOperate(region, w, kind, q)), w, kind);
    assert full * d == region * d;
    forall p
      ensures p in a <==> p in b
    {
      assert p in full * d <==> p in region * d;
      assert p in d ==> (p in full <==> p in region);
    }
  }

  function OperateAll(shape: Option<set<Point>>, w: Window, kind: Kind, qs: seq<Request>): Option<set<Point>> {
    if qs == [] then shape else Operate(OperateAll(shape, w, kind, qs[..|qs| - 1]), w, kind, qs[|qs| - 1]).0
  }

  function FullOperateAll(region: set<Point>, w: Window, kind: Kind, qs: seq<Request>): set<Point> {
    if qs == [] then region else FullOperate(FullOperateAll(region, w, kind, qs[..|qs| - 1]), w, kind, qs[|qs| - 1])
  }

  /** After every sequence of requests on an unshaped window, both forms have the same effective region. */
  lemma {:induction false} ShapesAgree(w: Window, kind: Kind, qs: seq<Request>)
    ensures Effective(OperateAll(None, w, kind, qs), w, kind)
         == Effective(Some(FullOperateAll(DefaultShape(w, kind), w, kind, qs)), w, kind)
    decreases |qs|
  {
    if qs != [] {
      var before := qs[..|qs| - 1];
      ShapesAgree(w, kind, before);
      OperateAgrees(OperateAll(None, w, kind, before), FullOperateAll(DefaultShape(w, kind), w, kind, before),
                    w, kind, qs[|qs| - 1]);
    }
  }

  /** A window that is resized tells the forms apart: the missing region follows the new size. */
  lemma {:induction false} ResizingTellsApart()
    ensures var small, large := Window(false, 1, 1, 0), Window(false, 2, 1, 0);
            var union := Request(Some({}), SHAPE_UNION, 0, 0);
            var shape := Operate(None, small, Clip, union).0;
            var region := FullOperate(DefaultShape(small, Clip), small, Clip, union);
            Effective(shape, large, Clip) != Effective(Some(region), large, Clip)
  {
    var small, large := Window(false, 1, 1, 0), Window(false, 2, 1, 0);
    assert Point(1, 0) in DefaultShape(large, Clip) && Point(1, 0) !in DefaultShape(small, Clip);
    var union := Request(Some({}), SHAPE_UNION, 0, 0);
    var region := FullOperate(DefaultShape(small, Clip), small, Clip, union);
    assert Point(1, 0) !in region by {
      assert Translate({}, 0, 0) == {};
    }
    assert Point(1, 0) !in Effective(Some(region), large, Clip);
    assert Point(1, 0) in Effective(None, large, Clip);
  }

  // ---------- point by point ----------

  lemma {:induction false} TranslateExactly(r: set<Point>, dx: int, dy: int, p: Point)
    ensures p in Translate(r, dx, dy) <==> Point(p.x - dx, p.y - dy) in r
  {
    if Point(p.x - dx, p.y - dy) in r {
      assert p == Point((p.x - dx) + dx, (p.y - dy) + dy);
    }
  }

  /** The default region is the window's inside, with the border but for clipping. */
  lemma {:induction false} DefaultExactly(w: Window, kind: Kind, p: Point)
    ensures var b: int := if kind.Clip? then 0 else w.borderWidth;
            p in DefaultShape(w, kind) <==> -b <= p.x < w.width + b && -b <= p.y < w.height + b
  {
    assert kind.Clip? ==> In(p, Box(0, 0, w.width, w.height)) == (0 <= p.x < w.width && 0 <= p.y < w.height);
  }

  /** A plain operation combines, point by point, the region with the moved source. */
  lemma {:induction false} PlainExactly(region: set<Point>, w: Window, kind: Kind, q: Request, p: Point)
    requires !w.isRoot && q.src.Some?
    ensures var inside, moved := p in region, Point(p.x - q.dx, p.y - q.dy) in q.src.value;
            p in FullOperate(region, w, kind, q) <==>
            if q.op == 0 then moved
            else if q.op == 1 then inside || moved
            else if q.op == 2 then inside && moved
            else if q.op == 3 then inside && !moved
            else if q.op == 4 then !inside && moved
            else inside
  {
    TranslateExactly(q.src.value, q.dx, q.dy, p);
  }

  /** Without a source the plain operation restores the default; a root window never changes. */
  lemma {:induction false} PlainRemoves(region: set<Point>, w: Window, kind: Kind, q: Request)
    ensures w.isRoot ==> FullOperate(region, w, kind, q) == region
    ensures !w.isRoot && q.src.None? ==> FullOperate(region, w, kind, q) == DefaultShape(w, kind)
  {
  }

  /** Only an unknown operation on a shapeable window with a source is refused; only a change is announced. */
  lemma {:induction false} RepliesExactly(shape: Option<set<Point>>, w: Window, kind: Kind, q: Request)
    ensures var (next, r) := Operate(shape, w, kind, q);
            && (r == BadValue <==> !w.isRoot && q.src.Some? && (q.op < 0 || q.op > 4))
            && (r == Success(true) <==> !w.isRoot && if q.src.Some? then 0 <= q.op <= 4 else shape.Some?)
            && (r != Success(true) ==> next == shape || (next == None && shape == None))
  {
  }

  // ---------- the region pointer, overwritten in place ----------

  class ShapedWindow {
    const w: Window
    const kind: Kind
    var shape: Option<set<Point>>

    constructor (w: Window, kind: Kind)
      ensures this.w == w && this.kind == kind && shape == None
    {
      this.w, this.kind, shape := w, kind, None;
    }

    /** RegionOperate */
    method RegionOperate(q: Request) returns (r: Reply)
      modifies this`shape
      ensures (shape, r) == Operate(old(shape), w, kind, q)
      ensures q.src.Some? && !w.isRoot && Known(q.op) && q.op != SHAPE_UNION ==> shape.Some?
    {
      if w.isRoot {
        return Success(false);
      }
      if q.src.None? {
        if shape.None? {
          return Success(false);
        }
        shape := None;
        return Success(true);
      }
      var src := Translate(q.src.value, q.dx, q.dy);
      if q.op == SHAPE_SET {
        shape := Some(src);
      } else if q.op == SHAPE_UNION {
        if shape.Some? {
          shape := Some(shape.value + src);
        }
      } else if q.op == SHAPE_INTERSECT {
        shape := if shape.Some? then Some(shape.value * src) else Some(src);
      } else if q.op == SHAPE_SUBTRACT {
        if shape.None? {
          shape := Some(DefaultShape(w, kind));
        }
        shape := Some(shape.value - src);
      } else if q.op == SHAPE_INVERT {
        shape := if shape.None? then Some({}) else Some(src - shape.value);
      } else {
        return BadValue;
      }
      return Success(true);
    }
  }
}
