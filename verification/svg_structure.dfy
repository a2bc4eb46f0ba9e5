/**
 * The frame of a rendered page: canvas size, group transform, trailing
 * rectangle, and the nesting of the elements.
 */
module SvgStructure {
  import opened Wrappers
  import opened JavaInt
  import opened PageModel
  import opened SvgDocument
  import opened SvgPolylines

  /** Elements that are opened and later closed. */
  datatype Element = SvgElement | GroupElement | PolylineElement

  /** What token `t` does to the stack of open elements: `None` when `t` may not
      appear there. The canvas is the root, the group sits in the canvas,
      polylines and the rectangle sit in the group, points sit in a polyline. */
  function Step(t: Token, open: seq<Element>): Option<seq<Element>>
  {
    var top := if |open| == 0 then None else Some(open[|open| - 1]);
    var below := if |open| == 0 then [] else open[..|open| - 1];
    match t
    case SvgOpen(_, _) => if |open| == 0 then Some([SvgElement]) else None
    case GroupOpen(_, _) => if top == Some(SvgElement) then Some(open + [GroupElement]) else None
    case PolyStart(_, _) => if top == Some(GroupElement) then Some(open + [PolylineElement]) else None
    case Point(_, _) => if top == Some(PolylineElement) then Some(open) else None
    case PolyEnd => if top == Some(PolylineElement) then Some(below) else None
    case Rect(_, _) => if top == Some(GroupElement) then Some(open) else None
    case GroupClose => if top == Some(GroupElement) then Some(below) else None
    case SvgClose => if top == Some(SvgElement) then Some(below) else None
  }

  /** The open elements after reading `ts`, or `None` if `ts` breaks the nesting. */
  function Scan(ts: seq<Token>, open: seq<Element>): Option<seq<Element>>
  {
    if |ts| == 0 then Some(open)
    else match Step(ts[0], open)
      case None => None
      case Some(next) => Scan(ts[1..], next)
  }

  /** Every element is opened before it is closed, closed in the right order, and
      nothing is left open. */
  predicate WellNested(ts: seq<Token>)
  {
    Scan(ts, []) == Some([])
  }

  lemma {:induction false} ScanAppend(a: seq<Token>, b: seq<Token>, open: seq<Element>)
    ensures Scan(a + b, open) == (match Scan(a, open) case None => None case Some(mid) => Scan(b, mid))
    decreases |a|
  {
    if |a| == 0 {
      assert a + b == b;
    } else {
      assert (a + b)[0] == a[0];
      assert (a + b)[1..] == a[1..] + b;
      match Step(a[0], open)
      case None =>
      case Some(next) => ScanAppend(a[1..], b, next);
    }
  }

  /** The stack of an open polyline inside the group. */
  function InPolyline(group: seq<Element>): seq<Element>
  {
    group + [PolylineElement]
  }

  lemma {:induction false} PointsScan(samples: seq<Segment>, group: seq<Element>)
    ensures Scan(Points(samples), InPolyline(group)) == Some(InPolyline(group))
    decreases |samples|
  {
    if |samples| > 0 {
      var init := samples[..|samples| - 1];
      PointsScan(init, group);
      ScanAppend(Points(init), [PointOf(samples[|samples| - 1])], InPolyline(group));
    }
  }

  lemma {:induction false} DrawScan(p: Polyline, group: seq<Element>)
    requires |group| > 0 && group[|group| - 1] == GroupElement
    ensures Scan(Draw(p), group) == Some(group)
  {
    var start := [PolyStart(p.color, p.style)];
    assert InPolyline(group)[..|group|] == group;
    PointsScan(p.samples, group);
    ScanAppend(start, Points(p.samples), group);
    ScanAppend(start + Points(p.samples), [PolyEnd], group);
  }

  lemma {:induction false} FlattenScan(ps: seq<Polyline>, group: seq<Element>)
    requires |group| > 0 && group[|group| - 1] == GroupElement
    ensures Scan(Flatten(ps), group) == Some(group)
    decreases |ps|
  {
    if |ps| > 0 {
      DrawScan(ps[0], group);
      FlattenScan(ps[1..], group);
      ScanAppend(Draw(ps[0]), Flatten(ps[1..]), group);
    }
  }

  /** Drawing any strokes inside the group leaves exactly the group open. */
  lemma {:induction false} StrokesScan(ss: seq<Stroke>, group: seq<Element>)
    requires |group| > 0 && group[|group| - 1] == GroupElement
    ensures Scan(RenderAll(ss), group) == Some(group)
    decreases |ss|
  {
    if |ss| > 0 {
      var init := ss[..|ss| - 1];
      var last := ss[|ss| - 1];
      StrokesScan(init, group);
      StrokeIsPolylines(last, last.pencil);
      FlattenScan(StrokePolylines(last, last.pencil), group);
      ScanAppend(RenderAll(init), RenderStroke(last), group);
    }
  }

  /** The canvas and the group open the frame the strokes are drawn in. */
  lemma HeadScan(page: Page, o: Orientation, id: GroupId)
    ensures Scan([Canvas(page, o), Group(page, o, id)], []) == Some([SvgElement, GroupElement])
  {
    var head := [Canvas(page, o), Group(page, o, id)];
    assert Step(Canvas(page, o), []) == Some([SvgElement]);
    assert [SvgElement] + [GroupElement] == [SvgElement, GroupElement];
    assert Step(Group(page, o, id), [SvgElement]) == Some([SvgElement, GroupElement]);
    assert Scan(head[1..], [SvgElement]) == Some([SvgElement, GroupElement]);
  }

  /** The rectangle sits in the group, then the group and the canvas close. */
  lemma FooterScan(page: Page)
    ensures Scan(Footer(page), [SvgElement, GroupElement]) == Some([])
  {
    var group := [SvgElement, GroupElement];
    var footer := Footer(page);
    assert Step(footer[0], group) == Some(group);
    assert group[..1] == [SvgElement];
    assert Step(footer[1], group) == Some([SvgElement]);
    assert Step(footer[2], [SvgElement]) == Some([]);
    assert Scan(footer[2..], [SvgElement]) == Some([]);
    assert Scan(footer[1..], group) == Some([]);
  }

  /** The rendered page is well nested: the canvas holds the group, the group holds
      the polylines and the rectangle, and every polyline is closed before the
      next one opens. */
  lemma DocumentWellNested(page: Page, o: Orientation, id: GroupId)
    ensures WellNested(Document(page, o, id))
  {
    var head := [Canvas(page, o), Group(page, o, id)];
    var body := RenderAll(EmissionOrder(page.layers));
    var group := [SvgElement, GroupElement];
    HeadScan(page, o, id);
    StrokesScan(EmissionOrder(page.layers), group);
    ScanAppend(head, body, []);
    FooterScan(page);
    ScanAppend(head + body, Footer(page), []);
  }

  /** Strokes only contribute polyline starts, points and polyline ends. */
  lemma {:induction false} StrokeTokenKinds(ss: seq<Stroke>)
    ensures forall t :: t in RenderAll(ss) ==> t.PolyStart? || t.Point? || t.PolyEnd?
    decreases |ss|
  {
    if |ss| > 0 {
      var last := ss[|ss| - 1];
      StrokeTokenKinds(ss[..|ss| - 1]);
      StrokeIsPolylines(last, last.pencil);
      FlattenKinds(StrokePolylines(last, last.pencil));
    }
  }

  lemma {:induction false} FlattenKinds(ps: seq<Polyline>)
    ensures forall t :: t in Flatten(ps) ==> t.PolyStart? || t.Point? || t.PolyEnd?
    decreases |ps|
  {
    if |ps| > 0 {
      FlattenKinds(ps[1..]);
      PointsKinds(ps[0].samples);
    }
  }

  lemma {:induction false} PointsKinds(samples: seq<Segment>)
    ensures forall t :: t in Points(samples) ==> t.Point?
    decreases |samples|
  {
    if |samples| > 0 {
      PointsKinds(samples[..|samples| - 1]);
    }
  }

  /** The frame of a rendered page. Portrait uses the page's own dimensions as
      the viewBox and an untransformed group; landscape swaps the viewBox and
      rotates the group. The trailing rectangle always has the page's own
      (unswapped) dimensions and follows every stroke. */
  lemma DocumentFrame(page: Page, o: Orientation, id: GroupId)
    ensures var d := Document(page, o, id);
      && |d| >= 5
      && d[0] == (if o == Portrait then SvgOpen(page.horizontal, page.vertical)
                  else SvgOpen(page.vertical, page.horizontal))
      && d[1] == GroupOpen(id, if o == Portrait then None
                               else Some(LandscapeTransform(page.horizontal, page.vertical)))
      && d[|d| - 3..] == [Rect(page.horizontal, page.vertical), GroupClose, SvgClose]
      && forall k :: 2 <= k < |d| - 3 ==> d[k].PolyStart? || d[k].Point? || d[k].PolyEnd?
  {
    var d := Document(page, o, id);
    var body := RenderAll(EmissionOrder(page.layers));
    StrokeTokenKinds(EmissionOrder(page.layers));
    assert d == [Canvas(page, o), Group(page, o, id)] + body + Footer(page);
    forall k | 2 <= k < |d| - 3
      ensures d[k].PolyStart? || d[k].Point? || d[k].PolyEnd?
    {
      assert d[k] == body[k - 2];
    }
  }

  /** A page without strokes renders to the canvas, the group and the rectangle only. */
  lemma EmptyPage(page: Page, o: Orientation, id: GroupId)
    requires AllStrokes(page.layers) == []
    ensures Document(page, o, id)
         == [Canvas(page, o), Group(page, o, id), Rect(page.horizontal, page.vertical), GroupClose, SvgClose]
  {
  }

  /** The landscape transform: the centre is the page's half dimensions, and the
      translation `delta` is never positive; it is `-|(v - h) / 2|` (division
      truncating toward zero) whenever `v - h` fits in an `int`. */
  lemma LandscapeDelta(h: Int32, v: Int32)
    ensures var t := LandscapeTransform(h, v);
      && t.cx == Half(h) && t.cy == Half(v)
      && -0x4000_0000 <= t.delta <= 0
      && (IntMin <= v - h <= IntMax ==>
            (v - h >= 0 ==> t.delta == -Half(v - h)) && (v - h < 0 ==> t.delta == Half(v - h)))
  {
  }

  /** The standard page, 1404 by 1872 pixels, in landscape: viewBox `0 0 1872 1404`,
      rotation about (702, 936) and a translation of -234 on both axes. */
  lemma StandardLandscapePage(page: Page, id: GroupId)
    requires page.horizontal == 1404 && page.vertical == 1872
    ensures Document(page, Landscape, id)[0] == SvgOpen(1872, 1404)
    ensures Document(page, Landscape, id)[1] == GroupOpen(id, Some(RotateTranslate(702, 936, -234)))
  {
    DocumentFrame(page, Landscape, id);
  }
}
