/**
 * The page-to-SVG renderer. A page is written as an `svg` canvas holding one
 * group; the group holds every stroke as one or more polylines, followed by a
 * transparent rectangle covering the page. The output is modelled as a sequence
 * of element tokens rather than as formatted text.
 */
module SvgDocument {
  import opened Wrappers
  import opened JavaInt
  import opened PageModel

  /** Which of the two entry points renders the page. */
  datatype Orientation = Portrait | Landscape

  /** `rotate(90 cx cy) translate(delta delta)`. */
  datatype Transform = RotateTranslate(cx: int, cy: int, delta: int)

  /** Where a polyline's stroke width and opacity come from; the floating-point
      formulas themselves are not modelled. */
  datatype PolyStyle =
      /** The polyline opened before the first segment: the first segment's width
          and the pencil's base opacity. */
    | StrokeStyle(width: real, pencil: PencilType)
      /** A polyline opened at a chunk boundary: width `0.9 * (w + 0.6 * speed)` and
          opacity `round(base * pressure, 2)` of that sample. */
    | SampleStyle(pencil: PencilType, sample: Segment)

  /** The random group identifier; only its presence matters. */
  type GroupId = string

  datatype Token =
    | SvgOpen(width: int, height: int)                   // <svg viewBox="0 0 width height">
    | GroupOpen(id: GroupId, transform: Option<Transform>)
    | PolyStart(color: StrokeColor, style: PolyStyle)    // <polyline ... points="
    | Point(x: real, y: real)
    | PolyEnd                                            // "/>
    | Rect(width: int, height: int)                      // transparent bounding rectangle
    | GroupClose
    | SvgClose

  /** A segment whose number is a multiple of 8 ends the current polyline. Java's
      `%` truncates, but divisibility does not depend on the rounding mode. */
  predicate IsBoundary(seg: Segment)
  {
    seg.number % 8 == 0
  }

  function PointOf(seg: Segment): Token
  {
    Point(seg.x, seg.y)
  }

  /** The tokens the segment loop writes: every point once, and at a boundary the
      point, the end of the polyline, a new polyline and the point again. */
  function SegmentTokens(segs: seq<Segment>, color: StrokeColor, pencil: PencilType): seq<Token>
  {
    if |segs| == 0 then []
    else
      var seg := segs[0];
      var here := if IsBoundary(seg)
        then [PointOf(seg), PolyEnd, PolyStart(color, SampleStyle(pencil, seg)), PointOf(seg)]
        else [PointOf(seg)];
      here + SegmentTokens(segs[1..], color, pencil)
  }

  /** The colour a stroke is drawn in during the pass for `pass`. */
  function PassColor(s: Stroke, pass: PencilType): StrokeColor
  {
    if pass == Highlighter then Highlight else s.color
  }

  /** One stroke written during the pass for pencil type `pass`: nothing unless
      the stroke has that pencil type. */
  function AddStroke(s: Stroke, pass: PencilType): seq<Token>
  {
    var color := PassColor(s, pass);
    if pass == s.pencil then
      [PolyStart(color, StrokeStyle(s.firstWidth, s.pencil))]
      + SegmentTokens(s.segments, color, s.pencil)
      + [PolyEnd]
    else []
  }

  /** A stroke drawn in the pass of its own pencil type. */
  function RenderStroke(s: Stroke): seq<Token>
  {
    AddStroke(s, s.pencil)
  }

  /** The strokes that are (`highlighter`) or are not highlighter strokes, in order. */
  function Select(ss: seq<Stroke>, highlighter: bool): seq<Stroke>
  {
    if |ss| == 0 then []
    else
      var last := ss[|ss| - 1];
      Select(ss[..|ss| - 1], highlighter) + (if IsHighlighter(last) == highlighter then [last] else [])
  }

  /** The order strokes reach the output: highlighter strokes first, then all others. */
  function EmissionOrder(layers: seq<Layer>): seq<Stroke>
  {
    Select(AllStrokes(layers), true) + Select(AllStrokes(layers), false)
  }

  function RenderAll(ss: seq<Stroke>): seq<Token>
  {
    if |ss| == 0 then []
    else RenderAll(ss[..|ss| - 1]) + RenderStroke(ss[|ss| - 1])
  }

  /** The landscape group transform: rotation about the page centre, then a
      translation by `-|(v - h) / 2|` on both axes, all in Java `int` arithmetic. */
  function LandscapeTransform(h: Int32, v: Int32): Transform
  {
    RotateTranslate(Half(h), Half(v), Neg(Abs(Half(Sub(v, h)))))
  }

  function Canvas(page: Page, o: Orientation): Token
  {
    match o
    case Portrait => SvgOpen(page.horizontal, page.vertical)
    case Landscape => SvgOpen(page.vertical, page.horizontal)
  }

  function Group(page: Page, o: Orientation, id: GroupId): Token
  {
    match o
    case Portrait => GroupOpen(id, None)
    case Landscape => GroupOpen(id, Some(LandscapeTransform(page.horizontal, page.vertical)))
  }

  /** The rectangle, group end and canvas end written after the strokes. */
  function Footer(page: Page): seq<Token>
  {
    [Rect(page.horizontal, page.vertical), GroupClose, SvgClose]
  }

  /** Reference definition of a rendered page: canvas, group, every stroke once in
      emission order, then the footer. */
  function Document(page: Page, o: Orientation, id: GroupId): seq<Token>
  {
    [Canvas(page, o), Group(page, o, id)] + RenderAll(EmissionOrder(page.layers)) + Footer(page)
  }

  // ---------------------------------------------------------------------------
  // The writer: both entry points run the same two passes over the layers.
  // ---------------------------------------------------------------------------

  lemma {:induction false} RenderAllAppend(a: seq<Stroke>, b: seq<Stroke>)
    ensures RenderAll(a + b) == RenderAll(a) + RenderAll(b)
    decreases |b|
  {
    if |b| == 0 {
      assert a + b == a;
    } else {
      var b' := b[..|b| - 1];
      var s := b[|b| - 1];
      assert a + b == (a + b') + [s];
      assert b == b' + [s];
      RenderAllAppend(a, b');
      RenderAllSnoc(a + b', s);
      RenderAllSnoc(b', s);
    }
  }

  lemma SelectSnoc(ss: seq<Stroke>, s: Stroke, highlighter: bool)
    ensures Select(ss + [s], highlighter)
         == Select(ss, highlighter) + (if IsHighlighter(s) == highlighter then [s] else [])
  {
    assert (ss + [s])[..|ss|] == ss;
  }

  lemma RenderAllSnoc(ss: seq<Stroke>, s: Stroke)
    ensures RenderAll(ss + [s]) == RenderAll(ss) + RenderStroke(s)
  {
    assert (ss + [s])[..|ss|] == ss;
  }

  lemma AllStrokesSnoc(layers: seq<Layer>, i: nat)
    requires i < |layers|
    ensures AllStrokes(layers[..i + 1]) == AllStrokes(layers[..i]) + layers[i].strokes
  {
    assert layers[..i + 1][..i] == layers[..i];
  }

  lemma {:induction false} SelectAppend(a: seq<Stroke>, b: seq<Stroke>, highlighter: bool)
    ensures Select(a + b, highlighter) == Select(a, highlighter) + Select(b, highlighter)
    decreases |b|
  {
    if |b| == 0 {
      assert a + b == a;
    } else {
      var b' := b[..|b| - 1];
      assert (a + b)[..|a + b| - 1] == a + b';
      SelectAppend(a, b', highlighter);
    }
  }

  /** One stroke in one pass. In the highlighter pass every stroke is handed to
      `addStroke` with the highlighter type; in the other pass only
      non-highlighter strokes are, with their own type. Either way the stroke
      contributes its drawing exactly when it belongs to the pass. */
  method WriteStroke(s: Stroke, highlighter: bool) returns (written: seq<Token>)
    ensures written == RenderAll(Select([s], highlighter))
    ensures written == (if IsHighlighter(s) == highlighter then RenderStroke(s) else [])
  {
    written := [];
    if highlighter {
      written := AddStroke(s, Highlighter);
    } else if s.pencil != Highlighter {
      written := AddStroke(s, s.pencil);
    }
    SelectSnoc([], s, highlighter);
    assert [] + [s] == [s];
    RenderAllSnoc([], s);
  }

  /** The inner loop of one pass: the strokes of one layer. */
  method WriteLayer(strokes: seq<Stroke>, highlighter: bool) returns (out: seq<Token>)
    ensures out == RenderAll(Select(strokes, highlighter))
  {
    out := [];
    var j := 0;
    while j < |strokes|
      invariant 0 <= j <= |strokes|
      invariant out == RenderAll(Select(strokes[..j], highlighter))
    {
      var written := WriteStroke(strokes[j], highlighter);
      assert strokes[..j + 1] == strokes[..j] + [strokes[j]];
      SelectAppend(strokes[..j], [strokes[j]], highlighter);
      RenderAllAppend(Select(strokes[..j], highlighter), Select([strokes[j]], highlighter));
      out := out + written;
      j := j + 1;
    }
    assert strokes[..j] == strokes;
  }

  /** One pass: the layers in order, each through `WriteLayer`. */
  method WritePass(layers: seq<Layer>, highlighter: bool) returns (out: seq<Token>)
    ensures out == RenderAll(Select(AllStrokes(layers), highlighter))
  {
    out := [];
    var i := 0;
    while i < |layers|
      invariant 0 <= i <= |layers|
      invariant out == RenderAll(Select(AllStrokes(layers[..i]), highlighter))
    {
      var written := WriteLayer(layers[i].strokes, highlighter);
      AllStrokesSnoc(layers, i);
      SelectAppend(AllStrokes(layers[..i]), layers[i].strokes, highlighter);
      RenderAllAppend(Select(AllStrokes(layers[..i]), highlighter), Select(layers[i].strokes, highlighter));
      out := out + written;
      i := i + 1;
    }
    assert layers[..i] == layers;
  }

  /** The highlighter pass, so that highlighter marks lie beneath all other pen
      strokes, followed by the pass over all other strokes. */
  method WriteStrokes(layers: seq<Layer>) returns (out: seq<Token>)
    ensures out == RenderAll(EmissionOrder(layers))
  {
    var highlights := WritePass(layers, true);
    var others := WritePass(layers, false);
    RenderAllAppend(Select(AllStrokes(layers), true), Select(AllStrokes(layers), false));
    out := highlights + others;
  }

  /** `createPortrait(Page, Writer)`: the canvas has the page's own dimensions and
      the group has no transform. */
  method CreatePortrait(page: Page, id: GroupId) returns (out: seq<Token>)
    ensures out == Document(page, Portrait, id)
  {
    out := [SvgOpen(page.horizontal, page.vertical)];
    out := out + [GroupOpen(id, None)];
    var strokes := WriteStrokes(page.layers);
    out := out + strokes;
    out := out + [Rect(page.horizontal, page.vertical)];
    out := out + [GroupClose];
    out := out + [SvgClose];
  }

  /** `createLandscape(Page, Writer)`: the canvas dimensions are swapped and the
      group rotates the content. */
  method CreateLandscape(page: Page, id: GroupId) returns (out: seq<Token>)
    ensures out == Document(page, Landscape, id)
  {
    out := [SvgOpen(page.vertical, page.horizontal)];
    var delta := Neg(Abs(Half(Sub(page.vertical, page.horizontal))));
    out := out + [GroupOpen(id, Some(RotateTranslate(Half(page.horizontal), Half(page.vertical), delta)))];
    var strokes := WriteStrokes(page.layers);
    out := out + strokes;
    out := out + [Rect(page.horizontal, page.vertical)];
    out := out + [GroupClose];
    out := out + [SvgClose];
  }
}
