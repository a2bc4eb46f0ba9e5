/**
 * The geometry a page is drawn from: pages hold layers, layers hold strokes,
 * strokes hold segments (pen samples). These values are built by the notebook
 * parser and only read by the renderer.
 */
module PageModel {
  import opened Wrappers
  import opened JavaInt

  /** Pen kinds. Only the highlighter is treated specially by the renderer; the
      other kinds are told apart by their ordinal. */
  datatype PencilType = Highlighter | OtherPencil(ordinal: nat)

  /** Stroke colours. `Highlight` is the colour every highlighter mark is drawn in. */
  datatype StrokeColor = Highlight | OtherColor(ordinal: nat)

  /** One pen sample. `number` is the sample's sequence number within its stroke;
      coordinates, pressure, speed and width are floating point in the device
      format and are only carried along here. */
  datatype Segment = Segment(number: Int32, x: real, y: real, pressure: real, speed: real, width: real)

  /** A pen stroke. `firstWidth` is the stroke width of the stroke's first segment
      as the stroke itself reports it. */
  datatype Stroke = Stroke(pencil: PencilType, color: StrokeColor, firstWidth: real, segments: seq<Segment>)

  datatype Layer = Layer(strokes: seq<Stroke>)

  /** Identity of a notebook object, the target of a page's back-reference. */
  type NotebookRef = nat

  /** A page: its number, its pixel dimensions, its layers, an optional thumbnail
      file and an optional back-reference to the notebook holding it. */
  datatype Page = Page(
    number: Int32,
    horizontal: Int32,
    vertical: Int32,
    layers: seq<Layer>,
    thumbnail: Option<string>,
    notebook: Option<NotebookRef>)

  predicate IsHighlighter(s: Stroke)
  {
    s.pencil == Highlighter
  }

  /** Every stroke of the given layers, layer by layer, each layer in stroke order. */
  function AllStrokes(layers: seq<Layer>): seq<Stroke>
  {
    if |layers| == 0 then []
    else AllStrokes(layers[..|layers| - 1]) + layers[|layers| - 1].strokes
  }
}
