/**
 * Which strokes the renderer draws, in which order and in which colour.
 */
module SvgOrdering {
  import opened PageModel
  import opened SvgDocument

  /** A selection holds exactly the strokes of the requested kind. */
  lemma {:induction false} SelectMembers(ss: seq<Stroke>, highlighter: bool, s: Stroke)
    ensures s in Select(ss, highlighter) <==> s in ss && IsHighlighter(s) == highlighter
    decreases |ss|
  {
    if |ss| > 0 {
      var init := ss[..|ss| - 1];
      SelectMembers(init, highlighter, s);
      assert ss == init + [ss[|ss| - 1]];
    }
  }

  /** Splitting by kind loses and duplicates nothing: the two selections together
      are a permutation of the input. */
  lemma {:induction false} SelectPartition(ss: seq<Stroke>)
    ensures multiset(Select(ss, true)) + multiset(Select(ss, false)) == multiset(ss)
    decreases |ss|
  {
    if |ss| > 0 {
      var init := ss[..|ss| - 1];
      SelectPartition(init);
      assert ss == init + [ss[|ss| - 1]];
    }
  }

  /** A selection keeps the original relative order: selecting from any prefix of
      the strokes gives a prefix of the full selection. */
  lemma SelectKeepsOrder(ss: seq<Stroke>, highlighter: bool, k: nat)
    requires k <= |ss|
    ensures Select(ss[..k], highlighter) <= Select(ss, highlighter)
  {
    assert ss == ss[..k] + ss[k..];
    SelectAppend(ss[..k], ss[k..], highlighter);
  }

  /** Every stroke of every layer is drawn exactly once across the two passes. */
  lemma EveryStrokeOnce(layers: seq<Layer>)
    ensures multiset(EmissionOrder(layers)) == multiset(AllStrokes(layers))
  {
    SelectPartition(AllStrokes(layers));
  }

  /** All highlighter strokes are drawn before every other stroke; within each
      pass the layer-then-stroke order of the page is kept. */
  lemma HighlightersFirst(layers: seq<Layer>)
    ensures var e := EmissionOrder(layers);
      forall i, j :: 0 <= i < j < |e| && IsHighlighter(e[j]) ==> IsHighlighter(e[i])
    ensures forall k :: 0 <= k <= |AllStrokes(layers)| ==>
      && Select(AllStrokes(layers)[..k], true) <= Select(AllStrokes(layers), true)
      && Select(AllStrokes(layers)[..k], false) <= Select(AllStrokes(layers), false)
  {
    var all := AllStrokes(layers);
    var hs := Select(all, true);
    var os := Select(all, false);
    var e := EmissionOrder(layers);
    forall i, j | 0 <= i < j < |e| && IsHighlighter(e[j])
      ensures IsHighlighter(e[i])
    {
      if j >= |hs| {
        assert e[j] in os;
        SelectMembers(all, false, e[j]);
        assert false;
      }
      assert e[i] in hs;
      SelectMembers(all, true, e[i]);
    }
    forall k | 0 <= k <= |all|
      ensures Select(all[..k], true) <= hs && Select(all[..k], false) <= os
    {
      SelectKeepsOrder(all, true, k);
      SelectKeepsOrder(all, false, k);
    }
  }

  lemma {:induction false} SegmentTokensColor(segs: seq<Segment>, color: StrokeColor, pencil: PencilType)
    ensures forall t :: t in SegmentTokens(segs, color, pencil) && t.PolyStart? ==> t.color == color
    decreases |segs|
  {
    if |segs| > 0 {
      SegmentTokensColor(segs[1..], color, pencil);
    }
  }

  /** A stroke is written only in the pass of its own pencil type, and then it
      writes at least a polyline start and end. */
  lemma OnlyInOwnPass(s: Stroke, pass: PencilType)
    ensures AddStroke(s, pass) != [] <==> pass == s.pencil
    ensures pass == s.pencil ==> var r := AddStroke(s, pass);
      |r| >= 2 && r[0].PolyStart? && r[|r| - 1] == PolyEnd
  {
  }

  /** In the highlighter pass every polyline has the highlight colour, whatever
      colour the stroke stores; in any other pass it has the stroke's own colour. */
  lemma PassColors(s: Stroke, pass: PencilType)
    ensures pass == Highlighter ==>
      forall t :: t in AddStroke(s, pass) && t.PolyStart? ==> t.color == Highlight
    ensures pass != Highlighter ==>
      forall t :: t in AddStroke(s, pass) && t.PolyStart? ==> t.color == s.color
  {
    SegmentTokensColor(s.segments, PassColor(s, pass), s.pencil);
  }

  /** Rendered on its own, a highlighter stroke is drawn in the highlight colour and
      every other stroke in its stored colour. */
  lemma StrokeColors(s: Stroke)
    ensures forall t :: t in RenderStroke(s) && t.PolyStart? ==>
      t.color == (if IsHighlighter(s) then Highlight else s.color)
  {
    PassColors(s, s.pencil);
  }
}
