/**
 * How one stroke is chunked into polylines. `Polylines` is the stroke read as a
 * list of polylines, each with its style and the samples whose points it lists;
 * the token stream the renderer writes is exactly that list drawn out.
 */
module SvgPolylines {
  import opened PageModel
  import opened SvgDocument

  datatype Polyline = Polyline(color: StrokeColor, style: PolyStyle, samples: seq<Segment>)

  function Points(samples: seq<Segment>): seq<Token>
  {
    if |samples| == 0 then []
    else Points(samples[..|samples| - 1]) + [PointOf(samples[|samples| - 1])]
  }

  /** A polyline as tokens: its start, its points, its end. */
  function Draw(p: Polyline): seq<Token>
  {
    [PolyStart(p.color, p.style)] + Points(p.samples) + [PolyEnd]
  }

  function Flatten(ps: seq<Polyline>): seq<Token>
  {
    if |ps| == 0 then [] else Draw(ps[0]) + Flatten(ps[1..])
  }

  /** The polylines of the segments `segs` when a polyline with `style` that has
      listed `samples` so far is open: a boundary segment ends the open polyline
      and opens the next one at the same sample. */
  function Chunk(color: StrokeColor, pencil: PencilType, style: PolyStyle, samples: seq<Segment>, segs: seq<Segment>): seq<Polyline>
    decreases |segs|
  {
    if |segs| == 0 then [Polyline(color, style, samples)]
    else if IsBoundary(segs[0]) then
      [Polyline(color, style, samples + [segs[0]])]
      + Chunk(color, pencil, SampleStyle(pencil, segs[0]), [segs[0]], segs[1..])
    else Chunk(color, pencil, style, samples + [segs[0]], segs[1..])
  }

  /** The polylines a stroke is drawn as in the pass for `pass`. */
  function StrokePolylines(s: Stroke, pass: PencilType): seq<Polyline>
  {
    if pass == s.pencil
    then Chunk(PassColor(s, pass), s.pencil, StrokeStyle(s.firstWidth, s.pencil), [], s.segments)
    else []
  }

  /** The number of chunk-boundary segments. */
  function Boundaries(segs: seq<Segment>): nat
  {
    if |segs| == 0 then 0
    else (if IsBoundary(segs[0]) then 1 else 0) + Boundaries(segs[1..])
  }

  function CountStarts(ts: seq<Token>): nat
  {
    if |ts| == 0 then 0 else (if ts[0].PolyStart? then 1 else 0) + CountStarts(ts[1..])
  }

  function CountEnds(ts: seq<Token>): nat
  {
    if |ts| == 0 then 0 else (if ts[0].PolyEnd? then 1 else 0) + CountEnds(ts[1..])
  }

  // ---------------------------------------------------------------------------
  // The token stream is the polylines drawn out.
  // ---------------------------------------------------------------------------

  lemma PointsSnoc(samples: seq<Segment>, seg: Segment)
    ensures Points(samples + [seg]) == Points(samples) + [PointOf(seg)]
  {
    assert (samples + [seg])[..|samples|] == samples;
  }

  lemma Regroup(a: seq<Token>, b: seq<Token>, c: seq<Token>, d: seq<Token>)
    ensures a + (b + c) + d == (a + b) + c + d
  {
  }

  /** The tokens around a boundary, regrouped as the end of one polyline and the
      start of the next. */
  lemma BoundaryRegroup(open: seq<Token>, tail: seq<Token>, point: Token, end: Token, start: Token)
    ensures open + ([point, end, start, point] + tail) + [end]
         == (open + [point] + [end]) + ([start] + [point] + tail + [end])
  {
    assert [point, end, start, point] == [point] + [end] + [start] + [point];
  }

  /** The tokens a stroke writes once a polyline with `style` listing `samples`
      is open and `segs` remain. */
  function Pending(color: StrokeColor, pencil: PencilType, style: PolyStyle, samples: seq<Segment>, segs: seq<Segment>): seq<Token>
  {
    [PolyStart(color, style)] + Points(samples) + SegmentTokens(segs, color, pencil) + [PolyEnd]
  }

  /** The boundary case of `ChunkTokens`, given the claim for the segments after
      the boundary. */
  lemma TokensAtBoundary(color: StrokeColor, pencil: PencilType, style: PolyStyle, samples: seq<Segment>, segs: seq<Segment>)
    requires |segs| > 0 && IsBoundary(segs[0])
    requires Pending(color, pencil, SampleStyle(pencil, segs[0]), [segs[0]], segs[1..])
          == Flatten(Chunk(color, pencil, SampleStyle(pencil, segs[0]), [segs[0]], segs[1..]))
    ensures Pending(color, pencil, style, samples, segs) == Flatten(Chunk(color, pencil, style, samples, segs))
  {
    var seg := segs[0];
    var next := SampleStyle(pencil, seg);
    var open := [PolyStart(color, style)] + Points(samples);
    var tail := SegmentTokens(segs[1..], color, pencil);
    var rest := Chunk(color, pencil, next, [seg], segs[1..]);
    var ps := Chunk(color, pencil, style, samples, segs);
    PointsSnoc(samples, seg);
    PointsSnoc([], seg);
    assert SegmentTokens(segs, color, pencil)
        == [PointOf(seg), PolyEnd, PolyStart(color, next), PointOf(seg)] + tail;
    assert ps == [Polyline(color, style, samples + [seg])] + rest;
    assert Flatten(ps) == Draw(ps[0]) + Flatten(rest);
    assert Draw(ps[0]) == open + [PointOf(seg)] + [PolyEnd];
    assert Flatten(rest) == [PolyStart(color, next)] + [PointOf(seg)] + tail + [PolyEnd];
    BoundaryRegroup(open, tail, PointOf(seg), PolyEnd, PolyStart(color, next));
  }

  /** The case of `ChunkTokens` for a segment inside a polyline, given the claim
      for the remaining segments. */
  lemma TokensInside(color: StrokeColor, pencil: PencilType, style: PolyStyle, samples: seq<Segment>, segs: seq<Segment>)
    requires |segs| > 0 && !IsBoundary(segs[0])
    requires Pending(color, pencil, style, samples + [segs[0]], segs[1..])
          == Flatten(Chunk(color, pencil, style, samples + [segs[0]], segs[1..]))
    ensures Pending(color, pencil, style, samples, segs) == Flatten(Chunk(color, pencil, style, samples, segs))
  {
    var seg := segs[0];
    var open := [PolyStart(color, style)] + Points(samples);
    var tail := SegmentTokens(segs[1..], color, pencil);
    PointsSnoc(samples, seg);
    assert [PolyStart(color, style)] + Points(samples + [seg]) == open + [PointOf(seg)];
    assert SegmentTokens(segs, color, pencil) == [PointOf(seg)] + tail;
    Regroup(open, [PointOf(seg)], tail, [PolyEnd]);
  }

  lemma {:induction false} ChunkTokens(color: StrokeColor, pencil: PencilType, style: PolyStyle, samples: seq<Segment>, segs: seq<Segment>)
    ensures Pending(color, pencil, style, samples, segs) == Flatten(Chunk(color, pencil, style, samples, segs))
    decreases |segs|
  {
    if |segs| == 0 {
      var ps := Chunk(color, pencil, style, samples, segs);
      assert Flatten(ps) == Draw(ps[0]) + Flatten([]);
    } else if IsBoundary(segs[0]) {
      ChunkTokens(color, pencil, SampleStyle(pencil, segs[0]), [segs[0]], segs[1..]);
      TokensAtBoundary(color, pencil, style, samples, segs);
    } else {
      ChunkTokens(color, pencil, style, samples + [segs[0]], segs[1..]);
      TokensInside(color, pencil, style, samples, segs);
    }
  }

  /** The tokens written for a stroke in a pass are its polylines drawn out, so the
      stroke's output is a run of complete polylines, each closed before the next
      one opens. */
  lemma StrokeIsPolylines(s: Stroke, pass: PencilType)
    ensures AddStroke(s, pass) == Flatten(StrokePolylines(s, pass))
  {
    if pass == s.pencil {
      ChunkTokens(PassColor(s, pass), s.pencil, StrokeStyle(s.firstWidth, s.pencil), [], s.segments);
    }
  }

  // ---------------------------------------------------------------------------
  // Counting: one polyline, plus one per boundary segment.
  // ---------------------------------------------------------------------------

  lemma {:induction false} ChunkCount(color: StrokeColor, pencil: PencilType, style: PolyStyle, samples: seq<Segment>, segs: seq<Segment>)
    ensures |Chunk(color, pencil, style, samples, segs)| == 1 + Boundaries(segs)
    decreases |segs|
  {
    if |segs| > 0 {
      if IsBoundary(segs[0]) {
        ChunkCount(color, pencil, SampleStyle(pencil, segs[0]), [segs[0]], segs[1..]);
      } else {
        ChunkCount(color, pencil, style, samples + [segs[0]], segs[1..]);
      }
    }
  }

  lemma {:induction false} PointsCounts(samples: seq<Segment>)
    ensures CountStarts(Points(samples)) == 0 && CountEnds(Points(samples)) == 0
    decreases |samples|
  {
    if |samples| > 0 {
      var init := samples[..|samples| - 1];
      PointsCounts(init);
      CountsAppend(Points(init), [PointOf(samples[|samples| - 1])]);
    }
  }

  lemma {:induction false} CountsAppend(a: seq<Token>, b: seq<Token>)
    ensures CountStarts(a + b) == CountStarts(a) + CountStarts(b)
    ensures CountEnds(a + b) == CountEnds(a) + CountEnds(b)
    decreases |a|
  {
    if |a| == 0 {
      assert a + b == b;
    } else {
      assert (a + b)[1..] == a[1..] + b;
      CountsAppend(a[1..], b);
    }
  }

  lemma {:induction false} FlattenCounts(ps: seq<Polyline>)
    ensures CountStarts(Flatten(ps)) == |ps| && CountEnds(Flatten(ps)) == |ps|
    decreases |ps|
  {
    if |ps| > 0 {
      var p := ps[0];
      FlattenCounts(ps[1..]);
      PointsCounts(p.samples);
      CountsAppend([PolyStart(p.color, p.style)], Points(p.samples));
      CountsAppend([PolyStart(p.color, p.style)] + Points(p.samples), [PolyEnd]);
      CountsAppend(Draw(p), Flatten(ps[1..]));
    }
  }

  /** A stroke written in its own pass opens `1 + (number of segments whose number
      is a multiple of 8)` polylines and closes the same number. The first segment
      is not special-cased. */
  lemma StrokePolylineCount(s: Stroke)
    ensures |StrokePolylines(s, s.pencil)| == 1 + Boundaries(s.segments)
    ensures CountStarts(RenderStroke(s)) == 1 + Boundaries(s.segments)
    ensures CountEnds(RenderStroke(s)) == 1 + Boundaries(s.segments)
  {
    var ps := StrokePolylines(s, s.pencil);
    ChunkCount(PassColor(s, s.pencil), s.pencil, StrokeStyle(s.firstWidth, s.pencil), [], s.segments);
    StrokeIsPolylines(s, s.pencil);
    FlattenCounts(ps);
  }

  // ---------------------------------------------------------------------------
  // Joins: consecutive polylines share the boundary sample.
  // ---------------------------------------------------------------------------

  /** Polyline `q` starts at the sample polyline `p` ended with; that sample is a
      boundary segment and `q` takes its style from it. */
  predicate JoinAt(p: Polyline, q: Polyline, pencil: PencilType)
  {
    && |p.samples| > 0
    && |q.samples| > 0
    && q.samples[0] == p.samples[|p.samples| - 1]
    && IsBoundary(q.samples[0])
    && q.style == SampleStyle(pencil, q.samples[0])
  }

  /** Every two consecutive polylines are joined at a boundary sample. */
  ghost predicate Joined(ps: seq<Polyline>, pencil: PencilType)
  {
    forall i, j :: 0 <= i < j < |ps| && j == i + 1 ==> JoinAt(ps[i], ps[j], pencil)
  }

  lemma {:induction false} ChunkHead(color: StrokeColor, pencil: PencilType, style: PolyStyle, samples: seq<Segment>, segs: seq<Segment>)
    ensures var ps := Chunk(color, pencil, style, samples, segs);
      |ps| > 0 && ps[0].style == style && samples <= ps[0].samples
    decreases |segs|
  {
    if |segs| > 0 && !IsBoundary(segs[0]) {
      ChunkHead(color, pencil, style, samples + [segs[0]], segs[1..]);
    }
  }

  lemma {:induction false} ChunkJoined(color: StrokeColor, pencil: PencilType, style: PolyStyle, samples: seq<Segment>, segs: seq<Segment>)
    ensures Joined(Chunk(color, pencil, style, samples, segs), pencil)
    decreases |segs|
  {
    if |segs| > 0 {
      var seg := segs[0];
      if IsBoundary(seg) {
        var next := SampleStyle(pencil, seg);
        var rest := Chunk(color, pencil, next, [seg], segs[1..]);
        ChunkJoined(color, pencil, next, [seg], segs[1..]);
        ChunkHead(color, pencil, next, [seg], segs[1..]);
        var ps := Chunk(color, pencil, style, samples, segs);
        assert ps == [Polyline(color, style, samples + [seg])] + rest;
        forall i, j | 0 <= i < j < |ps| && j == i + 1
          ensures JoinAt(ps[i], ps[j], pencil)
        {
          if i > 0 {
            assert ps[i] == rest[i - 1] && ps[j] == rest[j - 1];
          }
        }
      } else {
        ChunkJoined(color, pencil, style, samples + [seg], segs[1..]);
      }
    }
  }

  /** Each boundary segment's point ends one polyline and starts the next. */
  lemma StrokeJoins(s: Stroke, pass: PencilType)
    ensures Joined(StrokePolylines(s, pass), s.pencil)
  {
    if pass == s.pencil {
      ChunkJoined(PassColor(s, pass), s.pencil, StrokeStyle(s.firstWidth, s.pencil), [], s.segments);
    }
  }

  /** When the first segment is itself a boundary, the first polyline holds that
      one point and a second polyline starts again at it. */
  lemma FirstSegmentBoundary(s: Stroke)
    requires |s.segments| > 0 && IsBoundary(s.segments[0])
    ensures var ps := StrokePolylines(s, s.pencil);
      |ps| >= 2 && ps[0].samples == [s.segments[0]] && |ps[1].samples| > 0 && ps[1].samples[0] == s.segments[0]
  {
    var seg := s.segments[0];
    var color := PassColor(s, s.pencil);
    var rest := Chunk(color, s.pencil, SampleStyle(s.pencil, seg), [seg], s.segments[1..]);
    ChunkHead(color, s.pencil, SampleStyle(s.pencil, seg), [seg], s.segments[1..]);
    var ps := StrokePolylines(s, s.pencil);
    assert ps == [Polyline(color, StrokeStyle(s.firstWidth, s.pencil), [] + [seg])] + rest;
    assert ps[1] == rest[0];
  }

  // ---------------------------------------------------------------------------
  // Every segment is drawn, in order; only the joins repeat a point.
  // ---------------------------------------------------------------------------

  /** The samples after the first one of each polyline, all polylines in order. */
  function Continuations(ps: seq<Polyline>): seq<Segment>
  {
    if |ps| == 0 then []
    else (if |ps[0].samples| == 0 then [] else ps[0].samples[1..]) + Continuations(ps[1..])
  }

  /** The samples of all polylines with each join counted once: the first polyline
      whole, then every later polyline without its repeated first sample. */
  function Dejoin(ps: seq<Polyline>): seq<Segment>
  {
    if |ps| == 0 then [] else ps[0].samples + Continuations(ps[1..])
  }

  /** Read from the second sample on, the polylines after the first are their
      de-joined samples without the first one. */
  lemma ContinuationsOfDejoin(rest: seq<Polyline>)
    requires |rest| > 0 && |rest[0].samples| > 0
    ensures Continuations(rest) == Dejoin(rest)[1..]
  {
    var first := rest[0].samples;
    assert Dejoin(rest) == first + Continuations(rest[1..]);
    assert (first + Continuations(rest[1..]))[1..] == first[1..] + Continuations(rest[1..]);
  }

  /** The boundary case of `ChunkDejoin`, given the claim for the segments after
      the boundary. */
  lemma DejoinAtBoundary(color: StrokeColor, pencil: PencilType, style: PolyStyle, samples: seq<Segment>, segs: seq<Segment>)
    requires |segs| > 0 && IsBoundary(segs[0])
    requires Dejoin(Chunk(color, pencil, SampleStyle(pencil, segs[0]), [segs[0]], segs[1..])) == [segs[0]] + segs[1..]
    ensures Dejoin(Chunk(color, pencil, style, samples, segs)) == samples + segs
  {
    var seg := segs[0];
    var rest := Chunk(color, pencil, SampleStyle(pencil, seg), [seg], segs[1..]);
    ChunkHead(color, pencil, SampleStyle(pencil, seg), [seg], segs[1..]);
    var ps := Chunk(color, pencil, style, samples, segs);
    assert ps == [Polyline(color, style, samples + [seg])] + rest;
    assert ps[1..] == rest;
    ContinuationsOfDejoin(rest);
    assert Continuations(rest) == segs[1..];
    assert Dejoin(ps) == (samples + [seg]) + segs[1..];
    assert segs == [seg] + segs[1..];
  }

  lemma {:induction false} ChunkDejoin(color: StrokeColor, pencil: PencilType, style: PolyStyle, samples: seq<Segment>, segs: seq<Segment>)
    ensures Dejoin(Chunk(color, pencil, style, samples, segs)) == samples + segs
    decreases |segs|
  {
    if |segs| > 0 {
      var seg := segs[0];
      if IsBoundary(seg) {
        ChunkDejoin(color, pencil, SampleStyle(pencil, seg), [seg], segs[1..]);
        DejoinAtBoundary(color, pencil, style, samples, segs);
      } else {
        ChunkDejoin(color, pencil, style, samples + [seg], segs[1..]);
        assert samples + [seg] + segs[1..] == samples + segs;
      }
    }
  }

  /** Reading the polylines of a stroke and counting each join point once gives
      back exactly the stroke's segments in order: every non-boundary segment is
      drawn once, and a boundary segment twice only because it is a join. */
  lemma StrokeSegmentsInOrder(s: Stroke)
    ensures Dejoin(StrokePolylines(s, s.pencil)) == s.segments
  {
    ChunkDejoin(PassColor(s, s.pencil), s.pencil, StrokeStyle(s.firstWidth, s.pencil), [], s.segments);
  }

  // ---------------------------------------------------------------------------
  // Polyline length when segments are numbered 0, 1, 2, ...
  // ---------------------------------------------------------------------------

  /** Segment `i` carries number `base + i`. */
  predicate NumberedFrom(segs: seq<Segment>, base: int)
  {
    forall i :: 0 <= i < |segs| ==> segs[i].number == base + i
  }

  /** How many samples the open polyline may already hold when the next segment has
      number `base`, so that no polyline ever exceeds nine samples. */
  predicate Room(base: int, held: nat)
  {
    if base % 8 == 0 then held <= 8 else held <= base % 8
  }

  lemma {:induction false} ChunkBound(color: StrokeColor, pencil: PencilType, style: PolyStyle, samples: seq<Segment>, segs: seq<Segment>, base: int)
    requires NumberedFrom(segs, base)
    requires Room(base, |samples|)
    ensures forall p :: p in Chunk(color, pencil, style, samples, segs) ==> |p.samples| <= 9
    decreases |segs|
  {
    if |segs| > 0 {
      var seg := segs[0];
      assert seg.number == base;
      assert NumberedFrom(segs[1..], base + 1) by {
        forall i | 0 <= i < |segs[1..]| ensures segs[1..][i].number == base + 1 + i {
          assert segs[1..][i] == segs[i + 1];
        }
      }
      if IsBoundary(seg) {
        ChunkBound(color, pencil, SampleStyle(pencil, seg), [seg], segs[1..], base + 1);
      } else {
        ChunkBound(color, pencil, style, samples + [seg], segs[1..], base + 1);
      }
    }
  }

  /** With the segments numbered 0, 1, 2, ... every polyline lists at most nine
      points: eight new samples plus the repeated join point. A stroke of 17 such
      segments therefore gives four polylines, of 1, 9, 9 and 1 points. */
  lemma PolylineLength(s: Stroke)
    requires NumberedFrom(s.segments, 0)
    ensures forall p :: p in StrokePolylines(s, s.pencil) ==> |p.samples| <= 9
  {
    ChunkBound(PassColor(s, s.pencil), s.pencil, StrokeStyle(s.firstWidth, s.pencil), [], s.segments, 0);
  }

  /** Multiples of 8 in `[0, n)`. */
  function MultiplesBelow(n: nat): nat
  {
    (n + 7) / 8
  }

  lemma {:induction false} BoundariesNumbered(segs: seq<Segment>, base: nat)
    requires NumberedFrom(segs, base)
    ensures Boundaries(segs) == MultiplesBelow(base + |segs|) - MultiplesBelow(base)
    decreases |segs|
  {
    if |segs| > 0 {
      assert segs[0].number == base;
      assert NumberedFrom(segs[1..], base + 1) by {
        forall i | 0 <= i < |segs[1..]| ensures segs[1..][i].number == base + 1 + i {
          assert segs[1..][i] == segs[i + 1];
        }
      }
      BoundariesNumbered(segs[1..], base + 1);
      assert MultiplesBelow(base + 1) - MultiplesBelow(base) == (if base % 8 == 0 then 1 else 0);
    }
  }

  /** A run of non-boundary segments up to a boundary at index `m` completes the
      open polyline with that boundary point; chunking goes on from the boundary. */
  lemma {:induction false} RunToBoundary(color: StrokeColor, pencil: PencilType, style: PolyStyle, samples: seq<Segment>, segs: seq<Segment>, m: nat)
    requires m < |segs| && IsBoundary(segs[m])
    requires forall i :: 0 <= i < m ==> !IsBoundary(segs[i])
    ensures Chunk(color, pencil, style, samples, segs)
         == [Polyline(color, style, samples + segs[..m + 1])]
            + Chunk(color, pencil, SampleStyle(pencil, segs[m]), [segs[m]], segs[m + 1..])
    decreases m
  {
    if m > 0 {
      assert !IsBoundary(segs[0]);
      RunToBoundary(color, pencil, style, samples + [segs[0]], segs[1..], m - 1);
      assert samples + [segs[0]] + segs[1..][..m] == samples + segs[..m + 1];
      assert segs[1..][m..] == segs[m + 1..];
    } else {
      assert segs[..1] == [segs[0]];
    }
  }

  /** Seventeen segments numbered 0 to 16 have boundaries at 0, 8 and 16, so the
      stroke is drawn as four polylines: the point of segment 0 alone, segments 0
      to 8, segments 8 to 16, and the point of segment 16 alone. */
  lemma SeventeenSegments(s: Stroke)
    requires |s.segments| == 17 && NumberedFrom(s.segments, 0)
    ensures |StrokePolylines(s, s.pencil)| == 4
    ensures StrokePolylines(s, s.pencil)[0].samples == [s.segments[0]]
    ensures StrokePolylines(s, s.pencil)[1].samples == s.segments[..9]
    ensures StrokePolylines(s, s.pencil)[2].samples == s.segments[8..17]
    ensures StrokePolylines(s, s.pencil)[3].samples == s.segments[16..]
    ensures forall p :: p in StrokePolylines(s, s.pencil) ==> |p.samples| <= 9
  {
    var segs := s.segments;
    var color := PassColor(s, s.pencil);
    var tail1 := segs[1..];
    var tail2 := segs[9..];
    assert IsBoundary(segs[0]);
    RunToBoundary(color, s.pencil, StrokeStyle(s.firstWidth, s.pencil), [], segs, 0);
    assert IsBoundary(tail1[7]) by { assert tail1[7] == segs[8]; }
    assert forall i :: 0 <= i < 7 ==> !IsBoundary(tail1[i]) by {
      forall i | 0 <= i < 7 ensures !IsBoundary(tail1[i]) { assert tail1[i] == segs[i + 1]; }
    }
    RunToBoundary(color, s.pencil, SampleStyle(s.pencil, segs[0]), [segs[0]], tail1, 7);
    assert tail1[7] == segs[8] && tail1[8..] == tail2;
    assert IsBoundary(tail2[7]) by { assert tail2[7] == segs[16]; }
    assert forall i :: 0 <= i < 7 ==> !IsBoundary(tail2[i]) by {
      forall i | 0 <= i < 7 ensures !IsBoundary(tail2[i]) { assert tail2[i] == segs[i + 9]; }
    }
    RunToBoundary(color, s.pencil, SampleStyle(s.pencil, segs[8]), [segs[8]], tail2, 7);
    assert tail2[7] == segs[16] && tail2[8..] == [];
    assert [segs[0]] + tail1[..8] == segs[..9];
    assert [segs[8]] + tail2[..8] == segs[8..17];
    assert [segs[16]] == segs[16..];
    PolylineLength(s);
  }
}
