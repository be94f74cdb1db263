/** The first rounded-rectangle widget's geometry (src/myshader.rs). Its
    `make_rects` and `encode_geometry` are the wavy-rectangle widget's code
    with the scale fixed at 3.0, so they are modelled as that instance of
    `WavyRects`, with their contracts stated for the fixed scale. */
module MyShader {
  import opened Geometry
  import WavyRects

  /** make_rects with scale 3.0: `steps` squares of side 3 * max(dx, 0.1),
      so at least 0.3; rotations alternating in sign with the index parity;
      columns evenly spaced by dx from x0 + dx/2. */
  function MakeRects(tr: Trig, timeSeconds: real, steps: u32,
                     x0: real, x1: real, y0: real, y1: real): (rects: seq<Rect>)
    requires steps as int < U32Max
    ensures |rects| == steps as int
    ensures forall i :: 0 <= i < |rects| ==>
      rects[i].size.x == rects[i].size.y == 3.0 * Max(WavyRects.Spacing(steps, x0, x1), 0.1)
      && rects[i].size.x >= 0.3
    ensures forall i :: 0 <= i < |rects| ==>
      rects[i].orientationRadians
        == (if i % 2 == 1 then WavyRects.Phase(timeSeconds) else -WavyRects.Phase(timeSeconds))
    ensures forall i :: 0 <= i < |rects| ==>
      rects[i].center.x == x0 + WavyRects.Spacing(steps, x0, x1) * (i as real + 0.5)
  {
    WavyRects.SizesPositive(tr, timeSeconds, 3.0, steps, x0, x1, y0, y1);
    WavyRects.MakeRects(tr, timeSeconds, 3.0, steps, x0, x1, y0, y1)
  }

  /** Inside a box of positive width and non-negative height, with cosine
      in [-1, 1], every centre is strictly inside (x0, x1) and in [y0, y1],
      and neighbouring rectangles turn in opposite directions. */
  lemma CentresInsideBox(tr: Trig, timeSeconds: real, steps: u32,
                         x0: real, x1: real, y0: real, y1: real)
    requires steps as int < U32Max
    requires x1 > x0 && y1 >= y0 && CosBounded(tr)
    ensures var rects := MakeRects(tr, timeSeconds, steps, x0, x1, y0, y1);
      && (forall i :: 0 <= i < |rects| ==>
            x0 < rects[i].center.x < x1 && y0 <= rects[i].center.y <= y1)
      && (forall i :: 0 <= i < |rects| - 1 ==>
            rects[i + 1].orientationRadians == -rects[i].orientationRadians)
  {
    var rects := MakeRects(tr, timeSeconds, steps, x0, x1, y0, y1);
    WavyRects.CentersInsideColumns(tr, timeSeconds, 3.0, steps, x0, x1, y0, y1);
    WavyRects.CentersInsideRows(tr, timeSeconds, 3.0, steps, x0, x1, y0, y1);
    WavyRects.RotationsAlternate(tr, timeSeconds, 3.0, steps, x0, x1, y0, y1);
    assert forall i :: 0 <= i < |rects| ==> rects[i] in rects;
  }

  /** encode_geometry: 3n vertices, the identity index list 0 .. 3n - 1,
      and triangle k built from rectangle k exactly as in `WavyRects`. */
  function EncodeGeometry(tr: Trig, rects: seq<Rect>): (g: (seq<Vertex>, seq<u32>))
    requires forall r :: r in rects ==> WavyRects.NonDegenerate(r)
    requires 3 * |rects| <= U32Max
    ensures |g.0| == 3 * |rects| && |g.1| == |g.0|
    ensures forall k :: 0 <= k < |g.1| ==> g.1[k] as int == k
    ensures forall k :: 0 <= k < |rects| ==>
      g.0[3 * k .. 3 * k + 3] == WavyRects.MkVertices(tr, rects[k])
  {
    WavyRects.EncodedTriangles(tr, rects);
    WavyRects.EncodeGeometry(tr, rects)
  }
}
