/** The wavy-rectangle widget's geometry (src/widgets/wavy_rects/ui.rs):
    `MakeRects` lays out `steps` square, rotated rectangles across a bounding
    box following a travelling cosine wave, and `EncodeGeometry` turns each
    rectangle into one right triangle whose uv field lets the fragment stage
    draw a rounded rectangle inside it. */
module WavyRects {
  import opened Geometry

  /** The shared animation angle 2*pi*t/7: one full turn every 7 seconds. */
  function Phase(timeSeconds: real): real
  {
    2.0 * Pi * timeSeconds / 7.0
  }

  /** Column spacing dx = (x1 - x0) / (steps + 1); `steps + 1` is u32
      arithmetic, so steps must leave room for it. */
  function Spacing(steps: u32, x0: real, x1: real): (dx: real)
    requires steps as int < U32Max
    ensures dx * ((steps + 1) as real) == x1 - x0
  {
    (x1 - x0) / ((steps + 1) as real)
  }

  /** Height of column i's centre: y0 + (y1 - y0) * (1 + cos(ph + Phase(t))) / 2,
      with the per-column phase offset ph = 2*pi*i/(steps + 1). */
  function WaveHeight(tr: Trig, timeSeconds: real, steps: u32, y0: real, y1: real, i: nat): real
    requires steps as int < U32Max
  {
    y0 + 0.5 * (y1 - y0) * (1.0 + tr.cos(2.0 * Pi * (i as real) / ((steps + 1) as real) + Phase(timeSeconds)))
  }

  /** Rectangle number i of the layout (the closure mapped over 0..steps). */
  function MakeRect(tr: Trig, timeSeconds: real, scale: real, steps: u32,
                    x0: real, x1: real, y0: real, y1: real, i: nat): Rect
    requires steps as int < U32Max
  {
    var n := (steps + 1) as real;
    var dx := (x1 - x0) / n;
    var dy := y1 - y0;
    var sz := Max(dx, 0.1);
    var isOdd := i % 2 == 1;
    var fi := i as real;
    var ph := 2.0 * Pi * fi / n;
    var cx := x0 + dx * (fi + 0.5);
    var cy := y0 + 0.5 * dy * (1.0 + tr.cos(ph + 2.0 * Pi * timeSeconds / 7.0));
    var w := scale * sz;
    var h := scale * sz;
    var th := (2.0 * Pi * timeSeconds / 7.0) * (if isOdd then 1.0 else -1.0);
    Rect(Vec2(cx, cy), Vec2(w, h), th)
  }

  /** make_rects: `steps` rectangles whose columns are evenly spaced by dx,
      whose width and height are both scale * max(dx, 0.1), whose rotation
      is +Phase(t) for odd indices and -Phase(t) for even ones, and whose
      centre height follows cos(2*pi*i/(steps+1) + Phase(t)). */
  function MakeRects(tr: Trig, timeSeconds: real, scale: real, steps: u32,
                     x0: real, x1: real, y0: real, y1: real): (rects: seq<Rect>)
    requires steps as int < U32Max
    ensures |rects| == steps as int
    ensures forall i :: 0 <= i < |rects| ==>
      rects[i].size.x == rects[i].size.y == scale * Max(Spacing(steps, x0, x1), 0.1)
    ensures forall i :: 0 <= i < |rects| ==>
      rects[i].orientationRadians == (if i % 2 == 1 then Phase(timeSeconds) else -Phase(timeSeconds))
    ensures forall i :: 0 <= i < |rects| ==>
      rects[i].center.x == x0 + Spacing(steps, x0, x1) * (i as real + 0.5)
    ensures forall i :: 0 <= i < |rects| ==>
      rects[i].center.y == WaveHeight(tr, timeSeconds, steps, y0, y1, i)
  {
    seq(steps as int, i requires 0 <= i < steps as int =>
      MakeRect(tr, timeSeconds, scale, steps, x0, x1, y0, y1, i))
  }

  /** With a positive scale every rectangle is a non-degenerate square of
      side at least 0.1 * scale, so the encoder's divisions by the half
      sizes are defined. */
  lemma SizesPositive(tr: Trig, timeSeconds: real, scale: real, steps: u32,
                      x0: real, x1: real, y0: real, y1: real)
    requires steps as int < U32Max
    requires scale > 0.0
    ensures forall r :: r in MakeRects(tr, timeSeconds, scale, steps, x0, x1, y0, y1) ==>
      r.size.x == r.size.y && r.size.x >= 0.1 * scale > 0.0
  {
    var rects := MakeRects(tr, timeSeconds, scale, steps, x0, x1, y0, y1);
    var sz := Max(Spacing(steps, x0, x1), 0.1);
    forall r | r in rects
      ensures r.size.x == r.size.y && r.size.x >= 0.1 * scale > 0.0
    {
      assert scale * sz >= scale * 0.1 by { MulLeftMono(scale, 0.1, sz); }
    }
  }

  /** Neighbouring rectangles turn in opposite directions. */
  lemma RotationsAlternate(tr: Trig, timeSeconds: real, scale: real, steps: u32,
                           x0: real, x1: real, y0: real, y1: real)
    requires steps as int < U32Max
    ensures var rects := MakeRects(tr, timeSeconds, scale, steps, x0, x1, y0, y1);
      forall i :: 0 <= i < |rects| - 1 ==>
        rects[i + 1].orientationRadians == -rects[i].orientationRadians
        && rects[i].orientationRadians * rects[i + 1].orientationRadians <= 0.0
  {
    var rects := MakeRects(tr, timeSeconds, scale, steps, x0, x1, y0, y1);
    AlternatingSigns(rects, Phase(timeSeconds));
  }

  lemma AlternatingSigns(rects: seq<Rect>, p: real)
    requires forall i :: 0 <= i < |rects| ==>
      rects[i].orientationRadians == (if i % 2 == 1 then p else -p)
    ensures forall i :: 0 <= i < |rects| - 1 ==>
      rects[i + 1].orientationRadians == -rects[i].orientationRadians
      && rects[i].orientationRadians * rects[i + 1].orientationRadians <= 0.0
  {
    forall i | 0 <= i < |rects| - 1
      ensures rects[i + 1].orientationRadians == -rects[i].orientationRadians
      ensures rects[i].orientationRadians * rects[i + 1].orientationRadians <= 0.0
    {
      assert (i % 2 == 1) <==> !((i + 1) % 2 == 1);
      assert p * -p == -(p * p);
    }
  }

  /** When the box has positive width, the column centres are strictly
      increasing, exactly dx apart, and strictly inside (x0, x1). */
  lemma CentersInsideColumns(tr: Trig, timeSeconds: real, scale: real, steps: u32,
                             x0: real, x1: real, y0: real, y1: real)
    requires steps as int < U32Max
    requires x1 > x0
    ensures var rects := MakeRects(tr, timeSeconds, scale, steps, x0, x1, y0, y1);
      && (forall i :: 0 <= i < |rects| ==> x0 < rects[i].center.x < x1)
      && Spacing(steps, x0, x1) > 0.0
      && (forall i :: 0 <= i < |rects| - 1 ==>
            rects[i + 1].center.x - rects[i].center.x == Spacing(steps, x0, x1))
  {
    var rects := MakeRects(tr, timeSeconds, scale, steps, x0, x1, y0, y1);
    EvenColumns(rects, x0, x1, Spacing(steps, x0, x1), (steps + 1) as real);
  }

  lemma EvenColumns(rects: seq<Rect>, x0: real, x1: real, dx: real, n: real)
    requires x1 > x0 && dx * n == x1 - x0 && |rects| as real < n
    requires forall i :: 0 <= i < |rects| ==> rects[i].center.x == x0 + dx * (i as real + 0.5)
    ensures dx > 0.0
    ensures forall i :: 0 <= i < |rects| ==> x0 < rects[i].center.x < x1
    ensures forall i :: 0 <= i < |rects| - 1 ==> rects[i + 1].center.x - rects[i].center.x == dx
  {
    assert n > 0.0;
    PositiveQuotient(x1 - x0, n, dx);
    forall i | 0 <= i < |rects|
      ensures x0 < rects[i].center.x < x1
    {
      StrictlyBetween(x0, x1, dx, n, i as real + 0.5);
    }
    forall i | 0 <= i < |rects| - 1
      ensures rects[i + 1].center.x - rects[i].center.x == dx
    {
      MulStep(dx, i as real + 0.5);
    }
  }

  /** When y1 >= y0 and cosine stays in [-1, 1], every centre lies in
      [y0, y1]. */
  lemma CentersInsideRows(tr: Trig, timeSeconds: real, scale: real, steps: u32,
                          x0: real, x1: real, y0: real, y1: real)
    requires steps as int < U32Max
    requires y1 >= y0
    requires CosBounded(tr)
    ensures forall r :: r in MakeRects(tr, timeSeconds, scale, steps, x0, x1, y0, y1) ==>
      y0 <= r.center.y <= y1
  {
    var rects := MakeRects(tr, timeSeconds, scale, steps, x0, x1, y0, y1);
    forall i | 0 <= i < |rects|
      ensures y0 <= rects[i].center.y <= y1
    {
      var a := 2.0 * Pi * (i as real) / ((steps + 1) as real) + Phase(timeSeconds);
      var k := 1.0 + tr.cos(a);
      assert 0.0 <= k <= 2.0;
      var dy := y1 - y0;
      MulNonneg(dy, k);
      MulNonneg(dy, 2.0 - k);
      assert dy * 2.0 - dy * k == dy * (2.0 - k);
      assert rects[i].center.y == y0 + 0.5 * (dy * k);
    }
  }

  /** One rectangle in the box [-0.9, 0.9]^2 at time 0 with scale 3: dx is
      0.9, so the rectangle is a 2.7 x 2.7 square centred at (-0.45, 0.9)
      with no rotation. */
  lemma SingleRectAtTimeZero(tr: Trig)
    requires tr.cos(0.0) == 1.0
    ensures MakeRects(tr, 0.0, 3.0, 1, -0.9, 0.9, -0.9, 0.9)
         == [Rect(Vec2(-0.45, 0.9), Vec2(2.7, 2.7), 0.0)]
  {
    var rects := MakeRects(tr, 0.0, 3.0, 1, -0.9, 0.9, -0.9, 0.9);
    assert Spacing(1, -0.9, 0.9) == 0.9;
    assert 2.0 * Pi * (0 as real) / ((1 + 1) as real) + Phase(0.0) == 0.0;
    assert rects[0].center.y == 0.9;
    assert rects[0] == Rect(Vec2(-0.45, 0.9), Vec2(2.7, 2.7), 0.0);
  }

  // ---------------------------------------------------------------------
  // Encoder: one right triangle per rectangle

  /** The encoder divides by both half sizes. */
  predicate NonDegenerate(r: Rect)
  {
    r.size.x != 0.0 && r.size.y != 0.0
  }

  /** The triangle that carries rectangle r, in the rectangle's own frame
      and before placement: A (top-left), B (bottom-right), C (bottom-left).
      B lies on A's row and C on A's column, so the legs AB and AC are at a
      right angle; uv starts at (-0.5, -0.5) at A and grows along u towards
      B and along v towards C. */
  function LocalTriangle(r: Rect): (tri: seq<Vertex>)
    requires NonDegenerate(r)
    ensures |tri| == 3
    ensures tri[0].uv == Vec2(-0.5, -0.5)
    ensures tri[0].xyz == Vec3(-0.5 * r.size.x, -0.5 * r.size.y, 0.0)
    ensures tri[1].xyz.y == tri[0].xyz.y && tri[1].uv.y == tri[0].uv.y
    ensures tri[2].xyz.x == tri[0].xyz.x && tri[2].uv.x == tri[0].uv.x
    ensures tri[1].xyz.z == tri[2].xyz.z == 0.0
    ensures tri[1].xyz.x == r.size.y - 0.5 * r.size.x
    ensures tri[2].xyz.y == r.size.x - 0.5 * r.size.y
    ensures tri[1].uv.x - tri[0].uv.x == (0.5 * r.size.x + 0.5 * r.size.y) / (0.5 * r.size.y)
    ensures tri[2].uv.y - tri[0].uv.y == (0.5 * r.size.x + 0.5 * r.size.y) / (0.5 * r.size.x)
  {
    var halfW := 0.5 * r.size.x;
    var halfH := 0.5 * r.size.y;
    var side := halfH + halfW;
    [ Vertex(Vec3(-halfW, -halfH, 0.0), Vec2(-0.5, -0.5)),
      Vertex(Vec3(2.0 * halfH - halfW, -halfH, 0.0), Vec2(-0.5 + side / halfH, -0.5)),
      Vertex(Vec3(-halfW, 2.0 * halfW - halfH, 0.0), Vec2(-0.5, -0.5 + side / halfW)) ]
  }

  /** The per-vertex closure of mk_vertices: shift by (halfW/2, halfH/2),
      rotate about the origin by the angle whose sine is s and cosine c,
      then translate to the centre. */
  function Place(v: Vertex, halfW: real, halfH: real, s: real, c: real, center: Vec2): (p: Vertex)
    ensures p.uv == v.uv && p.xyz.z == v.xyz.z
  {
    var turned := Rotate(Vec2(v.xyz.x + halfW * 0.5, v.xyz.y + halfH * 0.5), s, c);
    Vertex(Vec3(turned.x + center.x, turned.y + center.y, v.xyz.z), v.uv)
  }

  /** mk_vertices: the local triangle, each vertex placed. */
  function MkVertices(tr: Trig, r: Rect): (tri: seq<Vertex>)
    requires NonDegenerate(r)
    ensures |tri| == 3
    ensures forall j :: 0 <= j < 3 ==> tri[j].uv == LocalTriangle(r)[j].uv && tri[j].xyz.z == 0.0
  {
    var halfW := 0.5 * r.size.x;
    var halfH := 0.5 * r.size.y;
    var s := tr.sin(r.orientationRadians);
    var c := tr.cos(r.orientationRadians);
    var local := LocalTriangle(r);
    seq(3, j requires 0 <= j < 3 => Place(local[j], halfW, halfH, s, c, r.center))
  }

  /** The rectangles' triangles one after the other (map, flatten, collect). */
  function Vertices(tr: Trig, rects: seq<Rect>): (verts: seq<Vertex>)
    requires forall r :: r in rects ==> NonDegenerate(r)
    ensures |verts| == 3 * |rects|
  {
    if rects == [] then [] else MkVertices(tr, rects[0]) + Vertices(tr, rects[1..])
  }

  /** encode_geometry: the vertex list and the index list 0, 1, ..., 3n - 1,
      which must fit in u32. */
  function EncodeGeometry(tr: Trig, rects: seq<Rect>): (g: (seq<Vertex>, seq<u32>))
    requires forall r :: r in rects ==> NonDegenerate(r)
    requires 3 * |rects| <= U32Max
    ensures |g.0| == 3 * |rects| && |g.1| == |g.0|
    ensures forall k :: 0 <= k < |g.1| ==> g.1[k] as int == k
  {
    (Vertices(tr, rects), seq(3 * |rects|, k requires 0 <= k < 3 * |rects| => k as u32))
  }

  /** Triangle k of the vertex list is rectangle k's, so every triangle is
      self-contained and in rectangle order. */
  lemma {:induction false} VerticesInRectangleOrder(tr: Trig, rects: seq<Rect>, k: nat)
    requires forall r :: r in rects ==> NonDegenerate(r)
    requires k < |rects|
    ensures Vertices(tr, rects)[3 * k .. 3 * k + 3] == MkVertices(tr, rects[k])
  {
    var rest := rects[1..];
    assert forall r :: r in rest ==> r in rects;
    if k > 0 {
      VerticesInRectangleOrder(tr, rest, k - 1);
      assert Vertices(tr, rects)[3 * k .. 3 * k + 3] == Vertices(tr, rest)[3 * (k - 1) .. 3 * (k - 1) + 3];
    }
  }

  /** The encoded geometry holds rectangle k's triangle at vertices 3k,
      3k+1, 3k+2, and those are exactly the indices 3k, 3k+1, 3k+2. */
  lemma EncodedTriangle(tr: Trig, rects: seq<Rect>, k: nat)
    requires forall r :: r in rects ==> NonDegenerate(r)
    requires 3 * |rects| <= U32Max
    requires k < |rects|
    ensures var g := EncodeGeometry(tr, rects);
      g.0[3 * k .. 3 * k + 3] == MkVertices(tr, rects[k])
      && g.1[3 * k .. 3 * k + 3] == [(3 * k) as u32, (3 * k + 1) as u32, (3 * k + 2) as u32]
  {
    VerticesInRectangleOrder(tr, rects, k);
  }

  /** Every triangle of the encoded geometry is its rectangle's, in order. */
  lemma EncodedTriangles(tr: Trig, rects: seq<Rect>)
    requires forall r :: r in rects ==> NonDegenerate(r)
    requires 3 * |rects| <= U32Max
    ensures forall k :: 0 <= k < |rects| ==>
      EncodeGeometry(tr, rects).0[3 * k .. 3 * k + 3] == MkVertices(tr, rects[k])
  {
    forall k | 0 <= k < |rects|
      ensures EncodeGeometry(tr, rects).0[3 * k .. 3 * k + 3] == MkVertices(tr, rects[k])
    {
      VerticesInRectangleOrder(tr, rects, k);
    }
  }

  /** Bytes per vertex: three f32 positions and two f32 uv, laid out as C. */
  const VertexBytes: int := 20

  /** The painter uploads into fixed 6000-byte vertex and index buffers;
      the rectangle-count slider stops at 100, which fills the vertex
      buffer exactly, and one rectangle more would overflow it. */
  lemma GeometryFitsScratchBuffers(tr: Trig, rects: seq<Rect>)
    requires forall r :: r in rects ==> NonDegenerate(r)
    requires 3 * |rects| <= U32Max
    ensures var g := EncodeGeometry(tr, rects);
      && (|rects| <= 100 ==> VertexBytes * |g.0| <= 6000 && 4 * |g.1| <= 6000)
      && (|rects| > 100 ==> VertexBytes * |g.0| > 6000)
  {
  }

  function XY(v: Vertex): Vec2
  {
    Vec2(v.xyz.x, v.xyz.y)
  }

  /** The point of a triangle's plane at which the interpolated uv is
      (u, v). The triangle's uv field is affine and, as in `LocalTriangle`,
      B differs from A only in u and C only in v, so the point is
      A + (u - uA)/(uB - uA) (B - A) + (v - vA)/(vC - vA) (C - A). */
  function UvPoint(tri: seq<Vertex>, u: real, v: real): Vec2
    requires |tri| == 3
    requires tri[1].uv.y == tri[0].uv.y && tri[2].uv.x == tri[0].uv.x
    requires tri[1].uv.x != tri[0].uv.x && tri[2].uv.y != tri[0].uv.y
  {
    var a := XY(tri[0]);
    var beta := (u - tri[0].uv.x) / (tri[1].uv.x - tri[0].uv.x);
    var gamma := (v - tri[0].uv.y) / (tri[2].uv.y - tri[0].uv.y);
    Add(a, Add(Scale(beta, Sub(XY(tri[1]), a)), Scale(gamma, Sub(XY(tri[2]), a))))
  }

  /** For a square rectangle (all rectangles `MakeRects` produces are), the
      uv coordinate (u, v) sits at the centre plus (u * halfW, v * halfH)
      rotated by the rectangle's angle: the uv square [-0.5, 0.5]^2 the
      fragment stage draws is a square of side halfW, turned by the
      rectangle's rotation and centred on the rectangle's centre. */
  lemma UvFrame(tr: Trig, r: Rect, u: real, v: real)
    requires NonDegenerate(r) && r.size.x == r.size.y
    ensures var tri := MkVertices(tr, r);
      && tri[1].uv.y == tri[0].uv.y && tri[2].uv.x == tri[0].uv.x
      && tri[1].uv.x - tri[0].uv.x == 2.0 && tri[2].uv.y - tri[0].uv.y == 2.0
      && UvPoint(tri, u, v)
         == Add(r.center, Rotate(Vec2(u * (0.5 * r.size.x), v * (0.5 * r.size.y)),
                                 tr.sin(r.orientationRadians), tr.cos(r.orientationRadians)))
  {
    var h := 0.5 * r.size.x;
    var s, c := tr.sin(r.orientationRadians), tr.cos(r.orientationRadians);
    var tri := MkVertices(tr, r);
    SquareTriangle(tr, r);
    var pa, pb, pc := XY(tri[0]), XY(tri[1]), XY(tri[2]);
    assert UvPoint(tri, u, v)
        == Add(pa, Add(Scale((u + 0.5) / 2.0, Sub(pb, pa)), Scale((v + 0.5) / 2.0, Sub(pc, pa))));
    InterpolateSquare(r.center, h, s, c, u, v);
  }

  /** The placed triangle of a square rectangle of half side h: corners at
      the centre plus the rotations of (-h/2, -h/2), (3h/2, -h/2) and
      (-h/2, 3h/2), with uv (-0.5, -0.5), (1.5, -0.5) and (-0.5, 1.5). */
  lemma SquareTriangle(tr: Trig, r: Rect)
    requires NonDegenerate(r) && r.size.x == r.size.y
    ensures var h := 0.5 * r.size.x;
      var s, c := tr.sin(r.orientationRadians), tr.cos(r.orientationRadians);
      var tri := MkVertices(tr, r);
      && tri[0].uv == Vec2(-0.5, -0.5) && tri[1].uv == Vec2(1.5, -0.5) && tri[2].uv == Vec2(-0.5, 1.5)
      && XY(tri[0]) == Add(Rotate(Vec2(-0.5 * h, -0.5 * h), s, c), r.center)
      && XY(tri[1]) == Add(Rotate(Vec2(1.5 * h, -0.5 * h), s, c), r.center)
      && XY(tri[2]) == Add(Rotate(Vec2(-0.5 * h, 1.5 * h), s, c), r.center)
  {
    var h := 0.5 * r.size.x;
    assert (h + h) / h == 2.0;
  }

  /** Interpolating the placed corners of `SquareTriangle` at weights
      ((u + 0.5)/2, (v + 0.5)/2) gives the centre plus the rotation of
      (u h, v h). */
  lemma InterpolateSquare(center: Vec2, h: real, s: real, c: real, u: real, v: real)
    ensures var pa := Add(Rotate(Vec2(-0.5 * h, -0.5 * h), s, c), center);
      var pb := Add(Rotate(Vec2(1.5 * h, -0.5 * h), s, c), center);
      var pc := Add(Rotate(Vec2(-0.5 * h, 1.5 * h), s, c), center);
      Add(pa, Add(Scale((u + 0.5) / 2.0, Sub(pb, pa)), Scale((v + 0.5) / 2.0, Sub(pc, pa))))
        == Add(center, Rotate(Vec2(u * h, v * h), s, c))
  {
    var pa := Add(Rotate(Vec2(-0.5 * h, -0.5 * h), s, c), center);
    var pb := Add(Rotate(Vec2(1.5 * h, -0.5 * h), s, c), center);
    var pc := Add(Rotate(Vec2(-0.5 * h, 1.5 * h), s, c), center);
    var ab, ac := Sub(pb, pa), Sub(pc, pa);
    assert ab.x == 2.0 * h * c && ab.y == 2.0 * h * s;
    assert ac.x == -2.0 * h * s && ac.y == 2.0 * h * c;
    var beta, gamma := (u + 0.5) / 2.0, (v + 0.5) / 2.0;
    assert beta * ab.x == (u + 0.5) * h * c;
    assert beta * ab.y == (u + 0.5) * h * s;
    assert gamma * ac.x == -((v + 0.5) * h * s);
    assert gamma * ac.y == (v + 0.5) * h * c;
  }

  /** The uv origin of each encoded triangle is its rectangle's centre. */
  lemma UvCentreIsRectCentre(tr: Trig, r: Rect)
    requires NonDegenerate(r) && r.size.x == r.size.y
    ensures var tri := MkVertices(tr, r);
      && tri[1].uv.y == tri[0].uv.y && tri[2].uv.x == tri[0].uv.x
      && tri[1].uv.x != tri[0].uv.x && tri[2].uv.y != tri[0].uv.y
      && UvPoint(tri, 0.0, 0.0) == r.center
  {
    UvFrame(tr, r, 0.0, 0.0);
  }

  /** With no rotation (sin 0 = 0, cos 0 = 1), placing a vertex only
      translates it, by the recentering shift plus the centre. */
  lemma ZeroRotationTranslates(tr: Trig, r: Rect)
    requires NonDegenerate(r) && r.orientationRadians == 0.0 && ZeroAngle(tr)
    ensures forall j :: 0 <= j < 3 ==>
      MkVertices(tr, r)[j].xyz == Vec3(LocalTriangle(r)[j].xyz.x + 0.25 * r.size.x + r.center.x,
                                       LocalTriangle(r)[j].xyz.y + 0.25 * r.size.y + r.center.y,
                                       0.0)
  {
  }

  /** When sin^2 + cos^2 = 1 at the rectangle's angle, placement is a rigid
      motion: the emitted triangle keeps its right angle at A and its legs
      of length 2 * halfH (along AB) and 2 * halfW (along AC). */
  lemma PlacedTriangleIsRight(tr: Trig, r: Rect)
    requires NonDegenerate(r) && Pythagorean(tr, r.orientationRadians)
    ensures var tri := MkVertices(tr, r);
      var ab := Sub(XY(tri[1]), XY(tri[0]));
      var ac := Sub(XY(tri[2]), XY(tri[0]));
      && Dot(ab, ac) == 0.0
      && Dot(ab, ab) == r.size.y * r.size.y
      && Dot(ac, ac) == r.size.x * r.size.x
  {
    var hw, hh := 0.5 * r.size.x, 0.5 * r.size.y;
    var s, c := tr.sin(r.orientationRadians), tr.cos(r.orientationRadians);
    var tri := MkVertices(tr, r);
    var a := Vec2(-0.5 * hw, -0.5 * hh);
    var b := Vec2(2.0 * hh - 0.5 * hw, -0.5 * hh);
    var cc := Vec2(-0.5 * hw, 2.0 * hw - 0.5 * hh);
    assert XY(tri[0]) == Add(Rotate(a, s, c), r.center);
    assert XY(tri[1]) == Add(Rotate(b, s, c), r.center);
    assert XY(tri[2]) == Add(Rotate(cc, s, c), r.center);
    var ab := Sub(XY(tri[1]), XY(tri[0]));
    var ac := Sub(XY(tri[2]), XY(tri[0]));
    assert ab == Sub(Rotate(b, s, c), Rotate(a, s, c));
    assert ac == Sub(Rotate(cc, s, c), Rotate(a, s, c));
    RotateSub(b, a, s, c);
    RotateSub(cc, a, s, c);
    assert Sub(b, a) == Vec2(2.0 * hh, 0.0);
    assert Sub(cc, a) == Vec2(0.0, 2.0 * hw);
    RotatePreservesDot(Sub(b, a), Sub(cc, a), s, c);
    RotatePreservesDot(Sub(b, a), Sub(b, a), s, c);
    RotatePreservesDot(Sub(cc, a), Sub(cc, a), s, c);
  }

  /** Frame pipeline: with a positive scale, the rectangles `MakeRects`
      lays out can all be encoded, and the uv origin of triangle k of the
      encoded geometry is rectangle k's centre. */
  lemma EncodedCentres(tr: Trig, timeSeconds: real, scale: real, steps: u32,
                       x0: real, x1: real, y0: real, y1: real, k: nat)
    requires steps as int < U32Max && 3 * (steps as int) <= U32Max
    requires scale > 0.0
    requires k < steps as int
    ensures var rects := MakeRects(tr, timeSeconds, scale, steps, x0, x1, y0, y1);
      && (forall r :: r in rects ==> NonDegenerate(r))
      && var tri := EncodeGeometry(tr, rects).0[3 * k .. 3 * k + 3];
         && tri[1].uv.y == tri[0].uv.y && tri[2].uv.x == tri[0].uv.x
         && tri[1].uv.x != tri[0].uv.x && tri[2].uv.y != tri[0].uv.y
         && UvPoint(tri, 0.0, 0.0) == rects[k].center
  {
    var rects := MakeRects(tr, timeSeconds, scale, steps, x0, x1, y0, y1);
    SizesPositive(tr, timeSeconds, scale, steps, x0, x1, y0, y1);
    EncodedTriangle(tr, rects, k);
    UvCentreIsRectCentre(tr, rects[k]);
  }

  // ---------------------------------------------------------------------
  // Arithmetic helpers

  lemma MulNonneg(a: real, b: real)
    requires a >= 0.0 && b >= 0.0
    ensures a * b >= 0.0
  {
  }

  lemma MulStrict(a: real, b: real)
    requires a > 0.0 && b > 0.0
    ensures a * b > 0.0
  {
  }

  lemma MulLeftMono(k: real, a: real, b: real)
    requires k >= 0.0 && a <= b
    ensures k * a <= k * b
  {
    MulNonneg(k, b - a);
    assert k * b - k * a == k * (b - a);
  }

  lemma StrictlyBetween(x0: real, x1: real, dx: real, n: real, k: real)
    requires dx > 0.0 && dx * n == x1 - x0 && 0.0 < k < n
    ensures x0 < x0 + dx * k < x1
  {
    var m := n - k;
    MulStrict(dx, k);
    MulStrict(dx, m);
    assert dx * n == dx * k + dx * m;
  }

  lemma MulStep(d: real, k: real)
    ensures d * (k + 1.0) == d * k + d
  {
  }

  lemma PositiveQuotient(num: real, den: real, q: real)
    requires num > 0.0 && den > 0.0 && q * den == num
    ensures q > 0.0
  {
  }
}
