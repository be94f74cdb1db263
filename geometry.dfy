/** Value types shared by both copies of the wavy-rectangle generator and
    encoder, and the plane rotation the encoder applies to every vertex.
    Every f32 of the source is a real here; sine and cosine are supplied by
    the caller as a `Trig` value, because the platform's implementation is
    not part of this model. */
module Geometry {

  /** std::f32::consts::PI, taken as a real. */
  const Pi: real := 3.14159265358979323846

  /** Rust's u32. */
  newtype u32 = x: int | 0 <= x < 0x1_0000_0000

  const U32Max: int := 0xFFFF_FFFF

  datatype Vec2 = Vec2(x: real, y: real)

  datatype Vec3 = Vec3(x: real, y: real, z: real)

  /** An oriented rectangle: centre, full width and height, rotation angle. */
  datatype Rect = Rect(center: Vec2, size: Vec2, orientationRadians: real)

  /** One vertex of the geometry buffer: a position and a texture coordinate. */
  datatype Vertex = Vertex(xyz: Vec3, uv: Vec2)

  /** The sine and cosine the program calls (f32::cos, f32::sin_cos). */
  datatype Trig = Trig(sin: real -> real, cos: real -> real)

  /** Cosine never leaves [-1, 1]. */
  ghost predicate CosBounded(tr: Trig)
  {
    forall a :: -1.0 <= tr.cos(a) <= 1.0
  }

  /** sin 0 = 0 and cos 0 = 1. */
  predicate ZeroAngle(tr: Trig)
  {
    tr.sin(0.0) == 0.0 && tr.cos(0.0) == 1.0
  }

  /** sin^2 a + cos^2 a = 1 at the angle a. */
  predicate Pythagorean(tr: Trig, a: real)
  {
    tr.sin(a) * tr.sin(a) + tr.cos(a) * tr.cos(a) == 1.0
  }

  /** f32::max on values that are not NaN. */
  function Max(a: real, b: real): (m: real)
    ensures m >= a && m >= b
    ensures m == a || m == b
  {
    if a >= b then a else b
  }

  function Add(p: Vec2, q: Vec2): Vec2
  {
    Vec2(p.x + q.x, p.y + q.y)
  }

  function Sub(p: Vec2, q: Vec2): Vec2
  {
    Vec2(p.x - q.x, p.y - q.y)
  }

  function Scale(k: real, p: Vec2): Vec2
  {
    Vec2(k * p.x, k * p.y)
  }

  function Dot(p: Vec2, q: Vec2): real
  {
    p.x * q.x + p.y * q.y
  }

  /** The rotation about the origin whose sine is s and cosine is c. */
  function Rotate(p: Vec2, s: real, c: real): (q: Vec2)
    ensures s * s + c * c == 1.0 ==> Dot(q, q) == Dot(p, p)
    ensures s == 0.0 && c == 1.0 ==> q == p
  {
    Vec2(p.x * c - p.y * s, p.x * s + p.y * c)
  }

  /** Rotation commutes with differences. */
  lemma RotateSub(p: Vec2, q: Vec2, s: real, c: real)
    ensures Sub(Rotate(p, s, c), Rotate(q, s, c)) == Rotate(Sub(p, q), s, c)
  {
    assert (p.x - q.x) * c == p.x * c - q.x * c;
    assert (p.y - q.y) * s == p.y * s - q.y * s;
    assert (p.x - q.x) * s == p.x * s - q.x * s;
    assert (p.y - q.y) * c == p.y * c - q.y * c;
  }

  /** A rotation (s^2 + c^2 = 1) preserves dot products, hence lengths and
      right angles. */
  lemma RotatePreservesDot(p: Vec2, q: Vec2, s: real, c: real)
    requires s * s + c * c == 1.0
    ensures Dot(Rotate(p, s, c), Rotate(q, s, c)) == Dot(p, q)
  {
    var rp, rq := Rotate(p, s, c), Rotate(q, s, c);
    calc {
      Dot(rp, rq);
      (p.x * c - p.y * s) * (q.x * c - q.y * s) + (p.x * s + p.y * c) * (q.x * s + q.y * c);
      { assert (p.x * c - p.y * s) * (q.x * c - q.y * s)
            == p.x * q.x * (c * c) - p.x * q.y * (c * s) - p.y * q.x * (s * c) + p.y * q.y * (s * s);
        assert (p.x * s + p.y * c) * (q.x * s + q.y * c)
            == p.x * q.x * (s * s) + p.x * q.y * (s * c) + p.y * q.x * (c * s) + p.y * q.y * (c * c); }
      p.x * q.x * (s * s + c * c) + p.y * q.y * (s * s + c * c);
      p.x * q.x + p.y * q.y;
    }
  }
}
