# Wavy rectangles and the play/pause clock, in Dafny

This project models the two pieces of self-contained logic in a desktop demo
application built on egui and wgpu.

1. **The wavy-rectangle geometry.** `make_rects` lays out `steps` square,
   rotated rectangles across a bounding box. The columns are evenly spaced,
   each centre's height follows a travelling cosine wave with a period of
   7 seconds, and the rotation is `+2πt/7` for odd indices and `-2πt/7` for
   even ones. `encode_geometry` turns each rectangle into one right triangle
   (three vertices with uv coordinates) and places it: a recentering shift,
   a rotation, then a translation to the centre. It also produces the index
   list `0, 1, …, 3n-1`.
   - The wavy-rectangle widget (`src/widgets/wavy_rects/ui.rs`) takes the
     scale as a parameter; its caller passes 5.0. This copy is module
     `WavyRects`.
   - The first widget (`src/myshader.rs`) is the same code with the scale
     fixed at 3.0. It is module `MyShader`, defined as that instance of
     `WavyRects`, and its contracts are stated for scale 3.0.
   - The shared value types are in module `Geometry`: `Rect`, `Vertex`,
     `Vec2`, `Vec3`, the `u32` newtype and the plane rotation.
2. **The play/pause clock** (`src/widgets/player.rs`, module `Player`).
   - `PlayerState` is a datatype of two fields. `Progress` is the progress
     in seconds at a given time.
   - `Toggled` is the state after a click on the play/pause button.
   - Class `Controller` models `Controller::ui`, which writes the reported
     progress and the toggled state through its mutable borrows.

The main properties proved:
- **Layout.** `make_rects` returns exactly `steps` rectangles. Every one is
  a square of side `scale·max(dx, 0.1)`. Neighbouring rotations are
  opposite. The centres are strictly increasing, exactly `dx` apart and
  strictly inside `(x0, x1)`. Each centre's height lies in `[y0, y1]`.
- **Encoding.** `encode_geometry` emits `3n` vertices in rectangle order and
  the identity index list. Each triangle keeps the uv constants and a
  z coordinate of 0.
- **Placement.** Placing a triangle is a rigid motion that keeps its right
  angle and leg lengths. With no rotation it is a translation.
- **The uv field.** The point whose uv is `(u, v)` is the rectangle's centre
  plus `(u·halfW, v·halfH)` rotated by the rectangle's angle. So the uv
  origin of every encoded triangle is its rectangle's centre.
- **The clock.** Toggling at time `t` does not change the progress reported
  at `t`, in either direction. After the click the clock carries on from
  that value. Two toggles at the same instant restore the progress at every
  time.

Numbers and trigonometry are modelled as follows:
- Every `f32`/`f64` is a `real`.
- `sin` and `cos` are the two fields of a `Trig` value passed in by the
  caller. A lemma that needs a property of them takes it as a precondition:
  cosine in `[-1, 1]` (`CosBounded`), `sin 0 = 0` and `cos 0 = 1`
  (`ZeroAngle`), or `sin² + cos² = 1` at the angle in question
  (`Pythagorean`).

Facts about the code that a reader might not expect:
- The columns are not centred in the box. Column `i` is centred at
  `x0 + dx·(i + 0.5)` with `dx = (x1 - x0)/(steps + 1)`, which leaves `dx/2`
  on the left and `3dx/2` on the right. One rectangle in `[-0.9, 0.9]` at
  time 0 with scale 3 sits at `(-0.45, 0.9)` (`SingleRectAtTimeZero`).
- A `Rect`'s `size` is the full width and height. The encoder halves it.
- The encoder's comment (src/widgets/wavy_rects/ui.rs:239-240) says the
  centre is at uv `[0, 0]` and that the rectangle's `[w, h]` is `[1, 1]` in
  uv. The first half holds: the uv origin lands on the rectangle's centre
  (`UvCentreIsRectCentre`). The second half does not. For the square
  rectangles the generator produces, the uv square `[-0.5, 0.5]²` covers a
  square of side `halfW`, which is half of `size` (`UvFrame`).

## Model

| member | source | states |
|---|---|---|
| `Geometry.RotatePreservesDot` | src/widgets/wavy_rects/ui.rs:263-264 | the rotation the encoder applies preserves dot products (so lengths and right angles) whenever sin² + cos² = 1 |
| `Geometry.Max` | src/widgets/wavy_rects/ui.rs:207 | f32::max on non-NaN values: the result is at least both arguments and is one of them |
| `Geometry.Rotate` | src/widgets/wavy_rects/ui.rs:263-264 | the vertex rotation keeps lengths when sin² + cos² = 1, and is the identity for sin = 0, cos = 1 |
| `WavyRects.Spacing` | src/widgets/wavy_rects/ui.rs:205 | the column spacing dx times steps + 1 is the box width; `steps + 1` must not overflow u32 |
| `WavyRects.MakeRects` | src/widgets/wavy_rects/ui.rs:195-225 | exactly `steps` rectangles (none when steps = 0); each has width = height = scale·max(dx, 0.1), rotation +2πt/7 for odd and -2πt/7 for even indices, centre x = x0 + dx(i + 0.5) and centre y on the cosine wave with phase 2πi/(steps+1) + 2πt/7 |
| `WavyRects.SizesPositive` | src/widgets/wavy_rects/ui.rs:205-216 | with scale > 0 every rectangle is a square of side at least 0.1·scale > 0, so the encoder's divisions by the half sizes are defined |
| `WavyRects.RotationsAlternate` | src/widgets/wavy_rects/ui.rs:210-217 | neighbouring rectangles have opposite rotations, so the product of neighbouring rotations is never positive |
| `WavyRects.CentersInsideColumns` | src/widgets/wavy_rects/ui.rs:205-213 | when x1 > x0: dx > 0, centres are strictly inside (x0, x1), and each is exactly dx to the right of the previous one |
| `WavyRects.CentersInsideRows` | src/widgets/wavy_rects/ui.rs:206-214 | when y1 ≥ y0 and cosine stays in [-1, 1], every centre's height lies in [y0, y1] |
| `WavyRects.SingleRectAtTimeZero` | src/widgets/wavy_rects/ui.rs:205-222 | one rectangle at time 0, scale 3, box [-0.9, 0.9]²: a 2.7 × 2.7 square centred at (-0.45, 0.9) with rotation 0 |
| `WavyRects.LocalTriangle` | src/widgets/wavy_rects/ui.rs:229-257 | corner A is at (-halfW, -halfH, 0) with uv (-0.5, -0.5); B shares A's row and v, sits at x = 2·halfH - halfW and has u = -0.5 + (halfW + halfH)/halfH; C shares A's column and u, sits at y = 2·halfW - halfH and has v = -0.5 + (halfW + halfH)/halfW; z is 0 at all three |
| `WavyRects.Place` | src/widgets/wavy_rects/ui.rs:258-268 | placing a vertex leaves its uv and its z coordinate unchanged |
| `WavyRects.MkVertices` | src/widgets/wavy_rects/ui.rs:229-269 | three vertices per rectangle, carrying the local triangle's uv in order, all with z = 0 |
| `WavyRects.Vertices` | src/widgets/wavy_rects/ui.rs:271-275 | mapping and flattening n rectangles gives 3n vertices |
| `WavyRects.EncodeGeometry` | src/widgets/wavy_rects/ui.rs:227-278 | 3n vertices and as many indices, the indices being exactly 0, 1, …, 3n-1; 3n must fit in u32 |
| `WavyRects.VerticesInRectangleOrder` | src/widgets/wavy_rects/ui.rs:271-275 | vertices 3k, 3k+1, 3k+2 are rectangle k's triangle, so triangles come in rectangle order |
| `WavyRects.EncodedTriangle` | src/widgets/wavy_rects/ui.rs:271-277 | rectangle k's triangle sits at vertices 3k..3k+2, and indices 3k..3k+2 point at exactly those, so no vertex is shared between rectangles |
| `WavyRects.EncodedTriangles` | src/widgets/wavy_rects/ui.rs:271-277 | every triangle of the encoded vertex list is its own rectangle's, in order |
| `WavyRects.GeometryFitsScratchBuffers` | src/widgets/wavy_rects/painter.rs:167-178 | up to 100 rectangles (the slider's maximum) fit in the 6000-byte vertex and index buffers; 101 would not fit in the vertex buffer |
| `WavyRects.UvFrame` | src/widgets/wavy_rects/ui.rs:238-268 | for a square rectangle the uv field is an affine frame: uv (u, v) sits at centre + rotate(u·halfW, v·halfH), so the drawn uv square is a square of side halfW, turned by the rectangle's angle and centred on its centre |
| `WavyRects.SquareTriangle` | src/widgets/wavy_rects/ui.rs:241-267 | for a square rectangle the placed corners are the centre plus the rotations of (-h/2, -h/2), (3h/2, -h/2), (-h/2, 3h/2), with uv (-0.5, -0.5), (1.5, -0.5), (-0.5, 1.5) |
| `WavyRects.UvCentreIsRectCentre` | src/widgets/wavy_rects/ui.rs:238-267 | the uv origin of a square rectangle's triangle maps back to the rectangle's centre |
| `WavyRects.ZeroRotationTranslates` | src/widgets/wavy_rects/ui.rs:258-267 | with angle 0 (sin 0 = 0, cos 0 = 1) placement is a pure translation by (halfW/2, halfH/2) plus the centre, and z stays 0 |
| `WavyRects.PlacedTriangleIsRight` | src/widgets/wavy_rects/ui.rs:241-267 | with sin² + cos² = 1 the emitted triangle has a right angle at A, leg AB of length 2·halfH and leg AC of length 2·halfW |
| `WavyRects.EncodedCentres` | src/widgets/wavy_rects/ui.rs:161-169 | for the generator's output with scale > 0, every rectangle can be encoded, and the uv origin of encoded triangle k is rectangle k's centre |
| `MyShader.MakeRects` | src/myshader.rs:120-141 | exactly `steps` rectangles, squares of side 3·max(dx, 0.1) ≥ 0.3, rotation +2πt/7 for odd and -2πt/7 for even indices, centre x = x0 + dx(i + 0.5) |
| `MyShader.CentresInsideBox` | src/myshader.rs:121-133 | in a box with x1 > x0 and y1 ≥ y0, with cosine in [-1, 1]: centres strictly inside (x0, x1), heights in [y0, y1], and neighbouring rotations opposite |
| `MyShader.EncodeGeometry` | src/myshader.rs:143-190 | 3n vertices, the identity index list 0 … 3n-1, and triangle k built from rectangle k as in the wavy-rectangle widget |
| `Player.PlayerState.Progress` | src/widgets/player.rs:15-25 | playing: progress is the time minus last_pause_time (0 if none); paused: progress is last_pause_time (0 if none); the consequences are `PausedProgressIsFrozen` and `PlayingProgressAdvances` |
| `Player.PlayerState.Toggled` | src/widgets/player.rs:73-74 | a click flips `is_playing`, always records a pause time, and leaves the progress reported at the click instant unchanged |
| `Player.InitialProgressIsZero` | src/widgets/player.rs:6-25 | the default state (not playing, no pause time) reports progress 0 at every time |
| `Player.PausedProgressIsFrozen` | src/widgets/player.rs:20-24 | when paused, progress equals the last pause time (0 if none) whatever the time |
| `Player.PlayingProgressAdvances` | src/widgets/player.rs:20-21 | when playing, progress advances one-for-one with the time |
| `Player.ToggleContinuesFromClick` | src/widgets/player.rs:15-25 | after a click at t the clock is frozen at the progress it showed at t (if it was playing) or advances from it (if it was paused) |
| `Player.DoubleToggle` | src/widgets/player.rs:73-74 | two clicks at the same instant restore `is_playing` and the progress at every time; a missing pause time becomes Some(0) |
| `Player.Controller.Ui` | src/widgets/player.rs:49-75 | the frame writes progress_seconds := progress at the current time before handling the click; a click replaces the state by its toggled state; the new state reports the same progress |
| `Player.Controller.constructor` | src/widgets/player.rs:34-39 | the controller starts on the borrowed state and progress value |

## Left out

- GPU plumbing is not modelled. This covers pipeline, bind-group, shader, texture and buffer creation, `set_geometry`'s `queue.write_buffer`, `paint`, `draw` and the painter registry in `callback_resources`. These are foreign wgpu calls.
- The raw byte casts `as_u8_slice` and `as_raw_bytes` are not modelled.
- The egui layout, sliders, colour pickers, image widgets, `Controller::size_hint` and the progress bar's `(secs / 10).fract()` fraction are not modelled. They are UI plumbing with no state of their own.
- The serde persistence of the application state is not modelled.
- Floating point is modelled as exact reals. IEEE rounding, NaN, infinities and the f64-to-f32 cast of `progress_seconds` are not captured, and nothing is claimed bit-exact.
- `sin`, `cos` and `sin_cos` are caller-supplied functions. Properties of them enter only as lemma preconditions.
- `WavyRects.MakeRects` and `MyShader.MakeRects` require `steps < u32::MAX`. For `steps = u32::MAX` the source's `steps + 1` overflows: it panics in a debug build and divides by zero in a release build. Neither outcome is modelled.
- `WavyRects.EncodeGeometry` and `MyShader.EncodeGeometry` require `3n ≤ u32::MAX`. Beyond that, `rects.len() as u32` truncates or `3 * …` overflows.
- `WavyRects.LocalTriangle`, `WavyRects.MkVertices` and the encoders require sizes other than zero. For a zero size the source computes an infinite or NaN uv.
- `WavyRects.UvFrame` and the lemmas built on it cover square rectangles only, which is what the generator produces. For a non-square rectangle the uv square covers a `2·halfH²/(halfW+halfH)` × `2·halfW²/(halfW+halfH)` region instead.
- `i as f32` is exact in the model. For indices above 2²⁴ the source loses precision.
- The commented-out width and height modulation terms are not current behaviour and are not modelled.
