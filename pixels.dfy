/**
 * The RGBA pixel buffer of build_addon.py: a flat byte buffer, four
 * bytes per pixel, rows of `w` pixels one after the other (`blank`,
 * `solid`'s buffer, `setpx`), and the drawing of a list of strokes as
 * successive `setpx` calls.
 */
module Pixels {
  import opened Bytes

  datatype Rgba = Rgba(r: byte, g: byte, b: byte, a: byte)

  /** `bytes(c)`: the four bytes of one pixel. */
  function PixelBytes(c: Rgba): seq<byte>
  {
    [c.r, c.g, c.b, c.a]
  }

  /** The four bytes of the `p`-th pixel of a buffer. */
  function Quad(s: seq<byte>, p: nat): seq<byte>
    requires 4 * p + 4 <= |s|
  {
    s[4 * p..4 * p + 4]
  }

  /** `bytearray(list(c) * n)`: `n` copies of the pixel `c`. */
  function Repeat(c: Rgba, n: nat): (s: seq<byte>)
    ensures |s| == 4 * n
    ensures forall p: nat :: p < n ==> Quad(s, p) == PixelBytes(c)
    ensures forall i :: 0 <= i < |s| ==> s[i] == PixelBytes(c)[i % 4]
  {
    if n == 0 then []
    else
      var prev := Repeat(c, n - 1);
      var s := prev + PixelBytes(c);
      assert forall p: nat :: p < n - 1 ==> Quad(s, p) == Quad(prev, p);
      assert Quad(s, n - 1) == PixelBytes(c);
      assert forall i :: 4 * (n - 1) <= i < 4 * n ==> i % 4 == i - 4 * (n - 1);
      s
  }

  /** `blank(w, h)`: a transparent black buffer of `w * h` pixels. */
  function Blank(w: nat, h: nat): (b: seq<byte>)
    ensures |b| == 4 * w * h
    ensures forall i :: 0 <= i < |b| ==> b[i] == 0
  {
    Repeat(Rgba(0, 0, 0, 0), w * h)
  }

  /** The guard of `setpx`: `x` within the row, `y` within the rows the buffer holds. */
  predicate InBounds(len: int, w: int, x: int, y: int)
  {
    0 <= x < w && 0 <= y < len / (w * 4)
  }

  /** The offset of the first byte of pixel `(x, y)`. */
  function Offset(w: int, x: int, y: int): int
  {
    (y * w + x) * 4
  }

  /** An addressed pixel lies wholly inside the buffer. */
  lemma InBoundsFits(len: int, w: int, x: int, y: int)
    requires InBounds(len, w, x, y)
    ensures 0 <= Offset(w, x, y) && Offset(w, x, y) + 4 <= len
  {
    var d := w * 4;
    var rows := len / d;
    DivFloor(len, d);
    MulMonotone(y + 1, rows, d);
    MulSucc(y, w);
    MulNonNegative(y, w);
    assert (y + 1) * d == (y + 1) * w * 4;
  }

  lemma DivFloor(n: int, d: int)
    requires 0 < d
    ensures (n / d) * d <= n
  {
  }

  lemma MulSucc(a: int, k: int)
    ensures (a + 1) * k == a * k + k
  {
  }

  lemma MulNonNegative(a: int, k: int)
    requires 0 <= a && 0 <= k
    ensures 0 <= a * k
  {
  }

  lemma MulMonotone(a: int, b: int, k: int)
    requires a <= b && 0 <= k
    ensures a * k <= b * k
  {
  }

  /** The four bytes of pixel `(x, y)`. */
  function PixelAt(s: seq<byte>, w: int, x: int, y: int): seq<byte>
    requires InBounds(|s|, w, x, y)
  {
    InBoundsFits(|s|, w, x, y);
    s[Offset(w, x, y)..Offset(w, x, y) + 4]
  }

  /** Two different pixels of a row-major buffer never share a byte. */
  lemma OffsetsApart(w: int, x: int, y: int, x': int, y': int)
    requires 0 <= x < w && 0 <= x' < w && 0 <= y && 0 <= y'
    requires (x, y) != (x', y')
    ensures Offset(w, x, y) + 4 <= Offset(w, x', y') || Offset(w, x', y') + 4 <= Offset(w, x, y)
  {
    if y < y' {
      MulMonotone(y + 1, y', w);
      MulSucc(y, w);
      assert y * w + x < y' * w + x';
    } else if y' < y {
      MulMonotone(y' + 1, y, w);
      MulSucc(y', w);
      assert y' * w + x' < y * w + x;
    }
  }

  /**
   * `setpx` on the buffer's contents: an in-bounds pixel gets the four
   * bytes of `c`, every other byte keeps its value, and an out-of-bounds
   * request leaves the buffer as it was. The length never changes.
   */
  function WithPixel(s: seq<byte>, w: int, x: int, y: int, c: Rgba): (t: seq<byte>)
    ensures |t| == |s|
    ensures InBounds(|s|, w, x, y) ==>
      && PixelAt(t, w, x, y) == PixelBytes(c)
      && forall k :: 0 <= k < |s| && !(Offset(w, x, y) <= k < Offset(w, x, y) + 4) ==> t[k] == s[k]
    ensures !InBounds(|s|, w, x, y) ==> t == s
  {
    if InBounds(|s|, w, x, y) then
      InBoundsFits(|s|, w, x, y);
      var i := Offset(w, x, y);
      s[..i] + PixelBytes(c) + s[i + 4..]
    else s
  }

  /** `setpx`: writes pixel `(x, y)` of a `w`-pixel-wide buffer in place when it lies inside. */
  method SetPx(buf: array<byte>, w: int, x: int, y: int, c: Rgba)
    modifies buf
    ensures buf[..] == WithPixel(old(buf[..]), w, x, y, c)
  {
    if 0 <= x < w && 0 <= y < buf.Length / (w * 4) {
      InBoundsFits(buf.Length, w, x, y);
      var i := (y * w + x) * 4;
      buf[i], buf[i + 1], buf[i + 2], buf[i + 3] := c.r, c.g, c.b, c.a;
      assert buf[..] == old(buf[..])[..i] + PixelBytes(c) + old(buf[..])[i + 4..];
    }
  }

  /** One `setpx` request of a drawing. */
  datatype Stroke = Stroke(x: int, y: int, c: Rgba)

  /** The buffer after the strokes have been applied in order. */
  function Paint(s: seq<byte>, w: int, ops: seq<Stroke>): (t: seq<byte>)
    ensures |t| == |s|
  {
    if ops == [] then s
    else
      var op := ops[|ops| - 1];
      WithPixel(Paint(s, w, ops[..|ops| - 1]), w, op.x, op.y, op.c)
  }

  lemma PaintSnoc(s: seq<byte>, w: int, ops: seq<Stroke>, op: Stroke)
    ensures Paint(s, w, ops + [op]) == WithPixel(Paint(s, w, ops), w, op.x, op.y, op.c)
  {
    assert (ops + [op])[..|ops|] == ops;
  }

  /** Drawing two stroke lists one after the other is drawing their concatenation. */
  lemma {:induction false} PaintAppend(s: seq<byte>, w: int, a: seq<Stroke>, b: seq<Stroke>)
    ensures Paint(s, w, a + b) == Paint(Paint(s, w, a), w, b)
  {
    if b == [] {
      assert a + b == a;
    } else {
      var init := b[..|b| - 1];
      var op := b[|b| - 1];
      PaintAppend(s, w, a, init);
      assert a + b == (a + init) + [op];
      PaintSnoc(s, w, a + init, op);
      PaintSnoc(Paint(s, w, a), w, init, op);
      assert b == init + [op];
    }
  }

  /** The colour of pixel `(x, y)` after the strokes: that of the last in-bounds stroke there, else `orig`. */
  function LastColour(len: int, w: int, ops: seq<Stroke>, x: int, y: int, orig: seq<byte>): seq<byte>
  {
    if ops == [] then orig
    else
      var op := ops[|ops| - 1];
      if op.x == x && op.y == y && InBounds(len, w, x, y) then PixelBytes(op.c)
      else LastColour(len, w, ops[..|ops| - 1], x, y, orig)
  }

  /**
   * Every in-bounds `setpx` takes effect and nothing else touches a
   * pixel: after drawing, each pixel holds the colour of the last stroke
   * aimed at it, or its original bytes if none was.
   */
  lemma {:induction false} PaintPixel(s: seq<byte>, w: int, ops: seq<Stroke>, x: int, y: int)
    requires InBounds(|s|, w, x, y)
    ensures PixelAt(Paint(s, w, ops), w, x, y) == LastColour(|s|, w, ops, x, y, PixelAt(s, w, x, y))
  {
    InBoundsFits(|s|, w, x, y);
    if ops != [] {
      var init := ops[..|ops| - 1];
      var op := ops[|ops| - 1];
      PaintPixel(s, w, init, x, y);
      var before := Paint(s, w, init);
      var after := Paint(s, w, ops);
      var i := Offset(w, x, y);
      if op.x == x && op.y == y {
      } else if InBounds(|s|, w, op.x, op.y) {
        OffsetsApart(w, x, y, op.x, op.y);
        assert after[i..i + 4] == before[i..i + 4];
      }
    }
  }
}
