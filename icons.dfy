/**
 * The item icons of build_addon.py: `draw_staff` and `draw_scroll` paint
 * a 16 x 16 buffer with loops of `setpx` calls and hand it to
 * `png_write`; `solid` encodes a one-colour image. Each drawing is
 * specified by the list of strokes its loops issue, in order.
 */
module Icons {
  import opened Optional
  import opened Bytes
  import opened Pixels
  import Png

  /** Width and height of an item icon. */
  const Size: nat := 16

  const Wood: Rgba := Rgba(92, 62, 35, 255)
  const Gold: Rgba := Rgba(196, 156, 74, 255)
  const Glint: Rgba := Rgba(255, 255, 255, 200)
  const Paper: Rgba := Rgba(224, 210, 172, 255)
  const Edge: Rgba := Rgba(161, 126, 74, 255)

  /** A scroll's colour: red, green and blue; the tint adds alpha 180. */
  datatype Rgb = Rgb(r: byte, g: byte, b: byte)

  function Tint(color: Rgb): Rgba
  {
    Rgba(color.r, color.g, color.b, 180)
  }

  /** `for x in range(x0, x1): setpx(x, y, c)`. */
  function Span(y: int, x0: int, x1: int, c: Rgba): (ops: seq<Stroke>)
    ensures |ops| == if x0 < x1 then x1 - x0 else 0
    ensures forall k :: 0 <= k < |ops| ==> ops[k] == Stroke(x0 + k, y, c)
  {
    seq(if x0 < x1 then x1 - x0 else 0, k => Stroke(x0 + k, y, c))
  }

  /** One more step of the `x` loop appends one stroke. */
  lemma SpanSnoc(y: int, x0: int, x1: int, c: Rgba)
    requires x0 < x1
    ensures Span(y, x0, x1, c) == Span(y, x0, x1 - 1, c) + [Stroke(x1 - 1, y, c)]
  {
  }

  lemma SpanWithin(y: int, x0: int, x1: int, c: Rgba)
    ensures forall op :: op in Span(y, x0, x1, c) ==> op.y == y && x0 <= op.x < x1 && op.c == c
  {
  }

  /** `for y in range(y0, y1): for x in range(x0, x1): setpx(x, y, c)`. */
  function Rect(x0: int, x1: int, y0: int, y1: int, c: Rgba): seq<Stroke>
    decreases y1 - y0
  {
    if y1 <= y0 then []
    else Rect(x0, x1, y0, y1 - 1, c) + Span(y1 - 1, x0, x1, c)
  }

  /** The rectangle loops paint exactly the pixels of the rectangle, in colour `c`. */
  lemma {:induction false} RectExact(x0: int, x1: int, y0: int, y1: int, c: Rgba, op: Stroke)
    ensures op in Rect(x0, x1, y0, y1, c) <==> x0 <= op.x < x1 && y0 <= op.y < y1 && op.c == c
    decreases y1 - y0
  {
    if y0 < y1 {
      RectExact(x0, x1, y0, y1 - 1, c, op);
      SpanWithin(y1 - 1, x0, x1, c);
      var row := Span(y1 - 1, x0, x1, c);
      assert op in Rect(x0, x1, y0, y1, c) <==> op in Rect(x0, x1, y0, y1 - 1, c) || op in row;
      if x0 <= op.x < x1 && op.y == y1 - 1 && op.c == c {
        assert row[op.x - x0] == op;
      }
    }
  }

  /** `for y in range(y0, y1): setpx(xa, y, c); setpx(xb, y, c)`. */
  function ColumnPair(xa: int, xb: int, y0: int, y1: int, c: Rgba): seq<Stroke>
    decreases y1 - y0
  {
    if y1 <= y0 then []
    else ColumnPair(xa, xb, y0, y1 - 1, c) + [Stroke(xa, y1 - 1, c), Stroke(xb, y1 - 1, c)]
  }

  /** The column loop paints exactly columns `xa` and `xb` between `y0` and `y1`, in colour `c`. */
  lemma {:induction false} ColumnPairExact(xa: int, xb: int, y0: int, y1: int, c: Rgba, op: Stroke)
    ensures op in ColumnPair(xa, xb, y0, y1, c) <==> (op.x == xa || op.x == xb) && y0 <= op.y < y1 && op.c == c
    decreases y1 - y0
  {
    if y0 < y1 {
      ColumnPairExact(xa, xb, y0, y1 - 1, c, op);
    }
  }

  /** `for x in range(x0, x1): setpx(x, ya, c); setpx(x, yb, c)`. */
  function RowPair(ya: int, yb: int, x0: int, x1: int, c: Rgba): seq<Stroke>
    decreases x1 - x0
  {
    if x1 <= x0 then []
    else RowPair(ya, yb, x0, x1 - 1, c) + [Stroke(x1 - 1, ya, c), Stroke(x1 - 1, yb, c)]
  }

  /** The row loop paints exactly rows `ya` and `yb` between `x0` and `x1`, in colour `c`. */
  lemma {:induction false} RowPairExact(ya: int, yb: int, x0: int, x1: int, c: Rgba, op: Stroke)
    ensures op in RowPair(ya, yb, x0, x1, c) <==> x0 <= op.x < x1 && (op.y == ya || op.y == yb) && op.c == c
    decreases x1 - x0
  {
    if x0 < x1 {
      RowPairExact(ya, yb, x0, x1 - 1, c, op);
    }
  }

  /** `for p in pts: setpx(*p, c)`. */
  function Points(pts: seq<(int, int)>, c: Rgba): seq<Stroke>
  {
    if pts == [] then []
    else
      var p := pts[|pts| - 1];
      Points(pts[..|pts| - 1], c) + [Stroke(p.0, p.1, c)]
  }

  /** The point loop paints exactly the listed points, in colour `c`. */
  lemma {:induction false} PointsExact(pts: seq<(int, int)>, c: Rgba, op: Stroke)
    ensures op in Points(pts, c) <==> (op.x, op.y) in pts && op.c == c
    decreases |pts|
  {
    if pts != [] {
      var init := pts[..|pts| - 1];
      PointsExact(init, c, op);
      assert pts == init + [pts[|pts| - 1]];
    }
  }

  const ShaftTop: seq<(int, int)> := [(7, 2), (8, 2), (9, 2), (10, 3), (10, 4), (9, 5), (8, 5)]
  const Band: seq<(int, int)> := [(8, 6), (9, 6), (8, 7), (9, 7), (8, 8), (9, 8), (7, 9), (8, 9)]
  const Crystal: seq<(int, int)> := [(11, 1), (12, 2), (11, 3), (10, 2), (11, 2)]

  /** The wooden shaft, its crook and the gold band of `draw_staff`. */
  function ShaftStrokes(): seq<Stroke>
  {
    ColumnPair(7, 8, 3, 16, Wood) + Points(ShaftTop, Wood) + Points(Band, Gold)
  }

  /** The crystal and its glint, the last strokes of `draw_staff`. */
  function HeadStrokes(crystal: Rgba): seq<Stroke>
  {
    Points(Crystal, crystal) + [Stroke(11, 2, Glint)]
  }

  /** The strokes of `draw_staff`, in the order it issues them. */
  function StaffStrokes(crystal: Rgba): seq<Stroke>
  {
    ShaftStrokes() + HeadStrokes(crystal)
  }

  /**
   * What `draw_staff` paints: the shaft columns and the crook in wood,
   * the band in gold, the crystal in its colour and the glint.
   */
  lemma StaffStrokeSet(crystal: Rgba, op: Stroke)
    ensures op in StaffStrokes(crystal) <==>
      || ((op.x == 7 || op.x == 8) && 3 <= op.y < 16 && op.c == Wood)
      || ((op.x, op.y) in ShaftTop && op.c == Wood)
      || ((op.x, op.y) in Band && op.c == Gold)
      || ((op.x, op.y) in Crystal && op.c == crystal)
      || op == Stroke(11, 2, Glint)
  {
    ColumnPairExact(7, 8, 3, 16, Wood, op);
    PointsExact(ShaftTop, Wood, op);
    PointsExact(Band, Gold, op);
    PointsExact(Crystal, crystal, op);
  }

  /** The paper and its border: the first three loops of `draw_scroll`. */
  function SheetStrokes(): seq<Stroke>
  {
    Rect(3, 13, 2, 14, Paper) + RowPair(2, 13, 3, 13, Edge) + ColumnPair(3, 12, 2, 14, Edge)
  }

  /** The tinted field and its writing lines: the last three loops of `draw_scroll`. */
  function FieldStrokes(color: Rgb): seq<Stroke>
  {
    Rect(4, 12, 4, 12, Tint(color)) + RowPair(6, 8, 5, 11, Edge) + Span(10, 5, 10, Edge)
  }

  /** The strokes of `draw_scroll`, in the order it issues them. */
  function ScrollStrokes(color: Rgb): seq<Stroke>
  {
    SheetStrokes() + FieldStrokes(color)
  }

  /**
   * What `draw_scroll` paints: the paper rectangle, its edge rows and
   * columns, the tinted field and the three writing lines.
   */
  lemma ScrollStrokeSet(color: Rgb, op: Stroke)
    ensures op in ScrollStrokes(color) <==>
      || (3 <= op.x < 13 && 2 <= op.y < 14 && op.c == Paper)
      || (3 <= op.x < 13 && (op.y == 2 || op.y == 13) && op.c == Edge)
      || ((op.x == 3 || op.x == 12) && 2 <= op.y < 14 && op.c == Edge)
      || (4 <= op.x < 12 && 4 <= op.y < 12 && op.c == Tint(color))
      || (5 <= op.x < 11 && (op.y == 6 || op.y == 8) && op.c == Edge)
      || (5 <= op.x < 10 && op.y == 10 && op.c == Edge)
  {
    RectExact(3, 13, 2, 14, Paper, op);
    RowPairExact(2, 13, 3, 13, Edge, op);
    ColumnPairExact(3, 12, 2, 14, Edge, op);
    RectExact(4, 12, 4, 12, Tint(color), op);
    RowPairExact(6, 8, 5, 11, Edge, op);
    var line := Span(10, 5, 10, Edge);
    if 5 <= op.x < 10 && op.y == 10 && op.c == Edge {
      assert line[op.x - 5] == op;
    }
  }


  /** Every stroke of `ops` addresses a pixel of a `Size` x `Size` icon. */
  predicate OnIcon(ops: seq<Stroke>)
    decreases |ops|
  {
    ops == [] || (OnIcon(ops[..|ops| - 1]) && Within(ops[|ops| - 1]))
  }

  predicate Within(op: Stroke)
  {
    0 <= op.x < Size && 0 <= op.y < Size
  }

  lemma OnIconSnoc(a: seq<Stroke>, op: Stroke)
    requires OnIcon(a) && Within(op)
    ensures OnIcon(a + [op])
  {
    assert (a + [op])[..|a|] == a;
  }

  lemma {:induction false} OnIconAppend(a: seq<Stroke>, b: seq<Stroke>)
    requires OnIcon(a) && OnIcon(b)
    ensures OnIcon(a + b)
    decreases |b|
  {
    if b == [] {
      assert a + b == a;
    } else {
      var init := b[..|b| - 1];
      OnIconAppend(a, init);
      OnIconSnoc(a + init, b[|b| - 1]);
      assert a + init + [b[|b| - 1]] == a + b;
    }
  }

  /** On an icon, every stroke is in bounds of the 4 * `Size` * `Size` byte buffer. */
  lemma {:induction false} OnIconInBounds(ops: seq<Stroke>)
    requires OnIcon(ops)
    ensures forall op :: op in ops ==> InBounds(4 * Size * Size, Size, op.x, op.y)
    decreases |ops|
  {
    assert 4 * Size * Size / (Size * 4) == Size;
    if ops != [] {
      var init := ops[..|ops| - 1];
      OnIconInBounds(init);
      assert ops == init + [ops[|ops| - 1]];
    }
  }

  lemma {:induction false} SpanOn(y: int, x0: int, x1: int, c: Rgba)
    requires 0 <= y < Size && 0 <= x0 && x1 <= Size
    ensures OnIcon(Span(y, x0, x1, c))
    decreases x1 - x0
  {
    if x0 < x1 {
      SpanOn(y, x0, x1 - 1, c);
      SpanSnoc(y, x0, x1, c);
      OnIconSnoc(Span(y, x0, x1 - 1, c), Stroke(x1 - 1, y, c));
    }
  }

  lemma {:induction false} RectOn(x0: int, x1: int, y0: int, y1: int, c: Rgba)
    requires 0 <= x0 && x1 <= Size && 0 <= y0 && y1 <= Size
    ensures OnIcon(Rect(x0, x1, y0, y1, c))
    decreases y1 - y0
  {
    if y0 < y1 {
      RectOn(x0, x1, y0, y1 - 1, c);
      SpanOn(y1 - 1, x0, x1, c);
      OnIconAppend(Rect(x0, x1, y0, y1 - 1, c), Span(y1 - 1, x0, x1, c));
    }
  }

  lemma {:induction false} ColumnPairOn(xa: int, xb: int, y0: int, y1: int, c: Rgba)
    requires 0 <= xa < Size && 0 <= xb < Size && 0 <= y0 && y1 <= Size
    ensures OnIcon(ColumnPair(xa, xb, y0, y1, c))
    decreases y1 - y0
  {
    if y0 < y1 {
      var init := ColumnPair(xa, xb, y0, y1 - 1, c);
      ColumnPairOn(xa, xb, y0, y1 - 1, c);
      OnIconSnoc(init, Stroke(xa, y1 - 1, c));
      OnIconSnoc(init + [Stroke(xa, y1 - 1, c)], Stroke(xb, y1 - 1, c));
      assert init + [Stroke(xa, y1 - 1, c)] + [Stroke(xb, y1 - 1, c)] == ColumnPair(xa, xb, y0, y1, c);
    }
  }

  lemma {:induction false} RowPairOn(ya: int, yb: int, x0: int, x1: int, c: Rgba)
    requires 0 <= ya < Size && 0 <= yb < Size && 0 <= x0 && x1 <= Size
    ensures OnIcon(RowPair(ya, yb, x0, x1, c))
    decreases x1 - x0
  {
    if x0 < x1 {
      var init := RowPair(ya, yb, x0, x1 - 1, c);
      RowPairOn(ya, yb, x0, x1 - 1, c);
      OnIconSnoc(init, Stroke(x1 - 1, ya, c));
      OnIconSnoc(init + [Stroke(x1 - 1, ya, c)], Stroke(x1 - 1, yb, c));
      assert init + [Stroke(x1 - 1, ya, c)] + [Stroke(x1 - 1, yb, c)] == RowPair(ya, yb, x0, x1, c);
    }
  }

  lemma {:induction false} PointsOn(pts: seq<(int, int)>, c: Rgba)
    requires forall p :: p in pts ==> 0 <= p.0 < Size && 0 <= p.1 < Size
    ensures OnIcon(Points(pts, c))
    decreases |pts|
  {
    if pts != [] {
      var p := pts[|pts| - 1];
      assert forall q :: q in pts[..|pts| - 1] ==> q in pts;
      PointsOn(pts[..|pts| - 1], c);
      OnIconSnoc(Points(pts[..|pts| - 1], c), Stroke(p.0, p.1, c));
    }
  }

  lemma OnIconJoin(a: seq<Stroke>, b: seq<Stroke>, c: seq<Stroke>)
    requires OnIcon(a) && OnIcon(b) && OnIcon(c)
    ensures OnIcon(a + b + c)
  {
    OnIconAppend(a, b);
    OnIconAppend(a + b, c);
  }

  lemma ShaftTopOnIcon()
    ensures OnIcon(Points(ShaftTop, Wood))
  {
    PointsOn(ShaftTop, Wood);
  }

  lemma BandOnIcon()
    ensures OnIcon(Points(Band, Gold))
  {
    PointsOn(Band, Gold);
  }

  lemma CrystalOnIcon(crystal: Rgba)
    ensures OnIcon(Points(Crystal, crystal))
  {
    PointsOn(Crystal, crystal);
  }

  lemma ShaftOnIcon()
    ensures OnIcon(ShaftStrokes())
  {
    ColumnPairOn(7, 8, 3, 16, Wood);
    ShaftTopOnIcon();
    BandOnIcon();
    OnIconJoin(ColumnPair(7, 8, 3, 16, Wood), Points(ShaftTop, Wood), Points(Band, Gold));
  }

  lemma HeadOnIcon(crystal: Rgba)
    ensures OnIcon(HeadStrokes(crystal))
  {
    CrystalOnIcon(crystal);
    OnIconSnoc(Points(Crystal, crystal), Stroke(11, 2, Glint));
  }

  /** Every stroke of a staff icon addresses a pixel of the 16 x 16 buffer. */
  lemma StaffStrokesOnIcon(crystal: Rgba)
    ensures OnIcon(StaffStrokes(crystal))
  {
    ShaftOnIcon();
    HeadOnIcon(crystal);
    OnIconAppend(ShaftStrokes(), HeadStrokes(crystal));
  }

  lemma SheetOnIcon()
    ensures OnIcon(SheetStrokes())
  {
    RectOn(3, 13, 2, 14, Paper);
    RowPairOn(2, 13, 3, 13, Edge);
    ColumnPairOn(3, 12, 2, 14, Edge);
    OnIconJoin(Rect(3, 13, 2, 14, Paper), RowPair(2, 13, 3, 13, Edge), ColumnPair(3, 12, 2, 14, Edge));
  }

  lemma FieldOnIcon(color: Rgb)
    ensures OnIcon(FieldStrokes(color))
  {
    RectOn(4, 12, 4, 12, Tint(color));
    RowPairOn(6, 8, 5, 11, Edge);
    SpanOn(10, 5, 10, Edge);
    OnIconJoin(Rect(4, 12, 4, 12, Tint(color)), RowPair(6, 8, 5, 11, Edge), Span(10, 5, 10, Edge));
  }

  /** Every stroke of a scroll icon addresses a pixel of the 16 x 16 buffer. */
  lemma ScrollStrokesOnIcon(color: Rgb)
    ensures OnIcon(ScrollStrokes(color))
  {
    SheetOnIcon();
    FieldOnIcon(color);
    OnIconAppend(SheetStrokes(), FieldStrokes(color));
  }

  /** The colour of the last stroke aimed at pixel (`x`, `y`), or `orig` if none is. */
  function LastHit(ops: seq<Stroke>, x: int, y: int, orig: seq<byte>): seq<byte>
  {
    if ops == [] then orig
    else
      var op := ops[|ops| - 1];
      if op.x == x && op.y == y then PixelBytes(op.c) else LastHit(ops[..|ops| - 1], x, y, orig)
  }

  /** On an icon no stroke is dropped by the bounds check of `setpx`. */
  lemma {:induction false} NoStrokeDropped(ops: seq<Stroke>, x: int, y: int, orig: seq<byte>)
    requires OnIcon(ops)
    ensures LastColour(4 * Size * Size, Size, ops, x, y, orig) == LastHit(ops, x, y, orig)
    decreases |ops|
  {
    if ops != [] {
      var op := ops[|ops| - 1];
      OnIconInBounds(ops);
      assert op in ops;
      NoStrokeDropped(ops[..|ops| - 1], x, y, orig);
    }
  }

  /** A blank icon's pixels are all four zero bytes. */
  lemma BlankPixel(x: int, y: int)
    requires 0 <= x < Size && 0 <= y < Size
    ensures InBounds(4 * Size * Size, Size, x, y)
    ensures PixelAt(Blank(Size, Size), Size, x, y) == [0, 0, 0, 0]
  {
    assert 4 * Size * Size / (Size * 4) == Size;
    InBoundsFits(4 * Size * Size, Size, x, y);
  }

  /** On a blank icon, every pixel ends up holding the colour of the last stroke aimed at it, or stays transparent. */
  lemma IconPixel(ops: seq<Stroke>, x: int, y: int)
    requires OnIcon(ops)
    requires 0 <= x < Size && 0 <= y < Size
    ensures InBounds(4 * Size * Size, Size, x, y)
    ensures PixelAt(Paint(Blank(Size, Size), Size, ops), Size, x, y) == LastHit(ops, x, y, [0, 0, 0, 0])
  {
    BlankPixel(x, y);
    PaintPixel(Blank(Size, Size), Size, ops, x, y);
    NoStrokeDropped(ops, x, y, [0, 0, 0, 0]);
  }

  /** The glint is drawn last, over the crystal. */
  lemma GlintOnTop(crystal: Rgba)
    ensures InBounds(4 * Size * Size, Size, 11, 2)
    ensures PixelAt(Paint(Blank(Size, Size), Size, StaffStrokes(crystal)), Size, 11, 2) == PixelBytes(Glint)
  {
    StaffStrokesOnIcon(crystal);
    IconPixel(StaffStrokes(crystal), 11, 2);
    var ops := StaffStrokes(crystal);
    assert ops[|ops| - 1] == Stroke(11, 2, Glint);
  }

  /** A fresh array holding `s`. */
  method NewBuffer(s: seq<byte>) returns (a: array<byte>)
    ensures fresh(a) && a[..] == s
  {
    a := new byte[|s|](i requires 0 <= i < |s| => s[i]);
  }

  method DrawSpan(buf: array<byte>, w: int, y: int, x0: int, x1: int, c: Rgba)
    modifies buf
    ensures buf[..] == Paint(old(buf[..]), w, Span(y, x0, x1, c))
  {
    ghost var s := buf[..];
    if x1 <= x0 {
      return;
    }
    for x := x0 to x1
      invariant buf[..] == Paint(s, w, Span(y, x0, x, c))
    {
      SetPx(buf, w, x, y, c);
      PaintSnoc(s, w, Span(y, x0, x, c), Stroke(x, y, c));
      SpanSnoc(y, x0, x + 1, c);
    }
  }

  method DrawRect(buf: array<byte>, w: int, x0: int, x1: int, y0: int, y1: int, c: Rgba)
    modifies buf
    ensures buf[..] == Paint(old(buf[..]), w, Rect(x0, x1, y0, y1, c))
  {
    ghost var s := buf[..];
    if y1 <= y0 {
      return;
    }
    for y := y0 to y1
      invariant buf[..] == Paint(s, w, Rect(x0, x1, y0, y, c))
    {
      DrawSpan(buf, w, y, x0, x1, c);
      PaintAppend(s, w, Rect(x0, x1, y0, y, c), Span(y, x0, x1, c));
    }
  }

  /** Two more strokes paint one pixel and then the other. */
  lemma PaintPair(s: seq<byte>, w: int, done: seq<Stroke>, a: Stroke, b: Stroke)
    ensures Paint(s, w, done + [a, b]) == WithPixel(WithPixel(Paint(s, w, done), w, a.x, a.y, a.c), w, b.x, b.y, b.c)
  {
    PaintAppend(s, w, done, [a, b]);
    var mid := Paint(s, w, done);
    assert [a, b][..1] == [a];
    assert Paint(mid, w, [a]) == WithPixel(mid, w, a.x, a.y, a.c);
  }

  method DrawColumnPair(buf: array<byte>, w: int, xa: int, xb: int, y0: int, y1: int, c: Rgba)
    modifies buf
    ensures buf[..] == Paint(old(buf[..]), w, ColumnPair(xa, xb, y0, y1, c))
  {
    ghost var s := buf[..];
    if y1 <= y0 {
      return;
    }
    for y := y0 to y1
      invariant buf[..] == Paint(s, w, ColumnPair(xa, xb, y0, y, c))
    {
      SetPx(buf, w, xa, y, c);
      SetPx(buf, w, xb, y, c);
      PaintPair(s, w, ColumnPair(xa, xb, y0, y, c), Stroke(xa, y, c), Stroke(xb, y, c));
    }
  }

  method DrawRowPair(buf: array<byte>, w: int, ya: int, yb: int, x0: int, x1: int, c: Rgba)
    modifies buf
    ensures buf[..] == Paint(old(buf[..]), w, RowPair(ya, yb, x0, x1, c))
  {
    ghost var s := buf[..];
    if x1 <= x0 {
      return;
    }
    for x := x0 to x1
      invariant buf[..] == Paint(s, w, RowPair(ya, yb, x0, x, c))
    {
      SetPx(buf, w, x, ya, c);
      SetPx(buf, w, x, yb, c);
      PaintPair(s, w, RowPair(ya, yb, x0, x, c), Stroke(x, ya, c), Stroke(x, yb, c));
    }
  }

  method DrawPoints(buf: array<byte>, w: int, pts: seq<(int, int)>, c: Rgba)
    modifies buf
    ensures buf[..] == Paint(old(buf[..]), w, Points(pts, c))
  {
    ghost var s := buf[..];
    for k := 0 to |pts|
      invariant buf[..] == Paint(s, w, Points(pts[..k], c))
    {
      SetPx(buf, w, pts[k].0, pts[k].1, c);
      PaintSnoc(s, w, Points(pts[..k], c), Stroke(pts[k].0, pts[k].1, c));
      assert pts[..k + 1][..k] == pts[..k];
    }
    assert pts[..|pts|] == pts;
  }

  /** The shaft loops of `draw_staff`. */
  method PaintShaft(b: array<byte>)
    modifies b
    ensures b[..] == Paint(old(b[..]), Size, ShaftStrokes())
  {
    ghost var s := b[..];
    DrawColumnPair(b, Size, 7, 8, 3, 16, Wood);
    DrawPoints(b, Size, ShaftTop, Wood);
    DrawPoints(b, Size, Band, Gold);
    PaintAppend(s, Size, ColumnPair(7, 8, 3, 16, Wood), Points(ShaftTop, Wood));
    PaintAppend(s, Size, ColumnPair(7, 8, 3, 16, Wood) + Points(ShaftTop, Wood), Points(Band, Gold));
  }

  /** The crystal loop and the glint of `draw_staff`. */
  method PaintHead(b: array<byte>, crystal: Rgba)
    modifies b
    ensures b[..] == Paint(old(b[..]), Size, HeadStrokes(crystal))
  {
    ghost var s := b[..];
    DrawPoints(b, Size, Crystal, crystal);
    SetPx(b, Size, 11, 2, Glint);
    PaintSnoc(s, Size, Points(Crystal, crystal), Stroke(11, 2, Glint));
  }

  /** The loops of `draw_staff`, on any buffer of width `Size`. */
  method PaintStaff(b: array<byte>, crystal: Rgba)
    modifies b
    ensures b[..] == Paint(old(b[..]), Size, StaffStrokes(crystal))
  {
    ghost var s := b[..];
    PaintShaft(b);
    PaintHead(b, crystal);
    PaintAppend(s, Size, ShaftStrokes(), HeadStrokes(crystal));
  }

  /** The first three loops of `draw_scroll`. */
  method PaintSheet(b: array<byte>)
    modifies b
    ensures b[..] == Paint(old(b[..]), Size, SheetStrokes())
  {
    ghost var s := b[..];
    DrawRect(b, Size, 3, 13, 2, 14, Paper);
    DrawRowPair(b, Size, 2, 13, 3, 13, Edge);
    DrawColumnPair(b, Size, 3, 12, 2, 14, Edge);
    PaintAppend(s, Size, Rect(3, 13, 2, 14, Paper), RowPair(2, 13, 3, 13, Edge));
    PaintAppend(s, Size, Rect(3, 13, 2, 14, Paper) + RowPair(2, 13, 3, 13, Edge), ColumnPair(3, 12, 2, 14, Edge));
  }

  /** The last three loops of `draw_scroll`. */
  method PaintField(b: array<byte>, color: Rgb)
    modifies b
    ensures b[..] == Paint(old(b[..]), Size, FieldStrokes(color))
  {
    ghost var s := b[..];
    var tint := Tint(color);
    DrawRect(b, Size, 4, 12, 4, 12, tint);
    DrawRowPair(b, Size, 6, 8, 5, 11, Edge);
    DrawSpan(b, Size, 10, 5, 10, Edge);
    PaintAppend(s, Size, Rect(4, 12, 4, 12, tint), RowPair(6, 8, 5, 11, Edge));
    PaintAppend(s, Size, Rect(4, 12, 4, 12, tint) + RowPair(6, 8, 5, 11, Edge), Span(10, 5, 10, Edge));
  }

  /** The loops of `draw_scroll`, on any buffer of width `Size`. */
  method PaintScroll(b: array<byte>, color: Rgb)
    modifies b
    ensures b[..] == Paint(old(b[..]), Size, ScrollStrokes(color))
  {
    ghost var s := b[..];
    PaintSheet(b);
    ghost var sheet := b[..];
    PaintField(b, color);
    assert b[..] == Paint(sheet, Size, FieldStrokes(color));
    PaintAppend(s, Size, SheetStrokes(), FieldStrokes(color));
  }

  /**
   * `draw_staff` without the file write: the painted pixels and the PNG
   * stream written for them.
   */
  method DrawStaff(crystal: Rgba, crc: seq<byte> -> nat, compress: seq<byte> -> seq<byte>)
    returns (image: seq<byte>, payload: Option<seq<byte>>)
    ensures |image| == 4 * Size * Size
    ensures image == Paint(Blank(Size, Size), Size, StaffStrokes(crystal))
    ensures payload == Png.Encode(Size, Size, image, crc, compress)
  {
    var b := NewBuffer(Blank(Size, Size));
    PaintStaff(b, crystal);
    image := b[..];
    payload := Png.PngWrite(Size, Size, image, crc, compress);
  }

  /**
   * `draw_scroll` without the file write: the painted pixels and the PNG
   * stream written for them.
   */
  method DrawScroll(color: Rgb, crc: seq<byte> -> nat, compress: seq<byte> -> seq<byte>)
    returns (image: seq<byte>, payload: Option<seq<byte>>)
    ensures |image| == 4 * Size * Size
    ensures image == Paint(Blank(Size, Size), Size, ScrollStrokes(color))
    ensures payload == Png.Encode(Size, Size, image, crc, compress)
  {
    var b := NewBuffer(Blank(Size, Size));
    PaintScroll(b, color);
    image := b[..];
    payload := Png.PngWrite(Size, Size, image, crc, compress);
  }

  /** `solid` without the file write: the PNG stream of a `w` x `h` image of colour `c`. */
  method Solid(w: nat, h: nat, c: Rgba, crc: seq<byte> -> nat, compress: seq<byte> -> seq<byte>)
    returns (payload: Option<seq<byte>>)
    ensures payload == Png.Encode(w, h, Repeat(c, w * h), crc, compress)
  {
    var b := Repeat(c, w * h);
    payload := Png.PngWrite(w, h, b, crc, compress);
  }
}
