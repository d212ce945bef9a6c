/**
 * The PNG serialiser of build_addon.py (`png_write`): the filtered
 * scanline stream, chunk framing, the signature and the IHDR header, as
 * laid down by the PNG specification (ISO/IEC 15948, W3C PNG second
 * edition): signature in section 5.2, chunk layout in section 5.3, IHDR in
 * section 11.2.2, filter type 0 ("None") in section 9.2.
 *
 * The CRC-32 (`zlib.crc32`) and the compressor (`zlib.compress`) are
 * parameters: the serialiser does not depend on what they compute.
 */
module Png {
  import opened Optional
  import opened Bytes

  /** Section 5.2: the eight bytes every PNG file starts with. */
  const Signature: seq<byte> := [0x89, 0x50, 0x4E, 0x47, 0x0D, 0x0A, 0x1A, 0x0A]

  const IhdrTag: seq<byte> := [0x49, 0x48, 0x44, 0x52]
  const IdatTag: seq<byte> := [0x49, 0x44, 0x41, 0x54]
  const IendTag: seq<byte> := [0x49, 0x45, 0x4E, 0x44]

  /** Python's `s[a:b]` for `0 <= a <= b`: the bounds are clipped to the sequence. */
  function Slice(s: seq<byte>, a: nat, b: nat): (t: seq<byte>)
    requires a <= b
    ensures b <= |s| ==> t == s[a..b]
  {
    if |s| <= a then [] else if |s| <= b then s[a..] else s[a..b]
  }

  /** The raw stream: each row of `4 * w` bytes preceded by filter byte 0. */
  function Rows(rgba: seq<byte>, w: nat, h: nat): seq<byte>
  {
    if h == 0 then [] else Rows(rgba, w, h - 1) + [0] + Row(rgba, w, h - 1)
  }

  /** `rgba[start : start + w * 4]` with `start = y * w * 4`. */
  function Row(rgba: seq<byte>, w: nat, y: nat): seq<byte>
  {
    var start := y * w * 4;
    Slice(rgba, start, start + w * 4)
  }

  /** The loop of `png_write` that assembles the raw stream row by row. */
  method Scanlines(w: nat, h: nat, rgba: seq<byte>) returns (raw: seq<byte>)
    ensures raw == Rows(rgba, w, h)
  {
    raw := [];
    for y := 0 to h
      invariant raw == Rows(rgba, w, y)
    {
      raw := raw + [0];
      var start := y * w * 4;
      raw := raw + Slice(rgba, start, start + w * 4);
    }
  }

  /** With a buffer of at least `h` rows, the stream is `h` lines of `1 + 4 * w` bytes. */
  lemma {:induction false} RowsLength(rgba: seq<byte>, w: nat, h: nat)
    requires h * (4 * w) <= |rgba|
    ensures |Rows(rgba, w, h)| == h * (1 + 4 * w)
  {
    if h > 0 {
      var k := 4 * w;
      Distribute(h - 1, k);
      Distribute(h - 1, 1 + k);
      RowsLength(rgba, w, h - 1);
      RowIsSlice(rgba, w, h - 1);
      assert |Rows(rgba, w, h)| == |Rows(rgba, w, h - 1)| + 1 + |Row(rgba, w, h - 1)|;
    }
  }

  /** Line `y` of the stream is filter byte 0 followed by row `y` of the pixels. */
  lemma RowsLine(rgba: seq<byte>, w: nat, h: nat, y: nat)
    requires h * (4 * w) <= |rgba| && y < h
    ensures (RowsLength(rgba, w, h); LineFits(w, h, y);
      Line(Rows(rgba, w, h), w, y) == [0] + rgba[y * (4 * w)..y * (4 * w) + 4 * w])
  {
    MulLe(y + 1, h, 4 * w);
    LastLine(rgba, w, y + 1);
    var prev := Rows(rgba, w, y + 1);
    RowsLength(rgba, w, y + 1);
    LineFits(w, y + 1, y);
    RowsExtend(rgba, w, y + 1, h);
    LineOfPrefix(prev, Rows(rgba, w, h)[|prev|..], w, y);
    assert Rows(rgba, w, h) == prev + Rows(rgba, w, h)[|prev|..];
  }

  /** The stream of fewer rows is a prefix of the stream of more. */
  lemma {:induction false} RowsExtend(rgba: seq<byte>, w: nat, y: nat, h: nat)
    requires y <= h
    ensures Rows(rgba, w, y) <= Rows(rgba, w, h)
  {
    if y < h {
      RowsExtend(rgba, w, y, h - 1);
    }
  }

  /** A line lying wholly in a prefix of the stream reads the same from the whole. */
  lemma LineOfPrefix(prev: seq<byte>, extra: seq<byte>, w: nat, y: nat)
    requires y * (1 + 4 * w) + (1 + 4 * w) <= |prev|
    ensures Line(prev + extra, w, y) == Line(prev, w, y)
  {
  }

  lemma LastLine(rgba: seq<byte>, w: nat, h: nat)
    requires h * (4 * w) <= |rgba| && 0 < h
    ensures (RowsLength(rgba, w, h); LineFits(w, h, h - 1);
      Line(Rows(rgba, w, h), w, h - 1) == [0] + rgba[(h - 1) * (4 * w)..(h - 1) * (4 * w) + 4 * w])
  {
    var prev := Rows(rgba, w, h - 1);
    var line := [0] + Row(rgba, w, h - 1);
    assert Rows(rgba, w, h) == prev + line;
    MulLe(h - 1, h, 4 * w);
    RowsLength(rgba, w, h - 1);
    RowIsSlice(rgba, w, h - 1);
    LineAfter(prev, line, w, h - 1);
  }

  /** A line appended right after `y` whole lines is line `y`. */
  lemma LineAfter(prev: seq<byte>, line: seq<byte>, w: nat, y: nat)
    requires |prev| == y * (1 + 4 * w) && |line| == 1 + 4 * w
    ensures Line(prev + line, w, y) == line
  {
  }

  /** Line `y < h` of `1 + 4 * w` bytes and row `y` of `4 * w` bytes lie within `h` of each. */
  lemma LineFits(w: nat, h: nat, y: nat)
    requires y < h
    ensures y * (1 + 4 * w) + (1 + 4 * w) <= h * (1 + 4 * w)
    ensures y * (4 * w) + 4 * w <= h * (4 * w)
  {
    MulLe(y + 1, h, 1 + 4 * w);
    MulLe(y + 1, h, 4 * w);
    Distribute(y, 1 + 4 * w);
    Distribute(y, 4 * w);
  }

  lemma Distribute(a: nat, k: nat)
    ensures a * k + k == (a + 1) * k
  {
  }

  lemma RowIsSlice(rgba: seq<byte>, w: nat, y: nat)
    requires (y + 1) * (4 * w) <= |rgba|
    ensures |Row(rgba, w, y)| == 4 * w
    ensures Row(rgba, w, y) == rgba[y * (4 * w)..y * (4 * w) + 4 * w]
  {
    assert y * w * 4 == y * (4 * w);
    Distribute(y, 4 * w);
  }

  lemma MulLe(a: nat, b: nat, k: nat)
    requires a <= b
    ensures a * k <= b * k
  {
  }

  /** Line `y` of a raw stream of `1 + 4 * w`-byte lines. */
  function Line(raw: seq<byte>, w: nat, y: nat): seq<byte>
    requires y * (1 + 4 * w) + (1 + 4 * w) <= |raw|
  {
    raw[y * (1 + 4 * w)..y * (1 + 4 * w) + (1 + 4 * w)]
  }

  /** Section 5.3: length, type, data, then the CRC over type and data, all 32-bit values big-endian. */
  function Chunk(tag: seq<byte>, data: seq<byte>, crc: seq<byte> -> nat): (c: seq<byte>)
    requires |tag| == 4 && |data| < Two32
    ensures |c| == 12 + |data|
  {
    BE32(|data|) + tag + data + BE32(crc(tag + data) % Two32)
  }

  /** A chunk read back from the front of a byte stream: its type, its data and what follows it. */
  datatype Parsed = Parsed(tag: seq<byte>, data: seq<byte>, rest: seq<byte>)

  /** Reads one chunk, rejecting a short stream or a CRC that does not match. */
  function ParseChunk(s: seq<byte>, crc: seq<byte> -> nat): (r: Option<Parsed>)
    ensures r.Some? ==> |r.value.rest| < |s|
  {
    if |s| < 12 then None
    else
      var len := FromBE32(s[..4]);
      if |s| < 12 + len then None
      else
        var tag := s[4..8];
        var data := s[8..8 + len];
        if FromBE32(s[8 + len..12 + len]) != crc(tag + data) % Two32 then None
        else Some(Parsed(tag, data, s[12 + len..]))
  }

  /** A framed chunk reads back as the same type and data, leaving what followed it. */
  lemma ChunkRoundTrip(tag: seq<byte>, data: seq<byte>, rest: seq<byte>, crc: seq<byte> -> nat)
    requires |tag| == 4 && |data| < Two32
    ensures ParseChunk(Chunk(tag, data, crc) + rest, crc) == Some(Parsed(tag, data, rest))
  {
    var s := Chunk(tag, data, crc) + rest;
    var n := |data|;
    assert s[..4] == BE32(n);
    assert s[4..8] == tag;
    assert s[8..8 + n] == data;
    assert s[8 + n..12 + n] == BE32(crc(tag + data) % Two32);
    assert s[12 + n..] == rest;
  }

  /** Section 11.2.2: width, height, bit depth 8, colour type 6 (RGBA), compression, filter and interlace 0. */
  function Ihdr(w: nat, h: nat): (d: seq<byte>)
    requires w < Two32 && h < Two32
    ensures |d| == 13
  {
    BE32(w) + BE32(h) + [8, 6, 0, 0, 0]
  }

  /** The IHDR fields read back from its 13 bytes. */
  datatype Header = Header(width: nat, height: nat, bitDepth: byte, colourType: byte,
                           compression: byte, filter: byte, interlace: byte)

  function ParseIhdr(d: seq<byte>): Option<Header>
  {
    if |d| != 13 then None
    else Some(Header(FromBE32(d[..4]), FromBE32(d[4..8]), d[8], d[9], d[10], d[11], d[12]))
  }

  lemma IhdrRoundTrip(w: nat, h: nat)
    requires w < Two32 && h < Two32
    ensures ParseIhdr(Ihdr(w, h)) == Some(Header(w, h, 8, 6, 0, 0, 0))
  {
    var d := Ihdr(w, h);
    assert d[..4] == BE32(w);
    assert d[4..8] == BE32(h);
  }

  /**
   * The bytes `png_write` writes, or none where `struct.pack` would
   * raise because a width, height or chunk length does not fit 32 bits.
   */
  function Encode(w: nat, h: nat, rgba: seq<byte>, crc: seq<byte> -> nat, compress: seq<byte> -> seq<byte>): (r: Option<seq<byte>>)
    ensures r.None? <==> w >= Two32 || h >= Two32 || |compress(Rows(rgba, w, h))| >= Two32
    ensures r.Some? ==> |r.value| == 57 + |compress(Rows(rgba, w, h))| && r.value[..8] == Signature
  {
    var idat := compress(Rows(rgba, w, h));
    if w >= Two32 || h >= Two32 || |idat| >= Two32 then None
    else Some(Signature + Chunk(IhdrTag, Ihdr(w, h), crc) + Chunk(IdatTag, idat, crc) + Chunk(IendTag, [], crc))
  }

  /** Reads a whole stream of chunks. */
  function ParseChunks(s: seq<byte>, crc: seq<byte> -> nat): Option<seq<Parsed>>
    decreases |s|
  {
    if s == [] then Some([])
    else
      match ParseChunk(s, crc)
      case None => None
      case Some(p) =>
        match ParseChunks(p.rest, crc)
        case None => None
        case Some(ps) => Some([p.(rest := [])] + ps)
  }

  /** A PNG file read back: the signature, then its chunks. */
  function ParsePng(s: seq<byte>, crc: seq<byte> -> nat): Option<seq<Parsed>>
  {
    if |s| < 8 || s[..8] != Signature then None else ParseChunks(s[8..], crc)
  }

  /**
   * What `png_write` produces is a signed PNG stream of exactly three
   * chunks: IHDR with the image's header, IDAT with the compressed raw
   * stream, and an empty IEND.
   */
  lemma EncodeParses(w: nat, h: nat, rgba: seq<byte>, crc: seq<byte> -> nat, compress: seq<byte> -> seq<byte>, p: seq<byte>)
    requires Encode(w, h, rgba, crc, compress) == Some(p)
    ensures ParsePng(p, crc) == Some([
      Parsed(IhdrTag, Ihdr(w, h), []),
      Parsed(IdatTag, compress(Rows(rgba, w, h)), []),
      Parsed(IendTag, [], [])])
  {
    var idat := compress(Rows(rgba, w, h));
    var chunks := Chunk(IhdrTag, Ihdr(w, h), crc) + Chunk(IdatTag, idat, crc) + Chunk(IendTag, [], crc);
    assert p == Signature + chunks;
    assert p[..8] == Signature;
    assert p[8..] == chunks;
    ThreeChunks(Ihdr(w, h), idat, crc);
  }

  /** An IHDR, an IDAT and an empty IEND chunk, one after the other, read back as those three. */
  lemma ThreeChunks(header: seq<byte>, idat: seq<byte>, crc: seq<byte> -> nat)
    requires |header| < Two32 && |idat| < Two32
    ensures ParseChunks(Chunk(IhdrTag, header, crc) + Chunk(IdatTag, idat, crc) + Chunk(IendTag, [], crc), crc) ==
      Some([Parsed(IhdrTag, header, []), Parsed(IdatTag, idat, []), Parsed(IendTag, [], [])])
  {
    TwoChunks(idat, crc);
    ChunkThenSome(IhdrTag, header, Chunk(IdatTag, idat, crc) + Chunk(IendTag, [], crc), crc,
      [Parsed(IdatTag, idat, []), Parsed(IendTag, [], [])]);
    Associative(Chunk(IhdrTag, header, crc), Chunk(IdatTag, idat, crc), Chunk(IendTag, [], crc));
    var p1, p2, p3 := Parsed(IhdrTag, header, []), Parsed(IdatTag, idat, []), Parsed(IendTag, [], []);
    assert [p1] + [p2, p3] == [p1, p2, p3];
  }

  lemma TwoChunks(idat: seq<byte>, crc: seq<byte> -> nat)
    requires |idat| < Two32
    ensures ParseChunks(Chunk(IdatTag, idat, crc) + Chunk(IendTag, [], crc), crc) ==
      Some([Parsed(IdatTag, idat, []), Parsed(IendTag, [], [])])
  {
    LoneChunk(IendTag, [], crc);
    ChunkThenSome(IdatTag, idat, Chunk(IendTag, [], crc), crc, [Parsed(IendTag, [], [])]);
    var p2, p3 := Parsed(IdatTag, idat, []), Parsed(IendTag, [], []);
    assert [p2] + [p3] == [p2, p3];
  }

  lemma Associative(a: seq<byte>, b: seq<byte>, c: seq<byte>)
    ensures a + b + c == a + (b + c)
  {
  }

  /** A framed chunk in front of a readable stream reads back as that chunk followed by the stream's. */
  lemma ChunkThenSome(tag: seq<byte>, data: seq<byte>, rest: seq<byte>, crc: seq<byte> -> nat, ps: seq<Parsed>)
    requires |tag| == 4 && |data| < Two32
    requires ParseChunks(rest, crc) == Some(ps)
    ensures ParseChunks(Chunk(tag, data, crc) + rest, crc) == Some([Parsed(tag, data, [])] + ps)
  {
    ChunkThen(tag, data, rest, crc);
  }

  /** A single framed chunk reads back as exactly that chunk. */
  lemma LoneChunk(tag: seq<byte>, data: seq<byte>, crc: seq<byte> -> nat)
    requires |tag| == 4 && |data| < Two32
    ensures ParseChunks(Chunk(tag, data, crc), crc) == Some([Parsed(tag, data, [])])
  {
    var none: seq<byte> := [];
    assert ParseChunks(none, crc) == Some([]);
    ChunkThen(tag, data, none, crc);
    assert Chunk(tag, data, crc) + none == Chunk(tag, data, crc);
    assert [Parsed(tag, data, [])] + [] == [Parsed(tag, data, [])];
  }

  /** A framed chunk in front of a stream adds exactly that chunk to what the stream reads as. */
  lemma ChunkThen(tag: seq<byte>, data: seq<byte>, rest: seq<byte>, crc: seq<byte> -> nat)
    requires |tag| == 4 && |data| < Two32
    ensures ParseChunks(Chunk(tag, data, crc) + rest, crc) ==
      if ParseChunks(rest, crc).None? then None
      else Some([Parsed(tag, data, [])] + ParseChunks(rest, crc).value)
  {
    ChunkRoundTrip(tag, data, rest, crc);
  }

  /** `png_write` without the file write: the stream it would write, or none where it would raise. */
  method PngWrite(w: nat, h: nat, rgba: seq<byte>, crc: seq<byte> -> nat, compress: seq<byte> -> seq<byte>)
    returns (payload: Option<seq<byte>>)
    ensures payload == Encode(w, h, rgba, crc, compress)
  {
    var raw := Scanlines(w, h, rgba);
    if w >= Two32 || h >= Two32 {
      return None;
    }
    var ihdr := Ihdr(w, h);
    var idat := compress(raw);
    if |idat| >= Two32 {
      return None;
    }
    payload := Some(Signature + Chunk(IhdrTag, ihdr, crc) + Chunk(IdatTag, idat, crc) + Chunk(IendTag, [], crc));
  }
}
