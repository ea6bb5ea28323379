/** The PNG writer of the icon generator (`createPngChunk`, `createPngFile`): the 8-byte
    signature of section 5.2 of the PNG specification (ISO/IEC 15948), chunks framed as in
    section 5.3, the 13-byte IHDR of section 11.2.2, and unfiltered scanlines (filter type 0
    before every row) as the data handed to the compressor. */
module Png {
  import opened Wrappers
  import opened Bytes
  import opened Crc32

  const Signature: seq<byte> := [137, 80, 78, 71, 13, 10, 26, 10]
  const IhdrType: seq<byte> := [73, 72, 68, 82]
  const IdatType: seq<byte> := [73, 68, 65, 84]
  const IendType: seq<byte> := [73, 69, 78, 68]

  /** The chunk type constants are the ASCII codes of the names the generator passes. */
  lemma ChunkTypeNames()
    ensures Ascii("IHDR") == IhdrType && Ascii("IDAT") == IdatType && Ascii("IEND") == IendType
  {
  }

  /** A chunk on the wire: big-endian data length, type, data, and the big-endian CRC of
      type and data (not of the length). */
  function ChunkBytes(chunkType: seq<byte>, data: seq<byte>): (r: seq<byte>)
    requires |data| < TWO32
    ensures |r| == |chunkType| + |data| + 8
  {
    Be32(|data|) + chunkType + data + Be32(Crc(chunkType + data))
  }

  /** `createPngChunk(type, data)`, with the type given as the four bytes of
      `Buffer.from(type)`: `None` where `writeUInt32BE` throws for a data length that does
      not fit in 32 bits. */
  method CreatePngChunk(cache: CrcTableCache, chunkType: seq<byte>, data: seq<byte>) returns (chunk: Option<seq<byte>>)
    requires cache.Valid()
    modifies cache
    ensures cache.Valid()
    ensures |data| < TWO32 ==> chunk == Some(ChunkBytes(chunkType, data))
    ensures |data| >= TWO32 ==> chunk == None
  {
    if |data| >= TWO32 {
      return None;
    }
    var length := Be32(|data|);
    var crc := ComputeCrc32(cache, chunkType + data);
    chunk := Some(length + chunkType + data + Be32(crc));
  }

  /** The IHDR payload: width and height, both `size`, bit depth 8, colour type 6 (RGBA),
      compression, filter and interlace methods 0. */
  function IhdrData(size: nat): (r: seq<byte>)
    requires size < TWO32
    ensures |r| == 13 && ReadBe32(r, 0) == size && ReadBe32(r, 4) == size
    ensures r[8] == 8 && r[9] == 6 && r[10..] == [0, 0, 0]
  {
    var field := Be32(size);
    assert (field + field + [8, 6, 0, 0, 0])[4..8] == field;
    field + field + [8, 6, 0, 0, 0]
  }

  // ---- Scanlines ----

  /** The `rows` rows of `width` bytes in `pixels`, each preceded by filter byte 0. */
  function Scanlines(pixels: seq<byte>, width: nat, rows: nat): (r: seq<byte>)
    requires |pixels| == Span(rows, width)
    ensures |r| == Span(rows, width + 1)
    decreases rows
  {
    if rows == 0 then []
    else Scanlines(pixels[..|pixels| - width], width, rows - 1) + [0] + pixels[|pixels| - width..]
  }

  /** Row `y` of the scanline data is filter byte 0 followed by row `y` of the pixels:
      the row starts at `y * (width + 1) = start + y` where `start = y * width`, and pixel
      byte `j` of the row lands `y + 1` places further on. */
  lemma {:induction false} ScanlineLayout(pixels: seq<byte>, width: nat, rows: nat, y: nat)
    requires |pixels| == Span(rows, width) && y < rows
    ensures Span(y, width + 1) == Span(y, width) + y
    ensures Span(y, width) + width <= |pixels| && Span(y, width) + y + width + 1 <= Span(rows, width + 1)
    ensures Scanlines(pixels, width, rows)[Span(y, width) + y] == 0
    ensures forall j :: Span(y, width) <= j < Span(y, width) + width ==>
      Scanlines(pixels, width, rows)[j + y + 1] == pixels[j]
    decreases rows
  {
    SpanWider(y, width);
    var front := pixels[..|pixels| - width];
    var prefix := Scanlines(front, width, rows - 1);
    var r := Scanlines(pixels, width, rows);
    assert r == prefix + [0] + pixels[|pixels| - width..];
    if y < rows - 1 {
      SpanMono(y + 1, rows - 1, width);
      SpanMono(y + 1, rows - 1, width + 1);
      ScanlineLayout(front, width, rows - 1, y);
    } else {
      SpanWider(rows - 1, width);
    }
  }

  /** One more row at the end adds one more scanline at the end. */
  lemma ScanlinesStep(pixels: seq<byte>, width: nat, y: nat)
    requires |pixels| == Span(y, width) + width
    ensures Scanlines(pixels, width, y + 1)
         == Scanlines(pixels[..Span(y, width)], width, y) + [0] + pixels[Span(y, width)..]
  {
  }

  /** One iteration of the scanline loop: filter byte 0 at `base`, then the pixel row
      (`pixels.copy(rawData, base + 1, src, src + width)`). */
  method WriteRow(row: seq<byte>, raw: array<byte>, base: nat)
    requires base + |row| + 1 <= raw.Length
    modifies raw
    ensures raw[..base] == old(raw[..base])
    ensures raw[..base + |row| + 1] == old(raw[..base]) + [0] + row
  {
    raw[base] := 0;
    forall k | 0 <= k < |row| {
      raw[base + 1 + k] := row[k];
    }
    SliceSplit(raw[..], base, base + |row| + 1);
    assert raw[..][..base + |row| + 1] == raw[..base + |row| + 1];
  }

  /** The data handed to the compressor for a `size` by `size` RGBA image `pixels`. */
  function RawData(pixels: seq<byte>, size: nat): seq<byte>
    requires |pixels| == 4 * size * size
  {
    SpanIsProduct(size, 4 * size);
    Scanlines(pixels, 4 * size, size)
  }

  /** The scanline loop of `createPngFile`: a fresh zero-filled buffer of
      `size * (4 * size + 1)` bytes receives a 0 filter byte and then a copy of each pixel row. */
  method BuildScanlines(pixels: array<byte>, size: nat) returns (raw: array<byte>)
    requires pixels.Length == 4 * size * size
    ensures fresh(raw) && raw.Length == size * (4 * size + 1)
    ensures raw[..] == RawData(pixels[..], size)
  {
    SpanIsProduct(size, 4 * size);
    SpanIsProduct(size, 4 * size + 1);
    raw := new byte[size * (4 * size + 1)](_ => 0);
    CopyRows(pixels[..], raw, 4 * size, size);
  }

  /** The scanline loop for rows of any width: row `y` goes to offset `y * (width + 1)`,
      after its filter byte. */
  method CopyRows(image: seq<byte>, raw: array<byte>, width: nat, rows: nat)
    requires |image| == Span(rows, width) && raw.Length == Span(rows, width + 1)
    modifies raw
    ensures raw[..] == Scanlines(image, width, rows)
  {
    var y, base, src := 0, 0, 0;
    while y < rows
      invariant 0 <= y <= rows
      invariant base == Span(y, width + 1) && src == Span(y, width)
      invariant base <= raw.Length && src <= |image|
      invariant raw[..base] == Scanlines(image[..src], width, y)
    {
      SpanMono(y + 1, rows, width + 1);
      SpanMono(y + 1, rows, width);
      WriteRow(image[src..src + width], raw, base);
      ghost var next := image[..src + width];
      assert next[..src] == image[..src];
      assert next[src..] == image[src..src + width];
      ScanlinesStep(next, width, y);
      y, base, src := y + 1, base + width + 1, src + width;
    }
    assert image[..src] == image;
    assert raw[..base] == raw[..];
  }

  // ---- The file ----

  /** The PNG stream: signature, IHDR, one IDAT chunk holding the compressed scanlines,
      and an empty IEND chunk; `None` where a 32-bit field cannot hold the size. */
  function PngBytes(size: nat, idat: seq<byte>): (r: Option<seq<byte>>)
    ensures r.Some? <==> size < TWO32 && |idat| < TWO32
    ensures r.Some? ==> |r.value| == 57 + |idat| && r.value[..8] == Signature
  {
    if size >= TWO32 || |idat| >= TWO32 then None
    else
      var s := Signature + (ChunkBytes(IhdrType, IhdrData(size)) + (ChunkBytes(IdatType, idat)
        + ChunkBytes(IendType, [])));
      assert s[..8] == Signature;
      Some(s)
  }

  /** `createPngFile(size)` from the pixel buffer on: `deflate` stands for
      `zlib.deflateSync`, and the file's bytes are returned instead of written. */
  method CreatePngFile(cache: CrcTableCache, size: nat, pixels: array<byte>, deflate: seq<byte> -> seq<byte>)
    returns (png: Option<seq<byte>>)
    requires cache.Valid() && pixels.Length == 4 * size * size
    modifies cache
    ensures cache.Valid()
    ensures png == PngBytes(size, deflate(RawData(pixels[..], size)))
  {
    if size >= TWO32 {
      return None;
    }
    var ihdrChunk := CreatePngChunk(cache, IhdrType, IhdrData(size));
    var rawData := BuildScanlines(pixels, size);
    var compressed := deflate(rawData[..]);
    var idatChunk := CreatePngChunk(cache, IdatType, compressed);
    var iendChunk := CreatePngChunk(cache, IendType, []);
    if idatChunk.None? {
      return None;
    }
    png := Some(Signature + (ihdrChunk.value + (idatChunk.value + iendChunk.value)));
  }

  // ---- Reading back ----

  datatype ChunkView = ChunkView(chunkType: seq<byte>, data: seq<byte>)
  datatype Parsed = Parsed(chunk: ChunkView, rest: seq<byte>)

  /** The chunk at the front of `s`, if its framing is complete and its CRC matches,
      and what follows it. */
  function ParseChunk(s: seq<byte>): (r: Option<Parsed>)
    ensures r.Some? ==> |r.value.rest| == |s| - 12 - |r.value.chunk.data|
  {
    if |s| < 12 then None
    else
      var len := ReadBe32(s, 0);
      if 12 + len > |s| then None
      else
        var t, d := s[4..8], s[8..8 + len];
        if ReadBe32(s, 8 + len) != Crc(t + d) then None
        else Some(Parsed(ChunkView(t, d), s[12 + len..]))
  }

  /** A framed chunk reads back as its type and data, whatever follows it. */
  lemma ParseChunkBytes(chunkType: seq<byte>, data: seq<byte>, rest: seq<byte>)
    requires |chunkType| == 4 && |data| < TWO32
    ensures ParseChunk(ChunkBytes(chunkType, data) + rest) == Some(Parsed(ChunkView(chunkType, data), rest))
  {
    var n := |data|;
    var length, crc := Be32(n), Be32(Crc(chunkType + data));
    var s := ChunkBytes(chunkType, data) + rest;
    assert s[0] == length[0] && s[1] == length[1] && s[2] == length[2] && s[3] == length[3];
    assert ReadBe32(s, 0) == n;
    assert s[4..8] == chunkType;
    assert s[8..8 + n] == data;
    assert s[8 + n] == crc[0] && s[9 + n] == crc[1] && s[10 + n] == crc[2] && s[11 + n] == crc[3];
    assert s[12 + n..] == rest;
  }

  /** What a reader learns from a PNG stream of this shape. */
  datatype PngInfo = PngInfo(width: nat, height: nat, bitDepth: byte, colourType: byte,
                             methods: seq<byte>, imageData: seq<byte>)

  /** A reader for streams of exactly the shape written here: signature, IHDR, IDAT, IEND. */
  function ParsePng(s: seq<byte>): Option<PngInfo> {
    if |s| < 8 || s[..8] != Signature then None
    else match ParseChunk(s[8..])
      case None => None
      case Some(Parsed(ihdr, rest1)) =>
        if ihdr.chunkType != IhdrType || |ihdr.data| != 13 then None
        else match ParseChunk(rest1)
          case None => None
          case Some(Parsed(idat, rest2)) =>
            if idat.chunkType != IdatType then None
            else match ParseChunk(rest2)
              case None => None
              case Some(Parsed(iend, rest3)) =>
                if iend.chunkType != IendType || iend.data != [] || rest3 != [] then None
                else Some(PngInfo(ReadBe32(ihdr.data, 0), ReadBe32(ihdr.data, 4),
                                  ihdr.data[8], ihdr.data[9], ihdr.data[10..], idat.data))
  }

  /** The written stream reads back as a `size` by `size` RGBA image with 8-bit samples,
      methods 0, and the compressed data intact. */
  lemma PngRoundTrip(size: nat, idat: seq<byte>)
    requires size < TWO32 && |idat| < TWO32
    ensures ParsePng(PngBytes(size, idat).value) == Some(PngInfo(size, size, 8, 6, [0, 0, 0], idat))
  {
    var ihdr := IhdrData(size);
    var c1, c2, c3 := ChunkBytes(IhdrType, ihdr), ChunkBytes(IdatType, idat), ChunkBytes(IendType, []);
    var s := PngBytes(size, idat).value;
    ParseChunkBytes(IhdrType, ihdr, c2 + c3);
    ParseChunkBytes(IdatType, idat, c3);
    assert c3 == c3 + [];
    ParseChunkBytes(IendType, [], []);
  }
}
