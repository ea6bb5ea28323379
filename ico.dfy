/** The ICO writer of the icon generator (`createIcoFile`): a 6-byte header, one 16-byte
    directory entry per image, then the images' bitmaps in the same order. Each bitmap is a
    40-byte BITMAPINFOHEADER, the BGRA pixel rows bottom-up, and an all-zero AND mask whose
    rows are padded to a multiple of four bytes. All fields are little-endian. */
module Ico {
  import opened Wrappers
  import opened Bytes
  import opened Layout

  /** One image of the icon: its side length and its `size * size * 4` BGRA bytes, top row
      first, as `generateIconPixels` produces them. */
  datatype Image = Image(size: nat, pixels: seq<byte>)

  predicate WellFormed(img: Image) {
    |img.pixels| == Span(img.size, 4 * img.size)
  }

  /** The sizes the generator puts into `icon.ico`, largest first. */
  const IconSizes: seq<nat> := [256, 128, 64, 48, 32, 16]

  // ---- The vertical flip ----

  /** The `rows` rows of `width` bytes of `p` in reverse order: the last row first. */
  function Flip(p: seq<byte>, width: nat, rows: nat): (r: seq<byte>)
    requires |p| == Span(rows, width)
    ensures |r| == |p|
    decreases rows
  {
    if rows == 0 then [] else p[|p| - width..] + Flip(p[..|p| - width], width, rows - 1)
  }

  /** Equivalently, the first row goes last. */
  lemma {:induction false} FlipFront(p: seq<byte>, width: nat, rows: nat)
    requires |p| == Span(rows, width) && rows > 0
    ensures width <= |p| && |p[width..]| == Span(rows - 1, width)
    ensures Flip(p, width, rows) == Flip(p[width..], width, rows - 1) + p[..width]
  {
    SpanMono(1, rows, width);
    SpanSplit(1, rows - 1, width);
    var first, rest := p[..width], p[width..];
    assert p == first + rest;
    FlipAppend(first, rest, width, 1, rows - 1);
    FlipOne(first, width);
  }

  /** A single row is its own flip. */
  lemma FlipOne(row: seq<byte>, width: nat)
    requires |row| == width
    ensures |row| == Span(1, width) && Flip(row, width, 1) == row
  {
    assert row[..0] == [] && row[0..] == row;
  }

  /** Rows `a` above rows `b` flip to the flip of `b` above the flip of `a`. */
  lemma {:induction false} FlipAppend(a: seq<byte>, b: seq<byte>, width: nat, ra: nat, rb: nat)
    requires |a| == Span(ra, width) && |b| == Span(rb, width)
    ensures |a + b| == Span(ra + rb, width)
    ensures Flip(a + b, width, ra + rb) == Flip(b, width, rb) + Flip(a, width, ra)
    decreases rb
  {
    SpanSplit(ra, rb, width);
    if rb == 0 {
      assert a + b == a;
    } else {
      FlipLast(b, width, rb);
      SpanSplit(ra, rb - 1, width);
      FlipAppend(a, b[..|b| - width], width, ra, rb - 1);
      FlipAppendGlue(a, b, width, ra, rb);
    }
  }

  /** The step of `FlipAppend`, given its claim for the rows of `b` before its last. */
  lemma FlipAppendGlue(a: seq<byte>, b: seq<byte>, width: nat, ra: nat, rb: nat)
    requires |a| == Span(ra, width) && |b| == Span(rb, width) && rb > 0 && width <= |b|
    requires |b[..|b| - width]| == Span(rb - 1, width) && |a + b| == Span(ra + rb, width)
    requires |a + b[..|b| - width]| == Span(ra + rb - 1, width)
    requires Flip(a + b[..|b| - width], width, ra + rb - 1)
             == Flip(b[..|b| - width], width, rb - 1) + Flip(a, width, ra)
    ensures Flip(a + b, width, ra + rb) == Flip(b, width, rb) + Flip(a, width, ra)
  {
    FlipLast(b, width, rb);
    FlipAppendStep(a, b, width, ra, rb);
    Regroup(Flip(a + b, width, ra + rb), Flip(a + b[..|b| - width], width, ra + rb - 1),
            b[|b| - width..], Flip(b[..|b| - width], width, rb - 1), Flip(a, width, ra));
  }

  /** The last row of `a + b` comes from `b`. */
  lemma FlipAppendStep(a: seq<byte>, b: seq<byte>, width: nat, ra: nat, rb: nat)
    requires |a| == Span(ra, width) && |b| == Span(rb, width) && rb > 0
    ensures width <= |b| && |a + b[..|b| - width]| == Span(ra + rb - 1, width)
    ensures Flip(a + b, width, ra + rb) == b[|b| - width..] + Flip(a + b[..|b| - width], width, ra + rb - 1)
  {
    SpanSplit(ra, rb, width);
    SpanSplit(ra, rb - 1, width);
    LastRowOfAppend(a, b, width);
    FlipLast(a + b, width, ra + rb);
    FlipCongruent(a + b[..|b| - width], (a + b)[..|a + b| - width], width, ra + rb - 1);
  }

  /** Equal rows flip equally. */
  lemma FlipCongruent(x: seq<byte>, y: seq<byte>, width: nat, rows: nat)
    requires x == y && |x| == Span(rows, width)
    ensures Flip(x, width, rows) == Flip(y, width, rows)
  {
  }

  /** One step of `Flip`: the last row, then the flip of the rows before it. */
  lemma FlipLast(p: seq<byte>, width: nat, rows: nat)
    requires |p| == Span(rows, width) && rows > 0
    ensures width <= |p| && |p[..|p| - width]| == Span(rows - 1, width)
    ensures Flip(p, width, rows) == p[|p| - width..] + Flip(p[..|p| - width], width, rows - 1)
  {
  }

  /** Regrouping a three-part concatenation. */
  lemma Regroup(x: seq<byte>, y: seq<byte>, last: seq<byte>, front: seq<byte>, back: seq<byte>)
    requires x == last + y && y == front + back
    ensures x == (last + front) + back
  {
  }

  /** The last row of `a + b` is the last row of `b`, and the rows before it are `a`
      followed by the rows of `b` before its last. */
  lemma LastRowOfAppend(a: seq<byte>, b: seq<byte>, width: nat)
    requires width <= |b|
    ensures (a + b)[|a + b| - width..] == b[|b| - width..]
    ensures (a + b)[..|a + b| - width] == a + b[..|b| - width]
  {
  }

  /** Flipping twice gives back the original rows. */
  lemma {:induction false} FlipInvolution(p: seq<byte>, width: nat, rows: nat)
    requires |p| == Span(rows, width)
    ensures Flip(Flip(p, width, rows), width, rows) == p
    decreases rows
  {
    if rows > 0 {
      var last, front := p[|p| - width..], p[..|p| - width];
      var f := Flip(p, width, rows);
      assert f == last + Flip(front, width, rows - 1);
      FlipFront(f, width, rows);
      assert f[width..] == Flip(front, width, rows - 1);
      assert f[..width] == last;
      FlipInvolution(front, width, rows - 1);
      assert front + last == p;
    }
  }

  /** Byte `k` of row `y` of the flipped rows is byte `k` of row `rows - 1 - y` of the
      original: whole rows move, and nothing within a row changes. */
  lemma {:induction false} FlipAt(p: seq<byte>, width: nat, rows: nat, y: nat, k: nat)
    requires |p| == Span(rows, width) && y < rows && k < width
    ensures Span(y, width) + width <= |p| && Span(rows - 1 - y, width) + width <= |p|
    ensures Flip(p, width, rows)[Span(y, width) + k] == p[Span(rows - 1 - y, width) + k]
    decreases rows
  {
    SpanMono(y + 1, rows, width);
    SpanMono(rows - y, rows, width);
    FlipLast(p, width, rows);
    if y == 0 {
      AppendAt(p[|p| - width..], Flip(p[..|p| - width], width, rows - 1), k);
    } else {
      FlipAt(p[..|p| - width], width, rows - 1, y - 1, k);
      assert rows - 1 - 1 - (y - 1) == rows - 1 - y;
      FlipAtGlue(p, width, rows, y, k);
    }
  }

  /** The step of `FlipAt` for a row below the first, given its claim for the rows before
      the last. */
  lemma FlipAtGlue(p: seq<byte>, width: nat, rows: nat, y: nat, k: nat)
    requires |p| == Span(rows, width) && 0 < y < rows && k < width && width <= |p|
    requires |p[..|p| - width]| == Span(rows - 1, width)
    requires Span(y - 1, width) + width <= |p| - width && Span(rows - 1 - y, width) + width <= |p| - width
    requires Flip(p[..|p| - width], width, rows - 1)[Span(y - 1, width) + k]
             == p[..|p| - width][Span(rows - 1 - y, width) + k]
    ensures Span(y, width) + k < |p|
    ensures Flip(p, width, rows)[Span(y, width) + k] == p[Span(rows - 1 - y, width) + k]
  {
    FlipLast(p, width, rows);
    AppendAt(p[|p| - width..], Flip(p[..|p| - width], width, rows - 1), Span(y, width) + k);
    PrefixAt(p, |p| - width, Span(rows - 1 - y, width) + k);
  }

  /** Indexing a concatenation. */
  lemma AppendAt(a: seq<byte>, b: seq<byte>, i: nat)
    requires i < |a| + |b|
    ensures (a + b)[i] == if i < |a| then a[i] else b[i - |a|]
  {
  }

  /** Indexing a prefix. */
  lemma PrefixAt(p: seq<byte>, n: nat, i: nat)
    requires i < n <= |p|
    ensures p[..n][i] == p[i]
  {
  }

  /** `target[at..at + |row|] = row` (`Buffer.copy`), the rest of `target` unchanged. */
  method CopyRow(row: seq<byte>, target: array<byte>, at: nat)
    requires at + |row| <= target.Length
    modifies target
    ensures target[..at] == old(target[..at])
    ensures target[at..at + |row|] == row
    ensures target[at + |row|..] == old(target[at + |row|..])
  {
    forall k | 0 <= k < |row| {
      target[at + k] := row[k];
    }
  }

  /** The flip loop of `createIcoFile`: a fresh buffer of the same length receives source
      row `y` (at `y * size * 4`) at destination row `size - 1 - y`; here `width` is the
      row length `size * 4` and `rows` is `size`. */
  method FlipRows(image: seq<byte>, width: nat, rows: nat) returns (flipped: array<byte>)
    requires |image| == Span(rows, width)
    ensures fresh(flipped) && flipped[..] == Flip(image, width, rows)
  {
    flipped := new byte[|image|];
    var y: nat, src: nat, end: nat := 0, 0, |image|;
    while y < rows
      invariant flipped.Length == |image|
      invariant FlippedSoFar(flipped[..], image, width, rows, y, src, end)
    {
      SpanMono(y + 1, rows, width);
      var dst := end - width;
      ghost var before := flipped[..];
      CopyRow(image[src..src + width], flipped, dst);
      FlipStep(before, flipped[..], image, width, rows, y, src, dst, end);
      y, src, end := y + 1, src + width, dst;
    }
    FlipDone(flipped[..], image, width, rows, src, end);
  }

  /** The invariant of the flip loop: the first `y` source rows, that is the first `src`
      bytes, are flipped into the last rows of `f`, from `end` on. */
  predicate FlippedSoFar(f: seq<byte>, image: seq<byte>, width: nat, rows: nat, y: nat, src: nat, end: nat)
    requires |image| == Span(rows, width)
  {
    y <= rows && src == Span(y, width) && end == Span(rows - y, width)
    && src <= |image| && end <= |f| && f[end..] == Flip(image[..src], width, y)
  }

  /** One pass of the flip loop: source row `y`, copied in front of the rows already
      flipped, extends them by one row. */
  lemma {:induction false} FlipStep(before: seq<byte>, after: seq<byte>, image: seq<byte>, width: nat,
                                    rows: nat, y: nat, src: nat, dst: nat, end: nat)
    requires |image| == Span(rows, width) && y < rows && |after| == |before|
    requires FlippedSoFar(before, image, width, rows, y, src, end) && dst + width == end
    requires src + width <= |image|
    requires after[dst..end] == image[src..src + width] && after[end..] == before[end..]
    ensures FlippedSoFar(after, image, width, rows, y + 1, src + width, dst)
  {
    Joined(after, dst, end, image[src..src + width], before[end..]);
    FlipGrows(image, width, y, src);
  }

  /** When the loop ends every row is flipped into place. */
  lemma FlipDone(f: seq<byte>, image: seq<byte>, width: nat, rows: nat, src: nat, end: nat)
    requires |image| == Span(rows, width) && |f| == |image|
    requires FlippedSoFar(f, image, width, rows, rows, src, end)
    ensures f == Flip(image, width, rows)
  {
    assert image[..src] == image;
    assert f[0..] == f;
  }

  /** A slice made of a freshly written row and the rows after it. */
  lemma Joined(s: seq<byte>, dst: nat, end: nat, row: seq<byte>, rest: seq<byte>)
    requires dst <= end <= |s| && s[dst..end] == row && s[end..] == rest
    ensures s[dst..] == row + rest
  {
    assert s[dst..] == s[dst..end] + s[end..];
  }

  /** One more source row goes in front of the flipped rows. */
  lemma {:induction false} FlipGrows(image: seq<byte>, width: nat, y: nat, src: nat)
    requires src == Span(y, width) && src + width <= |image|
    ensures Flip(image[..src + width], width, y + 1) == image[src..src + width] + Flip(image[..src], width, y)
  {
    var next := image[..src + width];
    assert next[..src] == image[..src];
    assert next[src..] == image[src..src + width];
  }

  // ---- The bitmap of one image ----

  /** The bytes of one AND-mask row: four bytes for every 32 pixels of the row, or part
      of 32. */
  function AndMaskRow(size: nat): nat
    decreases size
  {
    if size == 0 then 0 else if size <= 32 then 4 else AndMaskRow(size - 32) + 4
  }

  /** This is the generator's `Math.ceil(Math.ceil(size / 8) / 4) * 4`. */
  lemma {:induction false} AndMaskRowFormula(size: nat)
    ensures AndMaskRow(size) == ((size + 7) / 8 + 3) / 4 * 4
    decreases size
  {
    if size > 32 {
      AndMaskRowFormula(size - 32);
      var b := (size - 32 + 7) / 8;
      assert (size + 7) / 8 == b + 4;
      assert (b + 4 + 3) / 4 == (b + 3) / 4 + 1;
    }
  }

  /** A mask row is the fewest whole 4-byte words that hold one bit per pixel. */
  lemma {:induction false} AndMaskRowFits(size: nat)
    ensures AndMaskRow(size) % 4 == 0 && 8 * AndMaskRow(size) >= size
    ensures AndMaskRow(size) == 0 || 8 * (AndMaskRow(size) - 4) < size
    decreases size
  {
    if size > 32 {
      AndMaskRowFits(size - 32);
    }
  }

  /** The sizes of the parts of a bitmap whose side is at most 256. */
  lemma {:induction false} PartBounds(size: nat)
    requires size <= 256
    ensures Span(size, 4 * size) <= 262144
    ensures AndMaskRow(size) <= 32 && Span(size, AndMaskRow(size)) <= 8192
  {
    var row := AndMaskRow(size);
    AndMaskRowFormula(size);
    SpanMono(size, 256, 4 * size);
    SpanWidthMono(256, 4 * size, 1024);
    SpanIsProduct(256, 1024);
    SpanMono(size, 256, row);
    SpanWidthMono(256, row, 32);
    SpanIsProduct(256, 32);
  }

  /** The 40-byte BITMAPINFOHEADER: header size 40, width `size`, height `2 * size`
      (colour rows and mask rows), one plane, 32 bits per pixel, no compression, the image
      size in bytes, and zero resolution and palette fields. */
  function BmpInfoHeader(size: nat): (r: seq<byte>)
    requires size <= 256
    ensures |r| == 40
  {
    PartBounds(size);
    Le32(40) + (Le32(size) + (Le32(2 * size) + (Le16(1) + (Le16(32) + (Le32(0)
      + (Le32(Span(size, 4 * size)) + Zeros(16)))))))
  }

  /** The fields of the info header read back as written; the image size is the length
      of a well-formed pixel buffer. */
  lemma {:induction false} BmpInfoHeaderFields(size: nat)
    requires size <= 256
    ensures ReadLe32(BmpInfoHeader(size), 0) == 40
    ensures ReadLe32(BmpInfoHeader(size), 4) == size && ReadLe32(BmpInfoHeader(size), 8) == 2 * size
    ensures ReadLe16(BmpInfoHeader(size), 12) == 1 && ReadLe16(BmpInfoHeader(size), 14) == 32
    ensures ReadLe32(BmpInfoHeader(size), 16) == 0
    ensures ReadLe32(BmpInfoHeader(size), 20) == Span(size, 4 * size)
    ensures BmpInfoHeader(size)[24..] == Zeros(16)
  {
    PartBounds(size);
    var r := BmpInfoHeader(size);
    var f0, f4, f8 := Le32(40), Le32(size), Le32(2 * size);
    var f12, f14, f16, f20 := Le16(1), Le16(32), Le32(0), Le32(Span(size, 4 * size));
    var z := Zeros(16);
    Le32Read(40);
    Le32Read(size);
    Le32Read(2 * size);
    Le16Read(1);
    Le16Read(32);
    Le32Read(0);
    Le32Read(Span(size, 4 * size));
    assert r == f0 + (f4 + (f8 + (f12 + (f14 + (f16 + (f20 + z))))));
    assert r == [] + f0 + (f4 + f8 + f12 + f14 + f16 + f20 + z);
    ReadInContext([], f0, f4 + f8 + f12 + f14 + f16 + f20 + z);
    assert r == f0 + f4 + (f8 + f12 + f14 + f16 + f20 + z);
    ReadInContext(f0, f4, f8 + f12 + f14 + f16 + f20 + z);
    assert r == f0 + f4 + f8 + (f12 + f14 + f16 + f20 + z);
    ReadInContext(f0 + f4, f8, f12 + f14 + f16 + f20 + z);
    assert r == f0 + f4 + f8 + f12 + (f14 + f16 + f20 + z);
    ReadLe16InContext(f0 + f4 + f8, f12, f14 + f16 + f20 + z);
    assert r == f0 + f4 + f8 + f12 + f14 + (f16 + f20 + z);
    ReadLe16InContext(f0 + f4 + f8 + f12, f14, f16 + f20 + z);
    assert r == f0 + f4 + f8 + f12 + f14 + f16 + (f20 + z);
    ReadInContext(f0 + f4 + f8 + f12 + f14, f16, f20 + z);
    assert r == f0 + f4 + f8 + f12 + f14 + f16 + f20 + z;
    ReadInContext(f0 + f4 + f8 + f12 + f14 + f16, f20, z);
    assert r[24..] == z;
  }

  /** The length of the bitmap of a `size` by `size` image. */
  function BitmapLen(size: nat): (r: nat)
    requires size <= 256
    ensures 40 <= r <= 270376
  {
    PartBounds(size);
    40 + Span(size, 4 * size) + Span(size, AndMaskRow(size))
  }

  /** The bitmap length is the header, four bytes per pixel, and one padded mask row per row. */
  lemma {:induction false} BitmapLenFormula(size: nat)
    requires size <= 256
    ensures BitmapLen(size) == 40 + 4 * size * size + AndMaskRow(size) * size
  {
    SpanIsProduct(size, 4 * size);
    SpanIsProduct(size, AndMaskRow(size));
  }

  /** `Buffer.concat([bmpHeader, flippedPixels, andMask])`. */
  function Bitmap(img: Image): (r: seq<byte>)
    requires WellFormed(img) && img.size <= 256
    ensures |r| == BitmapLen(img.size)
  {
    BmpInfoHeader(img.size)
      + (Flip(img.pixels, 4 * img.size, img.size) + Zeros(Span(img.size, AndMaskRow(img.size))))
  }

  /** A bitmap starts with the info header and ends with the mask, all zero. */
  lemma {:induction false} BitmapLayout(img: Image)
    requires WellFormed(img) && img.size <= 256
    ensures Bitmap(img)[..40] == BmpInfoHeader(img.size)
    ensures forall j :: 40 + |img.pixels| <= j < |Bitmap(img)| ==> Bitmap(img)[j] == 0
  {
    var size := img.size;
    var h, f, z := BmpInfoHeader(size), Flip(img.pixels, 4 * size, size), Zeros(Span(size, AndMaskRow(size)));
    var b := Bitmap(img);
    assert b == h + (f + z);
    forall j | 40 + |img.pixels| <= j < |b|
      ensures b[j] == 0
    {
      assert b[j] == z[j - 40 - |f|];
    }
  }

  /** Between header and mask, row `y` of the pixel area is row `size - 1 - y` of the
      image. */
  lemma {:induction false} BitmapRows(img: Image, y: nat, k: nat)
    requires WellFormed(img) && img.size <= 256 && y < img.size && k < 4 * img.size
    ensures Span(y, 4 * img.size) + k < |img.pixels| && Span(img.size - 1 - y, 4 * img.size) + k < |img.pixels|
    ensures Bitmap(img)[40 + Span(y, 4 * img.size) + k] == img.pixels[Span(img.size - 1 - y, 4 * img.size) + k]
  {
    var size := img.size;
    var h, f, z := BmpInfoHeader(size), Flip(img.pixels, 4 * size, size), Zeros(Span(size, AndMaskRow(size)));
    assert Bitmap(img) == h + (f + z);
    FlipAt(img.pixels, 4 * size, size, y, k);
  }

  // ---- Header and directory ----

  /** The 6-byte ICO header: reserved 0, type 1 (icon), number of images. */
  function IcoHeader(count: nat): (r: seq<byte>)
    requires count < TWO16
    ensures |r| == 6
  {
    Le16(0) + Le16(1) + Le16(count)
  }

  lemma {:induction false} IcoHeaderFields(count: nat)
    requires count < TWO16
    ensures ReadLe16(IcoHeader(count), 0) == 0 && ReadLe16(IcoHeader(count), 2) == 1
    ensures ReadLe16(IcoHeader(count), 4) == count
  {
    Le16Read(0);
    Le16Read(1);
    Le16Read(count);
    assert IcoHeader(count)[4..] == Le16(count);
  }

  /** The width and height byte of a directory entry: 0 stands for 256. */
  function SizeByte(size: nat): (r: byte)
    requires size <= 256
    ensures r == 0 <==> size == 0 || size == 256
    ensures size < 256 ==> r == size
  {
    if size == 256 then 0 else size
  }

  /** A 16-byte directory entry: width and height bytes, no palette, reserved 0, one
      plane, 32 bits per pixel, the bitmap's length and its offset in the file. */
  function DirEntry(size: nat, len: nat, offset: nat): (r: seq<byte>)
    requires size <= 256 && len < TWO32 && offset < TWO32
    ensures |r| == 16
  {
    var b := SizeByte(size);
    [b, b, 0, 0] + (Le16(1) + (Le16(32) + (Le32(len) + Le32(offset))))
  }

  lemma {:induction false} DirEntryFields(size: nat, len: nat, offset: nat)
    requires size <= 256 && len < TWO32 && offset < TWO32
    ensures var r := DirEntry(size, len, offset);
      r[0] == SizeByte(size) && r[1] == SizeByte(size) && r[2] == 0 && r[3] == 0
      && ReadLe16(r, 4) == 1 && ReadLe16(r, 6) == 32
      && ReadLe32(r, 8) == len && ReadLe32(r, 12) == offset
  {
    var r := DirEntry(size, len, offset);
    var l, o := Le32(len), Le32(offset);
    Le16Read(1);
    Le16Read(32);
    Le32Read(len);
    Le32Read(offset);
    assert r[8..12] == l && r[12..] == o;
  }

  // ---- The file ----

  /** Where directory entry `i` starts, after the 6-byte header; entry `n` of an
      `n`-image file is where the first bitmap starts (`6 + images.length * dirEntrySize`). */
  function EntryOffset(i: nat): nat {
    6 + 16 * i
  }

  predicate AllWellFormed(images: seq<Image>) {
    forall i :: 0 <= i < |images| ==> WellFormed(images[i])
  }

  /** Every size fits the one-byte width field (`writeUInt8` throws above 255; 256 is written as 0). */
  predicate SizesFit(images: seq<Image>) {
    forall i :: 0 <= i < |images| ==> images[i].size <= 256
  }

  function BitmapLens(images: seq<Image>): (r: seq<nat>)
    requires SizesFit(images)
    ensures |r| == |images| && forall i :: 0 <= i < |images| ==> r[i] == BitmapLen(images[i].size)
  {
    if images == [] then []
    else BitmapLens(images[..|images| - 1]) + [BitmapLen(images[|images| - 1].size)]
  }

  /** The offset of each image's bitmap: the first right after the directory, at
      `6 + 16 * n`, each later one after the previous bitmap. */
  function DataStarts(images: seq<Image>): (r: seq<nat>)
    requires SizesFit(images)
    ensures |r| == |images|
  {
    Starts(BitmapLens(images), EntryOffset(|images|))
  }

  /** Every offset fits its 32-bit field (`writeUInt32LE` throws otherwise). */
  predicate OffsetsFit(images: seq<Image>)
    requires SizesFit(images)
  {
    forall i :: 0 <= i < |images| ==> DataStarts(images)[i] < TWO32
  }

  /** The directory entries of `images` whose bitmaps start at `starts`. */
  function Entries(images: seq<Image>, starts: seq<nat>): (r: seq<seq<byte>>)
    requires SizesFit(images) && |starts| == |images|
    requires forall i :: 0 <= i < |starts| ==> starts[i] < TWO32
    ensures |r| == |images|
  {
    if images == [] then []
    else
      var last := |images| - 1;
      Entries(images[..last], starts[..last]) + [DirEntry(images[last].size, BitmapLen(images[last].size), starts[last])]
  }

  function Directory(images: seq<Image>): (r: seq<seq<byte>>)
    requires SizesFit(images) && OffsetsFit(images)
    ensures |r| == |images|
  {
    Entries(images, DataStarts(images))
  }

  function Bitmaps(images: seq<Image>): (r: seq<seq<byte>>)
    requires AllWellFormed(images) && SizesFit(images)
    ensures |r| == |images|
  {
    if images == [] then [] else Bitmaps(images[..|images| - 1]) + [Bitmap(images[|images| - 1])]
  }

  /** The icon file, or `None` where one of the generator's buffer writes throws: more than
      65535 images, a size above 256, or an offset beyond 32 bits. */
  function IcoBytes(images: seq<Image>): Option<seq<byte>>
    requires AllWellFormed(images)
  {
    if |images| >= TWO16 || !SizesFit(images) || !OffsetsFit(images) then None
    else Some(IcoHeader(|images|) + Concat(Directory(images)) + Concat(Bitmaps(images)))
  }

  /** The bitmap lengths are the lengths of the bitmaps. */
  lemma {:induction false} BitmapLengths(images: seq<Image>)
    requires AllWellFormed(images) && SizesFit(images)
    ensures Lengths(Bitmaps(images)) == BitmapLens(images)
  {
    forall k | 0 <= k < |images|
      ensures |Bitmaps(images)[k]| == BitmapLen(images[k].size)
    {
      BitmapsAt(images, k);
    }
  }

  /** Every directory entry is 16 bytes long. */
  lemma {:induction false} DirectoryWidths(images: seq<Image>)
    requires SizesFit(images) && OffsetsFit(images)
    ensures forall k :: 0 <= k < |images| ==> |Directory(images)[k]| == 16
  {
    forall k | 0 <= k < |images|
      ensures |Directory(images)[k]| == 16
    {
      EntriesAt(images, DataStarts(images), k);
    }
  }

  /** Entry `i` of a 16-byte-entry directory after a 6-byte header. */
  lemma {:induction false} EntryInFile(header: seq<byte>, dirs: seq<seq<byte>>, maps: seq<seq<byte>>, i: nat)
    requires |header| == 6 && i < |dirs| && forall k :: 0 <= k < |dirs| ==> |dirs[k]| == 16
    ensures EntryOffset(i) + 16 <= |header + Concat(dirs) + Concat(maps)|
    ensures (header + Concat(dirs) + Concat(maps))[EntryOffset(i)..EntryOffset(i) + 16] == dirs[i]
  {
    SpanIsProduct(i, 16);
    EntryAt(header, dirs, maps, 16, i, EntryOffset(i));
  }

  /** Bitmap `i` after a 6-byte header and `n` 16-byte entries starts at the `i`-th offset. */
  lemma {:induction false} BitmapInFile(file: seq<byte>, header: seq<byte>, dirs: seq<seq<byte>>, maps: seq<seq<byte>>,
                     lens: seq<nat>, starts: seq<nat>, i: nat)
    requires file == header + Concat(dirs) + Concat(maps)
    requires |header| == 6 && forall k :: 0 <= k < |dirs| ==> |dirs[k]| == 16
    requires Lengths(maps) == lens && i < |maps| && starts == Starts(lens, EntryOffset(|dirs|))
    ensures starts[i] + lens[i] <= |file| && file[starts[i]..starts[i] + lens[i]] == maps[i]
  {
    SpanIsProduct(|dirs|, 16);
    StartsAt(lens, EntryOffset(|dirs|), i);
    BodyAt(header, dirs, maps, 16, i, starts[i]);
  }

  /** The length of a file of that shape. */
  lemma {:induction false} FileLengthOf(header: seq<byte>, dirs: seq<seq<byte>>, maps: seq<seq<byte>>, lens: seq<nat>)
    requires |header| == 6 && forall k :: 0 <= k < |dirs| ==> |dirs[k]| == 16
    requires Lengths(maps) == lens
    ensures |header + Concat(dirs) + Concat(maps)| == EntryOffset(|dirs|) + Sum(lens)
    ensures |lens| > 0 ==>
      |header + Concat(dirs) + Concat(maps)| == Starts(lens, EntryOffset(|dirs|))[|lens| - 1] + lens[|lens| - 1]
  {
    SpanIsProduct(|dirs|, 16);
    FileLength(header, dirs, maps, 16);
    var n := |lens|;
    if n > 0 {
      StartsAt(lens, EntryOffset(|dirs|), n - 1);
      SumSnoc(lens, n - 1);
      assert lens[..n] == lens;
    }
  }

  /** The header of the file: type 1, and the image count. */
  lemma {:induction false} IcoHeaderOf(images: seq<Image>)
    requires AllWellFormed(images) && IcoBytes(images).Some?
    ensures |IcoBytes(images).value| >= 6
    ensures ReadLe16(IcoBytes(images).value, 2) == 1 && ReadLe16(IcoBytes(images).value, 4) == |images|
  {
    var file := IcoBytes(images).value;
    IcoHeaderFields(|images|);
    assert file[..6] == IcoHeader(|images|);
  }

  /** Reading the file back: entry `i` of the directory sits at `6 + 16 * i` and names the
      size, the length and the offset of bitmap `i`. */
  lemma {:induction false} IcoEntryAt(images: seq<Image>, i: nat)
    requires AllWellFormed(images) && IcoBytes(images).Some? && i < |images|
    ensures EntryOffset(i) + 16 <= |IcoBytes(images).value|
    ensures IcoBytes(images).value[EntryOffset(i)..EntryOffset(i) + 16]
         == DirEntry(images[i].size, BitmapLens(images)[i], DataStarts(images)[i])
  {
    DirectoryWidths(images);
    EntryInFile(IcoHeader(|images|), Directory(images), Bitmaps(images), i);
    DirectoryAt(images, i);
  }

  /** ... and the bytes at that offset are bitmap `i`. */
  lemma {:induction false} IcoBitmapAt(images: seq<Image>, i: nat)
    requires AllWellFormed(images) && IcoBytes(images).Some? && i < |images|
    ensures DataStarts(images)[i] + BitmapLens(images)[i] <= |IcoBytes(images).value|
    ensures IcoBytes(images).value[DataStarts(images)[i]..DataStarts(images)[i] + BitmapLens(images)[i]]
         == Bitmaps(images)[i]
  {
    DirectoryWidths(images);
    BitmapLengths(images);
    BitmapInFile(IcoBytes(images).value, IcoHeader(|images|), Directory(images), Bitmaps(images),
                 BitmapLens(images), DataStarts(images), i);
  }

  lemma {:induction false} DirectoryAt(images: seq<Image>, i: nat)
    requires SizesFit(images) && OffsetsFit(images) && i < |images|
    ensures Directory(images)[i] == DirEntry(images[i].size, BitmapLens(images)[i], DataStarts(images)[i])
  {
    EntriesAt(images, DataStarts(images), i);
  }

  lemma {:induction false} EntriesAt(images: seq<Image>, starts: seq<nat>, i: nat)
    requires SizesFit(images) && |starts| == |images| && i < |images|
    requires forall k :: 0 <= k < |starts| ==> starts[k] < TWO32
    ensures Entries(images, starts)[i] == DirEntry(images[i].size, BitmapLen(images[i].size), starts[i])
    decreases |images|
  {
    var last := |images| - 1;
    var pre, early := images[..last], starts[..last];
    var entry := DirEntry(images[last].size, BitmapLen(images[last].size), starts[last]);
    var all, front := Entries(images, starts), Entries(pre, early);
    assert all == front + [entry];
    if i < last {
      EntriesAt(pre, early, i);
      assert pre[i] == images[i] && early[i] == starts[i];
      assert all[i] == front[i];
    } else {
      assert all[i] == entry;
    }
  }

  lemma {:induction false} BitmapsAt(images: seq<Image>, i: nat)
    requires AllWellFormed(images) && SizesFit(images) && i < |images|
    ensures Bitmaps(images)[i] == Bitmap(images[i])
    decreases |images|
  {
    var last := |images| - 1;
    if i < last {
      BitmapsAt(images[..last], i);
    }
  }

  /** The file is the header, the directory and all bitmaps; with at least one image it ends
      where the last bitmap ends. */
  lemma {:induction false} IcoLength(images: seq<Image>)
    requires AllWellFormed(images) && IcoBytes(images).Some?
    ensures |IcoBytes(images).value| == EntryOffset(|images|) + Sum(BitmapLens(images))
    ensures |images| > 0 ==>
      |IcoBytes(images).value| == DataStarts(images)[|images| - 1] + BitmapLens(images)[|images| - 1]
  {
    DirectoryWidths(images);
    BitmapLengths(images);
    FileLengthOf(IcoHeader(|images|), Directory(images), Bitmaps(images), BitmapLens(images));
  }

  /** The offsets: the first is `6 + 16 * n`, and each next one is the previous plus the
      previous bitmap's length, so they increase strictly. */
  lemma {:induction false} DataStartsChain(images: seq<Image>, i: nat)
    requires SizesFit(images) && i < |images|
    ensures i == 0 ==> DataStarts(images)[0] == EntryOffset(|images|)
    ensures i + 1 < |images| ==> DataStarts(images)[i + 1] == DataStarts(images)[i] + BitmapLens(images)[i]
    ensures i + 1 < |images| ==> DataStarts(images)[i] < DataStarts(images)[i + 1]
  {
    var lens := BitmapLens(images);
    StartsAt(lens, EntryOffset(|images|), 0);
    if i + 1 < |images| {
      StartsStep(lens, EntryOffset(|images|), i);
    }
  }

  /** `createIcoFile` from the images on: the header, each image's bitmap (info header,
      flipped rows, AND mask) and directory entry with the running `dataOffset`, then one
      concatenation. The file's bytes are returned instead of written; a buffer write that
      throws gives `None`. The size and offset checks come before the bitmap is built,
      where the generator builds it first and then fails on the same write; no code after
      the failing write has an effect the model can see. */
  method CreateIcoFile(images: seq<Image>) returns (ico: Option<seq<byte>>)
    requires AllWellFormed(images)
    ensures ico == IcoBytes(images)
  {
    var n := |images|;
    if n >= TWO16 {
      return None;
    }
    var header := IcoHeader(n);
    var dataOffset: nat := 6 + n * 16;
    var directories: seq<seq<byte>> := [];
    var bitmaps: seq<seq<byte>> := [];
    ghost var offsets: seq<nat> := [];
    for i := 0 to n
      invariant Built(images, i, bitmaps, offsets, directories, dataOffset)
    {
      var img := images[i];
      if img.size > 256 {
        return None;
      }
      if dataOffset >= TWO32 {
        OffsetTooLarge(images, i);
        return None;
      }
      var bitmap := BuildBitmap(img);
      var dir := DirEntry(img.size, |bitmap|, dataOffset);
      LoopStep(images, i, bitmaps, offsets, directories, dataOffset, bitmap, dir);
      directories := directories + [dir];
      bitmaps := bitmaps + [bitmap];
      offsets := offsets + [dataOffset];
      dataOffset := dataOffset + |bitmap|;
    }
    assert images[..n] == images;
    ico := Some(header + Concat(directories) + Concat(bitmaps));
  }

  /** What `createIcoFile` has built after `i` images: their bitmaps, their offsets, their
      directory entries and the running offset. */
  predicate Built(images: seq<Image>, i: nat, bitmaps: seq<seq<byte>>, offsets: seq<nat>,
                  directories: seq<seq<byte>>, dataOffset: nat)
    requires i <= |images|
  {
    && AllWellFormed(images[..i]) && SizesFit(images[..i])
    && bitmaps == Bitmaps(images[..i])
    && offsets == Starts(BitmapLens(images[..i]), EntryOffset(|images|))
    && (forall j :: 0 <= j < i ==> offsets[j] < TWO32)
    && directories == Entries(images[..i], offsets)
    && dataOffset == EntryOffset(|images|) + Sum(BitmapLens(images[..i]))
  }

  /** One turn of the loop keeps `Built`. */
  lemma {:induction false} LoopStep(images: seq<Image>, i: nat, bitmaps: seq<seq<byte>>, offsets: seq<nat>,
                                    directories: seq<seq<byte>>, dataOffset: nat,
                                    bitmap: seq<byte>, dir: seq<byte>)
    requires AllWellFormed(images) && i < |images| && images[i].size <= 256 && dataOffset < TWO32
    requires Built(images, i, bitmaps, offsets, directories, dataOffset)
    requires bitmap == Bitmap(images[i]) && dir == DirEntry(images[i].size, |bitmap|, dataOffset)
    ensures Built(images, i + 1, bitmaps + [bitmap], offsets + [dataOffset], directories + [dir],
                  dataOffset + |bitmap|)
  {
    PrefixFits(images, i);
    BitmapLensSnoc(images, i);
    BitmapsSnoc(images, i);
    EntriesSnoc(images, i, offsets, dataOffset);
    OffsetStep(BitmapLens(images[..i]), |bitmap|, BitmapLens(images[..i + 1]), EntryOffset(|images|), offsets, dataOffset);
    var grown := offsets + [dataOffset];
    forall j | 0 <= j < i + 1
      ensures grown[j] < TWO32
    {
      if j < i {
        assert grown[j] == offsets[j];
      }
    }
  }

  // Adding image `i` to the first `i` images adds its entry at the end of each list.

  lemma {:induction false} PrefixFits(images: seq<Image>, i: nat)
    requires AllWellFormed(images) && i < |images| && images[i].size <= 256 && SizesFit(images[..i])
    ensures AllWellFormed(images[..i + 1]) && SizesFit(images[..i + 1])
  {
    assert forall j :: 0 <= j < i ==> images[..i + 1][j] == images[..i][j];
  }

  lemma {:induction false} BitmapLensSnoc(images: seq<Image>, i: nat)
    requires i < |images| && SizesFit(images[..i + 1])
    ensures BitmapLens(images[..i + 1]) == BitmapLens(images[..i]) + [BitmapLen(images[i].size)]
  {
    assert images[..i + 1][..i] == images[..i];
  }

  lemma {:induction false} BitmapsSnoc(images: seq<Image>, i: nat)
    requires i < |images| && AllWellFormed(images[..i + 1]) && SizesFit(images[..i + 1])
    ensures Bitmaps(images[..i + 1]) == Bitmaps(images[..i]) + [Bitmap(images[i])]
  {
    assert images[..i + 1][..i] == images[..i];
  }

  lemma {:induction false} EntriesSnoc(images: seq<Image>, i: nat, offsets: seq<nat>, offset: nat)
    requires i < |images| && SizesFit(images[..i + 1]) && |offsets| == i && offset < TWO32
    requires forall j :: 0 <= j < i ==> offsets[j] < TWO32
    ensures Entries(images[..i + 1], offsets + [offset])
         == Entries(images[..i], offsets) + [DirEntry(images[i].size, BitmapLen(images[i].size), offset)]
  {
    assert images[..i + 1][..i] == images[..i];
    assert (offsets + [offset])[..i] == offsets;
  }

  /** An offset beyond 32 bits at image `i` makes the whole file fail. */
  lemma {:induction false} OffsetTooLarge(images: seq<Image>, i: nat)
    requires i < |images| && SizesFit(images[..i])
    requires EntryOffset(|images|) + Sum(BitmapLens(images[..i])) >= TWO32
    ensures SizesFit(images) ==> !OffsetsFit(images)
  {
    if SizesFit(images) {
      var all := BitmapLens(images);
      assert all[..i] == BitmapLens(images[..i]);
      StartsAt(all, EntryOffset(|images|), i);
      assert DataStarts(images)[i] >= TWO32;
    }
  }

  /** One image's bitmap, built as the generator builds it. */
  method BuildBitmap(img: Image) returns (bitmap: seq<byte>)
    requires WellFormed(img) && img.size <= 256
    ensures bitmap == Bitmap(img)
  {
    var size := img.size;
    var bmpHeader := BmpInfoHeader(size);
    var flippedPixels := FlipRows(img.pixels, size * 4, size);
    var andMaskRowSize := (size + 7) / 8;
    var andMaskRowPadded := (andMaskRowSize + 3) / 4 * 4;
    AndMaskRowFormula(size);
    SpanIsProduct(size, andMaskRowPadded);
    var andMask := Zeros(andMaskRowPadded * size);
    bitmap := bmpHeader + (flippedPixels[..] + andMask);
  }

  /** The bitmap lengths of the six icon sizes. */
  lemma {:induction false} IconBitmapLens()
    ensures BitmapLen(256) == 270376 && BitmapLen(128) == 67624 && BitmapLen(64) == 16936
    ensures BitmapLen(48) == 9640 && BitmapLen(32) == 4264 && BitmapLen(16) == 1128
  {
    BitmapLenFormula(256);
    AndMaskRowFormula(256);
    BitmapLenFormula(128);
    AndMaskRowFormula(128);
    BitmapLenFormula(64);
    AndMaskRowFormula(64);
    BitmapLenFormula(48);
    AndMaskRowFormula(48);
    BitmapLenFormula(32);
    AndMaskRowFormula(32);
    BitmapLenFormula(16);
    AndMaskRowFormula(16);
  }

  /** The offsets of the six icon sizes: the bitmaps together take 369968 bytes, and the
      first one starts at 102. */
  lemma {:induction false} IconOffsets(images: seq<Image>)
    requires |images| == 6 && SizesFit(images)
    requires images[0].size == 256 && images[1].size == 128 && images[2].size == 64
    requires images[3].size == 48 && images[4].size == 32 && images[5].size == 16
    ensures Sum(BitmapLens(images)) == 369968 && DataStarts(images)[0] == 102
    ensures forall i :: 0 <= i < 6 ==> DataStarts(images)[i] < TWO32
  {
    var lens := BitmapLens(images);
    IconBitmapLens();
    SumSnoc(lens, 0);
    SumSnoc(lens, 1);
    SumSnoc(lens, 2);
    SumSnoc(lens, 3);
    SumSnoc(lens, 4);
    SumSnoc(lens, 5);
    assert lens[..0] == [] && lens[..6] == lens;
    forall i | 0 <= i < 6
      ensures DataStarts(images)[i] < TWO32
    {
      StartsAt(lens, 102, i);
      SumPrefix(lens, i);
    }
    StartsAt(lens, 102, 0);
  }

  /** The six images of `icon.ico` encode without error: 370070 bytes, the first bitmap at
      offset 102. */
  lemma {:induction false} StandardIcon(images: seq<Image>)
    requires AllWellFormed(images) && |images| == |IconSizes|
    requires forall i :: 0 <= i < |images| ==> images[i].size == IconSizes[i]
    ensures IcoBytes(images).Some?
    ensures |IcoBytes(images).value| == 370070 && DataStarts(images)[0] == 102
  {
    assert SizesFit(images);
    assert images[0].size == 256 && images[1].size == 128 && images[2].size == 64;
    assert images[3].size == 48 && images[4].size == 32 && images[5].size == 16;
    IconOffsets(images);
    assert OffsetsFit(images);
    assert IcoBytes(images).Some?;
    IcoLength(images);
  }
}
