/** The pixel buffers the icon generator draws into (`generateIconPixels`,
    `generatePngPixels`): `size * size` pixels of four bytes, row by row, all zero at first.
    Drawing goes through bounds-checked pixel writes; the geometry that decides which pixels
    to write and with which colour is floating-point work outside this model. */
module Canvas {
  import opened Bytes

  /** The byte offset of pixel `(x, y)`: `(y * size + x) * 4`, written with `Span` so that
      layout proofs stay linear (`PixelIndexFormula` gives the product form). */
  function PixelIndex(size: nat, x: nat, y: nat): nat {
    Span(y, 4 * size) + 4 * x
  }

  lemma PixelIndexFormula(size: nat, x: nat, y: nat)
    ensures PixelIndex(size, x, y) == (y * size + x) * 4
  {
    SpanIsProduct(y, 4 * size);
  }

  predicate InBounds(size: nat, x: int, y: int) {
    0 <= x < size && 0 <= y < size
  }

  /** A pixel inside the canvas occupies four bytes inside the buffer. */
  lemma PixelFits(size: nat, x: nat, y: nat)
    requires InBounds(size, x, y)
    ensures PixelIndex(size, x, y) + 4 <= Span(size, 4 * size)
  {
    SpanMono(y + 1, size, 4 * size);
  }

  /** Distinct pixels occupy disjoint bytes. */
  lemma PixelsDisjoint(size: nat, x1: nat, y1: nat, x2: nat, y2: nat)
    requires InBounds(size, x1, y1) && InBounds(size, x2, y2) && (x1, y1) != (x2, y2)
    ensures PixelIndex(size, x1, y1) + 4 <= PixelIndex(size, x2, y2)
         || PixelIndex(size, x2, y2) + 4 <= PixelIndex(size, x1, y1)
  {
    if y1 < y2 {
      SpanMono(y1 + 1, y2, 4 * size);
    } else if y2 < y1 {
      SpanMono(y2 + 1, y1, 4 * size);
    }
  }

  /** Four channel values as a `Buffer` stores them: each reduced modulo 256. */
  function Quad(c0: int, c1: int, c2: int, c3: int): (q: seq<byte>)
    ensures |q| == 4
  {
    [c0 % 256, c1 % 256, c2 % 256, c3 % 256]
  }

  /** The buffer `s` after writing the four bytes `quad` at pixel `(x, y)`; a pixel outside
      the canvas leaves it as it was. */
  function Painted(s: seq<byte>, size: nat, x: int, y: int, quad: seq<byte>): (r: seq<byte>)
    requires |s| == Span(size, 4 * size) && |quad| == 4
    ensures |r| == |s|
  {
    if InBounds(size, x, y) then
      var i := PixelIndex(size, x, y);
      PixelFits(size, x, y);
      s[..i] + quad + s[i + 4..]
    else
      s
  }

  /** Byte by byte: the four bytes of an in-bounds pixel hold `quad`, every other byte is
      unchanged. */
  lemma PaintedBytes(s: seq<byte>, size: nat, x: int, y: int, quad: seq<byte>, j: nat)
    requires |s| == Span(size, 4 * size) && |quad| == 4 && j < |s|
    ensures InBounds(size, x, y) && PixelIndex(size, x, y) <= j < PixelIndex(size, x, y) + 4 ==>
              Painted(s, size, x, y, quad)[j] == quad[j - PixelIndex(size, x, y)]
    ensures !(InBounds(size, x, y) && PixelIndex(size, x, y) <= j < PixelIndex(size, x, y) + 4) ==>
              Painted(s, size, x, y, quad)[j] == s[j]
  {
    if InBounds(size, x, y) {
      PixelFits(size, x, y);
    }
  }

  /** Writing the same pixel twice keeps only the second write. */
  lemma PaintedTwice(s: seq<byte>, size: nat, x: int, y: int, q1: seq<byte>, q2: seq<byte>)
    requires |s| == Span(size, 4 * size) && |q1| == 4 && |q2| == 4
    ensures Painted(Painted(s, size, x, y, q1), size, x, y, q2) == Painted(s, size, x, y, q2)
  {
    var t := Painted(s, size, x, y, q1);
    var l, r := Painted(t, size, x, y, q2), Painted(s, size, x, y, q2);
    forall j | 0 <= j < |s|
      ensures l[j] == r[j]
    {
      PaintedBytes(s, size, x, y, q1, j);
      PaintedBytes(t, size, x, y, q2, j);
      PaintedBytes(s, size, x, y, q2, j);
    }
  }

  /** Writes to two different pixels can be done in either order. */
  lemma PaintedCommute(s: seq<byte>, size: nat, x1: int, y1: int, q1: seq<byte>, x2: int, y2: int, q2: seq<byte>)
    requires |s| == Span(size, 4 * size) && |q1| == 4 && |q2| == 4 && (x1, y1) != (x2, y2)
    ensures Painted(Painted(s, size, x1, y1, q1), size, x2, y2, q2)
         == Painted(Painted(s, size, x2, y2, q2), size, x1, y1, q1)
  {
    var a, b := Painted(s, size, x1, y1, q1), Painted(s, size, x2, y2, q2);
    var l, r := Painted(a, size, x2, y2, q2), Painted(b, size, x1, y1, q1);
    if InBounds(size, x1, y1) && InBounds(size, x2, y2) {
      PixelsDisjoint(size, x1, y1, x2, y2);
    }
    forall j | 0 <= j < |s|
      ensures l[j] == r[j]
    {
      PaintedBytes(s, size, x1, y1, q1, j);
      PaintedBytes(a, size, x2, y2, q2, j);
      PaintedBytes(s, size, x2, y2, q2, j);
      PaintedBytes(b, size, x1, y1, q1, j);
    }
  }

  /** A pixel buffer and its side length. */
  class PixelBuffer {
    const size: nat
    const pixels: array<byte>

    ghost predicate Valid()
      reads this
    {
      pixels.Length == Span(size, 4 * size)
    }

    /** `Buffer.alloc(size * size * 4, 0)`. */
    constructor (size: nat)
      ensures Valid() && this.size == size && fresh(pixels)
      ensures forall k :: 0 <= k < pixels.Length ==> pixels[k] == 0
    {
      this.size := size;
      pixels := new byte[Span(size, 4 * size)](_ => 0);
    }

    /** Stores `quad` at pixel `(x, y)` when it lies inside the canvas. */
    method Write(x: int, y: int, quad: seq<byte>)
      requires Valid() && |quad| == 4
      modifies pixels
      ensures pixels[..] == Painted(old(pixels[..]), size, x, y, quad)
    {
      if InBounds(size, x, y) {
        var i := PixelIndex(size, x, y);
        PixelFits(size, x, y);
        ghost var before := pixels[..];
        pixels[i] := quad[0];
        pixels[i + 1] := quad[1];
        pixels[i + 2] := quad[2];
        pixels[i + 3] := quad[3];
        assert pixels[..] == before[..i] + quad + before[i + 4..];
      }
    }

    /** `setPixel` of `generateIconPixels`: the channels in B, G, R, A order, as ICO
        bitmaps store them. */
    method SetPixel(x: int, y: int, r: int, g: int, b: int, a: int)
      requires Valid()
      modifies pixels
      ensures pixels[..] == Painted(old(pixels[..]), size, x, y, Quad(b, g, r, a))
    {
      Write(x, y, Quad(b, g, r, a));
    }

    /** `setPixelRGBA` of `generateIconPixels`, and `setPixel` of `generatePngPixels`: the
        channels in R, G, B, A order, as PNG stores them. */
    method SetPixelRGBA(x: int, y: int, r: int, g: int, b: int, a: int)
      requires Valid()
      modifies pixels
      ensures pixels[..] == Painted(old(pixels[..]), size, x, y, Quad(r, g, b, a))
    {
      Write(x, y, Quad(r, g, b, a));
    }
  }
}
