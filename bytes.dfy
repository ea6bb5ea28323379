/** Bytes and the fixed-width integer fields of Node's `Buffer` (`writeUInt16LE`,
    `writeUInt32LE`, `writeUInt32BE`, ...). A write of a value outside the field's range
    throws in Node; the encoders here require the value to be in range and the callers
    model the throwing case. */
module Bytes {

  type byte = x: int | 0 <= x < 256

  /** An unsigned 32-bit value: an entry of a `Uint32Array`, or the unsigned view (`>>> 0`)
      of a JavaScript 32-bit bitwise result. */
  type uint32 = x: int | 0 <= x < 0x1_0000_0000

  const TWO16: int := 0x1_0000
  const TWO32: int := 0x1_0000_0000

  /** `writeUInt32BE(n)`: four bytes, most significant first. */
  function Be32(n: nat): (r: seq<byte>)
    requires n < TWO32
    ensures |r| == 4
  {
    var q1 := n / 256;
    var q2 := q1 / 256;
    [q2 / 256, q2 % 256, q1 % 256, n % 256]
  }

  /** `readUInt32BE(at)`. */
  function ReadBe32(s: seq<byte>, at: nat): nat
    requires at + 4 <= |s|
  {
    s[at] as int * 0x100_0000 + s[at + 1] as int * 0x1_0000 + s[at + 2] as int * 256 + s[at + 3] as int
  }

  /** `writeUInt16LE(n)`: two bytes, least significant first. */
  function Le16(n: nat): (r: seq<byte>)
    requires n < TWO16
    ensures |r| == 2
  {
    [n % 256, n / 256]
  }

  /** `readUInt16LE(at)`. */
  function ReadLe16(s: seq<byte>, at: nat): nat
    requires at + 2 <= |s|
  {
    s[at] as int + s[at + 1] as int * 256
  }

  /** `writeUInt32LE(n)`, and `writeInt32LE(n)` for a non-negative `n` below 2^31. */
  function Le32(n: nat): (r: seq<byte>)
    requires n < TWO32
    ensures |r| == 4
  {
    var q1 := n / 256;
    var q2 := q1 / 256;
    [n % 256, q1 % 256, q2 % 256, q2 / 256]
  }

  /** `readUInt32LE(at)`. */
  function ReadLe32(s: seq<byte>, at: nat): nat
    requires at + 4 <= |s|
  {
    s[at] as int + s[at + 1] as int * 256 + s[at + 2] as int * 0x1_0000 + s[at + 3] as int * 0x100_0000
  }

  /** Each field reads back the value written into it. */
  lemma Be32Read(n: nat)
    requires n < TWO32
    ensures ReadBe32(Be32(n), 0) == n
  {
  }

  lemma Le16Read(n: nat)
    requires n < TWO16
    ensures ReadLe16(Le16(n), 0) == n
  {
  }

  lemma Le32Read(n: nat)
    requires n < TWO32
    ensures ReadLe32(Le32(n), 0) == n
  {
  }

  /** Reading a field does not depend on what precedes or follows it. */
  lemma ReadInContext(a: seq<byte>, field: seq<byte>, b: seq<byte>)
    requires |field| == 4
    ensures ReadBe32(a + field + b, |a|) == ReadBe32(field, 0)
    ensures ReadLe32(a + field + b, |a|) == ReadLe32(field, 0)
  {
    var s := a + field + b;
    assert s[|a|..|a| + 4] == field;
    assert s[|a|] == field[0] && s[|a| + 1] == field[1] && s[|a| + 2] == field[2] && s[|a| + 3] == field[3];
  }

  /** The same for a 2-byte field. */
  lemma ReadLe16InContext(a: seq<byte>, field: seq<byte>, b: seq<byte>)
    requires |field| == 2
    ensures ReadLe16(a + field + b, |a|) == ReadLe16(field, 0)
  {
    var s := a + field + b;
    assert s[|a|] == field[0] && s[|a| + 1] == field[1];
  }

  /** The 8-bit code units of a string whose characters are all ASCII: `Buffer.from(s)`
      for such a string (UTF-8 coincides with ASCII there). */
  function Ascii(s: string): (r: seq<byte>)
    requires forall k :: 0 <= k < |s| ==> s[k] as int < 128
    ensures |r| == |s| && forall k :: 0 <= k < |s| ==> r[k] == s[k] as int
  {
    if s == [] then [] else [s[0] as int] + Ascii(s[1..])
  }

  /** `n` zero bytes: `Buffer.alloc(n, 0)`. */
  function Zeros(n: nat): (r: seq<byte>)
    ensures |r| == n && forall k :: 0 <= k < n ==> r[k] == 0
  {
    seq(n, _ => 0)
  }

  // ---- Offsets of equal-sized rows ----

  /** The offset of row `count` when every row is `width` bytes long. Defined by repeated
      addition so that layout proofs stay linear; `SpanIsProduct` relates it to `count * width`. */
  function Span(count: nat, width: nat): nat {
    if count == 0 then 0 else Span(count - 1, width) + width
  }

  lemma {:induction false} SpanIsProduct(count: nat, width: nat)
    ensures Span(count, width) == count * width
  {
    if count > 0 {
      SpanIsProduct(count - 1, width);
      assert count * width == (count - 1) * width + width;
    }
  }

  /** One more byte per row moves row `count` by `count` bytes. */
  lemma {:induction false} SpanWider(count: nat, width: nat)
    ensures Span(count, width + 1) == Span(count, width) + count
  {
    if count > 0 {
      SpanWider(count - 1, width);
    }
  }

  /** `a` rows followed by `b` rows take as many bytes as `a + b` rows. */
  lemma {:induction false} SpanSplit(a: nat, b: nat, width: nat)
    ensures Span(a + b, width) == Span(a, width) + Span(b, width)
    decreases b
  {
    if b > 0 {
      SpanSplit(a, b - 1, width);
    }
  }

  /** Earlier rows start no later. */
  lemma {:induction false} SpanMono(a: nat, b: nat, width: nat)
    requires a <= b
    ensures Span(a, width) <= Span(b, width)
    decreases b
  {
    if a < b {
      SpanMono(a, b - 1, width);
    }
  }

  /** Wider rows start no earlier. */
  lemma {:induction false} SpanWidthMono(count: nat, w1: nat, w2: nat)
    requires w1 <= w2
    ensures Span(count, w1) <= Span(count, w2)
  {
    if count > 0 {
      SpanWidthMono(count - 1, w1, w2);
    }
  }

  /** A slice of a prefix is a slice of the whole. */
  lemma SliceOfPrefix<T>(s: seq<T>, n: nat, i: nat, j: nat)
    requires i <= j <= n <= |s|
    ensures s[..n][i..j] == s[i..j]
  {
  }

  /** A prefix split around one element. */
  lemma SliceSplit<T>(s: seq<T>, a: nat, c: nat)
    requires a < c <= |s|
    ensures s[..c] == s[..a] + [s[a]] + s[a + 1..c]
  {
  }
}
