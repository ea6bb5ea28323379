/** Base 64 encoding with padding, as section 4 of RFC 4648 defines it and as Node's
    `Buffer.toString('base64')` writes it: every three bytes become four six-bit groups,
    each written as a character of the alphabet of Table 1, and a final group of one or
    two bytes is completed with `=`. The decoder is strict (padding only at the end, no
    stray bits in the last group), which makes it an exact inverse of the encoder. */
module Base64 {
  import opened Wrappers
  import opened Bytes
  import Bits

  /** A six-bit group. */
  type sextet = x: int | 0 <= x < 64

  // ---- The alphabet ----

  /** Table 1 of RFC 4648. */
  function Letter(v: sextet): char {
    if v < 26 then ('A' as int + v) as char
    else if v < 52 then ('a' as int + (v - 26)) as char
    else if v < 62 then ('0' as int + (v - 52)) as char
    else if v == 62 then '+'
    else '/'
  }

  /** The value of an alphabet character; `None` for any other character. */
  function ValueOf(c: char): Option<sextet> {
    if 'A' <= c <= 'Z' then Some(c as int - 'A' as int)
    else if 'a' <= c <= 'z' then Some(c as int - 'a' as int + 26)
    else if '0' <= c <= '9' then Some(c as int - '0' as int + 52)
    else if c == '+' then Some(62)
    else if c == '/' then Some(63)
    else None
  }

  /** The alphabet is a bijection between the 64 values and its characters, and the
      padding character is not among them. */
  lemma LetterValue(v: sextet)
    ensures ValueOf(Letter(v)) == Some(v) && Letter(v) != '='
  {
  }

  lemma ValueLetter(c: char)
    ensures ValueOf(c).Some? ==> Letter(ValueOf(c).value) == c
  {
  }

  function Letters(vs: seq<sextet>): (r: string)
    ensures |r| == |vs|
  {
    seq(|vs|, i requires 0 <= i < |vs| => Letter(vs[i]))
  }

  predicate AllLetters(s: string) {
    forall i :: 0 <= i < |s| ==> ValueOf(s[i]).Some?
  }

  function Values(s: string): (r: seq<sextet>)
    requires AllLetters(s)
    ensures |r| == |s|
  {
    seq(|s|, i requires 0 <= i < |s| => ValueOf(s[i]).value)
  }

  lemma {:induction false} LettersValues(vs: seq<sextet>)
    ensures AllLetters(Letters(vs)) && Values(Letters(vs)) == vs
    ensures forall i :: 0 <= i < |vs| ==> Letters(vs)[i] != '='
  {
    forall i | 0 <= i < |vs|
      ensures ValueOf(Letters(vs)[i]) == Some(vs[i]) && Letters(vs)[i] != '='
    {
      LetterValue(vs[i]);
    }
  }

  lemma {:induction false} ValuesLetters(s: string)
    requires AllLetters(s)
    ensures Letters(Values(s)) == s
  {
    forall i | 0 <= i < |s|
      ensures Letters(Values(s))[i] == s[i]
    {
      ValueLetter(s[i]);
    }
  }

  // ---- Bytes and six-bit groups ----

  /** Three bytes as four six-bit groups, most significant bits first. */
  function SplitGroup(b0: byte, b1: byte, b2: byte): (r: seq<sextet>)
    ensures |r| == 4
  {
    [b0 / 4, (b0 % 4) * 16 + b1 / 16, (b1 % 16) * 4 + b2 / 64, b2 % 64]
  }

  /** Four six-bit groups as three bytes. */
  function JoinGroup(v0: sextet, v1: sextet, v2: sextet, v3: sextet): (r: seq<byte>)
    ensures |r| == 3
  {
    [v0 * 4 + v1 / 16, (v1 % 16) * 16 + v2 / 4, (v2 % 4) * 64 + v3]
  }

  /** Joining undoes splitting; zero bytes at the end give zero low bits in the groups
      that are kept. */
  lemma SplitJoin(b0: byte, b1: byte, b2: byte)
    ensures var g := SplitGroup(b0, b1, b2); JoinGroup(g[0], g[1], g[2], g[3]) == [b0, b1, b2]
    ensures b2 == 0 ==> SplitGroup(b0, b1, b2)[3] == 0 && SplitGroup(b0, b1, b2)[2] % 4 == 0
    ensures b1 == 0 && b2 == 0 ==> SplitGroup(b0, b1, b2)[2] == 0 && SplitGroup(b0, b1, b2)[1] % 16 == 0
  {
    Bits.DivUnique((b0 % 4) * 16 + b1 / 16, 16, b0 % 4, b1 / 16);
    Bits.DivUnique((b1 % 16) * 4 + b2 / 64, 4, b1 % 16, b2 / 64);
  }

  /** Splitting undoes joining; zero low bits in the last groups give zero bytes. */
  lemma JoinSplit(v0: sextet, v1: sextet, v2: sextet, v3: sextet)
    ensures var b := JoinGroup(v0, v1, v2, v3); SplitGroup(b[0], b[1], b[2]) == [v0, v1, v2, v3]
    ensures v3 == 0 && v2 % 4 == 0 ==> JoinGroup(v0, v1, v2, v3)[2] == 0
    ensures v3 == 0 && v2 == 0 && v1 % 16 == 0 ==> JoinGroup(v0, v1, v2, v3)[1] == 0
  {
    Bits.DivUnique(v0 * 4 + v1 / 16, 4, v0, v1 / 16);
    Bits.DivUnique((v1 % 16) * 16 + v2 / 4, 16, v1 % 16, v2 / 4);
    Bits.DivUnique((v2 % 4) * 64 + v3, 64, v2 % 4, v3);
  }

  /** Taking one divisor off a number leaves its remainder and lowers its quotient by one. */
  lemma Shift(a: nat, d: nat)
    requires 0 < d <= a
    ensures a % d == (a - d) % d && a / d == (a - d) / d + 1
  {
    var q, r := (a - d) / d, (a - d) % d;
    assert a == (q + 1) * d + r;
    Bits.DivUnique(a, d, q + 1, r);
  }

  /** The six-bit groups of `data`: four per three bytes, then two for a last single byte
      or three for a last pair, the missing low bits being zero. */
  function Sextets(data: seq<byte>): seq<sextet> {
    if |data| == 0 then []
    else if |data| == 1 then SplitGroup(data[0], 0, 0)[..2]
    else if |data| == 2 then SplitGroup(data[0], data[1], 0)[..3]
    else SplitGroup(data[0], data[1], data[2]) + Sextets(data[3..])
  }

  /** Bytes from six-bit groups: `None` for a single left-over group, or for a last group
      whose unused low bits are not zero. */
  function Unsextets(vs: seq<sextet>): Option<seq<byte>>
  {
    if |vs| == 0 then Some([])
    else if |vs| == 1 then None
    else if |vs| == 2 then
      if vs[1] % 16 != 0 then None else Some(JoinGroup(vs[0], vs[1], 0, 0)[..1])
    else if |vs| == 3 then
      if vs[2] % 4 != 0 then None else Some(JoinGroup(vs[0], vs[1], vs[2], 0)[..2])
    else
      var rest := Unsextets(vs[4..]);
      if rest.None? then None else Some(JoinGroup(vs[0], vs[1], vs[2], vs[3]) + rest.value)
  }

  /** A last single byte comes back from its two groups. */
  lemma LastOne(b0: byte)
    ensures Unsextets(SplitGroup(b0, 0, 0)[..2]) == Some([b0])
  {
    var g := SplitGroup(b0, 0, 0);
    SplitJoin(b0, 0, 0);
    assert JoinGroup(g[0], g[1], 0, 0) == [b0, 0, 0];
    var x := g[..2];
    assert |x| == 2 && x[0] == g[0] && x[1] == g[1] && x[1] % 16 == 0;
    assert JoinGroup(x[0], x[1], 0, 0)[..1] == [b0];
    assert Unsextets(x) == Some(JoinGroup(x[0], x[1], 0, 0)[..1]);
  }

  /** A last pair of bytes comes back from its three groups. */
  lemma LastTwo(b0: byte, b1: byte)
    ensures Unsextets(SplitGroup(b0, b1, 0)[..3]) == Some([b0, b1])
  {
    var g := SplitGroup(b0, b1, 0);
    SplitJoin(b0, b1, 0);
    assert JoinGroup(g[0], g[1], g[2], 0) == [b0, b1, 0];
    var x := g[..3];
    assert |x| == 3 && x[0] == g[0] && x[1] == g[1] && x[2] == g[2] && x[2] % 4 == 0;
    assert JoinGroup(x[0], x[1], x[2], 0)[..2] == [b0, b1];
    assert Unsextets(x) == Some(JoinGroup(x[0], x[1], x[2], 0)[..2]);
  }

  /** Decoding the groups of bytes gives the bytes back. */
  lemma {:induction false} UnsextetsSextets(data: seq<byte>)
    ensures Unsextets(Sextets(data)) == Some(data)
  {
    if |data| == 1 {
      LastOne(data[0]);
      assert data == [data[0]];
    } else if |data| == 2 {
      LastTwo(data[0], data[1]);
      assert data == [data[0], data[1]];
    } else if |data| >= 3 {
      var g := SplitGroup(data[0], data[1], data[2]);
      var vs := g + Sextets(data[3..]);
      SplitJoin(data[0], data[1], data[2]);
      UnsextetsSextets(data[3..]);
      assert vs[..4] == g && vs[4..] == Sextets(data[3..]);
      assert vs[0] == g[0] && vs[1] == g[1] && vs[2] == g[2] && vs[3] == g[3];
      assert JoinGroup(g[0], g[1], g[2], g[3]) == data[..3];
      assert data == data[..3] + data[3..];
    }
  }

  lemma {:induction false} SextetsUnsextets(vs: seq<sextet>)
    requires Unsextets(vs).Some?
    ensures Sextets(Unsextets(vs).value) == vs
  {
    if |vs| == 2 {
      JoinSplit(vs[0], vs[1], 0, 0);
      assert vs == SplitGroup(JoinGroup(vs[0], vs[1], 0, 0)[0], 0, 0)[..2];
    } else if |vs| == 3 {
      JoinSplit(vs[0], vs[1], vs[2], 0);
      var b := JoinGroup(vs[0], vs[1], vs[2], 0);
      assert vs == SplitGroup(b[0], b[1], 0)[..3];
    } else if |vs| >= 4 {
      var b := JoinGroup(vs[0], vs[1], vs[2], vs[3]);
      var rest := Unsextets(vs[4..]).value;
      JoinSplit(vs[0], vs[1], vs[2], vs[3]);
      SextetsUnsextets(vs[4..]);
      var data := b + rest;
      assert data[..3] == b && data[3..] == rest;
      assert vs == vs[..4] + vs[4..];
    }
  }

  // ---- Text ----

  /** The padding that completes the last group of `n` bytes. */
  function Padding(n: nat): string {
    if n % 3 == 1 then "==" else if n % 3 == 2 then "=" else ""
  }

  function Encode(data: seq<byte>): string {
    Letters(Sextets(data)) + Padding(|data|)
  }

  /** Four groups per three bytes, the last group of one or two bytes taking two or three
      groups. */
  lemma {:induction false} SextetsLength(data: seq<byte>)
    ensures |Sextets(data)| % 4 == (if |data| % 3 == 0 then 0 else |data| % 3 + 1)
    ensures |Sextets(data)| + |Padding(|data|)| == 4 * ((|data| + 2) / 3)
  {
    if |data| >= 3 {
      var rest := data[3..];
      SextetsLength(rest);
      assert |Sextets(data)| == |Sextets(rest)| + 4;
      assert |rest| == |data| - 3;
      Shift(|data|, 3);
      Shift(|data| + 2, 3);
      Shift(|Sextets(data)|, 4);
    }
  }

  /** The text has four characters for every three bytes or part of three bytes. */
  lemma EncodeLength(data: seq<byte>)
    ensures |Encode(data)| == 4 * ((|data| + 2) / 3)
  {
    SextetsLength(data);
  }

  /** The number of `=` at the end of `s`, up to two. */
  function PadCount(s: string): (n: nat)
    ensures n <= 2 && n <= |s|
  {
    if |s| >= 2 && s[|s| - 1] == '=' && s[|s| - 2] == '=' then 2
    else if |s| >= 1 && s[|s| - 1] == '=' then 1
    else 0
  }

  /** The bytes a base 64 text stands for, or `None` for a text the encoder cannot have
      written. */
  function Decode(s: string): Option<seq<byte>> {
    var body := s[..|s| - PadCount(s)];
    if |s| % 4 != 0 || !AllLetters(body) then None
    else Unsextets(Values(body))
  }

  /** Letters followed by padding: the padding is counted exactly and the letters come
      back when it is cut off. */
  lemma PaddedText(text: string, n: nat)
    requires forall i :: 0 <= i < |text| ==> text[i] != '='
    requires n % 3 == 2 ==> |text| > 0
    ensures PadCount(text + Padding(n)) == |Padding(n)|
    ensures (text + Padding(n))[..|text|] == text
  {
  }

  /** What `PadCount` cuts off is the padding of the matching length. */
  lemma PadSuffix(s: string)
    ensures var p := PadCount(s); s[|s| - p..] == if p == 2 then "==" else if p == 1 then "=" else ""
  {
  }

  /** Decoding undoes encoding. */
  lemma {:induction false} DecodeEncode(data: seq<byte>)
    ensures Decode(Encode(data)) == Some(data)
  {
    var vs := Sextets(data);
    var text, pad := Letters(vs), Padding(|data|);
    var s := Encode(data);
    assert s == text + pad;
    LettersValues(vs);
    SextetsLength(data);
    Bits.DivUnique(|s|, 4, (|data| + 2) / 3, 0);
    PaddedText(text, |data|);
    assert s[..|s| - PadCount(s)] == text;
    UnsextetsSextets(data);
  }

  /** A text of whole groups whose last `p` characters are padding leaves a body whose
      length is short of a multiple of four by exactly `p`. */
  lemma BodyLength(b: nat, p: nat)
    requires p <= 2 && (b + p) % 4 == 0
    ensures b % 4 == if p == 0 then 0 else 4 - p
  {
    var q := (b + p) / 4;
    assert b + p == q * 4;
    if p == 0 {
      Bits.DivUnique(b, 4, q, 0);
    } else {
      Bits.DivUnique(b, 4, q - 1, 4 - p);
    }
  }

  /** The padding a decodable text ends with is the padding of the byte count its
      groups stand for. */
  lemma PadMatches(s: string, b: nat, n: nat)
    requires b + PadCount(s) == |s| && |s| % 4 == 0
    requires b % 4 == if n % 3 == 0 then 0 else n % 3 + 1
    ensures s[b..] == Padding(n)
  {
    BodyLength(b, PadCount(s));
    PadSuffix(s);
  }

  /** Encoding undoes decoding: the decoder accepts only texts the encoder writes. */
  lemma {:induction false} EncodeDecode(s: string)
    requires Decode(s).Some?
    ensures Encode(Decode(s).value) == s
  {
    var body := s[..|s| - PadCount(s)];
    var vs := Values(body);
    var data := Unsextets(vs).value;
    SextetsUnsextets(vs);
    ValuesLetters(body);
    SextetsLength(data);
    PadMatches(s, |body|, |data|);
    assert s == body + s[|body|..];
  }

  lemma EncodeExample()
    ensures Encode([77, 97, 110]) == "TWFu"
    ensures Encode([77, 97]) == "TWE="
    ensures Encode([77]) == "TQ=="
  {
  }
}
