/** The table-driven CRC-32 of the icon generator: the CRC of section 5.5 and Annex D of the
    PNG specification (ISO/IEC 15948), reflected polynomial 0xEDB88320, initial register
    0xFFFFFFFF, final complement. Registers are the unsigned views of JavaScript's 32-bit
    results and the bitwise operators are those of the `Bits` module. */
module Crc32 {
  import opened Bytes
  import opened Bits

  const Polynomial: uint32 := 0xEDB8_8320

  /** `a ^ b` on two unsigned 32-bit values: again a 32-bit value. */
  function XorWord(a: uint32, b: uint32): uint32 {
    Pow2Values();
    XorBound(a, b, 32);
    Xor(a, b)
  }

  /** One round of table construction: shift right, xor-ing in the polynomial when the
      bit shifted out was set. */
  function Round(c: uint32): uint32 {
    if c % 2 == 1 then XorWord(Polynomial, c / 2) else c / 2
  }

  /** `k` rounds applied to `c`. */
  function Rounds(c: uint32, k: nat): uint32
    decreases k
  {
    if k == 0 then c else Rounds(Round(c), k - 1)
  }

  /** Entry `i` of the table: `i` after eight rounds. */
  function TableEntry(i: nat): uint32
    requires i < 256
  {
    Rounds(i, 8)
  }

  /** `t` holds the 256 entries of the CRC table. */
  ghost predicate IsCrcTable(t: array<uint32>)
    reads t
  {
    t.Length == 256 && forall i :: 0 <= i < 256 ==> t[i] == TableEntry(i)
  }

  /** The module-level table cache of the generator (`crc32Table`): empty until first
      use, then the 256-entry table, built once and handed out on every later call. */
  class CrcTableCache {
    var table: array?<uint32>

    ghost predicate Valid()
      reads this, table
    {
      table != null ==> IsCrcTable(table)
    }

    constructor ()
      ensures Valid() && table == null
    {
      table := null;
    }

    /** `getCrc32Table()`: builds the table on the first call, returns the cached one after. */
    method GetTable() returns (t: array<uint32>)
      requires Valid()
      modifies this
      ensures Valid() && table == t && IsCrcTable(t)
      ensures old(table) != null ==> t == old(table)
      ensures old(table) == null ==> fresh(t)
    {
      if table != null {
        return table;
      }
      t := new uint32[256];
      var i := 0;
      while i < 256
        invariant 0 <= i <= 256
        invariant forall k :: 0 <= k < i ==> t[k] == TableEntry(k)
      {
        var c := EntryRounds(i);
        t[i] := c;
        i := i + 1;
      }
      table := t;
    }
  }

  /** The inner loop of `getCrc32Table()`: eight rounds starting from `i`. */
  method EntryRounds(i: nat) returns (c: uint32)
    requires i < 256
    ensures c == TableEntry(i)
  {
    c := i;
    var j := 0;
    while j < 8
      invariant 0 <= j <= 8
      invariant Rounds(c, 8 - j) == TableEntry(i)
    {
      c := if c % 2 == 1 then XorWord(Polynomial, c / 2) else c / 2;
      j := j + 1;
    }
  }

  /** One table step of `crc32`: `table[(crc ^ b) & 0xFF] ^ (crc >>> 8)`. */
  function Update(crc: uint32, b: byte): uint32 {
    XorWord(TableEntry(XorWord(crc, b) % 256), crc / 256)
  }

  /** The register after folding `data` into it, byte by byte from the front. */
  function Fold(crc: uint32, data: seq<byte>): uint32
    decreases |data|
  {
    if data == [] then crc else Fold(Update(crc, data[0]), data[1..])
  }

  /** The CRC-32 of `data`: initial register all ones, final complement. */
  function Crc(data: seq<byte>): uint32 {
    XorWord(Fold(0xFFFF_FFFF, data), 0xFFFF_FFFF)
  }

  /** `crc32(data)`. */
  method ComputeCrc32(cache: CrcTableCache, data: seq<byte>) returns (crc: uint32)
    requires cache.Valid()
    modifies cache
    ensures cache.Valid() && cache.table != null
    ensures old(cache.table) != null ==> cache.table == old(cache.table)
    ensures crc == Crc(data)
  {
    crc := 0xFFFF_FFFF;
    var table := cache.GetTable();
    for i := 0 to |data|
      invariant Fold(crc, data[i..]) == Fold(0xFFFF_FFFF, data)
    {
      assert data[i..][1..] == data[i + 1..];
      crc := XorWord(table[XorWord(crc, data[i]) % 256], crc / 256);
    }
    crc := XorWord(crc, 0xFFFF_FFFF);
  }

  /** The CRC of no bytes is 0. */
  lemma CrcEmpty()
    ensures Crc([]) == 0
  {
    XorSelf(0xFFFF_FFFF);
  }

  /** Folding is incremental: the CRC register can be carried from one piece of data to the next. */
  lemma {:induction false} FoldAppend(crc: uint32, a: seq<byte>, b: seq<byte>)
    ensures Fold(crc, a + b) == Fold(Fold(crc, a), b)
    decreases |a|
  {
    if a == [] {
      assert a + b == b;
    } else {
      assert (a + b)[1..] == a[1..] + b;
      FoldAppend(Update(crc, a[0]), a[1..], b);
    }
  }

  // ---- The table step agrees with the bit-at-a-time definition of the CRC ----

  /** Xor-ing the same value into both operands cancels out. */
  lemma XorCancel(p: nat, u: nat, v: nat)
    ensures Xor(Xor(p, u), Xor(p, v)) == Xor(u, v)
  {
    XorAssoc(p, u, Xor(p, v));
    XorAssoc(u, p, v);
    XorComm(u, p);
    XorAssoc(p, u, v);
    XorAssoc(p, p, Xor(u, v));
    XorSelf(p);
    XorZero(Xor(u, v));
  }

  /** Xor-ing a value into one operand. */
  lemma XorInto(p: nat, u: nat, v: nat)
    ensures Xor(u, Xor(p, v)) == Xor(p, Xor(u, v))
  {
    XorAssoc(u, p, v);
    XorComm(u, p);
    XorAssoc(p, u, v);
  }

  /** A round is linear over xor. */
  lemma RoundXor(a: uint32, b: uint32)
    ensures Round(XorWord(a, b)) == XorWord(Round(a), Round(b))
  {
    XorBits(a, b);
    var u, v := a / 2, b / 2;
    if a % 2 == 1 && b % 2 == 1 {
      XorCancel(Polynomial, u, v);
    } else if a % 2 == 1 {
      XorAssoc(Polynomial, u, v);
    } else if b % 2 == 1 {
      XorInto(Polynomial, u, v);
    }
  }

  /** So is any number of rounds. */
  lemma {:induction false} RoundsXor(a: uint32, b: uint32, k: nat)
    ensures Rounds(XorWord(a, b), k) == XorWord(Rounds(a, k), Rounds(b, k))
    decreases k
  {
    if k > 0 {
      RoundXor(a, b);
      RoundsXor(Round(a), Round(b), k - 1);
    }
  }

  /** `k` rounds of a register whose low `k` bits are clear are a plain shift by `k`. */
  lemma {:induction false} RoundsOfHighBits(h: nat, k: nat)
    requires h * Pow2(k) < 0x1_0000_0000
    ensures Rounds(h * Pow2(k), k) == h
    decreases k
  {
    if k > 0 {
      var c := h * Pow2(k - 1);
      assert h * Pow2(k) == 2 * c;
      assert Round(2 * c) == c;
      RoundsOfHighBits(h, k - 1);
    }
  }

  /** A register split into its low byte and the rest. */
  lemma ByteSplit(x: uint32)
    ensures x == Xor(x % 256, (x / 256) * 256)
  {
    Pow2Values();
    XorDisjoint(x % 256, x / 256, 8);
  }

  /** Xor-ing in a byte changes only the low byte of the register. */
  lemma XorByte(crc: uint32, b: byte)
    ensures XorWord(crc, b) % 256 == Xor(crc % 256, b)
    ensures XorWord(crc, b) / 256 == crc / 256
  {
    Pow2Values();
    var cl, ch := crc % 256, crc / 256;
    ByteSplit(crc);
    XorAssoc(cl, ch * 256, b);
    XorComm(ch * 256, b);
    XorAssoc(cl, b, ch * 256);
    XorBound(cl, b, 8);
    XorDisjoint(Xor(cl, b), ch, 8);
    DivUnique(Xor(crc, b), 256, ch, Xor(cl, b));
  }

  /** The bit-at-a-time update, the way the CRC is defined: xor the byte into the low end
      of the register and run eight shift-register rounds. */
  function BitwiseUpdate(crc: uint32, b: byte): uint32 {
    Rounds(XorWord(crc, b), 8)
  }

  /** The table step computes the same register as the bit-at-a-time update. */
  lemma UpdateIsBitwise(crc: uint32, b: byte)
    ensures Update(crc, b) == BitwiseUpdate(crc, b)
  {
    Pow2Values();
    var x := XorWord(crc, b);
    var low, high := x % 256, x / 256;
    ByteSplit(x);
    RoundsXor(low, high * 256, 8);
    RoundsOfHighBits(high, 8);
    XorByte(crc, b);
  }

  function BitwiseFold(crc: uint32, data: seq<byte>): uint32
    decreases |data|
  {
    if data == [] then crc else BitwiseFold(BitwiseUpdate(crc, data[0]), data[1..])
  }

  /** The CRC-32 defined bit by bit, independently of the table. */
  function BitwiseCrc(data: seq<byte>): uint32 {
    XorWord(BitwiseFold(0xFFFF_FFFF, data), 0xFFFF_FFFF)
  }

  lemma {:induction false} FoldIsBitwise(crc: uint32, data: seq<byte>)
    ensures Fold(crc, data) == BitwiseFold(crc, data)
    decreases |data|
  {
    if data != [] {
      UpdateIsBitwise(crc, data[0]);
      FoldIsBitwise(Update(crc, data[0]), data[1..]);
    }
  }

  /** The table-driven CRC equals the bit-at-a-time CRC on every input. */
  lemma CrcIsBitwise(data: seq<byte>)
    ensures Crc(data) == BitwiseCrc(data)
  {
    FoldIsBitwise(0xFFFF_FFFF, data);
  }

  /** Rounds compose. */
  lemma {:induction false} RoundsSplit(c: uint32, j: nat, k: nat)
    ensures Rounds(c, j + k) == Rounds(Rounds(c, j), k)
    decreases j
  {
    if j > 0 {
      RoundsSplit(Round(c), j - 1, k);
    }
  }

  /** Two table values fixed by Annex D of the PNG specification: entry 0 is 0 and
      entry 128 (only the top bit of the byte set) is the polynomial itself. */
  lemma TableAnchors()
    ensures TableEntry(0) == 0
    ensures TableEntry(128) == Polynomial
  {
    Pow2Values();
    RoundsOfHighBits(0, 8);
    assert Pow2(7) == 128;
    RoundsOfHighBits(1, 7);
    RoundsSplit(128, 7, 1);
    XorZero(Polynomial);
  }
}
