/**
 * The PNG loader up to where it stops: the CRC-32 of PNG chunks (section
 * 5.5 and Annex D of ISO/IEC 15948), computed with a 256-entry table, and
 * the checks of the file signature (section 5.2) and the type of the first
 * chunk. A file is its bytes.
 */
module SgPng {
  import opened Wrappers

  // ---------------------------------------------------------------------
  // CRC-32
  //
  // Registers are the values of `uint32_t` variables, as naturals below
  // 2^32: `x & 1` is `x % 2`, `x >> k` is `Shr(x, k)` (`x / 0x100` for
  // eight), `x & 0xFF` is `x % 0x100` and `^` is `Xor`, defined bit by bit.

  const U32Limit: nat := 0x1_0000_0000

  type Byte = b: nat | b < 0x100

  /** The reflected CRC-32 polynomial. */
  const Polynomial: nat := 0xEDB8_8320

  /** Bitwise exclusive or, from the low bit up. */
  function Xor(a: nat, b: nat): nat
    decreases a + b
  {
    if a == 0 then b
    else if b == 0 then a
    else 2 * Xor(a / 2, b / 2) + (if a % 2 == b % 2 then 0 else 1)
  }

  /** `q << k` and `x >> k`. */
  function Shl(q: nat, k: nat): nat
  {
    if k == 0 then q else 2 * Shl(q, k - 1)
  }

  function Shr(x: nat, k: nat): nat
    decreases k
  {
    if k == 0 then x else Shr(x / 2, k - 1)
  }

  /** One step of the shift register: shift right, and fold the polynomial
      in when the bit shifted out is set. */
  function Round(x: nat): nat
  {
    if x % 2 == 1 then Xor(Polynomial, x / 2) else x / 2
  }

  /** `k` steps of the shift register. */
  function Rounds(x: nat, k: nat): nat
    decreases k
  {
    if k == 0 then x else Rounds(Round(x), k - 1)
  }

  /** The bit-at-a-time update of the register by one byte: the byte enters
      the low end, then eight steps. */
  function Update(crc: nat, b: Byte): nat
  {
    Rounds(Xor(crc, b), 8)
  }

  /** The register after `data`, starting from all ones. */
  function Register(data: seq<Byte>): nat
  {
    if |data| == 0 then 0xFFFF_FFFF
    else Update(Register(data[..|data| - 1]), data[|data| - 1])
  }

  /** The CRC of `data`: the final register, inverted. */
  function Crc(data: seq<Byte>): nat
  {
    Xor(Register(data), 0xFFFF_FFFF)
  }

  /** Entry `i` of the table: eight steps from `i`. */
  function Entry(i: nat): nat
  {
    Rounds(i, 8)
  }

  /** The first time `computeCRC` runs, it fills the table: entry `i` is
      `i` after eight steps. */
  method MakeTable() returns (table: array<nat>)
    ensures fresh(table) && table.Length == 256
    ensures forall i :: 0 <= i < 256 ==> table[i] == Entry(i)
  {
    table := new nat[256];
    var i := 0;
    while i < 256
      invariant 0 <= i <= 256
      invariant forall m :: 0 <= m < i ==> table[m] == Entry(m)
    {
      var x := EntryOf(i);
      table[i] := x;
      i := i + 1;
    }
  }

  /** The inner loop of the table: eight steps from `i`. */
  method EntryOf(i: nat) returns (x: nat)
    ensures x == Entry(i)
  {
    x := i;
    var j := 0;
    while j < 8
      invariant 0 <= j <= 8
      invariant x == Rounds(i, j)
    {
      RoundsLast(i, j);
      x := Round(x);
      j := j + 1;
    }
  }

  /** `computeCRC`: per byte, the register is shifted right by eight and
      XORed with the table entry its low byte and the data byte select. The
      result is the bit-at-a-time CRC, a 32-bit value. */
  method ComputeCrc(data: seq<Byte>) returns (crc: nat)
    requires |data| > 0
    ensures crc == Crc(data) && crc < U32Limit
  {
    var table := MakeTable();
    var reg: nat := 0xFFFF_FFFF;
    var i := 0;
    while i < |data|
      invariant 0 <= i <= |data|
      invariant reg == Register(data[..i])
    {
      var b := data[i];
      var index := Xor(reg, b) % 0x100;
      assert Xor(table[index], reg / 0x100) == Update(reg, b) by { TableStep(reg, b); }
      assert Register(data[..i + 1]) == Update(Register(data[..i]), b) by {
        assert data[..i + 1][..i] == data[..i];
      }
      reg := Xor(table[index], reg / 0x100);
      i := i + 1;
    }
    assert data[..|data|] == data;
    crc := Xor(reg, 0xFFFF_FFFF);
    CrcBound(data);
  }

  lemma XorHalf(a: nat, b: nat)
    ensures Xor(a, b) / 2 == Xor(a / 2, b / 2)
    ensures Xor(a, b) % 2 == (if a % 2 == b % 2 then 0 else 1)
  {
    if a == 0 {
      assert Xor(a / 2, b / 2) == b / 2;
    } else if b == 0 {
      assert Xor(a / 2, b / 2) == a / 2;
    }
  }

  /** A value is determined by its low bit and the rest. */
  lemma XorByHalves(r: nat, a: nat, b: nat)
    requires r / 2 == Xor(a / 2, b / 2) && r % 2 == (if a % 2 == b % 2 then 0 else 1)
    ensures r == Xor(a, b)
  {
    XorHalf(a, b);
  }

  lemma {:induction false} XorComm(a: nat, b: nat)
    ensures Xor(a, b) == Xor(b, a)
    decreases a + b
  {
    if a != 0 && b != 0 {
      XorComm(a / 2, b / 2);
    }
  }

  lemma {:induction false} XorSelf(a: nat)
    ensures Xor(a, a) == 0
    decreases a
  {
    if a != 0 {
      XorSelf(a / 2);
    }
  }

  lemma {:induction false} XorAssoc(a: nat, b: nat, c: nat)
    ensures Xor(Xor(a, b), c) == Xor(a, Xor(b, c))
    decreases a + b + c
  {
    if a != 0 || b != 0 || c != 0 {
      XorAssoc(a / 2, b / 2, c / 2);
      XorHalf(a, b); XorHalf(b, c);
      XorHalf(Xor(a, b), c); XorHalf(a, Xor(b, c));
      XorByHalves(Xor(Xor(a, b), c), a, Xor(b, c));
    }
  }

  lemma XorZero(a: nat)
    ensures Xor(a, 0) == a && Xor(0, a) == a
  {
  }

  /** XOR keeps values below `2^k`. */
  lemma {:induction false} XorBound(a: nat, b: nat, k: nat)
    requires a < Shl(1, k) && b < Shl(1, k)
    ensures Xor(a, b) < Shl(1, k)
  {
    if k > 0 && a != 0 && b != 0 {
      XorBound(a / 2, b / 2, k - 1);
    }
  }

  /** Regrouping under XOR. */
  lemma XorSwap(p: nat, a: nat, b: nat)
    ensures Xor(Xor(p, a), Xor(p, b)) == Xor(a, b)
    ensures Xor(Xor(p, a), b) == Xor(p, Xor(a, b))
    ensures Xor(a, Xor(p, b)) == Xor(p, Xor(a, b))
  {
    calc {
      Xor(Xor(p, a), Xor(p, b));
      { XorAssoc(p, a, Xor(p, b)); }
      Xor(p, Xor(a, Xor(p, b)));
      { XorAssoc(a, p, b); XorComm(a, p); XorAssoc(p, a, b); }
      Xor(p, Xor(p, Xor(a, b)));
      { XorAssoc(p, p, Xor(a, b)); XorSelf(p); }
      Xor(0, Xor(a, b));
    }
    XorAssoc(p, a, b);
    XorAssoc(a, p, b); XorComm(a, p);
  }

  lemma {:induction false} RoundsLast(x: nat, k: nat)
    ensures Rounds(x, k + 1) == Round(Rounds(x, k))
    decreases k
  {
    if k > 0 {
      RoundsLast(Round(x), k - 1);
    }
  }

  /** A step of the register distributes over XOR. */
  lemma RoundXor(x: nat, y: nat)
    ensures Round(Xor(x, y)) == Xor(Round(x), Round(y))
  {
    XorHalf(x, y);
    XorSwap(Polynomial, x / 2, y / 2);
  }

  /** So do `k` steps: the register is linear. */
  lemma {:induction false} RoundsXor(x: nat, y: nat, k: nat)
    ensures Rounds(Xor(x, y), k) == Xor(Rounds(x, k), Rounds(y, k))
    decreases k
  {
    if k > 0 {
      RoundXor(x, y);
      RoundsXor(Round(x), Round(y), k - 1);
    }
  }

  /** With the low `k` bits clear, `k` steps only shift. */
  lemma {:induction false} HighRounds(q: nat, k: nat)
    ensures Rounds(Shl(q, k), k) == q
  {
    if k > 0 {
      HighRounds(q, k - 1);
    }
  }

  /** Bits below `k` and bits at or above it do not meet: XOR is addition. */
  lemma {:induction false} XorDisjoint(low: nat, q: nat, k: nat)
    requires low < Shl(1, k)
    ensures Xor(low, Shl(q, k)) == low + Shl(q, k)
  {
    if k > 0 {
      var r := low + Shl(q, k);
      XorDisjoint(low / 2, q, k - 1);
      assert r / 2 == low / 2 + Shl(q, k - 1);
      XorByHalves(r, low, Shl(q, k));
    }
  }

  /** Shifting right distributes over XOR. */
  lemma {:induction false} XorShift(a: nat, b: nat, k: nat)
    ensures Shr(Xor(a, b), k) == Xor(Shr(a, k), Shr(b, k))
    decreases k
  {
    if k > 0 {
      XorHalf(a, b);
      XorShift(a / 2, b / 2, k - 1);
    }
  }

  /** Shifts by eight are a division and a product by `0x100`. */
  lemma ByteShifts(x: nat, q: nat)
    ensures Shr(x, 8) == x / 0x100
    ensures Shl(q, 8) == 0x100 * q && Shl(1, 8) == 0x100
  {
    var x1 := x / 2; var x2 := x1 / 2; var x3 := x2 / 2; var x4 := x3 / 2;
    var x5 := x4 / 2; var x6 := x5 / 2; var x7 := x6 / 2; var x8 := x7 / 2;
    assert Shr(x, 8) == Shr(x1, 7) == Shr(x2, 6) == Shr(x3, 5) == Shr(x4, 4);
    assert Shr(x4, 4) == Shr(x5, 3) == Shr(x6, 2) == Shr(x7, 1) == Shr(x8, 0);
    assert x8 == x / 0x100;
    assert Shl(q, 8) == 2 * Shl(q, 7) == 4 * Shl(q, 6) == 8 * Shl(q, 5) == 16 * Shl(q, 4);
    assert Shl(q, 4) == 2 * Shl(q, 3) == 4 * Shl(q, 2) == 8 * Shl(q, 1) == 16 * Shl(q, 0);
  }

  lemma {:induction false} ShlAdd(q: nat, a: nat, b: nat)
    ensures Shl(q, a + b) == Shl(Shl(q, a), b)
  {
    if b > 0 {
      ShlAdd(q, a, b - 1);
    }
  }

  /** `1 << 32` is the 32-bit limit. */
  lemma ShlWord()
    ensures Shl(1, 32) == U32Limit
  {
    ByteShifts(0, 1);
    ByteShifts(0, 0x100);
    ByteShifts(0, 0x1_0000);
    ByteShifts(0, 0x100_0000);
    ShlAdd(1, 8, 8);
    ShlAdd(1, 16, 8);
    ShlAdd(1, 24, 8);
  }

  /** The table step equals the bit-at-a-time update: the low byte goes
      through the table, the rest of the register only shifts. */
  lemma TableStep(crc: nat, b: Byte)
    ensures Xor(Entry(Xor(crc, b) % 0x100), crc / 0x100) == Update(crc, b)
  {
    var v := Xor(crc, b);
    var low, high := v % 0x100, v / 0x100;
    assert v == Xor(low, Shl(high, 8)) by {
      ByteShifts(v, high);
      XorDisjoint(low, high, 8);
    }
    assert Update(crc, b) == Xor(Entry(low), high) by {
      RoundsXor(low, Shl(high, 8), 8);
      HighRounds(high, 8);
    }
    assert high == crc / 0x100 by {
      ByteShifts(v, 0);
      ByteShifts(crc, 0);
      ByteShifts(b, 0);
      XorShift(crc, b, 8);
      XorZero(crc / 0x100);
    }
  }

  /** Steps keep the register below 2^32. */
  lemma {:induction false} RoundsBound(x: nat, k: nat)
    requires x < U32Limit
    ensures Rounds(x, k) < U32Limit
    decreases k
  {
    ShlWord();
    if k > 0 {
      if x % 2 == 1 {
        XorBound(Polynomial, x / 2, 32);
      }
      RoundsBound(Round(x), k - 1);
    }
  }

  /** The register and the CRC are 32-bit values. */
  lemma {:induction false} CrcBound(data: seq<Byte>)
    ensures Register(data) < U32Limit && Crc(data) < U32Limit
  {
    ShlWord();
    if |data| > 0 {
      CrcBound(data[..|data| - 1]);
      var r := Register(data[..|data| - 1]);
      XorBound(r, data[|data| - 1], 32);
      RoundsBound(Xor(r, data[|data| - 1]), 8);
    }
    XorBound(Register(data), 0xFFFF_FFFF, 32);
  }

  /** The table entry of the top bit of a byte is the polynomial itself:
      seven steps shift the bit down, the eighth folds it in. */
  lemma TopEntry()
    ensures Entry(0x80) == Polynomial
  {
    assert Round(0x80) == 0x40 && Round(0x40) == 0x20 && Round(0x20) == 0x10 && Round(0x10) == 8;
    assert Round(8) == 4 && Round(4) == 2 && Round(2) == 1;
    assert Round(1) == Polynomial by { XorZero(Polynomial); }
    assert Rounds(1, 1) == Polynomial;
    assert Rounds(0x80, 8) == Rounds(0x40, 7) == Rounds(0x20, 6) == Rounds(0x10, 5) == Rounds(8, 4);
    assert Rounds(8, 4) == Rounds(4, 3) == Rounds(2, 2) == Rounds(1, 1);
  }

  // ---------------------------------------------------------------------
  // Signature and first chunk

  /** Both are `FileExcept`: a read that comes up short, or bytes that are
      not what a PNG file holds there. */
  datatype Error = ReadFailed | Invalid

  const Signature: seq<Byte> := [137, 80, 78, 71, 13, 10, 26, 10]

  const IhdrType: seq<Byte> := [0x49, 0x48, 0x44, 0x52]

  /** The constructor reads the 8-byte signature, then the length and type
      of the first chunk, which must be `IHDR`; it stops there. */
  function Open(file: seq<Byte>): (r: Outcome<Error>)
  {
    if |file| < 8 then Fail(ReadFailed)
    else if file[..8] != Signature then Fail(Invalid)
    else if |file| < 16 then Fail(ReadFailed)
    else if file[12..16] != IhdrType then Fail(Invalid)
    else Pass
  }

  /** A file opens exactly when it starts with the signature and its first
      chunk is an `IHDR`. */
  lemma OpenAccepts(file: seq<Byte>)
    ensures Open(file).Pass? <==> |file| >= 16 && file[..8] == Signature && file[12..16] == IhdrType
  {
  }

  /** The signature is checked before anything else is read: a file with a
      wrong signature is invalid however short the rest is, and a file that
      has one but is cut short fails to read. */
  lemma OpenErrors(file: seq<Byte>)
    ensures |file| >= 8 && file[..8] != Signature ==> Open(file) == Fail(Invalid)
    ensures |file| < 8 || (file[..8] == Signature && |file| < 16) <==> Open(file) == Fail(ReadFailed)
  {
  }

  /** Any signature, length and `IHDR` type followed by anything opens. */
  lemma OpenChunk(length: seq<Byte>, rest: seq<Byte>)
    requires |length| == 4
    ensures Open(Signature + length + IhdrType + rest) == Pass
  {
    var f := Signature + length + IhdrType + rest;
    assert f[..8] == Signature;
    assert f[12..16] == IhdrType;
  }
}
