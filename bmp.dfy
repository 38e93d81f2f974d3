/**
 * The BMP loader up to where it stops: the file header, the header size
 * that selects one of three info headers, the compression and alpha-mask
 * rules, and the final validation of width, height and bit depth. A file
 * is its bytes; fields are little-endian.
 */
module SgBmp {
  import opened Wrappers

  datatype Error = FileExcept

  const U32Limit: nat := 0x1_0000_0000

  /** The file header is 14 bytes, the size field of the info header 4. */
  const FileHeaderSize: nat := 14
  const InfoHeaderSize: nat := 40
  const V4HeaderSize: nat := 108
  const V5HeaderSize: nat := 124

  const ComprRgb: nat := 0
  const ComprBitFields: nat := 3

  // ---------------------------------------------------------------------
  // Mask bits

  function Pow2(i: nat): (p: nat)
    ensures p > 0
  {
    if i == 0 then 1 else 2 * Pow2(i - 1)
  }

  /** Bit `i` of `mask`, as `mask & (1 << i)` tests it. */
  predicate Bit(mask: nat, i: nat)
  {
    (mask / Pow2(i)) % 2 == 1
  }

  /** The index of the lowest set bit of `mask` at or above `from` and
      below `bpp`, or `bpp` when there is none. */
  function LowestFrom(mask: nat, bpp: nat, from: nat): (r: nat)
    requires from <= bpp
    ensures from <= r <= bpp
    ensures forall i :: from <= i < r ==> !Bit(mask, i)
    ensures r < bpp ==> Bit(mask, r)
    decreases bpp - from
  {
    if from == bpp || Bit(mask, from) then from else LowestFrom(mask, bpp, from + 1)
  }

  /** What `lshfBMP` computes: the number of unset low bits of `mask`,
      at most `bpp`. */
  function Shift(mask: nat, bpp: nat): (r: nat)
    ensures r <= bpp
    ensures forall i :: 0 <= i < r ==> !Bit(mask, i)
    ensures r < bpp ==> Bit(mask, r)
  {
    LowestFrom(mask, bpp, 0)
  }

  /** The bound of the highest set bit of `mask` below `top` and not below
      `low`, or `low` when there is none. */
  function HighestDown(mask: nat, low: nat, top: nat): (r: nat)
    requires low <= top
    ensures low <= r <= top
    ensures forall i :: r <= i < top ==> !Bit(mask, i)
    ensures r > low ==> Bit(mask, r - 1)
    decreases top - low
  {
    if top == low || Bit(mask, top - 1) then top else HighestDown(mask, low, top - 1)
  }

  /** What `bitsBMP` computes: the width of the run from the shift to the
      highest set bit below `bpp`; a shift above `bpp` wraps around. */
  function Width(mask: nat, bpp: nat, shift: nat): (r: nat)
    requires bpp < U32Limit && shift < U32Limit
    ensures r < U32Limit
  {
    if shift <= bpp then HighestDown(mask, shift, bpp) - shift
    else U32Limit + bpp - shift
  }

  /** `lshfBMP`. */
  method LowShift(mask: nat, bpp: nat) returns (res: nat)
    ensures res == Shift(mask, bpp)
  {
    res := 0;
    while res != bpp && !Bit(mask, res)
      invariant res <= bpp
      invariant forall i :: 0 <= i < res ==> !Bit(mask, i)
      decreases bpp - res
    {
      res := res + 1;
    }
    ShiftUnique(mask, bpp, res);
  }

  /** `bitsBMP`. */
  method BitCount(mask: nat, bpp: nat, shift: nat) returns (r: nat)
    requires bpp < U32Limit && shift < U32Limit
    ensures r == Width(mask, bpp, shift)
  {
    var res := bpp;
    while res > shift && !Bit(mask, res - 1)
      invariant shift <= bpp ==> shift <= res
      invariant shift > bpp ==> res == bpp
      invariant res <= bpp
      invariant forall i: nat :: res <= i < bpp ==> !Bit(mask, i)
      decreases res
    {
      res := res - 1;
    }
    if shift <= bpp {
      HighestUnique(mask, shift, bpp, res);
      r := res - shift;
    } else {
      r := U32Limit + res - shift;
    }
  }

  /** The lowest set bit is the only index with its two properties. */
  lemma ShiftUnique(mask: nat, bpp: nat, r: nat)
    requires r <= bpp && (forall i :: 0 <= i < r ==> !Bit(mask, i)) && (r < bpp ==> Bit(mask, r))
    ensures r == Shift(mask, bpp)
  {
  }

  lemma HighestUnique(mask: nat, low: nat, top: nat, r: nat)
    requires low <= r <= top && (forall i :: r <= i < top ==> !Bit(mask, i)) && (r > low ==> Bit(mask, r - 1))
    ensures r == HighestDown(mask, low, top)
  {
  }

  /** The width never reaches past `bpp`: shift and width together are at
      most the bit depth. */
  lemma ShiftWidthBound(mask: nat, bpp: nat)
    requires bpp < U32Limit
    ensures Width(mask, bpp, Shift(mask, bpp)) <= bpp - Shift(mask, bpp)
  {
  }

  /** Shift and width span every set bit below `bpp`, start and end on a
      set bit, and the width is zero exactly when no bit below `bpp` is
      set. */
  lemma ShiftWidthSpan(mask: nat, bpp: nat)
    requires bpp < U32Limit
    ensures var s := Shift(mask, bpp);
      var w := Width(mask, bpp, s);
      && (forall i :: 0 <= i < bpp && Bit(mask, i) ==> s <= i < s + w)
      && (w > 0 ==> Bit(mask, s) && Bit(mask, s + w - 1))
      && (w == 0 <==> forall i :: 0 <= i < bpp ==> !Bit(mask, i))
  {
    var s := Shift(mask, bpp);
    var w := Width(mask, bpp, s);
    if s < bpp {
      assert Bit(mask, s);
      assert w > 0;
    }
  }

  /** A mask in the top nibble of a byte: shift 4, width 4. */
  lemma TopNibbleMask()
    ensures Shift(0xF0, 8) == 4 && Width(0xF0, 8, 4) == 4
  {
    assert Pow2(1) == 2 && Pow2(2) == 4 && Pow2(3) == 8 && Pow2(4) == 16;
    assert Pow2(5) == 32 && Pow2(6) == 64 && Pow2(7) == 128;
    assert !Bit(0xF0, 0) && !Bit(0xF0, 1) && !Bit(0xF0, 2) && !Bit(0xF0, 3) && Bit(0xF0, 4);
    ShiftUnique(0xF0, 8, 4);
    assert Bit(0xF0, 7);
    HighestUnique(0xF0, 4, 8, 8);
  }

  // ---------------------------------------------------------------------
  // Header fields

  function U16(file: seq<bv8>, at: nat): (v: nat)
    requires at + 2 <= |file|
    ensures v < 0x1_0000
  {
    file[at] as nat + 0x100 * file[at + 1] as nat
  }

  function U32(file: seq<bv8>, at: nat): (v: nat)
    requires at + 4 <= |file|
    ensures v < U32Limit
  {
    U16(file, at) + 0x1_0000 * U16(file, at + 2)
  }

  /** An `int32_t` field. */
  function I32(v: nat): (x: int)
    requires v < U32Limit
    ensures -0x8000_0000 <= x < 0x8000_0000
  {
    if v < 0x8000_0000 then v else v - U32Limit
  }

  /** The offsets of the fields the loader uses: the data offset in the
      file header, the header size after it, then each field from the
      start of the file. */
  const DataOffsetAt: nat := 10
  const HeaderSizeAt: nat := 14
  const WidthAt: nat := 18
  const HeightAt: nat := 22
  const BppAt: nat := 28
  const CompressionAt: nat := 30
  const MaskRAt: nat := 54
  const MaskAAt: nat := 66

  /** What the loader knows once the headers are read: the colour masks
      are read only with bit-field compression. */
  datatype Info = Info(headerSize: nat, width: int, height: int, bpp: nat, compression: nat,
                       colourMasks: Option<seq<nat>>, alphaMask: nat, alphaShift: nat, alphaBits: nat)

  /** `readIh`: the 40-byte header has no alpha; bit-field masks follow it
      and must come before the pixel data. */
  function ParseInfo(file: seq<bv8>): Result<Info, Error>
    requires HeaderSizeAt + 4 <= |file|
  {
    var readN := FileHeaderSize + 4;
    var n := InfoHeaderSize - 4;
    if |file| < readN + n then Failure(FileExcept)
    else
      var readN := readN + n;
      var bpp := U16(file, BppAt);
      var compression := U32(file, CompressionAt);
      var info := Info(InfoHeaderSize, I32(U32(file, WidthAt)), I32(U32(file, HeightAt)), bpp, compression, None, 0, bpp, 0);
      if compression == ComprRgb then Success(info)
      else if compression == ComprBitFields then
        if readN == U32(file, DataOffsetAt) || |file| < readN + 12 then Failure(FileExcept)
        else Success(info.(colourMasks := Some([U32(file, readN), U32(file, readN + 4), U32(file, readN + 8)])))
      else Failure(FileExcept)
  }

  /** `readV4` and `readV5`: the alpha mask counts only at 16 and 32 bits
      per pixel; bit-field masks are part of the header. */
  function ParseVersioned(file: seq<bv8>, size: nat): Result<Info, Error>
    requires HeaderSizeAt + 4 <= |file| && (size == V4HeaderSize || size == V5HeaderSize)
  {
    var readN := FileHeaderSize + 4;
    var n := size - 4;
    if |file| < readN + n then Failure(FileExcept)
    else
      var bpp := U16(file, BppAt);
      var compression := U32(file, CompressionAt);
      var alpha := if bpp == 16 || bpp == 32 then U32(file, MaskAAt) else 0;
      var shift := Shift(alpha, bpp);
      var info := Info(size, I32(U32(file, WidthAt)), I32(U32(file, HeightAt)), bpp, compression,
                       None, alpha, shift, Width(alpha, bpp, shift));
      if compression == ComprRgb then Success(info)
      else if compression == ComprBitFields then
        Success(info.(colourMasks := Some([U32(file, MaskRAt), U32(file, MaskRAt + 4), U32(file, MaskRAt + 8)])))
      else Failure(FileExcept)
  }

  /** `loadBMP` up to its final check. */
  function Parse(file: seq<bv8>): Result<Info, Error>
  {
    if |file| < FileHeaderSize + 4 then Failure(FileExcept)
    else
      var size := U32(file, HeaderSizeAt);
      var info :-
        if size == InfoHeaderSize then ParseInfo(file)
        else if size == V4HeaderSize || size == V5HeaderSize then ParseVersioned(file, size)
        else Failure(FileExcept);
      if info.width <= 0 || info.height == 0 || info.bpp == 0 || info.bpp > 32 then Failure(FileExcept)
      else Success(info)
  }

  // ---------------------------------------------------------------------
  // The loader

  /** `readIh`: reads the rest of the 40-byte header, then the bit-field
      masks, into the mask, shift and width arrays. */
  method ReadInfo(file: seq<bv8>, masks: array<nat>, shifts: array<nat>, widths: array<nat>)
    returns (r: Result<Info, Error>)
    requires HeaderSizeAt + 4 <= |file| && masks.Length == shifts.Length == widths.Length == 4
    requires masks != shifts && masks != widths && shifts != widths
    modifies masks, shifts, widths
    ensures r == ParseInfo(file)
    ensures r.Success? ==> masks[3] == r.value.alphaMask && shifts[3] == r.value.alphaShift && widths[3] == r.value.alphaBits
    ensures r.Success? && r.value.colourMasks.Some? ==> masks[..3] == r.value.colourMasks.value
  {
    var readN := FileHeaderSize + 4;
    var n := InfoHeaderSize - 4;
    if |file| < readN + n {
      return Failure(FileExcept);
    }
    readN := readN + n;
    var bpp, compression := U16(file, BppAt), U32(file, CompressionAt);
    var info := Info(InfoHeaderSize, I32(U32(file, WidthAt)), I32(U32(file, HeightAt)), bpp, compression, None, 0, bpp, 0);
    masks[3], shifts[3], widths[3] := 0, bpp, 0;
    if compression == ComprBitFields {
      if readN == U32(file, DataOffsetAt) || |file| < readN + 12 {
        return Failure(FileExcept);
      }
      masks[0], masks[1], masks[2] := U32(file, readN), U32(file, readN + 4), U32(file, readN + 8);
      readN := readN + 12;
      assert masks[..3] == [masks[0], masks[1], masks[2]];
      return Success(info.(colourMasks := Some(masks[..3])));
    } else if compression != ComprRgb {
      return Failure(FileExcept);
    }
    return Success(info);
  }

  /** `readV4` and `readV5`: the alpha mask, its shift and width, and the
      bit-field masks from the header. */
  method ReadVersioned(file: seq<bv8>, size: nat, masks: array<nat>, shifts: array<nat>, widths: array<nat>)
    returns (r: Result<Info, Error>)
    requires HeaderSizeAt + 4 <= |file| && (size == V4HeaderSize || size == V5HeaderSize)
    requires masks.Length == shifts.Length == widths.Length == 4
    requires masks != shifts && masks != widths && shifts != widths
    modifies masks, shifts, widths
    ensures r == ParseVersioned(file, size)
    ensures r.Success? ==> masks[3] == r.value.alphaMask && shifts[3] == r.value.alphaShift && widths[3] == r.value.alphaBits
    ensures r.Success? && r.value.colourMasks.Some? ==> masks[..3] == r.value.colourMasks.value
  {
    var readN := FileHeaderSize + 4;
    var n := size - 4;
    if |file| < readN + n {
      return Failure(FileExcept);
    }
    readN := readN + n;
    var bpp, compression := U16(file, BppAt), U32(file, CompressionAt);
    masks[3] := if bpp == 16 || bpp == 32 then U32(file, MaskAAt) else 0;
    var shift := LowShift(masks[3], bpp);
    shifts[3] := shift;
    var width := BitCount(masks[3], bpp, shift);
    widths[3] := width;
    var info := Info(size, I32(U32(file, WidthAt)), I32(U32(file, HeightAt)), bpp, compression, None, masks[3], shift, width);
    if compression == ComprBitFields {
      masks[0], masks[1], masks[2] := U32(file, MaskRAt), U32(file, MaskRAt + 4), U32(file, MaskRAt + 8);
      assert masks[..3] == [masks[0], masks[1], masks[2]];
      assert masks[3] == info.alphaMask && shifts[3] == shift && widths[3] == width;
      return Success(info.(colourMasks := Some(masks[..3])));
    } else if compression != ComprRgb {
      return Failure(FileExcept);
    }
    return Success(info);
  }

  /** `loadBMP`: the header size selects the reader, whose result is then
      checked. */
  method LoadBmp(file: seq<bv8>) returns (r: Result<Info, Error>)
    ensures r == Parse(file)
  {
    if |file| < FileHeaderSize || |file| < FileHeaderSize + 4 {
      return Failure(FileExcept);
    }
    var hdrSize := U32(file, HeaderSizeAt);
    var masks := new nat[4];
    var shifts := new nat[4];
    var widths := new nat[4];
    var read: Result<Info, Error>;
    if hdrSize == InfoHeaderSize {
      read := ReadInfo(file, masks, shifts, widths);
    } else if hdrSize == V4HeaderSize || hdrSize == V5HeaderSize {
      read := ReadVersioned(file, hdrSize, masks, shifts, widths);
    } else {
      return Failure(FileExcept);
    }
    if read.Failure? {
      return Failure(read.error);
    }
    var info := read.value;
    if info.width <= 0 || info.height == 0 || info.bpp == 0 || info.bpp > 32 {
      return Failure(FileExcept);
    }
    return Success(info.(alphaMask := masks[3], alphaShift := shifts[3], alphaBits := widths[3]));
  }

  // ---------------------------------------------------------------------
  // Properties

  /** Only the three header sizes are read; any other size is an error. */
  lemma HeaderDispatch(file: seq<bv8>)
    requires |file| >= FileHeaderSize + 4
    ensures Parse(file).Success? ==> Parse(file).value.headerSize == U32(file, HeaderSizeAt)
    ensures U32(file, HeaderSizeAt) !in {InfoHeaderSize, V4HeaderSize, V5HeaderSize} ==> Parse(file) == Failure(FileExcept)
    ensures Parse(file).Success? ==> |file| >= U32(file, HeaderSizeAt) + FileHeaderSize
  {
  }

  /** Only plain and bit-field compression are accepted; the colour masks
      are read exactly with bit fields, and for the 40-byte header only
      when they come before the pixel data. */
  lemma CompressionRule(file: seq<bv8>)
    requires Parse(file).Success?
    ensures var info := Parse(file).value;
      && (info.compression == ComprRgb || info.compression == ComprBitFields)
      && (info.colourMasks.Some? <==> info.compression == ComprBitFields)
      && (info.colourMasks.Some? ==> |info.colourMasks.value| == 3)
      && (info.headerSize == InfoHeaderSize && info.compression == ComprBitFields ==>
            U32(file, DataOffsetAt) != FileHeaderSize + InfoHeaderSize && |file| >= FileHeaderSize + InfoHeaderSize + 12)
  {
  }

  /** The 40-byte header has no alpha channel; the larger ones take the
      alpha mask only at 16 or 32 bits per pixel, and its shift and width
      are those of the mask. */
  lemma AlphaRule(file: seq<bv8>)
    requires Parse(file).Success?
    ensures var info := Parse(file).value;
      && (info.headerSize == InfoHeaderSize ==> info.alphaMask == 0 && info.alphaShift == info.bpp && info.alphaBits == 0)
      && (info.headerSize != InfoHeaderSize ==>
            && info.alphaMask == (if info.bpp == 16 || info.bpp == 32 then U32(file, MaskAAt) else 0)
            && info.alphaShift == Shift(info.alphaMask, info.bpp)
            && info.alphaBits == Width(info.alphaMask, info.bpp, info.alphaShift))
      && info.alphaShift + info.alphaBits <= info.bpp
  {
    var info := Parse(file).value;
    if info.headerSize != InfoHeaderSize {
      ShiftWidthBound(info.alphaMask, info.bpp);
    }
  }

  /** A file is accepted only with a positive width, a non-zero height and
      1 to 32 bits per pixel; a well-formed header with any of these out
      of range is refused. */
  lemma FinalCheck(file: seq<bv8>)
    ensures Parse(file).Success? ==>
      var info := Parse(file).value;
      info.width > 0 && info.height != 0 && 1 <= info.bpp <= 32
    ensures |file| >= FileHeaderSize + 4 && U32(file, HeaderSizeAt) == InfoHeaderSize && |file| >= 54 &&
            U32(file, CompressionAt) == ComprRgb ==>
      (Parse(file).Success? <==>
         I32(U32(file, WidthAt)) > 0 && I32(U32(file, HeightAt)) != 0 && 1 <= U16(file, BppAt) <= 32)
  {
  }
}
