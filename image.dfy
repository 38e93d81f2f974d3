/**
 * Pixel formats, the size of a texel block per format, and the constant
 * description an image is created with.
 */
module CgImage {
  import opened CgTypes

  /** The pixel formats the texel-size table names, plus the enumeration's
      undefined value; `OtherFormat` stands for any enumerator the table does
      not list. */
  datatype PxFormat =
    | Undefined
    | R8Unorm | R8Uint | R8Srgb | S8Uint
    | Rg8Unorm | Rg8Uint | Rg8Srgb | R16Unorm | R16Uint | D16Unorm
    | Rgb8Unorm | Rgb8Uint | Rgb8Srgb | Bgr8Unorm | Bgr8Uint | Bgr8Srgb | D16UnormS8Uint
    | Rgba8Unorm | Rgba8Uint | Rgba8Srgb | Bgra8Unorm | Bgra8Uint | Bgra8Srgb
    | Rg16Unorm | Rg16Uint | R32Uint | R32Flt | D32Flt | D24UnormS8Uint
    | OtherFormat(code: nat)

  datatype Samples = Samples1 | Samples2 | Samples4 | Samples8 | Samples16 | Samples32 | Samples64

  /** Number of bytes in a texel block of `format`; 0 for a format the table
      does not list. */
  function TexelSize(format: PxFormat): u32
  {
    match format
    case R8Unorm | R8Uint | R8Srgb | S8Uint => 1
    case Rg8Unorm | Rg8Uint | Rg8Srgb | R16Unorm | R16Uint | D16Unorm => 2
    case Rgb8Unorm | Rgb8Uint | Rgb8Srgb | Bgr8Unorm | Bgr8Uint | Bgr8Srgb | D16UnormS8Uint => 3
    case Rgba8Unorm | Rgba8Uint | Rgba8Srgb | Bgra8Unorm | Bgra8Uint | Bgra8Srgb
       | Rg16Unorm | Rg16Uint | R32Uint | R32Flt | D32Flt | D24UnormS8Uint => 4
    case _ => 0
  }

  /** Reference layout: the width in bytes of each component of a texel, in
      order, read off the format's name (R8 is one byte, D24 three, and so on). */
  function Components(format: PxFormat): seq<nat>
  {
    match format
    case R8Unorm | R8Uint | R8Srgb | S8Uint => [1]
    case Rg8Unorm | Rg8Uint | Rg8Srgb => [1, 1]
    case R16Unorm | R16Uint | D16Unorm => [2]
    case Rgb8Unorm | Rgb8Uint | Rgb8Srgb | Bgr8Unorm | Bgr8Uint | Bgr8Srgb => [1, 1, 1]
    case D16UnormS8Uint => [2, 1]
    case Rgba8Unorm | Rgba8Uint | Rgba8Srgb | Bgra8Unorm | Bgra8Uint | Bgra8Srgb => [1, 1, 1, 1]
    case Rg16Unorm | Rg16Uint => [2, 2]
    case R32Uint | R32Flt | D32Flt => [4]
    case D24UnormS8Uint => [3, 1]
    case _ => []
  }

  function Sum(s: seq<nat>): nat
  {
    if s == [] then 0 else s[0] + Sum(s[1..])
  }

  /** The table agrees with the component layout of every format: a texel is
      as wide as its components together, and an unlisted format has size 0. */
  lemma TexelSizeIsComponentSum(format: PxFormat)
    ensures TexelSize(format) as nat == Sum(Components(format))
    ensures TexelSize(format) == 0 <==> format.Undefined? || format.OtherFormat?
    ensures TexelSize(format) <= 4
  {
    var c := Components(format);
    if |c| > 0 {
      assert Sum(c) == c[0] + Sum(c[1..]);
      if |c| > 1 {
        assert Sum(c[1..]) == c[1] + Sum(c[2..]);
        if |c| > 2 {
          assert Sum(c[2..]) == c[2] + Sum(c[3..]);
          if |c| > 3 {
            assert Sum(c[3..]) == c[3] + Sum(c[4..]);
          }
        }
      }
    }
  }

  /** The constants an image is created with. */
  datatype Image = Image(format: PxFormat, size: Size2, layers: u32, levels: u32,
                         samples: Samples, bitsPerTexel: u32)

  /** The `Image` constructor: stores its arguments and sets bits per texel to
      `texelSize(format) << 3`, which cannot overflow 32 bits. */
  function NewImage(format: PxFormat, size: Size2, layers: u32, levels: u32, samples: Samples): (img: Image)
    ensures img.format == format && img.size == size && img.layers == layers
    ensures img.levels == levels && img.samples == samples
    ensures img.bitsPerTexel as nat == 8 * Sum(Components(format))
  {
    TexelSizeIsComponentSum(format);
    Image(format, size, layers, levels, samples, TexelSize(format) * 8)
  }
}
