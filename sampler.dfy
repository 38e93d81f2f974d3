/**
 * Sampler descriptors and their validation. The level-of-detail bounds are
 * single-precision floats in the source and reals here.
 */
module CgSampler {
  import opened Wrappers

  newtype u16 = x: int | 0 <= x < 0x1_0000

  datatype WrapMode = ClampToEdge | Repeat | MirrorRepeat
  datatype Filter = Nearest | Linear
  datatype MipFilter = MipNearest | MipLinear
  datatype CmpFunc = CmpNone

  datatype Desc = Desc(wrapModeU: WrapMode, wrapModeV: WrapMode, wrapModeW: WrapMode,
                       magFilter: Filter, minFilter: Filter, mipFilter: MipFilter,
                       lodMinClamp: real, lodMaxClamp: real, compare: CmpFunc,
                       maxAnisotropy: u16)

  /** The descriptor's default member initialisers. */
  function DefaultDesc(): Desc
  {
    Desc(ClampToEdge, ClampToEdge, ClampToEdge, Nearest, Nearest, MipNearest, 0.0, 32.0, CmpNone, 1)
  }

  datatype Error = InvalidLod | InvalidAnisotropy

  /** A constructed sampler keeps a copy of every descriptor field. */
  datatype Sampler = Sampler(wrapModeU_: WrapMode, wrapModeV_: WrapMode, wrapModeW_: WrapMode,
                             magFilter_: Filter, minFilter_: Filter, mipFilter_: MipFilter,
                             lodMinClamp_: real, lodMaxClamp_: real, compare_: CmpFunc,
                             maxAnisotropy_: u16)
  {
    function WrapModeU(): WrapMode { wrapModeU_ }
    function WrapModeV(): WrapMode { wrapModeV_ }
    function WrapModeW(): WrapMode { wrapModeW_ }
    function MagFilter(): Filter { magFilter_ }
    function MinFilter(): Filter { minFilter_ }
    function MipFilterOf(): MipFilter { mipFilter_ }
    function LodMinClamp(): real { lodMinClamp_ }
    function LodMaxClamp(): real { lodMaxClamp_ }
    function Compare(): CmpFunc { compare_ }
    function MaxAnisotropy(): u16 { maxAnisotropy_ }
  }

  /** The `Sampler` constructor: copies the descriptor, then rejects a
      negative minimum or a minimum above the maximum level of detail, and
      then a zero maximum anisotropy. */
  function NewSampler(desc: Desc): (r: Result<Sampler, Error>)
    ensures r.Success? <==> 0.0 <= desc.lodMinClamp <= desc.lodMaxClamp && desc.maxAnisotropy != 0
    ensures r.Failure? ==>
      r.error == (if desc.lodMinClamp < 0.0 || desc.lodMinClamp > desc.lodMaxClamp
                  then InvalidLod else InvalidAnisotropy)
    ensures r.Success? ==>
      var s := r.value;
      && s.WrapModeU() == desc.wrapModeU && s.WrapModeV() == desc.wrapModeV
      && s.WrapModeW() == desc.wrapModeW && s.MagFilter() == desc.magFilter
      && s.MinFilter() == desc.minFilter && s.MipFilterOf() == desc.mipFilter
      && s.LodMinClamp() == desc.lodMinClamp && s.LodMaxClamp() == desc.lodMaxClamp
      && s.Compare() == desc.compare && s.MaxAnisotropy() == desc.maxAnisotropy
  {
    var s := Sampler(desc.wrapModeU, desc.wrapModeV, desc.wrapModeW, desc.magFilter,
                     desc.minFilter, desc.mipFilter, desc.lodMinClamp, desc.lodMaxClamp,
                     desc.compare, desc.maxAnisotropy);
    if s.lodMinClamp_ < 0.0 || s.lodMinClamp_ > s.lodMaxClamp_ then Failure(InvalidLod)
    else if s.maxAnisotropy_ == 0 then Failure(InvalidAnisotropy)
    else Success(s)
  }

  /** The descriptor's defaults describe a valid sampler. */
  lemma DefaultDescIsValid()
    ensures NewSampler(DefaultDesc()).Success?
  {
  }
}
