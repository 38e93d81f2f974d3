/**
 * A device buffer: a size fixed at creation, a usage mask, and host-mapped
 * bytes that `Write` copies into. The driver calls made while creating the
 * buffer are summarised by `BufferDevice`, whose fields say which of them
 * succeed; the mapped memory is an array of `size` bytes.
 */
module CgBuffer {
  import opened Wrappers
  import CgMemory

  type u64 = CgMemory.u64

  const U64Limit: int := 0x1_0000_0000_0000_0000

  // Buffer usage bits.
  const TransferSrcBit: bv32 := 0x1
  const TransferDstBit: bv32 := 0x2
  const UniformTexelBit: bv32 := 0x4
  const StorageTexelBit: bv32 := 0x8
  const UniformBit: bv32 := 0x10
  const StorageBit: bv32 := 0x20
  const IndexBit: bv32 := 0x40
  const VertexBit: bv32 := 0x80
  const IndirectBit: bv32 := 0x100

  /** The usage given to a buffer created with usage 0: every kind of use
      except the two texel-buffer kinds. */
  const DefaultUsage: bv32 := 0x1F3

  datatype Error =
    | InvalidArgument
    | CreateFailed
    | MemoryFailed(cause: CgMemory.Error)
    | BindFailed
    | MapFailed

  /** What the device does when asked to create, back and map a buffer. */
  datatype BufferDevice = BufferDevice(
    createOk: bool,
    memProps: CgMemory.MemProperties,
    memReq: CgMemory.MemRequirements,
    allocOk: bool,
    bindOk: bool,
    mapOk: bool)

  /** The usage a buffer is created with. */
  function EffectiveUsage(usage: bv32): (r: bv32)
    ensures usage != 0 ==> r == usage
    ensures r != 0
  {
    if usage == 0 then DefaultUsage else usage
  }

  /** The default usage is the union of exactly the seven non-texel kinds. */
  lemma DefaultUsageKinds()
    ensures DefaultUsage == TransferSrcBit | TransferDstBit | UniformBit | StorageBit
                            | IndexBit | VertexBit | IndirectBit
    ensures DefaultUsage & (UniformTexelBit | StorageTexelBit) == 0
    ensures EffectiveUsage(0) == DefaultUsage
  {
  }

  /** The first step of creation that fails, if any. */
  function CreateError(size: u64, dev: BufferDevice): Option<Error>
    requires dev.memProps.WellFormed()
  {
    if size == 0 then Some(InvalidArgument)
    else if !dev.createOk then Some(CreateFailed)
    else if CgMemory.ChosenType(dev.memProps, dev.memReq, true) == -1 then
      Some(MemoryFailed(CgMemory.NoSuitableMemoryType))
    else if !dev.allocOk then Some(MemoryFailed(CgMemory.AllocationFailed))
    else if !dev.bindOk then Some(BindFailed)
    else if !dev.mapOk then Some(MapFailed)
    else None
  }

  /** A zero size is refused before the device is consulted, and a buffer
      whose every device step succeeds is always created. */
  lemma CreateErrorCases(size: u64, dev: BufferDevice)
    requires dev.memProps.WellFormed()
    ensures size == 0 ==> CreateError(size, dev) == Some(InvalidArgument)
    ensures CreateError(size, dev) == None <==>
      (size != 0 && dev.createOk && dev.allocOk && dev.bindOk && dev.mapOk
       && exists i: nat :: CgMemory.Qualifies(dev.memProps, dev.memReq.memoryTypeBits,
                                               CgMemory.FallbackProperties(true), i))
  {
    CgMemory.ChosenTypeSpec(dev.memProps, dev.memReq, true);
  }

  /** The corrected bounds rule of `write`: the range lies inside the buffer
      and there is a source. */
  predicate WriteAccepted(offset: u64, size: u64, bufferSize: u64, hasData: bool)
  {
    offset as int + size as int <= bufferSize as int && hasData
  }

  /** The bounds rule of `write` as written: the end of the range is
      computed in 64-bit unsigned arithmetic and may wrap. */
  predicate WriteAcceptedAsWritten(offset: u64, size: u64, bufferSize: u64, hasData: bool)
  {
    (offset as int + size as int) % U64Limit <= bufferSize as int && hasData
  }

  /** The corrected rule only admits ranges whose every byte is inside the
      buffer, and it agrees with the rule as written whenever the end does
      not wrap. */
  lemma WriteAcceptedSpec(offset: u64, size: u64, bufferSize: u64, hasData: bool)
    ensures WriteAccepted(offset, size, bufferSize, hasData) && size != 0 ==>
      offset < bufferSize && offset as int + size as int - 1 < bufferSize as int
    ensures offset as int + size as int < U64Limit ==>
      (WriteAccepted(offset, size, bufferSize, hasData) <==> WriteAcceptedAsWritten(offset, size, bufferSize, hasData))
    ensures WriteAcceptedAsWritten(offset, size, bufferSize, hasData) && !WriteAccepted(offset, size, bufferSize, hasData) ==>
      offset as int + size as int >= U64Limit
  {
  }

  /** As written, a one-byte write at the last 64-bit offset into a 16-byte
      buffer passes the bounds check, although the byte lies far outside. */
  lemma WriteWrapsAsWritten()
    ensures WriteAcceptedAsWritten((U64Limit - 1) as u64, 1, 16, true)
    ensures !WriteAccepted((U64Limit - 1) as u64, 1, 16, true)
  {
  }

  /** `bytes` with the range starting at `offset` replaced by `src`. */
  function Splice(bytes: seq<bv8>, offset: nat, src: seq<bv8>): seq<bv8>
    requires offset + |src| <= |bytes|
  {
    bytes[..offset] + src + bytes[offset + |src|..]
  }

  /** Splicing keeps the length, puts `src` at `offset` and leaves every
      other byte as it was. */
  lemma SpliceSpec(bytes: seq<bv8>, offset: nat, src: seq<bv8>)
    requires offset + |src| <= |bytes|
    ensures |Splice(bytes, offset, src)| == |bytes|
    ensures forall i :: 0 <= i < |src| ==> Splice(bytes, offset, src)[offset + i] == src[i]
    ensures forall i :: 0 <= i < |bytes| && !(offset <= i < offset + |src|) ==>
      Splice(bytes, offset, src)[i] == bytes[i]
  {
  }

  class BufferVK {
    const size: u64
    const usage: bv32
    const memory: CgMemory.AllocateInfo
    /** The mapped memory. */
    const data: array<bv8>

    ghost predicate Valid()
    {
      data.Length == size as int && size != 0
    }

    constructor Init(size: u64, usage: bv32, memory: CgMemory.AllocateInfo)
      requires size != 0
      ensures Valid() && fresh(data)
      ensures this.size == size && this.usage == usage && this.memory == memory
    {
      this.size := size;
      this.usage := usage;
      this.memory := memory;
      data := new bv8[size as int];
    }

    /** The constructor: validates the size, substitutes the default usage,
        then creates, backs (with host-visible memory) and maps the buffer. */
    static method Create(size: u64, usage: bv32, dev: BufferDevice) returns (r: Result<BufferVK, Error>)
      requires dev.memProps.WellFormed()
      ensures r.Failure? <==> CreateError(size, dev).Some?
      ensures r.Failure? ==> r.error == CreateError(size, dev).value
      ensures r.Success? ==> fresh(r.value) && fresh(r.value.data) && r.value.Valid()
      ensures r.Success? ==> r.value.Size() == size && r.value.usage == EffectiveUsage(usage)
      ensures r.Success? ==>
        (r.value.memory == CgMemory.AllocateInfo(dev.memReq.size, CgMemory.ChosenType(dev.memProps, dev.memReq, true)))
    {
      if size == 0 {
        return Failure(InvalidArgument);
      }
      var use := usage;
      if use == 0 {
        use := TransferSrcBit | TransferDstBit | UniformBit | StorageBit | IndexBit | VertexBit | IndirectBit;
      }
      if !dev.createOk {
        return Failure(CreateFailed);
      }
      var mem := CgMemory.AllocateVK(dev.memProps, dev.memReq, true, dev.allocOk);
      if mem.Failure? {
        return Failure(MemoryFailed(mem.error));
      }
      if !dev.bindOk {
        return Failure(BindFailed);
      }
      if !dev.mapOk {
        return Failure(MapFailed);
      }
      var b := new BufferVK.Init(size, use, mem.value);
      return Success(b);
    }

    /** `size()`. */
    function Size(): u64
    {
      size
    }

    /** `write`: refuses a range that does not fit or a missing source and
        otherwise copies `len` bytes of the source to `offset`. */
    method Write(offset: u64, len: u64, src: Option<seq<bv8>>) returns (r: Outcome<Error>)
      requires Valid()
      requires src.Some? ==> len as int <= |src.value|
      modifies data
      ensures Valid()
      ensures r.Pass? <==> WriteAccepted(offset, len, size, src.Some?)
      ensures r.Fail? ==> r.error == InvalidArgument && data[..] == old(data[..])
      ensures r.Pass? ==> data[..] == Splice(old(data[..]), offset as int, src.value[..len])
    {
      if offset as int + len as int > size as int || src.None? {
        return Fail(InvalidArgument);
      }
      var bytes := src.value;
      forall i | offset as int <= i < offset as int + len as int {
        data[i] := bytes[i - offset as int];
      }
      assert data[..] == Splice(old(data[..]), offset as int, bytes[..len]);
      return Pass;
    }
  }
}
