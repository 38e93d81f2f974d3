/**
 * Device-memory type selection with a host-visible fallback. The device's
 * memory properties, and whether the driver's allocation call succeeds, are
 * supplied by the caller: the model does not talk to a device.
 */
module CgMemory {
  import opened Wrappers

  newtype u64 = x: int | 0 <= x < 0x1_0000_0000_0000_0000

  const MaxMemoryTypes: nat := 32

  // Memory property bits.
  const DeviceLocalBit: bv32 := 0x1
  const HostVisibleBit: bv32 := 0x2
  const HostCoherentBit: bv32 := 0x4

  /** The device's memory-type table: a fixed array of 32 entries of which
      the first `memoryTypeCount` are meaningful. */
  datatype MemProperties = MemProperties(memoryTypeCount: nat, propertyFlags: seq<bv32>)
  {
    predicate WellFormed()
    {
      memoryTypeCount <= MaxMemoryTypes && |propertyFlags| == MaxMemoryTypes
    }
  }

  datatype MemRequirements = MemRequirements(size: u64, memoryTypeBits: bv32)

  /** The allocation request handed to the driver. */
  datatype AllocateInfo = AllocateInfo(allocationSize: u64, memoryTypeIndex: nat)

  datatype Error = NoSuitableMemoryType | AllocationFailed

  /** Type `i` is allowed by `requirement` and has every bit of `properties`. */
  predicate Qualifies(mp: MemProperties, requirement: bv32, properties: bv32, i: nat)
    requires mp.WellFormed()
  {
    i < mp.memoryTypeCount && Allowed(requirement, i) && HasAll(mp.propertyFlags[i], properties)
  }

  /** Bit `i` of a memory-type mask is set. */
  predicate Allowed(requirement: bv32, i: nat)
    requires i < 32
  {
    requirement & ((1 as bv32) << i) != 0
  }

  /** `Allowed` is the test of bit `i` read off by shifting the mask right:
      exactly the types whose bit is set in `memoryTypeBits` are allowed. */
  lemma AllowedIsBit(requirement: bv32, i: nat)
    requires i < 32
    ensures Allowed(requirement, i) <==> (requirement >> i) & 1 == 1
  {
    // one bit position at a time, so that every shift amount is a literal
    match i
      case 0 =>
      case 1 =>
      case 2 =>
      case 3 =>
      case 4 =>
      case 5 =>
      case 6 =>
      case 7 =>
      case 8 =>
      case 9 =>
      case 10 =>
      case 11 =>
      case 12 =>
      case 13 =>
      case 14 =>
      case 15 =>
      case 16 =>
      case 17 =>
      case 18 =>
      case 19 =>
      case 20 =>
      case 21 =>
      case 22 =>
      case 23 =>
      case 24 =>
      case 25 =>
      case 26 =>
      case 27 =>
      case 28 =>
      case 29 =>
      case 30 =>
      case 31 =>
  }

  /** Mask 0x2 allows type 1 only, and mask 0x1 allows type 0 only. */
  lemma AllowedExamples()
    ensures Allowed(0x2, 1) && !Allowed(0x2, 0) && !Allowed(0x2, 2)
    ensures Allowed(0x1, 0) && !Allowed(0x1, 1) && !Allowed(0x1, 5)
  {
  }

  /** `flags` contains every bit of `properties`. */
  predicate HasAll(flags: bv32, properties: bv32)
  {
    flags & properties == properties
  }

  /** The first qualifying type at or after `from`, or -1. */
  function FirstQualifying(mp: MemProperties, requirement: bv32, properties: bv32, from: nat): (r: int)
    requires mp.WellFormed()
    ensures r == -1 || from <= r < mp.memoryTypeCount
    decreases MaxMemoryTypes - from
  {
    if from >= mp.memoryTypeCount then -1
    else if Qualifies(mp, requirement, properties, from) then from
    else FirstQualifying(mp, requirement, properties, from + 1)
  }

  /** The search result is -1 exactly when nothing at or after `from`
      qualifies, and otherwise the lowest qualifying index. */
  lemma {:induction false} FirstQualifyingSpec(mp: MemProperties, requirement: bv32, properties: bv32, from: nat)
    requires mp.WellFormed()
    ensures var r := FirstQualifying(mp, requirement, properties, from);
      && (r == -1 <==> forall i: nat :: from <= i ==> !Qualifies(mp, requirement, properties, i))
      && (r != -1 ==> from <= r && Qualifies(mp, requirement, properties, r)
                      && forall i: nat :: from <= i < r ==> !Qualifies(mp, requirement, properties, i))
    decreases MaxMemoryTypes - from
  {
    if from < mp.memoryTypeCount && !Qualifies(mp, requirement, properties, from) {
      FirstQualifyingSpec(mp, requirement, properties, from + 1);
    }
  }

  /** `selectMemory`: scans the types in index order. */
  method SelectMemory(mp: MemProperties, requirement: bv32, properties: bv32) returns (r: int)
    requires mp.WellFormed()
    ensures r == FirstQualifying(mp, requirement, properties, 0)
    ensures r == -1 || (0 <= r < mp.memoryTypeCount as int && Qualifies(mp, requirement, properties, r))
  {
    for i := 0 to mp.memoryTypeCount
      invariant FirstQualifying(mp, requirement, properties, 0) == FirstQualifying(mp, requirement, properties, i)
    {
      if Allowed(requirement, i) {
        var propFlags := mp.propertyFlags[i];
        if HasAll(propFlags, properties) {
          return i;
        }
      }
    }
    return -1;
  }

  /** Two host-visible, host-coherent types of which only type 1 is allowed
      by the mask 0x2: the search skips type 0 and selects type 1, and so
      does allocateVK's preferred search for a host-visible buffer. */
  lemma SelectMaskTwoExample()
    ensures var mp := MemProperties(2, [0x7, 0x7] + seq(30, _ => 0));
      && FirstQualifying(mp, 0x2, 0x7, 0) == 1
      && ChosenType(mp, MemRequirements(64, 0x2), true) == 1
  {
    var mp := MemProperties(2, [0x7, 0x7] + seq(30, _ => 0));
    assert !Allowed(0x2, 0) && Allowed(0x2, 1);
    assert mp.propertyFlags[1] == 0x7;
    assert FirstQualifying(mp, 0x2, 0x7, 0) == FirstQualifying(mp, 0x2, 0x7, 1);
  }

  /** The properties asked for first. */
  function PreferredProperties(hostVisible: bool): bv32
  {
    if hostVisible then DeviceLocalBit | HostVisibleBit | HostCoherentBit else DeviceLocalBit
  }

  /** The properties asked for after the first search fails: the same
      without DEVICE_LOCAL. */
  function FallbackProperties(hostVisible: bool): bv32
  {
    PreferredProperties(hostVisible) & !DeviceLocalBit
  }

  /** The memory type allocateVK settles on, or -1 when it throws. */
  function ChosenType(mp: MemProperties, req: MemRequirements, hostVisible: bool): (r: int)
    requires mp.WellFormed()
    ensures r == -1 || 0 <= r < mp.memoryTypeCount
  {
    var first := FirstQualifying(mp, req.memoryTypeBits, PreferredProperties(hostVisible), 0);
    if first != -1 then first
    else FirstQualifying(mp, req.memoryTypeBits, FallbackProperties(hostVisible), 0)
  }

  /** `allocateVK`: the preferred search, then the fallback, then the driver
      allocation, whose outcome is `allocOk`. */
  method AllocateVK(mp: MemProperties, req: MemRequirements, hostVisible: bool, allocOk: bool)
    returns (r: Result<AllocateInfo, Error>)
    requires mp.WellFormed()
    ensures ChosenType(mp, req, hostVisible) == -1 ==> r == Failure(NoSuitableMemoryType)
    ensures ChosenType(mp, req, hostVisible) != -1 && !allocOk ==> r == Failure(AllocationFailed)
    ensures ChosenType(mp, req, hostVisible) != -1 && allocOk ==>
      r == Success(AllocateInfo(req.size, ChosenType(mp, req, hostVisible)))
  {
    var prop := DeviceLocalBit;
    if hostVisible {
      prop := prop | HostVisibleBit | HostCoherentBit;
    }
    var memType := SelectMemory(mp, req.memoryTypeBits, prop);
    if memType == -1 {
      prop := prop & !DeviceLocalBit;
      memType := SelectMemory(mp, req.memoryTypeBits, prop);
      if memType == -1 {
        return Failure(NoSuitableMemoryType);
      }
    }
    if !allocOk {
      return Failure(AllocationFailed);
    }
    r := Success(AllocateInfo(req.size, memType));
  }

  /** The chosen type is one the requirement allows, has HOST_VISIBLE and
      HOST_COHERENT when asked for, and is device-local whenever some allowed
      type with the other asked-for properties is. */
  lemma ChosenTypeSpec(mp: MemProperties, req: MemRequirements, hostVisible: bool)
    requires mp.WellFormed()
    ensures var t := ChosenType(mp, req, hostVisible);
      && (t != -1 ==> Qualifies(mp, req.memoryTypeBits, FallbackProperties(hostVisible), t))
      && (t == -1 <==> forall i: nat :: !Qualifies(mp, req.memoryTypeBits, FallbackProperties(hostVisible), i))
      && ((exists i: nat :: Qualifies(mp, req.memoryTypeBits, PreferredProperties(hostVisible), i)) ==>
            t != -1 && Qualifies(mp, req.memoryTypeBits, PreferredProperties(hostVisible), t))
  {
    var bits := req.memoryTypeBits;
    var pref, fall := PreferredProperties(hostVisible), FallbackProperties(hostVisible);
    FirstQualifyingSpec(mp, bits, pref, 0);
    FirstQualifyingSpec(mp, bits, fall, 0);
    forall i: nat | Qualifies(mp, bits, pref, i) ensures Qualifies(mp, bits, fall, i) {
      assert fall & pref == fall;
      FlagsSubset(mp.propertyFlags[i], pref, fall);
    }
  }

  lemma FlagsSubset(flags: bv32, pref: bv32, fall: bv32)
    requires HasAll(flags, pref) && fall & pref == fall
    ensures HasAll(flags, fall)
  {
    assert flags & fall == (flags & pref) & fall;
  }

  /** Without host visibility the fallback asks for no property at all, so
      it takes the lowest type the requirement allows. */
  lemma FallbackWithoutHostVisibility(mp: MemProperties, req: MemRequirements)
    requires mp.WellFormed()
    ensures FallbackProperties(false) == 0
    ensures forall i: nat :: Qualifies(mp, req.memoryTypeBits, 0, i) <==>
      (i < mp.memoryTypeCount && Allowed(req.memoryTypeBits, i))
  {
  }
}
