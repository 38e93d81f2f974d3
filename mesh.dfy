/**
 * Mesh storage: every mesh's vertex and index data live in one shared
 * device buffer of 16 MiB, carved out by a first-fit allocator over an
 * ordered list of free segments. The shared buffer and free list (static
 * members in the source) are the `MeshStore` object that every mesh refers
 * to.
 */
module SgMesh {
  import opened Wrappers
  import opened CgTypes
  import CgBuffer
  import CgEncoder

  /** Size of the shared buffer: `1 << 24` bytes. */
  const Len: nat := 0x100_0000
  /** `UINT64_MAX`, the offset `copy` returns when nothing fits. */
  const NoOffset: int := 0xFFFF_FFFF_FFFF_FFFF

  /** A free range `[offset, offset + size)` of the shared buffer. */
  datatype Segment = Segment(offset: nat, size: nat)

  datatype Error =
    | BufferFull   // "Mesh buffer resize unimplemented"
    | OutOfBounds  // `updateVertices`/`updateIndices` out of bounds

  /** The free list's invariant: every segment is non-empty and inside the
      buffer, and the segments are in ascending order without overlap. */
  predicate SegmentsOk(segs: seq<Segment>)
  {
    && (forall i :: 0 <= i < |segs| ==> segs[i].size > 0 && segs[i].offset + segs[i].size <= Len)
    && (forall i, j :: 0 <= i < j < |segs| ==> segs[i].offset + segs[i].size <= segs[j].offset)
  }

  /** Index of the first segment at or after `from` with room for `size`
      bytes, or -1. */
  function FirstFit(segs: seq<Segment>, size: nat, from: nat): (r: int)
    ensures r == -1 || (from <= r < |segs| && segs[r].size >= size)
    decreases |segs| - from
  {
    if from >= |segs| then -1
    else if segs[from].size >= size then from
    else FirstFit(segs, size, from + 1)
  }

  /** The search is -1 exactly when no segment at or after `from` is large
      enough, and otherwise finds the first one that is. */
  lemma {:induction false} FirstFitSpec(segs: seq<Segment>, size: nat, from: nat)
    ensures var r := FirstFit(segs, size, from);
      && (r == -1 <==> forall i :: from <= i < |segs| ==> segs[i].size < size)
      && (r != -1 ==> segs[r].size >= size && forall i :: from <= i < r ==> segs[i].size < size)
    decreases |segs| - from
  {
    if from < |segs| && segs[from].size < size {
      FirstFitSpec(segs, size, from + 1);
    }
  }

  /** Segment `i` after `size` bytes are taken from its front; a segment
      left empty is removed. */
  function Carve(segs: seq<Segment>, i: nat, size: nat): seq<Segment>
    requires i < |segs| && segs[i].size >= size
  {
    var s := Segment(segs[i].offset + size, segs[i].size - size);
    if s.size == 0 then segs[..i] + segs[i + 1..] else segs[i := s]
  }

  /** The shared buffer's bytes after `copy(size, src)`: the first `size`
      bytes of `src` at the offset `copy` returns, or the bytes unchanged
      when nothing fits. */
  function CopyBytes(bytes: seq<bv8>, segs: seq<Segment>, size: nat, src: seq<bv8>): (r: seq<bv8>)
    requires SegmentsOk(segs) && |bytes| == Len && size <= |src|
    ensures |r| == |bytes|
  {
    CopySpec(segs, size);
    var offset := CopyOffset(segs, size);
    if offset == NoOffset then bytes else CgBuffer.Splice(bytes, offset, src[..size])
  }

  /** After a successful `copy` the allocated range holds the source bytes
      and every byte outside it is as before; after an unsuccessful one the
      buffer is unchanged. */
  lemma CopyBytesSpec(bytes: seq<bv8>, segs: seq<Segment>, size: nat, src: seq<bv8>)
    requires SegmentsOk(segs) && |bytes| == Len && size <= |src|
    ensures var r := CopyBytes(bytes, segs, size, src);
      var offset := CopyOffset(segs, size);
      && (offset == NoOffset ==> r == bytes)
      && (offset != NoOffset ==>
            && (forall i :: 0 <= i < size ==> r[offset + i] == src[i])
            && (forall i :: 0 <= i < |bytes| && !(offset <= i < offset + size) ==> r[i] == bytes[i]))
  {
    CopySpec(segs, size);
    var offset := CopyOffset(segs, size);
    if offset != NoOffset {
      CgBuffer.SpliceSpec(bytes, offset, src[..size]);
    }
  }

  /** The free list after `copy(size, ...)`. */
  function AfterCopy(segs: seq<Segment>, size: nat): seq<Segment>
  {
    var i := FirstFit(segs, size, 0);
    if i == -1 then segs else Carve(segs, i, size)
  }

  /** The offset `copy(size, ...)` returns. */
  function CopyOffset(segs: seq<Segment>, size: nat): int
  {
    var i := FirstFit(segs, size, 0);
    if i == -1 then NoOffset else segs[i].offset
  }

  function FreeBytes(segs: seq<Segment>): nat
  {
    if |segs| == 0 then 0 else FreeBytes(segs[..|segs| - 1]) + segs[|segs| - 1].size
  }

  lemma {:induction false} FreeBytesAppend(a: seq<Segment>, b: seq<Segment>)
    ensures FreeBytes(a + b) == FreeBytes(a) + FreeBytes(b)
    decreases |b|
  {
    if |b| > 0 {
      assert (a + b)[..|a + b| - 1] == a + b[..|b| - 1];
      FreeBytesAppend(a, b[..|b| - 1]);
    } else {
      assert a + b == a;
    }
  }

  /** A successful `copy` takes exactly `size` bytes off the free total, the
      free list keeps its invariant, and the returned range
      `[offset, offset + size)` lies inside the buffer and overlaps no free
      segment any more. An unsuccessful one changes nothing. */
  lemma CopySpec(segs: seq<Segment>, size: nat)
    requires SegmentsOk(segs)
    ensures SegmentsOk(AfterCopy(segs, size))
    ensures CopyOffset(segs, size) == NoOffset <==> forall i :: 0 <= i < |segs| ==> segs[i].size < size
    ensures CopyOffset(segs, size) == NoOffset ==> AfterCopy(segs, size) == segs
    ensures CopyOffset(segs, size) != NoOffset ==>
      && 0 <= CopyOffset(segs, size) && CopyOffset(segs, size) + size <= Len
      && FreeBytes(AfterCopy(segs, size)) == FreeBytes(segs) - size
      && forall t :: t in AfterCopy(segs, size) ==>
           t.offset + t.size <= CopyOffset(segs, size) || CopyOffset(segs, size) + size <= t.offset
  {
    FirstFitSpec(segs, size, 0);
    var i := FirstFit(segs, size, 0);
    if i != -1 {
      assert segs[i].offset + segs[i].size <= Len;
      CarveSpec(segs, i, size);
    }
  }

  lemma CarveSpec(segs: seq<Segment>, i: nat, size: nat)
    requires SegmentsOk(segs) && i < |segs| && segs[i].size >= size
    ensures SegmentsOk(Carve(segs, i, size))
    ensures FreeBytes(Carve(segs, i, size)) == FreeBytes(segs) - size
    ensures forall t :: t in Carve(segs, i, size) ==>
      t.offset + t.size <= segs[i].offset || segs[i].offset + size <= t.offset
  {
    FreeBytesSplit(segs, i);
    CarveOk(segs, i, size);
    var s := Segment(segs[i].offset + size, segs[i].size - size);
    if s.size == 0 {
      FreeBytesAppend(segs[..i], segs[i + 1..]);
      RemoveDisjoint(segs, i);
    } else {
      FreeBytesSplit(segs[i := s], i);
      assert segs[i := s][..i] == segs[..i] && segs[i := s][i + 1..] == segs[i + 1..];
      ShrinkDisjoint(segs, i, s);
    }
  }

  /** Carving keeps the free list's invariant. */
  lemma CarveOk(segs: seq<Segment>, i: nat, size: nat)
    requires SegmentsOk(segs) && i < |segs| && segs[i].size >= size
    ensures SegmentsOk(Carve(segs, i, size))
  {
    var s := Segment(segs[i].offset + size, segs[i].size - size);
    if s.size == 0 {
      RemoveOk(segs, i);
    } else {
      ShrinkOk(segs, i, s);
    }
  }

  /** The free total is the part before `i`, segment `i` and the rest. */
  lemma FreeBytesSplit(segs: seq<Segment>, i: nat)
    requires i < |segs|
    ensures FreeBytes(segs) == FreeBytes(segs[..i]) + segs[i].size + FreeBytes(segs[i + 1..])
  {
    assert segs == segs[..i] + [segs[i]] + segs[i + 1..];
    FreeBytesAppend(segs[..i] + [segs[i]], segs[i + 1..]);
    FreeBytesAppend(segs[..i], [segs[i]]);
    assert [segs[i]][..0] == [];
  }

  /** Position `k` of the list without segment `i`. */
  lemma RemovedAt(segs: seq<Segment>, i: nat, k: nat)
    requires i < |segs| && k < |segs| - 1
    ensures (segs[..i] + segs[i + 1..])[k] == segs[if k < i then k else k + 1]
  {
  }

  /** Dropping segment `i` keeps the invariant. */
  lemma RemoveOk(segs: seq<Segment>, i: nat)
    requires SegmentsOk(segs) && i < |segs|
    ensures SegmentsOk(segs[..i] + segs[i + 1..])
  {
    var c := segs[..i] + segs[i + 1..];
    forall k | 0 <= k < |c| ensures c[k].size > 0 && c[k].offset + c[k].size <= Len {
      RemovedAt(segs, i, k);
    }
    forall a, b | 0 <= a < b < |c| ensures c[a].offset + c[a].size <= c[b].offset {
      RemovedAt(segs, i, a);
      RemovedAt(segs, i, b);
    }
  }

  /** No segment left after dropping segment `i` overlaps it. */
  lemma RemoveDisjoint(segs: seq<Segment>, i: nat)
    requires SegmentsOk(segs) && i < |segs|
    ensures forall t :: t in segs[..i] + segs[i + 1..] ==>
      t.offset + t.size <= segs[i].offset || segs[i].offset + segs[i].size <= t.offset
  {
    var c := segs[..i] + segs[i + 1..];
    forall t | t in c
      ensures t.offset + t.size <= segs[i].offset || segs[i].offset + segs[i].size <= t.offset
    {
      var k :| 0 <= k < |c| && c[k] == t;
      RemovedAt(segs, i, k);
    }
  }

  /** Replacing segment `i` by a non-empty tail `s` of it keeps the
      invariant. */
  lemma ShrinkOk(segs: seq<Segment>, i: nat, s: Segment)
    requires SegmentsOk(segs) && i < |segs| && s.size > 0
    requires segs[i].offset <= s.offset && s.offset + s.size == segs[i].offset + segs[i].size
    ensures SegmentsOk(segs[i := s])
  {
    var c := segs[i := s];
    forall a, b | 0 <= a < b < |c| ensures c[a].offset + c[a].size <= c[b].offset {
      assert segs[a].offset + segs[a].size <= segs[b].offset;
    }
  }

  /** After the shrink no segment overlaps the bytes cut off. */
  lemma ShrinkDisjoint(segs: seq<Segment>, i: nat, s: Segment)
    requires SegmentsOk(segs) && i < |segs|
    requires segs[i].offset <= s.offset && s.offset + s.size == segs[i].offset + segs[i].size
    ensures forall t :: t in segs[i := s] ==> t.offset + t.size <= segs[i].offset || s.offset <= t.offset
  {
    var c := segs[i := s];
    forall t | t in c ensures t.offset + t.size <= segs[i].offset || s.offset <= t.offset {
      var k :| 0 <= k < |c| && c[k] == t;
      if k < i {
        assert segs[k].offset + segs[k].size <= segs[i].offset;
      } else if k > i {
        assert segs[i].offset + segs[i].size <= segs[k].offset;
      }
    }
  }

  /** The mesh unit test: from an empty buffer, two meshes of 200 vertex and
      100 index bytes and then one of 200 vertex bytes only are packed one
      after another, leaving a single free segment after them. */
  lemma PackingExample()
    ensures var s0 := [Segment(0, Len)];
      var s1 := AfterCopy(s0, 200);
      var s2 := AfterCopy(s1, 100);
      var s3 := AfterCopy(s2, 200);
      var s4 := AfterCopy(s3, 100);
      var s5 := AfterCopy(s4, 200);
      && CopyOffset(s0, 200) == 0 && CopyOffset(s1, 100) == 200
      && s2 == [Segment(300, Len - 300)]
      && CopyOffset(s2, 200) == 300 && CopyOffset(s3, 100) == 500
      && s4 == [Segment(600, Len - 600)]
      && CopyOffset(s4, 200) == 600 && s5 == [Segment(800, Len - 800)]
  {
  }

  /** The bounds check of `updateVertices`/`updateIndices`: the updated
      elements lie within the mesh's own count. */
  predicate UpdateAccepted(start: u32, count: u32, total: u32)
  {
    start as int + count as int <= total as int
  }

  /** The same check as written: `start + count` is computed in 32-bit
      unsigned arithmetic and wraps. */
  predicate UpdateAcceptedAsWritten(start: u32, count: u32, total: u32)
  {
    (start as int + count as int) % 0x1_0000_0000 <= total as int
  }

  /** The two checks agree unless the sum wraps. With a wrap, on a mesh of
      ten 16-byte vertices, start 0xF0000000 and count 0x10000001 pass the
      check as written (the sum wraps to 1); the 32-bit products
      `start * stride` and `count * stride` then wrap to offset 0 and size
      16, which lie inside the mesh's 160 bytes, so the buffer's own bounds
      check passes too and vertex 0 is overwritten. */
  lemma UpdateCheckAsWrittenWraps()
    ensures forall s: u32, c: u32, t: u32 :: s as int + c as int < 0x1_0000_0000 ==>
      (UpdateAccepted(s, c, t) <==> UpdateAcceptedAsWritten(s, c, t))
    ensures
      var start, count, total, stride := 0xF000_0000 as u32, 0x1000_0001 as u32, 10 as u32, 16 as u32;
      && UpdateAcceptedAsWritten(start, count, total)
      && !UpdateAccepted(start, count, total)
      && (start as int * stride as int) % 0x1_0000_0000 == 0
      && (count as int * stride as int) % 0x1_0000_0000 == stride as int
      && 0 + stride as int <= total as int * stride as int
  {
  }

  lemma MulBound(start: nat, count: nat, total: nat, stride: nat)
    requires start + count <= total
    ensures 0 <= start * stride && 0 <= count * stride
    ensures start * stride + count * stride <= total * stride
  {
    assert start * stride + count * stride == (start + count) * stride;
    assert (total - (start + count)) * stride >= 0;
    assert total * stride == (start + count) * stride + (total - (start + count)) * stride;
  }

  /** The bytes after elements `start` to `start + count` of an allocation
      of `total` elements of `stride` bytes at `base` are replaced by the
      front of `src`. */
  function UpdatedRange(bytes: seq<bv8>, base: nat, stride: u32, total: u32,
                        start: u32, count: u32, src: seq<bv8>): seq<bv8>
    requires base + total as int * stride as int <= |bytes|
    requires start as int + count as int <= total as int && count as int * stride as int <= |src|
  {
    MulBound(start as int, count as int, total as int, stride as int);
    CgBuffer.Splice(bytes, base + start as int * stride as int, src[..count as int * stride as int])
  }

  /** The shared, static state of every mesh: the device buffer and its free
      list. */
  class MeshStore {
    const buffer: CgBuffer.BufferVK
    /** The encoders' reference to the shared buffer. */
    const bufferRef: CgEncoder.Ref
    var segments: seq<Segment>

    ghost predicate Valid()
      reads this, buffer
    {
      buffer.Valid() && buffer.size as int == Len && SegmentsOk(segments)
    }

    /** The static initialisation: one free segment spanning the buffer. */
    constructor (buffer: CgBuffer.BufferVK, bufferRef: CgEncoder.Ref)
      requires buffer.Valid() && buffer.size as int == Len
      ensures Valid() && this.buffer == buffer && this.bufferRef == bufferRef
      ensures segments == [Segment(0, Len)]
    {
      this.buffer := buffer;
      this.bufferRef := bufferRef;
      segments := [Segment(0, Len)];
    }

    /** The constructor's `copy`: writes `size` bytes of `src` at the front
        of the first free segment large enough and takes them off it. */
    method Copy(size: nat, src: seq<bv8>) returns (offset: int)
      requires Valid() && size <= |src|
      modifies this, buffer.data
      ensures Valid()
      ensures offset == CopyOffset(old(segments), size)
      ensures segments == AfterCopy(old(segments), size)
      ensures offset == NoOffset ==> buffer.data[..] == old(buffer.data[..])
      ensures offset != NoOffset ==> (0 <= offset && offset + size <= Len
        && buffer.data[..] == CgBuffer.Splice(old(buffer.data[..]), offset, src[..size]))
      ensures buffer.data[..] == CopyBytes(old(buffer.data[..]), old(segments), size, src)
    {
      var i := FindFit(size);
      if i == -1 {
        return NoOffset;
      }
      offset := segments[i].offset;
      assert offset + segments[i].size <= Len;
      var written := buffer.Write(offset as CgBuffer.u64, size as CgBuffer.u64, Some(src));
      assert written.Pass?;
      TakeFront(i, size);
    }

    /** The write both updates share: elements `start` to `start + count`
        of an allocation of `total` elements at `base`. */
    method WriteElements(base: int, start: u32, count: u32, stride: u32, total: u32, src: seq<bv8>)
      requires buffer.Valid() && buffer.size as int == Len
      requires 0 <= base && base + total as int * stride as int <= Len
      requires start as int + count as int <= total as int && count as int * stride as int <= |src|
      modifies buffer.data
      ensures buffer.data[..] == UpdatedRange(old(buffer.data[..]), base, stride, total, start, count, src)
    {
      var offset := start as int * stride as int;
      var size := count as int * stride as int;
      assert 0 <= offset && 0 <= size && base + offset + size <= Len by {
        MulBound(start as int, count as int, total as int, stride as int);
      }
      ghost var before := buffer.data[..];
      var written := buffer.Write((base + offset) as CgBuffer.u64, size as CgBuffer.u64, Some(src));
      assert written.Pass?;
      assert buffer.data[..] == CgBuffer.Splice(before, base + offset, src[..size]);
    }

    /** The search of `copy`: the first free segment with room for `size`
        bytes. */
    method FindFit(size: nat) returns (i: int)
      ensures i == FirstFit(segments, size, 0)
    {
      i := 0;
      while i < |segments| && segments[i].size < size
        invariant 0 <= i <= |segments|
        invariant FirstFit(segments, size, 0) == FirstFit(segments, size, i)
      {
        i := i + 1;
      }
      if i == |segments| {
        i := -1;
      }
    }

    /** The update of `copy`: segment `i` loses its first `size` bytes and is
        erased once empty. */
    method TakeFront(i: nat, size: nat)
      requires Valid() && i < |segments| && segments[i].size >= size
      modifies this
      ensures Valid() && segments == Carve(old(segments), i, size)
    {
      CarveOk(segments, i, size);
      var s := segments[i];
      s := s.(offset := s.offset + size, size := s.size - size);
      if s.size == 0 {
        segments := segments[..i] + segments[i + 1..];
      } else {
        segments := segments[i := s];
      }
    }
  }

  /** The mesh data handed to the constructor. */
  datatype MeshData = MeshData(vxData: seq<bv8>, vxCount: u32, vxStride: u32,
                               ixData: seq<bv8>, ixCount: u32, ixStride: u32)

  /** The data's byte counts fit the supplied sources. */
  predicate SourcesCover(d: MeshData)
  {
    && d.vxCount as int * d.vxStride as int <= |d.vxData|
    && (d.ixCount > 0 ==> d.ixCount as int * d.ixStride as int <= |d.ixData|)
  }

  /** `Mesh::Impl`: one mesh's place in the shared buffer. */
  class MeshImpl {
    const store: MeshStore
    const vxOffset: int
    const vxCount: u32
    const vxStride: u32
    const ixOffset: int
    const ixCount: u32
    const ixStride: u32

    ghost predicate Valid()
      reads this, store, store.buffer
    {
      && store.Valid()
      && 0 <= vxOffset && vxOffset + vxCount as int * vxStride as int <= Len
      && (ixCount > 0 ==> 0 <= ixOffset && ixOffset + ixCount as int * ixStride as int <= Len)
    }

    constructor Init(store: MeshStore, d: MeshData, vxOffset: int, ixOffset: int)
      ensures this.store == store && this.vxOffset == vxOffset && this.ixOffset == ixOffset
      ensures vxCount == d.vxCount && vxStride == d.vxStride
      ensures ixCount == d.ixCount && ixStride == d.ixStride
    {
      this.store := store;
      this.vxOffset, this.vxCount, this.vxStride := vxOffset, d.vxCount, d.vxStride;
      this.ixOffset, this.ixCount, this.ixStride := ixOffset, d.ixCount, d.ixStride;
    }

    /** The two `copy` calls of `Impl(const Data&)`: the vertex bytes, then
        the index bytes when there are indices and the vertex bytes found
        room. */
    static method Allocate(store: MeshStore, d: MeshData) returns (vxOffset: int, ixOffset: int)
      requires store.Valid() && SourcesCover(d)
      modifies store, store.buffer.data
      ensures store.Valid()
      ensures var s0 := old(store.segments);
        var vxSize := d.vxCount as int * d.vxStride as int;
        var ixSize := d.ixCount as int * d.ixStride as int;
        && SegmentsOk(AfterCopy(s0, vxSize))
        && vxOffset == CopyOffset(s0, vxSize)
        && (vxOffset != NoOffset ==> 0 <= vxOffset && vxOffset + vxSize <= Len)
        && ixOffset == (if vxOffset == NoOffset || d.ixCount == 0 then NoOffset
                        else CopyOffset(AfterCopy(s0, vxSize), ixSize))
        && (ixOffset != NoOffset ==> 0 <= ixOffset && ixOffset + ixSize <= Len)
        && store.segments == (if vxOffset == NoOffset then s0
                              else if d.ixCount == 0 then AfterCopy(s0, vxSize)
                              else AfterCopy(AfterCopy(s0, vxSize), ixSize))
      ensures var s0 := old(store.segments);
        var b0 := old(store.buffer.data[..]);
        var vxSize := d.vxCount as int * d.vxStride as int;
        var b1 := CopyBytes(b0, s0, vxSize, d.vxData);
        store.buffer.data[..] == (if vxOffset == NoOffset then b0
                                  else if d.ixCount == 0 then b1
                                  else CopyBytes(b1, AfterCopy(s0, vxSize), d.ixCount as int * d.ixStride as int, d.ixData))
    {
      var vxSize := d.vxCount as int * d.vxStride as int;
      CopySpec(store.segments, vxSize);
      vxOffset := store.Copy(vxSize, d.vxData);
      ixOffset := NoOffset;
      if vxOffset != NoOffset && d.ixCount > 0 {
        var ixSize := d.ixCount as int * d.ixStride as int;
        ixOffset := store.Copy(ixSize, d.ixData);
      }
    }

    /** `Impl(const Data&)`: allocates the vertex bytes, then the index bytes
        when there are indices. A failed index allocation leaves the vertex
        bytes taken. */
    static method Create(store: MeshStore, d: MeshData) returns (r: Result<MeshImpl, Error>)
      requires store.Valid() && SourcesCover(d)
      modifies store, store.buffer.data
      ensures store.Valid()
      ensures SegmentsOk(AfterCopy(old(store.segments), d.vxCount as int * d.vxStride as int))
      ensures var s0 := old(store.segments);
        var vxSize := d.vxCount as int * d.vxStride as int;
        var s1 := AfterCopy(s0, vxSize);
        var ixSize := d.ixCount as int * d.ixStride as int;
        && (CopyOffset(s0, vxSize) == NoOffset ==> r == Failure(BufferFull) && store.segments == s0)
        && (CopyOffset(s0, vxSize) != NoOffset && d.ixCount == 0 ==>
              r.Success? && r.value.vxOffset == CopyOffset(s0, vxSize) && r.value.ixOffset == NoOffset
              && store.segments == s1)
        && (CopyOffset(s0, vxSize) != NoOffset && d.ixCount > 0 && CopyOffset(s1, ixSize) == NoOffset ==>
              r == Failure(BufferFull) && store.segments == s1)
        && (CopyOffset(s0, vxSize) != NoOffset && d.ixCount > 0 && CopyOffset(s1, ixSize) != NoOffset ==>
              r.Success? && r.value.vxOffset == CopyOffset(s0, vxSize) && r.value.ixOffset == CopyOffset(s1, ixSize)
              && store.segments == AfterCopy(s1, ixSize))
      ensures var s0 := old(store.segments);
        var b0 := old(store.buffer.data[..]);
        var vxSize := d.vxCount as int * d.vxStride as int;
        var b1 := CopyBytes(b0, s0, vxSize, d.vxData);
        && (CopyOffset(s0, vxSize) == NoOffset ==> store.buffer.data[..] == b0)
        && (CopyOffset(s0, vxSize) != NoOffset && d.ixCount == 0 ==> store.buffer.data[..] == b1)
        && (CopyOffset(s0, vxSize) != NoOffset && d.ixCount > 0 ==>
              store.buffer.data[..] == CopyBytes(b1, AfterCopy(s0, vxSize),
                                                 d.ixCount as int * d.ixStride as int, d.ixData))
      ensures r.Success? ==> fresh(r.value) && r.value.Valid() && r.value.store == store
      ensures r.Success? ==> r.value.vxCount == d.vxCount && r.value.vxStride == d.vxStride
      ensures r.Success? ==> r.value.ixCount == d.ixCount && r.value.ixStride == d.ixStride
    {
      var vxOffset, ixOffset := Allocate(store, d);
      if vxOffset == NoOffset || (d.ixCount > 0 && ixOffset == NoOffset) {
        return Failure(BufferFull);
      }
      var m := new MeshImpl.Init(store, d, vxOffset, ixOffset);
      return Success(m);
    }

    /** `updateVertices`: rewrites `count` vertices from `start` on. */
    method UpdateVertices(src: seq<bv8>, start: u32, count: u32) returns (r: Outcome<Error>)
      requires Valid() && count as int * vxStride as int <= |src|
      modifies store.buffer.data
      ensures Valid()
      ensures r.Pass? <==> UpdateAccepted(start, count, vxCount)
      ensures r.Fail? ==> r.error == OutOfBounds && store.buffer.data[..] == old(store.buffer.data[..])
      ensures r.Pass? ==> (store.buffer.data[..] ==
        UpdatedRange(old(store.buffer.data[..]), vxOffset, vxStride, vxCount, start, count, src))
    {
      if start as int + count as int > vxCount as int {
        return Fail(OutOfBounds);
      }
      store.WriteElements(vxOffset, start, count, vxStride, vxCount, src);
      return Pass;
    }

    /** `updateIndices`: rewrites `count` indices from `start` on. */
    method UpdateIndices(src: seq<bv8>, start: u32, count: u32) returns (r: Outcome<Error>)
      requires Valid() && count as int * ixStride as int <= |src|
      modifies store.buffer.data
      ensures Valid()
      ensures r.Pass? <==> UpdateAccepted(start, count, ixCount) && ixCount > 0
      ensures r.Fail? ==> r.error == OutOfBounds && store.buffer.data[..] == old(store.buffer.data[..])
      ensures r.Pass? ==> (store.buffer.data[..] ==
        UpdatedRange(old(store.buffer.data[..]), ixOffset, ixStride, ixCount, start, count, src))
    {
      if start as int + count as int > ixCount as int {
        return Fail(OutOfBounds);
      }
      if ixCount == 0 {
        // No index data was allocated: `ixOffset` is UINT64_MAX, which the
        // buffer's own range check refuses.
        return Fail(OutOfBounds);
      }
      store.WriteElements(ixOffset, start, count, ixStride, ixCount, src);
      return Pass;
    }

    /** The index type the bindings use: 16-bit for a stride of 2. */
    function IndexTypeOf(): CgEncoder.IndexType
      reads this
    {
      if ixStride == 2 then CgEncoder.IndexTypeU16 else CgEncoder.IndexTypeU32
    }

    /** `encodeBindings`: the vertex buffer binding, then the index buffer
        binding when the mesh has indices. */
    method EncodeBindings(encoder: CgEncoder.GrEncoder, inputIndex: u32)
      requires Valid() && encoder.Valid()
      modifies encoder
      ensures encoder.Valid()
      ensures encoder.encoding == old(encoder.encoding)
        + [CgEncoder.VxBufferCmd(store.bufferRef, vxOffset as CgEncoder.u64, inputIndex)]
        + (if ixCount > 0 then [CgEncoder.IxBufferCmd(store.bufferRef, ixOffset as CgEncoder.u64, IndexTypeOf())]
           else [])
    {
      encoder.SetVertexBuffer(store.bufferRef, vxOffset as CgEncoder.u64, inputIndex);
      if ixCount > 0 {
        var indexType := if ixStride == 2 then CgEncoder.IndexTypeU16 else CgEncoder.IndexTypeU32;
        encoder.SetIndexBuffer(store.bufferRef, ixOffset as CgEncoder.u64, indexType);
      }
    }

    /** `encodeDraw`: an indexed draw of every index when there are indices,
        otherwise a draw of every vertex. */
    method EncodeDraw(encoder: CgEncoder.GrEncoder, baseInstance: u32, instanceCount: u32)
      requires encoder.Valid()
      modifies encoder
      ensures encoder.Valid()
      ensures encoder.encoding == old(encoder.encoding)
        + [if ixCount > 0 then CgEncoder.DrawIxCmd(0, ixCount, 0, baseInstance, instanceCount)
           else CgEncoder.DrawCmd(0, vxCount, baseInstance, instanceCount)]
    {
      if ixCount > 0 {
        encoder.DrawIndexed(0, ixCount, 0, baseInstance, instanceCount);
      } else {
        encoder.Draw(0, vxCount, baseInstance, instanceCount);
      }
    }
  }
}
