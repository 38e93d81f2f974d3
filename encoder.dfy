/**
 * Command encoders: append-only lists of recorded commands. A graphics,
 * compute or transfer encoder fixes its type at construction; every
 * recording call appends exactly one command describing its arguments.
 * Object pointers (states, targets, buffers) are opaque references.
 */
module CgEncoder {
  import opened CgTypes

  newtype u64 = x: int | 0 <= x < 0x1_0000_0000_0000_0000

  /** A raw pointer argument: null or the identity of some object. */
  datatype Ref = Null | Ref(id: nat)

  datatype Viewport = Viewport(x: real, y: real, width: real, height: real, zNear: real, zFar: real)
  datatype Scissor = Scissor(offset: Offset2, size: Size2)
  datatype Color = Color(r: real, g: real, b: real, a: real)
  datatype IndexType = IndexTypeU16 | IndexTypeU32

  /** One recorded command; the constructor is the command's type tag. */
  datatype Cmd =
    | StateGrCmd(grState: Ref)
    | StateCpCmd(cpState: Ref)
    | ViewportCmd(viewport: Viewport, viewportIndex: u32)
    | ScissorCmd(scissor: Scissor, scissorIndex: u32)
    | TargetCmd(target: Ref)
    | DcTableCmd(tableIndex: u32, allocIndex: u32)
    | VxBufferCmd(vxBuffer: Ref, vxOffset: u64, inputIndex: u32)
    | IxBufferCmd(ixBuffer: Ref, ixOffset: u64, indexType: IndexType)
    | DrawCmd(vertexStart: u32, vertexCount: u32, baseInstance: u32, instanceCount: u32)
    | DrawIxCmd(indexStart: u32, ixVertexCount: u32, vertexOffset: i32,
                ixBaseInstance: u32, ixInstanceCount: u32)
    | DispatchCmd(size: Size3)
    | ClearClCmd(color: Color, colorIndex: u32)
    | ClearDpCmd(depth: real)
    | ClearScCmd(stencil: u32)

  datatype EncoderType = Graphics | Compute | Transfer

  /** The commands a graphics encoder can record. */
  predicate IsGraphicsCmd(c: Cmd)
  {
    !c.StateCpCmd? && !c.DispatchCmd?
  }

  /** The commands a compute encoder can record. */
  predicate IsComputeCmd(c: Cmd)
  {
    c.StateCpCmd? || c.DcTableCmd? || c.DispatchCmd?
  }

  // Default arguments of the recording calls.
  const DefaultViewportIndex: u32 := 0
  const DefaultBaseInstance: u32 := 0
  const DefaultInstanceCount: u32 := 1
  const DefaultVertexOffset: i32 := 0

  class GrEncoder {
    const kind: EncoderType
    var encoding: seq<Cmd>

    /** Every recorded command is a graphics command. */
    ghost predicate Valid()
      reads this
    {
      kind == Graphics && forall k :: 0 <= k < |encoding| ==> IsGraphicsCmd(encoding[k])
    }

    constructor ()
      ensures Valid() && kind == Graphics && encoding == []
    {
      kind := Graphics;
      encoding := [];
    }

    function Type(): EncoderType { kind }

    function Encoding(): seq<Cmd>
      reads this
    {
      encoding
    }

    method SetState(state: Ref)
      requires Valid()
      modifies this
      ensures Valid() && encoding == old(encoding) + [StateGrCmd(state)]
    {
      encoding := encoding + [StateGrCmd(state)];
    }

    method SetViewport(viewport: Viewport, viewportIndex: u32 := DefaultViewportIndex)
      requires Valid()
      modifies this
      ensures Valid() && encoding == old(encoding) + [ViewportCmd(viewport, viewportIndex)]
    {
      encoding := encoding + [ViewportCmd(viewport, viewportIndex)];
    }

    method SetScissor(scissor: Scissor, viewportIndex: u32 := DefaultViewportIndex)
      requires Valid()
      modifies this
      ensures Valid() && encoding == old(encoding) + [ScissorCmd(scissor, viewportIndex)]
    {
      encoding := encoding + [ScissorCmd(scissor, viewportIndex)];
    }

    method SetTarget(target: Ref)
      requires Valid()
      modifies this
      ensures Valid() && encoding == old(encoding) + [TargetCmd(target)]
    {
      encoding := encoding + [TargetCmd(target)];
    }

    method SetDcTable(tableIndex: u32, allocIndex: u32)
      requires Valid()
      modifies this
      ensures Valid() && encoding == old(encoding) + [DcTableCmd(tableIndex, allocIndex)]
    {
      encoding := encoding + [DcTableCmd(tableIndex, allocIndex)];
    }

    method SetVertexBuffer(buffer: Ref, offset: u64, inputIndex: u32)
      requires Valid()
      modifies this
      ensures Valid() && encoding == old(encoding) + [VxBufferCmd(buffer, offset, inputIndex)]
    {
      encoding := encoding + [VxBufferCmd(buffer, offset, inputIndex)];
    }

    method SetIndexBuffer(buffer: Ref, offset: u64, indexType: IndexType)
      requires Valid()
      modifies this
      ensures Valid() && encoding == old(encoding) + [IxBufferCmd(buffer, offset, indexType)]
    {
      encoding := encoding + [IxBufferCmd(buffer, offset, indexType)];
    }

    method Draw(vertexStart: u32, vertexCount: u32,
                baseInstance: u32 := DefaultBaseInstance, instanceCount: u32 := DefaultInstanceCount)
      requires Valid()
      modifies this
      ensures Valid()
      ensures encoding == old(encoding) + [DrawCmd(vertexStart, vertexCount, baseInstance, instanceCount)]
    {
      encoding := encoding + [DrawCmd(vertexStart, vertexCount, baseInstance, instanceCount)];
    }

    method DrawIndexed(indexStart: u32, vertexCount: u32, vertexOffset: i32 := DefaultVertexOffset,
                       baseInstance: u32 := DefaultBaseInstance,
                       instanceCount: u32 := DefaultInstanceCount)
      requires Valid()
      modifies this
      ensures Valid()
      ensures encoding == old(encoding) +
        [DrawIxCmd(indexStart, vertexCount, vertexOffset, baseInstance, instanceCount)]
    {
      encoding := encoding + [DrawIxCmd(indexStart, vertexCount, vertexOffset, baseInstance, instanceCount)];
    }

    method ClearColor(value: Color, colorIndex: u32 := 0)
      requires Valid()
      modifies this
      ensures Valid() && encoding == old(encoding) + [ClearClCmd(value, colorIndex)]
    {
      encoding := encoding + [ClearClCmd(value, colorIndex)];
    }

    method ClearDepth(value: real)
      requires Valid()
      modifies this
      ensures Valid() && encoding == old(encoding) + [ClearDpCmd(value)]
    {
      encoding := encoding + [ClearDpCmd(value)];
    }

    method ClearStencil(value: u32)
      requires Valid()
      modifies this
      ensures Valid() && encoding == old(encoding) + [ClearScCmd(value)]
    {
      encoding := encoding + [ClearScCmd(value)];
    }
  }

  class CpEncoder {
    const kind: EncoderType
    var encoding: seq<Cmd>

    /** Every recorded command is a compute command. */
    ghost predicate Valid()
      reads this
    {
      kind == Compute && forall k :: 0 <= k < |encoding| ==> IsComputeCmd(encoding[k])
    }

    constructor ()
      ensures Valid() && kind == Compute && encoding == []
    {
      kind := Compute;
      encoding := [];
    }

    function Type(): EncoderType { kind }

    function Encoding(): seq<Cmd>
      reads this
    {
      encoding
    }

    method SetState(state: Ref)
      requires Valid()
      modifies this
      ensures Valid() && encoding == old(encoding) + [StateCpCmd(state)]
    {
      encoding := encoding + [StateCpCmd(state)];
    }

    method SetDcTable(tableIndex: u32, allocIndex: u32)
      requires Valid()
      modifies this
      ensures Valid() && encoding == old(encoding) + [DcTableCmd(tableIndex, allocIndex)]
    {
      encoding := encoding + [DcTableCmd(tableIndex, allocIndex)];
    }

    method Dispatch(size: Size3)
      requires Valid()
      modifies this
      ensures Valid() && encoding == old(encoding) + [DispatchCmd(size)]
    {
      encoding := encoding + [DispatchCmd(size)];
    }
  }

  /** A transfer encoder records nothing yet: only its type is defined. */
  class TfEncoder {
    const kind: EncoderType
    var encoding: seq<Cmd>

    constructor ()
      ensures kind == Transfer && encoding == []
    {
      kind := Transfer;
      encoding := [];
    }

    function Type(): EncoderType { kind }

    function Encoding(): seq<Cmd>
      reads this
    {
      encoding
    }
  }

  /** The graphics half of the encoder unit test, with the header's
      defaults filled in. */
  method GraphicsScenario() returns (gr: seq<Cmd>)
    ensures |gr| == 12
    ensures gr[1] == ViewportCmd(Viewport(0.0, 0.0, 480.0, 300.0, 0.0, 1.0), 0)
    ensures gr[5] == VxBufferCmd(Null, 128, 0) && gr[6] == IxBufferCmd(Null, 256, IndexTypeU16)
    ensures gr[7] == DrawCmd(0, 3, 0, 1) && gr[8] == DrawIxCmd(6, 36, -6, 10, 50)
    ensures gr[9] == ClearClCmd(Color(0.0, 1.0, 0.0, 1.0), 0)
  {
    var enc := new GrEncoder();
    enc.SetState(Null);
    enc.SetViewport(Viewport(0.0, 0.0, 480.0, 300.0, 0.0, 1.0));
    enc.SetScissor(Scissor(Offset2(0, 0), Size2(480, 300)));
    enc.SetTarget(Null);
    enc.SetDcTable(1, 15);
    ghost var head := enc.encoding;
    assert |head| == 5 && head[1] == ViewportCmd(Viewport(0.0, 0.0, 480.0, 300.0, 0.0, 1.0), 0);
    RecordDraws(enc);
    gr := enc.Encoding();
    assert gr[..5] == head;
  }

  /** The draw and clear commands of the graphics scenario. */
  method RecordDraws(enc: GrEncoder)
    requires enc.Valid()
    modifies enc
    ensures enc.Valid()
    ensures enc.encoding == old(enc.encoding) + [VxBufferCmd(Null, 128, 0), IxBufferCmd(Null, 256, IndexTypeU16),
      DrawCmd(0, 3, 0, 1), DrawIxCmd(6, 36, -6, 10, 50), ClearClCmd(Color(0.0, 1.0, 0.0, 1.0), 0),
      ClearDpCmd(1.0), ClearScCmd(0xFF)]
  {
    enc.SetVertexBuffer(Null, 128, 0);
    enc.SetIndexBuffer(Null, 256, IndexTypeU16);
    enc.Draw(0, 3);
    enc.DrawIndexed(6, 36, -6, 10, 50);
    enc.ClearColor(Color(0.0, 1.0, 0.0, 1.0));
    enc.ClearDepth(1.0);
    enc.ClearStencil(0xFF);
  }

  /** The compute half of the encoder unit test. */
  method ComputeScenario() returns (cp: seq<Cmd>)
    ensures cp == [DcTableCmd(0, 0), DcTableCmd(1, 20), DispatchCmd(Size3(64, 64, 64))]
  {
    var enc := new CpEncoder();
    enc.SetDcTable(0, 0);
    enc.SetDcTable(1, 20);
    enc.Dispatch(Size3Of(64));
    cp := enc.Encoding();
  }
}
