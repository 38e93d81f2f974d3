# yf engine core, modelled in Dafny

This project models the self-contained logic of the yf engine: a scene
graph (`sg`), a graphics layer over Vulkan (`cg`) and a window system
(`ws`). It covers:

- **Shader variants.** The `shdc.py` build driver turns a feature bitmask
  into preprocessor defines, a hexadecimal variant name and compiler
  invocations (`ShaderVariants`).
- **Graphics value types and rules.** The size/offset types (`CgTypes`),
  texel sizes of pixel formats (`CgImage`), sampler validation
  (`CgSampler`) and memory-type selection with its fallback (`CgMemory`).
- **Graphics objects with state.** Device buffers and their bounds-checked
  writes (`CgBuffer`), the command-buffer lifecycle of a queue
  (`CgQueue`) and append-only command encoders (`CgEncoder`).
- **Window-system delegates.** The callback groups and the event mask kept
  consistent with them (`WsDelegate`).
- **Integer linear algebra.** The scene graph's vectors (`SgVector`) and
  column-major matrices (`SgMatrix`).
- **Scene-graph structures.** The first-fit allocator that places every
  mesh in one shared 16 MiB buffer (`SgMesh`), the intrusive node tree with
  subtree counts (`SgNode`) and keyframe animations with their completion
  state (`SgAnimation`).
- **Asset-loader kernels.** The glTF JSON symbol reader and value skipper
  (`SgGltf`), OBJ face-format detection and vertex de-duplication
  (`SgObj`), BMP header dispatch and mask helpers (`SgBmp`), and the PNG
  signature check and CRC-32 of ISO/IEC 15948 (`SgPng`).

Objects whose fields the source updates in place are classes with
`modifies` clauses. Loops are methods with invariants, proved against
specification functions. The properties are lemmas about those functions.
Each file holds one module, after one source file. `Wrappers` holds the
shared `Option`, `Result` and `Outcome` types.

## Model

| member | source | states |
|---|---|---|
| ShaderVariants.DefsForMask | sg/script/shdc.py:49-60 | the loop over bits 0..23 followed by the two defaults computes exactly `DefsSpec(mask)`, a lookup failure included |
| ShaderVariants.SetBitsExact | sg/script/shdc.py:51-53 | the bits examined are exactly the set bits below the bound, each once, in strictly ascending order |
| ShaderVariants.PerBitDefsSucceeds | sg/script/shdc.py:28-54 | the per-bit defines succeed iff every set bit examined has an `optDefs` entry |
| ShaderVariants.PerBitDefsShape | sg/script/shdc.py:51-54 | on success there is one define per set bit, the k-th being `-D` followed by the name of the k-th set bit |
| ShaderVariants.DefsFailIffUnnamedBit | sg/script/shdc.py:28-54 | `defsForMask` fails iff some set bit in 0..23 (such as bit 2, 9 or 20) has no `optDefs` entry |
| ShaderVariants.DefsOrder | sg/script/shdc.py:49-60 | on success the result is the per-bit defines in strictly ascending bit order, covering every set bit in 0..23, followed by the defaults |
| ShaderVariants.HighBitsIgnored | sg/script/shdc.py:47-51 | bits above 23 never change the result: it equals the result for the mask reduced below 2^24 |
| ShaderVariants.DefaultsCount | sg/script/shdc.py:55-59 | the defaults hold `-DMATERIAL_PBRMR` once iff neither PBRSG nor UNLIT is set, and `-DALPHA_OPAQUE` once iff neither ALPHA_BLEND nor ALPHA_MASK is set |
| ShaderVariants.DefineIsNotDefault | sg/script/shdc.py:28-59 | no per-bit define equals either default define |
| ShaderVariants.DefaultsExactlyOnce | sg/script/shdc.py:49-60 | in the whole result each default appears exactly once when its condition holds and never otherwise |
| ShaderVariants.HexRoundTrip | sg/script/shdc.py:64 | parsing the hex text as hexadecimal gives the number back |
| ShaderVariants.HexShape | sg/script/shdc.py:64 | the hex text is non-empty, upper-case hex digits only, and starts with `0` iff the number is 0 (no leading zeros, no `0x`) |
| ShaderVariants.NameForMaskSpec | sg/script/shdc.py:62-64 | `nameForMask(m)` is canonical upper-case hex of `m & 0xFFFFFF`, `"0"` for 0, and parses back to `m & 0xFFFFFF` |
| ShaderVariants.NameForMaskCanonical | sg/script/shdc.py:62-64 | `nameForMask(m) == nameForMask(m & optMask)`, and two masks get the same name iff they agree on the low 24 bits |
| ShaderVariants.BaseDefsValue | sg/script/shdc.py:66-76 | the base defines are `-DVPORT_N=1, -DINST_N=1, -DJOINT_N=100, -DLIGHT_N=16`, in that order |
| ShaderVariants.ShdForMaskSpec | sg/script/shdc.py:79-80 | `shdForMask(m)` succeeds iff `defsForMask(m)` does, and is then `('Main', nameForMask(m), baseDefs + defsForMask(m))` with a non-empty name |
| ShaderVariants.ExampleVariant | sg/script/shdc.py:14-64 | COLOR_MAP, NORMAL and TEXCOORD0 give `[-DHAS_COLOR_MAP, -DHAS_NORMAL, -DHAS_TEXCOORD0, -DMATERIAL_PBRMR, -DALPHA_OPAQUE]` and the name `"14010"` |
| ShaderVariants.Entries | sg/script/shdc.py:82-91 | the static lists hold one job per mask, each `shdForMask` of that mask, or fail when one of them does |
| ShaderVariants.UnnamedBits | sg/script/shdc.py:28-54 | the bit positions 0 to 23 without an `optDefs` entry are 2, 3, 9, 10, 11 and 20 to 23 |
| ShaderVariants.NamedMaskSucceeds | sg/script/shdc.py:28-54 | `defsForMask` succeeds on a mask that sets none of the unnamed bits |
| ShaderVariants.ClearBit | sg/script/shdc.py:28-54 | a bit whose shifted parity is even is clear |
| ShaderVariants.UnnamedClearNormal | sg/script/shdc.py:82-91 | the mask `dNormal` sets no unnamed bit |
| ShaderVariants.UnnamedClearColor | sg/script/shdc.py:82-91 | the mask of `dNormal`, `dTexCoord0` and `dColorMap` together sets no unnamed bit |
| ShaderVariants.UnnamedClearSkin | sg/script/shdc.py:82-91 | the mask of `dNormal`, `dTexCoord0`, `dColorMap` and `dSkin` together sets no unnamed bit |
| ShaderVariants.StageMasksNamed | sg/script/shdc.py:82-91 | no mask of the `vert` and `frag` lists sets an unnamed bit |
| ShaderVariants.StageEntriesSucceed | sg/script/shdc.py:82-91 | building the `vert` and `frag` lists never raises the lookup error and gives one job per mask, so the script always reaches its jobs |
| ShaderVariants.OutputNamedByVariant | sg/script/shdc.py:62-103 | the output path is always `bin/` + the hex variant name + stage + `.bin`, because the name is never empty |
| ShaderVariants.CompileStage | sg/script/shdc.py:101-112 | one compiler call per entry, in list order, with input `srcDir+src+type+lang` and output `dstDir+prefix+out+type+suffix`, each call's exit status recorded and none stopping the batch |
| ShaderVariants.RunScript | sg/script/shdc.py:104-116 | every vert entry is compiled in list order, then every frag entry, one call each |
| CgTypes.Size2Of | cg/include/Types.h:21 | `Size2(s)` has width and height both `s` |
| CgTypes.Size3From | cg/include/Types.h:39 | `Size3(Size2, depth)` keeps the width and height and takes the depth |
| CgTypes.Size3Of | cg/include/Types.h:40 | `Size3(s)` is `(s, s, s)` |
| CgTypes.Offset2Of | cg/include/Types.h:56 | `Offset2(v)` has both coordinates `v`, and `Offset2()` is `(0, 0)` |
| CgTypes.Offset3From | cg/include/Types.h:73 | `Offset3(Offset2, z)` keeps x and y and takes z |
| CgTypes.Offset3Of | cg/include/Types.h:74 | `Offset3(v)` is `(v, v, v)` |
| CgTypes.EqualityIsComponentwise | cg/include/Types.h:23-81 | for all four types `==` holds iff every field agrees, and `!=` is its negation |
| CgTypes.ComposedConstructors | cg/include/Types.h:37-74 | `Size3(Size2(w,h), d) == Size3(w,h,d)`, `Size3(s)` is `(s,s,s)`, `Offset2()` is `(0,0)`, `Offset3(v)` is `(v,v,v)` and `Offset3(Offset2(x,y), z) == Offset3(x,y,z)` |
| CgTypes.TypesExamples | cg/test/TypesTest.cxx:25-69 | the comparisons made by the types unit test hold |
| CgImage.TexelSizeIsComponentSum | cg/src/Image.cxx:18-56 | every format's texel size is the sum of its component widths read off its name (1 for the 8-bit single channels, 2, 3 and 4 for the wider ones), 0 exactly for an unlisted format, and at most 4 |
| CgImage.NewImage | cg/src/Image.cxx:62-68 | the image keeps its format, size, layers, levels and samples, and `bitsPerTexel_` is 8 times the texel size |
| CgSampler.NewSampler | cg/src/Sampler.cxx:15-69 | construction succeeds iff `0 <= lodMinClamp <= lodMaxClamp` and `maxAnisotropy != 0`; the lod check comes first; on success every getter returns its descriptor field |
| CgSampler.DefaultDescIsValid | cg/include/Sampler.h:53-64 | the default descriptor (lod 0 to 32, anisotropy 1) passes validation |
| CgMemory.AllowedIsBit | cg/src/vk/MemoryVK.cxx:23 | a type is allowed exactly when bit `i` of `memoryTypeBits` is set, the bit read off by shifting the mask right |
| CgMemory.AllowedExamples | cg/src/vk/MemoryVK.cxx:23 | mask 0x2 allows type 1 and neither 0 nor 2; mask 0x1 allows type 0 and neither 1 nor 5 |
| CgMemory.FirstQualifyingSpec | cg/src/vk/MemoryVK.cxx:22-29 | the search yields the lowest index whose requirement bit is set and whose property flags include the requested ones, or -1 exactly when there is none |
| CgMemory.SelectMemory | cg/src/vk/MemoryVK.cxx:22-29 | the loop returns that lowest qualifying index, or -1 |
| CgMemory.SelectMaskTwoExample | cg/src/vk/MemoryVK.cxx:22-51 | with two suitable types and mask 0x2 the search, and allocateVK's choice for a host-visible buffer, is type 1 |
| CgMemory.ChosenTypeSpec | cg/src/vk/MemoryVK.cxx:37-51 | the chosen type qualifies at least for the fallback properties; none is chosen only when no type qualifies for them; when a type has the preferred properties, a preferred type is chosen |
| CgMemory.AllocateVK | cg/src/vk/MemoryVK.cxx:37-57 | with no qualifying type the allocation throws; otherwise it requests `requirements.size` from the chosen type, and fails when the allocation call does |
| CgMemory.FallbackWithoutHostVisibility | cg/src/vk/MemoryVK.cxx:37-51 | without host visibility the fallback asks for no property at all, so any allowed type qualifies |
| CgBuffer.EffectiveUsage | cg/src/vk/BufferVK.cxx:27-37 | a non-zero usage is kept, and the usage the buffer is created with is never 0 |
| CgBuffer.DefaultUsageKinds | cg/src/vk/BufferVK.cxx:27-37 | usage 0 becomes TRANSFER_SRC, TRANSFER_DST, UNIFORM, STORAGE, INDEX, VERTEX and INDIRECT, without the two texel-buffer bits |
| CgBuffer.CreateErrorCases | cg/src/vk/BufferVK.cxx:19-77 | size 0 throws `invalid_argument`; construction succeeds iff the size is non-zero, creation, allocation, binding and mapping succeed, and a host-visible memory type exists |
| CgBuffer.BufferVK.Init | cg/src/vk/BufferVK.cxx:18-20 | a buffer is built only with a non-zero size; it records that size, the usage and the memory, and maps exactly that many bytes |
| CgBuffer.BufferVK.Create | cg/src/vk/BufferVK.cxx:18-77 | the constructor fails exactly when one of its checks fails, with that check's error: size 0, creation, allocation, binding, mapping; otherwise a fresh valid buffer of the given size with the effective usage and memory of the chosen host-visible type |
| CgBuffer.WriteAcceptedSpec | cg/src/vk/BufferVK.cxx:87-88 | an accepted write lies inside the buffer; the 64-bit check as written agrees with the exact one unless `offset + size` wraps |
| CgBuffer.WriteWrapsAsWritten | cg/src/vk/BufferVK.cxx:87 | offset 2^64-1 with size 1 into a 16-byte buffer passes the check as written, but lies outside the buffer |
| CgBuffer.SpliceSpec | cg/src/vk/BufferVK.cxx:90 | the copy replaces bytes `[offset, offset+size)` with the source and leaves every other byte and the length unchanged |
| CgBuffer.BufferVK.Write | cg/src/vk/BufferVK.cxx:86-91 | a write is refused with `invalid_argument`, changing nothing, when it does not fit or there is no data; otherwise exactly the target range is replaced; the fit test is the corrected one of the Findings, without the 64-bit wrap |
| CgQueue.QueueVK.constructor | cg/src/vk/QueueVK.cxx:23-30 | a new queue has no pending buffer and no pool |
| CgQueue.QueueVK.MakeCmdBuffer | cg/src/vk/QueueVK.cxx:60-146 | a new buffer is registered in `pools_` and is neither pending nor begun; when pool creation or allocation fails, nothing is registered |
| CgQueue.QueueVK.Enqueue | cg/src/vk/QueueVK.cxx:121-126 | a buffer not yet pending joins the pending set |
| CgQueue.QueueVK.NotifyAndClear | cg/src/vk/QueueVK.cxx:85-89 | every pending buffer gets `didExecute` and the set is cleared |
| CgQueue.QueueVK.Submit | cg/src/vk/QueueVK.cxx:81-118 | with nothing pending, nothing happens; otherwise every pending buffer is notified and the set cleared, whether submission and the wait succeed or fail, and the call fails iff one of them fails |
| CgQueue.QueueVK.Unmake | cg/src/vk/QueueVK.cxx:128-140 | unmaking a pending buffer aborts; otherwise its pool entry is erased |
| CgQueue.QueueVK.Destroy | cg/src/vk/QueueVK.cxx:32-38 | the destructor aborts iff some buffer made by the queue is still registered |
| CgQueue.CmdBufferVK.constructor | cg/src/vk/QueueVK.cxx:145-149 | a new command buffer is neither pending nor begun |
| CgQueue.CmdBufferVK.Encode | cg/src/vk/QueueVK.cxx:155-300 | encoding a pending buffer throws; otherwise recording is begun once and `begun_` set; every recorded command reaches an unimplemented case and aborts |
| CgQueue.CmdBufferVK.Enqueue | cg/src/vk/QueueVK.cxx:187-202 | refused when pending or not begun; otherwise `begun_` is cleared and, when ending succeeds, the buffer becomes pending and joins its queue's pending set |
| CgQueue.CmdBufferVK.Reset | cg/src/vk/QueueVK.cxx:204-209 | `reset` throws iff the buffer is pending |
| CgQueue.CmdBufferVK.DidExecute | cg/src/vk/QueueVK.cxx:223-227 | requires pending and clears it |
| CgQueue.Lifecycle | cg/src/vk/QueueVK.cxx:60-227 | make, encode, enqueue, submit and unmake in turn leave the queue with no pending buffer and no pool |
| WsDelegate.FlagsAreDistinctBits | ws/src/Delegate.h:28-38 | the nine event flags are distinct single bits 0x001..0x100, and the window, keyboard and pointer groups partition them |
| WsDelegate.MaskOf | ws/src/Delegate.h:42-68 | the mask derived from the three delegates never holds a bit outside the nine flags |
| WsDelegate.WithFlagSpec | ws/src/Delegate.cxx:28-31 | setting or clearing one flag puts that flag in the mask exactly when a callback is present and leaves every other flag as it was |
| WsDelegate.WithFlagConsistent | ws/src/Delegate.cxx:26-96 | replacing one callback and updating its flag keeps the mask in agreement with which callbacks are set |
| WsDelegate.WdMaskSpec | ws/src/Delegate.h:42-47 | after a window delegate is set, the window bits are exactly its present callbacks and all other bits are unchanged |
| WsDelegate.KbMaskSpec | ws/src/Delegate.h:51-57 | after a keyboard delegate is set, the keyboard bits are exactly its present callbacks and all other bits are unchanged |
| WsDelegate.PtMaskSpec | ws/src/Delegate.h:61-68 | after a pointer delegate is set, the pointer bits are exactly its present callbacks and all other bits are unchanged |
| WsDelegate.GroupMasksIdempotent | ws/src/Delegate.h:42-68 | setting the same group delegate twice yields the same mask as setting it once |
| WsDelegate.Delegate.constructor | ws/src/Delegate.h:77-80 | a new delegate has an empty mask and no callbacks, and its mask agrees with its callbacks |
| WsDelegate.Delegate.SetWd | ws/src/Delegate.h:42-47 | stores the window delegate, leaves the other two alone, updates only the window bits, and keeps mask and callbacks in agreement |
| WsDelegate.Delegate.SetKb | ws/src/Delegate.h:51-57 | stores the keyboard delegate, leaves the other two alone, updates only the keyboard bits, and keeps mask and callbacks in agreement |
| WsDelegate.Delegate.SetPt | ws/src/Delegate.h:61-68 | stores the pointer delegate, leaves the other two alone, updates only the pointer bits, and keeps mask and callbacks in agreement |
| WsDelegate.Ws.constructor | ws/src/Delegate.cxx:16 | the single delegate instance starts empty with an empty mask |
| WsDelegate.Ws.GetDelegate | ws/src/Delegate.cxx:22-24 | returns the one shared delegate instance |
| WsDelegate.Ws.OnWdClose | ws/src/Delegate.cxx:26-32 | stores the close callback only, and sets WdClose exactly when it is present |
| WsDelegate.Ws.OnWdResize | ws/src/Delegate.cxx:34-40 | stores the resize callback only, and sets WdResize exactly when it is present |
| WsDelegate.Ws.OnKbEnter | ws/src/Delegate.cxx:42-48 | stores the keyboard-enter callback only, and sets KbEnter exactly when it is present |
| WsDelegate.Ws.OnKbLeave | ws/src/Delegate.cxx:50-56 | stores the keyboard-leave callback only, and sets KbLeave exactly when it is present |
| WsDelegate.Ws.OnKbKey | ws/src/Delegate.cxx:58-64 | stores the key callback only, and sets KbKey exactly when it is present |
| WsDelegate.Ws.OnPtEnter | ws/src/Delegate.cxx:66-72 | stores the pointer-enter callback only, and sets PtEnter exactly when it is present |
| WsDelegate.Ws.OnPtLeave | ws/src/Delegate.cxx:74-80 | stores the pointer-leave callback only, and sets PtLeave exactly when it is present |
| WsDelegate.Ws.OnPtMotion | ws/src/Delegate.cxx:82-88 | stores the motion callback only, and sets PtMotion exactly when it is present |
| WsDelegate.Ws.OnPtButton | ws/src/Delegate.cxx:90-96 | stores the button callback only, and sets PtButton exactly when it is present |
| WsDelegate.RegistrationScenario | ws/src/Delegate.cxx:42-96 | registering keyboard enter, key and pointer button one at a time, and registering then clearing window close, gives the mask {KbEnter, KbKey, PtButton}, the same mask that setting the keyboard and pointer groups whole gives |
| CgEncoder.GrEncoder.constructor | cg/src/Encoder.cxx:16-38 | a new graphics encoder has type Graphics and an empty encoding |
| CgEncoder.GrEncoder.SetState | cg/src/Encoder.cxx:40-43 | appends exactly one graphics-state command holding the given state and keeps every command a graphics command |
| CgEncoder.GrEncoder.SetViewport | cg/src/Encoder.cxx:45-48 | appends exactly one viewport command with the viewport and its index (default 0) |
| CgEncoder.GrEncoder.SetScissor | cg/src/Encoder.cxx:50-53 | appends exactly one scissor command with the scissor and its index (default 0) |
| CgEncoder.GrEncoder.SetTarget | cg/src/Encoder.cxx:55-58 | appends exactly one target command holding the target |
| CgEncoder.GrEncoder.SetDcTable | cg/src/Encoder.cxx:60-63 | appends exactly one descriptor-table command with both indices |
| CgEncoder.GrEncoder.SetVertexBuffer | cg/src/Encoder.cxx:65-70 | appends exactly one vertex-buffer command with buffer, offset and input index |
| CgEncoder.GrEncoder.SetIndexBuffer | cg/src/Encoder.cxx:72-77 | appends exactly one index-buffer command with buffer, offset and index type |
| CgEncoder.GrEncoder.Draw | cg/src/Encoder.cxx:79-86 | appends exactly one draw command with its four arguments (base instance 0 and instance count 1 by default) |
| CgEncoder.GrEncoder.DrawIndexed | cg/src/Encoder.cxx:88-96 | appends exactly one indexed draw command with its five arguments (vertex offset 0, base instance 0, instance count 1 by default) |
| CgEncoder.GrEncoder.ClearColor | cg/src/Encoder.cxx:98-101 | appends exactly one colour-clear command with the value and colour index (default 0) |
| CgEncoder.GrEncoder.ClearDepth | cg/src/Encoder.cxx:103-106 | appends exactly one depth-clear command with the value |
| CgEncoder.GrEncoder.ClearStencil | cg/src/Encoder.cxx:108-111 | appends exactly one stencil-clear command with the value |
| CgEncoder.CpEncoder.constructor | cg/src/Encoder.cxx:116 | a new compute encoder has type Compute and an empty encoding |
| CgEncoder.CpEncoder.SetState | cg/src/Encoder.cxx:118-121 | appends exactly one compute-state command and keeps every command a compute command |
| CgEncoder.CpEncoder.SetDcTable | cg/src/Encoder.cxx:123-126 | appends exactly one descriptor-table command with both indices |
| CgEncoder.CpEncoder.Dispatch | cg/src/Encoder.cxx:128-131 | appends exactly one dispatch command with the workgroup size |
| CgEncoder.TfEncoder.constructor | cg/src/Encoder.cxx:136 | a new transfer encoder has type Transfer and an empty encoding |
| CgEncoder.RecordDraws | cg/test/EncoderTest.cxx:34-40 | the draw and clear calls of the unit test append seven commands carrying their arguments and the header defaults |
| CgEncoder.GraphicsScenario | cg/test/EncoderTest.cxx:24-40 | the graphics encoder of the unit test holds twelve commands, in call order, with the arguments and defaults the test checks |
| CgEncoder.ComputeScenario | cg/test/EncoderTest.cxx:42-45 | the compute encoder of the unit test holds two descriptor-table commands and one 64x64x64 dispatch, in call order |
| SgVector.TruncDivSpec | sg/include/Vector.h:79-83 | the component division the compound operator performs truncates toward zero, as integer division does in C++: the quotient is the largest multiple in magnitude, with the sign of the operands' quotient, and negating the dividend negates it |
| SgVector.TruncDivMagnitude | sg/include/Vector.h:79-83 | the magnitude of a truncated quotient is the quotient of the magnitudes |
| SgVector.FromList | sg/include/Vector.h:28-86 | a vector built from a list holds exactly `sz` components: the list's values where the list reaches, zero (default initialisation) beyond it, and longer lists are cut at `sz` |
| SgVector.ArithmeticInverses | sg/include/Vector.h:61-105 | component-wise subtraction undoes addition, addition commutes, a vector minus itself is zero, and dividing a scaled vector by the same non-zero scalar restores it |
| SgVector.VectorExamples | sg/test/VectorTest.cxx:33-67 | the integer values the unit test expects for construction, `-=`, `+=`, `-`, `+`, `*` and `/`, including truncation of -33 / 2 to -16 |
| SgVector.Vector.constructor | sg/include/Vector.h:22-31 | a new vector of size `sz > 0` owns a fresh array holding the list's values followed by zeros; it is valid, with at least one component |
| SgVector.Vector.Size | sg/include/Vector.h:57-59 | the size is the number of components |
| SgVector.Vector.SubAssign | sg/include/Vector.h:61-65 | in place, each component becomes the old component minus the other vector's old component |
| SgVector.Vector.AddAssign | sg/include/Vector.h:67-71 | in place, each component becomes the old component plus the other vector's old component |
| SgVector.Vector.MulAssign | sg/include/Vector.h:73-77 | in place, each component is multiplied by the scalar |
| SgVector.Vector.DivAssign | sg/include/Vector.h:79-83 | in place, each component is divided by the non-zero scalar with truncation toward zero |
| SgVector.Vector.Copy | sg/include/Vector.h:109-116 | the copy is a fresh vector with the same components |
| SgVector.Minus | sg/include/Vector.h:89-96 | returns a fresh vector holding the component-wise difference |
| SgVector.Plus | sg/include/Vector.h:98-105 | returns a fresh vector holding the component-wise sum |
| SgVector.Times | sg/include/Vector.h:107-112 | returns a fresh vector holding every component multiplied by the scalar, leaving the operand unchanged |
| SgVector.DividedBy | sg/include/Vector.h:114-119 | returns a fresh vector holding every component divided by the scalar with truncation, leaving the operand unchanged |
| SgMatrix.IdentityNeutral | sg/include/Matrix.h:44-203 | the identity has 1 on the diagonal and 0 elsewhere, and it is neutral on both sides of the product and for the matrix-vector product |
| SgMatrix.TransposeInvolution | sg/include/Matrix.h:217-233 | transposing twice gives back the matrix, the diagonal is kept and the identity is its own transpose |
| SgMatrix.MatAddSubInverse | sg/include/Matrix.h:101-169 | column-wise subtraction undoes addition and addition commutes |
| SgMatrix.ProdSum2 | sg/include/Matrix.h:180-185 | entry `[i][j]` of a 2x2 product is `m1[0][j] * m2[i][0] + m1[1][j] * m2[i][1]`, the source's column-major order of operands |
| SgMatrix.VecSum4 | sg/include/Matrix.h:197-202 | component `i` of a 4x4 matrix times a vector sums row `i` of the columns weighted by the vector |
| SgMatrix.MatrixAddSubExamples | sg/test/MatrixTest.cxx:44-66 | the values the unit test expects for construction from columns, `-=`, `+=`, `-` and `+` |
| SgMatrix.MatrixMulExamples | sg/test/MatrixTest.cxx:77-83 | the values the unit test expects for `m7 * m8` and for `m10 *= m7` |
| SgMatrix.MatrixVecExamples | sg/test/MatrixTest.cxx:97-134 | the matrix-vector product and the transpose the unit test checks |
| SgMatrix.SelfMulAsWrittenDiffers | sg/include/Matrix.h:117-130 | as written, `m *= m` on the 2x2 identity leaves the zero matrix, whereas the identity times itself is the identity |
| SgMatrix.Matrix.constructor | sg/include/Matrix.h:26-146 | a new matrix built from a list of `n` columns holds its first `min(colN, n)` columns and zero columns after them |
| SgMatrix.Matrix.Identity | sg/include/Matrix.h:46-53 | returns a fresh square matrix equal to the identity |
| SgMatrix.Matrix.Columns | sg/include/Matrix.h:89-91 | the number of columns is the number of column vectors held, and is positive |
| SgMatrix.Matrix.Rows | sg/include/Matrix.h:95-97 | the number of rows is the length of every column, and is positive |
| SgMatrix.Matrix.SubAssign | sg/include/Matrix.h:101-105 | in place, each column becomes the old column minus the other's old column; the argument may be the receiver |
| SgMatrix.Matrix.AddAssign | sg/include/Matrix.h:109-113 | in place, each column becomes the old column plus the other's old column; the argument may be the receiver |
| SgMatrix.Matrix.Snapshot | sg/include/Matrix.h:121 | the saved copy holds exactly the receiver's entries |
| SgMatrix.Matrix.MulAssign | sg/include/Matrix.h:117-130 | in place, the receiver becomes the product of its old value and the other's old value, also when the other is the receiver; the self-product is the corrected one of the Findings, reading the old values |
| SgMatrix.Matrix.AliasedEntry | sg/include/Matrix.h:124-126 | one entry of `m *= m` as written: the running sum reads column `i` of the receiver, including the entry being summed |
| SgMatrix.Matrix.MulAssignSelfAsWritten | sg/include/Matrix.h:117-130 | `m *= m` as the source runs it leaves the aliased result, which differs from the product |
| SgMatrix.Matrix.TransposeInPlace | sg/include/Matrix.h:134-143 | swapping the entries above the diagonal with those below leaves the transpose of the old value |
| SgMatrix.Minus | sg/include/Matrix.h:151-158 | returns a fresh matrix holding the column-wise difference |
| SgMatrix.Plus | sg/include/Matrix.h:162-169 | returns a fresh matrix holding the column-wise sum |
| SgMatrix.AccumulateEntry | sg/include/Matrix.h:182-183 | the inner loop of the product leaves entry `[i][j]` equal to the full sum of products and touches nothing else |
| SgMatrix.Times | sg/include/Matrix.h:173-187 | returns a fresh matrix holding the product of two square matrices |
| SgMatrix.TimesVec | sg/include/Matrix.h:191-203 | returns a fresh vector holding the matrix-vector product |
| SgMatrix.MulAssignVec | sg/include/Matrix.h:207-215 | in place, the vector becomes the matrix times its old value |
| SgMatrix.TransposeStep | sg/include/Matrix.h:225-231 | one outer step of the free transpose fills row and column `i` from the diagonal on and leaves the rest alone |
| SgMatrix.TransposeOf | sg/include/Matrix.h:219-233 | returns a fresh matrix equal to the transpose |
| SgMatrix.TransposeAgrees | sg/include/Matrix.h:134-233 | the in-place and the free transpose produce the same matrix |
| SgMesh.FirstFit | sg/src/Mesh.cxx:77-79 | the index found is -1 or a segment at or after `from` with room for the request |
| SgMesh.FirstFitSpec | sg/src/Mesh.cxx:77-91 | the search fails exactly when no segment from `from` on is large enough, and otherwise finds the first one that is |
| SgMesh.FreeBytesAppend | sg/src/Mesh.cxx:67 | the free total of two concatenated segment lists is the sum of their free totals |
| SgMesh.CopySpec | sg/src/Mesh.cxx:76-92 | `copy` keeps the free list ordered, disjoint and inside the buffer; it returns UINT64_MAX exactly when no segment fits and then changes nothing; otherwise the range it returns lies in the buffer, overlaps no free segment, and the free total drops by exactly the size |
| SgMesh.CarveSpec | sg/src/Mesh.cxx:81-87 | taking bytes from the front of a segment, and erasing it once empty, keeps the free list's invariant, drops the free total by the size and leaves the taken range outside every free segment |
| SgMesh.PackingExample | sg/src/Mesh.cxx:64-106 | five allocations from the fresh 16 MiB buffer are packed back to back from offset 0, leaving one free segment behind them |
| SgMesh.UpdateCheckAsWrittenWraps | sg/src/Mesh.cxx:117-132 | the 32-bit bounds check agrees with the exact one unless `start + count` wraps; on ten 16-byte vertices, start 0xF0000000 and count 0x10000001 pass it (the sum wraps to 1) while the exact check refuses them, and the 32-bit products `start * stride` and `count * stride` wrap to offset 0 and size 16, inside the mesh's bytes, so the buffer's own bounds check passes and vertex 0 is overwritten; this takes `vxStride_` to be a 32-bit unsigned, as the initialisers at sg/src/Mesh.cxx:70-72 make it from `data.vertex.stride` (sg/src/MeshImpl.h:19-28 declares no such member) |
| SgMesh.MeshStore.constructor | sg/src/Mesh.cxx:64-67 | the shared store starts with one free segment spanning the whole 16 MiB buffer |
| SgMesh.MeshStore.Copy | sg/src/Mesh.cxx:76-92 | `copy` returns the first fitting segment's offset (or UINT64_MAX), writes the data there and nowhere else, and updates the free list to the carved list |
| SgMesh.MeshStore.WriteElements | sg/src/Mesh.cxx:120-133 | the update writes `count * stride` bytes from the source at `base + start * stride`, leaving all other bytes unchanged |
| SgMesh.MeshStore.FindFit | sg/src/Mesh.cxx:77-79 | the loop finds the first segment with room for the request, or -1 |
| SgMesh.MeshStore.TakeFront | sg/src/Mesh.cxx:83-87 | the chosen segment loses its first `size` bytes and is erased when it becomes empty |
| SgMesh.MeshImpl.Init | sg/src/Mesh.cxx:69-72 | a mesh records its offsets and its vertex and index counts and strides |
| SgMesh.MeshImpl.Create | sg/src/Mesh.cxx:69-107 | allocates the vertex bytes, then the index bytes when there are indices; each failed allocation is the buffer-full error, a failed index allocation leaves the vertex bytes taken, and a mesh without indices keeps the index offset UINT64_MAX; the shared buffer holds the vertex data at the vertex offset and the index data at the index offset, and is unchanged by a failed copy |
| SgMesh.MeshImpl.Allocate | sg/src/Mesh.cxx:94-106 | the vertex `copy` happens first; the index `copy` happens only when there are indices and the vertex bytes found room; the offsets, the free list and the buffer bytes are those that the two copies give in turn |
| SgMesh.CopyBytesSpec | sg/src/Mesh.cxx:74-92 | after a successful `copy` the allocated range holds the source bytes and every other byte is unchanged; after one that finds no room the buffer is unchanged |
| SgMesh.MeshImpl.UpdateVertices | sg/src/Mesh.cxx:114-123 | refuses exactly the updates that reach past the vertex count, leaving the buffer unchanged; otherwise rewrites exactly the bytes of the updated vertices; the range test is the corrected one of the Findings, without the 32-bit wrap |
| SgMesh.MeshImpl.UpdateIndices | sg/src/Mesh.cxx:125-134 | refuses the updates that reach past the index count, and any update of a mesh without indices; otherwise rewrites exactly the bytes of the updated indices; the range test is the corrected one of the Findings, without the 32-bit wrap |
| SgMesh.MeshImpl.EncodeBindings | sg/src/Mesh.cxx:136-147 | records the vertex buffer binding, then the index buffer binding only when the mesh has indices, 16-bit for a stride of 2 and 32-bit otherwise |
| SgMesh.MeshImpl.EncodeDraw | sg/src/Mesh.cxx:149-155 | records an indexed draw of all indices when the mesh has indices, and a plain draw of all vertices otherwise |
| SgNode.Wrap32 | sg/src/Node.cxx:39-57 | the counter addition stays below 2^32 and is exact when no wrap occurs |
| SgNode.Node.constructor | sg/src/Node.cxx:53-57 | a new node is a root and a leaf without siblings, and counts itself |
| SgNode.Node.Insert | sg/src/Node.cxx:23-41 | refuses, with an invalid-argument error and no change, exactly a child that is this node or one of its ancestors; otherwise the child becomes the head of the child list, in front of the old head, and this node and every ancestor gain the child's count; refusing ancestors is the correction of the Findings |
| SgNode.Node.Attach | sg/src/Node.cxx:27-40 | links the child as the new head, adds its count to this node and every ancestor, and leaves a well-formed ancestor chain from the child |
| SgNode.Node.HasAncestorOrSelf | sg/src/Node.cxx:24 | the walk up the parent links finds the node exactly when it is this node or one of its ancestors |
| SgNode.Node.Link | sg/src/Node.cxx:30-35 | the child's parent becomes this node, the child becomes the head of the child list, and the old head, if any, becomes its next sibling |
| SgNode.Node.AddToAncestors | sg/src/Node.cxx:37-40 | every node from this one up to the root gains the count, as 32-bit unsigned addition |
| SgNode.ChainExtend | sg/src/Node.cxx:30 | a node whose parent heads an ancestor chain, and which is not on it, heads a longer chain |
| SgNode.AncestorInsertCycles | sg/src/Node.cxx:24-40 | as written, inserting root 0 into its own child 1 makes the parent links a cycle, so the ancestor loop never reaches a root |
| SgNode.AncestorInsertFromZero | sg/src/Node.cxx:37-40 | climbing the cycle from node 0 an even number of steps always lands on node 0 again |
| SgNode.NodeScenario | sg/src/Node.cxx:23-45 | inserting `b` into `a`, `c` into `b`, then `c` again into `a` leaves the counts 4, 2 and 1, because `drop` is an empty stub |
| SgAnimation.CountAtMost | sg/src/Animation.cxx:55-59 | the number of keys at or before a time is at most the key count, at least one once the first key is reached, and below the key count while the last key is ahead |
| SgAnimation.CountSplits | sg/src/Animation.cxx:61-78 | on an increasing timeline, the keys before that count are at or before the time and all later keys are after it |
| SgAnimation.Keyframes | sg/src/Animation.cxx:54-79 | the reference keyframe pair is a pair of keys of the timeline, the first not after the second |
| SgAnimation.KeyframesSpec | sg/src/Animation.cxx:54-79 | on an increasing timeline, a time before the first key selects (0, 0), a time at or after the last key selects the last key twice, and any other time selects the two consecutive keys around it |
| SgAnimation.KeyframesUnique | sg/src/Animation.cxx:61-78 | any two consecutive keys surrounding the time are the pair selected |
| SgAnimation.Search | sg/src/Animation.cxx:61-78 | the binary search ends on consecutive indices whose first key is at or before the time and whose second key, when it exists, is after it; the second index is a key whenever the time is before the last key |
| SgAnimation.GetKeyframesAsWritten | sg/src/Animation.cxx:54-79 | as written, a time equal to the last key of an increasing timeline yields the pair (n-1, n), whose second index is past the end |
| SgAnimation.GetKeyframes | sg/src/Animation.cxx:54-79 | with the end check including the last key, both indices are always keys, the two boundary cases give the boundary key twice, other times give consecutive keys, and on an increasing timeline the result is the reference pair |
| SgAnimation.StepKey | sg/src/Animation.cxx:123-184 | step interpolation picks one of the two keys, the nearer to the time, and the later one on a tie |
| SgAnimation.Effects | sg/src/Animation.cxx:201-216 | one effect per action, in action order |
| SgAnimation.CountComplete | sg/src/Animation.cxx:199-203 | the count of completed actions never exceeds the number of actions |
| SgAnimation.CountCompleteAll | sg/src/Animation.cxx:199-218 | the count reaches the number of actions exactly when every action's timeline has ended |
| SgAnimation.Animation.constructor | sg/src/Animation.cxx:19-45 | a new animation keeps its timelines, has no actions, time zero and is not completed |
| SgAnimation.Animation.Play | sg/src/Animation.cxx:23-29 | a completed animation reports false and changes nothing; otherwise the clock advances by the elapsed time, every action is applied at the new time, and the result is true exactly when some action's timeline has not ended; the keyframe search is the corrected one of the Findings, with `tm == back` at the end |
| SgAnimation.Animation.Stop | sg/src/Animation.cxx:31-34 | rewinds the clock to zero and clears completion |
| SgAnimation.Animation.Update | sg/src/Animation.cxx:49-218 | the clock advances by the elapsed time, completion holds exactly when every action's timeline has ended, and each action's effect names only keys of its timeline and equals the reference effect; the keyframe search is the corrected one of the Findings, with `tm == back` at the end |
| SgAnimation.ApplyAction | sg/src/Animation.cxx:116-197 | an action's effect at a time names only keys of its timeline: step sets the nearer key, linear blends two distinct keys or sets the single one, cubic does nothing; the keyframe search is the corrected one of the Findings, with `tm == back` at the end |
| SgAnimation.AnimationScenario | sg/src/Animation.cxx:23-218 | a step translation over keys 0, 10, 20 picks key 1 at time 5, completes on key 2 at time 20, then reports false until `stop` rewinds it |
| SgAnimation.NoActionsComplete | sg/src/Animation.cxx:199-218 | an animation with no actions completes on its first `play` |
| SgGltf.SkipSpace | sg/src/DataGLTF.cxx:61 | skipping white space stops at the end of the input or on a character that is not a space |
| SgGltf.LexStr | sg/src/DataGLTF.cxx:69-90 | the string case moves the cursor forward and yields a string or an error |
| SgGltf.LexNum | sg/src/DataGLTF.cxx:92-114 | the number case moves the cursor forward and always yields a number |
| SgGltf.LexWord | sg/src/DataGLTF.cxx:116-159 | the lower-case run of the keyword cases moves the cursor forward |
| SgGltf.Lex | sg/src/DataGLTF.cxx:57-176 | `next()` never moves the cursor back; after a failed read it yields the end symbol and leaves the cursor; otherwise it consumes at least one character or fails the stream; an operator symbol has exactly one operator character as its token |
| SgGltf.LexBasics | sg/src/DataGLTF.cxx:57-172 | a read on a failed stream is the end symbol; the symbol is an operator exactly when its first non-space character is one of `{ } [ ] : ,`, and the end symbol exactly when only spaces remain |
| SgGltf.LexStrEscaped | sg/src/DataGLTF.cxx:69-90 | a string written with `"` and `\` escaped reads back as exactly that string, with the cursor just past the closing quote |
| SgGltf.LexQuoted | sg/src/DataGLTF.cxx:69-90 | a quoted, escaped string is read as one string symbol holding the original characters |
| SgGltf.LexNumber | sg/src/DataGLTF.cxx:92-114 | a run of number characters followed by a delimiter is read as one number symbol with that run as its tokens, the delimiter pushed back |
| SgGltf.LexKeyword | sg/src/DataGLTF.cxx:116-159 | `true` and `false` followed by a delimiter read as a boolean, `null` as null, each with the word as tokens |
| SgGltf.LexOpChar | sg/src/DataGLTF.cxx:161-169 | each of `{ } [ ] : ,` reads as a one-character operator symbol |
| SgGltf.ReaderBadEscape | sg/src/DataGLTF.cxx:80-86 | an escape other than `\"` and `\\` makes the string an error |
| SgGltf.ReaderShortKeyword | sg/src/DataGLTF.cxx:116-129 | a letter run that is not a whole keyword (`tru`) is an error |
| SgGltf.Symbol.constructor | sg/src/DataGLTF.cxx:42 | a new reader is at the start of the stream with no symbol read (type End, no tokens) |
| SgGltf.Symbol.Get | sg/src/DataGLTF.cxx:61-71 | a read on a good stream with input left returns the next character and advances; otherwise the stream fails and the character is left as it was |
| SgGltf.Symbol.Unget | sg/src/DataGLTF.cxx:110-124 | pushing back on a good stream moves the cursor back one character |
| SgGltf.Symbol.SkipSpaces | sg/src/DataGLTF.cxx:61 | the white-space loop stops on the first non-space character, having consumed it, or fails the stream at the end of the input |
| SgGltf.Symbol.ScanStr | sg/src/DataGLTF.cxx:69-90 | the string loop produces exactly the reference string reading |
| SgGltf.Symbol.ScanNum | sg/src/DataGLTF.cxx:104-113 | the number loop produces exactly the reference number reading, ending the number at the end of the stream; ending at the end of the stream is the correction of the Findings |
| SgGltf.Symbol.ScanWord | sg/src/DataGLTF.cxx:117-154 | the keyword loop produces exactly the reference lower-case run, ending it at the end of the stream; ending at the end of the stream is the correction of the Findings |
| SgGltf.Symbol.Next | sg/src/DataGLTF.cxx:57-176 | `next()` leaves in the reader exactly the symbol, tokens and cursor of the reference reading, and returns its kind |
| SgGltf.UntilFirst | sg/src/DataGLTF.cxx:180-191 | `consumeUntil` stops at the first symbol of the wanted kind when no end or error symbol comes before it, and fails when such a symbol comes first |
| SgGltf.Symbol.ConsumeUntil | sg/src/DataGLTF.cxx:180-191 | the loop succeeds exactly when the reference search does, leaving the reader on the symbol it finds |
| SgGltf.Symbol.ConsumeProperty | sg/src/DataGLTF.cxx:195-242 | the method succeeds exactly when the reference `consumeProperty` does (a `:`, then a scalar or a balanced object or array), leaving the reader on the value's last symbol |
| SgGltf.Symbol.SkipBracketed | sg/src/DataGLTF.cxx:219-236 | the depth loop succeeds exactly when the reference skip does, leaving the reader on the bracket that closes the value |
| SgGltf.ReaderMixedBrackets | sg/src/DataGLTF.cxx:219-236 | only the value's own bracket kind counts: `:{[}` is accepted, the `[` left open |
| SgGltf.SkipValue | sg/src/DataGLTF.cxx:219-236 | while skipping, a whole printed value moves the reader past it with the bracket depth unchanged |
| SgGltf.PropertySkipsValue | sg/src/DataGLTF.cxx:195-242 | after a property name, a `:` and any printed JSON value of the supported subset followed by a delimiter, `consumeProperty` succeeds with the cursor just past the value |
| SgGltf.PropertySkipsArray | sg/src/DataGLTF.cxx:209-237 | an array value is skipped up to its closing bracket |
| SgGltf.PropertySkipsObject | sg/src/DataGLTF.cxx:209-237 | an object value is skipped up to its closing brace |
| SgGltf.StartDocument | sg/src/DataGLTF.cxx:290-293 | the loader's first check passes exactly when the document opens with `{` |
| SgGltf.DocumentOpensSpec | sg/src/DataGLTF.cxx:292-293 | a document passes the check exactly when its first symbol is the operator `{` |
| SgGltf.ExhaustedRunsForever | sg/src/DataGLTF.cxx:104-122 | as written, once the stream is exhausted while the character variable still continues a number or keyword run, the loop never stops |
| SgGltf.EndOfStreamHangsAsWritten | sg/src/DataGLTF.cxx:104-122 | as written, a file ending in `5` or `true` keeps the loop running forever, whereas the corrected reader returns a number `5` or a boolean `true` there |
| SgGltf.NodeTransformSpec | sg/src/DataGLTF.cxx:524-554 | a matrix must have 16 elements and then replaces the transform; without one, translation and scale must have 3 elements and rotation 4, each given part replaces its slice of the default transform and the others keep the default |
| SgObj.Bits | sg/src/DataOBJ.cxx:60-67 | the flag word of a face format is below 0x20 and is zero exactly for the empty format FNone |
| SgObj.Find | sg/src/DataOBJ.cxx:231-245 | the first occurrence of a character at or after a position (the `/` of a face token here, the newline `getline` stops at in the stream model), with none before it, or none when the rest holds no such character |
| SgObj.FindAt | sg/src/DataOBJ.cxx:231-245 | an occurrence preceded by no other from the start position is the first one found |
| SgObj.FindNone | sg/src/DataOBJ.cxx:231-249 | a suffix without the character yields none |
| SgObj.DetectFormat | sg/src/DataOBJ.cxx:228-250 | the scan of the first corner token computes the format of the reference definition: a trailing `/` after the first slash is a file error, otherwise the format always has the position flag and never the quad flag |
| SgObj.FormatExamples | sg/src/DataOBJ.cxx:228-250 | `7`, `7/2`, `7//3` and `7/2/3` give positions, +texcoords, +normals and all three; `7/` is an error |
| SgObj.DigitChar | sg/src/DataOBJ.cxx:87 | the character written for a digit is a decimal digit with that value |
| SgObj.DigitValue | sg/src/DataOBJ.cxx:85 | a digit character's value is below ten |
| SgObj.Decimal | sg/src/DataOBJ.cxx:87 | the decimal text of a number is never empty |
| SgObj.DecimalDigits | sg/src/DataOBJ.cxx:87 | the decimal text of a number consists of digits only |
| SgObj.DigitRun | sg/src/DataOBJ.cxx:85 | the length of the leading digit run: every character before it is a digit and the one after it is not |
| SgObj.DecimalValue | sg/src/DataOBJ.cxx:85-87 | reading back the decimal text of a number gives that number |
| SgObj.DigitRunOf | sg/src/DataOBJ.cxx:85 | a digit string followed by a non-digit is read exactly to its end |
| SgObj.ReadDecimal | sg/src/DataOBJ.cxx:85-87 | extracting an integer from the decimal text of `n` followed by a non-digit yields `n` and leaves the rest |
| SgObj.Scan | sg/src/DataOBJ.cxx:85-172 | a successful extraction of the `>> i1 >> sep >> i2 ...` chain yields one number per field of the pattern |
| SgObj.SignedFieldExamples | sg/src/DataOBJ.cxx:85 | an index field is read as `num_get` reads an unsigned number: `+1` is 1, `+12/+3` reads 12 and leaves `/+3`; a lone `+` and a `-` sign are not read |
| SgObj.SignedCornerExamples | sg/src/DataOBJ.cxx:85 | an index field may carry a `+` sign: `+1` and `+12/+3` read as `1` and `12/3`; a lone `+` or a `-` sign is not read |
| SgObj.Fits | sg/src/DataOBJ.cxx:73-85 | the extracted fields are accepted exactly when every one fits an unsigned 32-bit integer |
| SgObj.VertexOfFields | sg/src/DataOBJ.cxx:85-172 | turning a corner's fields back into a corner gives the same corner |
| SgObj.ScanStep | sg/src/DataOBJ.cxx:85 | one separator and one number in front of a readable rest add that number in front of the rest's fields |
| SgObj.ScanText | sg/src/DataOBJ.cxx:85-172 | the OBJ text of a corner scans to the corner's fields |
| SgObj.ScanLast | sg/src/DataOBJ.cxx:85 | a separator of at most two characters followed by a number scans to that number |
| SgObj.ScanPosition | sg/src/DataOBJ.cxx:172 | the text `p` scans to `[p]` |
| SgObj.ScanTexCoord | sg/src/DataOBJ.cxx:114 | the text `p/t` scans to `[p, t]` |
| SgObj.ScanNormal | sg/src/DataOBJ.cxx:143 | the text `p//n` scans to `[p, n]` |
| SgObj.ScanBoth | sg/src/DataOBJ.cxx:85 | the text `p/t/n` scans to `[p, t, n]` |
| SgObj.FormatOfText | sg/src/DataOBJ.cxx:228-250 | the format detected from a corner's OBJ text is that corner's shape |
| SgObj.ReadText | sg/src/DataOBJ.cxx:83-250 | round trip: a corner whose numbers fit 32 bits, written as OBJ text, is detected with its own format and read back as the same corner |
| SgObj.TextInjective | sg/src/DataOBJ.cxx:87-96 | two corners with the same OBJ text are the same corner, so the corrected key identifies a corner |
| SgObj.StoreDistinct | sg/src/DataOBJ.cxx:88-96 | the vertices of a well-formed store are pairwise distinct |
| SgObj.Corner | sg/src/DataOBJ.cxx:88-96 | adding a corner leaves the indices alone and only ever appends to the vertices; the key is the corrected one of the Findings, which keeps distinct corners apart |
| SgObj.CornerLookup | sg/src/DataOBJ.cxx:88-96 | the key map holds a corner's key exactly when the corner is among the vertices, and then maps it to that corner's index |
| SgObj.CornerInsert | sg/src/DataOBJ.cxx:90-93 | appending a new corner and mapping its key to the old vertex count keeps the store well formed |
| SgObj.CornerSpec | sg/src/DataOBJ.cxx:88-96 | the index returned names the corner; the store stays well formed; it is unchanged exactly when the corner was known and grows by one vertex otherwise |
| SgObj.ReadCorners | sg/src/DataOBJ.cxx:82-85 | reading the corner tokens yields one corner per token |
| SgObj.ReadCornersSpec | sg/src/DataOBJ.cxx:82-85 | each corner read is the reading of its own token, and the reading fails exactly when some token is unreadable |
| SgObj.ReadCornersAt | sg/src/DataOBJ.cxx:82-85 | the corner at a position is the reading of the token at that position |
| SgObj.ReadCornersNext | sg/src/DataOBJ.cxx:82-85 | reading one more readable token appends its corner |
| SgObj.ReadCornersNone | sg/src/DataOBJ.cxx:82-85 | a single unreadable token makes the whole face unreadable |
| SgObj.Corners | sg/src/DataOBJ.cxx:82-97 | processing the corners of a face yields one face index per corner and only appends vertices |
| SgObj.CornersSpec | sg/src/DataOBJ.cxx:82-97 | after processing a face's corners the store is well formed and each face index names that corner's vertex |
| SgObj.KeepNames | sg/src/DataOBJ.cxx:82-97 | indices that named corners keep naming them when vertices are appended, and the new index names the new corner |
| SgObj.CornersNext | sg/src/DataOBJ.cxx:82-97 | processing one more corner extends the face by that corner's index |
| SgObj.OrderBound | sg/src/DataOBJ.cxx:99-106 | every position used by the triangulation order is a corner of the face |
| SgObj.FaceIndices | sg/src/DataOBJ.cxx:99-106 | a triangle contributes corners 0, 1, 2 and a quad also adds 0, 2, 3, each taken from the face |
| SgObj.StoreFaceSpec | sg/src/DataOBJ.cxx:82-106 | storing a face keeps the store well formed, only appends, adds 3 or 6 indices, and each new index names the corner the triangulation order asks for |
| SgObj.AppendNamed | sg/src/DataOBJ.cxx:99-106 | appending a face's triangulated indices keeps every index in range and each new one names its corner |
| SgObj.AddFaceFails | sg/src/DataOBJ.cxx:79-197 | processing a face fails with the runtime error exactly when the format lacks the position flag, and as unreadable exactly when one of its corners cannot be read |
| SgObj.AddFaceStores | sg/src/DataOBJ.cxx:70-199 | a processed face keeps the store well formed, adds 6 indices for a quad and 3 for a triangle, and only appends |
| SgObj.AddFaceNames | sg/src/DataOBJ.cxx:82-106 | the j-th new index names the vertex read from the corner token the triangulation order assigns to it |
| SgObj.ReadSub | sg/src/DataOBJ.cxx:225-255 | the corner slots are the line's first three tokens and, for a fourth token, the fourth; slots not overwritten keep their old text |
| SgObj.QuadOf | sg/src/DataOBJ.cxx:252-259 | a face line is a quad exactly with four tokens ending the line, a triangle exactly with three tokens ending it, and an error when more follow |
| SgObj.Run | sg/src/DataOBJ.cxx:204-268 | running the loop body over the branches the lines take keeps the four corner slots; a line of the `continue` branch changes nothing (see `OthersChangeNothing`); the face branch uses the corrected key and per-line quad flag of the Findings |
| SgObj.FaceStepValid | sg/src/DataOBJ.cxx:223-262 | a face line never raises the runtime error, keeps the loader state well formed, sets the position flag, and never changes the detected attribute flags once set |
| SgObj.FaceStepIndices | sg/src/DataOBJ.cxx:223-262 | a face line adds 6 indices when this line is a quad and 3 when it is a triangle; the quad flag is the corrected per-line one of the Findings |
| SgObj.RunValid | sg/src/DataOBJ.cxx:204-268 | over any lines, loading never raises the runtime error and keeps the state well formed |
| SgObj.LoadValid | sg/src/DataOBJ.cxx:204-268 | a successful load yields indices that all name a vertex and vertices that are pairwise distinct |
| SgObj.Loader.constructor | sg/src/DataOBJ.cxx:44-67 | the loader starts with no vertices, indices, keys or attributes and with format FNone |
| SgObj.Loader.StoreCorner | sg/src/DataOBJ.cxx:87-96 | storing one corner computes the reference corner step on the old store: a known key gives back its index, and a new key stores the vertex under the next index; attributes, format and corner slots stay as they were; with the corrected key of the Findings |
| SgObj.Loader.StoreCorners | sg/src/DataOBJ.cxx:81-97 | the corner loop succeeds exactly when every token can be read; on success the corners read are those of the tokens, and the new store and face indices are the reference corner sequence on the old store; with the corrected key of the Findings |
| SgObj.Loader.ProcessFace | sg/src/DataOBJ.cxx:70-199 | the in-place face processing computes the reference face step on the old state, with the same error, and leaves attributes, format and corner slots alone; with the corrected key of the Findings |
| SgObj.Loader.SetupFace | sg/src/DataOBJ.cxx:225-259 | reading the tokens of an `f` line into the corner slots, detecting the format and making the quad test in place computes the reference face set-up, with the same error, and leaves the attribute counts and the store alone; with the corrected per-line quad flag of the Findings |
| SgObj.Loader.FaceLine | sg/src/DataOBJ.cxx:223-262 | handling an `f` line in place computes the reference face-line step, with the same error; with the corrected per-line quad flag of the Findings |
| SgObj.Loader.Feed | sg/src/DataOBJ.cxx:207-267 | taking the branch of one line in place computes the reference step (counting `v`/`vt`/`vn`, the face branch with the corrected key and per-line quad flag of the Findings, nothing for `continue`) and keeps the loader well formed on success |
| SgObj.Load | sg/src/DataOBJ.cxx:20-268 | loading the text of a file returns the store of the reference run over the branches its readable lines take through the shared stream as written, or the first error; the face branch uses the corrected key and per-line quad flag of the Findings |
| SgObj.FailureSticks | sg/src/DataOBJ.cxx:204-268 | once loading a prefix fails, the whole load fails with that same error: the loop ends at the first exception |
| SgObj.ReadLines | sg/src/DataOBJ.cxx:204-268 | the line loop over the lines `getline` hands it returns the store of the reference run over the branches read from the shared stream, or the first error |
| SgObj.NextLine | sg/src/DataOBJ.cxx:204-267 | one pass of the loop reads line `i` from the stream the lines before it leave, extends the branches read by one, and takes its branch in place, failing with the reference error |
| SgObj.ReadLine | sg/src/DataOBJ.cxx:205-223 | the branch a line takes and the stream after it extend the reading of the lines before it by that line |
| SgObj.PrefixFailureSticks | sg/src/DataOBJ.cxx:204-268 | a run whose first lines fail fails with their error, whatever follows |
| SgObj.LinesRoundTrip | sg/src/DataOBJ.cxx:204 | the lines `getline` splits a file into give the file back when joined, hold no newline, and all but the last ended with one |
| SgObj.ReadableSpec | sg/src/DataOBJ.cxx:201-204 | the lines the loop body sees are a prefix of the file's lines, each shorter than the 256-character buffer, and the line after them, if any, is too long and ends the loop |
| SgObj.ReadableAppend | sg/src/DataOBJ.cxx:201-204 | a run of short lines is read in full before whatever follows it |
| SgObj.ReadableAll | sg/src/DataOBJ.cxx:201-204 | every line of a file of short lines reaches the loop body |
| SgObj.SkipSpace | sg/src/DataOBJ.cxx:206 | skipping white space stays within the text |
| SgObj.SkipWord | sg/src/DataOBJ.cxx:206 | a word starting on a character that is not white space is not empty |
| SgObj.SkipSpaceSpec | sg/src/DataOBJ.cxx:206 | `>>` skips exactly the leading white space: every character skipped is white space and the one it stops on is not |
| SgObj.SkipWordSpec | sg/src/DataOBJ.cxx:206 | a word read by `>>` holds no white space and ends at the text's end or on white space |
| SgObj.FirstWord | sg/src/DataOBJ.cxx:225 | the first word of a text that holds one is non-empty, holds no white space, and the rest of the words are read after it |
| SgObj.WordsSpec | sg/src/DataOBJ.cxx:225-255 | every token read into the corner slots is a non-empty run of characters other than white space |
| SgObj.KeywordOfSpec | sg/src/DataOBJ.cxx:208-223 | a word takes the `v`, `vt`, `vn` or `f` branch exactly when it equals that keyword |
| SgObj.ReadWordSpec | sg/src/DataOBJ.cxx:206 | from a good stream with a word in it, `iss >> str` skips white space, reads a non-empty word without white space, leaves white space or nothing after it, and keeps the stream good exactly when something follows the word |
| SgObj.Read | sg/src/DataOBJ.cxx:204-267 | reading the lines through the shared stream yields one branch per line |
| SgObj.ReadNext | sg/src/DataOBJ.cxx:204-206 | one more line is read from the stream the lines before it leave, and adds its branch |
| SgObj.ReadPrefix | sg/src/DataOBJ.cxx:204-267 | the branches taken by a prefix of the lines are the prefix of those taken by all of them |
| SgObj.StuckStays | sg/src/DataOBJ.cxx:205-206 | a stream gone bad on a word that names no keyword reads nothing, so the line takes the `continue` branch and the stream stays as it was |
| SgObj.StuckNext | sg/src/DataOBJ.cxx:205-266 | after such a stream the next line adds a `continue` branch and keeps the stream |
| SgObj.StuckReadsNothing | sg/src/DataOBJ.cxx:204-266 | once the stream is bad on a word that names no keyword, every later line takes the `continue` branch and the stream never changes again |
| SgObj.OthersChangeNothing | sg/src/DataOBJ.cxx:264-266 | lines that take the `continue` branch leave the result of the run unchanged |
| SgObj.StuckEndsReading | sg/src/DataOBJ.cxx:204-266 | once the stream is bad on a word that names no keyword, loading the file gives the result of the lines read so far, whatever follows |
| SgObj.BlankLineSticks | sg/src/DataOBJ.cxx:205-206 | a blank line read from a good stream reads the word `"\0"`, takes the `continue` branch and leaves the stream bad |
| SgObj.WordLineSticks | sg/src/DataOBJ.cxx:205-206 | a line holding one word alone reads that word with the `'\0'` attached, takes the `continue` branch and leaves the stream bad |
| SgObj.BlankLineRead | sg/src/DataOBJ.cxx:204-206 | a blank line after a good stream adds a `continue` branch and leaves the stream bad on `"\0"` |
| SgObj.BlankLineEndsReading | sg/src/DataOBJ.cxx:204-266 | as written, a blank line after a good stream ends the reading: the file loads as the lines before it, whatever follows |
| SgObj.ExamplePositionLine | sg/src/DataOBJ.cxx:206-211 | the line `v 1 2 3` from a good stream takes the `v` branch and keeps the stream good |
| SgObj.BlankLineEndsReadingAsWritten | sg/src/DataOBJ.cxx:204-266 | as written, the file `v 1 2 3`, a blank line, `f 1 1 1` loads as one position and no face |
| SgObj.ReadCleared | sg/src/DataOBJ.cxx:205-262 | reading each line from a cleared stream, the corrected reader, yields one branch per line |
| SgObj.ReadClearedAppend | sg/src/DataOBJ.cxx:205-262 | read from a cleared stream, each line takes its branch whatever came before it |
| SgObj.RunSameLast | sg/src/DataOBJ.cxx:204-268 | two runs that agree still agree after one more line |
| SgObj.OtherChangesNothing | sg/src/DataOBJ.cxx:264-266 | a line of the `continue` branch changes nothing wherever it stands among the others |
| SgObj.BlankLineIgnored | sg/src/DataOBJ.cxx:204-266 | with the stream cleared before each line, a blank line anywhere in a file leaves its load unchanged |
| SgObj.KeyCollisionAsWritten | sg/src/DataOBJ.cxx:87-174 | with the key made by gluing the decimals together, corners 1/23 and 12/3 share a key and the second is stored as the first; the corrected key keeps them apart |
| SgObj.StickyQuadAsWritten | sg/src/DataOBJ.cxx:252-259 | with the quad flag never cleared, a triangle after a quad adds 6 indices as written, while the corrected per-line flag adds 3 |
| SgBmp.LowestFrom | sg/src/DataBMP.cxx:227-232 | the lowest set bit of the mask from a position on, below `bpp`: no bit before it is set, and it is set unless it is `bpp` |
| SgBmp.Shift | sg/src/DataBMP.cxx:227-232 | the low shift is at most `bpp`, every bit below it is clear, and the bit at it is set unless the shift is `bpp` |
| SgBmp.HighestDown | sg/src/DataBMP.cxx:236-241 | the bound of the highest set bit below the top and not below the low end: bits from it up are clear, the bit below it is set unless it is the low end |
| SgBmp.Width | sg/src/DataBMP.cxx:236-241 | the bit count is an unsigned 32-bit value, wrapping when the shift passes `bpp` |
| SgBmp.LowShift | sg/src/DataBMP.cxx:227-232 | the `lshfBMP` loop returns the number of clear low bits of the mask, at most `bpp` |
| SgBmp.BitCount | sg/src/DataBMP.cxx:236-241 | the `bitsBMP` loop returns the width from the shift up to the highest set bit below `bpp`, with 32-bit wrap-around |
| SgBmp.ShiftUnique | sg/src/DataBMP.cxx:227-232 | the low shift is the only count with its two properties |
| SgBmp.HighestUnique | sg/src/DataBMP.cxx:236-241 | the highest-bit bound is the only one with its two properties |
| SgBmp.ShiftWidthBound | sg/src/DataBMP.cxx:227-241 | a mask's width never reaches past `bpp` from its shift |
| SgBmp.ShiftWidthSpan | sg/src/DataBMP.cxx:227-241 | every set bit below `bpp` lies in the run from the shift of the given width, the run starts and ends on set bits, and the width is zero exactly when no bit below `bpp` is set |
| SgBmp.TopNibbleMask | sg/src/DataBMP.cxx:227-241 | the mask 0xF0 at 8 bits per pixel has shift 4 and width 4 |
| SgBmp.U16 | sg/src/DataBMP.cxx:22-138 | a little-endian 16-bit field is below 2^16 |
| SgBmp.U32 | sg/src/DataBMP.cxx:24-138 | a little-endian 32-bit field is below 2^32 |
| SgBmp.I32 | sg/src/DataBMP.cxx:25-148 | a signed 32-bit field lies in the `int32_t` range |
| SgBmp.ReadInfo | sg/src/DataBMP.cxx:284-319 | reading the 40-byte header into the mask, shift and width arrays computes the reference parse, with no alpha, and stores the colour masks read with bit-field compression |
| SgBmp.ReadVersioned | sg/src/DataBMP.cxx:322-387 | reading a V4 or V5 header into the arrays computes the reference parse, storing the alpha mask, its shift and width and the colour masks |
| SgBmp.LoadBmp | sg/src/DataBMP.cxx:259-404 | the loader computes the reference parse of the file, failing with the file error where the source throws |
| SgBmp.HeaderDispatch | sg/src/DataBMP.cxx:267-401 | the header size field chooses the header; any size other than 40, 108 and 124 is an error, and a loaded file holds the whole header |
| SgBmp.CompressionRule | sg/src/DataBMP.cxx:301-383 | only uncompressed and bit-field files load; colour masks are present, three of them, exactly with bit fields; the 40-byte header takes them only when they precede the pixel data and are in the file |
| SgBmp.AlphaRule | sg/src/DataBMP.cxx:297-371 | the 40-byte header has no alpha and shift `bpp`; V4/V5 take the alpha mask only at 16 or 32 bits per pixel, with the computed shift and width, and the alpha run fits in the pixel |
| SgBmp.FinalCheck | sg/src/DataBMP.cxx:403-404 | a loaded file has positive width, non-zero height and 1 to 32 bits per pixel, and an uncompressed 40-byte-header file loads exactly when those hold |
| SgPng.MakeTable | sg/src/DataPNG.cxx:70-80 | fills a fresh 256-entry table whose entry `i` is `i` after eight steps of the reflected shift register with polynomial 0xEDB88320 |
| SgPng.EntryOf | sg/src/DataPNG.cxx:76-79 | the inner loop of eight conditional folds computes table entry `i` |
| SgPng.ComputeCrc | sg/src/DataPNG.cxx:66-91 | on non-empty data, the table-driven loop returns the bit-at-a-time CRC-32 of the data (register started at all ones, finally inverted), a 32-bit value |
| SgPng.TableStep | sg/src/DataPNG.cxx:88 | one table lookup, indexed by the low byte of register xor data byte and xored with the register shifted by eight, equals feeding the byte through the register bit by bit |
| SgPng.RoundsXor | sg/src/DataPNG.cxx:78-88 | the shift register is linear: running it on `x ^ y` gives the xor of the runs on `x` and on `y` |
| SgPng.RoundsBound | sg/src/DataPNG.cxx:78 | a register below 2^32 stays below 2^32 through any number of steps |
| SgPng.CrcBound | sg/src/DataPNG.cxx:86-90 | the register and the CRC of any data are 32-bit values |
| SgPng.TopEntry | sg/src/DataPNG.cxx:75-80 | table entry 0x80 is the polynomial itself |
| SgPng.OpenAccepts | sg/src/DataPNG.cxx:110-128 | a file gets past the constructor's checks exactly when it begins with the eight signature bytes and its first chunk's type is `IHDR` |
| SgPng.OpenErrors | sg/src/DataPNG.cxx:110-128 | a wrong signature is invalid whatever follows; the read fails exactly for a file shorter than the signature or a correct signature with fewer than eight bytes after it |
| SgPng.OpenChunk | sg/src/DataPNG.cxx:44-128 | the signature, any chunk length and the `IHDR` type, followed by anything, open |

## Left out

- Vulkan, XCB and the process environment are not called. Each driver call is a step whose success is a parameter: command-pool and command-buffer creation, begin/end recording, queue submission, memory allocation, buffer creation/binding/mapping. `abort()` is an `Aborted` failure that changes nothing.
- File and path I/O are not modelled. The path conversion, `ifstream` opening and the debug dumps (`BMP*_PRINT`, the `wprintf` block and `exit` calls) are left out. A file is its bytes or characters, or its lines for OBJ, and a read that comes up short is a file error.
- `subprocess.run` in `shdc.py` is an external effect: the model records each issued command. Exit statuses are a parameter that nothing inspects, since the script does not pass `check`.
- The output name in `shdc.py` follows the code: the path built for each job names the hex variant, because `nameForMask` never returns the empty string.
- The atomic exchange and spin-wait around the PNG CRC table are concurrency and are not modelled. The table is filled as on the first call.
- PNG: everything after the first chunk's type check is a TODO in the source and is not modelled. The `data != nullptr` assertion becomes the sequence itself, and `n > 0` is a requires of `SgPng.ComputeCrc`.
- BMP: after the final check the source stops (a TODO), and so does the model. The `BM` type field is read but never checked in the source, and the model does not check it either.
- SgBmp.Width: `1 << (res-1)` for a `bpp` above 32 is undefined in C++. The model tests bit `res-1` of the unbounded mask instead. Only `bpp <= 32` survives the final check.
- BMP colour masks are left unset on the uncompressed path. The model has no colour masks there (`None`) rather than indeterminate array contents.
- Floating point is modelled only where it is a comparison. Sampler level-of-detail bounds are reals. Matrix `invert`, `rotate*`, `scale`, `translate`, `lookAt`, `perspective` and `ortho` (`sg/include/Matrix.h:235-597`) are not modelled, nor is Quaternion.h.
- Vectors and matrices are modelled over unbounded integers. SgVector.Vector.DivAssign: C++ truncating division is modelled explicitly, but fixed-width overflow of the integer instantiations is not. The floating-point instantiations are not modelled.
- Animation: times are integers. The keyframe search is the corrected one of the Findings: at `tm == back` it returns the last key twice, where the source returns `(n-1, n)`. Interpolated values (`lerp`, `slerp`, Linear) are not computed: an action's effect is the keyframe pair it uses, and for Step the key it picks. Cubic is a TODO in the source.
- SgMesh.MeshImpl.Create: the source's `vxCount * vxStride` and update offsets are `uint32_t` products (the counts and strides are 32-bit, taken from the initialisers at sg/src/Mesh.cxx:70-72, since sg/src/MeshImpl.h declares none of them). The model uses exact products; the wrap of the update bounds check and of the update offset and size is shown only by the example under Findings.
- SgMesh.MeshImpl.Create, UpdateVertices and UpdateIndices always pass data to the buffer, because the data is a byte sequence here; the null-pointer `invalid_argument` of `BufferVK::write` (cg/src/vk/BufferVK.cxx:87-88) cannot be reached through the mesh layer.
- SgMesh: the file-type `Mesh` constructor (`sg/src/Mesh.cxx:20-54`) is a test path and is not modelled. The destructor's TODO (the segment is not returned to the free list) is not modelled either.
- SgNode: `drop`, `prune`, `traverse` and `count` are stubs or TODOs in the source. A child that already has a parent is linked in without being detached, as the empty `drop` leaves it.
- WsDelegate: `Delegate.cxx` assigns `deleg.wdClose_` and the like, names that `Delegate.h` does not declare. The model stores each callback in the matching slot of its group's delegate (`wdDeleg_`, `kbDeleg_`, `ptDeleg_`). The per-platform dispatch in `ws/src/unix/EventXCB.cxx` is not part of this model.
- CgEncoder follows `cg/src/Encoder.cxx`. `cg/include/Encoder.h` is newer: a target operation on `setTarget`, `synchronize`, no clear commands. The commands it adds are not modelled. Object pointers are opaque references.
- SgGltf: only the symbol reader, `consumeUntil`, `consumeProperty`, the document-start check and the node-transform size rule are modelled. The rest of the loader (scenes, meshes, materials, buffers, `stof`/`stol` conversions) is not.
- SgObj: `v`, `vt` and `vn` lines only count. Their floating-point values are not read, so a vertex is the attribute numbers it refers to. Whether the floating-point reads of a line leave the stream good is a parameter (`numbers`), given the line's text. The shared stream is modelled by the word last read and whether the stream is good; the other state flags (`eof` and `fail` apart) are not distinguished. Attribute numbers are not checked against the attribute counts (in the source an out-of-range `vs[i1-1]` is undefined behaviour). An unreadable corner, where the source leaves the extracted integers indeterminate, is an `Unreadable` error. A field may carry a `+` sign, as `num_get` allows.
- SgObj.Scan: a field with a `-` sign is `Unreadable` in the model; `num_get` negates it modulo 2^32, which gives an index out of range of the attribute arrays (undefined behaviour in the source, as above).
- SgObj.Load follows the shared stream as written, blank-line finding included, because that is what `loadOBJ` does; the corrected reader of that finding (`SgObj.LoadLinesCleared`) is proved beside it and not used by `Load`. The key and quad-flag findings are corrected inside `Load`.
- The interactive, rendering and window tests are not modelled. Unit-test values appear as concrete example lemmas.

## Findings

| source | as written | input that shows it | evidently intended | confidence | as-written member | corrected member |
|---|---|---|---|---|---|---|
| sg/src/DataGLTF.cxx:104-108, 117-122 | the number and keyword loops stop only on a character outside the run; at end of stream `get` leaves the character unchanged, so the loop never ends | a file whose last symbol is `5` or `true` | end of stream ends the number or keyword | high, not executed | SgGltf.EndOfStreamHangsAsWritten | SgGltf.Symbol.ScanNum, SgGltf.Symbol.ScanWord |
| sg/src/DataOBJ.cxx:87, 116, 145, 174 | the de-duplication key glues the decimal indices together without a separator | corners `1/23` and `12/3` (both key `123`) | distinct corners get distinct keys | high, not executed | SgObj.KeyCollisionAsWritten | SgObj.CornerSpec |
| sg/src/DataOBJ.cxx:252-259 | `FQuad` is ORed into the persistent format and never cleared | a quad face followed by a triangle face: the triangle is stored as a quad with a stale fourth corner | each face is a quad or not by its own tokens | high, not executed | SgObj.StickyQuadAsWritten | SgObj.FaceStepIndices |
| sg/src/DataOBJ.cxx:205-206, 262 | `iss` is cleared only after a face line and `iss.str` keeps its state flags, so a line that leaves the stream at its end (a blank line, or one word alone, read with the `'\0'` that stands for the newline) leaves it bad: `str` keeps that word and every later line takes the `continue` branch | `v 1 2 3`, a blank line, `f 1 1 1`: the face is not stored | each line read on its own from a cleared stream | high, not executed | SgObj.BlankLineEndsReadingAsWritten | SgObj.BlankLineIgnored |
| sg/src/Animation.cxx:58, 61-78 | the end check `tm > back` misses `tm == back`, and the search then returns `(n-1, n)` | timeline `[0, 10]` at time 10 | the pair `(n-1, n-1)` | high, not executed | SgAnimation.GetKeyframesAsWritten | SgAnimation.GetKeyframes |
| cg/src/vk/BufferVK.cxx:87 | `offset + size > size_` is computed in 64 bits and wraps | offset 2^64-1, size 1, buffer of 16 bytes | reject every write that does not fit | medium, not executed | CgBuffer.WriteWrapsAsWritten | CgBuffer.BufferVK.Write |
| sg/include/Matrix.h:117-130 | `*=` writes into `data_` while reading from `other`, which is the same matrix for `m *= m` | the 2x2 identity multiplied into itself gives the zero matrix | `m *= m` leaves `m * m` | high, not executed | SgMatrix.SelfMulAsWrittenDiffers | SgMatrix.Matrix.MulAssign |
| sg/src/Mesh.cxx:117, 128 | `start + count > vxCount_` is computed in 32 bits and wraps, and so are `start * stride` and `count * stride` | ten vertices of stride 16, start 0xF0000000, count 0x10000001: the sum wraps to 1, the offset to 0 and the size to 16, so the write passes the buffer's check too and overwrites vertex 0 (assuming `vxStride_` is 32-bit, as the initialisers at sg/src/Mesh.cxx:70-72 make it) | reject every range past the stored count | medium, not executed | SgMesh.UpdateCheckAsWrittenWraps | SgMesh.MeshImpl.UpdateVertices |
| sg/src/Node.cxx:24-40 | only `child == this` is refused; inserting an ancestor makes the parent links a cycle and the count loop runs forever | inserting a root into its own child | refuse any ancestor as invalid | medium, not executed | SgNode.AncestorInsertCycles | SgNode.Node.Insert |
