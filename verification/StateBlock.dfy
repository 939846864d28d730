/** State-block recording: which slots of the dirty-byte array the marking wrappers set. */
module StateBlock {
  import opened Direct3DTypes

  const STREAMS_MAX: nat := 16
  const PS_CONSTREG_MAX: nat := 16
  const VS_CONSTREG_COUNT: nat := 192
  const VS_CONSTREG_BIAS: nat := 96
  const TS_MAX: nat := 10

  // D3DSTATEBLOCKDIRTYINDEX
  const SBD_TEXTURES: nat := 0
  const SBD_PIXELSHADER: nat := SBD_TEXTURES + TSS_MAXSTAGES
  const SBD_VERTEXSHADER: nat := SBD_PIXELSHADER + 1
  const SBD_INDICES: nat := SBD_VERTEXSHADER + 1
  const SBD_STREAMS: nat := SBD_INDICES + 1
  const SBD_PIXELSHADERCONSTANTS: nat := SBD_STREAMS + STREAMS_MAX
  const SBD_VERTEXSHADERCONSTANTS: nat := SBD_PIXELSHADERCONSTANTS + PS_CONSTREG_MAX
  const SBD_RENDERSTATES: nat := SBD_VERTEXSHADERCONSTANTS + VS_CONSTREG_COUNT
  const SBD_TEXTURESTATES: nat := SBD_RENDERSTATES + RS_MAX
  const SBD_TRANSFORMS: nat := SBD_TEXTURESTATES + TSS_MAXSTAGES * TSS_MAX
  const SBD_VIEWPORT: nat := SBD_TRANSFORMS + TS_MAX
  const SBD_MATERIAL: nat := SBD_VIEWPORT + 1
  const SBD_BACKMATERIAL: nat := SBD_MATERIAL + 1
  const SBD_MAX: nat := SBD_BACKMATERIAL + 1

  /** One piece of recordable device state, by what it is rather than by where its byte lies. */
  datatype Coordinate =
    | Texture(stage: nat)
    | PixelShader
    | VertexShader
    | Indices
    | Stream(stream: nat)
    | PixelConstant(index: nat)
    | VertexConstant(register: int)
    | RenderState(state: nat)
    | TextureState(tstage: nat, tstate: nat)
    | Transform(transform: nat)
    | Viewport
    | Material
    | BackMaterial

  predicate Legal(c: Coordinate) {
    match c
    case Texture(stage) => stage < TSS_MAXSTAGES
    case Stream(stream) => stream < STREAMS_MAX
    case PixelConstant(index) => index < PS_CONSTREG_MAX
    case VertexConstant(register) => -96 <= register < 96
    case RenderState(state) => state < RS_MAX
    case TextureState(stage, state) => stage < TSS_MAXSTAGES && state < TSS_MAX
    case Transform(transform) => transform < TS_MAX
    case _ => true
  }

  /** The slot of the enum. */
  function Slot(c: Coordinate): int {
    match c
    case Texture(stage) => SBD_TEXTURES + stage
    case PixelShader => SBD_PIXELSHADER
    case VertexShader => SBD_VERTEXSHADER
    case Indices => SBD_INDICES
    case Stream(stream) => SBD_STREAMS + stream
    case PixelConstant(index) => SBD_PIXELSHADERCONSTANTS + index
    case VertexConstant(register) => SBD_VERTEXSHADERCONSTANTS + register + VS_CONSTREG_BIAS
    case RenderState(state) => SBD_RENDERSTATES + state
    case TextureState(stage, state) => SBD_TEXTURESTATES + state * TSS_MAXSTAGES + stage
    case Transform(transform) => SBD_TRANSFORMS + transform
    case Viewport => SBD_VIEWPORT
    case Material => SBD_MATERIAL
    case BackMaterial => SBD_BACKMATERIAL
  }

  /** What a slot stands for, read back from the enum's ranges. */
  function CoordinateAt(slot: nat): Coordinate
    requires slot < SBD_MAX
  {
    if slot < SBD_PIXELSHADER then Texture(slot)
    else if slot == SBD_PIXELSHADER then PixelShader
    else if slot == SBD_VERTEXSHADER then VertexShader
    else if slot == SBD_INDICES then Indices
    else if slot < SBD_PIXELSHADERCONSTANTS then Stream(slot - SBD_STREAMS)
    else if slot < SBD_VERTEXSHADERCONSTANTS then PixelConstant(slot - SBD_PIXELSHADERCONSTANTS)
    else if slot < SBD_RENDERSTATES then VertexConstant(slot - SBD_VERTEXSHADERCONSTANTS - VS_CONSTREG_BIAS)
    else if slot < SBD_TEXTURESTATES then RenderState(slot - SBD_RENDERSTATES)
    else if slot < SBD_TRANSFORMS then
      TextureState((slot - SBD_TEXTURESTATES) % TSS_MAXSTAGES, (slot - SBD_TEXTURESTATES) / TSS_MAXSTAGES)
    else if slot < SBD_VIEWPORT then Transform(slot - SBD_TRANSFORMS)
    else if slot == SBD_VIEWPORT then Viewport
    else if slot == SBD_MATERIAL then Material
    else BackMaterial
  }

  /** Legal coordinates and slots correspond one to one, and the slots fill the array. */
  lemma SlotsAreOneToOne()
    ensures forall c :: Legal(c) ==> 0 <= Slot(c) < SBD_MAX && CoordinateAt(Slot(c)) == c
    ensures forall slot: nat :: slot < SBD_MAX ==> Legal(CoordinateAt(slot)) && Slot(CoordinateAt(slot)) == slot
  {
    forall c | Legal(c)
      ensures 0 <= Slot(c) < SBD_MAX && CoordinateAt(Slot(c)) == c
    {
    }
    forall slot: nat | slot < SBD_MAX
      ensures Legal(CoordinateAt(slot)) && Slot(CoordinateAt(slot)) == slot
    {
    }
  }

  /** Where each kind of state starts, which is how the recorder walks the array. */
  lemma SlotNumbers()
    ensures Slot(Texture(0)) == 0 && Slot(PixelShader) == 4 && Slot(VertexShader) == 5 && Slot(Indices) == 6
    ensures Slot(Stream(0)) == 7 && Slot(PixelConstant(0)) == 23 && Slot(VertexConstant(-96)) == 39
    ensures Slot(RenderState(0)) == 231 && Slot(TextureState(0, 0)) == 397 && Slot(TextureState(1, 0)) == 398
    ensures Slot(Transform(0)) == 525 && Slot(Viewport) == 535 && Slot(Material) == 536 && Slot(BackMaterial) == 537
    ensures SBD_MAX == 538
  {
  }

  /** A call of one of the wrappers that mark before they forward; NoMark is any call that does not. */
  datatype Call =
    | SetTexture(stage: nat)
    | SetPixelShader
    | SetVertexShader
    | SetIndices
    | SetStreamSource(stream: nat)
    | SetPixelShaderConstant(first: nat, count: nat)
    | SetVertexShaderConstant(register: int, rcount: nat)
    | SetRenderState(state: nat)
    | SetTextureStageState(tstage: nat, tstate: nat)
    | SetTransform(transform: nat)
    | SetViewport
    | SetMaterial
    | SetBackMaterial
    | NoMark

  /** Whether a call sets a piece of state. */
  predicate Sets(call: Call, c: Coordinate) {
    match call
    case SetTexture(stage) => c == Texture(stage)
    case SetPixelShader => c == PixelShader
    case SetVertexShader => c == VertexShader
    case SetIndices => c == Indices
    case SetStreamSource(stream) => c == Stream(stream)
    case SetPixelShaderConstant(first, count) => c.PixelConstant? && first <= c.index < first + count
    case SetVertexShaderConstant(register, count) => c.VertexConstant? && register <= c.register < register + count
    case SetRenderState(state) => c == RenderState(state)
    case SetTextureStageState(stage, state) => c == TextureState(stage, state)
    case SetTransform(transform) => c == Transform(transform)
    case SetViewport => c == Viewport
    case SetMaterial => c == Material
    case SetBackMaterial => c == BackMaterial
    case NoMark => false
  }

  /** What the API asks of its callers: nothing outside the device's state. */
  predicate InRange(call: Call) {
    match call
    case SetTexture(stage) => stage < TSS_MAXSTAGES
    case SetStreamSource(stream) => stream < STREAMS_MAX
    case SetPixelShaderConstant(first, count) => first + count <= PS_CONSTREG_MAX
    case SetVertexShaderConstant(register, count) => -96 <= register && register + count <= 96
    case SetRenderState(state) => state < RS_MAX
    case SetTextureStageState(stage, state) => stage < TSS_MAXSTAGES && state < TSS_MAX
    case SetTransform(transform) => transform < TS_MAX
    case _ => true
  }

  /** The slots a call marks, as its marking macro computes them: `Width` of them from `First` on. */
  function First(call: Call): int {
    match call
    case SetTexture(stage) => SBD_TEXTURES + stage
    case SetPixelShader => SBD_PIXELSHADER
    case SetVertexShader => SBD_VERTEXSHADER
    case SetIndices => SBD_INDICES
    case SetStreamSource(stream) => SBD_STREAMS + stream
    case SetPixelShaderConstant(first, _) => SBD_PIXELSHADERCONSTANTS + first
    case SetVertexShaderConstant(register, _) => SBD_VERTEXSHADERCONSTANTS + register + 96
    case SetRenderState(state) => SBD_RENDERSTATES + state
    case SetTextureStageState(stage, state) => SBD_TEXTURESTATES + state * TSS_MAXSTAGES + stage
    case SetTransform(transform) => SBD_TRANSFORMS + transform
    case SetViewport => SBD_VIEWPORT
    case SetMaterial => SBD_MATERIAL
    case SetBackMaterial => SBD_BACKMATERIAL
    case NoMark => 0
  }

  function Width(call: Call): nat {
    match call
    case SetPixelShaderConstant(_, count) => count
    case SetVertexShaderConstant(_, count) => count
    case NoMark => 0
    case _ => 1
  }

  /** The marked range of a call holds exactly the slots of what the call sets. */
  lemma MarksWhatItSets(call: Call, slot: nat)
    requires InRange(call) && slot < SBD_MAX
    ensures 0 <= First(call) && First(call) + Width(call) <= SBD_MAX
    ensures First(call) <= slot < First(call) + Width(call) <==> Sets(call, CoordinateAt(slot))
  {
  }

  /** The slots that the macros without a count mark, by number. */
  lemma MarkedNumbers(stage: nat, stream: nat, state: nat)
    ensures First(SetTexture(stage)) == stage && First(SetPixelShader) == 4 && First(SetVertexShader) == 5
    ensures First(SetIndices) == 6 && First(SetStreamSource(stream)) == 7 + stream
    ensures First(SetRenderState(state)) == 231 + state && First(SetTransform(state)) == 525 + state
    ensures First(SetTextureStageState(stage, state)) == 397 + 4 * state + stage
    ensures First(SetViewport) == 535 && First(SetMaterial) == 536 && First(SetBackMaterial) == 537
  {
  }

  function Marked(dirty: seq<bool>, call: Call): (dirty': seq<bool>)
    ensures |dirty'| == |dirty|
  {
    seq(|dirty|, i requires 0 <= i < |dirty| => dirty[i] || First(call) <= i < First(call) + Width(call))
  }

  function MarkedBy(dirty: seq<bool>, calls: seq<Call>): (dirty': seq<bool>)
    ensures |dirty'| == |dirty|
    decreases |calls|
  {
    if calls == [] then dirty else MarkedBy(Marked(dirty, calls[0]), calls[1..])
  }

  /** A slot is set at the end of a run if it was set at the start or some call set its piece of state. */
  lemma {:induction false} RunMarks(dirty: seq<bool>, calls: seq<Call>, slot: nat)
    requires SBD_MAX <= |dirty| && slot < SBD_MAX && forall call <- calls :: InRange(call)
    ensures MarkedBy(dirty, calls)[slot] <==> dirty[slot] || exists call <- calls :: Sets(call, CoordinateAt(slot))
    decreases |calls|
  {
    if calls != [] {
      assert calls[0] in calls && calls == [calls[0]] + calls[1..];
      MarksWhatItSets(calls[0], slot);
      RunMarks(Marked(dirty, calls[0]), calls[1..], slot);
    }
  }

  /** Recording is exact: from a clear array, a piece of state is marked if and only if some call set it. */
  lemma RecordingIsExact(calls: seq<Call>, c: Coordinate)
    requires Legal(c) && forall call <- calls :: InRange(call)
    ensures 0 <= Slot(c) < SBD_MAX
    ensures MarkedBy(Clear(), calls)[Slot(c)] <==> exists call <- calls :: Sets(call, c)
  {
    SlotsAreOneToOne();
    RunMarks(Clear(), calls, Slot(c));
  }

  /** The array that BeginStateBlock leaves: SBD_MAX rounded up to whole words, all clear. */
  function Clear(): (dirty: seq<bool>)
    ensures SBD_MAX <= |dirty| && forall i: nat | i < |dirty| :: !dirty[i]
  {
    seq((SBD_MAX + 3) / 4 * 4, _ => false)
  }

  /** The dirty-byte array and the wrappers' writes to it. */
  class Recorder {
    const dirty: array<bool>

    ghost predicate Valid() {
      dirty.Length == |Clear()|
    }

    constructor ()
      ensures Valid() && fresh(dirty)
    {
      dirty := new bool[(SBD_MAX + 3) / 4 * 4];
    }

    /** ClearStateBlockFlags, as BeginStateBlock calls it. */
    method BeginStateBlock()
      requires Valid()
      modifies dirty
      ensures dirty[..] == Clear()
    {
      for i := 0 to dirty.Length
        invariant forall k: nat | k < i :: !dirty[k]
      {
        dirty[i] := false;
      }
    }

    /** memset of `count` bytes to TRUE. */
    method Fill(from: nat, count: nat)
      requires Valid() && from + count <= dirty.Length
      modifies dirty
      ensures forall k: nat | k < dirty.Length :: dirty[k] == (old(dirty[k]) || from <= k < from + count)
    {
      for i := 0 to count
        invariant forall k: nat | k < dirty.Length :: dirty[k] == (old(dirty[k]) || from <= k < from + i)
      {
        dirty[from + i] := true;
      }
    }

    /** The marking macro that a wrapper expands before it forwards its call. */
    method Mark(call: Call)
      requires Valid() && InRange(call)
      modifies dirty
      ensures dirty[..] == old(Marked(dirty[..], call))
    {
      MarksWhatItSets(call, 0);
      match call
      case SetPixelShaderConstant(first, count) => Fill(SBD_PIXELSHADERCONSTANTS + first, count);
      case SetVertexShaderConstant(register, count) => Fill(SBD_VERTEXSHADERCONSTANTS + register + 96, count);
      case SetTextureStageState(stage, state) => dirty[SBD_TEXTURESTATES + state * TSS_MAXSTAGES + stage] := true;
      case NoMark =>
      case _ => dirty[First(call)] := true;
    }
  }
}
