/** Deferred render and texture states: the setters mark groups dirty, the draw-time flush recomputes them. */
module DeferredState {
  import opened Prelude
  import opened Direct3DTypes
  import opened RenderTables

  /** A command word and its one argument, as pushed for a simple render state. */
  datatype Command = Command(word: Dword, value: Dword)

  /** What is held fixed: whether a pixel shader is active, which stages have a texture, and whether the fixed-function
      vertex pipeline is in use (no vertex program, no passthrough, not all 192 constants given away). */
  datatype Setup = Setup(pixelShader: bool, textured: set<nat>, fixedFunction: bool)

  /**
   * What the words that one LazySet routine sends are made from: the shadow entries it looks at, unread ones zero,
   * and for the lights whether hardware lighting is on and specular light is computed.
   */
  datatype Inputs = Inputs(render: seq<Dword>, texture: seq<Dword>, lit: bool, specular: bool)

  /**
   * The globals the setters write; what the hardware groups were last computed from; the device's flag that the
   * combiners need specular light; and the specular-enable register, which two routines write.
   */
  datatype Device = Device(
    setup: Setup,
    render: seq<Dword>,
    texture: seq<Dword>,
    dirty: Flags,
    hardware: map<Group, Inputs>,
    needsSpecular: bool,
    specularEnable: bool,
    commands: seq<Command>)
  {
    /** The shadows are whole, every group has been computed once, and each stage maps to one of four coordinates. */
    ghost predicate Valid() {
      && |render| == RS_MAX
      && |texture| == TSS_MAXSTAGES * TSS_MAX
      && (forall g: Group :: g in hardware)
      && (forall stage: Stage :: texture[TextureIndex(stage, TSS_TEXCOORDINDEX)] % 0x1_0000 < 4)
    }
  }

  // Which combiner arguments select the specular colour.

  /** The arguments that a texture operation feeds to the combiner. */
  function ArgumentsOf(op: Dword): set<nat> {
    if op == TOP_SELECTARG1 || op == TOP_PREMODULATE then {1}
    else if op == TOP_SELECTARG2 then {2}
    else if op == TOP_MULTIPLYADD || op == TOP_LERP then {0, 1, 2}
    else if TOP_MODULATE <= op <= TOP_DOTPRODUCT3 then {1, 2}
    else {}
  }

  predicate SelectsSpecular(arg: Dword) {
    arg % 0x10 == TA_SPECULAR
  }

  /** One half of a stage: an operation, and its arguments behind it. */
  predicate HalfNeedsSpecular(texture: seq<Dword>, stage: Stage, opState: nat)
    requires |texture| == TSS_MAXSTAGES * TSS_MAX && opState + 3 < TSS_MAX
  {
    var used := ArgumentsOf(texture[TextureIndex(stage, opState)]);
    || (0 in used && SelectsSpecular(texture[TextureIndex(stage, opState + 1)]))
    || (1 in used && SelectsSpecular(texture[TextureIndex(stage, opState + 2)]))
    || (2 in used && SelectsSpecular(texture[TextureIndex(stage, opState + 3)]))
  }

  /** A dot product takes no alpha operation. */
  predicate StageNeedsSpecular(texture: seq<Dword>, stage: Stage)
    requires |texture| == TSS_MAXSTAGES * TSS_MAX
  {
    || HalfNeedsSpecular(texture, stage, TSS_COLOROP)
    || (texture[TextureIndex(stage, TSS_COLOROP)] != TOP_DOTPRODUCT3 && HalfNeedsSpecular(texture, stage, TSS_ALPHAOP))
  }

  /** The stages from one on, up to the first whose colour operation is disabled. */
  predicate StagesNeedSpecular(texture: seq<Dword>, stage: nat)
    requires |texture| == TSS_MAXSTAGES * TSS_MAX
    decreases TSS_MAXSTAGES - stage
  {
    && stage < TSS_MAXSTAGES
    && texture[TextureIndex(stage, TSS_COLOROP)] != TOP_DISABLE
    && (StageNeedsSpecular(texture, stage) || StagesNeedSpecular(texture, stage + 1))
  }

  /** What the combiner routine finds; point sprites use the last stage only. */
  predicate NeedsSpecular(render: seq<Dword>, texture: seq<Dword>)
    requires |render| == RS_MAX && |texture| == TSS_MAXSTAGES * TSS_MAX
  {
    StagesNeedSpecular(texture, if render[RS_POINTSPRITEENABLE] != 0 then 3 else 0)
  }

  /** The flag as recomputing the combiners now would leave it; under a pixel shader they leave it alone. */
  predicate FlagNow(d: Device)
    requires d.Valid()
  {
    if d.setup.pixelShader then d.needsSpecular else NeedsSpecular(d.render, d.texture)
  }

  // What the LazySet routines look at.

  predicate Lit(setup: Setup, render: seq<Dword>)
    requires |render| == RS_MAX
  {
    setup.fixedFunction && render[RS_LIGHTING] != 0
  }

  /** The lights routine's specular-needed test. */
  predicate SpecularNeeded(render: seq<Dword>, needs: bool)
    requires |render| == RS_MAX
  {
    render[RS_SPECULARENABLE] != 0 || needs
  }

  /** What the lights routine sets the specular-enable register to. */
  predicate LightsSpecularEnable(setup: Setup, render: seq<Dword>, needs: bool)
    requires |render| == RS_MAX
  {
    Lit(setup, render) || SpecularNeeded(render, needs)
  }

  /** The deferred render states that the routine of a group looks at; the lights see some only as a test. */
  predicate ReadsRender(g: Group, setup: Setup, lit: bool, specular: bool, texture: seq<Dword>, state: nat)
    requires |texture| == TSS_MAXSTAGES * TSS_MAX
  {
    match g
    case PointParams => 116 <= state <= 123
    case ShaderStageProgram => false
    case Combiners => !setup.pixelShader && state == RS_POINTSPRITEENABLE
    case TextureStage(stage) => state == RS_WRAP0 + texture[TextureIndex(stage, TSS_TEXCOORDINDEX)] % 0x1_0000
    case SpecFogCombiner => 92 <= state <= 97 || state == RS_SPECULARENABLE
    case TextureTransform => false
    case Lights => lit && (105 <= state <= 115 || (specular && state == RS_LOCALVIEWER))
    case Transform => setup.fixedFunction && state == RS_LIGHTING
  }

  /** The bump mode that a colour operation selects for the next stage's texture program. */
  function BumpKind(op: Dword): Dword {
    if op == TOP_BUMPENVMAP then 1 else if op == TOP_BUMPENVMAPLUMINANCE then 2 else 0
  }

  /** The sign bits a sampler is programmed with: bump mapping overrides the colour-sign state. */
  function EffectiveSign(op: Dword, sign: Dword): Dword {
    if op >= TOP_BUMPENVMAP then TSIGN_BUMP else sign
  }

  /** The stages whose colour operation shows in the texture program: the next one has a texture. */
  predicate ShowsBump(setup: Setup, stage: Stage) {
    !setup.pixelShader && stage < 3 && stage + 1 in setup.textured
  }

  /** What the routine of a group sees of one texture stage state; zero when it does not look. */
  function SeenTexture(g: Group, setup: Setup, texture: seq<Dword>, stage: Stage, state: nat): Dword
    requires |texture| == TSS_MAXSTAGES * TSS_MAX && state < TSS_MAX
  {
    var value := texture[TextureIndex(stage, state)];
    match g
    case ShaderStageProgram => if state == TSS_COLOROP && ShowsBump(setup, stage) then BumpKind(value) else 0
    case Combiners => if !setup.pixelShader && TSS_COLOROP <= state <= TSS_RESULTARG then value else 0
    case TextureStage(own) =>
      if stage != own then 0
      else if state == TSS_COLORSIGN then EffectiveSign(texture[TextureIndex(stage, TSS_COLOROP)], value)
      else if state < TSS_DEFERRED_TEXTURE_STATE_MAX || state == TSS_TEXCOORDINDEX then value
      else 0
    case TextureTransform =>
      if setup.fixedFunction && (state == TSS_TEXTURETRANSFORMFLAGS || state == TSS_TEXCOORDINDEX) then value else 0
    case _ => 0
  }

  /** What a group is computed from, given the combiners' flag. */
  function View(g: Group, setup: Setup, render: seq<Dword>, texture: seq<Dword>, needs: bool): (v: Inputs)
    requires |render| == RS_MAX && |texture| == TSS_MAXSTAGES * TSS_MAX
  {
    var lit, specular := Lit(setup, render), SpecularNeeded(render, needs);
    Inputs(
      seq(RS_MAX, r requires 0 <= r < RS_MAX =>
        if ReadsRender(g, setup, lit, specular, texture, r) then render[r] else 0),
      seq(TSS_MAXSTAGES * TSS_MAX, k requires 0 <= k < TSS_MAXSTAGES * TSS_MAX =>
        SeenTexture(g, setup, texture, k / TSS_MAX, k % TSS_MAX)),
      g == Lights && lit,
      g == Lights && lit && specular)
  }

  /** What recomputing everything now would compute a group from. */
  function Now(g: Group, d: Device): Inputs
    requires d.Valid()
  {
    View(g, d.setup, d.render, d.texture, FlagNow(d))
  }

  /** The flag shows in a group only in lights that depend on it. */
  lemma FlagSeen(g: Group, setup: Setup, render: seq<Dword>, texture: seq<Dword>, needs: bool, needs': bool)
    requires |render| == RS_MAX && |texture| == TSS_MAXSTAGES * TSS_MAX
    ensures View(g, setup, render, texture, needs) == View(g, setup, render, texture, needs') <==>
      (g == Lights && Lit(setup, render) && render[RS_SPECULARENABLE] == 0 ==> needs == needs')
  {
    var v, v' := View(g, setup, render, texture, needs), View(g, setup, render, texture, needs');
    assert v.texture == v'.texture;
    if SpecularNeeded(render, needs) == SpecularNeeded(render, needs') || g != Lights || !Lit(setup, render) {
      assert v.render == v'.render;
    }
  }

  // The operations, as functions of the globals.

  /** A call of one of the setters, inline or not, or a draw. */
  datatype Op =
    | SetRender(inline: bool, state: nat, value: Dword)
    | SetTexture(inline: bool, stage: Stage, state: nat, value: Dword)
    | Draw

  /** Simple and deferred render states, deferred texture states, and draws. */
  predicate Handled(op: Op) {
    match op
    case SetRender(_, state, _) => state < RS_DEFERRED_MAX
    case SetTexture(_, _, state, _) => state < TSS_DEFERRED_MAX
    case Draw => true
  }

  function SetRenderState(d: Device, pure: bool, state: nat, value: Dword): (d': Device)
    requires d.Valid() && state < RS_DEFERRED_MAX
    ensures d'.Valid()
  {
    if state < RS_SIMPLE_MAX then
      d.(commands := d.commands + [Command(SimpleEncode(state), value)],
         render := if pure then d.render else d.render[state := value])
    else
      d.(dirty := d.dirty + DIRTY_FROM_RENDER_STATE[state - RS_SIMPLE_MAX],
         render := d.render[state := value])
  }

  /** The dirty flags that a texture-state setter raises. */
  function TextureSetterFlags(inline: bool, stage: Stage, state: nat, value: Dword): Flags
    requires state < TSS_DEFERRED_MAX
  {
    if state < TSS_DEFERRED_TEXTURE_STATE_MAX then
      {stage}
    else if state == TSS_COLOROP && !inline then
      if value < TOP_BUMPENVMAP then COMBINERS else COMBINERS + SHADER_STAGE_PROGRAM + TEXTURE_STATE
    else
      DIRTY_FROM_TEXTURE_STATE[state]
  }

  /** The two writes both texture-state setters end with. */
  function MarkAndStore(d: Device, flags: Flags, stage: Stage, state: nat, value: Dword): (d': Device)
    requires d.Valid() && state < TSS_DEFERRED_MAX
    ensures d'.Valid()
  {
    assert forall s: Stage :: TextureIndex(s, TSS_TEXCOORDINDEX) != TextureIndex(stage, state);
    d.(dirty := d.dirty + flags, texture := d.texture[TextureIndex(stage, state) := value])
  }

  function SetTextureStageState(d: Device, inline: bool, stage: Stage, state: nat, value: Dword): (d': Device)
    requires d.Valid() && state < TSS_DEFERRED_MAX
    ensures d'.Valid()
  {
    MarkAndStore(d, TextureSetterFlags(inline, stage, state, value), stage, state, value)
  }

  /** A group that the flush recomputes: dirty, and not a transform that SetModelView overrides. */
  predicate Recomputed(flags: Flags, g: Group) {
    IsDirty(flags, g) && (g == Transform ==> DIRECT_MODELVIEW !in flags)
  }

  /** The flag behind the combiner routine, if it runs. */
  predicate FlushedFlag(d: Device)
    requires d.Valid()
  {
    if IsDirty(d.dirty, Combiners) then FlagNow(d) else d.needsSpecular
  }

  /** The combiner routine's own write to the specular-enable register: when the flag changes, and only if the render
      state does not enable specular light anyway. */
  predicate AfterCombiners(d: Device)
    requires d.Valid()
  {
    if FlushedFlag(d) != d.needsSpecular && d.render[RS_SPECULARENABLE] == 0 then FlushedFlag(d) else d.specularEnable
  }

  function Flush(d: Device): Device
    requires d.Valid()
  {
    d.(hardware := map g | g in d.hardware ::
         if Recomputed(d.dirty, g) then View(g, d.setup, d.render, d.texture, FlushedFlag(d)) else d.hardware[g],
       needsSpecular := FlushedFlag(d),
       specularEnable :=
         if IsDirty(d.dirty, Lights) then LightsSpecularEnable(d.setup, d.render, FlushedFlag(d)) else AfterCombiners(d),
       dirty := d.dirty * NOT_SET_STATE_FLAGS)
  }

  function DrawFlush(d: Device): Device
    requires d.Valid()
  {
    if d.dirty - NOT_SET_STATE_FLAGS != {} then Flush(d) else d
  }

  function Step(d: Device, pure: bool, op: Op): (d': Device)
    requires d.Valid() && Handled(op)
    ensures d'.Valid()
  {
    match op
    case SetRender(inline, state, value) => SetRenderState(d, pure && inline, state, value)
    case SetTexture(inline, stage, state, value) => SetTextureStageState(d, inline, stage, state, value)
    case Draw => DrawFlush(d)
  }

  predicate AllHandled(ops: seq<Op>) {
    forall op <- ops :: Handled(op)
  }

  function Run(d: Device, pure: bool, ops: seq<Op>): (d': Device)
    requires d.Valid() && AllHandled(ops)
    ensures d'.Valid()
    decreases |ops|
  {
    if ops == [] then d else Run(Step(d, pure, ops[0]), pure, ops[1..])
  }
}
