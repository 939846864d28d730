/** When the lazy recomputation of deferred states cannot be told from recomputing everything after every call. */
module LazyEager {
  import opened Prelude
  import opened Direct3DTypes
  import opened RenderTables
  import opened DeferredState

  /** What a draw finds: what the groups were last computed from, and the register that two routines share. */
  datatype Hardware = Hardware(groups: map<Group, Inputs>, specularEnable: bool)

  function LazyHardware(d: Device): Hardware {
    Hardware(d.hardware, d.specularEnable)
  }

  /** The hardware of a machine that recomputes every group after every call. */
  function EagerHardware(d: Device): Hardware
    requires d.Valid()
  {
    Hardware(map g | g in d.hardware :: Now(g, d), LightsSpecularEnable(d.setup, d.render, FlagNow(d)))
  }

  /** The hardware that each draw of a run finds, with lazy recomputation. */
  function LazyDraws(d: Device, pure: bool, ops: seq<Op>): seq<Hardware>
    requires d.Valid() && AllHandled(ops)
    decreases |ops|
  {
    if ops == [] then [] else
      var d' := Step(d, pure, ops[0]);
      (if ops[0].Draw? then [LazyHardware(d')] else []) + LazyDraws(d', pure, ops[1..])
  }

  /** The hardware that each draw of a run finds, with eager recomputation. */
  function EagerDraws(d: Device, pure: bool, ops: seq<Op>): seq<Hardware>
    requires d.Valid() && AllHandled(ops)
    decreases |ops|
  {
    if ops == [] then [] else
      var d' := Step(d, pure, ops[0]);
      (if ops[0].Draw? then [EagerHardware(d')] else []) + EagerDraws(d', pure, ops[1..])
  }

  /** Hardware lighting without the specular render state: only then do the lights depend on the combiners' flag. */
  predicate LightsUseFlag(d: Device)
    requires d.Valid()
  {
    Lit(d.setup, d.render) && d.render[RS_SPECULARENABLE] == 0
  }

  /** Every clean group is what its routine would compute now; the flag is current while the combiners are clean, or
      the lights depend on it; and while the lights are clean the shared register is what they would make it. */
  ghost predicate Coherent(d: Device)
    requires d.Valid()
  {
    && DIRECT_MODELVIEW !in d.dirty
    && (forall g: Group :: !IsDirty(d.dirty, g) ==> d.hardware[g] == Now(g, d))
    && (!IsDirty(d.dirty, Combiners) ==> d.needsSpecular == FlagNow(d))
    && (!IsDirty(d.dirty, Lights) ==>
          && d.specularEnable == LightsSpecularEnable(d.setup, d.render, d.needsSpecular)
          && (LightsUseFlag(d) ==> d.needsSpecular == FlagNow(d)))
  }

  // The tables cover what the flush reads, but for the combiners' flag.

  /** A group's routine looks at no render state that does not raise the group's flag. */
  lemma RenderReadIsRaised(g: Group, setup: Setup, lit: bool, specular: bool, texture: seq<Dword>, state: nat)
    requires |texture| == TSS_MAXSTAGES * TSS_MAX && state < RS_DEFERRED_MAX
    requires forall stage: Stage :: texture[TextureIndex(stage, TSS_TEXCOORDINDEX)] % 0x1_0000 < 4
    requires
      || ReadsRender(g, setup, lit, specular, texture, state)
      || (g == Lights && (state == RS_LIGHTING || state == RS_SPECULARENABLE))
    ensures state >= RS_SIMPLE_MAX && IsDirty(DIRTY_FROM_RENDER_STATE[state - RS_SIMPLE_MAX], g)
  {
  }

  /** A render state that does not raise a group's flag is not seen by the group's routine. */
  lemma RenderTableCoversReads(g: Group, d: Device, state: nat, value: Dword, needs: bool)
    requires d.Valid() && state < RS_DEFERRED_MAX
    requires state < RS_SIMPLE_MAX || !IsDirty(DIRTY_FROM_RENDER_STATE[state - RS_SIMPLE_MAX], g)
    ensures View(g, d.setup, d.render[state := value], d.texture, needs) == View(g, d.setup, d.render, d.texture, needs)
  {
    var lit, specular := Lit(d.setup, d.render), SpecularNeeded(d.render, needs);
    if ReadsRender(g, d.setup, lit, specular, d.texture, state)
       || (g == Lights && (state == RS_LIGHTING || state == RS_SPECULARENABLE)) {
      RenderReadIsRaised(g, d.setup, lit, specular, d.texture, state);
    }
  }

  /** A sampler, combiner or transform state that does not raise a group's flag is not seen by the group's routine. */
  lemma TextureTableCoversReads(g: Group, d: Device, inline: bool, stage: Stage, state: nat, value: Dword, needs: bool)
    requires d.Valid() && state < TSS_DEFERRED_MAX && state != TSS_COLOROP
    requires !IsDirty(TextureSetterFlags(inline, stage, state, value), g)
    ensures View(g, d.setup, d.render, d.texture[TextureIndex(stage, state) := value], needs)
         == View(g, d.setup, d.render, d.texture, needs)
  {
    var texture := d.texture[TextureIndex(stage, state) := value];
    forall s: Stage, t: nat | t < TSS_MAX
      ensures SeenTexture(g, d.setup, texture, s, t) == SeenTexture(g, d.setup, d.texture, s, t)
    {
    }
    SameReads(g, d, texture, needs);
  }

  /** Which render states a group looks at depends on the texture states only by the coordinate index. */
  lemma SameReads(g: Group, d: Device, texture: seq<Dword>, needs: bool)
    requires d.Valid() && |texture| == |d.texture|
    requires forall s: Stage :: texture[TextureIndex(s, TSS_TEXCOORDINDEX)] == d.texture[TextureIndex(s, TSS_TEXCOORDINDEX)]
    ensures View(g, d.setup, d.render, texture, needs).render == View(g, d.setup, d.render, d.texture, needs).render
  {
  }

  /** Where a group other than the combiners looks at the colour operation of a stage. */
  predicate SeesColorOp(g: Group, setup: Setup, stage: Stage) {
    (g == ShaderStageProgram && ShowsBump(setup, stage)) || g == TextureStage(stage)
  }

  /** Besides the combiners two groups see the colour operation, and only through its bump mode. */
  lemma ColorOpSeen(g: Group, d: Device, stage: Stage, value: Dword, needs: bool)
    requires d.Valid() && g != Combiners
    ensures
      var k := TextureIndex(stage, TSS_COLOROP);
      var before := d.texture[k];
      var sign := d.texture[TextureIndex(stage, TSS_COLORSIGN)];
      View(g, d.setup, d.render, d.texture[k := value], needs) == View(g, d.setup, d.render, d.texture, needs) <==>
      (SeesColorOp(g, d.setup, stage) ==>
         if g == ShaderStageProgram then BumpKind(before) == BumpKind(value)
         else EffectiveSign(before, sign) == EffectiveSign(value, sign))
  {
    var k := TextureIndex(stage, TSS_COLOROP);
    var texture := d.texture[k := value];
    var v, v' := View(g, d.setup, d.render, d.texture, needs), View(g, d.setup, d.render, texture, needs);
    SameReads(g, d, texture, needs);
    var seenAt := if g.ShaderStageProgram? then k else TextureIndex(stage, TSS_COLORSIGN);
    ColorOpSeenAt(g, d, stage, value, seenAt);
    assert v' == v <==> v'.texture[seenAt] == v.texture[seenAt];
  }

  lemma ColorOpSeenAt(g: Group, d: Device, stage: Stage, value: Dword, seenAt: nat)
    requires d.Valid() && g != Combiners
    requires seenAt == TextureIndex(stage, if g.ShaderStageProgram? then TSS_COLOROP else TSS_COLORSIGN)
    ensures
      var texture := d.texture[TextureIndex(stage, TSS_COLOROP) := value];
      forall i: nat | i < TSS_MAXSTAGES * TSS_MAX && i != seenAt ::
        SeenTexture(g, d.setup, texture, i / TSS_MAX, i % TSS_MAX)
          == SeenTexture(g, d.setup, d.texture, i / TSS_MAX, i % TSS_MAX)
  {
  }

  // What the flag depends on.

  lemma HalfUntouched(texture: seq<Dword>, own: Stage, state: nat, value: Dword, stage: Stage, opState: nat)
    requires |texture| == TSS_MAXSTAGES * TSS_MAX && state < TSS_MAX && !(TSS_COLOROP <= state < TSS_RESULTARG)
    requires opState == TSS_COLOROP || opState == TSS_ALPHAOP
    ensures HalfNeedsSpecular(texture[TextureIndex(own, state) := value], stage, opState)
         == HalfNeedsSpecular(texture, stage, opState)
  {
  }

  /** The combiners' flag depends on the operations and their arguments only. */
  lemma {:induction false} StagesUntouched(texture: seq<Dword>, own: Stage, state: nat, value: Dword, stage: nat)
    requires |texture| == TSS_MAXSTAGES * TSS_MAX && state < TSS_MAX && !(TSS_COLOROP <= state < TSS_RESULTARG)
    ensures StagesNeedSpecular(texture[TextureIndex(own, state) := value], stage) == StagesNeedSpecular(texture, stage)
    decreases TSS_MAXSTAGES - stage
  {
    if stage < TSS_MAXSTAGES {
      HalfUntouched(texture, own, state, value, stage, TSS_COLOROP);
      HalfUntouched(texture, own, state, value, stage, TSS_ALPHAOP);
      StagesUntouched(texture, own, state, value, stage + 1);
    }
  }

  // When lazy recomputation is invisible.

  /** No bump mode changes behind a clean group. */
  predicate BumpGuard(d: Device, inline: bool, stage: Stage, value: Dword)
    requires d.Valid()
  {
    inline || value < TOP_BUMPENVMAP ==>
      var before := d.texture[TextureIndex(stage, TSS_COLOROP)];
      var sign := d.texture[TextureIndex(stage, TSS_COLORSIGN)];
      && (IsDirty(d.dirty, ShaderStageProgram) || !ShowsBump(d.setup, stage) || BumpKind(before) == BumpKind(value))
      && (IsDirty(d.dirty, TextureStage(stage)) || EffectiveSign(before, sign) == EffectiveSign(value, sign))
  }

  /** The combiners do not start or stop needing specular light behind clean lights that depend on it. */
  predicate SpecularGuard(d: Device, render: seq<Dword>, texture: seq<Dword>)
    requires d.Valid() && |render| == RS_MAX && |texture| == TSS_MAXSTAGES * TSS_MAX
  {
    IsDirty(d.dirty, Lights) || !LightsUseFlag(d) || d.setup.pixelShader
    || NeedsSpecular(render, texture) == NeedsSpecular(d.render, d.texture)
  }

  /** What a caller can check before a call. */
  predicate Guard(d: Device, op: Op)
    requires d.Valid() && Handled(op)
  {
    match op
    case SetTexture(inline, stage, state, value) =>
      && (state == TSS_COLOROP ==> BumpGuard(d, inline, stage, value))
      && (TSS_COLOROP <= state < TSS_RESULTARG ==>
            SpecularGuard(d, d.render, d.texture[TextureIndex(stage, state) := value]))
    case SetRender(_, state, value) =>
      state == RS_POINTSPRITEENABLE ==> SpecularGuard(d, d.render[state := value], d.texture)
    case Draw => true
  }

  /** A step keeps every clean group up to date exactly when its guard holds. */
  lemma StepKeepsCoherent(d: Device, pure: bool, op: Op)
    requires d.Valid() && Handled(op) && Coherent(d)
    ensures Coherent(Step(d, pure, op)) <==> Guard(d, op)
  {
    match op
    case SetRender(inline, state, value) =>
      RenderStepCoherent(d, pure && inline, inline, state, value);
    case SetTexture(inline, stage, state, value) =>
      if state == TSS_COLOROP {
        ColorOpStepCoherent(d, inline, stage, value);
      } else {
        TextureStepCoherent(d, inline, stage, state, value);
      }
    case Draw =>
      DrawCoherent(d);
  }

  ghost predicate StaysCurrent(g: Group, d: Device, d': Device, flags: Flags)
    requires d.Valid() && d'.Valid()
  {
    IsDirty(d.dirty, g) || IsDirty(flags, g) || Now(g, d') == Now(g, d)
  }

  /** A setter: it marks, stores, and leaves the hardware alone. */
  ghost predicate Marks(d: Device, d': Device, flags: Flags)
    requires d.Valid() && d'.Valid()
  {
    && d'.dirty == d.dirty + flags && DIRECT_MODELVIEW !in flags
    && d'.setup == d.setup && d'.hardware == d.hardware
    && d'.needsSpecular == d.needsSpecular && d'.specularEnable == d.specularEnable
    && (!IsDirty(flags, Combiners) ==> FlagNow(d') == FlagNow(d))
    && (!IsDirty(flags, Lights) ==>
          d'.render[RS_LIGHTING] == d.render[RS_LIGHTING] && d'.render[RS_SPECULARENABLE] == d.render[RS_SPECULARENABLE])
  }

  /** After marking, what was clean must still be current, and nothing else is asked. */
  lemma MarkCoherent(d: Device, d': Device, flags: Flags)
    requires d.Valid() && d'.Valid() && Coherent(d) && Marks(d, d', flags)
    ensures Coherent(d') <==> forall g: Group :: StaysCurrent(g, d, d', flags)
  {
    if Coherent(d') {
      forall g: Group
        ensures StaysCurrent(g, d, d', flags)
      {
      }
    } else if forall g: Group :: StaysCurrent(g, d, d', flags) {
      assert StaysCurrent(Lights, d, d', flags);
      FlagSeen(Lights, d.setup, d.render, d.texture, FlagNow(d), FlagNow(d'));
      assert forall g: Group :: !IsDirty(d'.dirty, g) ==> StaysCurrent(g, d, d', flags);
    }
  }

  /** A group that the tables cover: seen through the same flag, it is as before. */
  ghost predicate Covered(g: Group, d: Device, d': Device)
    requires d.Valid() && d'.Valid()
  {
    View(g, d.setup, d'.render, d'.texture, FlagNow(d')) == View(g, d.setup, d.render, d.texture, FlagNow(d'))
  }

  lemma CoveredStaysIff(g: Group, d: Device, d': Device, flags: Flags)
    requires d.Valid() && d'.Valid() && Marks(d, d', flags)
    requires IsDirty(flags, g) || Covered(g, d, d')
    ensures StaysCurrent(g, d, d', flags) <==>
      IsDirty(d.dirty, g) || IsDirty(flags, g) || (g == Lights && LightsUseFlag(d) ==> FlagNow(d') == FlagNow(d))
  {
    FlagSeen(g, d.setup, d.render, d.texture, FlagNow(d'), FlagNow(d));
  }

  /** When the tables cover every group, only the combiners' flag is left to watch. */
  lemma CoveredStep(d: Device, d': Device, flags: Flags)
    requires d.Valid() && d'.Valid() && Coherent(d) && Marks(d, d', flags)
    requires forall g: Group :: IsDirty(flags, g) || Covered(g, d, d')
    ensures Coherent(d') <==>
      IsDirty(d.dirty, Lights) || IsDirty(flags, Lights) || !LightsUseFlag(d) || FlagNow(d') == FlagNow(d)
  {
    MarkCoherent(d, d', flags);
    forall g: Group
      ensures StaysCurrent(g, d, d', flags) <==>
        IsDirty(d.dirty, g) || IsDirty(flags, g) || (g == Lights && LightsUseFlag(d) ==> FlagNow(d') == FlagNow(d))
    {
      CoveredStaysIff(g, d, d', flags);
    }
  }

  // The two setters and the draw.

  lemma RenderFlags(state: nat)
    requires RS_SIMPLE_MAX <= state < RS_DEFERRED_MAX
    ensures
      var flags := DIRTY_FROM_RENDER_STATE[state - RS_SIMPLE_MAX];
      && DIRECT_MODELVIEW !in flags
      && (state == RS_POINTSPRITEENABLE ==> IsDirty(flags, Combiners) && !IsDirty(flags, Lights))
      && (state == RS_LIGHTING || state == RS_SPECULARENABLE ==> IsDirty(flags, Lights))
  {
  }

  lemma RenderStepMarks(d: Device, pure: bool, state: nat, value: Dword) returns (flags: Flags)
    requires d.Valid() && state < RS_DEFERRED_MAX
    ensures Marks(d, SetRenderState(d, pure, state, value), flags)
    ensures state == RS_POINTSPRITEENABLE ==> !IsDirty(flags, Lights)
    ensures state != RS_POINTSPRITEENABLE ==> FlagNow(SetRenderState(d, pure, state, value)) == FlagNow(d)
    ensures forall g: Group :: IsDirty(flags, g) || Covered(g, d, SetRenderState(d, pure, state, value))
  {
    var d' := SetRenderState(d, pure, state, value);
    flags := if state < RS_SIMPLE_MAX then {} else DIRTY_FROM_RENDER_STATE[state - RS_SIMPLE_MAX];
    if state >= RS_SIMPLE_MAX {
      RenderFlags(state);
    }
    forall g: Group | !IsDirty(flags, g)
      ensures Covered(g, d, d')
    {
      RenderTableCoversReads(g, d, state, value, FlagNow(d'));
    }
  }

  lemma RenderStepCoherent(d: Device, pure: bool, inline: bool, state: nat, value: Dword)
    requires d.Valid() && state < RS_DEFERRED_MAX && Coherent(d)
    ensures Coherent(SetRenderState(d, pure, state, value)) <==> Guard(d, SetRender(inline, state, value))
  {
    var flags := RenderStepMarks(d, pure, state, value);
    CoveredStep(d, SetRenderState(d, pure, state, value), flags);
  }

  lemma TextureFlags(inline: bool, stage: Stage, state: nat, value: Dword)
    requires state < TSS_DEFERRED_MAX
    ensures
      var flags := TextureSetterFlags(inline, stage, state, value);
      && DIRECT_MODELVIEW !in flags && !IsDirty(flags, Lights)
      && (TSS_COLOROP <= state <= TSS_RESULTARG ==> IsDirty(flags, Combiners))
  {
  }

  lemma TextureStepMarks(d: Device, inline: bool, stage: Stage, state: nat, value: Dword)
    requires d.Valid() && state < TSS_DEFERRED_MAX
    ensures Marks(d, SetTextureStageState(d, inline, stage, state, value), TextureSetterFlags(inline, stage, state, value))
    ensures !(TSS_COLOROP <= state < TSS_RESULTARG) ==>
      FlagNow(SetTextureStageState(d, inline, stage, state, value)) == FlagNow(d)
  {
    TextureFlags(inline, stage, state, value);
    if !(TSS_COLOROP <= state < TSS_RESULTARG) {
      var first := if d.render[RS_POINTSPRITEENABLE] != 0 then 3 else 0;
      StagesUntouched(d.texture, stage, state, value, first);
    }
  }

  lemma TextureStepCoherent(d: Device, inline: bool, stage: Stage, state: nat, value: Dword)
    requires d.Valid() && state < TSS_DEFERRED_MAX && state != TSS_COLOROP && Coherent(d)
    ensures Coherent(SetTextureStageState(d, inline, stage, state, value)) <==> Guard(d, SetTexture(inline, stage, state, value))
  {
    var d' := SetTextureStageState(d, inline, stage, state, value);
    var flags := TextureSetterFlags(inline, stage, state, value);
    TextureStepMarks(d, inline, stage, state, value);
    TextureFlags(inline, stage, state, value);
    forall g: Group | !IsDirty(flags, g)
      ensures Covered(g, d, d')
    {
      TextureTableCoversReads(g, d, inline, stage, state, value, FlagNow(d'));
    }
    CoveredStep(d, d', flags);
  }

  /** Which groups a colour operation marks. */
  lemma ColorOpFlags(inline: bool, stage: Stage, value: Dword, g: Group)
    ensures IsDirty(TextureSetterFlags(inline, stage, TSS_COLOROP, value), g) <==>
      g == Combiners || (!inline && value >= TOP_BUMPENVMAP && (g == ShaderStageProgram || g.TextureStage?))
  {
  }

  /** Which groups stay current through a colour operation. */
  lemma ColorOpStays(g: Group, d: Device, inline: bool, stage: Stage, value: Dword)
    requires d.Valid()
    ensures
      var d' := SetTextureStageState(d, inline, stage, TSS_COLOROP, value);
      var flags := TextureSetterFlags(inline, stage, TSS_COLOROP, value);
      var before := d.texture[TextureIndex(stage, TSS_COLOROP)];
      var sign := d.texture[TextureIndex(stage, TSS_COLORSIGN)];
      StaysCurrent(g, d, d', flags) <==>
        || IsDirty(d.dirty, g) || IsDirty(flags, g)
        || (&& (g == ShaderStageProgram && ShowsBump(d.setup, stage) ==> BumpKind(before) == BumpKind(value))
            && (g == TextureStage(stage) ==> EffectiveSign(before, sign) == EffectiveSign(value, sign))
            && (g == Lights && LightsUseFlag(d) ==> FlagNow(d') == FlagNow(d)))
  {
    var d' := SetTextureStageState(d, inline, stage, TSS_COLOROP, value);
    TextureStepMarks(d, inline, stage, TSS_COLOROP, value);
    ColorOpFlags(inline, stage, value, g);
    if g != Combiners {
      ColorOpSeen(g, d, stage, value, FlagNow(d'));
      FlagSeen(g, d.setup, d.render, d.texture, FlagNow(d'), FlagNow(d));
    }
  }

  lemma ColorOpStepCoherent(d: Device, inline: bool, stage: Stage, value: Dword)
    requires d.Valid() && Coherent(d)
    ensures Coherent(SetTextureStageState(d, inline, stage, TSS_COLOROP, value))
       <==> Guard(d, SetTexture(inline, stage, TSS_COLOROP, value))
  {
    var d' := SetTextureStageState(d, inline, stage, TSS_COLOROP, value);
    var flags := TextureSetterFlags(inline, stage, TSS_COLOROP, value);
    TextureStepMarks(d, inline, stage, TSS_COLOROP, value);
    MarkCoherent(d, d', flags);
    ColorOpGuard(d, inline, stage, value, d', flags);
  }

  lemma ColorOpGuard(d: Device, inline: bool, stage: Stage, value: Dword, d': Device, flags: Flags)
    requires d.Valid() && flags == TextureSetterFlags(inline, stage, TSS_COLOROP, value)
    requires d' == SetTextureStageState(d, inline, stage, TSS_COLOROP, value)
    ensures (forall g: Group :: StaysCurrent(g, d, d', flags))
       <==> Guard(d, SetTexture(inline, stage, TSS_COLOROP, value))
  {
    ColorOpStays(ShaderStageProgram, d, inline, stage, value);
    ColorOpStays(TextureStage(stage), d, inline, stage, value);
    ColorOpStays(Lights, d, inline, stage, value);
    ColorOpFlags(inline, stage, value, ShaderStageProgram);
    ColorOpFlags(inline, stage, value, TextureStage(stage));
    ColorOpFlags(inline, stage, value, Lights);
    if Guard(d, SetTexture(inline, stage, TSS_COLOROP, value)) {
      forall g: Group
        ensures StaysCurrent(g, d, d', flags)
      {
        ColorOpStays(g, d, inline, stage, value);
      }
    }
  }

  /** A draw leaves no group dirty, and touches neither the other flags nor the shadows nor the push buffer; and it
      leaves a transform alone that was set directly. */
  lemma DrawCleans(d: Device)
    requires d.Valid()
    ensures
      var d' := DrawFlush(d);
      && (forall g: Group :: !IsDirty(d'.dirty, g))
      && (forall bit: nat :: bit in {4, 5, 6, 30, 31} ==> (bit in d'.dirty <==> bit in d.dirty))
      && d'.render == d.render && d'.texture == d.texture && d'.commands == d.commands
      && (31 in d.dirty ==> d'.hardware[Transform] == d.hardware[Transform])
  {
    var d' := DrawFlush(d);
    forall g: Group
      ensures !IsDirty(d'.dirty, g)
    {
      assert Bit(g) in d.dirty ==> Bit(g) in d.dirty - NOT_SET_STATE_FLAGS;
    }
  }

  lemma DrawCoherent(d: Device)
    requires d.Valid() && Coherent(d)
    ensures Coherent(DrawFlush(d)) && LazyHardware(DrawFlush(d)) == EagerHardware(d)
  {
    DrawCleans(d);
    DrawnFlag(d);
    DrawnRegister(d);
    forall g: Group
      ensures DrawFlush(d).hardware[g] == Now(g, d) && Now(g, DrawFlush(d)) == Now(g, d)
    {
      DrawnGroup(d, g);
    }
  }

  lemma DrawnFlag(d: Device)
    requires d.Valid() && Coherent(d)
    ensures FlagNow(DrawFlush(d)) == FlagNow(d) == DrawFlush(d).needsSpecular
    ensures DrawFlush(d).setup == d.setup && DIRECT_MODELVIEW !in DrawFlush(d).dirty
  {
    assert Bit(Combiners) in d.dirty ==> Bit(Combiners) in d.dirty - NOT_SET_STATE_FLAGS;
  }

  lemma DrawnGroup(d: Device, g: Group)
    requires d.Valid() && Coherent(d)
    ensures DrawFlush(d).hardware[g] == Now(g, d) && Now(g, DrawFlush(d)) == Now(g, d)
  {
    DrawnFlag(d);
    assert Bit(g) in d.dirty ==> Bit(g) in d.dirty - NOT_SET_STATE_FLAGS;
  }

  /** After a draw specular light is enabled where it is computed: by the lights, by the render state or by the
      combiners. */
  lemma DrawnRegister(d: Device)
    requires d.Valid() && Coherent(d)
    ensures DrawFlush(d).specularEnable == LightsSpecularEnable(d.setup, d.render, FlagNow(d))
    ensures DrawFlush(d).specularEnable <==>
      (d.setup.fixedFunction && d.render[102] != 0) || d.render[103] != 0 || FlagNow(d)
  {
    assert Bit(Lights) in d.dirty ==> Bit(Lights) in d.dirty - NOT_SET_STATE_FLAGS;
    assert Bit(Combiners) in d.dirty ==> Bit(Combiners) in d.dirty - NOT_SET_STATE_FLAGS;
  }

  /** Every call of a run meets its guard in the state it finds. */
  predicate GuardedRun(d: Device, pure: bool, ops: seq<Op>)
    requires d.Valid() && AllHandled(ops)
    decreases |ops|
  {
    ops == [] || (Guard(d, ops[0]) && GuardedRun(Step(d, pure, ops[0]), pure, ops[1..]))
  }

  /** Under the guards every draw finds what eager recomputation would have left. */
  lemma {:induction false} GuardedRunDraws(d: Device, pure: bool, ops: seq<Op>)
    requires d.Valid() && AllHandled(ops) && Coherent(d) && GuardedRun(d, pure, ops)
    ensures LazyDraws(d, pure, ops) == EagerDraws(d, pure, ops)
    ensures Coherent(Run(d, pure, ops))
    decreases |ops|
  {
    if ops != [] {
      var d' := Step(d, pure, ops[0]);
      StepKeepsCoherent(d, pure, ops[0]);
      if ops[0].Draw? {
        DrawCoherent(d);
        assert EagerHardware(d') == EagerHardware(d);
      }
      GuardedRunDraws(d', pure, ops[1..]);
    }
  }

  /** A setter call that breaks its guard leaves some clean group out of date. */
  lemma StaleGroup(d: Device, pure: bool, op: Op) returns (g: Group)
    requires d.Valid() && Handled(op) && Coherent(d) && !Guard(d, op)
    ensures
      var d' := Step(d, pure, op);
      !IsDirty(d'.dirty, g) && d'.hardware[g] != Now(g, d') && DIRECT_MODELVIEW !in d'.dirty
  {
    var d' := Step(d, pure, op);
    var flags: Flags;
    match op {
      case SetRender(inline, state, value) =>
        flags := RenderStepMarks(d, pure && inline, state, value);
      case SetTexture(inline, stage, state, value) =>
        flags := TextureSetterFlags(inline, stage, state, value);
        TextureStepMarks(d, inline, stage, state, value);
    }
    StepKeepsCoherent(d, pure, op);
    MarkCoherent(d, d', flags);
    g :| !StaysCurrent(g, d, d', flags);
  }

  lemma DrawNow(d: Device, g: Group)
    requires d.Valid()
    ensures EagerHardware(DrawFlush(d)).groups[g] == Now(g, d)
  {
    var d' := DrawFlush(d);
    assert FlagNow(d') == FlagNow(d) && d'.setup == d.setup && d'.render == d.render && d'.texture == d.texture;
  }

  lemma DrawLeavesClean(d: Device, g: Group)
    requires d.Valid() && !IsDirty(d.dirty, g)
    ensures DrawFlush(d).hardware[g] == d.hardware[g]
  {
  }

  /** A draw from a device with an out-of-date clean group shows it. */
  lemma StaleDraw(d: Device, pure: bool, g: Group)
    requires d.Valid() && !IsDirty(d.dirty, g) && d.hardware[g] != Now(g, d) && DIRECT_MODELVIEW !in d.dirty
    ensures LazyDraws(d, pure, [Draw]) != EagerDraws(d, pure, [Draw])
  {
    DrawLeavesClean(d, g);
    DrawNow(d, g);
    OneDraw(d, pure);
    assert LazyHardware(DrawFlush(d)).groups[g] != EagerHardware(DrawFlush(d)).groups[g];
  }

  lemma OneDraw(d: Device, pure: bool)
    requires d.Valid()
    ensures LazyDraws(d, pure, [Draw]) == [LazyHardware(DrawFlush(d))]
    ensures EagerDraws(d, pure, [Draw]) == [EagerHardware(DrawFlush(d))]
  {
    assert [Draw][1..] == [];
    assert [LazyHardware(DrawFlush(d))] + [] == [LazyHardware(DrawFlush(d))];
    assert [EagerHardware(DrawFlush(d))] + [] == [EagerHardware(DrawFlush(d))];
  }

  function ThenDraw(ops: seq<Op>, n: nat): (probe: seq<Op>)
    requires n <= |ops| && AllHandled(ops)
    ensures AllHandled(probe)
  {
    ops[..n] + [Draw]
  }

  /** A draws comparison after one more step reduces to the comparison from the next state. */
  lemma DrawsUnfold(d: Device, pure: bool, op: Op, rest: seq<Op>)
    requires d.Valid() && Handled(op) && AllHandled(rest) && AllHandled([op] + rest)
    ensures
      var d' := Step(d, pure, op);
      && LazyDraws(d, pure, [op] + rest) == (if op.Draw? then [LazyHardware(d')] else []) + LazyDraws(d', pure, rest)
      && EagerDraws(d, pure, [op] + rest) == (if op.Draw? then [EagerHardware(d')] else []) + EagerDraws(d', pure, rest)
  {
    assert ([op] + rest)[1..] == rest;
  }

  lemma SetterDraws(d: Device, pure: bool, op: Op, rest: seq<Op>)
    requires d.Valid() && Handled(op) && !op.Draw? && AllHandled(rest) && AllHandled([op] + rest)
    ensures LazyDraws(d, pure, [op] + rest) == LazyDraws(Step(d, pure, op), pure, rest)
    ensures EagerDraws(d, pure, [op] + rest) == EagerDraws(Step(d, pure, op), pure, rest)
  {
    assert ([op] + rest)[1..] == rest;
  }

  lemma UnguardedNow(d: Device, pure: bool, op: Op)
    requires d.Valid() && Handled(op) && Coherent(d) && !Guard(d, op)
    ensures LazyDraws(d, pure, [op] + [Draw]) != EagerDraws(d, pure, [op] + [Draw])
  {
    var g := StaleGroup(d, pure, op);
    SetterDraws(d, pure, op, [Draw]);
    StaleDraw(Step(d, pure, op), pure, g);
  }

  lemma UnguardedLater(d: Device, pure: bool, op: Op, probe: seq<Op>)
    requires d.Valid() && Handled(op) && AllHandled(probe) && Coherent(d) && Guard(d, op)
    requires LazyDraws(Step(d, pure, op), pure, probe) != EagerDraws(Step(d, pure, op), pure, probe)
    ensures LazyDraws(d, pure, [op] + probe) != EagerDraws(d, pure, [op] + probe)
  {
    var d' := Step(d, pure, op);
    DrawsUnfold(d, pure, op, probe);
    var head := if op.Draw? then [LazyHardware(d')] else [];
    if op.Draw? {
      DrawCoherent(d);
      assert EagerHardware(d') == EagerHardware(d);
    }
    SameFront(head, LazyDraws(d', pure, probe), EagerDraws(d', pure, probe));
  }

  lemma UnguardedFirst(d: Device, pure: bool, ops: seq<Op>)
    requires d.Valid() && AllHandled(ops) && Coherent(d) && ops != [] && !Guard(d, ops[0])
    ensures LazyDraws(d, pure, ThenDraw(ops, 1)) != EagerDraws(d, pure, ThenDraw(ops, 1))
  {
    assert ThenDraw(ops, 1) == [ops[0]] + [Draw];
    UnguardedNow(d, pure, ops[0]);
  }

  lemma UnguardedCut(d: Device, pure: bool, ops: seq<Op>, m: nat)
    requires d.Valid() && AllHandled(ops) && Coherent(d) && m < |ops| && Guard(d, ops[0])
    requires LazyDraws(Step(d, pure, ops[0]), pure, ThenDraw(ops[1..], m))
          != EagerDraws(Step(d, pure, ops[0]), pure, ThenDraw(ops[1..], m))
    ensures LazyDraws(d, pure, ThenDraw(ops, m + 1)) != EagerDraws(d, pure, ThenDraw(ops, m + 1))
  {
    CutUnfold(ops, m);
    UnguardedLater(d, pure, ops[0], ThenDraw(ops[1..], m));
  }

  lemma CutUnfold(ops: seq<Op>, m: nat)
    requires m < |ops| && AllHandled(ops)
    ensures ThenDraw(ops, m + 1) == [ops[0]] + ThenDraw(ops[1..], m)
  {
    assert ops[..m + 1] == [ops[0]] + ops[1..][..m];
  }

  /** The first call that breaks its guard is visible at a draw right after it. */
  lemma {:induction false} UnguardedIsVisible(d: Device, pure: bool, ops: seq<Op>) returns (n: nat)
    requires d.Valid() && AllHandled(ops) && Coherent(d) && !GuardedRun(d, pure, ops)
    ensures n <= |ops|
    ensures LazyDraws(d, pure, ThenDraw(ops, n)) != EagerDraws(d, pure, ThenDraw(ops, n))
    decreases |ops|
  {
    if !Guard(d, ops[0]) {
      n := 1;
      UnguardedFirst(d, pure, ops);
    } else {
      StepKeepsCoherent(d, pure, ops[0]);
      var m := UnguardedIsVisible(Step(d, pure, ops[0]), pure, ops[1..]);
      n := m + 1;
      UnguardedCut(d, pure, ops, m);
    }
  }

  /** A guarded run stays guarded when cut short and followed by a draw. */
  lemma {:induction false} GuardedPrefix(d: Device, pure: bool, ops: seq<Op>, n: nat)
    requires d.Valid() && AllHandled(ops) && n <= |ops| && GuardedRun(d, pure, ops)
    ensures GuardedRun(d, pure, ThenDraw(ops, n))
    decreases |ops|
  {
    if n == 0 {
      assert ThenDraw(ops, n) == [Draw];
      assert GuardedRun(Step(d, pure, Draw), pure, []);
    } else {
      assert ThenDraw(ops, n)[1..] == ThenDraw(ops[1..], n - 1);
      GuardedPrefix(Step(d, pure, ops[0]), pure, ops[1..], n - 1);
    }
  }

  /** Lazy recomputation is invisible at every draw of every cut of a run if and only if each call meets its guard. */
  lemma LazyEqualsEager(d: Device, pure: bool, ops: seq<Op>)
    requires d.Valid() && AllHandled(ops) && Coherent(d)
    ensures GuardedRun(d, pure, ops) <==>
      forall n: nat | n <= |ops| :: LazyDraws(d, pure, ThenDraw(ops, n)) == EagerDraws(d, pure, ThenDraw(ops, n))
  {
    if GuardedRun(d, pure, ops) {
      forall n: nat | n <= |ops|
        ensures LazyDraws(d, pure, ThenDraw(ops, n)) == EagerDraws(d, pure, ThenDraw(ops, n))
      {
        GuardedPrefix(d, pure, ops, n);
        GuardedRunDraws(d, pure, ThenDraw(ops, n));
      }
    } else {
      var n := UnguardedIsVisible(d, pure, ops);
    }
  }

  // What a broken guard does.

  /** A setter call that changes the combiners' need for specular light behind clean lights: at the next draw either
      the lights were not told to compute it, or the combiner routine has switched it off for the lights as well. */
  lemma SpecularFlip(d: Device, pure: bool, op: Op)
    requires d.Valid() && Coherent(d) && Handled(op) && !op.Draw?
    requires !IsDirty(Step(d, pure, op).dirty, Lights) && LightsUseFlag(d)
    requires FlagNow(Step(d, pure, op)) != FlagNow(d)
    ensures
      var d' := Step(d, pure, op);
      var lazy, eager := LazyHardware(DrawFlush(d')), EagerHardware(d');
      if FlagNow(d') then !lazy.groups[Lights].specular && eager.groups[Lights].specular
      else !lazy.specularEnable && eager.specularEnable
  {
    var d' := Step(d, pure, op);
    assert IsDirty(d'.dirty, Combiners) && d'.needsSpecular == FlagNow(d) && LightsUseFlag(d') by {
      match op {
        case SetRender(inline, state, value) =>
          var flags := RenderStepMarks(d, pure && inline, state, value);
        case SetTexture(inline, stage, state, value) =>
          TextureStepMarks(d, inline, stage, state, value);
          TextureFlags(inline, stage, state, value);
      }
    }
    assert d'.hardware[Lights] == Now(Lights, d);
    assert Bit(Combiners) in d'.dirty - NOT_SET_STATE_FLAGS;
  }

  /** Lighting on, the specular render state off, everything clean: when the first stage's argument becomes the
      specular colour, the next draw finds lights that compute none, with either setter. */
  lemma SpecularArgumentExample(d: Device, pure: bool, inline: bool)
    requires d.Valid() && Coherent(d) && d.dirty == {} && LightsUseFlag(d) && !d.setup.pixelShader
    requires d.render[RS_POINTSPRITEENABLE] == 0 && !NeedsSpecular(d.render, d.texture)
    requires d.texture[TextureIndex(0, TSS_COLOROP)] == TOP_SELECTARG1
    ensures
      var op := SetTexture(inline, 0, TSS_COLORARG1, TA_SPECULAR);
      var d' := Step(d, pure, op);
      && !Guard(d, op)
      && !LazyHardware(DrawFlush(d')).groups[Lights].specular && EagerHardware(d').groups[Lights].specular
  {
    var op := SetTexture(inline, 0, TSS_COLORARG1, TA_SPECULAR);
    var d' := Step(d, pure, op);
    assert HalfNeedsSpecular(d'.texture, 0, TSS_COLOROP);
    assert StagesNeedSpecular(d'.texture, 0);
    TextureFlags(inline, 0, TSS_COLORARG1, TA_SPECULAR);
    SpecularFlip(d, pure, op);
  }

  // Runs that never meet either gap.

  ghost predicate NoSpecularArguments(texture: seq<Dword>)
    requires |texture| == TSS_MAXSTAGES * TSS_MAX
  {
    forall stage: Stage, state: nat | IsArgument(state) :: !SelectsSpecular(texture[TextureIndex(stage, state)])
  }

  predicate IsArgument(state: nat) {
    TSS_COLOROP < state < TSS_RESULTARG && state != TSS_ALPHAOP
  }

  predicate NoBumpMapping(texture: seq<Dword>)
    requires |texture| == TSS_MAXSTAGES * TSS_MAX
  {
    forall stage: Stage :: texture[TextureIndex(stage, TSS_COLOROP)] < TOP_BUMPENVMAP
  }

  /** A call that selects neither bump mapping nor the specular colour. */
  predicate Plain(op: Op) {
    op.SetTexture? ==>
      && (op.state == TSS_COLOROP ==> op.value < TOP_BUMPENVMAP)
      && (IsArgument(op.state) ==> !SelectsSpecular(op.value))
  }

  lemma {:induction false} NoArgumentsNoNeed(texture: seq<Dword>, stage: nat)
    requires |texture| == TSS_MAXSTAGES * TSS_MAX && NoSpecularArguments(texture)
    ensures !StagesNeedSpecular(texture, stage)
    decreases TSS_MAXSTAGES - stage
  {
    if stage < TSS_MAXSTAGES {
      NoArgumentsNoNeed(texture, stage + 1);
      assert IsArgument(13) && IsArgument(14) && IsArgument(15) && IsArgument(17) && IsArgument(18) && IsArgument(19);
    }
  }

  lemma PlainStep(d: Device, pure: bool, op: Op)
    requires d.Valid() && Handled(op) && Plain(op) && NoBumpMapping(d.texture) && NoSpecularArguments(d.texture)
    ensures NoBumpMapping(Step(d, pure, op).texture) && NoSpecularArguments(Step(d, pure, op).texture)
  {
    if op.SetTexture? {
      var texture' := d.texture[TextureIndex(op.stage, op.state) := op.value];
      forall stage: Stage, state: nat | IsArgument(state)
        ensures !SelectsSpecular(texture'[TextureIndex(stage, state)])
      {
        assert TextureIndex(stage, state) == TextureIndex(op.stage, op.state) ==> state == op.state;
      }
    }
  }

  lemma PlainGuard(d: Device, pure: bool, op: Op)
    requires d.Valid() && Handled(op) && Plain(op) && NoBumpMapping(d.texture) && NoSpecularArguments(d.texture)
    ensures Guard(d, op)
  {
    var first := if d.render[RS_POINTSPRITEENABLE] != 0 then 3 else 0;
    NoArgumentsNoNeed(d.texture, 0);
    NoArgumentsNoNeed(d.texture, 3);
    if op.SetTexture? {
      PlainStep(d, pure, op);
      NoArgumentsNoNeed(Step(d, pure, op).texture, first);
    }
  }

  /** A title that selects neither bump mapping nor the specular colour never meets a gap, with either setter. */
  lemma {:induction false} PlainRunDraws(d: Device, pure: bool, ops: seq<Op>)
    requires d.Valid() && AllHandled(ops) && Coherent(d)
    requires NoBumpMapping(d.texture) && NoSpecularArguments(d.texture) && forall op <- ops :: Plain(op)
    ensures GuardedRun(d, pure, ops)
    ensures LazyDraws(d, pure, ops) == EagerDraws(d, pure, ops)
    decreases |ops|
  {
    if ops != [] {
      assert Plain(ops[0]);
      PlainGuard(d, pure, ops[0]);
      PlainStep(d, pure, ops[0]);
      StepKeepsCoherent(d, pure, ops[0]);
      PlainRunDraws(Step(d, pure, ops[0]), pure, ops[1..]);
    }
    GuardedRunDraws(d, pure, ops);
  }

  /** The two setters differ only on bump-mapping operations, where the inline one leaves two kinds of group unmarked. */
  lemma SettersDiffer(stage: Stage, state: nat, value: Dword)
    requires state < TSS_DEFERRED_MAX
    ensures
      var inline := TextureSetterFlags(true, stage, state, value);
      var called := TextureSetterFlags(false, stage, state, value);
      if state == TSS_COLOROP && value >= TOP_BUMPENVMAP
      then called == inline + SHADER_STAGE_PROGRAM + TEXTURE_STATE != inline
      else called == inline
  {
  }
}
