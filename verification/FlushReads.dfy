/** The converse of what the dirty tables promise: which of the states that mark a group really show in it. */
module FlushReads {
  import opened Direct3DTypes
  import opened RenderTables
  import opened DeferredState
  import opened LazyEager

  /**
   * Whether giving a render state another value changes what a group is recomputed from, for the groups that the
   * state's table entry marks. The entries mark more than is read in these cases: a wrap state marks all samplers, and
   * shows in those whose stage uses its coordinates; the lighting states mark lights that may be off, and the local
   * viewer shows only where there is specular light; and a pixel shader leaves nothing to the combiners.
   */
  predicate RenderShows(g: Group, d: Device, state: nat, value: Dword, needs: bool)
    requires d.Valid() && RS_SIMPLE_MAX <= state < RS_DEFERRED_MAX
  {
    var was := d.render[state];
    match g
    case PointParams => value != was
    case SpecFogCombiner => value != was
    case Combiners => !d.setup.pixelShader && value != was
    case TextureStage(stage) => value != was && d.texture[TextureIndex(stage, TSS_TEXCOORDINDEX)] % 0x1_0000 == state - 98
    case Transform => d.setup.fixedFunction && value != was
    case Lights =>
      && d.setup.fixedFunction
      && (state == 102 || d.render[102] != 0)
      && (if state == 102 then (was == 0) != (value == 0)
          else if state == 103 then !needs && (was == 0) != (value == 0)
          else value != was && (state == 104 ==> d.render[103] != 0 || needs))
    case _ => false
  }

  ghost predicate RenderChanges(g: Group, d: Device, state: nat, value: Dword, needs: bool)
    requires d.Valid() && state < RS_DEFERRED_MAX
  {
    View(g, d.setup, d.render[state := value], d.texture, needs) != View(g, d.setup, d.render, d.texture, needs)
  }

  /** What is read of one entry, before and after. */
  lemma RenderEntryRead(g: Group, d: Device, state: nat, value: Dword, needs: bool)
    requires d.Valid() && RS_SIMPLE_MAX <= state < RS_DEFERRED_MAX && g != Lights
    ensures RenderChanges(g, d, state, value, needs) <==>
      ReadsRender(g, d.setup, false, false, d.texture, state) && value != d.render[state]
  {
    var v := View(g, d.setup, d.render, d.texture, needs);
    var v' := View(g, d.setup, d.render[state := value], d.texture, needs);
    assert v'.texture == v.texture;
    if ReadsRender(g, d.setup, false, false, d.texture, state) {
      assert v.render[state] == d.render[state] && v'.render[state] == value;
    }
    if value == d.render[state] || !ReadsRender(g, d.setup, false, false, d.texture, state) {
      assert v'.render == v.render;
    }
  }

  lemma LightsEntryRead(d: Device, state: nat, value: Dword, needs: bool)
    requires d.Valid() && 102 <= state <= 115
    ensures RenderChanges(Lights, d, state, value, needs) <==> RenderShows(Lights, d, state, value, needs)
  {
    var v := View(Lights, d.setup, d.render, d.texture, needs);
    var v' := View(Lights, d.setup, d.render[state := value], d.texture, needs);
    assert v'.texture == v.texture;
    if RenderShows(Lights, d, state, value, needs) {
      if state >= 104 {
        assert v.render[state] == d.render[state] && v'.render[state] == value;
      }
    } else {
      assert v'.render == v.render;
    }
  }

  /** The groups that the table marks for a deferred render state. */
  lemma MarkedByRenderState(g: Group, state: nat)
    requires RS_SIMPLE_MAX <= state < RS_DEFERRED_MAX
    ensures IsDirty(DIRTY_FROM_RENDER_STATE[state - RS_SIMPLE_MAX], g) <==>
      match g
      case PointParams => 116 <= state <= 123
      case SpecFogCombiner => 92 <= state <= 97 || state == 103
      case Combiners => state == 118
      case TextureStage(_) => 98 <= state <= 101
      case Transform => state == 102
      case Lights => 102 <= state <= 115
      case _ => false
  {
  }

  /** A render state shows in each group that its table entry marks, exactly as said. */
  lemma MarkedRenderStateShows(g: Group, d: Device, state: nat, value: Dword, needs: bool)
    requires d.Valid() && RS_SIMPLE_MAX <= state < RS_DEFERRED_MAX
    requires IsDirty(DIRTY_FROM_RENDER_STATE[state - RS_SIMPLE_MAX], g)
    ensures RenderChanges(g, d, state, value, needs) <==> RenderShows(g, d, state, value, needs)
  {
    MarkedByRenderState(g, state);
    if g == Lights {
      LightsEntryRead(d, state, value, needs);
    } else {
      RenderEntryRead(g, d, state, value, needs);
    }
  }

  /**
   * The same for texture stage states and the groups that a setter marks for them. The setter that is not inline marks
   * more than is read for bump-mapping operations: the samplers of other stages; its own, if its sign bits are those
   * of bump mapping already; and the shader program, where no next stage has a texture.
   */
  predicate TextureShows(g: Group, d: Device, stage: Stage, state: nat, value: Dword)
    requires d.Valid() && state < TSS_DEFERRED_MAX
  {
    var was := d.texture[TextureIndex(stage, state)];
    if state < 12 then
      value != was && (state == 10 ==> d.texture[TextureIndex(stage, 12)] < 25)
    else if g == Combiners then
      !d.setup.pixelShader && value != was
    else if g == ShaderStageProgram then
      && !d.setup.pixelShader && stage < 3 && stage + 1 in d.setup.textured
      && ((was == 25) != (value == 25) || (was == 26) != (value == 26))
    else if g == TextureTransform then
      d.setup.fixedFunction && value != was
    else
      g == TextureStage(stage) && was < 25 && d.texture[TextureIndex(stage, 10)] != 0xC000_0000
  }

  ghost predicate TextureChanges(g: Group, d: Device, stage: Stage, state: nat, value: Dword, needs: bool)
    requires d.Valid() && state < TSS_DEFERRED_MAX
  {
    View(g, d.setup, d.render, d.texture[TextureIndex(stage, state) := value], needs)
      != View(g, d.setup, d.render, d.texture, needs)
  }

  /** A group that reads a state where it stands, and nothing else through it. */
  lemma TextureEntryRead(g: Group, d: Device, stage: Stage, state: nat, value: Dword, needs: bool)
    requires d.Valid() && state < TSS_DEFERRED_MAX && (state == TSS_COLOROP ==> g == Combiners)
    ensures TextureChanges(g, d, stage, state, value, needs) <==>
      SeenTexture(g, d.setup, d.texture[TextureIndex(stage, state) := value], stage, state)
        != SeenTexture(g, d.setup, d.texture, stage, state)
  {
    var k := TextureIndex(stage, state);
    var texture := d.texture[k := value];
    var v, v' := View(g, d.setup, d.render, d.texture, needs), View(g, d.setup, d.render, texture, needs);
    SameReads(g, d, texture, needs);
    OthersUnseen(g, d, stage, state, value);
    assert k / TSS_MAX == stage && k % TSS_MAX == state;
    assert v'.texture[k] == v.texture[k] ==> v'.texture == v.texture;
  }

  lemma OthersUnseen(g: Group, d: Device, stage: Stage, state: nat, value: Dword)
    requires d.Valid() && state < TSS_DEFERRED_MAX && (state == TSS_COLOROP ==> g == Combiners)
    ensures
      var texture := d.texture[TextureIndex(stage, state) := value];
      forall k: nat | k < TSS_MAXSTAGES * TSS_MAX && k != TextureIndex(stage, state) ::
        SeenTexture(g, d.setup, texture, k / TSS_MAX, k % TSS_MAX)
          == SeenTexture(g, d.setup, d.texture, k / TSS_MAX, k % TSS_MAX)
  {
  }

  /** A texture stage state shows in each group that a setter marks for it, exactly as said. */
  lemma MarkedTextureStateShows(g: Group, d: Device, inline: bool, stage: Stage, state: nat, value: Dword, needs: bool)
    requires d.Valid() && state < TSS_DEFERRED_MAX
    requires IsDirty(TextureSetterFlags(inline, stage, state, value), g)
    ensures TextureChanges(g, d, stage, state, value, needs) <==> TextureShows(g, d, stage, state, value)
  {
    if state == TSS_COLOROP && g != Combiners {
      ColorOpFlags(inline, stage, value, g);
      ColorOpSeen(g, d, stage, value, needs);
    } else {
      TextureEntryRead(g, d, stage, state, value, needs);
    }
  }

  // At the next draw.

  /** From a current group, a marked render state changes what the next draw finds it computed from exactly if it
      shows. */
  lemma RenderStateDrawn(g: Group, d: Device, pure: bool, inline: bool, state: nat, value: Dword)
    requires d.Valid() && Coherent(d) && !IsDirty(d.dirty, g) && RS_SIMPLE_MAX <= state < RS_DEFERRED_MAX
    requires IsDirty(DIRTY_FROM_RENDER_STATE[state - RS_SIMPLE_MAX], g)
    ensures
      var d' := Step(d, pure, SetRender(inline, state, value));
      DrawFlush(d').hardware[g] != d.hardware[g] <==> RenderShows(g, d, state, value, FlagNow(d))
  {
    var d' := Step(d, pure, SetRender(inline, state, value));
    RenderFlags(state);
    MarkedByRenderState(g, state);
    if g == Lights {
      var flags := RenderStepMarks(d, pure && inline, state, value);
      assert FlushedFlag(d') == FlagNow(d);
    }
    FlagSeen(g, d.setup, d'.render, d'.texture, FlushedFlag(d'), FlagNow(d));
    RecomputedAtDraw(d', g);
    MarkedRenderStateShows(g, d, state, value, FlagNow(d));
  }

  lemma RecomputedAtDraw(d: Device, g: Group)
    requires d.Valid() && IsDirty(d.dirty, g) && DIRECT_MODELVIEW !in d.dirty
    ensures DrawFlush(d).hardware[g] == View(g, d.setup, d.render, d.texture, FlushedFlag(d))
  {
    assert Bit(g) in d.dirty - NOT_SET_STATE_FLAGS;
  }

  /** The same for a texture stage state. */
  lemma TextureStateDrawn(g: Group, d: Device, pure: bool, inline: bool, stage: Stage, state: nat, value: Dword)
    requires d.Valid() && Coherent(d) && !IsDirty(d.dirty, g) && state < TSS_DEFERRED_MAX
    requires IsDirty(TextureSetterFlags(inline, stage, state, value), g)
    ensures
      var d' := Step(d, pure, SetTexture(inline, stage, state, value));
      DrawFlush(d').hardware[g] != d.hardware[g] <==> TextureShows(g, d, stage, state, value)
  {
    var d' := Step(d, pure, SetTexture(inline, stage, state, value));
    TextureFlags(inline, stage, state, value);
    FlagSeen(g, d.setup, d'.render, d'.texture, FlushedFlag(d'), FlagNow(d));
    RecomputedAtDraw(d', g);
    MarkedTextureStateShows(g, d, inline, stage, state, value, FlagNow(d));
  }
}
