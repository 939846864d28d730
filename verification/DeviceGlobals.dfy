/** The setters and the draw-time flush as they run, on the shadow arrays and the dirty word. */
module DeviceGlobals {
  import opened Direct3DTypes
  import opened RenderTables
  import opened DeferredState

  class Globals {
    const pureDevice: bool
    const setup: Setup
    const renderState: array<Dword>
    const textureState: array<Dword>
    var dirtyFlags: Flags
    var commands: seq<Command>
    // What each group of registers was last computed from.
    var hardware: map<Group, Inputs>
    // STATE_COMBINERNEEDSSPECULAR, and the specular-enable register.
    var needsSpecular: bool
    var specularEnable: bool

    ghost predicate Valid()
      reads this, renderState, textureState
    {
      && renderState.Length == RS_MAX
      && textureState.Length == TSS_MAXSTAGES * TSS_MAX
      && renderState != textureState
      && Model().Valid()
    }

    ghost function Model(): Device
      reads this, renderState, textureState
    {
      Device(setup, renderState[..], textureState[..], dirtyFlags, hardware, needsSpecular, specularEnable, commands)
    }

    method SetRenderState(state: nat, value: Dword)
      requires Valid() && state < RS_DEFERRED_MAX
      modifies this, renderState
      ensures Valid()
      ensures Model() == old(DeferredState.SetRenderState(Model(), pureDevice, state, value))
    {
      if state < RS_SIMPLE_MAX {
        commands := commands + [Command(SimpleEncode(state), value)];
        if !pureDevice {
          renderState[state] := value;
        }
      } else {
        dirtyFlags := dirtyFlags + DIRTY_FROM_RENDER_STATE[state - RS_SIMPLE_MAX];
        renderState[state] := value;
      }
    }

    method SetRenderStateNotInline(state: nat, value: Dword)
      requires Valid() && state < RS_DEFERRED_MAX
      modifies this, renderState
      ensures Valid()
      ensures Model() == old(DeferredState.SetRenderState(Model(), false, state, value))
    {
      if state < RS_SIMPLE_MAX {
        commands := commands + [Command(SimpleEncode(state), value)];
        renderState[state] := value;
      } else {
        dirtyFlags := dirtyFlags + DIRTY_FROM_RENDER_STATE[state - RS_SIMPLE_MAX];
        renderState[state] := value;
      }
    }

    method SetTextureStageState(stage: Stage, state: nat, value: Dword)
      requires Valid() && state < TSS_DEFERRED_MAX
      modifies this, textureState
      ensures Valid()
      ensures Model() == old(DeferredState.SetTextureStageState(Model(), true, stage, state, value))
    {
      var flags := if state < TSS_DEFERRED_TEXTURE_STATE_MAX then {stage} else DIRTY_FROM_TEXTURE_STATE[state];
      MarkAndStore(stage, state, value, flags);
    }

    method SetTextureStageStateNotInline(stage: Stage, state: nat, value: Dword)
      requires Valid() && state < TSS_DEFERRED_MAX
      modifies this, textureState
      ensures Valid()
      ensures Model() == old(DeferredState.SetTextureStageState(Model(), false, stage, state, value))
    {
      var flags :=
        if state < TSS_DEFERRED_TEXTURE_STATE_MAX then {stage}
        else if state == TSS_COLOROP then
          if value < TOP_BUMPENVMAP then COMBINERS else COMBINERS + SHADER_STAGE_PROGRAM + TEXTURE_STATE
        else DIRTY_FROM_TEXTURE_STATE[state];
      MarkAndStore(stage, state, value, flags);
    }

    method MarkAndStore(stage: Stage, state: nat, value: Dword, flags: Flags)
      requires Valid() && state < TSS_DEFERRED_MAX
      modifies this, textureState
      ensures Valid()
      ensures Model() == old(DeferredState.MarkAndStore(Model(), flags, stage, state, value))
    {
      ghost var after := DeferredState.MarkAndStore(Model(), flags, stage, state, value);
      dirtyFlags := dirtyFlags + flags;
      textureState[TextureIndex(stage, state)] := value;
      assert Model() == after;
    }

    method GetRenderState(state: nat) returns (value: Dword)
      requires Valid() && state < RS_MAX
      ensures value == Model().render[state]
    {
      value := renderState[state];
    }

    /** SetState: recomputes the dirty groups in a fixed order, then clears their flags. */
    method SetState()
      requires Valid()
      modifies `hardware, `needsSpecular, `specularEnable, `dirtyFlags
      ensures Valid() && Model() == old(Flush(Model()))
    {
      ghost var before := Model();
      hardware, needsSpecular, specularEnable :=
        FlushGroups(setup, dirtyFlags, renderState[..], textureState[..], hardware, needsSpecular, specularEnable, before);
      dirtyFlags := dirtyFlags * NOT_SET_STATE_FLAGS;
      assert Model() == Flush(before);
    }

    /** What a draw does to deferred state before it renders. */
    method PrepareDraw()
      requires Valid()
      modifies `hardware, `needsSpecular, `specularEnable, `dirtyFlags
      ensures Valid() && Model() == old(DrawFlush(Model()))
    {
      if dirtyFlags - NOT_SET_STATE_FLAGS != {} {
        SetState();
      }
    }
  }

  /** The place of a group in the flush. */
  function Order(g: Group): nat {
    match g
    case PointParams => 0
    case ShaderStageProgram => 1
    case Combiners => 2
    case TextureStage(stage) => 3 + stage
    case SpecFogCombiner => 7
    case TextureTransform => 8
    case Lights => 9
    case Transform => 10
  }

  /** The group at a place of the flush. */
  function GroupAt(n: nat): (g: Group)
    requires n < 11
    ensures Order(g) == n
  {
    if n < 3 then [PointParams, ShaderStageProgram, Combiners][n]
    else if n < 7 then TextureStage(n - 3)
    else [SpecFogCombiner, TextureTransform, Lights, Transform][n - 7]
  }

  /** The hardware after the first n groups of the flush. */
  ghost function Partial(before: Device, n: nat): map<Group, Inputs>
    requires before.Valid() && n <= 11
  {
    if n == 0 then before.hardware else LazySet(before, GroupAt(n - 1), Partial(before, n - 1))
  }

  /** One LazySet routine, called only when its group is due. */
  ghost function LazySet(before: Device, g: Group, hardware: map<Group, Inputs>): map<Group, Inputs>
    requires before.Valid()
  {
    if Recomputed(before.dirty, g) then hardware[g := Target(before, g)] else hardware
  }

  /** What the flush computes a group from. */
  ghost function Target(before: Device, g: Group): Inputs
    requires before.Valid()
  {
    View(g, before.setup, before.render, before.texture, FlushedFlag(before))
  }

  /** The shadows that the routines read, and the flag as it is when they run. */
  datatype Reading = Reading(setup: Setup, render: seq<Dword>, texture: seq<Dword>, needs: bool)

  /** Only the lights need the flag to be the one behind the combiners. */
  ghost predicate Reads(r: Reading, before: Device, g: Group)
    requires before.Valid()
  {
    && r.setup == before.setup && r.render == before.render && r.texture == before.texture
    && (g == Lights ==> r.needs == FlushedFlag(before))
  }

  /** The routine of one group: recomputes it if its flag asks for it. */
  method Recompute(g: Group, due: bool, r: Reading, hardware: map<Group, Inputs>, ghost before: Device)
    returns (after: map<Group, Inputs>)
    requires before.Valid() && Reads(r, before, g) && due == Recomputed(before.dirty, g)
    ensures after == LazySet(before, g, hardware)
  {
    after := hardware;
    if due {
      FlagSeen(g, r.setup, r.render, r.texture, r.needs, FlushedFlag(before));
      after := after[g := View(g, r.setup, r.render, r.texture, r.needs)];
    }
  }

  /** The stage loop of the combiner routine, as far as the flag goes. */
  method ScanStages(render: seq<Dword>, texture: seq<Dword>) returns (needs: bool)
    requires |render| == RS_MAX && |texture| == TSS_MAXSTAGES * TSS_MAX
    ensures needs == NeedsSpecular(render, texture)
  {
    needs := false;
    var stage: nat := if render[RS_POINTSPRITEENABLE] != 0 then 3 else 0;
    var more := texture[TextureIndex(stage, TSS_COLOROP)] != TOP_DISABLE;
    while more
      invariant more ==> stage < TSS_MAXSTAGES && texture[TextureIndex(stage, TSS_COLOROP)] != TOP_DISABLE
      invariant NeedsSpecular(render, texture) == (needs || (more && StagesNeedSpecular(texture, stage)))
      decreases TSS_MAXSTAGES - stage
    {
      if StageNeedsSpecular(texture, stage) {
        needs := true;
      }
      stage := stage + 1;
      more := stage < TSS_MAXSTAGES && texture[TextureIndex(stage, TSS_COLOROP)] != TOP_DISABLE;
    }
  }

  /** LazySetCombiners, as far as the flag and the shared register go; a pixel shader makes it return at once. */
  method LazySetCombiners(due: bool, r: Reading, specular: bool, ghost before: Device)
    returns (needs: bool, specularEnable: bool)
    requires before.Valid() && Reads(r, before, Combiners) && due == IsDirty(before.dirty, Combiners)
    requires r.needs == before.needsSpecular && specular == before.specularEnable
    ensures needs == FlushedFlag(before) && specularEnable == AfterCombiners(before)
  {
    needs, specularEnable := r.needs, specular;
    if due && !r.setup.pixelShader {
      needs := ScanStages(r.render, r.texture);
      if needs != r.needs && r.render[RS_SPECULARENABLE] == 0 {
        specularEnable := needs;
      }
    }
  }

  /** LazySetTextureState: every stage whose own bit is up. */
  method LazySetTextureState(flags: Flags, r: Reading, hardware: map<Group, Inputs>, ghost before: Device)
    returns (after: map<Group, Inputs>)
    requires before.Valid() && Reads(r, before, TextureStage(0)) && flags == before.dirty
    requires hardware == Partial(before, 3)
    ensures after == Partial(before, 7)
  {
    after := hardware;
    for stage: int := 0 to TSS_MAXSTAGES
      invariant after == Partial(before, 3 + stage)
    {
      after := Recompute(TextureStage(stage), stage in flags, r, after, before);
    }
  }

  /** The first four of the eight conditional calls of the flush. */
  method FlushPixels(flags: Flags, r: Reading, hardware: map<Group, Inputs>, specular: bool, ghost before: Device)
    returns (after: map<Group, Inputs>, needs: bool, specular': bool)
    requires before.Valid() && before.hardware == hardware && flags == before.dirty
    requires Reads(r, before, PointParams) && r.needs == before.needsSpecular && specular == before.specularEnable
    ensures after == Partial(before, 7) && needs == FlushedFlag(before) && specular' == AfterCombiners(before)
  {
    after := Recompute(PointParams, IsDirty(flags, PointParams), r, hardware, before);
    after := Recompute(ShaderStageProgram, IsDirty(flags, ShaderStageProgram), r, after, before);
    needs, specular' := LazySetCombiners(IsDirty(flags, Combiners), r, specular, before);
    after := Recompute(Combiners, IsDirty(flags, Combiners), r, after, before);
    PartialThree(before);
    if flags * TEXTURE_STATE != {} {
      after := LazySetTextureState(flags, r, after, before);
    } else {
      NoSamplerDue(before);
    }
  }

  /** The other four; the lights see the flag that the combiners left, and set the shared register last. */
  method FlushVertices(flags: Flags, r: Reading, hardware: map<Group, Inputs>, specular: bool, ghost before: Device)
    returns (after: map<Group, Inputs>, specular': bool)
    requires before.Valid() && hardware == Partial(before, 7) && flags == before.dirty
    requires Reads(r, before, Lights) && specular == AfterCombiners(before)
    ensures after == Partial(before, 11) && specular' == Flush(before).specularEnable
  {
    after := Recompute(SpecFogCombiner, IsDirty(flags, SpecFogCombiner), r, hardware, before);
    after := Recompute(TextureTransform, IsDirty(flags, TextureTransform), r, after, before);
    after := Recompute(Lights, IsDirty(flags, Lights), r, after, before);
    specular' := if IsDirty(flags, Lights) then LightsSpecularEnable(r.setup, r.render, r.needs) else specular;
    after := Recompute(Transform, Recomputed(flags, Transform), r, after, before);
    PartialEleven(before);
  }

  /** The eight conditional calls, in order. */
  method FlushGroups(setup: Setup, flags: Flags, render: seq<Dword>, texture: seq<Dword>, hardware: map<Group, Inputs>,
      needs: bool, specular: bool, ghost before: Device)
    returns (after: map<Group, Inputs>, needs': bool, specular': bool)
    requires before.Valid() && before.hardware == hardware && setup == before.setup
    requires render == before.render && texture == before.texture && flags == before.dirty
    requires needs == before.needsSpecular && specular == before.specularEnable
    ensures
      var flushed := Flush(before);
      after == flushed.hardware && needs' == flushed.needsSpecular && specular' == flushed.specularEnable
  {
    var r := Reading(setup, render, texture, needs);
    after, needs', specular' := FlushPixels(flags, r, hardware, specular, before);
    after, specular' := FlushVertices(flags, r.(needs := needs'), after, specular', before);
    PartialEnds(before);
  }

  lemma PartialThree(before: Device)
    requires before.Valid()
    ensures Partial(before, 3) ==
      LazySet(before, Combiners, LazySet(before, ShaderStageProgram, LazySet(before, PointParams, before.hardware)))
  {
    assert Partial(before, 1) == LazySet(before, PointParams, before.hardware);
    assert Partial(before, 2) == LazySet(before, ShaderStageProgram, Partial(before, 1));
  }

  lemma PartialEleven(before: Device)
    requires before.Valid()
    ensures Partial(before, 11) ==
      LazySet(before, Transform, LazySet(before, Lights,
        LazySet(before, TextureTransform, LazySet(before, SpecFogCombiner, Partial(before, 7)))))
  {
    assert Partial(before, 8) == LazySet(before, SpecFogCombiner, Partial(before, 7));
    assert Partial(before, 9) == LazySet(before, TextureTransform, Partial(before, 8));
    assert Partial(before, 10) == LazySet(before, Lights, Partial(before, 9));
  }

  /** Group by group, the flush ends where recomputing every due group at once does. */
  lemma {:induction false} PartialIsFlush(before: Device, n: nat)
    requires before.Valid() && n <= 11
    ensures Partial(before, n).Keys == before.hardware.Keys
    ensures forall g: Group :: g in Partial(before, n) && Partial(before, n)[g] == Expected(before, n, g)
  {
    if n > 0 {
      PartialIsFlush(before, n - 1);
      var last := GroupAt(n - 1);
      assert last in before.hardware.Keys;
      forall g: Group
        ensures g in Partial(before, n) && Partial(before, n)[g] == Expected(before, n, g)
      {
        OrderInjective(g, last);
        assert g in Partial(before, n - 1);
      }
    }
  }

  lemma PartialEnds(before: Device)
    requires before.Valid()
    ensures Partial(before, 11) == Flush(before).hardware
  {
    PartialIsFlush(before, 11);
    assert forall g: Group :: Order(g) < 11 by {
      forall g: Group
        ensures Order(g) < 11
      {
        OrderInjective(g, g);
      }
    }
    assert forall g: Group :: g in Partial(before, 11) && Partial(before, 11)[g] == Flush(before).hardware[g];
  }

  lemma OrderInjective(g: Group, h: Group)
    ensures Order(g) == Order(h) <==> g == h
    ensures Order(g) < 11
  {
  }

  ghost function Expected(before: Device, n: nat, g: Group): Inputs
    requires before.Valid()
  {
    if Order(g) < n && Recomputed(before.dirty, g) then Target(before, g) else before.hardware[g]
  }

  /** With all four sampler bits down the sampler routine has nothing to do. */
  lemma NoSamplerDue(before: Device)
    requires before.Valid() && before.dirty * TEXTURE_STATE == {}
    ensures Partial(before, 3) == Partial(before, 7)
  {
    forall stage: Stage
      ensures stage !in before.dirty
    {
      assert stage in before.dirty ==> stage in before.dirty * TEXTURE_STATE;
    }
    assert Partial(before, 4) == Partial(before, 3);
    assert Partial(before, 5) == Partial(before, 4);
    assert Partial(before, 6) == Partial(before, 5);
  }
}
