/** Which arguments of a stage the combiner routine uses, by what the texture operations compute. */
module CombinerReads {
  import opened Direct3DTypes
  import opened DeferredState

  /** An argument's colour, of which one component is enough here, and its alpha. */
  datatype Argument = Argument(color: real, alpha: real)

  /**
   * What shared/include/d3d8types.h says that an operation makes of its arguments (numbered 0, 1 and 2), on one
   * component and before saturation. `blend` stands for whatever else the operation takes: an alpha to blend by, the
   * texture of the next stage, or the current colour that a bump-mapping or disabled stage passes on.
   */
  function Combined(op: Dword, args: seq<Argument>, blend: real): real
    requires |args| == 3 && 1 <= op <= 26
  {
    var x, y, z := args[0], args[1], args[2];
    match op
    case 2 => y.color
    case 3 => z.color
    case 4 => y.color * z.color
    case 5 => 2.0 * (y.color * z.color)
    case 6 => 4.0 * (y.color * z.color)
    case 7 => y.color + z.color
    case 8 => y.color + z.color - 0.5
    case 9 => 2.0 * (y.color + z.color - 0.5)
    case 10 => y.color - z.color
    case 11 => y.color + z.color - y.color * z.color
    case 16 => y.color + z.color * (1.0 - blend)
    case 17 => y.color * blend
    case 18 => y.color + y.alpha * z.color
    case 19 => y.color * z.color + y.alpha
    case 20 => (1.0 - y.alpha) * z.color + y.color
    case 21 => (1.0 - y.color) * z.color + y.alpha
    case 22 => y.color * z.color
    case 23 => x.color + y.color * z.color
    case 24 => x.color * y.color + (1.0 - x.color) * z.color
    case _ => if 12 <= op <= 15 then y.color * blend + z.color * (1.0 - blend) else blend
  }

  /** The operation depends on its i-th argument. */
  ghost predicate DependsOn(op: Dword, i: nat)
    requires i < 3 && 1 <= op <= 26
  {
    exists args: seq<Argument>, a: Argument, blend: real :: |args| == 3 && Differs(op, i, args, a, blend)
  }

  predicate Differs(op: Dword, i: nat, args: seq<Argument>, a: Argument, blend: real)
    requires i < 3 && 1 <= op <= 26 && |args| == 3
  {
    Combined(op, args[i := a], blend) != Combined(op, args, blend)
  }

  /** Arguments among which each one that an operation takes makes a difference. */
  function Sample(): (args: seq<Argument>)
    ensures |args| == 3
  {
    [Argument(0.5, 0.5), Argument(0.5, 0.5), Argument(0.25, 0.25)]
  }

  lemma SampleDiffers(op: Dword, i: nat)
    requires i < 3 && 1 <= op <= 26 && i in ArgumentsOf(op)
    ensures Combined(op, Sample()[i := Argument(1.0, 1.0)], 0.5) != Combined(op, Sample()[i := Argument(0.0, 0.0)], 0.5)
  {
  }

  lemma UnusedIsIgnored(op: Dword, i: nat, args: seq<Argument>, a: Argument, blend: real)
    requires i < 3 && 1 <= op <= 26 && i !in ArgumentsOf(op) && |args| == 3
    ensures Combined(op, args[i := a], blend) == Combined(op, args, blend)
  {
    var args' := args[i := a];
    if i == 0 {
      assert args'[1] == args[1] && args'[2] == args[2];
    } else if i == 1 {
      assert args'[0] == args[0] && args'[2] == args[2];
    } else {
      assert args'[0] == args[0] && args'[1] == args[1];
    }
  }

  /** The arguments that the combiner routine feeds for an operation are those the operation depends on. */
  lemma ArgumentsAreDependencies(op: Dword, i: nat)
    requires i < 3 && 1 <= op <= 26
    ensures i in ArgumentsOf(op) <==> DependsOn(op, i)
  {
    if i in ArgumentsOf(op) {
      SampleDiffers(op, i);
      var zero := Sample()[i := Argument(0.0, 0.0)];
      assert zero[i := Argument(1.0, 1.0)] == Sample()[i := Argument(1.0, 1.0)];
      assert Differs(op, i, zero, Argument(1.0, 1.0), 0.5);
    } else if DependsOn(op, i) {
      var args: seq<Argument>, a: Argument, blend: real :|
        |args| == 3 && Differs(op, i, args, a, blend);
      UnusedIsIgnored(op, i, args, a, blend);
    }
  }

  /** Texture stage states that hold legal operations. */
  ghost predicate LegalOperations(texture: seq<Dword>)
    requires |texture| == TSS_MAXSTAGES * TSS_MAX
  {
    forall stage: Stage :: 1 <= texture[TextureIndex(stage, 12)] <= 26 && 1 <= texture[TextureIndex(stage, 16)] <= 26
  }

  /** In one half of a stage, whose operation is at `opState`, the i-th argument selects the specular colour. */
  ghost predicate SpecularArgument(texture: seq<Dword>, stage: Stage, opState: nat, i: nat)
    requires |texture| == TSS_MAXSTAGES * TSS_MAX && LegalOperations(texture) && (opState == 12 || opState == 16) && i < 3
  {
    && DependsOn(texture[TextureIndex(stage, opState)], i)
    && texture[TextureIndex(stage, opState + 1 + i)] % 16 == 4
  }

  /** An argument that the colour operation depends on selects the specular colour; or one that the alpha operation
      does, unless the colour operation is a dot product, which fills the alpha too. */
  ghost predicate TakesSpecular(texture: seq<Dword>, stage: Stage)
    requires |texture| == TSS_MAXSTAGES * TSS_MAX && LegalOperations(texture)
  {
    || (exists i: nat :: i < 3 && SpecularArgument(texture, stage, 12, i))
    || (texture[TextureIndex(stage, 12)] != 22 && exists i: nat :: i < 3 && SpecularArgument(texture, stage, 16, i))
  }

  /** The stage is used: it and those before it, from the first on, are not disabled. */
  ghost predicate InUse(texture: seq<Dword>, first: nat, stage: Stage)
    requires |texture| == TSS_MAXSTAGES * TSS_MAX
  {
    first <= stage && forall s: Stage :: first <= s <= stage ==> texture[TextureIndex(s, 12)] != 1
  }

  lemma HalfTakes(texture: seq<Dword>, stage: Stage, opState: nat)
    requires |texture| == TSS_MAXSTAGES * TSS_MAX && LegalOperations(texture) && (opState == 12 || opState == 16)
    ensures HalfNeedsSpecular(texture, stage, opState) <==> exists i: nat :: i < 3 && SpecularArgument(texture, stage, opState, i)
  {
    var op := texture[TextureIndex(stage, opState)];
    ArgumentsAreDependencies(op, 0);
    ArgumentsAreDependencies(op, 1);
    ArgumentsAreDependencies(op, 2);
    assert SpecularArgument(texture, stage, opState, 0) <==>
      0 in ArgumentsOf(op) && SelectsSpecular(texture[TextureIndex(stage, opState + 1)]);
    assert SpecularArgument(texture, stage, opState, 1) <==>
      1 in ArgumentsOf(op) && SelectsSpecular(texture[TextureIndex(stage, opState + 2)]);
    assert SpecularArgument(texture, stage, opState, 2) <==>
      2 in ArgumentsOf(op) && SelectsSpecular(texture[TextureIndex(stage, opState + 3)]);
  }

  lemma StageTakes(texture: seq<Dword>, stage: Stage)
    requires |texture| == TSS_MAXSTAGES * TSS_MAX && LegalOperations(texture)
    ensures StageNeedsSpecular(texture, stage) <==> TakesSpecular(texture, stage)
  {
    HalfTakes(texture, stage, 12);
    HalfTakes(texture, stage, 16);
  }

  lemma {:induction false} StagesTake(texture: seq<Dword>, first: nat)
    requires |texture| == TSS_MAXSTAGES * TSS_MAX && LegalOperations(texture)
    ensures StagesNeedSpecular(texture, first) <==>
      exists stage: Stage :: InUse(texture, first, stage) && TakesSpecular(texture, stage)
    decreases TSS_MAXSTAGES - first
  {
    if first < TSS_MAXSTAGES {
      StageTakes(texture, first);
      StagesTake(texture, first + 1);
      var here: Stage := first;
      assert InUse(texture, first, here) <==> texture[TextureIndex(here, 12)] != 1;
      forall stage: Stage | stage != here
        ensures InUse(texture, first, stage) <==> texture[TextureIndex(here, 12)] != 1 && InUse(texture, first + 1, stage)
      {
      }
    }
  }

  /** The combiners need specular light if and only if a stage in use takes the specular colour; point sprites use the
      last stage only. */
  lemma NeedsSpecularIff(render: seq<Dword>, texture: seq<Dword>)
    requires |render| == RS_MAX && |texture| == TSS_MAXSTAGES * TSS_MAX && LegalOperations(texture)
    ensures NeedsSpecular(render, texture) <==>
      if render[118] == 0 then exists stage: Stage :: InUse(texture, 0, stage) && TakesSpecular(texture, stage)
      else InUse(texture, 3, 3) && TakesSpecular(texture, 3)
  {
    StagesTake(texture, if render[118] == 0 then 0 else 3);
  }
}
