/** The constant tables of shared/include/d3d8.h that steer the inline state setters. */
module RenderTables {
  import opened Direct3DTypes

  /** D3DSIMPLERENDERSTATEENCODE: the push-buffer command word of every simple render state. */
  function SimpleEncode(state: nat): Dword
    requires state < RS_SIMPLE_MAX
  {
    match state
    case 0 => 0x040260  case 1 => 0x040264  case 2 => 0x040268  case 3 => 0x04026c
    case 4 => 0x040270  case 5 => 0x040274  case 6 => 0x040278  case 7 => 0x04027c
    case 8 => 0x040288  case 9 => 0x04028c  case 10 => 0x040a60  case 11 => 0x040a64
    case 12 => 0x040a68  case 13 => 0x040a6c  case 14 => 0x040a70  case 15 => 0x040a74
    case 16 => 0x040a78  case 17 => 0x040a7c  case 18 => 0x040a80  case 19 => 0x040a84
    case 20 => 0x040a88  case 21 => 0x040a8c  case 22 => 0x040a90  case 23 => 0x040a94
    case 24 => 0x040a98  case 25 => 0x040a9c  case 26 => 0x040aa0  case 27 => 0x040aa4
    case 28 => 0x040aa8  case 29 => 0x040aac  case 30 => 0x040ab0  case 31 => 0x040ab4
    case 32 => 0x040ab8  case 33 => 0x040abc  case 34 => 0x040ac0  case 35 => 0x040ac4
    case 36 => 0x040ac8  case 37 => 0x040acc  case 38 => 0x040ad0  case 39 => 0x040ad4
    case 40 => 0x040ad8  case 41 => 0x040adc  case 42 => 0x0417f8  case 43 => 0x041e20
    case 44 => 0x041e24  case 45 => 0x041e40  case 46 => 0x041e44  case 47 => 0x041e48
    case 48 => 0x041e4c  case 49 => 0x041e50  case 50 => 0x041e54  case 51 => 0x041e58
    case 52 => 0x041e5c  case 53 => 0x041e60  case 54 => 0x041d90  case 55 => 0x041e74
    case 56 => 0x041e78  case 57 => 0x040354  case 58 => 0x04033c  case 59 => 0x040304
    case 60 => 0x040300  case 61 => 0x040340  case 62 => 0x040344  case 63 => 0x040348
    case 64 => 0x04035c  case 65 => 0x040310  case 66 => 0x04037c  case 67 => 0x040358
    case 68 => 0x040374  case 69 => 0x040378  case 70 => 0x040364  case 71 => 0x040368
    case 72 => 0x04036c  case 73 => 0x040360  case 74 => 0x040350  case 75 => 0x04034c
    case 76 => 0x0409f8  case 77 => 0x040384  case 78 => 0x040388  case 79 => 0x040330
    case 80 => 0x040334  case 81 => 0x040338  case 82 => 0x041d78  case 83 => 0x04147c
    case 84 => 0x041d90  case 85 => 0x041d90  case 86 => 0x041d90  case 87 => 0x041d90
    case 88 => 0x041d90  case 89 => 0x041d90  case 90 => 0x041d90  case 91 => 0x041d90
  }

  /** The command word that the nine reserved table entries share. */
  const RESERVED_COMMAND: Dword := 0x041d90

  predicate IsReserved(state: nat)
    requires state < RS_SIMPLE_MAX
  {
    SimpleEncode(state) == RESERVED_COMMAND
  }

  /** Outside the reserved entries no two simple states share a command word. */
  lemma SimpleEncodeInjective(s: nat, t: nat)
    requires s < RS_SIMPLE_MAX && t < RS_SIMPLE_MAX
    requires SimpleEncode(s) == SimpleEncode(t) && !IsReserved(s)
    ensures s == t
  {
    // The pixel-shader registers, and the others.
    if SimpleEncode(s) < 0x040400 {
    } else {
    }
  }

  /** A word of dirty flags, as the set of the bit numbers that are one in it. */
  type Flags = set<nat>

  const TEXTURE_STATE: Flags := {0, 1, 2, 3}
  const VERTEXFORMAT: Flags := {4, 5, 6}
  const POINTPARAMS: Flags := {8}
  const TRANSFORM: Flags := {9}
  const TEXTURE_TRANSFORM: Flags := {10}
  const COMBINERS: Flags := {11}
  const LIGHTS: Flags := {12}
  const SPECFOG_COMBINER: Flags := {13}
  const SHADER_STAGE_PROGRAM: Flags := {14}
  const DIRECT_INPUT: nat := 30
  const DIRECT_MODELVIEW: nat := 31

  /** The complement of SET_STATE_FLAGS: the flags that the draw-time flush leaves alone. */
  const NOT_SET_STATE_FLAGS: Flags := VERTEXFORMAT + {DIRECT_INPUT, DIRECT_MODELVIEW}

  /** D3DDIRTYFROMRENDERSTATE, indexed from the first deferred render state. */
  const DIRTY_FROM_RENDER_STATE: seq<Flags> := [
    SPECFOG_COMBINER, SPECFOG_COMBINER, SPECFOG_COMBINER, SPECFOG_COMBINER, SPECFOG_COMBINER, SPECFOG_COMBINER,
    TEXTURE_STATE, TEXTURE_STATE, TEXTURE_STATE, TEXTURE_STATE,
    LIGHTS + TRANSFORM, LIGHTS + SPECFOG_COMBINER, LIGHTS, LIGHTS,
    LIGHTS, LIGHTS, LIGHTS, LIGHTS, LIGHTS, LIGHTS, LIGHTS, LIGHTS, LIGHTS, LIGHTS,
    POINTPARAMS, POINTPARAMS, POINTPARAMS + COMBINERS, POINTPARAMS,
    POINTPARAMS, POINTPARAMS, POINTPARAMS, POINTPARAMS,
    {}, {}, {}, {}, {}, {}, {}, {}, {}, {}, {}, {}
  ]

  /** D3DDIRTYFROMTEXTURESTATE, indexed from the first texture stage state. */
  const DIRTY_FROM_TEXTURE_STATE: seq<Flags> := [
    TEXTURE_STATE, TEXTURE_STATE, TEXTURE_STATE, TEXTURE_STATE, TEXTURE_STATE, TEXTURE_STATE,
    TEXTURE_STATE, TEXTURE_STATE, TEXTURE_STATE, TEXTURE_STATE, TEXTURE_STATE, TEXTURE_STATE,
    COMBINERS, COMBINERS, COMBINERS, COMBINERS, COMBINERS, COMBINERS, COMBINERS, COMBINERS, COMBINERS,
    TEXTURE_TRANSFORM
  ]

  /** What one LazySet routine of the flush programs; the sampler routine works stage by stage. */
  datatype Group =
    | PointParams
    | ShaderStageProgram
    | Combiners
    | TextureStage(stage: Stage)
    | SpecFogCombiner
    | TextureTransform
    | Lights
    | Transform

  /** The bit that marks a group dirty. */
  function Bit(g: Group): nat {
    match g
    case PointParams => 8
    case ShaderStageProgram => 14
    case Combiners => 11
    case TextureStage(stage) => stage
    case SpecFogCombiner => 13
    case TextureTransform => 10
    case Lights => 12
    case Transform => 9
  }

  predicate IsDirty(flags: Flags, g: Group) {
    Bit(g) in flags
  }
}
