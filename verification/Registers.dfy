/** The hardware registers of libs/libd3d8/se/nv32.h that the simple render states go to. */
module Registers {
  import opened Direct3DTypes
  import opened RenderTables
  import PushBuffer

  const ALPHA_TEST_ENABLE: nat := 0x300
  const BLEND_ENABLE: nat := 0x304
  const DITHER_ENABLE: nat := 0x310
  const POLY_OFFSET_POINT_ENABLE: nat := 0x330
  const POLY_OFFSET_LINE_ENABLE: nat := 0x334
  const POLY_OFFSET_FILL_ENABLE: nat := 0x338
  const ALPHA_FUNC: nat := 0x33C
  const ALPHA_REF: nat := 0x340
  const BLEND_FUNC_SFACTOR: nat := 0x344
  const BLEND_FUNC_DFACTOR: nat := 0x348
  const BLEND_COLOR: nat := 0x34C
  const BLEND_EQUATION: nat := 0x350
  const DEPTH_FUNC: nat := 0x354
  const COLOR_MASK: nat := 0x358
  const DEPTH_MASK: nat := 0x35C
  const STENCIL_MASK: nat := 0x360
  const STENCIL_FUNC: nat := 0x364
  const STENCIL_FUNC_REF: nat := 0x368
  const STENCIL_FUNC_MASK: nat := 0x36C
  const STENCIL_OP_ZFAIL: nat := 0x374
  const STENCIL_OP_ZPASS: nat := 0x378
  const SHADE_MODE: nat := 0x37C
  const POLYGON_OFFSET_SCALE_FACTOR: nat := 0x384
  const POLYGON_OFFSET_BIAS: nat := 0x388
  const SWATH_WIDTH: nat := 0x9F8
  const STIPPLE_CONTROL: nat := 0x147C
  const SHADER_CLIP_PLANE_MODE: nat := 0x17F8
  const ZMIN_MAX_CONTROL: nat := 0x1D78
  const COMBINER_CONTROL: nat := 0x1E60
  const DOT_RGBMAPPING: nat := 0x1E74
  const SHADER_OTHER_STAGE_INPUT: nat := 0x1E78

  // The registers of the eight combiner stages.

  function CombinerAlphaInputs(i: nat): nat { 0x260 + 4 * i }
  function SpecularFogInputs(i: nat): nat { 0x288 + 4 * i }
  function CombinerFactor0(i: nat): nat { 0xA60 + 4 * i }
  function CombinerFactor1(i: nat): nat { 0xA80 + 4 * i }
  function CombinerAlphaOutputs(i: nat): nat { 0xAA0 + 4 * i }
  function CombinerColorInputs(i: nat): nat { 0xAC0 + 4 * i }
  function SpecularFogFactor(i: nat): nat { 0x1E20 + 4 * i }
  function CombinerColorOutputs(i: nat): nat { 0x1E40 + 4 * i }

  /** The register of a simple state that is not a reserved one, by what d3d8types.h says the state is. */
  function RegisterOf(state: nat): nat
    requires state < 84 && state != 54
  {
    if state < 8 then CombinerAlphaInputs(state)            // D3DRS_PSALPHAINPUTS0..7
    else if state < 10 then SpecularFogInputs(state - 8)    // D3DRS_PSFINALCOMBINERINPUTSABCD, ..EFG
    else if state < 18 then CombinerFactor0(state - 10)     // D3DRS_PSCONSTANT0_0..7
    else if state < 26 then CombinerFactor1(state - 18)     // D3DRS_PSCONSTANT1_0..7
    else if state < 34 then CombinerAlphaOutputs(state - 26)
    else if state < 42 then CombinerColorInputs(state - 34)
    else if state == 42 then SHADER_CLIP_PLANE_MODE         // D3DRS_PSCOMPAREMODE
    else if state < 45 then SpecularFogFactor(state - 43)   // D3DRS_PSFINALCOMBINERCONSTANT0, 1
    else if state < 53 then CombinerColorOutputs(state - 45)
    else PlainRegisterOf(state)
  }

  /** The registers of single states. */
  function PlainRegisterOf(state: nat): nat
    requires 53 <= state < 84 && state != 54
  {
    match state
    case 53 => COMBINER_CONTROL                // D3DRS_PSCOMBINERCOUNT
    case 55 => DOT_RGBMAPPING                  // D3DRS_PSDOTMAPPING
    case 56 => SHADER_OTHER_STAGE_INPUT        // D3DRS_PSINPUTTEXTURE
    case 57 => DEPTH_FUNC                      // D3DRS_ZFUNC
    case 58 => ALPHA_FUNC                      // D3DRS_ALPHAFUNC
    case 59 => BLEND_ENABLE                    // D3DRS_ALPHABLENDENABLE
    case 60 => ALPHA_TEST_ENABLE               // D3DRS_ALPHATESTENABLE
    case 61 => ALPHA_REF                       // D3DRS_ALPHAREF
    case 62 => BLEND_FUNC_SFACTOR              // D3DRS_SRCBLEND
    case 63 => BLEND_FUNC_DFACTOR              // D3DRS_DESTBLEND
    case 64 => DEPTH_MASK                      // D3DRS_ZWRITEENABLE
    case 65 => DITHER_ENABLE                   // D3DRS_DITHERENABLE
    case 66 => SHADE_MODE                      // D3DRS_SHADEMODE
    case 67 => COLOR_MASK                      // D3DRS_COLORWRITEENABLE
    case 68 => STENCIL_OP_ZFAIL                // D3DRS_STENCILZFAIL
    case 69 => STENCIL_OP_ZPASS                // D3DRS_STENCILPASS
    case 70 => STENCIL_FUNC                    // D3DRS_STENCILFUNC
    case 71 => STENCIL_FUNC_REF                // D3DRS_STENCILREF
    case 72 => STENCIL_FUNC_MASK               // D3DRS_STENCILMASK
    case 73 => STENCIL_MASK                    // D3DRS_STENCILWRITEMASK
    case 74 => BLEND_EQUATION                  // D3DRS_BLENDOP
    case 75 => BLEND_COLOR                     // D3DRS_BLENDCOLOR
    case 76 => SWATH_WIDTH                     // D3DRS_SWATHWIDTH
    case 77 => POLYGON_OFFSET_SCALE_FACTOR     // D3DRS_POLYGONOFFSETZSLOPESCALE
    case 78 => POLYGON_OFFSET_BIAS             // D3DRS_POLYGONOFFSETZOFFSET
    case 79 => POLY_OFFSET_POINT_ENABLE        // D3DRS_POINTOFFSETENABLE
    case 80 => POLY_OFFSET_LINE_ENABLE         // D3DRS_WIREFRAMEOFFSETENABLE
    case 81 => POLY_OFFSET_FILL_ENABLE         // D3DRS_SOLIDOFFSETENABLE
    case 82 => ZMIN_MAX_CONTROL                // D3DRS_DEPTHCLIPCONTROL
    case 83 => STIPPLE_CONTROL                 // D3DRS_STIPPLEENABLE
  }

  /** Each entry of the simple-state table is the header of the command that writes the state's own register, and the
      reserved entries are those of state 54 and the states from 84 on. */
  lemma EntriesWriteRegisters(state: nat, value: Dword)
    requires state < RS_SIMPLE_MAX
    ensures IsReserved(state) <==> state == 54 || state >= 84
    ensures !IsReserved(state) ==>
      SimpleEncode(state) == PushBuffer.HeaderWord(PushBuffer.Packet(RegisterOf(state), false, [value]))
  {
    if state < 53 {
      IndexedEntries(state);
    } else {
      SingleEntries(state);
    }
  }

  lemma IndexedEntries(state: nat)
    requires state < 53
    ensures !IsReserved(state) && SimpleEncode(state) == 0x4_0000 + RegisterOf(state)
  {
  }

  lemma SingleEntries(state: nat)
    requires 53 <= state < RS_SIMPLE_MAX
    ensures IsReserved(state) <==> state == 54 || state >= 84
    ensures !IsReserved(state) ==> SimpleEncode(state) == 0x4_0000 + RegisterOf(state)
  {
  }
}
