/** The state numbering of shared/include/d3d8types.h that the setters and the state blocks dispatch on. */
module Direct3DTypes {

  const DWORD_RANGE := 0x1_0000_0000

  /** A Windows DWORD, held as the number it denotes. */
  type Dword = x: int | 0 <= x < DWORD_RANGE

  // D3DRENDERSTATETYPE: simple states, then deferred states, then states with immediate processing.
  const RS_SIMPLE_MAX: nat := 92
  const RS_WRAP0: nat := 98
  const RS_LIGHTING: nat := 102
  const RS_SPECULARENABLE: nat := 103
  const RS_LOCALVIEWER: nat := 104
  const RS_POINTSPRITEENABLE: nat := 118
  const RS_DEFERRED_MAX: nat := 136
  const RS_MAX: nat := 166

  // D3DTEXTURESTAGESTATETYPE: sampler states, then combiner and transform states, then immediate ones.
  const TSS_COLORSIGN: nat := 10
  const TSS_DEFERRED_TEXTURE_STATE_MAX: nat := 12
  const TSS_COLOROP: nat := 12
  const TSS_COLORARG1: nat := 14
  const TSS_ALPHAOP: nat := 16
  const TSS_RESULTARG: nat := 20
  const TSS_TEXTURETRANSFORMFLAGS: nat := 21
  const TSS_DEFERRED_MAX: nat := 22
  const TSS_TEXCOORDINDEX: nat := 28
  const TSS_MAX: nat := 32
  const TSS_MAXSTAGES: nat := 4

  // D3DTEXTUREOP: the operations from modulation to the dot product take two arguments, but for one; the two
  // bump-mapping operations close the list.
  const TOP_DISABLE: Dword := 1
  const TOP_SELECTARG1: Dword := 2
  const TOP_SELECTARG2: Dword := 3
  const TOP_MODULATE: Dword := 4
  const TOP_PREMODULATE: Dword := 17
  const TOP_DOTPRODUCT3: Dword := 22
  const TOP_MULTIPLYADD: Dword := 23
  const TOP_LERP: Dword := 24
  const TOP_BUMPENVMAP: Dword := 25
  const TOP_BUMPENVMAPLUMINANCE: Dword := 26

  // D3DTA_*: what an argument selects, in its low four bits.
  const TA_DIFFUSE: Dword := 0
  const TA_SPECULAR: Dword := 4

  // D3DTSIGN_GSIGNED | D3DTSIGN_BSIGNED
  const TSIGN_BUMP: Dword := 0xC000_0000

  type Stage = s: nat | s < TSS_MAXSTAGES

  /** The shadow of the texture stage states is one row of TSS_MAX entries per stage. */
  function TextureIndex(stage: Stage, state: nat): nat
    requires state < TSS_MAX
  {
    stage * TSS_MAX + state
  }
}
