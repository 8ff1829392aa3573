/** The chroma layouts of a picture, and motion vectors. */
module Picture {
  datatype Layout = I400 | I420 | I422 | I444

  /** The samples of a plane for every 64 luma pixels: chroma is left out, halved both ways, halved in
      width, or kept. */
  function PlaneSamples(layout: Layout, pl: nat): nat {
    if pl == 0 then 64
    else
      match layout
      case I400 => 0
      case I420 => 16
      case I422 => 32
      case I444 => 64
  }

  /** A motion vector in eighths of a pixel, each part a signed 16-bit integer. */
  type int16 = x: int | -0x8000 <= x < 0x8000

  datatype Mv = Mv(y: int16, x: int16)
}
