/** The output raster that the collage is composed on. Its size and
    background colour are fixed when it is allocated; each paste records
    the rectangle an image was copied to. Pixel content is not modelled. */
module Raster {
  import opened Common
  import opened Grid

  /** An opaque colour: red, green and blue channel values. */
  datatype Rgb = Rgb(r: int, g: int, b: int)

  /** The background of a new collage. */
  const White: Rgb := Rgb(255, 255, 255)

  class Canvas {
    const width: nat
    const height: nat
    const background: Rgb
    /** Every paste so far, in order. */
    var pastes: seq<Placement>

    /** A new canvas filled with `background`, nothing pasted yet. */
    constructor (width: nat, height: nat, background: Rgb)
      ensures this.width == width && this.height == height && this.background == background
      ensures pastes == []
    {
      this.width := width;
      this.height := height;
      this.background := background;
      pastes := [];
    }

    /** Copies an image of size `d` with its top-left corner at (x, y). */
    method Paste(d: Dim, x: int, y: int)
      modifies this
      ensures pastes == old(pastes) + [Placement(x, y, d.w, d.h)]
    {
      pastes := pastes + [Placement(x, y, d.w, d.h)];
    }
  }
}
