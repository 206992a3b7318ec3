/**
 * Frames as the capture layer sees them. Pixel data is opaque: an image is
 * its width, its height and a symbolic description of where its pixels came
 * from, so that mirroring and grey conversion are visible without any claim
 * about pixel values.
 */
module Frames {

  /** Where an image's pixels come from. */
  datatype Pixels =
    | Blank                      // freshly allocated or released storage
    | Decoded(id: int)           // whatever a decoder or device delivered
    | Mirrored(source: Pixels)   // a horizontal flip of `source`
    | Grayscale(source: Pixels)  // a colour-to-grey conversion of `source`

  /** An OpenCV matrix: a width of 0 is the empty image. */
  datatype Image = Image(width: nat, height: nat, pixels: Pixels)

  /** The empty matrix that signals a failed or exhausted read. */
  const EmptyImage: Image := Image(0, 0, Blank)

  /** The in-place horizontal flip: same size, mirrored pixels. */
  function Flip(m: Image): Image
  {
    m.(pixels := Mirrored(m.pixels))
  }

  /** Colour-to-grey conversion: the destination takes the source's size. */
  function ToGray(m: Image): Image
  {
    m.(pixels := Grayscale(m.pixels))
  }

  /** The managed image wrapper: a reference object holding one matrix. */
  class RawImage {
    var mat: Image

    /** A new wrapper around an empty matrix. */
    constructor ()
      ensures mat == EmptyImage
    {
      mat := EmptyImage;
    }

    /** A new single-channel wrapper of the given size; its contents are unspecified. */
    constructor Sized(width: nat, height: nat)
      ensures mat == Image(width, height, Blank)
    {
      mat := Image(width, height, Blank);
    }

    function Width(): nat
      reads this
    {
      mat.width
    }
  }
}
