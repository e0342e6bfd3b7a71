/** The filters of the image processor with their parameters (image_processor/include/filter.h). */
module FilterTypes {

  datatype Filter =
    | Crop(width: int, height: int)
    | Grayscale
    | Negative
    | Sharpening
    | EdgeDetection(threshold: real)
    | GaussianBlur(sigma: real)
    | Tunnel(centerH: int, centerW: int, strength: real, radius: real)

  /** The conversion of an `int` to `int16_t`. */
  function Int16(x: int): (r: int)
    ensures -0x8000 <= r < 0x8000
    ensures -0x8000 <= x < 0x8000 ==> r == x
    ensures (x - r) % 0x1_0000 == 0
  {
    (x + 0x8000) % 0x1_0000 - 0x8000
  }

  /** The conversion of an `int` to `uint32_t`. */
  function Uint32(x: int): (r: int)
    ensures 0 <= r < 0x1_0000_0000
    ensures 0 <= x < 0x1_0000_0000 ==> r == x
    ensures (x - r) % 0x1_0000_0000 == 0
  {
    x % 0x1_0000_0000
  }
}
