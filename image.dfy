/** Writing a colour into the bitmap. `set_pixel` takes three `unsigned char`
    channels, so each float channel is converted on the way in. The conversion
    truncates toward zero and is defined only for values whose truncation fits
    in a byte, that is for values in (-1, 256); both renderers clamp to
    [0, 255] first. Any other value (NaN among them) gives a pixel whose
    contents the language leaves unspecified. */
module Image {
  import opened Vectors

  datatype Pixel = Rgb(r: int, g: int, b: int) | Unspecified

  /** One channel in (-1, 256) converted to `unsigned char`: truncation toward
      zero, which is the floor for non-negative values and zero between -1 and 0. */
  function Channel(c: real): (b: int)
    requires ByteRange(c)
    ensures 0 <= b <= 255
    ensures c >= 0.0 ==> b as real <= c < b as real + 1.0
    ensures c < 0.0 ==> b == 0
  {
    if c < 0.0 then 0 else c.Floor
  }

  /** The channel values whose truncation toward zero fits in a byte. */
  predicate ByteRange(c: real) { -1.0 < c < 256.0 }

  /** `image.set_pixel(x, y, c.r, c.g, c.b)` for a float colour `c`. */
  function SetPixel(c: MaybeNaN): (p: Pixel)
    ensures p.Rgb? <==> c.Num? && ByteRange(c.v.x) && ByteRange(c.v.y) && ByteRange(c.v.z)
  {
    match c
    case NaN => Unspecified
    case Num(v) =>
      if ByteRange(v.x) && ByteRange(v.y) && ByteRange(v.z) then
        Rgb(Channel(v.x), Channel(v.y), Channel(v.z))
      else
        Unspecified
  }

  /** A colour clamped to [0, 255] is always written faithfully: each channel
      becomes the whole part of the clamped value. */
  lemma SetPixelClamped(v: Vec3)
    ensures SetPixel(Num(ClampVec(v, 0.0, 255.0))).Rgb?
    ensures var p := SetPixel(Num(ClampVec(v, 0.0, 255.0)));
      && p.r == Clamp(v.x, 0.0, 255.0).Floor
      && p.g == Clamp(v.y, 0.0, 255.0).Floor
      && p.b == Clamp(v.z, 0.0, 255.0).Floor
      && 0 <= p.r <= 255 && 0 <= p.g <= 255 && 0 <= p.b <= 255
  {
    ClampWithin(v.x, 0.0, 255.0);
    ClampWithin(v.y, 0.0, 255.0);
    ClampWithin(v.z, 0.0, 255.0);
  }

  /** Black is written as the bytes (0, 0, 0). */
  lemma SetPixelBlack()
    ensures SetPixel(Num(Zero)) == Rgb(0, 0, 0)
  {
    assert Zero.x == 0.0 && Zero.y == 0.0 && Zero.z == 0.0;
    assert ByteRange(0.0) && Channel(0.0) == 0;
  }
}
