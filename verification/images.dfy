/** In-memory images: a height x width grid of three-channel pixels stored row by row,
    the numpy reshape that turns a raw byte buffer into one, and the RGB -> BGR reordering. */
module Images {
  import opened Results
  import opened Failures
  import opened Values

  /** One pixel's three channel bytes, in the image's channel order. */
  datatype Pixel = Pixel(c0: byte, c1: byte, c2: byte)

  /** An array of shape (height, width, 3), its pixels in row-major order. */
  datatype Image = Image(height: nat, width: nat, pixels: seq<Pixel>)

  predicate WellFormed(img: Image) {
    |img.pixels| == img.height * img.width
  }

  /** Groups a buffer into consecutive three-byte pixels. */
  function PixelsOf(buf: Bytes): (px: seq<Pixel>)
    requires |buf| % 3 == 0
    ensures 3 * |px| == |buf|
    ensures forall k :: 0 <= k < |px| ==> px[k] == Pixel(buf[3 * k], buf[3 * k + 1], buf[3 * k + 2])
    decreases |buf|
  {
    if |buf| == 0 then []
    else [Pixel(buf[0], buf[1], buf[2])] + PixelsOf(buf[3..])
  }

  /** The bytes of the pixels, channel by channel: the array's memory layout. */
  function BufferOf(px: seq<Pixel>): (buf: Bytes)
    ensures |buf| == 3 * |px|
  {
    if |px| == 0 then []
    else [px[0].c0, px[0].c1, px[0].c2] + BufferOf(px[1..])
  }

  lemma {:induction false} BufferOfPixelsOf(buf: Bytes)
    requires |buf| % 3 == 0
    ensures BufferOf(PixelsOf(buf)) == buf
    decreases |buf|
  {
    if |buf| > 0 {
      BufferOfPixelsOf(buf[3..]);
      var px := PixelsOf(buf);
      assert px[1..] == PixelsOf(buf[3..]);
      assert buf == [buf[0], buf[1], buf[2]] + buf[3..];
    }
  }

  lemma {:induction false} PixelsOfBufferOf(px: seq<Pixel>)
    ensures PixelsOf(BufferOf(px)) == px
  {
    if |px| > 0 {
      PixelsOfBufferOf(px[1..]);
      var buf := BufferOf(px);
      assert buf[3..] == BufferOf(px[1..]);
      assert px == [px[0]] + px[1..];
    }
  }

  lemma MultipleOfThree(n: nat, d: int)
    requires d > 0 && n % (3 * d) == 0
    ensures n % 3 == 0 && n == (n / (3 * d)) * d * 3
  {
    var q := n / (3 * d);
    assert n == q * (3 * d);
    assert n == (q * d) * 3;
  }

  /** `np.frombuffer(buf, dtype=np.uint8).reshape(height, width, 3)`. A negative dimension
      is the one numpy infers from the buffer's length; two of them, a length that does not
      fit, or an inferred dimension next to a zero one raise ValueError. */
  function Reshape(buf: Bytes, height: int, width: int): (r: Result<Image, Error>)
    ensures r.Failure? ==> r.error == Raised(ValueError)
    ensures r.Success? ==> WellFormed(r.value) && BufferOf(r.value.pixels) == buf
    ensures height >= 0 && width >= 0 ==> (r.Success? <==> |buf| == height * width * 3)
    ensures r.Success? && height >= 0 ==> r.value.height == height
    ensures r.Success? && width >= 0 ==> r.value.width == width
    ensures height < 0 && width < 0 ==> r.Failure?
    ensures height < 0 && width >= 0 ==> (r.Success? <==> width > 0 && |buf| % (3 * width) == 0)
    ensures height >= 0 && width < 0 ==> (r.Success? <==> height > 0 && |buf| % (3 * height) == 0)
    ensures r.Success? && height < 0 ==> r.value.height == |buf| / (3 * width)
    ensures r.Success? && width < 0 ==> r.value.width == |buf| / (3 * height)
  {
    if height < 0 && width < 0 then Failure(Raised(ValueError))
    else if height < 0 then
      if width == 0 || |buf| % (3 * width) != 0 then Failure(Raised(ValueError))
      else
        MultipleOfThree(|buf|, width);
        BufferOfPixelsOf(buf);
        Success(Image(|buf| / (3 * width), width, PixelsOf(buf)))
    else if width < 0 then
      if height == 0 || |buf| % (3 * height) != 0 then Failure(Raised(ValueError))
      else
        MultipleOfThree(|buf|, height);
        BufferOfPixelsOf(buf);
        Success(Image(height, |buf| / (3 * height), PixelsOf(buf)))
    else if |buf| != height * width * 3 then Failure(Raised(ValueError))
    else
      assert |buf| == (height * width) * 3;
      BufferOfPixelsOf(buf);
      Success(Image(height, width, PixelsOf(buf)))
  }

  /** `cv2.cvtColor(img, cv2.COLOR_RGB2BGR)`: each pixel's first and third channels swap. */
  function SwapRedBlue(img: Image): (r: Image)
    ensures r.height == img.height && r.width == img.width && |r.pixels| == |img.pixels|
    ensures WellFormed(r) <==> WellFormed(img)
    ensures forall k :: 0 <= k < |r.pixels| ==>
      r.pixels[k] == Pixel(img.pixels[k].c2, img.pixels[k].c1, img.pixels[k].c0)
  {
    var px := img.pixels;
    Image(img.height, img.width, seq(|px|, k requires 0 <= k < |px| => Pixel(px[k].c2, px[k].c1, px[k].c0)))
  }

  /** Swapping twice restores the image: converting BGR back to RGB loses nothing. */
  lemma SwapRedBlueInvolution(img: Image)
    ensures SwapRedBlue(SwapRedBlue(img)) == img
  {
    var r := SwapRedBlue(SwapRedBlue(img));
    assert r.pixels == img.pixels;
  }
}
