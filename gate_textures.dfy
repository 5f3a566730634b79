/** The gate texture pipeline run when the texture atlas is stitched. For
    one gate, layers with a colour mask get a texture of their own, cut out of
    the layer's base texture by colour; the base texture itself is redrawn
    with the masked colours cleared and everything else replaced by the
    underlay texture, resampled to size; the remaining textures are
    registered as they are.

    Pixels are 32-bit ARGB patterns (`JavaBase.u32`). Texture names are
    strings; the atlas becomes a `TextureMap` object recording the sprite
    entries set and the sprites registered. */
module GateTextures {
  import opened JavaBase

  // -------------------------------------------------------- pixel operations

  /** The mask layer's pixel operation: opaque white (-1) where the colour
      bits of the base pixel are the mask colour, transparent (0) elsewhere. */
  function MaskPixel(value: u32, color: int): (r: u32)
    ensures r == 0xFFFF_FFFF || r == 0
  {
    if Low24(value) == color then 0xFFFF_FFFF else 0
  }

  /** Exactly the pixels of the mask colour survive, whatever their alpha. */
  lemma MaskPixelSelects(value: u32, color: int)
    ensures MaskPixel(value, color) == 0xFFFF_FFFF <==> value % 0x100_0000 == color
    ensures MaskPixel(value, color) == 0 <==> value % 0x100_0000 != color
  {
  }

  /** `ix * uW / width` (and likewise for rows): a coordinate below n scaled
      to a size m stays below m. */
  lemma ScaleBelow(i: int, n: int, m: int)
    requires 0 <= i < n && m > 0
    ensures 0 <= i * m / n < m
  {
    MulLe(0, i, m);
    MulLt(i, n, m);
    QuotientBelow(i * m, n, m);
  }

  lemma NegativeFactor(a: int, n: int)
    requires n > 0 && a * n < 0
    ensures a < 0
  {
  }

  /** The underlay pixel sampled for pixel (ix, iy) of a width-by-height image:
      nearest neighbour, `iUy * uW + iUx`. */
  function UnderlayIndex(ix: int, iy: int, width: int, height: int, uW: int, uH: int): (iU: int)
    requires 0 <= ix < width && 0 <= iy < height && uW > 0 && uH > 0
    ensures 0 <= iU < uW * uH
  {
    ScaleBelow(ix, width, uW);
    ScaleBelow(iy, height, uH);
    RowBound(iy * uH / height, uW, uH);
    (iy * uH / height) * uW + ix * uW / width
  }


  // ------------------------------------------------------------ composite

  /** What the composite turns pixel `ip` of the original image `p` into:
      pixel (ip % width, ip / width) of a width-by-height grid. */
  function CompositeAt(p: seq<u32>, ip: int, width: int, masked: set<int>,
                       underlay: seq<u32>, uW: int, uH: int): u32
    requires width > 0 && 0 <= ip < (|p| / width) * width
    requires uW > 0 && uH > 0 && uW * uH <= |underlay|
  {
    GridIndex(ip, width, |p| / width);
    if Low24(p[ip]) in masked then 0
    else underlay[UnderlayIndex(ip % width, ip / width, width, |p| / width, uW, uH)]
  }

  /** The image after the first `n` pixels in row-major order have been
      composited; the rest are as in `p`. */
  function Composited(p: seq<u32>, n: int, width: int, masked: set<int>,
                      underlay: seq<u32>, uW: int, uH: int): (q: seq<u32>)
    requires width > 0 && 0 <= n <= (|p| / width) * width
    requires uW > 0 && uH > 0 && uW * uH <= |underlay|
    ensures |q| == |p|
  {
    seq(|p|, ip requires 0 <= ip < |p| =>
      if ip < n then CompositeAt(p, ip, width, masked, underlay, uW, uH) else p[ip])
  }

  /** Pixel `ip` of the visited block lies in row `ip / width` < height. */
  lemma GridIndex(ip: int, width: int, height: int)
    requires width > 0 && 0 <= ip < height * width
    ensures 0 <= ip / width < height && 0 <= ip % width < width
  {
    QuotientBelow(ip, width, height);
  }

  /** Row-major coordinates: `iy * width + ix` is pixel (ix, iy). */
  lemma RowMajor(ix: int, iy: int, width: int)
    requires 0 <= ix < width && 0 <= iy
    ensures (iy * width + ix) / width == iy && (iy * width + ix) % width == ix
  {
    var x := iy * width + ix;
    var q := x / width;
    var r := x % width;
    assert x == q * width + r;
    assert (q - iy - 1) * width == ix - r - width;
    NegativeFactor(q - iy - 1, width);
    assert (iy - q - 1) * width == r - ix - width;
    NegativeFactor(iy - q - 1, width);
  }

  /** One pixel's step of the composite loop. */
  lemma CompositedStep(p: seq<u32>, n: int, width: int, masked: set<int>,
                       underlay: seq<u32>, uW: int, uH: int)
    requires width > 0 && 0 <= n < (|p| / width) * width
    requires uW > 0 && uH > 0 && uW * uH <= |underlay|
    ensures Composited(p, n + 1, width, masked, underlay, uW, uH)
         == Composited(p, n, width, masked, underlay, uW, uH)[n := CompositeAt(p, n, width, masked, underlay, uW, uH)]
  {
  }

  /** The composite lambda of the gate's base texture, on the sprite's pixel
      array in place: each pixel of the first `height = length / width` rows
      whose colour bits are a masked colour is cleared, every other one takes
      the underlay pixel at the scaled position. */
  method CompositeBase(pixels: array<u32>, width: int, masked: set<int>,
                       underlay: seq<u32>, uW: int, uH: int)
    requires width > 0 && uW > 0 && uH > 0 && uW * uH <= |underlay|
    modifies pixels
    ensures pixels[..] == Composited(old(pixels[..]), (pixels.Length / width) * width,
                                     width, masked, underlay, uW, uH)
  {
    ghost var p := pixels[..];
    var height := pixels.Length / width;
    MulLe(0, height, width);
    var iy := 0;
    while iy < height
      invariant 0 <= iy <= height
      invariant 0 <= iy * width <= height * width
      invariant pixels[..] == Composited(p, iy * width, width, masked, underlay, uW, uH)
    {
      RowBound(iy, width, height);
      CompositeRow(pixels, p, width, height, iy, iy * width, masked, underlay, uW, uH);
      NextRow(iy, width);
      iy := iy + 1;
    }
  }

  /** Row `iy` of the composite loop. */
  method CompositeRow(pixels: array<u32>, ghost p: seq<u32>, width: int, height: int, iy: int,
                      rowStart: int, masked: set<int>, underlay: seq<u32>, uW: int, uH: int)
    requires width > 0 && uW > 0 && uH > 0 && uW * uH <= |underlay|
    requires |p| == pixels.Length && height == |p| / width && 0 <= iy < height
    requires rowStart == iy * width && 0 <= rowStart && rowStart + width <= height * width
    requires pixels[..] == Composited(p, rowStart, width, masked, underlay, uW, uH)
    modifies pixels
    ensures pixels[..] == Composited(p, rowStart + width, width, masked, underlay, uW, uH)
  {
    var ix := 0;
    while ix < width
      invariant 0 <= ix <= width
      invariant pixels[..] == Composited(p, rowStart + ix, width, masked, underlay, uW, uH)
    {
      CompositePixel(pixels, p, width, height, ix, iy, rowStart, masked, underlay, uW, uH);
      ix := ix + 1;
    }
  }

  lemma NextRow(iy: int, width: int)
    ensures iy * width + width == (iy + 1) * width
  {
  }

  /** Pixel (ix, iy) of the composite loop. */
  method CompositePixel(pixels: array<u32>, ghost p: seq<u32>, width: int, height: int, ix: int, iy: int,
                        rowStart: int, masked: set<int>, underlay: seq<u32>, uW: int, uH: int)
    requires width > 0 && uW > 0 && uH > 0 && uW * uH <= |underlay|
    requires |p| == pixels.Length && height == |p| / width && 0 <= iy < height && 0 <= ix < width
    requires rowStart == iy * width && rowStart + width <= height * width
    requires pixels[..] == Composited(p, rowStart + ix, width, masked, underlay, uW, uH)
    modifies pixels
    ensures pixels[..] == Composited(p, rowStart + ix + 1, width, masked, underlay, uW, uH)
  {
    var ip := rowStart + ix;
    var value := pixels[ip];
    RowMajor(ix, iy, width);
    CompositedStep(p, ip, width, masked, underlay, uW, uH);
    if Low24(value) in masked {
      pixels[ip] := 0;
    } else {
      var iUx := ix * uW / width;
      var iUy := iy * uH / height;
      var iU := iUy * uW + iUx;
      assert iU == UnderlayIndex(ix, iy, width, height, uW, uH);
      pixels[ip] := underlay[iU];
    }
  }

  /** The composite of a whole image: a visited pixel of a masked colour is
      cleared, any other visited pixel (ix, iy) is the underlay pixel at
      (ix * uW / width, iy * uH / height). */
  lemma {:induction false} CompositeVisited(p: seq<u32>, width: int, masked: set<int>,
                                            underlay: seq<u32>, uW: int, uH: int, ix: int, iy: int)
    requires width > 0 && uW > 0 && uH > 0 && uW * uH <= |underlay|
    requires 0 <= ix < width && 0 <= iy < |p| / width
    ensures iy * width + ix < |p|
    ensures var q := Composited(p, (|p| / width) * width, width, masked, underlay, uW, uH);
            var ip := iy * width + ix;
            (Low24(p[ip]) in masked ==> q[ip] == 0) &&
            (Low24(p[ip]) !in masked ==>
               q[ip] == underlay[UnderlayIndex(ix, iy, width, |p| / width, uW, uH)])
  {
    var height := |p| / width;
    RowBound(iy, width, height);
    RowMajor(ix, iy, width);
    DivBrackets(|p|, width);
  }

  /** The entries after the last full row are never visited. */
  lemma {:induction false} CompositeTrailing(p: seq<u32>, width: int, masked: set<int>,
                                             underlay: seq<u32>, uW: int, uH: int, ip: int)
    requires width > 0 && uW > 0 && uH > 0 && uW * uH <= |underlay|
    requires (|p| / width) * width <= ip < |p|
    ensures Composited(p, (|p| / width) * width, width, masked, underlay, uW, uH)[ip] == p[ip]
  {
  }

  /** An underlay of the texture's own size is copied pixel for pixel. */
  lemma {:induction false} UnderlayIndexSameSize(ix: int, iy: int, width: int, height: int)
    requires 0 <= ix < width && 0 <= iy < height
    ensures UnderlayIndex(ix, iy, width, height, width, height) == iy * width + ix
  {
    DivExact(ix, width);
    DivExact(iy, height);
    assert ix * width == width * ix;
    assert iy * height == height * iy;
  }

  /** The mask sprites and the composite split the base texture: a pixel
      that the mask sprite of some masked colour keeps is cleared in the
      composite, and a pixel no mask sprite keeps is replaced by the
      underlay. */
  lemma MaskSpritesComplementComposite(value: u32, masked: set<int>)
    ensures Low24(value) in masked <==> exists c :: c in masked && MaskPixel(value, c) == 0xFFFF_FFFF
  {
    if Low24(value) in masked {
      assert MaskPixel(value, Low24(value)) == 0xFFFF_FFFF;
    }
  }
}
