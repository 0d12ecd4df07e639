/** The cursor pseudo-rectangle (section 7.8.1 of RFC 6143): pixels and a bit mask, read into one picture. */
module CursorDecoding {
  import opened Arithmetic
  import opened Bytes
  import opened DrawCalls
  import TightEncoding
  import Tight = TightFormat

  /** Blue, green, red, and a byte that means nothing. */
  function Bgrx(colors: seq<Color>): (s: seq<Byte>)
    ensures |s| == 4 * |colors|
    ensures forall k :: 0 <= k < |colors| ==>
      s[4 * k] == colors[k].b && s[4 * k + 1] == colors[k].g && s[4 * k + 2] == colors[k].r
  {
    if colors == [] then []
    else var last := colors[|colors| - 1]; Bgrx(colors[..|colors| - 1]) + [last.b, last.g, last.r, 0]
  }

  /** Component `c` of pixel `k`, alpha being the last. */
  function Component(w: nat, h: nat, pixels: seq<Byte>, mask: seq<Byte>, k: nat, c: nat): Byte
    requires |pixels| == 4 * (w * h) && |mask| == Tight.RowBytes(w) * h && k < w * h && c < 4
  {
    RowInRange(w, h, k);
    if c < 3 then pixels[4 * k + 2 - c] else if Tight.MonoBit(mask, w, h, k % w, k / w) == 1 then 255 else 0
  }

  function Picture(w: nat, h: nat, pixels: seq<Byte>, mask: seq<Byte>): (rgba: seq<Byte>)
    requires |pixels| == 4 * (w * h) && |mask| == Tight.RowBytes(w) * h
    ensures |rgba| == 4 * (w * h)
  {
    seq(4 * (w * h), i requires 0 <= i < 4 * (w * h) => Component(w, h, pixels, mask, i / 4, i % 4))
  }

  /** Pixel `k` is in column `x` of row `y`. */
  lemma PixelOf(w: nat, h: nat, pixels: seq<Byte>, mask: seq<Byte>, x: nat, y: nat, k: nat)
    requires |pixels| == 4 * (w * h) && |mask| == Tight.RowBytes(w) * h && x < w && y < h && k == y * w + x < w * h
    ensures Picture(w, h, pixels, mask)[4 * k..4 * k + 4]
         == [pixels[4 * k + 2], pixels[4 * k + 1], pixels[4 * k],
             if Tight.MonoBit(mask, w, h, x, y) == 1 then 255 else 0]
  {
    hide Tight.MonoBit, Component, Tight.RowBytes;
    ComponentsOf(w, h, pixels, mask, x, y, k);
    var rgba := Picture(w, h, pixels, mask);
    FourTimes(k);
    assert rgba[4 * k] == Component(w, h, pixels, mask, k, 0) && rgba[4 * k + 1] == Component(w, h, pixels, mask, k, 1);
    assert rgba[4 * k + 2] == Component(w, h, pixels, mask, k, 2);
    assert rgba[4 * k + 3] == Component(w, h, pixels, mask, k, 3);
  }

  lemma ComponentsOf(w: nat, h: nat, pixels: seq<Byte>, mask: seq<Byte>, x: nat, y: nat, k: nat)
    requires |pixels| == 4 * (w * h) && |mask| == Tight.RowBytes(w) * h && x < w && y < h && k == y * w + x < w * h
    ensures Component(w, h, pixels, mask, k, 0) == pixels[4 * k + 2]
    ensures Component(w, h, pixels, mask, k, 1) == pixels[4 * k + 1]
    ensures Component(w, h, pixels, mask, k, 2) == pixels[4 * k]
    ensures Component(w, h, pixels, mask, k, 3) == if Tight.MonoBit(mask, w, h, x, y) == 1 then 255 else 0
  {
    hide Tight.MonoBit, Tight.RowBytes;
    DivModUnique(k, w, y, x);
  }

  lemma FourTimes(k: nat)
    ensures 4 * k / 4 == k && (4 * k + 1) / 4 == k && (4 * k + 2) / 4 == k && (4 * k + 3) / 4 == k
    ensures 4 * k % 4 == 0 && (4 * k + 1) % 4 == 1 && (4 * k + 2) % 4 == 2 && (4 * k + 3) % 4 == 3
  {
  }

  /** Every pixel of the picture has the colour it was sent with, and shows exactly if it was sent as solid. */
  lemma CursorReads(colors: seq<Color>, solid: seq<Byte>, w: nat, h: nat, k: nat)
    requires |colors| == |solid| == w * h && TightEncoding.Below(solid, 2) && k < w * h
    ensures var rgba := Picture(w, h, Bgrx(colors), TightEncoding.Pack(solid, w, h));
      rgba[4 * k..4 * k + 4] == [colors[k].r, colors[k].g, colors[k].b, if solid[k] == 1 then 255 else 0]
  {
    hide Tight.MonoBit, TightEncoding.Pack, Picture, Tight.RowBytes;
    RowAndColumn(w, h, k);
    TightEncoding.PackedPixel(solid, w, h, k % w, k / w);
    PixelOf(w, h, Bgrx(colors), TightEncoding.Pack(solid, w, h), k % w, k / w, k);
  }

  /** The conversion, pixel by pixel. */
  method Decode(w: nat, h: nat, pixels: seq<Byte>, mask: seq<Byte>) returns (rgba: array<Byte>)
    requires |pixels| == 4 * (w * h) && |mask| == Tight.RowBytes(w) * h
    ensures fresh(rgba) && rgba[..] == Picture(w, h, pixels, mask)
  {
    ghost var whole := Picture(w, h, pixels, mask);
    rgba := new Byte[w * h * 4](_ => 0);
    var y := 0;
    while y < h
      modifies rgba
      invariant 0 <= y <= h && 0 <= y * w <= w * h
      invariant rgba[..4 * (y * w)] == whole[..4 * (y * w)]
    {
      MulLe(y + 1, h, w);
      assert (y + 1) * w == y * w + w;
      DecodeRow(w, h, pixels, mask, y, rgba);
      y := y + 1;
    }
    assert rgba[..4 * (h * w)] == rgba[..] && whole[..4 * (h * w)] == whole;
  }

  method DecodeRow(w: nat, h: nat, pixels: seq<Byte>, mask: seq<Byte>, y: nat, rgba: array<Byte>)
    requires |pixels| == 4 * (w * h) && |mask| == Tight.RowBytes(w) * h && rgba.Length == 4 * (w * h)
    requires y < h && y * w + w <= w * h
    requires rgba[..4 * (y * w)] == Picture(w, h, pixels, mask)[..4 * (y * w)]
    modifies rgba
    ensures rgba[..4 * (y * w + w)] == Picture(w, h, pixels, mask)[..4 * (y * w + w)]
  {
    hide Picture, Bit, Tight.RowBytes;
    ghost var whole := Picture(w, h, pixels, mask);
    var pixIdx := 4 * (y * w);
    var x := 0;
    while x < w
      modifies rgba
      invariant 0 <= x <= w && pixIdx == 4 * (y * w + x)
      invariant rgba[..pixIdx] == whole[..pixIdx]
    {
      PixelAt(w, h, pixels, mask, x, y);
      var maskIdx := y * ((w + 7) / 8) + x / 8;
      var alpha := if Bit(mask[maskIdx], 7 - x % 8) then 255 else 0;
      PutPixel(rgba, pixIdx, pixels[pixIdx + 2], pixels[pixIdx + 1], pixels[pixIdx], alpha, whole);
      pixIdx := pixIdx + 4;
      x := x + 1;
    }
  }

  /** Where a pixel's mask bit is, and what the picture has for the pixel. */
  lemma PixelAt(w: nat, h: nat, pixels: seq<Byte>, mask: seq<Byte>, x: nat, y: nat)
    requires |pixels| == 4 * (w * h) && |mask| == Tight.RowBytes(w) * h
    requires x < w && y < h && y * w + x < w * h
    ensures 0 <= y * ((w + 7) / 8) + x / 8 < |mask|
    ensures var at := 4 * (y * w + x);
      Picture(w, h, pixels, mask)[at..at + 4]
      == [pixels[at + 2], pixels[at + 1], pixels[at],
          if Bit(mask[y * ((w + 7) / 8) + x / 8], 7 - x % 8) then 255 else 0]
  {
    hide Picture, Bit;
    Tight.MonoIndexInRange(w, h, x, y);
    PixelOf(w, h, pixels, mask, x, y, y * w + x);
  }

  method PutPixel(rgba: array<Byte>, at: nat, r: Byte, g: Byte, b: Byte, a: Byte, ghost whole: seq<Byte>)
    requires at + 4 <= rgba.Length == |whole| && rgba[..at] == whole[..at] && whole[at..at + 4] == [r, g, b, a]
    modifies rgba
    ensures rgba[..at + 4] == whole[..at + 4]
  {
    ghost var before := rgba[..at];
    rgba[at], rgba[at + 1], rgba[at + 2], rgba[at + 3] := r, g, b, a;
    assert rgba[..at] == before;
    assert rgba[at..at + 4] == [r, g, b, a];
    assert rgba[..at + 4] == rgba[..at] + rgba[at..at + 4];
    assert whole[..at + 4] == whole[..at] + whole[at..at + 4];
  }
}
