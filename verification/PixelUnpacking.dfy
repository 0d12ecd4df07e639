/** The loops that turn pixel data into four bytes a pixel. */
module PixelUnpacking {
  import opened Arithmetic
  import opened Bytes
  import opened DrawCalls
  import opened TightFormat

  /** The first `n` pixels of `px` stand in `dest`, each as red, green, blue and alpha 255. */
  ghost predicate Shows(dest: array<Byte>, px: seq<Color>, n: nat)
    requires n <= |px| && 4 * n <= dest.Length
    reads dest
  {
    forall k :: 0 <= k < n ==> ShowsAt(dest[..], px[k], k)
  }

  ghost predicate ShowsAt(bytes: seq<Byte>, c: Color, k: nat)
    requires 4 * k + 4 <= |bytes|
  {
    bytes[4 * k] == c.r && bytes[4 * k + 1] == c.g && bytes[4 * k + 2] == c.b && bytes[4 * k + 3] == 255
  }

  method PutPixel(dest: array<Byte>, k: nat, c: Color, ghost px: seq<Color>)
    requires k < |px| && 4 * k + 4 <= dest.Length && c == px[k] && Shows(dest, px, k)
    modifies dest
    ensures Shows(dest, px, k + 1)
  {
    var dp := k * 4;
    dest[dp] := c.r;
    dest[dp + 1] := c.g;
    dest[dp + 2] := c.b;
    dest[dp + 3] := 255;
    forall i | 0 <= i < k
      ensures ShowsAt(dest[..], px[i], i)
    {
      assert ShowsAt(old(dest[..]), px[i], i);
    }
  }

  /** What `blitImage` takes out of the buffer. */
  function PixelsOf(bytes: seq<Byte>, n: nat): (px: seq<Color>)
    requires 4 * n <= |bytes|
    ensures |px| == n
  {
    seq(n, k requires 0 <= k < n => Color(bytes[4 * k], bytes[4 * k + 1], bytes[4 * k + 2]))
  }

  lemma ShownIsTaken(dest: array<Byte>, px: seq<Color>)
    requires 4 * |px| <= dest.Length && Shows(dest, px, |px|)
    ensures PixelsOf(dest[..], |px|) == px
  {
    forall k | 0 <= k < |px|
      ensures PixelsOf(dest[..], |px|)[k] == px[k]
    {
      assert ShowsAt(dest[..], px[k], k);
    }
  }

  method CopyRect(n: nat, data: seq<Byte>) returns (rgbx: array<Byte>)
    requires |data| == 3 * n
    ensures fresh(rgbx) && rgbx.Length == 4 * n && Shows(rgbx, CopyPixels(data), n)
  {
    rgbx := new Byte[4 * n](_ => 0);
    var k := 0;
    while k < n
      modifies rgbx
      invariant 0 <= k <= n && Shows(rgbx, CopyPixels(data), k)
    {
      PutPixel(rgbx, k, Color(data[3 * k], data[3 * k + 1], data[3 * k + 2]), CopyPixels(data));
      k := k + 1;
    }
  }

  method PaletteRect(n: nat, data: seq<Byte>, palette: seq<Byte>, dest: array<Byte>)
    requires 4 * n <= dest.Length
    modifies dest
    ensures Shows(dest, PalettePixels(data, palette, n), n)
  {
    var j := 0;
    while j < n
      modifies dest
      invariant 0 <= j <= n && Shows(dest, PalettePixels(data, palette, n), j)
    {
      PutPixel(dest, j, if j < |data| then PaletteColor(palette, data[j]) else BLACK,
               PalettePixels(data, palette, n));
      j := j + 1;
    }
  }

  /**
   A one-bit image of any width and height: row by row, whole bytes first, then the bits of a
   last partial byte. All reads stay inside `data` and all writes in the first width*height*4
   bytes.
   */
  method MonoRect(width: nat, height: nat, data: seq<Byte>, palette: seq<Byte>, dest: array<Byte>)
    requires |data| == RowBytes(width) * height && 4 * (width * height) <= dest.Length
    modifies dest
    ensures Shows(dest, MonoPixels(data, palette, width, height), width * height)
  {
    ghost var px := MonoPixels(data, palette, width, height);
    var y := 0;
    assert 0 * width == 0;
    while y < height
      modifies dest
      invariant 0 <= y <= height && y * width <= width * height
      invariant Shows(dest, px, y * width)
    {
      MulLe(y + 1, height, width);
      assert (y + 1) * width == y * width + width;
      MonoRow(y, width, height, data, palette, dest);
      y := y + 1;
    }
  }

  method MonoRow(y: nat, width: nat, height: nat, data: seq<Byte>, palette: seq<Byte>, dest: array<Byte>)
    requires |data| == RowBytes(width) * height && 4 * (width * height) <= dest.Length
    requires y < height && y * width + width <= width * height
    requires Shows(dest, MonoPixels(data, palette, width, height), y * width)
    modifies dest
    ensures Shows(dest, MonoPixels(data, palette, width, height), y * width + width)
  {
    ghost var px := MonoPixels(data, palette, width, height);
    var w1 := width / 8;
    var x := 0;
    while x < w1
      modifies dest
      invariant 0 <= x <= w1
      invariant Shows(dest, px, y * width + x * 8)
    {
      MonoByte(x, y, 0, width, height, data, palette, dest);
      x := x + 1;
    }
    MonoByte(x, y, 8 - width % 8, width, height, data, palette, dest);
  }

  /** Bits 7 down to `low` of one byte, or none when `low` is 8. */
  method MonoByte(x: nat, y: nat, low: nat, width: nat, height: nat,
                  data: seq<Byte>, palette: seq<Byte>, dest: array<Byte>)
    requires |data| == RowBytes(width) * height && 4 * (width * height) <= dest.Length
    requires y < height && low <= 8 && x * 8 + 8 - low <= width && y * width + width <= width * height
    requires Shows(dest, MonoPixels(data, palette, width, height), y * width + x * 8)
    modifies dest
    ensures Shows(dest, MonoPixels(data, palette, width, height), y * width + x * 8 + 8 - low)
  {
    ghost var px := MonoPixels(data, palette, width, height);
    hide Bit, PaletteColor, MonoPixels, MonoPixel, Shows;
    var w := (width + 7) / 8;
    var from, to := y * w + x, y * width + x * 8;
    var b := 7;
    while b >= low
      modifies dest
      invariant low - 1 <= b <= 7
      invariant Shows(dest, px, to + 7 - b)
    {
      MonoPixelOf(data, palette, width, height, x, y, b);
      PutPixel(dest, to + 7 - b, PaletteColor(palette, if Bit(data[from], b) then 1 else 0), px);
      b := b - 1;
    }
  }

  lemma MonoPixelOf(data: seq<Byte>, palette: seq<Byte>, w: nat, h: nat, x: nat, y: nat, b: nat)
    requires |data| == RowBytes(w) * h && x * 8 + 7 - b < w && y < h && b < 8
    ensures 0 <= y * ((w + 7) / 8) + x < |data| && 0 <= y * w + x * 8 + 7 - b < w * h
    ensures MonoPixels(data, palette, w, h)[y * w + x * 8 + 7 - b]
         == PaletteColor(palette, if Bit(data[y * ((w + 7) / 8) + x], b) then 1 else 0)
  {
    hide Bit, PaletteColor, MonoPixels;
    MonoPixelAt(data, palette, w, h, x * 8 + 7 - b, y);
    assert (x * 8 + 7 - b) / 8 == x && (x * 8 + 7 - b) % 8 == 7 - b;
    assert y * w + (x * 8 + 7 - b) == y * w + x * 8 + 7 - b;
  }

  /**
   Pixel (x, y) of the unpacked image has the palette colour that bit 7 - x%8 of byte
   y*ceil(width/8) + x/8 selects.
   */
  lemma MonoPixelAt(data: seq<Byte>, palette: seq<Byte>, w: nat, h: nat, x: nat, y: nat)
    requires |data| == RowBytes(w) * h && x < w && y < h
    ensures 0 <= y * w + x < w * h && 0 <= y * ((w + 7) / 8) + x / 8 < |data|
    ensures MonoPixels(data, palette, w, h)[y * w + x]
         == PaletteColor(palette, if Bit(data[y * ((w + 7) / 8) + x / 8], 7 - x % 8) then 1 else 0)
  {
    hide Bit, PaletteColor;
    MonoIndexInRange(w, h, x, y);
    assert y * w + x < y * w + w == (y + 1) * w;
    MulLe(y + 1, h, w);
    var k := y * w + x;
    DivModUnique(k, w, y, x);
    assert MonoPixels(data, palette, w, h)[k] == MonoPixel(data, palette, w, h, k);
  }
}
