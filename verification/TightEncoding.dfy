/**
 What a Tight rectangle means and how a server writes it, independently of how it is decoded:
 pixels are colours here, not bytes, and nothing is resumable.
 */
module TightEncoding {
  import opened Arithmetic
  import opened Bytes
  import opened DrawCalls
  import opened Resumable
  import opened TightFormat

  /** How pixel bytes travel: under twelve of them as they are, others as zlib output. */
  datatype Body = Plain | Deflated(input: seq<Byte>)

  datatype Rect =
    | Solid(color: Color)
    | Picture(mime: ImageType, file: seq<Byte>)
      /** `named`: the copy filter is spelled out rather than implied. */
    | TrueColor(stream: nat, named: bool, pixels: seq<Color>, body: Body)
      /** `indices` run in row order into `colors`. */
    | Indexed(stream: nat, colors: seq<Color>, indices: seq<Byte>, body: Body)

  /** A rectangle and the streams, as a four-bit mask, that are reset before it. */
  datatype Packet = Packet(resets: nat, rect: Rect)

  // ---- pixel bytes

  function Rgb(px: seq<Color>): (s: seq<Byte>)
    ensures |s| == 3 * |px|
    ensures forall k :: 0 <= k < |px| ==> s[3 * k] == px[k].r && s[3 * k + 1] == px[k].g && s[3 * k + 2] == px[k].b
  {
    if px == [] then [] else Rgb(px[..|px| - 1]) + [px[|px| - 1].r, px[|px| - 1].g, px[|px| - 1].b]
  }

  predicate Below(s: seq<Byte>, n: nat) {
    forall k :: 0 <= k < |s| ==> s[k] < n
  }

  /** Eight pixels, the first in the top bit; pixels past the row's end are 0. */
  function PackByte(bits: seq<Byte>): Byte
    requires |bits| == 8 && Below(bits, 2)
  {
    var b0: int, b1: int, b2: int, b3: int := bits[0], bits[1], bits[2], bits[3];
    var b4: int, b5: int, b6: int, b7: int := bits[4], bits[5], bits[6], bits[7];
    128 * b0 + 64 * b1 + 32 * b2 + 16 * b3 + 8 * b4 + 4 * b5 + 2 * b6 + b7
  }

  /** The pixels that byte `column` of row `y` of a packed image holds. */
  function BitsOf(indices: seq<Byte>, w: nat, h: nat, y: nat, column: nat): (bits: seq<Byte>)
    requires |indices| == w * h && Below(indices, 2)
    ensures |bits| == 8 && Below(bits, 2)
  {
    seq(8, k requires 0 <= k < 8 =>
      var x := column * 8 + k;
      if x < w && y < h && 0 <= y * w + x < |indices| then indices[y * w + x] else 0)
  }

  function Pack(indices: seq<Byte>, w: nat, h: nat): (s: seq<Byte>)
    requires |indices| == w * h && Below(indices, 2)
    ensures |s| == RowBytes(w) * h
  {
    seq(RowBytes(w) * h, i requires 0 <= i < RowBytes(w) * h =>
      PackByte(BitsOf(indices, w, h, i / RowBytes(w), i % RowBytes(w))))
  }

  function PixelBytes(r: Rect, w: nat, h: nat): seq<Byte>
    requires r.TrueColor? || (r.Indexed? && |r.indices| == w * h && Below(r.indices, |r.colors|))
  {
    if r.TrueColor? then Rgb(r.pixels)
    else if |r.colors| == 2 then Pack(r.indices, w, h) else r.indices
  }

  // ---- the wire

  const MAX_LENGTH := 0x40_0000

  function EncodeLength(n: nat): seq<Byte>
    requires n < MAX_LENGTH
  {
    if n < 128 then [n]
    else if n < 16384 then [n % 128 + 128, n / 128]
    else [n % 128 + 128, n / 128 % 128 + 128, n / 16384]
  }

  function EncodeData(data: seq<Byte>): seq<Byte>
    requires |data| < MAX_LENGTH
  {
    EncodeLength(|data|) + data
  }

  function EncodeBody(body: Body, pixels: seq<Byte>): seq<Byte>
    requires body.Deflated? ==> |body.input| < MAX_LENGTH
  {
    if body.Plain? then pixels else EncodeData(body.input)
  }

  function Control(r: Rect): nat
    requires (r.TrueColor? || r.Indexed?) ==> r.stream < 4
    ensures Control(r) < 16
  {
    match r
    case Solid(_) => 8
    case Picture(mime, _) => if mime == Jpeg then 9 else 11
    case TrueColor(stream, named, _, _) => stream + if named then 4 else 0
    case Indexed(stream, _, _, _) => stream + 4
  }

  ghost function Encode(p: Packet, w: nat, h: nat): seq<Byte>
    requires Legal(p, w, h)
  {
    [Control(p.rect) * 16 + p.resets] + EncodePayload(p.rect, w, h)
  }

  ghost function EncodePayload(r: Rect, w: nat, h: nat): seq<Byte>
    requires LegalRect(r, w, h)
  {
    match r
    case Solid(c) => [c.r, c.g, c.b]
    case Picture(_, file) => EncodeData(file)
    case TrueColor(_, named, _, body) => (if named then [0] else []) + EncodeBody(body, PixelBytes(r, w, h))
    case Indexed(_, colors, _, body) =>
      [1, |colors| - 1] + Rgb(colors) + EncodeBody(body, PixelBytes(r, w, h))
  }

  // ---- what may be sent, and what it shows

  /** Pixels travel plain exactly when they take fewer than twelve bytes. */
  ghost predicate LegalBody(body: Body, size: nat) {
    if size < 12 then body.Plain? else body.Deflated? && 2 <= |body.input| < MAX_LENGTH
  }

  ghost predicate Legal(p: Packet, w: nat, h: nat) {
    p.resets < 16 && LegalRect(p.rect, w, h)
  }

  ghost predicate LegalRect(r: Rect, w: nat, h: nat) {
    && w * h > 0
    && match r
       case Solid(_) => true
       case Picture(_, file) => 2 <= |file| < MAX_LENGTH
       case TrueColor(stream, _, pixels, body) =>
         stream < 4 && |pixels| == w * h && LegalBody(body, 3 * (w * h))
       case Indexed(stream, colors, indices, body) =>
         && stream < 4 && 2 <= |colors| <= 256 && |indices| == w * h
         && Below(indices, |colors|)
         && LegalBody(body, |PixelBytes(r, w, h)|)
  }

  /** The compressed body, if there is one, inflates to the pixels it was made from. */
  ghost predicate Inflates(z: Inflate, zlibs: seq<seq<Chunk>>, r: Rect, w: nat, h: nat)
    requires LegalRect(r, w, h) && |zlibs| == 4
  {
    (r.TrueColor? || r.Indexed?) && r.body.Deflated? ==>
      var pixels := PixelBytes(r, w, h);
      z(zlibs[r.stream], Chunk(r.body.input, |pixels|)) == Some(pixels)
  }

  /** The zlib streams after the rectangle. */
  ghost function ZlibsAfter(r: Rect, zlibs: seq<seq<Chunk>>, w: nat, h: nat): seq<seq<Chunk>>
    requires LegalRect(r, w, h) && |zlibs| == 4
  {
    if (r.TrueColor? || r.Indexed?) && r.body.Deflated? then
      zlibs[r.stream := zlibs[r.stream] + [Chunk(r.body.input, |PixelBytes(r, w, h)|)]]
    else zlibs
  }

  /** The drawing a rectangle stands for. */
  ghost function Meaning(j: Job, r: Rect): Call
    requires LegalRect(r, j.area.w, j.area.h)
  {
    match r
    case Solid(c) => Fill(j.area, Some(c), j.frameId)
    case Picture(mime, file) => ImageRect(j.area, mime, file, j.frameId)
    case TrueColor(_, _, pixels, _) => Blit(j.area, pixels, j.frameId)
    case Indexed(_, colors, indices, _) =>
      Blit(j.area, seq(|indices|, k requires 0 <= k < |indices| => colors[indices[k]]), j.frameId)
  }

  // ---- pixel bytes read back

  lemma RgbUnpacks(px: seq<Color>)
    ensures CopyPixels(Rgb(px)) == px
  {
    forall k | 0 <= k < |px|
      ensures CopyPixels(Rgb(px))[k] == px[k]
    {
    }
  }

  lemma PaletteReads(colors: seq<Color>, rest: seq<Byte>, k: nat)
    requires k < |colors|
    ensures PaletteColor(Rgb(colors) + rest, k) == colors[k]
  {
  }

  lemma PackedBit(bits: seq<Byte>, k: nat)
    requires |bits| == 8 && Below(bits, 2) && k < 8
    ensures (if Bit(PackByte(bits), 7 - k) then 1 else 0) == bits[k]
  {
    var x: int := PackByte(bits);
    var b0: int, b1: int, b2: int, b3: int := bits[0], bits[1], bits[2], bits[3];
    var b4: int, b5: int, b6: int, b7: int := bits[4], bits[5], bits[6], bits[7];
    assert Pow2(0) == 1 && Pow2(1) == 2 && Pow2(2) == 4 && Pow2(3) == 8;
    assert Pow2(4) == 16 && Pow2(5) == 32 && Pow2(6) == 64 && Pow2(7) == 128;
    match k
    case 0 => BitOfSum(x, 128, 0, b0, 64 * b1 + 32 * b2 + 16 * b3 + 8 * b4 + 4 * b5 + 2 * b6 + b7);
    case 1 => BitOfSum(x, 64, b0, b1, 32 * b2 + 16 * b3 + 8 * b4 + 4 * b5 + 2 * b6 + b7);
    case 2 => BitOfSum(x, 32, 2 * b0 + b1, b2, 16 * b3 + 8 * b4 + 4 * b5 + 2 * b6 + b7);
    case 3 => BitOfSum(x, 16, 4 * b0 + 2 * b1 + b2, b3, 8 * b4 + 4 * b5 + 2 * b6 + b7);
    case 4 => BitOfSum(x, 8, 8 * b0 + 4 * b1 + 2 * b2 + b3, b4, 4 * b5 + 2 * b6 + b7);
    case 5 => BitOfSum(x, 4, 16 * b0 + 8 * b1 + 4 * b2 + 2 * b3 + b4, b5, 2 * b6 + b7);
    case 6 => BitOfSum(x, 2, 32 * b0 + 16 * b1 + 8 * b2 + 4 * b3 + 2 * b4 + b5, b6, b7);
    case _ => BitOfSum(x, 1, 64 * b0 + 32 * b1 + 16 * b2 + 8 * b3 + 4 * b4 + 2 * b5 + b6, b7, 0);
  }

  lemma BitOfSum(x: int, p: nat, high: nat, bit: nat, low: nat)
    requires p > 0 && bit < 2 && low < p && x == (2 * high + bit) * p + low
    ensures x / p % 2 == bit
  {
    DivModUnique(x, p, 2 * high + bit, low);
  }

  lemma PackedPixel(indices: seq<Byte>, w: nat, h: nat, x: nat, y: nat)
    requires |indices| == w * h && Below(indices, 2) && x < w && y < h && 0 <= y * w + x < w * h
    ensures MonoBit(Pack(indices, w, h), w, h, x, y) == indices[y * w + x]
  {
    hide Bit, PackByte, Pow2, BitsOf;
    var i := y * RowBytes(w) + x / 8;
    MonoIndexInRange(w, h, x, y);
    DivModUnique(i, RowBytes(w), y, x / 8);
    var bits := BitsOf(indices, w, h, y, x / 8);
    assert Pack(indices, w, h)[i] == PackByte(bits);
    PackedBit(bits, x % 8);
    PixelInBits(indices, w, h, x, y);
  }

  lemma PixelInBits(indices: seq<Byte>, w: nat, h: nat, x: nat, y: nat)
    requires |indices| == w * h && Below(indices, 2) && x < w && y < h && 0 <= y * w + x < w * h
    ensures BitsOf(indices, w, h, y, x / 8)[x % 8] == indices[y * w + x]
  {
    assert x / 8 * 8 + x % 8 == x;
  }

  lemma IndexedReads(colors: seq<Color>, indices: seq<Byte>, rest: seq<Byte>, w: nat, h: nat)
    requires 2 <= |colors| <= 256 && |indices| == w * h && Below(indices, |colors|)
    ensures var data := if |colors| == 2 then Pack(indices, w, h) else indices;
      && |data| == IndexedRow(|colors|, w) * h
      && IndexedPixels(data, Rgb(colors) + rest, |colors|, w, h)
         == seq(|indices|, k requires 0 <= k < |indices| => colors[indices[k]])
  {
    hide PaletteColor, Pack, Rgb, MonoPixel;
    var data := if |colors| == 2 then Pack(indices, w, h) else indices;
    var palette := Rgb(colors) + rest;
    forall k | 0 <= k < w * h
      ensures IndexedPixels(data, palette, |colors|, w, h)[k] == colors[indices[k]]
    {
      if |colors| == 2 {
        MonoPixelReads(colors, indices, rest, w, h, k);
      } else {
        PaletteReads(colors, rest, indices[k]);
      }
    }
  }

  lemma MonoPixelIs(data: seq<Byte>, palette: seq<Byte>, w: nat, h: nat, k: nat, x: nat, y: nat)
    requires |data| == RowBytes(w) * h && k < w * h && w > 0 && x == k % w < w && y == k / w < h
    ensures MonoPixel(data, palette, w, h, k) == PaletteColor(palette, MonoBit(data, w, h, x, y))
  {
    hide PaletteColor, MonoBit, RowBytes;
  }

  lemma MonoPixelReads(colors: seq<Color>, indices: seq<Byte>, rest: seq<Byte>, w: nat, h: nat, k: nat)
    requires |colors| == 2 && |indices| == w * h && Below(indices, 2) && k < w * h
    ensures MonoPixel(Pack(indices, w, h), Rgb(colors) + rest, w, h, k) == colors[indices[k]]
  {
    hide PaletteColor, MonoBit, Pack, Rgb, RowBytes, MonoPixel;
    RowAndColumn(w, h, k);
    MonoPixelIn(colors, indices, rest, w, h, k, k % w, k / w);
  }

  /** The same for pixel `k` in column `x` of row `y`. */
  lemma MonoPixelIn(colors: seq<Color>, indices: seq<Byte>, rest: seq<Byte>, w: nat, h: nat, k: nat, x: nat, y: nat)
    requires |colors| == 2 && |indices| == w * h && Below(indices, 2) && k < w * h
    requires x < w && y < h && x == k % w && y == k / w && k == y * w + x
    ensures MonoPixel(Pack(indices, w, h), Rgb(colors) + rest, w, h, k) == colors[indices[k]]
  {
    hide PaletteColor, MonoBit, Pack, Rgb, RowBytes, MonoPixel;
    PackedColor(colors, indices, rest, w, h, x, y, indices[k]);
    MonoPixelIs(Pack(indices, w, h), Rgb(colors) + rest, w, h, k, x, y);
  }

  lemma PackedColor(colors: seq<Color>, indices: seq<Byte>, rest: seq<Byte>, w: nat, h: nat, x: nat, y: nat, i: nat)
    requires |colors| == 2 && |indices| == w * h && Below(indices, 2) && i < 2
    requires x < w && y < h && 0 <= y * w + x < w * h && indices[y * w + x] == i
    ensures PaletteColor(Rgb(colors) + rest, MonoBit(Pack(indices, w, h), w, h, x, y)) == colors[i]
  {
    hide PaletteColor, MonoBit, Pack, Rgb, RowBytes;
    PackedPixel(indices, w, h, x, y);
    PaletteReads(colors, rest, i);
  }

  // ---- fields read back

  lemma LengthReads(n: nat, more: seq<Byte>)
    requires n < MAX_LENGTH && |EncodeLength(n) + more| >= 3
    ensures LengthValue(EncodeLength(n) + more) == n && LengthSize(EncodeLength(n) + more) == |EncodeLength(n)|
  {
  }

  lemma DataReads(s: State, data: seq<Byte>, tail: seq<Byte>)
    requires s.len == 0 && 2 <= |data| < MAX_LENGTH
    ensures ReadData(s, EncodeData(data) + tail) == Read(Some(data), s, tail)
  {
    var all := EncodeData(data) + tail;
    assert all == EncodeLength(|data|) + (data + tail);
    LengthReads(|data|, data + tail);
    assert all[|EncodeLength(|data|)|..] == data + tail;
    assert (data + tail)[..|data|] == data && (data + tail)[|data|..] == tail;
  }

  lemma BodyReads(z: Inflate, stream: nat, body: Body, pixels: seq<Byte>, s: State, tail: seq<Byte>)
    requires s.Ok() && s.len == 0 && stream < 4 && LegalBody(body, |pixels|)
    requires body.Deflated? ==> z(s.zlibs[stream], Chunk(body.input, |pixels|)) == Some(pixels)
    ensures PixelData(z, stream, |pixels|, s, EncodeBody(body, pixels) + tail)
         == Pixels(Done, pixels,
                   if body.Plain? then s
                   else s.(zlibs := s.zlibs[stream := s.zlibs[stream] + [Chunk(body.input, |pixels|)]]),
                   tail)
  {
    if body.Plain? {
      assert (pixels + tail)[..|pixels|] == pixels && (pixels + tail)[|pixels|..] == tail;
    } else {
      DataReads(s, body.input, tail);
    }
  }

  // ---- a rectangle read back

  /** The streams after pixel data in `body`. */
  ghost function BodyZlibs(zlibs: seq<seq<Chunk>>, stream: nat, body: Body, size: nat): seq<seq<Chunk>>
    requires stream < |zlibs|
  {
    if body.Plain? then zlibs else zlibs[stream := zlibs[stream] + [Chunk(body.input, size)]]
  }

  lemma CopyIsChosen(z: Inflate, j: Job, stream: nat, named: bool, s: State, rest: seq<Byte>)
    requires s.AtPayload() && stream < 4
    ensures var o := CopyFilter(z, j, stream, s.(filter := Some(0)), rest);
      Dispatch(z, j, stream + if named then 4 else 0, s, (if named then [0] else []) + rest)
      == if o.status == Done then o.(state := o.state.(filter := None)) else o
  {
    hide CopyFilter, PaletteFilter;
    if named {
      assert ([0] + rest)[1..] == rest;
    } else {
      assert [] + rest == rest;
    }
  }

  lemma CopyReads(z: Inflate, j: Job, stream: nat, body: Body, px: seq<Color>, s: State, tail: seq<Byte>)
    requires s.Ok() && s.len == 0 && stream < 4 && |px| == j.area.w * j.area.h > 0 && LegalBody(body, 3 * |px|)
    requires body.Deflated? ==> z(s.zlibs[stream], Chunk(body.input, 3 * |px|)) == Some(Rgb(px))
    ensures CopyFilter(z, j, stream, s, EncodeBody(body, Rgb(px)) + tail)
         == Outcome(Done, s.(zlibs := BodyZlibs(s.zlibs, stream, body, 3 * |px|)), tail,
                    [Blit(j.area, px, j.frameId)])
  {
    hide PixelData, CopyPixels, Rgb, EncodeBody;
    BodyReads(z, stream, body, Rgb(px), s, tail);
    RgbUnpacks(px);
    assert j.area.w * j.area.h * 3 == 3 * |px|;
  }

  lemma TrueColorReads(z: Inflate, j: Job, r: Rect, s: State, tail: seq<Byte>)
    requires r.TrueColor? && LegalRect(r, j.area.w, j.area.h) && s.AtPayload()
    requires Inflates(z, s.zlibs, r, j.area.w, j.area.h)
    ensures Dispatch(z, j, Control(r), s, EncodePayload(r, j.area.w, j.area.h) + tail)
         == Outcome(Done, s.(zlibs := ZlibsAfter(r, s.zlibs, j.area.w, j.area.h)), tail, [Meaning(j, r)])
  {
    hide Dispatch, CopyFilter, Rgb, EncodeBody;
    var e := EncodeBody(r.body, Rgb(r.pixels));
    CopyIsChosen(z, j, r.stream, r.named, s, e + tail);
    CopyReads(z, j, r.stream, r.body, r.pixels, s.(filter := Some(0)), tail);
    var front := if r.named then [0] else [];
    assert EncodePayload(r, j.area.w, j.area.h) + tail == front + (e + tail);
  }

  /** The number of colours, less one, and the colours. */
  ghost function PaletteBytes(colors: seq<Color>): (s: seq<Byte>)
    requires 1 <= |colors| <= 256
    ensures |s| == 1 + 3 * |colors| && s[0] == |colors| - 1 && s[1..] == Rgb(colors)
  {
    [|colors| - 1] + Rgb(colors)
  }

  /** A palette rectangle behind its control byte, with any pixel bytes at all. */
  ghost function IndexedPayload(colors: seq<Color>, body: Body, data: seq<Byte>): seq<Byte>
    requires 1 <= |colors| <= 256 && LegalBody(body, |data|)
  {
    [1] + PaletteBytes(colors) + EncodeBody(body, data)
  }

  /** A palette of any size, with as many pixel bytes as the decoders expect, their values arbitrary. */
  ghost predicate AnyIndexed(z: Inflate, zlibs: seq<seq<Chunk>>, w: nat, h: nat, stream: nat, colors: seq<Color>,
                             body: Body, data: seq<Byte>)
  {
    && |zlibs| == 4 && stream < 4 && 1 <= |colors| <= 256 && LegalBody(body, |data|)
    && |data| == IndexedRow(|colors|, w) * h > 0
    && (body.Deflated? ==> z(zlibs[stream], Chunk(body.input, |data|)) == Some(data))
  }

  lemma Regroup(a: seq<Byte>, b: seq<Byte>, c: seq<Byte>, d: seq<Byte>)
    ensures a + (b + c + d) == (a + b + c) + d
    ensures (a + b + c) + d == a + (b + (c + d))
  {
  }

  /** What a stream decoder with a palette buffer makes of it. */
  ghost function StreamIndexed(j: Job, stream: nat, colors: seq<Color>, body: Body, data: seq<Byte>, s: State,
                               tail: seq<Byte>): Outcome<State>
    requires s.Ok() && stream < 4 && 1 <= |colors| <= 256 && |data| == IndexedRow(|colors|, j.area.w) * j.area.h
  {
    var palette := Rgb(colors) + s.palette[3 * |colors|..];
    Outcome(Done, s.(zlibs := BodyZlibs(s.zlibs, stream, body, |data|), palette := palette), tail,
            [Blit(j.area, IndexedPixels(data, palette, |colors|, j.area.w, j.area.h), j.frameId)])
  }

  lemma AnyIndexedReads(z: Inflate, j: Job, stream: nat, colors: seq<Color>, body: Body, data: seq<Byte>, s: State,
                        tail: seq<Byte>)
    requires s.AtPayload() && AnyIndexed(z, s.zlibs, j.area.w, j.area.h, stream, colors, body, data)
    ensures Dispatch(z, j, stream + 4, s, IndexedPayload(colors, body, data) + tail)
         == StreamIndexed(j, stream, colors, body, data, s, tail)
  {
    hide Dispatch, PaletteFilter, IndexedData, IndexedPixels, Rgb, EncodeBody, IndexedRow, PaletteBytes;
    var e := EncodeBody(body, data) + tail;
    Regroup([1], PaletteBytes(colors), EncodeBody(body, data), tail);
    assert IndexedPayload(colors, body, data) + tail == [1] + (PaletteBytes(colors) + e);
    hide IndexedPayload;
    FilterIsNamed(z, j, stream, s, PaletteBytes(colors) + e);
    PaletteIsRead(z, j, stream, s.(filter := Some(1)), colors, e);
    IndexedBodyReads(z, j, stream, body, data,
                     s.(filter := Some(1), numColors := |colors|, palette := Rgb(colors) + s.palette[3 * |colors|..]), tail);
  }

  lemma FilterIsNamed(z: Inflate, j: Job, stream: nat, s: State, rest: seq<Byte>)
    requires s.AtPayload() && stream < 4
    ensures var o := PaletteFilter(z, j, stream, s.(filter := Some(1)), rest);
      Dispatch(z, j, stream + 4, s, [1] + rest) == if o.status == Done then o.(state := o.state.(filter := None)) else o
  {
    hide PaletteFilter;
    assert ([1] + rest)[1..] == rest;
  }

  lemma PaletteIsRead(z: Inflate, j: Job, stream: nat, s: State, colors: seq<Color>, e: seq<Byte>)
    requires s.Ok() && s.numColors == 0 && stream < 4 && 1 <= |colors| <= 256
    ensures PaletteFilter(z, j, stream, s, PaletteBytes(colors) + e)
         == IndexedData(z, j, stream, s.(numColors := |colors|, palette := Rgb(colors) + s.palette[3 * |colors|..]), e)
  {
    hide PaletteFilter, IndexedData, Rgb, PaletteBytes;
    var n := |colors|;
    var named := PaletteBytes(colors) + e;
    assert named[0] == n - 1 && named[1..1 + 3 * n] == PaletteBytes(colors)[1..] && named[1 + 3 * n..] == e;
    PaletteTaken(z, j, stream, s, n, Rgb(colors), named);
  }

  lemma PaletteTaken(z: Inflate, j: Job, stream: nat, s: State, n: nat, rgb: seq<Byte>, named: seq<Byte>)
    requires s.Ok() && s.numColors == 0 && stream < 4 && 1 <= n <= 256
    requires |named| >= 1 + 3 * n && named[0] == n - 1 && named[1..1 + 3 * n] == rgb
    ensures PaletteFilter(z, j, stream, s, named)
         == IndexedData(z, j, stream, s.(numColors := n, palette := rgb + s.palette[3 * n..]), named[1 + 3 * n..])
  {
    hide IndexedData;
  }

  lemma IndexedBodyReads(z: Inflate, j: Job, stream: nat, body: Body, data: seq<Byte>, s: State, tail: seq<Byte>)
    requires s.Ok() && s.len == 0 && stream < 4 && 1 <= s.numColors <= 256 && LegalBody(body, |data|)
    requires |data| == IndexedRow(s.numColors, j.area.w) * j.area.h > 0
    requires body.Deflated? ==> z(s.zlibs[stream], Chunk(body.input, |data|)) == Some(data)
    ensures IndexedData(z, j, stream, s, EncodeBody(body, data) + tail)
         == Outcome(Done, s.(zlibs := BodyZlibs(s.zlibs, stream, body, |data|), numColors := 0), tail,
                    [Blit(j.area, IndexedPixels(data, s.palette, s.numColors, j.area.w, j.area.h), j.frameId)])
  {
    hide PixelData, IndexedPixels, EncodeBody, IndexedRow;
    BodyReads(z, stream, body, data, s, tail);
  }

  lemma PayloadIsIndexed(r: Rect, w: nat, h: nat)
    requires r.Indexed? && LegalRect(r, w, h)
    ensures EncodePayload(r, w, h) == IndexedPayload(r.colors, r.body, PixelBytes(r, w, h))
  {
    hide PixelBytes, Rgb, EncodeBody;
  }

  lemma IndexedRectReads(z: Inflate, j: Job, r: Rect, s: State, tail: seq<Byte>)
    requires r.Indexed? && LegalRect(r, j.area.w, j.area.h) && s.AtPayload()
    requires Inflates(z, s.zlibs, r, j.area.w, j.area.h)
    ensures var o := Dispatch(z, j, Control(r), s, EncodePayload(r, j.area.w, j.area.h) + tail);
      o == Outcome(Done, s.(zlibs := ZlibsAfter(r, s.zlibs, j.area.w, j.area.h),
                            palette := Rgb(r.colors) + s.palette[3 * |r.colors|..]), tail, [Meaning(j, r)])
  {
    hide Dispatch, IndexedPixels, PixelBytes, Rgb, EncodeBody, IndexedRow;
    var w, h := j.area.w, j.area.h;
    var data := IndexedBytes(r, w, h);
    IndexedSizePositive(|r.colors|, w, h);
    PayloadIsIndexed(r, w, h);
    hide EncodePayload, IndexedPayload;
    AnyIndexedReads(z, j, r.stream, r.colors, r.body, data, s, tail);
    IndexedReads(r.colors, r.indices, s.palette[3 * |r.colors|..], w, h);
  }

  ghost function IndexedBytes(r: Rect, w: nat, h: nat): (pixels: seq<Byte>)
    requires r.Indexed? && LegalRect(r, w, h)
    ensures pixels == PixelBytes(r, w, h) == if |r.colors| == 2 then Pack(r.indices, w, h) else r.indices
    ensures |pixels| == IndexedRow(|r.colors|, w) * h
  {
    PixelBytes(r, w, h)
  }

  lemma IndexedSizePositive(n: nat, w: nat, h: nat)
    requires w * h > 0
    ensures IndexedRow(n, w) * h > 0
  {
    MulLe(1, IndexedRow(n, w), h);
  }

  lemma PayloadReads(z: Inflate, j: Job, r: Rect, s: State, tail: seq<Byte>)
    requires LegalRect(r, j.area.w, j.area.h) && s.AtPayload()
    requires Inflates(z, s.zlibs, r, j.area.w, j.area.h)
    ensures var o := Dispatch(z, j, Control(r), s, EncodePayload(r, j.area.w, j.area.h) + tail);
      && o.status == Done && o.rest == tail && o.calls == [Meaning(j, r)]
      && o.state.AtPayload() && o.state.ctl == s.ctl
      && o.state.zlibs == ZlibsAfter(r, s.zlibs, j.area.w, j.area.h)
  {
    hide BasicRect;
    match r
    case Solid(c) =>
      assert ([c.r, c.g, c.b] + tail)[3..] == tail;
    case Picture(_, file) =>
      DataReads(s, file, tail);
    case TrueColor(_, _, _, _) =>
      TrueColorReads(z, j, r, s, tail);
    case Indexed(_, _, _, _) =>
      IndexedRectReads(z, j, r, s, tail);
  }

  /** The streams a control byte resets depend on its low four bits alone. */
  lemma LowBits(zlibs: seq<seq<Chunk>>, control: nat, resets: nat)
    requires |zlibs| == 4 && control < 16 && resets < 16
    ensures ResetStreams(zlibs, control * 16 + resets) == ResetStreams(zlibs, resets)
  {
    forall i | 0 <= i < 4
      ensures Bit(control * 16 + resets, i) == Bit(resets, i)
    {
      LowBit(control, resets, i);
    }
    hide Bit;
  }

  lemma LowBit(control: nat, resets: nat, i: nat)
    requires control < 16 && resets < 16 && i < 4
    ensures Bit(control * 16 + resets, i) == Bit(resets, i)
  {
    assert Pow2(0) == 1 && Pow2(1) == 2 && Pow2(2) == 4 && Pow2(3) == 8;
    if i == 1 {
      assert (control * 16 + resets) / 2 == control * 8 + resets / 2;
    } else if i == 2 {
      assert (control * 16 + resets) / 4 == control * 4 + resets / 4;
    } else if i == 3 {
      assert (control * 16 + resets) / 8 == control * 2 + resets / 8;
    }
  }

  /**
   A rectangle's bytes, followed by anything, decode to the rectangle's meaning; the decoder is
   then idle again and exactly what follows is unread.
   */
  lemma RectDecodes(z: Inflate, j: Job, p: Packet, s: State, tail: seq<Byte>)
    requires s.Idle() && Legal(p, j.area.w, j.area.h)
    requires Inflates(z, ResetStreams(s.zlibs, p.resets), p.rect, j.area.w, j.area.h)
    ensures var o := DecodeRect(z, j, s, Encode(p, j.area.w, j.area.h) + tail);
      && o.status == Done && o.rest == tail && o.calls == [Meaning(j, p.rect)] && o.state.Idle()
      && o.state.zlibs == ZlibsAfter(p.rect, ResetStreams(s.zlibs, p.resets), j.area.w, j.area.h)
  {
    hide Dispatch, EncodePayload, Meaning, ZlibsAfter, ResetStreams, Inflates;
    var r, w, h := p.rect, j.area.w, j.area.h;
    var payload := EncodePayload(r, w, h) + tail;
    var all := Encode(p, w, h) + tail;
    var first: Byte := Control(r) * 16 + p.resets;
    assert all == [first] + payload;
    assert all[1..] == payload;
    LowBits(s.zlibs, Control(r), p.resets);
    PayloadReads(z, j, r, s.(ctl := Some(Control(r)), zlibs := ResetStreams(s.zlibs, first)), tail);
  }

  /**
   However a rectangle's bytes are cut into messages, and whatever comes after them, exactly the
   one call its meaning demands is made.
   */
  lemma AnyFragmentationDecodes(z: Inflate, j: Job, p: Packet, s: State, tail: seq<Byte>, messages: seq<seq<Byte>>)
    requires s.Idle() && Legal(p, j.area.w, j.area.h)
    requires Inflates(z, ResetStreams(s.zlibs, p.resets), p.rect, j.area.w, j.area.h)
    requires messages != [] && Concat(messages) == Encode(p, j.area.w, j.area.h) + tail
    ensures var o := Feed(RectDecoder(z, j), s, [], messages);
      && o.status == Done && o.rest == tail && o.calls == [Meaning(j, p.rect)] && o.state.Idle()
      && o.state.zlibs == ZlibsAfter(p.rect, ResetStreams(s.zlibs, p.resets), j.area.w, j.area.h)
  {
    hide DecodeRect, Encode, Meaning, ZlibsAfter, ResetStreams, LegalRect, Inflates;
    RectResumes(z, j);
    FeedIsOneShot(RectDecoder(z, j), s, [], messages);
    assert [] + Concat(messages) == Concat(messages);
    RectDecodes(z, j, p, s, tail);
  }

  /**
   Three bytes of length and data are demanded before any is read. So a picture of fewer than two
   bytes, complete though it is, waits for bytes of whatever comes next; a longer one never does.
   */
  lemma PictureNeedsTwoBytes(z: Inflate, j: Job, ctl: nat, s: State, file: seq<Byte>)
    requires s.AtPayload() && |file| < MAX_LENGTH && (ctl == 9 || 11 <= ctl <= 13)
    ensures Dispatch(z, j, ctl, s, EncodeData(file)).status == if |file| >= 2 then Done else Wait
  {
    if |file| >= 2 {
      DataReads(s, file, []);
      assert EncodeData(file) + [] == EncodeData(file);
    }
  }

  // ---- control bytes

  /** The four low bits of a control byte: which streams start afresh. */
  lemma ResetsAre(zlibs: seq<seq<Chunk>>, ctl: nat, b0: nat, b1: nat, b2: nat, b3: nat)
    requires |zlibs| == 4 && ctl < 16 && b0 < 2 && b1 < 2 && b2 < 2 && b3 < 2
    ensures ResetStreams(zlibs, 16 * ctl + 8 * b3 + 4 * b2 + 2 * b1 + b0)
         == [if b0 == 1 then [] else zlibs[0], if b1 == 1 then [] else zlibs[1],
             if b2 == 1 then [] else zlibs[2], if b3 == 1 then [] else zlibs[3]]
  {
    hide Bit;
    FourBits(16 * ctl + 8 * b3 + 4 * b2 + 2 * b1 + b0);
    MaskBits(ctl, b0, b1, b2, b3);
  }

  lemma MaskBits(ctl: nat, b0: nat, b1: nat, b2: nat, b3: nat)
    requires b0 < 2 && b1 < 2 && b2 < 2 && b3 < 2
    ensures var x := 16 * ctl + 8 * b3 + 4 * b2 + 2 * b1 + b0;
      x % 2 == b0 && x / 2 % 2 == b1 && x / 4 % 2 == b2 && x / 8 % 2 == b3
  {
    var x := 16 * ctl + 8 * b3 + 4 * b2 + 2 * b1 + b0;
    Halves(x);
    Half(8 * ctl + 4 * b3 + 2 * b2 + b1, b0);
    Half(4 * ctl + 2 * b3 + b2, b1);
    Half(2 * ctl + b3, b2);
    Half(ctl, b3);
  }

  lemma Half(x: nat, bit: nat)
    requires bit < 2
    ensures (2 * x + bit) / 2 == x && (2 * x + bit) % 2 == bit
  {
  }

  lemma Halves(x: nat)
    ensures x / 4 == x / 2 / 2 && x / 8 == x / 2 / 2 / 2
  {
  }

  lemma FourBits(x: nat)
    ensures Bit(x, 0) <==> x % 2 == 1
    ensures Bit(x, 1) <==> x / 2 % 2 == 1
    ensures Bit(x, 2) <==> x / 4 % 2 == 1
    ensures Bit(x, 3) <==> x / 8 % 2 == 1
  {
    assert Pow2(0) == 1 && Pow2(1) == 2 && Pow2(2) == 4 && Pow2(3) == 2 * Pow2(2) == 8;
  }

  /** Control numbers 10, 14 and 15 are refused, as is a filter that is neither copy nor palette. */
  lemma RefusedRect(z: Inflate, j: Job, s: State, ctl: nat, resets: nat, filter: Byte, tail: seq<Byte>)
    requires s.Idle() && ctl < 16 && resets < 16
    ensures DecodeRect(z, j, s, [ctl * 16 + resets] + ([filter] + tail)).status == Fail
       <== ctl == 10 || ctl >= 14 || (4 <= ctl < 8 && filter > 1)
  {
    var bytes := [ctl * 16 + resets] + ([filter] + tail);
    assert bytes[1..] == [filter] + tail && bytes[0] / 16 == ctl;
  }

  /** Pictures the client cannot decode itself, QOI (12) and transparent ones (13), are handed on as they came. */
  lemma HandedOn(z: Inflate, j: Job, ctl: nat, s: State, file: seq<Byte>, tail: seq<Byte>)
    requires s.AtPayload() && 2 <= |file| < MAX_LENGTH && 12 <= ctl <= 13
    ensures Dispatch(z, j, ctl, s, EncodeData(file) + tail)
         == Outcome(Done, s, tail, [Handoff(j.area, ctl, file, j.frameId)])
  {
    DataReads(s, file, tail);
    hide ReadData, EncodeData;
  }

  /** Compressed data that the library refuses, or that inflates to another size, ends the connection. */
  lemma InflatedIff(z: Inflate, stream: nat, size: nat, input: seq<Byte>, s: State, tail: seq<Byte>)
    requires s.AtPayload() && stream < 4 && size >= 12 && 2 <= |input| < MAX_LENGTH
    ensures var out := z(s.zlibs[stream], Chunk(input, size));
      PixelData(z, stream, size, s, EncodeData(input) + tail).status
      == if out.Some? && |out.value| == size then Done else Fail
  {
    DataReads(s, input, tail);
    hide ReadData, EncodeData;
  }

  // ---- rectangles of one colour, and of no pixels

  /**
   A palette of one colour comes with a bit for each pixel, as one of two does, but its pixels are
   drawn as if they came in bytes: the bytes there are colour the first pixels, and all others are black.
   */
  lemma OneColour(z: Inflate, j: Job, stream: nat, color: Color, body: Body, data: seq<Byte>, s: State, tail: seq<Byte>)
    requires s.AtPayload() && AnyIndexed(z, s.zlibs, j.area.w, j.area.h, stream, [color], body, data)
    requires forall k :: 0 <= k < |data| ==> data[k] == 0
    ensures |data| == (j.area.w + 7) / 8 * j.area.h
    ensures var o := Dispatch(z, j, stream + 4, s, IndexedPayload([color], body, data) + tail);
      var n := j.area.w * j.area.h;
      && o.status == Done && o.rest == tail
      && o.calls == [Blit(j.area, seq(n, k requires 0 <= k < n => if k < |data| then color else BLACK), j.frameId)]
  {
    AnyIndexedReads(z, j, stream, [color], body, data, s, tail);
    var palette, n := Rgb([color]) + s.palette[3..], j.area.w * j.area.h;
    assert [color][..0] == [] && Rgb([color]) == Rgb([]) + [color.r, color.g, color.b];
    assert PaletteColor(palette, 0) == color;
    hide PaletteColor, Dispatch, IndexedPayload, Rgb, LegalBody;
    assert PalettePixels(data, palette, n) == seq(n, k requires 0 <= k < n => if k < |data| then color else BLACK);
  }

  /** An empty true-colour rectangle has no pixel bytes and draws nothing. */
  lemma EmptyCopy(z: Inflate, j: Job, s: State, stream: nat, resets: nat, tail: seq<Byte>)
    requires s.Idle() && stream < 4 && resets < 16 && (j.area.w == 0 || j.area.h == 0)
    ensures DecodeRect(z, j, s, [stream * 16 + resets] + tail)
         == Outcome(Done, s.(zlibs := ResetStreams(s.zlibs, stream * 16 + resets)), tail, [])
  {
    var bytes := [stream * 16 + resets] + tail;
    assert bytes[1..] == tail && bytes[0] / 16 == stream;
    hide ResetStreams;
  }

  lemma NoBytes(n: nat, w: nat, h: nat)
    requires w == 0 || h == 0
    ensures IndexedRow(n, w) * h == 0
  {
  }

  /** An empty palette rectangle draws nothing, either, but leaves its number of colours behind. */
  lemma EmptyPalette(z: Inflate, j: Job, stream: nat, colors: seq<Color>, s: State, tail: seq<Byte>)
    requires s.AtPayload() && stream < 4 && 1 <= |colors| <= 256 && (j.area.w == 0 || j.area.h == 0)
    ensures Dispatch(z, j, stream + 4, s, [1] + PaletteBytes(colors) + tail)
         == Outcome(Done, s.(numColors := |colors|, palette := Rgb(colors) + s.palette[3 * |colors|..]), tail, [])
  {
    hide PixelData, PaletteBytes, Rgb, Dispatch, PaletteFilter, IndexedRow;
    assert [1] + PaletteBytes(colors) + tail == [1] + (PaletteBytes(colors) + tail);
    FilterIsNamed(z, j, stream, s, PaletteBytes(colors) + tail);
    PaletteIsRead(z, j, stream, s.(filter := Some(1)), colors, tail);
    NoBytes(|colors|, j.area.w, j.area.h);
  }

  /** The next palette rectangle's own palette is then not read as one. */
  lemma LeftoverCount(z: Inflate, j: Job, stream: nat, s: State, bytes: seq<Byte>)
    requires s.Ok() && s.filter.None? && s.numColors > 0 && stream < 4
    ensures var o := IndexedData(z, j, stream, s.(filter := Some(1)), bytes);
      Dispatch(z, j, stream + 4, s, [1] + bytes)
      == if o.status == Done then o.(state := o.state.(filter := None)) else o
  {
    hide IndexedData;
    assert ([1] + bytes)[1..] == bytes;
  }
}
