/**
 The second implementation of Tight: one datagram holds one rectangle, and nothing resumes.
 Datagrams may be cut short, so a read past the end is spelled out wherever it can happen.
 */
module UdpDecoding {
  import opened Arithmetic
  import opened Bytes
  import opened DrawCalls
  import opened Resumable
  import opened TightFormat
  import opened TightEncoding
  import opened PixelUnpacking

  /** Bytes of a datagram before the rectangle's own. */
  const HEADER := 12

  /** Dropped: the decoder gave up on the datagram without drawing or throwing. */
  datatype UdpStatus = Drawn | Dropped | Threw

  datatype Result = Result(status: UdpStatus, zlibs: seq<seq<Chunk>>, calls: seq<Call>)

  // ---- `slice`

  function SliceFrom(s: seq<Byte>, i: nat): seq<Byte> {
    if i <= |s| then s[i..] else []
  }

  function Slice(s: seq<Byte>, i: nat, n: nat): seq<Byte> {
    var t := SliceFrom(s, i);
    if n <= |t| then t[..n] else t
  }

  /** `n` bytes of which those that are missing read as 0. */
  function Padded(s: seq<Byte>, n: nat): (r: seq<Byte>)
    ensures |r| == n && (|s| == n ==> r == s)
  {
    seq(n, i requires 0 <= i < n => ByteAt(s, i))
  }

  /** The rest of the datagram behind the length field; the length itself is not used. */
  function UdpReadData(data: seq<Byte>, lenIndex: nat): Option<seq<Byte>> {
    if |data| < lenIndex + 2 then None
    else if data[lenIndex] < 128 then Some(SliceFrom(data, lenIndex + 1))
    else if data[lenIndex + 1] < 128 then Some(SliceFrom(data, lenIndex + 2))
    else Some(SliceFrom(data, lenIndex + 3))
  }

  // ---- the rectangle kinds

  datatype UdpPixels = UdpPixels(status: UdpStatus, data: seq<Byte>, zlibs: seq<seq<Chunk>>)

  function UdpPixelData(z: Inflate, zlibs: seq<seq<Chunk>>, stream: nat, size: nat, data: seq<Byte>, at: nat): (p: UdpPixels)
    requires stream < |zlibs|
    ensures |p.zlibs| == |zlibs|
    ensures p.status == Drawn && size >= 12 ==> |p.data| == size
  {
    if size < 12 then UdpPixels(Drawn, Slice(data, at, size), zlibs)
    else
      var input := UdpReadData(data, at);
      if input.None? then UdpPixels(Dropped, [], zlibs) else InflateFrom(z, zlibs, stream, size, input.value)
  }

  function InflateFrom(z: Inflate, zlibs: seq<seq<Chunk>>, stream: nat, size: nat, input: seq<Byte>): (p: UdpPixels)
    requires stream < |zlibs|
    ensures |p.zlibs| == |zlibs|
    ensures p.status == Drawn ==> |p.data| == size
  {
    var c := Chunk(input, size);
    var out := Inflated(z, zlibs[stream], c);
    if out.None? then UdpPixels(Threw, [], zlibs)
    else UdpPixels(Drawn, out.value, zlibs[stream := zlibs[stream] + [c]])
  }

  function UdpCopyFilter(z: Inflate, j: Job, zlibs: seq<seq<Chunk>>, stream: nat, data: seq<Byte>, at: nat): Result
    requires stream < |zlibs|
  {
    var n := j.area.w * j.area.h;
    if n * 3 == 0 then Result(Drawn, zlibs, [])
    else
      var p := UdpPixelData(z, zlibs, stream, n * 3, data, at);
      if p.status != Drawn then Result(p.status, p.zlibs, [])
      else Result(Drawn, p.zlibs, [Blit(j.area, CopyPixels(Padded(p.data, n * 3)), j.frameId)])
  }

  /** The palette's size is byte 14; without it all arithmetic on it is NaN, which `slice` takes for 0. */
  function UdpPaletteFilter(z: Inflate, j: Job, zlibs: seq<seq<Chunk>>, stream: nat, data: seq<Byte>): Result
    requires stream < |zlibs|
  {
    var n := if |data| > 14 then Some(ColorCount(data[14])) else None;
    var palette := if n.Some? then Slice(data, 15, 3 * n.value) else [];
    var w, h := j.area.w, j.area.h;
    var size := if n.Some? then IndexedRow(n.value, w) * h else w * h;
    if size == 0 then Result(Drawn, zlibs, [])
    else
      var p := if n.Some? then UdpPixelData(z, zlibs, stream, size, data, 15 + 3 * n.value)
               else if size < 12 then UdpPixels(Drawn, [], zlibs)
               else InflateFrom(z, zlibs, stream, size, data);
      if p.status != Drawn then Result(p.status, p.zlibs, [])
      else Result(Drawn, p.zlibs,
        [Blit(j.area, if n == Some(2) then MonoPixels(Padded(p.data, size), palette, w, h)
                      else PalettePixels(p.data, palette, w * h), j.frameId)])
  }

  function UdpBasicRect(z: Inflate, j: Job, zlibs: seq<seq<Chunk>>, ctl: nat, data: seq<Byte>): Result
    requires |zlibs| == 4
  {
    var zs := ResetStreams(zlibs, ByteAt(data, 12));
    if ctl / 4 % 2 == 0 then UdpCopyFilter(z, j, zs, ctl % 4, data, 13)
    else if |data| <= 13 || data[13] > 1 then Result(Threw, zs, [])
    else if data[13] == 0 then UdpCopyFilter(z, j, zs, ctl % 4, data, 14)
    else UdpPaletteFilter(z, j, zs, ctl % 4, data)
  }

  /** Bytes 13 to 15 are the colour; a short datagram leaves its last components undefined. */
  function UdpFill(j: Job, data: seq<Byte>): Call {
    if |data| >= 16 then Fill(j.area, Some(Color(data[13], data[14], data[15])), j.frameId)
    else PartFill(j.area, if |data| > 13 then data[13..] else [], j.frameId)
  }

  /** One call of the UDP decoder's `decodeRect`. */
  function UdpDecodeRect(z: Inflate, j: Job, zlibs: seq<seq<Chunk>>, data: seq<Byte>): Result
    requires |zlibs| == 4
  {
    var ctl := ByteAt(data, 12) / 16;
    if ctl == 8 then
      Result(Drawn, zlibs, [UdpFill(j, data)])
    else if ctl == 9 || ctl == 11 then
      var file := UdpReadData(data, 13);
      if file.None? then Result(Dropped, zlibs, [])
      else Result(Drawn, zlibs, [ImageRect(j.area, if ctl == 9 then Jpeg else Webp, file.value, j.frameId)])
    else if ctl == 10 then Result(Dropped, zlibs, [])
    else if ctl < 8 then UdpBasicRect(z, j, zlibs, ctl, data)
    else Result(Threw, zlibs, [])
  }

  // ---- agreement with the stream decoder

  lemma DataInDatagram(front: seq<Byte>, file: seq<Byte>)
    requires 2 <= |file| < MAX_LENGTH
    ensures UdpReadData(front + EncodeData(file), |front|) == Some(file)
  {
    var len := EncodeLength(|file|);
    var all := front + EncodeData(file);
    assert all == front + len + file;
    assert all[|front| + |len|..] == file;
    assert all[|front|] == len[0];
  }

  lemma BodyInDatagram(z: Inflate, zlibs: seq<seq<Chunk>>, stream: nat, front: seq<Byte>, body: Body, pixels: seq<Byte>)
    requires stream < |zlibs| && LegalBody(body, |pixels|)
    requires body.Deflated? ==> z(zlibs[stream], Chunk(body.input, |pixels|)) == Some(pixels)
    ensures UdpPixelData(z, zlibs, stream, |pixels|, front + EncodeBody(body, pixels), |front|)
         == UdpPixels(Drawn, pixels,
                   if body.Plain? then zlibs
                   else zlibs[stream := zlibs[stream] + [Chunk(body.input, |pixels|)]])
  {
    if body.Plain? {
      assert (front + pixels)[|front|..] == pixels;
    } else {
      DataInDatagram(front, body.input);
    }
  }

  lemma TrueColorInDatagram(z: Inflate, j: Job, zlibs: seq<seq<Chunk>>, r: Rect, data: seq<Byte>, first: seq<Byte>)
    requires r.TrueColor? && LegalRect(r, j.area.w, j.area.h) && |zlibs| == 4
    requires |first| == 13 && data == first + EncodePayload(r, j.area.w, j.area.h)
    requires Inflates(z, ResetStreams(zlibs, first[12]), r, j.area.w, j.area.h)
    ensures UdpBasicRect(z, j, zlibs, Control(r), data)
         == Result(Drawn, ZlibsAfter(r, ResetStreams(zlibs, first[12]), j.area.w, j.area.h), [Meaning(j, r)])
  {
    hide UdpPixelData, CopyPixels, Rgb, EncodeBody, ResetStreams, Padded;
    var w, h := j.area.w, j.area.h;
    var pixels := PixelBytes(r, w, h);
    var front := if r.named then first + [0] else first;
    assert data == front + EncodeBody(r.body, pixels);
    assert data[12] == first[12];
    assert w * h * 3 == |pixels| > 0;
    BodyInDatagram(z, ResetStreams(zlibs, first[12]), r.stream, front, r.body, pixels);
    RgbUnpacks(r.pixels);
  }

  lemma AnyIndexedInDatagram(z: Inflate, j: Job, zlibs: seq<seq<Chunk>>, stream: nat, colors: seq<Color>, body: Body,
                             data: seq<Byte>, first: seq<Byte>)
    requires |zlibs| == 4 && |first| == 13
    requires AnyIndexed(z, ResetStreams(zlibs, first[12]), j.area.w, j.area.h, stream, colors, body, data)
    ensures UdpBasicRect(z, j, zlibs, stream + 4, first + IndexedPayload(colors, body, data))
         == DatagramIndexed(j, ResetStreams(zlibs, first[12]), stream, colors, body, data)
  {
    hide Rgb, EncodeBody, ResetStreams, IndexedRow, IndexedPixels, UdpPaletteFilter, PaletteBytes, DatagramIndexed;
    var front := first + [1] + PaletteBytes(colors);
    Regroup(first, [1], PaletteBytes(colors), EncodeBody(body, data));
    FrontOfPalette(first, PaletteBytes(colors));
    PaletteInDatagram(z, j, ResetStreams(zlibs, first[12]), stream, colors, body, data, front);
    var all := front + EncodeBody(body, data);
    assert all[12] == first[12] && all[13] == 1 && |all| > 13;
  }

  lemma FrontOfPalette(first: seq<Byte>, palette: seq<Byte>)
    requires |first| == 13 && |palette| >= 1
    ensures var front := first + [1] + palette;
      front[12] == first[12] && front[13] == 1 && front[14] == palette[0] && front[15..] == palette[1..]
  {
  }

  /** What the UDP decoder, whose palette is the one just sent, makes of it. */
  ghost function DatagramIndexed(j: Job, zs: seq<seq<Chunk>>, stream: nat, colors: seq<Color>, body: Body,
                                 data: seq<Byte>): Result
    requires stream < |zs| && |data| == IndexedRow(|colors|, j.area.w) * j.area.h
  {
    Result(Drawn, BodyZlibs(zs, stream, body, |data|),
           [Blit(j.area, IndexedPixels(data, Rgb(colors), |colors|, j.area.w, j.area.h), j.frameId)])
  }

  lemma PaletteInDatagram(z: Inflate, j: Job, zs: seq<seq<Chunk>>, stream: nat, colors: seq<Color>, body: Body,
                          data: seq<Byte>, front: seq<Byte>)
    requires AnyIndexed(z, zs, j.area.w, j.area.h, stream, colors, body, data)
    requires |front| == 15 + 3 * |colors| && front[14] == |colors| - 1 && front[15..] == Rgb(colors)
    ensures UdpPaletteFilter(z, j, zs, stream, front + EncodeBody(body, data))
         == DatagramIndexed(j, zs, stream, colors, body, data)
  {
    hide UdpPixelData, Rgb, EncodeBody, Padded, IndexedRow, MonoPixels, PalettePixels;
    var n, all := |colors|, front + EncodeBody(body, data);
    assert all[14] == n - 1;
    assert SliceFrom(all, 15)[..3 * n] == front[15..] && Slice(all, 15, 3 * n) == Rgb(colors);
    BodyInDatagram(z, zs, stream, front, body, data);
  }

  lemma IndexedInDatagram(z: Inflate, j: Job, zlibs: seq<seq<Chunk>>, r: Rect, data: seq<Byte>, first: seq<Byte>)
    requires r.Indexed? && LegalRect(r, j.area.w, j.area.h) && |zlibs| == 4
    requires |first| == 13 && data == first + EncodePayload(r, j.area.w, j.area.h)
    requires Inflates(z, ResetStreams(zlibs, first[12]), r, j.area.w, j.area.h)
    ensures UdpBasicRect(z, j, zlibs, Control(r), data)
         == Result(Drawn, ZlibsAfter(r, ResetStreams(zlibs, first[12]), j.area.w, j.area.h), [Meaning(j, r)])
  {
    hide UdpBasicRect, PixelBytes, Rgb, EncodeBody, ResetStreams, IndexedRow, IndexedPixels;
    var w, h := j.area.w, j.area.h;
    IndexedSizePositive(|r.colors|, w, h);
    PayloadIsIndexed(r, w, h);
    hide EncodePayload, IndexedPayload;
    AnyIndexedInDatagram(z, j, zlibs, r.stream, r.colors, r.body, IndexedBytes(r, w, h), first);
    IndexedReads(r.colors, r.indices, [], w, h);
    assert Rgb(r.colors) + [] == Rgb(r.colors);
  }

  lemma BasicInDatagram(z: Inflate, j: Job, zlibs: seq<seq<Chunk>>, data: seq<Byte>, ctl: nat)
    requires |zlibs| == 4 && |data| > 12 && data[12] / 16 == ctl < 8
    ensures UdpDecodeRect(z, j, zlibs, data) == UdpBasicRect(z, j, zlibs, ctl, data)
  {
    hide UdpBasicRect;
  }

  lemma SolidInDatagram(z: Inflate, j: Job, zlibs: seq<seq<Chunk>>, r: Rect, data: seq<Byte>, first: seq<Byte>)
    requires r.Solid? && |zlibs| == 4 && |first| == 13 && first[12] / 16 == 8
    requires LegalRect(r, j.area.w, j.area.h) && data == first + EncodePayload(r, j.area.w, j.area.h)
    ensures UdpDecodeRect(z, j, zlibs, data) == Result(Drawn, zlibs, [Meaning(j, r)])
  {
    assert data[12] == first[12];
  }

  lemma PictureInDatagram(z: Inflate, j: Job, zlibs: seq<seq<Chunk>>, r: Rect, data: seq<Byte>, first: seq<Byte>)
    requires r.Picture? && |zlibs| == 4 && |first| == 13 && first[12] / 16 == Control(r)
    requires LegalRect(r, j.area.w, j.area.h) && data == first + EncodePayload(r, j.area.w, j.area.h)
    ensures UdpDecodeRect(z, j, zlibs, data) == Result(Drawn, zlibs, [Meaning(j, r)])
  {
    assert data[12] == first[12];
    DataInDatagram(first, r.file);
    hide EncodeData, UdpReadData;
  }

  /** The datagram up to and including the control byte. */
  ghost function Front(header: seq<Byte>, p: Packet, w: nat, h: nat): (f: seq<Byte>)
    requires |header| == HEADER && Legal(p, w, h)
    ensures |f| == 13 && f[12] == Control(p.rect) * 16 + p.resets && f[12] / 16 == Control(p.rect)
  {
    header + [Control(p.rect) * 16 + p.resets]
  }

  lemma FirstByte(header: seq<Byte>, p: Packet, w: nat, h: nat)
    requires |header| == HEADER && Legal(p, w, h)
    ensures var data := header + Encode(p, w, h);
      data == Front(header, p, w, h) + EncodePayload(p.rect, w, h) && |data| > 12 && data[12] == Front(header, p, w, h)[12]
    ensures if p.rect.TrueColor? || p.rect.Indexed? then Control(p.rect) < 8 else p.rect.Solid? ==> Control(p.rect) == 8
  {
    hide EncodePayload;
    assert (header + Encode(p, w, h))[12] == Encode(p, w, h)[0];
  }

  lemma FillOrPictureDecodes(z: Inflate, j: Job, zlibs: seq<seq<Chunk>>, header: seq<Byte>, p: Packet)
    requires |header| == HEADER && |zlibs| == 4 && Legal(p, j.area.w, j.area.h)
    requires p.rect.Solid? || p.rect.Picture?
    ensures UdpDecodeRect(z, j, zlibs, header + Encode(p, j.area.w, j.area.h))
         == Result(Drawn, zlibs, [Meaning(j, p.rect)])
  {
    var first := Front(header, p, j.area.w, j.area.h);
    var data := header + Encode(p, j.area.w, j.area.h);
    FirstByte(header, p, j.area.w, j.area.h);
    hide UdpDecodeRect, Encode, EncodePayload, Front, Legal, Control;
    if p.rect.Solid? {
      SolidInDatagram(z, j, zlibs, p.rect, data, first);
    } else {
      PictureInDatagram(z, j, zlibs, p.rect, data, first);
    }
  }

  lemma PixelsDecode(z: Inflate, j: Job, zlibs: seq<seq<Chunk>>, header: seq<Byte>, p: Packet)
    requires |header| == HEADER && |zlibs| == 4 && Legal(p, j.area.w, j.area.h)
    requires p.rect.TrueColor? || p.rect.Indexed?
    requires Inflates(z, ResetStreams(zlibs, p.resets), p.rect, j.area.w, j.area.h)
    ensures UdpDecodeRect(z, j, zlibs, header + Encode(p, j.area.w, j.area.h))
         == Result(Drawn, ZlibsAfter(p.rect, ResetStreams(zlibs, p.resets), j.area.w, j.area.h), [Meaning(j, p.rect)])
  {
    var first := Front(header, p, j.area.w, j.area.h);
    var data := header + Encode(p, j.area.w, j.area.h);
    FirstByte(header, p, j.area.w, j.area.h);
    LowBits(zlibs, Control(p.rect), p.resets);
    assert LegalRect(p.rect, j.area.w, j.area.h) && ResetStreams(zlibs, first[12]) == ResetStreams(zlibs, p.resets);
    hide *;
    BasicInDatagram(z, j, zlibs, data, Control(p.rect));
    if p.rect.TrueColor? {
      TrueColorInDatagram(z, j, zlibs, p.rect, data, first);
    } else {
      IndexedInDatagram(z, j, zlibs, p.rect, data, first);
    }
  }

  /** A datagram with one legal rectangle in it draws that rectangle's meaning. */
  lemma DatagramDecodes(z: Inflate, j: Job, zlibs: seq<seq<Chunk>>, header: seq<Byte>, p: Packet)
    requires |header| == HEADER && |zlibs| == 4 && Legal(p, j.area.w, j.area.h)
    requires Inflates(z, ResetStreams(zlibs, p.resets), p.rect, j.area.w, j.area.h)
    ensures UdpDecodeRect(z, j, zlibs, header + Encode(p, j.area.w, j.area.h))
         == Result(Drawn,
                   if p.rect.TrueColor? || p.rect.Indexed?
                   then ZlibsAfter(p.rect, ResetStreams(zlibs, p.resets), j.area.w, j.area.h) else zlibs,
                   [Meaning(j, p.rect)])
  {
    hide UdpDecodeRect, Encode, Inflates, ResetStreams, ZlibsAfter, Meaning, LegalRect;
    if p.rect.TrueColor? || p.rect.Indexed? {
      PixelsDecode(z, j, zlibs, header, p);
    } else {
      FillOrPictureDecodes(z, j, zlibs, header, p);
    }
  }

  /**
   The two implementations agree: from equal zlib streams, a legal rectangle makes the same call
   over UDP as over the stream, whatever follows it there. The streams agree afterwards as well,
   except that over UDP a fill or a picture resets none.
   */
  lemma UdpAgreesWithTight(z: Inflate, j: Job, s: State, header: seq<Byte>, p: Packet, tail: seq<Byte>)
    requires |header| == HEADER && s.Idle() && Legal(p, j.area.w, j.area.h)
    requires Inflates(z, ResetStreams(s.zlibs, p.resets), p.rect, j.area.w, j.area.h)
    ensures var bytes := Encode(p, j.area.w, j.area.h);
      var u := UdpDecodeRect(z, j, s.zlibs, header + bytes);
      var t := TightFormat.DecodeRect(z, j, s, bytes + tail);
      && u.calls == t.calls
      && (u.zlibs == t.state.zlibs
          <==> p.rect.TrueColor? || p.rect.Indexed? || ResetStreams(s.zlibs, p.resets) == s.zlibs)
  {
    hide UdpDecodeRect, TightFormat.DecodeRect, Encode, Meaning, ResetStreams;
    DatagramDecodes(z, j, s.zlibs, header, p);
    RectDecodes(z, j, p, s, tail);
  }

  /** A fill that asks for a reset of stream 0, which has data in it: over UDP it stays as it was. */
  lemma FillResetsNothing(z: Inflate, j: Job, s: State, header: seq<Byte>, c: Color, tail: seq<Byte>)
    requires |header| == HEADER && s.Idle() && s.zlibs[0] != [] && j.area.w * j.area.h > 0
    ensures var bytes := Encode(Packet(1, Solid(c)), j.area.w, j.area.h);
      var u := UdpDecodeRect(z, j, s.zlibs, header + bytes);
      var t := TightFormat.DecodeRect(z, j, s, bytes + tail);
      && u.calls == t.calls == [Fill(j.area, Some(c), j.frameId)]
      && u.zlibs == s.zlibs && t.state.zlibs == s.zlibs[0 := []]
  {
    var p := Packet(1, Solid(c));
    ResetsFirst(s.zlibs);
    hide UdpDecodeRect, TightFormat.DecodeRect, Encode, ResetStreams;
    DatagramDecodes(z, j, s.zlibs, header, p);
    RectDecodes(z, j, p, s, tail);
  }

  lemma ResetsFirst(zlibs: seq<seq<Chunk>>)
    requires |zlibs| == 4
    ensures ResetStreams(zlibs, 1) == zlibs[0 := []]
  {
    assert Pow2(0) == 1 && Pow2(1) == 2 && Pow2(2) == 4 && Pow2(3) == 8;
  }

  // ---- indices past the palette

  /** The first byte of a palette rectangle. */
  ghost function IndexedControl(stream: nat, resets: nat): (b: Byte)
    requires stream < 4 && resets < 16
    ensures b / 16 == stream + 4
  {
    (stream + 4) * 16 + resets
  }

  /** The whole rectangle, its pixel bytes arbitrary. */
  ghost function EncodeAnyIndexed(stream: nat, resets: nat, colors: seq<Color>, body: Body, data: seq<Byte>): seq<Byte>
    requires stream < 4 && resets < 16 && 1 <= |colors| <= 256 && LegalBody(body, |data|)
  {
    [IndexedControl(stream, resets)] + IndexedPayload(colors, body, data)
  }

  lemma ResetBits(zlibs: seq<seq<Chunk>>, stream: nat, resets: nat)
    requires |zlibs| == 4 && stream < 4 && resets < 16
    ensures ResetStreams(zlibs, IndexedControl(stream, resets)) == ResetStreams(zlibs, resets)
  {
    LowBits(zlibs, stream + 4, resets);
  }

  lemma StreamDecodesIndexed(z: Inflate, j: Job, s: State, stream: nat, resets: nat, colors: seq<Color>, body: Body,
                             data: seq<Byte>, tail: seq<Byte>)
    requires s.Idle() && resets < 16
    requires AnyIndexed(z, ResetStreams(s.zlibs, resets), j.area.w, j.area.h, stream, colors, body, data)
    ensures TightFormat.DecodeRect(z, j, s, EncodeAnyIndexed(stream, resets, colors, body, data) + tail)
         == StreamIndexed(j, stream, colors, body, data, s.(zlibs := ResetStreams(s.zlibs, resets)), tail)
  {
    hide IndexedControl, IndexedPayload, ResetStreams, Dispatch, IndexedPixels, Rgb, LegalBody, IndexedRow, BodyZlibs;
    var first := IndexedControl(stream, resets);
    var rest := IndexedPayload(colors, body, data) + tail;
    var all := EncodeAnyIndexed(stream, resets, colors, body, data) + tail;
    assert all == [first] + rest && all[0] == first && all[1..] == rest;
    ResetBits(s.zlibs, stream, resets);
    var begun := s.(ctl := Some(stream + 4), zlibs := ResetStreams(s.zlibs, resets));
    AnyIndexedReads(z, j, stream, colors, body, data, begun, tail);
  }

  lemma DatagramDecodesIndexed(z: Inflate, j: Job, zlibs: seq<seq<Chunk>>, stream: nat, resets: nat,
                               colors: seq<Color>, body: Body, data: seq<Byte>, header: seq<Byte>)
    requires |header| == HEADER && |zlibs| == 4 && resets < 16
    requires AnyIndexed(z, ResetStreams(zlibs, resets), j.area.w, j.area.h, stream, colors, body, data)
    ensures UdpDecodeRect(z, j, zlibs, header + EncodeAnyIndexed(stream, resets, colors, body, data))
         == DatagramIndexed(j, ResetStreams(zlibs, resets), stream, colors, body, data)
  {
    var first := header + [IndexedControl(stream, resets)];
    var all := header + EncodeAnyIndexed(stream, resets, colors, body, data);
    assert all == first + IndexedPayload(colors, body, data);
    assert all[12] == first[12] == IndexedControl(stream, resets) && |first| == 13;
    ResetBits(zlibs, stream, resets);
    hide IndexedControl, IndexedPayload, ResetStreams, UdpBasicRect, UdpDecodeRect, DatagramIndexed, LegalBody,
      IndexedRow;
    AnyIndexedInDatagram(z, j, zlibs, stream, colors, body, data, first);
    BasicInDatagram(z, j, zlibs, all, stream + 4);
  }

  lemma LookupPastPalette(sent: seq<Byte>, palette: seq<Byte>, k: nat)
    requires |sent| % 3 == 0 && |sent| <= |palette|
    ensures PaletteColor(sent + palette[|sent|..], k) == PaletteColor(sent, k)
       <==> k < |sent| / 3 || PaletteColor(palette, k) == BLACK
  {
  }

  /** Every index is in the palette, or names an entry that an earlier palette left black. */
  ghost predicate IndicesAgree(data: seq<Byte>, n: nat, palette: seq<Byte>) {
    forall k :: 0 <= k < |data| ==> data[k] as int < n || PaletteColor(palette, data[k]) == BLACK
  }

  lemma FewerBytesThanPixels(n: nat, w: nat, h: nat)
    requires IndexedRow(n, w) * h > 0
    ensures IndexedRow(n, w) * h <= w * h
  {
    if w == 0 {
      assert IndexedRow(n, w) == 0;
    }
    MulLe(IndexedRow(n, w), w, h);
  }

  lemma PixelsAgreeIff(data: seq<Byte>, colors: seq<Color>, palette: seq<Byte>, n: nat)
    requires |data| <= n && 3 * |colors| <= |palette|
    ensures PalettePixels(data, Rgb(colors) + palette[3 * |colors|..], n) == PalettePixels(data, Rgb(colors), n)
       <==> IndicesAgree(data, |colors|, palette)
  {
    hide Rgb, PaletteColor, Below;
    var kept := Rgb(colors) + palette[3 * |colors|..];
    forall k | 0 <= k < |data|
      ensures PaletteColor(kept, data[k]) == PaletteColor(Rgb(colors), data[k])
         <==> data[k] as int < |colors| || PaletteColor(palette, data[k]) == BLACK
    {
      LookupPastPalette(Rgb(colors), palette, data[k]);
    }
    var a, b := PalettePixels(data, kept, n), PalettePixels(data, Rgb(colors), n);
    assert forall k :: 0 <= k < |data| ==> a[k] == PaletteColor(kept, data[k]) && b[k] == PaletteColor(Rgb(colors), data[k]);
    assert forall k :: |data| <= k < n ==> a[k] == b[k];
    if a == b {
      assert forall k :: 0 <= k < |data| ==> a[k] == b[k];
    }
  }

  lemma BitsAgree(data: seq<Byte>, colors: seq<Color>, palette: seq<Byte>, w: nat, h: nat)
    requires |colors| == 2 && |palette| >= 6 && |data| == RowBytes(w) * h
    ensures MonoPixels(data, Rgb(colors) + palette[6..], w, h) == MonoPixels(data, Rgb(colors), w, h)
  {
    hide Rgb, PaletteColor, MonoBit, RowBytes;
    LookupPastPalette(Rgb(colors), palette, 0);
    LookupPastPalette(Rgb(colors), palette, 1);
    forall k | 0 <= k < w * h
      ensures MonoPixel(data, Rgb(colors) + palette[6..], w, h, k) == MonoPixel(data, Rgb(colors), w, h, k)
    {
      RowAndColumn(w, h, k);
      BitIsSmall(data, w, h, k % w, k / w);
    }
    hide MonoPixel;
  }

  lemma BitIsSmall(data: seq<Byte>, w: nat, h: nat, x: nat, y: nat)
    requires |data| == RowBytes(w) * h && x < w && y < h
    ensures MonoBit(data, w, h, x, y) == 0 || MonoBit(data, w, h, x, y) == 1
  {
  }

  /**
   Beyond legal rectangles the two differ. Over the stream a pixel whose index lies past the
   palette takes what an earlier palette left there, over UDP it is black. So on a palette
   rectangle with arbitrary pixel bytes they make the same call exactly if every index is in the
   palette or names an entry left black, or the palette has two colours: then pixels are bits.
   */
  lemma IndexPastPalette(z: Inflate, j: Job, s: State, stream: nat, resets: nat, colors: seq<Color>, body: Body,
                         data: seq<Byte>, header: seq<Byte>, tail: seq<Byte>)
    requires |header| == HEADER && s.Idle() && resets < 16
    requires AnyIndexed(z, ResetStreams(s.zlibs, resets), j.area.w, j.area.h, stream, colors, body, data)
    ensures var bytes := EncodeAnyIndexed(stream, resets, colors, body, data);
      UdpDecodeRect(z, j, s.zlibs, header + bytes).calls == TightFormat.DecodeRect(z, j, s, bytes + tail).calls
      <==> |colors| == 2 || IndicesAgree(data, |colors|, s.palette)
  {
    FewerBytesThanPixels(|colors|, j.area.w, j.area.h);
    PixelsAgreeIff(data, colors, s.palette, j.area.w * j.area.h);
    if |colors| == 2 {
      BitsAgree(data, colors, s.palette, j.area.w, j.area.h);
    }
    hide MonoPixels, UdpDecodeRect, TightFormat.DecodeRect, EncodeAnyIndexed, ResetStreams, Rgb, PalettePixels,
      IndicesAgree, BodyZlibs;
    StreamDecodesIndexed(z, j, s, stream, resets, colors, body, data, tail);
    DatagramDecodesIndexed(z, j, s.zlibs, stream, resets, colors, body, data, header);
  }

  /** A rectangle of one pixel that leaves a fourth colour behind, and one of three colours that uses it. */
  lemma LeftoverColorShows(z: Inflate, j: Job, s: State, header: seq<Byte>, left: Color)
    requires |header| == HEADER && s.Idle() && j.area.w == j.area.h == 1 && left != BLACK
    ensures var first := EncodeAnyIndexed(0, 0, [BLACK, BLACK, BLACK, left], Plain, [0]);
      var second := EncodeAnyIndexed(0, 0, [BLACK, BLACK, BLACK], Plain, [3]);
      var o := TightFormat.DecodeRect(z, j, s, first);
      && o.status == Done && o.rest == [] && o.state.Idle()
      && UdpDecodeRect(z, j, o.state.zlibs, header + second).calls != TightFormat.DecodeRect(z, j, o.state, second).calls
  {
    var four, three := [BLACK, BLACK, BLACK, left], [BLACK, BLACK, BLACK];
    var first, second := EncodeAnyIndexed(0, 0, four, Plain, [0]), EncodeAnyIndexed(0, 0, three, Plain, [3]);
    assert IndexedRow(4, 1) * 1 == 1 && IndexedRow(3, 1) * 1 == 1;
    assert first + [] == first && second + [] == second;
    StreamDecodesIndexed(z, j, s, 0, 0, four, Plain, [0], []);
    var now := StreamIndexed(j, 0, four, Plain, [0], s.(zlibs := ResetStreams(s.zlibs, 0)), []).state;
    PaletteReads(four, s.palette[12..], 3);
    assert PaletteColor(now.palette, 3) == left;
    assert !IndicesAgree([3], 3, now.palette) by {
      assert [3][0] == 3;
    }
    hide EncodeAnyIndexed, UdpDecodeRect, TightFormat.DecodeRect, StreamIndexed, IndicesAgree, Rgb, PaletteColor;
    IndexPastPalette(z, j, now, 0, 0, three, Plain, [3], header, []);
  }

  // ---- datagrams cut short, and refused

  /** A datagram that ends before the control byte is read as a copy of pixels that did not come. */
  lemma HeaderOnly(z: Inflate, j: Job, zlibs: seq<seq<Chunk>>, data: seq<Byte>)
    requires |zlibs| == 4 && |data| <= HEADER
    ensures var n := j.area.w * j.area.h;
      UdpDecodeRect(z, j, zlibs, data)
      == if n == 0 then Result(Drawn, zlibs, [])
         else if n < 4 then Result(Drawn, zlibs, [Blit(j.area, seq(n, _ => BLACK), j.frameId)])
         else Result(Dropped, zlibs, [])
  {
    NoReset(zlibs);
    assert SliceFrom(data, 13) == [] && Slice(data, 13, j.area.w * j.area.h * 3) == [];
    BlackPixels([], j.area.w * j.area.h);
    hide ResetStreams, CopyPixels, Padded;
  }

  lemma NoReset(zlibs: seq<seq<Chunk>>)
    requires |zlibs| == 4
    ensures ResetStreams(zlibs, 0) == zlibs
  {
    FourBits(0);
  }

  lemma BlackPixels(data: seq<Byte>, n: nat)
    requires data == []
    ensures CopyPixels(Padded(data, n * 3)) == seq(n, _ => BLACK)
  {
  }

  /** What a fill makes of as much of its colour as has come. */
  lemma ShortFill(z: Inflate, j: Job, zlibs: seq<seq<Chunk>>, header: seq<Byte>, resets: nat, color: Color, n: nat)
    requires |zlibs| == 4 && |header| == HEADER && resets < 16 && n <= 3
    ensures var components := [color.r, color.g, color.b];
      UdpDecodeRect(z, j, zlibs, header + [8 * 16 + resets] + components[..n])
      == Result(Drawn, zlibs, [if n == 3 then Fill(j.area, Some(color), j.frameId)
                               else PartFill(j.area, components[..n], j.frameId)])
  {
    var components := [color.r, color.g, color.b];
    var data := header + [8 * 16 + resets] + components[..n];
    assert data[12] == 8 * 16 + resets && data[13..] == components[..n];
    if n == 3 {
      assert data[13] == color.r && data[14] == color.g && data[15] == color.b;
    }
  }

  /** Component `c` of pixel `k`, or 0 if its byte has not come. */
  function Come(part: seq<Byte>, k: nat): Color {
    Color(ByteAt(part, 3 * k), ByteAt(part, 3 * k + 1), ByteAt(part, 3 * k + 2))
  }

  /** Uncompressed true-colour pixels are drawn however few have come, the missing bytes as 0. */
  lemma ShortTrueColor(z: Inflate, j: Job, zlibs: seq<seq<Chunk>>, header: seq<Byte>, stream: nat, resets: nat,
                       named: bool, part: seq<Byte>)
    requires |zlibs| == 4 && |header| == HEADER && stream < 4 && resets < 16
    requires 0 < 3 * (j.area.w * j.area.h) < 12 && |part| <= 3 * (j.area.w * j.area.h)
    ensures var n := j.area.w * j.area.h;
      UdpDecodeRect(z, j, zlibs,
                    header + [(stream + if named then 4 else 0) * 16 + resets] + (if named then [0] else []) + part)
      == Result(Drawn, ResetStreams(zlibs, resets),
                [Blit(j.area, seq(n, k requires 0 <= k < n => Come(part, k)), j.frameId)])
  {
    var ctl := stream + if named then 4 else 0;
    var front := header + [ctl * 16 + resets] + if named then [0] else [];
    var data, n := front + part, j.area.w * j.area.h;
    assert data[12] == ctl * 16 + resets && data[|front|..] == part;
    assert named ==> data[13] == 0;
    ResetsByLowBits(zlibs, ctl, resets);
    CopiedAsCome(part, n);
    assert SliceFrom(data, |front|) == part && Slice(data, |front|, n * 3) == part by {
      assert part[..|part|] == part;
    }
    var zs := ResetStreams(zlibs, resets);
    assert UdpPixelData(z, zs, ctl % 4, n * 3, data, |front|) == UdpPixels(Drawn, part, zs);
    hide ResetStreams, CopyPixels, Padded, Slice, SliceFrom;
    assert UdpBasicRect(z, j, zlibs, ctl, data) == UdpCopyFilter(z, j, zs, ctl % 4, data, |front|);
  }

  lemma ResetsByLowBits(zlibs: seq<seq<Chunk>>, ctl: nat, resets: nat)
    requires |zlibs| == 4 && ctl < 16 && resets < 16
    ensures ResetStreams(zlibs, ctl * 16 + resets) == ResetStreams(zlibs, resets)
  {
    hide Bit;
    FourBits(ctl * 16 + resets);
    FourBits(resets);
    LowFour(ctl, resets);
  }

  lemma LowFour(ctl: nat, resets: nat)
    ensures var x := ctl * 16 + resets;
      x % 2 == resets % 2 && x / 2 % 2 == resets / 2 % 2 && x / 4 % 2 == resets / 4 % 2 && x / 8 % 2 == resets / 8 % 2
  {
    var q1 := resets / 2;
    var q2 := q1 / 2;
    var q3 := q2 / 2;
    Halves(ctl * 16 + resets);
    Halves(resets);
    Half(8 * ctl + q1, resets % 2);
    Half(4 * ctl + q2, q1 % 2);
    Half(2 * ctl + q3, q2 % 2);
    Half(ctl + q3 / 2, q3 % 2);
  }

  lemma CopiedAsCome(part: seq<Byte>, n: nat)
    requires |part| <= 3 * n
    ensures CopyPixels(Padded(part, n * 3)) == seq(n, k requires 0 <= k < n => Come(part, k))
  {
  }

  /** A picture is handed on with as much of its file as has come, if two bytes have come behind the control byte. */
  lemma ShortPicture(z: Inflate, j: Job, zlibs: seq<seq<Chunk>>, ctl: nat, file: seq<Byte>, header: seq<Byte>, n: nat)
    requires |header| == HEADER && |zlibs| == 4 && (ctl == 9 || ctl == 11) && 2 <= |file| < MAX_LENGTH
    requires n <= |EncodeData(file)|
    ensures var got, len := EncodeData(file)[..n], |EncodeLength(|file|)|;
      UdpDecodeRect(z, j, zlibs, header + [ctl * 16] + got)
      == if n < 2 then Result(Dropped, zlibs, [])
         else Result(Drawn, zlibs, [ImageRect(j.area, if ctl == 9 then Jpeg else Webp,
                                              file[..if n < len then 0 else n - len], j.frameId)])
  {
    var len, got := EncodeLength(|file|), EncodeData(file)[..n];
    var front := header + [ctl * 16];
    var data := front + got;
    assert |front| == 13 && data[12] == ctl * 16;
    assert EncodeData(file) == len + file && 1 <= |len| <= 3;
    if n >= 2 {
      assert data[13] == len[0] && (|len| > 1 ==> data[14] == len[1]);
      if n >= |len| {
        assert got == len + file[..n - |len|];
        assert data[13 + |len|..] == file[..n - |len|];
      }
    }
    hide EncodeData;
  }

  /** A datagram that ends behind the palette filter: a few black pixels, or all of it goes to the library. */
  lemma PaletteNotCome(z: Inflate, j: Job, zlibs: seq<seq<Chunk>>, header: seq<Byte>, stream: nat, resets: nat)
    requires |zlibs| == 4 && |header| == HEADER && stream < 4 && resets < 16
    ensures var n, zs, data := j.area.w * j.area.h, ResetStreams(zlibs, resets), header + [(stream + 4) * 16 + resets, 1];
      var out := z(zs[stream], Chunk(data, n));
      UdpDecodeRect(z, j, zlibs, data)
      == if n == 0 then Result(Drawn, zs, [])
         else if n < 12 then Result(Drawn, zs, [Blit(j.area, seq(n, _ => BLACK), j.frameId)])
         else if out.Some? && |out.value| == n then
           Result(Drawn, zs[stream := zs[stream] + [Chunk(data, n)]],
                  [Blit(j.area, PalettePixels(out.value, [], n), j.frameId)])
         else Result(Threw, zs, [])
  {
    hide ResetStreams, UdpPaletteFilter;
    var ctl := stream + 4;
    var data := header + [ctl * 16 + resets, 1];
    assert data[12] == ctl * 16 + resets && data[13] == 1 && |data| == 14;
    ResetsByLowBits(zlibs, ctl, resets);
    CountNotCome(z, j, ResetStreams(zlibs, resets), stream, data);
  }

  lemma CountNotCome(z: Inflate, j: Job, zs: seq<seq<Chunk>>, stream: nat, data: seq<Byte>)
    requires |zs| == 4 && stream < 4 && |data| == 14
    ensures var n := j.area.w * j.area.h;
      var out := z(zs[stream], Chunk(data, n));
      UdpPaletteFilter(z, j, zs, stream, data)
      == if n == 0 then Result(Drawn, zs, [])
         else if n < 12 then Result(Drawn, zs, [Blit(j.area, seq(n, _ => BLACK), j.frameId)])
         else if out.Some? && |out.value| == n then
           Result(Drawn, zs[stream := zs[stream] + [Chunk(data, n)]],
                  [Blit(j.area, PalettePixels(out.value, [], n), j.frameId)])
         else Result(Threw, zs, [])
  {
    assert PalettePixels([], [], j.area.w * j.area.h) == seq(j.area.w * j.area.h, _ => BLACK);
    hide PalettePixels, MonoPixels;
  }

  /** What pixel `k` is, in column `x` of row `y`: a bit that has not come is 0, an index that has not is black. */
  function ShortPixel(colors: seq<Color>, part: seq<Byte>, w: nat, k: nat, x: nat, y: nat): Color
    requires |colors| > 0
  {
    if |colors| == 2 then colors[if MaskBit(part, y * ((w + 7) / 8) + x / 8, 7 - x % 8) then 1 else 0]
    else if k < |part| && part[k] as int < |colors| then colors[part[k]] else BLACK
  }

  predicate MaskBit(part: seq<Byte>, i: int, bit: nat) {
    0 <= i < |part| && Bit(part[i], bit)
  }

  /** The pixels that a palette and some of the pixel bytes give. */
  function ShortPixels(colors: seq<Color>, part: seq<Byte>, w: nat, h: nat): (px: seq<Color>)
    requires |colors| > 0
  {
    seq(w * h, k requires 0 <= k < w * h => if w == 0 then BLACK else ShortPixel(colors, part, w, k, k % w, k / w))
  }

  lemma ShortPixelsAre(colors: seq<Color>, part: seq<Byte>, w: nat, h: nat, size: nat)
    requires 1 <= |colors| <= 256 && size == IndexedRow(|colors|, w) * h && |part| <= size
    ensures |colors| == 2 ==> MonoPixels(Padded(part, size), Rgb(colors), w, h) == ShortPixels(colors, part, w, h)
    ensures |colors| != 2 ==> PalettePixels(part, Rgb(colors), w * h) == ShortPixels(colors, part, w, h)
  {
    hide Bit, PaletteColor, MonoPixels, PalettePixels, ShortPixels, Rgb, Padded, ShortPixel, MonoPixel;
    if |colors| == 2 {
      ShortMono(colors, part, w, h, size);
    } else {
      ShortBytes(colors, part, w, h);
    }
  }

  lemma ShortBytes(colors: seq<Color>, part: seq<Byte>, w: nat, h: nat)
    requires 1 <= |colors| <= 256 && |colors| != 2
    ensures PalettePixels(part, Rgb(colors), w * h) == ShortPixels(colors, part, w, h)
  {
    hide PaletteColor, Rgb;
    var px, short := PalettePixels(part, Rgb(colors), w * h), ShortPixels(colors, part, w, h);
    forall k | 0 <= k < w * h
      ensures px[k] == short[k]
    {
      RowAndColumn(w, h, k);
      if k < |part| {
        ShortLookup(colors, part[k]);
      }
    }
  }

  lemma ShortLookup(colors: seq<Color>, i: nat)
    ensures PaletteColor(Rgb(colors), i) == if i < |colors| then colors[i] else BLACK
  {
  }

  lemma ShortMono(colors: seq<Color>, part: seq<Byte>, w: nat, h: nat, size: nat)
    requires |colors| == 2 && size == RowBytes(w) * h && |part| <= size
    ensures MonoPixels(Padded(part, size), Rgb(colors), w, h) == ShortPixels(colors, part, w, h)
  {
    hide Bit, PaletteColor, MonoPixels, MonoPixel, Rgb, Padded, ShortPixel, RowBytes;
    var px, short := MonoPixels(Padded(part, size), Rgb(colors), w, h), ShortPixels(colors, part, w, h);
    forall k | 0 <= k < w * h
      ensures px[k] == short[k]
    {
      RowAndColumn(w, h, k);
      ShortMonoPixel(colors, part, w, h, k % w, k / w, k);
    }
  }

  lemma ShortMonoPixel(colors: seq<Color>, part: seq<Byte>, w: nat, h: nat, x: nat, y: nat, k: nat)
    requires |colors| == 2 && |part| <= RowBytes(w) * h && x < w && y < h && k == y * w + x < w * h
    ensures MonoPixels(Padded(part, RowBytes(w) * h), Rgb(colors), w, h)[k] == ShortPixel(colors, part, w, k, x, y)
  {
    hide Bit, PaletteColor, MonoPixels, Rgb;
    var data, i := Padded(part, RowBytes(w) * h), y * ((w + 7) / 8) + x / 8;
    MonoPixelAt(data, Rgb(colors), w, h, x, y);
    NoBits(7 - x % 8);
    ShortLookup(colors, 0);
    ShortLookup(colors, 1);
    assert data[i] == ByteAt(part, i);
  }

  lemma NoBits(k: nat)
    ensures !Bit(0, k)
  {
  }

  /** Uncompressed palette pixels are drawn however few have come behind the palette. */
  lemma ShortIndexed(z: Inflate, j: Job, zlibs: seq<seq<Chunk>>, header: seq<Byte>, stream: nat, resets: nat,
                     colors: seq<Color>, part: seq<Byte>)
    requires |zlibs| == 4 && |header| == HEADER && stream < 4 && resets < 16 && 1 <= |colors| <= 256
    requires |part| <= IndexedRow(|colors|, j.area.w) * j.area.h && 0 < IndexedRow(|colors|, j.area.w) * j.area.h < 12
    ensures UdpDecodeRect(z, j, zlibs, header + [(stream + 4) * 16 + resets] + [1] + PaletteBytes(colors) + part)
         == Result(Drawn, ResetStreams(zlibs, resets),
                   [Blit(j.area, ShortPixels(colors, part, j.area.w, j.area.h), j.frameId)])
  {
    hide ResetStreams, Rgb, PalettePixels, MonoPixels, Padded, IndexedRow, UdpPaletteFilter, PaletteBytes, ShortPixels,
      MaskBit;
    var ctl, palette := stream + 4, PaletteBytes(colors);
    var front := header + [ctl * 16 + resets] + [1] + palette;
    var data := front + part;
    FrontOfPalette(header + [ctl * 16 + resets], palette);
    assert data[12] == front[12] == ctl * 16 + resets && data[13] == 1 && |data| > 14;
    ResetsByLowBits(zlibs, ctl, resets);
    ShortPaletteFilter(z, j, ResetStreams(zlibs, resets), stream, colors, front, part);
  }

  lemma ShortPaletteFilter(z: Inflate, j: Job, zs: seq<seq<Chunk>>, stream: nat, colors: seq<Color>, front: seq<Byte>,
                           part: seq<Byte>)
    requires |zs| == 4 && stream < 4 && 1 <= |colors| <= 256
    requires |front| == 15 + 3 * |colors| && front[14] == |colors| - 1 && front[15..] == Rgb(colors)
    requires |part| <= IndexedRow(|colors|, j.area.w) * j.area.h && 0 < IndexedRow(|colors|, j.area.w) * j.area.h < 12
    ensures UdpPaletteFilter(z, j, zs, stream, front + part)
         == Result(Drawn, zs, [Blit(j.area, ShortPixels(colors, part, j.area.w, j.area.h), j.frameId)])
  {
    hide Rgb, PalettePixels, MonoPixels, Padded, IndexedRow, ShortPixels;
    var n, data := |colors|, front + part;
    var size := IndexedRow(n, j.area.w) * j.area.h;
    ShortPixelsAre(colors, part, j.area.w, j.area.h, size);
    assert data[14] == n - 1;
    assert SliceFrom(data, 15)[..3 * n] == front[15..] && Slice(data, 15, 3 * n) == Rgb(colors);
    assert SliceFrom(data, 15 + 3 * n) == part && part[..|part|] == part && Slice(data, 15 + 3 * n, size) == part;
  }

  /** PNG rectangles are dropped; from control number 12 on, and with an unknown filter or none, the decoder throws. */
  lemma UdpRefuses(z: Inflate, j: Job, zlibs: seq<seq<Chunk>>, header: seq<Byte>, ctl: nat, resets: nat, rest: seq<Byte>)
    requires |zlibs| == 4 && |header| == HEADER && ctl < 16 && resets < 16
    ensures var r := UdpDecodeRect(z, j, zlibs, header + [ctl * 16 + resets] + rest);
      && (ctl == 10 ==> r == Result(Dropped, zlibs, []))
      && (ctl >= 12 ==> r == Result(Threw, zlibs, []))
      && (4 <= ctl < 8 && (rest == [] || rest[0] > 1) ==> r == Result(Threw, ResetStreams(zlibs, resets), []))
  {
    var data := header + [ctl * 16 + resets] + rest;
    assert data[12] == ctl * 16 + resets && (rest != [] ==> data[13] == rest[0]);
    ResetsByLowBits(zlibs, ctl, resets);
    hide ResetStreams;
  }

  // ---- short pictures

  ghost function EncodePicture(ctl: nat, file: seq<Byte>): seq<Byte>
    requires ctl < 16 && |file| < MAX_LENGTH
  {
    [ctl * 16] + EncodeData(file)
  }

  /**
   A picture of any length, JPEG or WebP, with enough bytes of what follows it for the stream
   decoder to go on: both make the same call exactly if it is not empty. An empty one is dropped
   over UDP, and drawn from the stream.
   */
  lemma EmptyPictureDropped(z: Inflate, j: Job, s: State, ctl: nat, file: seq<Byte>, header: seq<Byte>, tail: seq<Byte>)
    requires |header| == HEADER && s.Idle() && (ctl == 9 || ctl == 11) && |file| < MAX_LENGTH && |tail| >= 2
    ensures var u := UdpDecodeRect(z, j, s.zlibs, header + EncodePicture(ctl, file));
      var t := TightFormat.DecodeRect(z, j, s, EncodePicture(ctl, file) + tail);
      && t.calls == [ImageRect(j.area, if ctl == 9 then Jpeg else Webp, file, j.frameId)]
      && u.calls == (if file == [] then [] else t.calls)
      && (u.calls == t.calls <==> file != [])
  {
    PictureOverStream(z, j, s, ctl, file, tail);
    PictureOverUdp(z, j, s.zlibs, ctl, file, header);
    hide UdpDecodeRect, TightFormat.DecodeRect, EncodePicture;
  }

  lemma PictureOverStream(z: Inflate, j: Job, s: State, ctl: nat, file: seq<Byte>, tail: seq<Byte>)
    requires s.Idle() && (ctl == 9 || ctl == 11) && |file| < MAX_LENGTH && |tail| >= 2
    ensures TightFormat.DecodeRect(z, j, s, EncodePicture(ctl, file) + tail).calls
         == [ImageRect(j.area, if ctl == 9 then Jpeg else Webp, file, j.frameId)]
  {
    var rest := EncodeData(file) + tail;
    var all := EncodePicture(ctl, file) + tail;
    assert all == [ctl * 16] + rest && all[0] == ctl * 16 && all[1..] == rest;
    assert rest == EncodeLength(|file|) + (file + tail);
    LengthReads(|file|, file + tail);
    assert rest[|EncodeLength(|file|)|..] == file + tail;
    assert (file + tail)[..|file|] == file;
    hide EncodeLength, ResetStreams, LengthValue, LengthSize;
  }

  lemma PictureOverUdp(z: Inflate, j: Job, zlibs: seq<seq<Chunk>>, ctl: nat, file: seq<Byte>, header: seq<Byte>)
    requires |header| == HEADER && |zlibs| == 4 && (ctl == 9 || ctl == 11) && |file| < MAX_LENGTH
    ensures UdpDecodeRect(z, j, zlibs, header + EncodePicture(ctl, file)).calls
         == if file == [] then [] else [ImageRect(j.area, if ctl == 9 then Jpeg else Webp, file, j.frameId)]
  {
    var front := header + [ctl * 16];
    var all := header + EncodePicture(ctl, file);
    assert all == front + EncodeData(file) && all[12] == ctl * 16 && |front| == 13;
    if file == [] {
      assert EncodeData(file) == [0];
    } else if |file| == 1 {
      assert EncodeData(file) == [1] + file;
      assert all[13] == 1 && all[14..] == file;
    } else {
      DataInDatagram(front, file);
    }
    hide EncodeData;
  }

  // ---- the decoder as it runs

  class UDPDecoder {
    const inflate: Inflate
    var zlibs: seq<seq<Chunk>>
    var scratchBuffer: array<Byte>

    constructor (z: Inflate)
      ensures inflate == z && zlibs == [[], [], [], []] && fresh(scratchBuffer)
    {
      inflate := z;
      zlibs := [[], [], [], []];
      scratchBuffer := new Byte[0];
    }

    method DecodeDatagram(j: Job, data: seq<Byte>, display: CallLog) returns (status: UdpStatus)
      requires |zlibs| == 4
      modifies this, scratchBuffer, display
      ensures |zlibs| == 4 && (scratchBuffer == old(scratchBuffer) || fresh(scratchBuffer))
      ensures var r := UdpDecodeRect(inflate, j, old(zlibs), data);
        status == r.status && display.calls == old(display.calls) + r.calls && zlibs == r.zlibs
    {
      hide UdpBasicRect;
      var ctl := ByteAt(data, 12) / 16;
      if ctl == 8 {
        display.Record(UdpFill(j, data));
        return Drawn;
      } else if ctl == 9 || ctl == 11 {
        var file := UdpReadData(data, 13);
        if file.None? {
          return Dropped;
        }
        display.Record(ImageRect(j.area, if ctl == 9 then Jpeg else Webp, file.value, j.frameId));
        return Drawn;
      } else if ctl == 10 {
        return Dropped;
      } else if ctl < 8 {
        status := DecodeBasic(ctl, j, data, display);
      } else {
        return Threw;
      }
    }

    method DecodeBasic(ctl: nat, j: Job, data: seq<Byte>, display: CallLog) returns (status: UdpStatus)
      requires |zlibs| == 4
      modifies this, scratchBuffer, display
      ensures |zlibs| == 4 && (scratchBuffer == old(scratchBuffer) || fresh(scratchBuffer))
      ensures var r := UdpBasicRect(inflate, j, old(zlibs), ctl, data);
        status == r.status && display.calls == old(display.calls) + r.calls && zlibs == r.zlibs
    {
      hide UdpCopyFilter, UdpPaletteFilter;
      ResetZlibs(ByteAt(data, 12));
      if ctl / 4 % 2 == 0 {
        status := DecodeCopy(ctl % 4, j, data, 13, display);
      } else if |data| <= 13 || data[13] > 1 {
        status := Threw;
      } else if data[13] == 0 {
        status := DecodeCopy(ctl % 4, j, data, 14, display);
      } else {
        status := DecodePalette(ctl % 4, j, data, display);
      }
    }

    method ResetZlibs(flags: Byte)
      requires |zlibs| == 4
      modifies `zlibs
      ensures zlibs == ResetStreams(old(zlibs), flags)
    {
      var i := 0;
      while i < 4
        invariant 0 <= i <= 4 && |zlibs| == 4
        invariant forall k :: 0 <= k < 4 ==> zlibs[k] == if k < i && Bit(flags, k) then [] else old(zlibs[k])
      {
        if Bit(flags, i) {
          zlibs := zlibs[i := []];
        }
        i := i + 1;
      }
    }

    method DecodeCopy(stream: nat, j: Job, data: seq<Byte>, at: nat, display: CallLog) returns (status: UdpStatus)
      requires |zlibs| == 4 && stream < 4
      modifies `zlibs, display
      ensures |zlibs| == 4
      ensures var r := UdpCopyFilter(inflate, j, old(zlibs), stream, data, at);
        status == r.status && display.calls == old(display.calls) + r.calls && zlibs == r.zlibs
    {
      hide UdpPixelData, CopyPixels, PixelsOf;
      var n := j.area.w * j.area.h;
      if n * 3 == 0 {
        return Drawn;
      }
      var p := UdpPixelData(inflate, zlibs, stream, n * 3, data, at);
      zlibs := p.zlibs;
      if p.status != Drawn {
        return p.status;
      }
      var rgbx := CopyRect(n, Padded(p.data, n * 3));
      ShownIsTaken(rgbx, CopyPixels(Padded(p.data, n * 3)));
      display.Record(Blit(j.area, PixelsOf(rgbx[..], n), j.frameId));
      return Drawn;
    }

    method DecodePalette(stream: nat, j: Job, data: seq<Byte>, display: CallLog) returns (status: UdpStatus)
      requires |zlibs| == 4 && stream < 4
      modifies `zlibs, `scratchBuffer, scratchBuffer, display
      ensures |zlibs| == 4 && (scratchBuffer == old(scratchBuffer) || fresh(scratchBuffer))
      ensures var r := UdpPaletteFilter(inflate, j, old(zlibs), stream, data);
        status == r.status && display.calls == old(display.calls) + r.calls && zlibs == r.zlibs
    {
      hide UdpPixelData, MonoPixels, PalettePixels, Slice;
      var n := if |data| > 14 then Some(ColorCount(data[14])) else None;
      var palette := if n.Some? then Slice(data, 15, 3 * n.value) else [];
      var w, h := j.area.w, j.area.h;
      var size := if n.Some? then IndexedRow(n.value, w) * h else w * h;
      if size == 0 {
        return Drawn;
      }
      var p := if n.Some? then UdpPixelData(inflate, zlibs, stream, size, data, 15 + 3 * n.value)
               else if size < 12 then UdpPixels(Drawn, [], zlibs)
               else InflateFrom(inflate, zlibs, stream, size, data);
      zlibs := p.zlibs;
      if p.status != Drawn {
        return p.status;
      }
      if n == Some(2) {
        DrawMono(j, Padded(p.data, size), palette, display);
      } else {
        DrawIndexed(j, p.data, palette, display);
      }
      return Drawn;
    }

    method Reserve(n: nat)
      modifies `scratchBuffer
      ensures scratchBuffer.Length >= n && (scratchBuffer == old(scratchBuffer) || fresh(scratchBuffer))
    {
      if scratchBuffer.Length < n {
        scratchBuffer := new Byte[n](_ => 0);
      }
    }

    method DrawMono(j: Job, data: seq<Byte>, palette: seq<Byte>, display: CallLog)
      requires |data| == RowBytes(j.area.w) * j.area.h
      modifies `scratchBuffer, scratchBuffer, display
      ensures scratchBuffer == old(scratchBuffer) || fresh(scratchBuffer)
      ensures display.calls == old(display.calls)
        + [Blit(j.area, MonoPixels(data, palette, j.area.w, j.area.h), j.frameId)]
    {
      var w, h := j.area.w, j.area.h;
      Reserve(4 * (w * h));
      MonoRect(w, h, data, palette, scratchBuffer);
      ShownIsTaken(scratchBuffer, MonoPixels(data, palette, w, h));
      display.Record(Blit(j.area, PixelsOf(scratchBuffer[..], w * h), j.frameId));
    }

    method DrawIndexed(j: Job, data: seq<Byte>, palette: seq<Byte>, display: CallLog)
      modifies `scratchBuffer, scratchBuffer, display
      ensures scratchBuffer == old(scratchBuffer) || fresh(scratchBuffer)
      ensures display.calls == old(display.calls)
        + [Blit(j.area, PalettePixels(data, palette, j.area.w * j.area.h), j.frameId)]
    {
      var n := j.area.w * j.area.h;
      Reserve(4 * n);
      PaletteRect(n, data, palette, scratchBuffer);
      ShownIsTaken(scratchBuffer, PalettePixels(data, palette, n));
      display.Record(Blit(j.area, PixelsOf(scratchBuffer[..], n), j.frameId));
    }
  }
}
