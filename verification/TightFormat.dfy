/**
 Tight rectangles as the client reads them: pixel unpacking, and a decoder that may stop before
 any of its fields and go on when more bytes have come.
 */
module TightFormat {
  import opened Arithmetic
  import opened Bytes
  import opened DrawCalls
  import opened Resumable

  // ---- zlib, of which only determinism is assumed

  /** Compressed input together with the number of bytes it is asked to yield. */
  datatype Chunk = Chunk(input: seq<Byte>, expected: nat)

  /**
   A stream's output is some function of the chunks since its last reset and the next one;
   None is an error of the library.
   */
  type Inflate = (seq<Chunk>, Chunk) -> Option<seq<Byte>>

  /** `inflate(expected)`: anything but exactly the expected number of bytes is an exception. */
  function Inflated(z: Inflate, history: seq<Chunk>, c: Chunk): (r: Option<seq<Byte>>)
    ensures r.Some? ==> |r.value| == c.expected
  {
    var out := z(history, c);
    if out.Some? && |out.value| == c.expected then out else None
  }

  // ---- pixels

  function CopyPixels(data: seq<Byte>): (px: seq<Color>)
    ensures |px| == |data| / 3
  {
    seq(|data| / 3, k requires 0 <= k < |data| / 3 => Color(data[3 * k], data[3 * k + 1], data[3 * k + 2]))
  }

  /** A read past the palette yields undefined, which a byte array stores as 0. */
  function ByteAt(s: seq<Byte>, i: nat): Byte {
    if i < |s| then s[i] else 0
  }

  function PaletteColor(palette: seq<Byte>, k: nat): Color {
    Color(ByteAt(palette, 3 * k), ByteAt(palette, 3 * k + 1), ByteAt(palette, 3 * k + 2))
  }

  function PalettePixels(data: seq<Byte>, palette: seq<Byte>, n: nat): (px: seq<Color>)
    ensures |px| == n
  {
    seq(n, k requires 0 <= k < n => if k < |data| then PaletteColor(palette, data[k]) else BLACK)
  }

  function RowBytes(w: nat): nat { (w + 7) / 8 }

  /** The bit of a one-bit-per-pixel image that belongs to pixel (x, y). */
  function MonoBit(data: seq<Byte>, w: nat, h: nat, x: nat, y: nat): nat
    requires |data| == RowBytes(w) * h && x < w && y < h
  {
    MonoIndexInRange(w, h, x, y);
    if Bit(data[y * RowBytes(w) + x / 8], 7 - x % 8) then 1 else 0
  }

  lemma MonoIndexInRange(w: nat, h: nat, x: nat, y: nat)
    requires x < w && y < h
    ensures 0 <= y * RowBytes(w) + x / 8 < RowBytes(w) * h
  {
    var n := RowBytes(w);
    assert x / 8 < n;
    assert y * n + n == (y + 1) * n <= h * n by {
      MulLe(y + 1, h, n);
    }
  }

  /** Pixel number `k` in row order. */
  function MonoPixel(data: seq<Byte>, palette: seq<Byte>, w: nat, h: nat, k: nat): Color
    requires |data| == RowBytes(w) * h && k < w * h
  {
    RowInRange(w, h, k);
    PaletteColor(palette, MonoBit(data, w, h, k % w, k / w))
  }

  /** Two palette entries and one bit a pixel, most significant bit first, rows padded to bytes. */
  function MonoPixels(data: seq<Byte>, palette: seq<Byte>, w: nat, h: nat): (px: seq<Color>)
    requires |data| == RowBytes(w) * h
    ensures |px| == w * h
    ensures forall k :: 0 <= k < w * h ==> px[k] == MonoPixel(data, palette, w, h, k)
  {
    seq(w * h, k requires 0 <= k < w * h => MonoPixel(data, palette, w, h, k))
  }

  // ---- state

  const PALETTE_SIZE := 1024

  /** The fields of the decoder; `zlibs` holds each stream's chunks since its last reset. */
  datatype State = State(ctl: Option<nat>, filter: Option<Byte>, numColors: nat,
                         palette: seq<Byte>, len: nat, zlibs: seq<seq<Chunk>>)
  {
    ghost predicate Ok() {
      && |palette| == PALETTE_SIZE && |zlibs| == 4 && numColors <= 256
      && (ctl.Some? ==> ctl.value < 16)
    }

    /** No field after the control byte has been read yet. */
    ghost predicate AtPayload() {
      Ok() && filter.None? && numColors == 0 && len == 0
    }

    /** Between rectangles. */
    ghost predicate Idle() {
      AtPayload() && ctl.None?
    }
  }

  /** The rectangle in hand: where it goes and in which frame. */
  datatype Job = Job(area: Area, frameId: int)

  // ---- length-prefixed data

  /** How many bytes the length field at the front takes. */
  function LengthSize(s: seq<Byte>): (n: nat)
    requires |s| >= 3
    ensures 1 <= n <= 3
  {
    if s[0] < 128 then 1 else if s[1] < 128 then 2 else 3
  }

  function LengthValue(s: seq<Byte>): nat
    requires |s| >= 3
  {
    var b0: int, b1: int, b2: int := s[0], s[1], s[2];
    b0 % 128 + if b0 < 128 then 0 else b1 % 128 * 128 + if b1 < 128 then 0 else b2 * 16384
  }

  datatype Read = Read(data: Option<seq<Byte>>, state: State, rest: seq<Byte>)

  function TakeData(s: State, bytes: seq<Byte>): (r: Read)
    ensures |r.rest| <= |bytes|
  {
    if |bytes| < s.len then Read(None, s, bytes)
    else Read(Some(bytes[..s.len]), s.(len := 0), bytes[s.len..])
  }

  /** A length of 0 in the state means that the field has not been read. */
  function ReadData(s: State, bytes: seq<Byte>): (r: Read)
    ensures |r.rest| <= |bytes|
  {
    if s.len != 0 then TakeData(s, bytes)
    else if |bytes| < 3 then Read(None, s, bytes)
    else TakeData(s.(len := LengthValue(bytes)), bytes[LengthSize(bytes)..])
  }

  // ---- the rectangle kinds

  function FillRect(j: Job, s: State, bytes: seq<Byte>): (o: Outcome<State>)
    ensures |o.rest| <= |bytes| && InFrame(o.calls, j.frameId)
  {
    if |bytes| < 3 then Outcome(Wait, s, bytes, [])
    else Outcome(Done, s, bytes[3..], [Fill(j.area, Some(Color(bytes[0], bytes[1], bytes[2])), j.frameId)])
  }

  function ImageCall(j: Job, ctl: nat, data: seq<Byte>): Call {
    if ctl == 9 then ImageRect(j.area, Jpeg, data, j.frameId)
    else if ctl == 11 then ImageRect(j.area, Webp, data, j.frameId)
    else Handoff(j.area, ctl, data, j.frameId)
  }

  function DataRect(j: Job, ctl: nat, s: State, bytes: seq<Byte>): (o: Outcome<State>)
    ensures |o.rest| <= |bytes| && InFrame(o.calls, j.frameId)
  {
    var r := ReadData(s, bytes);
    if r.data.None? then Outcome(Wait, r.state, r.rest, [])
    else Outcome(Done, r.state, r.rest, [ImageCall(j, ctl, r.data.value)])
  }

  datatype Pixels = Pixels(status: Status, data: seq<Byte>, state: State, rest: seq<Byte>)

  /** `size` bytes of pixel data: as they are when fewer than 12, through a zlib stream otherwise. */
  function PixelData(z: Inflate, stream: nat, size: nat, s: State, bytes: seq<Byte>): (r: Pixels)
    requires s.Ok() && stream < 4
    ensures r.state.Ok() && r.state.numColors == s.numColors && |r.rest| <= |bytes|
    ensures r.status == Done ==> |r.data| == size
    ensures r.state.ctl == s.ctl && r.state.filter == s.filter && r.state.palette == s.palette
  {
    if size < 12 then
      if |bytes| < size then Pixels(Wait, [], s, bytes) else Pixels(Done, bytes[..size], s, bytes[size..])
    else
      var r := ReadData(s, bytes);
      if r.data.None? then Pixels(Wait, [], r.state, r.rest)
      else
        var c := Chunk(r.data.value, size);
        var out := Inflated(z, s.zlibs[stream], c);
        if out.None? then Pixels(Fail, [], r.state, r.rest)
        else Pixels(Done, out.value, r.state.(zlibs := s.zlibs[stream := s.zlibs[stream] + [c]]), r.rest)
  }

  function CopyFilter(z: Inflate, j: Job, stream: nat, s: State, bytes: seq<Byte>): (o: Outcome<State>)
    requires s.Ok() && stream < 4
    ensures o.state.Ok() && o.state.ctl == s.ctl && o.state.filter == s.filter
    ensures |o.rest| <= |bytes| && InFrame(o.calls, j.frameId)
    ensures o.status != Done ==> o.calls == []
  {
    var size := j.area.w * j.area.h * 3;
    if size == 0 then Outcome(Done, s, bytes, [])
    else
      var p := PixelData(z, stream, size, s, bytes);
      Outcome(p.status, p.state, p.rest,
              if p.status == Done then [Blit(j.area, CopyPixels(p.data), j.frameId)] else [])
  }

  /** Bytes a row of indexed pixels takes: one bit each for up to two colours, one byte otherwise. */
  function IndexedRow(numColors: nat, w: nat): nat {
    if numColors <= 2 then RowBytes(w) else w
  }

  function IndexedPixels(data: seq<Byte>, palette: seq<Byte>, numColors: nat, w: nat, h: nat): seq<Color>
    requires |data| == IndexedRow(numColors, w) * h
  {
    if numColors == 2 then MonoPixels(data, palette, w, h) else PalettePixels(data, palette, w * h)
  }

  /** The part of the palette filter after the palette is known. */
  function IndexedData(z: Inflate, j: Job, stream: nat, s: State, bytes: seq<Byte>): (o: Outcome<State>)
    requires s.Ok() && stream < 4
    ensures o.state.Ok() && o.state.ctl == s.ctl && o.state.filter == s.filter
    ensures |o.rest| <= |bytes| && InFrame(o.calls, j.frameId)
    ensures o.status != Done ==> o.calls == [] && o.state.numColors == s.numColors
  {
    var size := IndexedRow(s.numColors, j.area.w) * j.area.h;
    if size == 0 then Outcome(Done, s, bytes, [])
    else
      var p := PixelData(z, stream, size, s, bytes);
      if p.status != Done then Outcome(p.status, p.state, p.rest, [])
      else Outcome(Done, p.state.(numColors := 0), p.rest,
        [Blit(j.area, IndexedPixels(p.data, s.palette, s.numColors, j.area.w, j.area.h), j.frameId)])
  }

  function ColorCount(b: Byte): nat {
    b as int + 1
  }

  function PaletteFilter(z: Inflate, j: Job, stream: nat, s: State, bytes: seq<Byte>): (o: Outcome<State>)
    requires s.Ok() && stream < 4
    ensures o.state.Ok() && o.state.ctl == s.ctl && o.state.filter == s.filter
    ensures |o.rest| <= |bytes| && InFrame(o.calls, j.frameId)
    ensures o.status != Done ==> o.calls == []
  {
    if s.numColors != 0 then IndexedData(z, j, stream, s, bytes)
    else if |bytes| < 1 || |bytes| < 1 + 3 * ColorCount(bytes[0]) then Outcome(Wait, s, bytes, [])
    else
      var size := 3 * ColorCount(bytes[0]);
      IndexedData(z, j, stream,
                  s.(numColors := ColorCount(bytes[0]), palette := bytes[1..1 + size] + s.palette[size..]),
                  bytes[1 + size..])
  }

  /** The filter's own state is cleared once the rectangle is complete. */
  function Filtered(z: Inflate, j: Job, ctl: nat, s: State, bytes: seq<Byte>): (o: Outcome<State>)
    requires s.Ok() && s.filter.Some?
    ensures o.state.Ok() && o.state.ctl == s.ctl
    ensures |o.rest| <= |bytes| && InFrame(o.calls, j.frameId)
    ensures o.status != Done ==> o.calls == [] && o.state.filter == s.filter
  {
    if s.filter.value > 1 then Outcome(Fail, s, bytes, [])
    else
      var o := if s.filter.value == 0 then CopyFilter(z, j, ctl % 4, s, bytes)
               else PaletteFilter(z, j, ctl % 4, s, bytes);
      if o.status == Done then o.(state := o.state.(filter := None)) else o
  }

  function BasicRect(z: Inflate, j: Job, ctl: nat, s: State, bytes: seq<Byte>): (o: Outcome<State>)
    requires s.Ok()
    ensures o.state.Ok() && o.state.ctl == s.ctl
    ensures |o.rest| <= |bytes| && InFrame(o.calls, j.frameId)
    ensures o.status != Done ==> o.calls == []
  {
    if s.filter.Some? then Filtered(z, j, ctl, s, bytes)
    else if ctl / 4 % 2 == 0 then Filtered(z, j, ctl, s.(filter := Some(0)), bytes)
    else if |bytes| < 1 then Outcome(Wait, s, bytes, [])
    else Filtered(z, j, ctl, s.(filter := Some(bytes[0])), bytes[1..])
  }

  function Dispatch(z: Inflate, j: Job, ctl: nat, s: State, bytes: seq<Byte>): (o: Outcome<State>)
    requires s.Ok()
    ensures o.state.Ok() && o.state.ctl == s.ctl
    ensures |o.rest| <= |bytes| && InFrame(o.calls, j.frameId)
    ensures o.status != Done ==> o.calls == []
  {
    if ctl == 8 then FillRect(j, s, bytes)
    else if ctl < 8 then BasicRect(z, j, ctl, s, bytes)
    else if ctl == 9 || ctl == 11 || ctl == 12 || ctl == 13 then DataRect(j, ctl, s, bytes)
    else Outcome(Fail, s, bytes, [])
  }

  /** The low four bits of the control byte name the streams to reset. */
  function ResetStreams(zlibs: seq<seq<Chunk>>, flags: Byte): (r: seq<seq<Chunk>>)
    ensures |r| == |zlibs|
  {
    seq(|zlibs|, i requires 0 <= i < |zlibs| => if Bit(flags, i) then [] else zlibs[i])
  }

  function Controlled(z: Inflate, j: Job, s: State, bytes: seq<Byte>): (o: Outcome<State>)
    requires s.Ok() && s.ctl.Some?
    ensures o.state.Ok()
    ensures |o.rest| <= |bytes| && InFrame(o.calls, j.frameId)
    ensures o.status != Done ==> o.calls == [] && o.state.ctl == s.ctl
  {
    var o := Dispatch(z, j, s.ctl.value, s, bytes);
    if o.status == Done then o.(state := o.state.(ctl := None)) else o
  }

  /** One call of `decodeRect`. */
  function DecodeRect(z: Inflate, j: Job, s: State, bytes: seq<Byte>): (o: Outcome<State>)
    requires s.Ok()
    ensures o.state.Ok()
    ensures |o.rest| <= |bytes| && InFrame(o.calls, j.frameId)
    ensures o.status != Done ==> o.calls == []
  {
    if s.ctl.Some? then Controlled(z, j, s, bytes)
    else if |bytes| < 1 then Outcome(Wait, s, bytes, [])
    else Controlled(z, j, s.(ctl := Some(bytes[0] / 16), zlibs := ResetStreams(s.zlibs, bytes[0])), bytes[1..])
  }

  // ---- independence of fragmentation, level by level

  lemma ReadDataResumes(s: State, a: seq<Byte>, b: seq<Byte>)
    ensures var r := ReadData(s, a);
      ReadData(s, a + b) == if r.data.None? then ReadData(r.state, r.rest + b) else r.(rest := r.rest + b)
  {
    if s.len != 0 {
      if s.len <= |a| {
        SplitExtended(a, b, s.len);
      }
    } else if |a| >= 3 {
      var n := LengthSize(a);
      SplitExtended(a, b, n);
      var len := LengthValue(a);
      if len <= |a[n..]| {
        SplitExtended(a[n..], b, len);
      }
    }
  }

  lemma PixelDataResumes(z: Inflate, stream: nat, size: nat, s: State, a: seq<Byte>, b: seq<Byte>)
    requires s.Ok() && stream < 4
    ensures var r := PixelData(z, stream, size, s, a);
      PixelData(z, stream, size, s, a + b)
      == if r.status == Wait then PixelData(z, stream, size, r.state, r.rest + b) else r.(rest := r.rest + b)
  {
    if size < 12 {
      if size <= |a| {
        SplitExtended(a, b, size);
      }
    } else {
      ReadDataResumes(s, a, b);
    }
  }

  lemma CopyFilterResumes(z: Inflate, j: Job, stream: nat, s: State, a: seq<Byte>, b: seq<Byte>)
    requires s.Ok() && stream < 4
    ensures var r := CopyFilter(z, j, stream, s, a);
      CopyFilter(z, j, stream, s, a + b)
      == if r.status == Wait then CopyFilter(z, j, stream, r.state, r.rest + b) else r.(rest := r.rest + b)
  {
    PixelDataResumes(z, stream, j.area.w * j.area.h * 3, s, a, b);
  }

  lemma IndexedDataResumes(z: Inflate, j: Job, stream: nat, s: State, a: seq<Byte>, b: seq<Byte>)
    requires s.Ok() && stream < 4
    ensures var r := IndexedData(z, j, stream, s, a);
      IndexedData(z, j, stream, s, a + b)
      == if r.status == Wait then IndexedData(z, j, stream, r.state, r.rest + b) else r.(rest := r.rest + b)
  {
    hide PixelData, IndexedPixels;
    PixelDataResumes(z, stream, IndexedRow(s.numColors, j.area.w) * j.area.h, s, a, b);
  }

  lemma PaletteFilterResumes(z: Inflate, j: Job, stream: nat, s: State, a: seq<Byte>, b: seq<Byte>)
    requires s.Ok() && stream < 4
    ensures var r := PaletteFilter(z, j, stream, s, a);
      PaletteFilter(z, j, stream, s, a + b)
      == if r.status == Wait then PaletteFilter(z, j, stream, r.state, r.rest + b) else r.(rest := r.rest + b)
  {
    hide IndexedData;
    if s.numColors != 0 {
      IndexedDataResumes(z, j, stream, s, a, b);
    } else if |a| >= 1 && |a| >= 1 + 3 * ColorCount(a[0]) {
      var size := 3 * ColorCount(a[0]);
      SplitExtended(a, b, 1 + size);
      assert (a + b)[1..1 + size] == a[1..1 + size];
      var s' := s.(numColors := ColorCount(a[0]), palette := a[1..1 + size] + s.palette[size..]);
      IndexedDataResumes(z, j, stream, s', a[1 + size..], b);
    }
  }

  lemma FilteredResumes(z: Inflate, j: Job, ctl: nat, s: State, a: seq<Byte>, b: seq<Byte>)
    requires s.Ok() && s.filter.Some?
    ensures var r := Filtered(z, j, ctl, s, a);
      Filtered(z, j, ctl, s, a + b)
      == if r.status == Wait then Filtered(z, j, ctl, r.state, r.rest + b) else r.(rest := r.rest + b)
  {
    hide CopyFilter, PaletteFilter;
    CopyFilterResumes(z, j, ctl % 4, s, a, b);
    PaletteFilterResumes(z, j, ctl % 4, s, a, b);
  }

  lemma BasicRectResumes(z: Inflate, j: Job, ctl: nat, s: State, a: seq<Byte>, b: seq<Byte>)
    requires s.Ok()
    ensures var r := BasicRect(z, j, ctl, s, a);
      BasicRect(z, j, ctl, s, a + b)
      == if r.status == Wait then BasicRect(z, j, ctl, r.state, r.rest + b) else r.(rest := r.rest + b)
  {
    hide Filtered;
    if s.filter.Some? {
      FilteredResumes(z, j, ctl, s, a, b);
    } else if ctl / 4 % 2 == 0 {
      FilteredResumes(z, j, ctl, s.(filter := Some(0)), a, b);
    } else if |a| >= 1 {
      SplitExtended(a, b, 1);
      FilteredResumes(z, j, ctl, s.(filter := Some(a[0])), a[1..], b);
    }
  }

  lemma DispatchResumes(z: Inflate, j: Job, ctl: nat, s: State, a: seq<Byte>, b: seq<Byte>)
    requires s.Ok()
    ensures var r := Dispatch(z, j, ctl, s, a);
      Dispatch(z, j, ctl, s, a + b)
      == if r.status == Wait then Dispatch(z, j, ctl, r.state, r.rest + b) else r.(rest := r.rest + b)
  {
    hide BasicRect, ReadData;
    BasicRectResumes(z, j, ctl, s, a, b);
    ReadDataResumes(s, a, b);
    if |a| >= 3 {
      SplitExtended(a, b, 3);
    }
  }

  lemma DecodeRectResumes(z: Inflate, j: Job, s: State, a: seq<Byte>, b: seq<Byte>)
    requires s.Ok()
    ensures var r := DecodeRect(z, j, s, a);
      DecodeRect(z, j, s, a + b)
      == if r.status == Wait then DecodeRect(z, j, r.state, r.rest + b) else r.(rest := r.rest + b)
  {
    hide Dispatch, ResetStreams;
    if s.ctl.Some? {
      DispatchResumes(z, j, s.ctl.value, s, a, b);
    } else if |a| >= 1 {
      var s' := s.(ctl := Some(a[0] / 16), zlibs := ResetStreams(s.zlibs, a[0]));
      SplitExtended(a, b, 1);
      DispatchResumes(z, j, a[0] / 16, s', a[1..], b);
    }
  }

  /** One rectangle as a decoder of the fragmentation law. */
  ghost function RectDecoder(z: Inflate, j: Job): Decoder<State> {
    (s: State, bytes: seq<Byte>) => if s.Ok() then DecodeRect(z, j, s, bytes) else Outcome(Fail, s, bytes, [])
  }

  lemma RectResumes(z: Inflate, j: Job)
    ensures Resumes(RectDecoder(z, j))
  {
    hide DecodeRect;
    var dec := RectDecoder(z, j);
    forall s: State, a: seq<Byte>, b: seq<Byte>
      ensures ResumesAt(dec, s, a, b)
    {
      if s.Ok() {
        DecodeRectResumes(z, j, s, a, b);
        var r := DecodeRect(z, j, s, a);
        assert r.status == Wait ==> [] + DecodeRect(z, j, r.state, r.rest + b).calls == DecodeRect(z, j, r.state, r.rest + b).calls;
      }
    }
  }
}
