/** The Tight decoder as it runs over the receive queue, with its resumable fields. */
module TightDecoding {
  import opened Bytes
  import opened DrawCalls
  import opened Resumable
  import opened ReceiveQueue
  import opened TightFormat
  import opened PixelUnpacking

  class TightDecoder {
    const inflate: Inflate
    var ctl: Option<nat>
    var filter: Option<Byte>
    var numColors: nat
    const palette: array<Byte>
    var len: nat
    var zlibs: seq<seq<Chunk>>
    var scratchBuffer: array<Byte>

    ghost predicate Valid()
      reads this, palette
    {
      Abs().Ok() && scratchBuffer != palette
    }

    ghost function Abs(): State
      reads this, palette
    {
      State(ctl, filter, numColors, palette[..], len, zlibs)
    }

    constructor (z: Inflate)
      ensures Valid() && Abs().Idle() && inflate == z && fresh(palette) && fresh(scratchBuffer)
      ensures palette[..] == seq(PALETTE_SIZE, _ => 0) && zlibs == [[], [], [], []]
    {
      inflate := z;
      ctl, filter, numColors, len := None, None, 0, 0;
      palette := new Byte[PALETTE_SIZE](_ => 0);
      zlibs := [[], [], [], []];
      scratchBuffer := new Byte[0];
    }

    /** One call of `decodeRect`; Wait is its `return false`. */
    method DecodeRect(j: Job, sock: Websock, display: CallLog) returns (status: Status)
      requires Valid() && sock.Valid() && sock.rQ != palette && sock.rQ != scratchBuffer
      modifies this, palette, scratchBuffer, sock`rQi, display
      ensures Valid() && sock.Valid() && (scratchBuffer == old(scratchBuffer) || fresh(scratchBuffer))
      ensures var o := TightFormat.DecodeRect(inflate, j, old(Abs()), old(sock.Unread()));
        && status == o.status && display.calls == old(display.calls) + o.calls
        && Abs() == o.state && sock.Unread() == o.rest
    {
      hide TightFormat.Dispatch, TightFormat.ResetStreams;
      if ctl.None? {
        var lacks := sock.RQlacks(1);
        if lacks {
          return Wait;
        }
        var c := sock.RQshiftBytes(1);
        ResetZlibs(c[0]);
        ctl := Some(c[0] / 16);
      }
      status := Dispatch(ctl.value, j, sock, display);
      if status == Done {
        ctl := None;
      }
    }

    method ResetZlibs(flags: Byte)
      requires |zlibs| == 4
      modifies `zlibs
      ensures zlibs == ResetStreams(old(zlibs), flags)
    {
      var i := 0;
      while i < 4
        invariant 0 <= i <= 4 && |zlibs| == 4
        invariant forall k :: 0 <= k < 4 ==> zlibs[k] == if k < i && Bit(flags, k) then [] else old(zlibs[k])
      {
        if Bit(flags, i) {
          zlibs := zlibs[i := []];
        }
        i := i + 1;
      }
    }

    method Dispatch(c: nat, j: Job, sock: Websock, display: CallLog) returns (status: Status)
      requires Valid() && sock.Valid() && sock.rQ != palette && sock.rQ != scratchBuffer
      modifies `filter, `numColors, `len, `zlibs, `scratchBuffer, palette, scratchBuffer, sock`rQi, display
      ensures Valid() && sock.Valid() && (scratchBuffer == old(scratchBuffer) || fresh(scratchBuffer))
      ensures var o := TightFormat.Dispatch(inflate, j, c, old(Abs()), old(sock.Unread()));
        && status == o.status && display.calls == old(display.calls) + o.calls
        && Abs() == o.state && sock.Unread() == o.rest
    {
      hide TightFormat.BasicRect;
      if c == 8 {
        status := FillRect(j, sock, display);
      } else if c < 8 {
        status := BasicRect(c, j, sock, display);
      } else if c == 9 || c == 11 || c == 12 || c == 13 {
        var data := ReadData(sock);
        if data.None? {
          return Wait;
        }
        display.Record(ImageCall(j, c, data.value));
        status := Done;
      } else {
        status := Fail;
      }
    }

    method FillRect(j: Job, sock: Websock, display: CallLog) returns (status: Status)
      requires sock.Valid()
      modifies sock`rQi, display
      ensures sock.Valid()
      ensures status == if |old(sock.Unread())| < 3 then Wait else Done
      ensures status == Wait ==> sock.Unread() == old(sock.Unread()) && display.calls == old(display.calls)
      ensures status == Done ==> var u := old(sock.Unread());
        && sock.Unread() == u[3..]
        && display.calls == old(display.calls) + [Fill(j.area, Some(Color(u[0], u[1], u[2])), j.frameId)]
    {
      var lacks := sock.RQlacks(3);
      if lacks {
        return Wait;
      }
      var rgb := sock.RQshiftBytes(3);
      display.Record(Fill(j.area, Some(Color(rgb[0], rgb[1], rgb[2])), j.frameId));
      return Done;
    }

    /** The data behind a length field of one to three bytes, or None until all of it is there. */
    method ReadData(sock: Websock) returns (data: Option<seq<Byte>>)
      requires sock.Valid()
      modifies `len, sock`rQi
      ensures sock.Valid()
      ensures var r := TightFormat.ReadData(old(Abs()), old(sock.Unread()));
        data == r.data && Abs() == r.state && sock.Unread() == r.rest
    {
      hide LengthValue, LengthSize;
      if len == 0 {
        var lacks := sock.RQlacks(3);
        if lacks {
          return None;
        }
        ReadLength(sock);
      }
      var lacks := sock.RQlacks(len);
      if lacks {
        return None;
      }
      var taken := sock.RQshiftBytes(len);
      len := 0;
      return Some(taken);
    }

    method ReadLength(sock: Websock)
      requires sock.Valid() && |sock.Unread()| >= 3
      modifies `len, sock`rQi
      ensures sock.Valid() && len == LengthValue(old(sock.Unread()))
      ensures sock.Unread() == old(sock.Unread())[LengthSize(old(sock.Unread()))..]
    {
      ghost var u := sock.Unread();
      var byte := sock.RQshiftBytes(1);
      len := byte[0] as int % 128;
      if byte[0] >= 128 {
        byte := sock.RQshiftBytes(1);
        len := len + byte[0] as int % 128 * 128;
        if byte[0] >= 128 {
          byte := sock.RQshiftBytes(1);
          len := len + byte[0] as int * 16384;
        }
      }
    }

    method BasicRect(c: nat, j: Job, sock: Websock, display: CallLog) returns (status: Status)
      requires Valid() && sock.Valid() && sock.rQ != palette && sock.rQ != scratchBuffer
      modifies `filter, `numColors, `len, `zlibs, `scratchBuffer, palette, scratchBuffer, sock`rQi, display
      ensures Valid() && sock.Valid() && (scratchBuffer == old(scratchBuffer) || fresh(scratchBuffer))
      ensures var o := TightFormat.BasicRect(inflate, j, c, old(Abs()), old(sock.Unread()));
        && status == o.status && display.calls == old(display.calls) + o.calls
        && Abs() == o.state && sock.Unread() == o.rest
    {
      hide TightFormat.Filtered;
      if filter.None? {
        if c / 4 % 2 == 1 {
          var lacks := sock.RQlacks(1);
          if lacks {
            return Wait;
          }
          var f := sock.RQshiftBytes(1);
          filter := Some(f[0]);
        } else {
          filter := Some(0);
        }
      }
      status := RunFilter(c % 4, c, j, sock, display);
    }

    method RunFilter(streamId: nat, ghost c: nat, j: Job, sock: Websock, display: CallLog) returns (status: Status)
      requires Valid() && sock.Valid() && sock.rQ != palette && sock.rQ != scratchBuffer
      requires filter.Some? && streamId == c % 4
      modifies `filter, `numColors, `len, `zlibs, `scratchBuffer, palette, scratchBuffer, sock`rQi, display
      ensures Valid() && sock.Valid() && (scratchBuffer == old(scratchBuffer) || fresh(scratchBuffer))
      ensures var o := TightFormat.Filtered(inflate, j, c, old(Abs()), old(sock.Unread()));
        && status == o.status && display.calls == old(display.calls) + o.calls
        && Abs() == o.state && sock.Unread() == o.rest
    {
      hide TightFormat.CopyFilter, TightFormat.PaletteFilter;
      if filter.value == 0 {
        status := CopyFilter(streamId, j, sock, display);
      } else if filter.value == 1 {
        status := PaletteFilter(streamId, j, sock, display);
      } else {
        return Fail;
      }
      if status == Done {
        filter := None;
      }
    }

    /** `uncompressedSize` bytes of pixels, raw or through zlib stream `streamId`. */
    method PixelData(streamId: nat, uncompressedSize: nat, sock: Websock) returns (status: Status, data: seq<Byte>)
      requires Valid() && sock.Valid() && streamId < 4
      modifies `len, `zlibs, sock`rQi
      ensures Valid() && sock.Valid()
      ensures var p := TightFormat.PixelData(inflate, streamId, uncompressedSize, old(Abs()), old(sock.Unread()));
        && status == p.status && data == p.data && Abs() == p.state && sock.Unread() == p.rest
    {
      hide TightFormat.ReadData;
      if uncompressedSize < 12 {
        var lacks := sock.RQlacks(uncompressedSize);
        if lacks {
          return Wait, [];
        }
        data := sock.RQshiftBytes(uncompressedSize);
        return Done, data;
      }
      var input := ReadData(sock);
      if input.None? {
        return Wait, [];
      }
      var c := Chunk(input.value, uncompressedSize);
      var out := Inflated(inflate, zlibs[streamId], c);
      if out.None? {
        return Fail, [];
      }
      zlibs := zlibs[streamId := zlibs[streamId] + [c]];
      return Done, out.value;
    }

    method CopyFilter(streamId: nat, j: Job, sock: Websock, display: CallLog) returns (status: Status)
      requires Valid() && sock.Valid() && streamId < 4
      modifies `len, `zlibs, sock`rQi, display
      ensures Valid() && sock.Valid()
      ensures var o := TightFormat.CopyFilter(inflate, j, streamId, old(Abs()), old(sock.Unread()));
        && status == o.status && display.calls == old(display.calls) + o.calls
        && Abs() == o.state && sock.Unread() == o.rest
    {
      hide TightFormat.PixelData, CopyPixels, PixelsOf;
      var pixels := j.area.w * j.area.h;
      if pixels * 3 == 0 {
        return Done;
      }
      var data;
      status, data := PixelData(streamId, pixels * 3, sock);
      if status != Done {
        return;
      }
      var rgbx := CopyRect(pixels, data);
      ShownIsTaken(rgbx, CopyPixels(data));
      display.Record(Blit(j.area, PixelsOf(rgbx[..], pixels), j.frameId));
    }

    method PaletteFilter(streamId: nat, j: Job, sock: Websock, display: CallLog) returns (status: Status)
      requires Valid() && sock.Valid() && streamId < 4 && sock.rQ != palette && sock.rQ != scratchBuffer
      modifies `numColors, `len, `zlibs, `scratchBuffer, palette, scratchBuffer, sock`rQi, display
      ensures Valid() && sock.Valid() && (scratchBuffer == old(scratchBuffer) || fresh(scratchBuffer))
      ensures var o := TightFormat.PaletteFilter(inflate, j, streamId, old(Abs()), old(sock.Unread()));
        && status == o.status && display.calls == old(display.calls) + o.calls
        && Abs() == o.state && sock.Unread() == o.rest
    {
      hide TightFormat.IndexedData;
      if numColors == 0 {
        var ready := ReadPalette(sock);
        if !ready {
          return Wait;
        }
      }
      status := IndexedData(streamId, j, sock, display);
    }

    /** Reads a whole palette or nothing. */
    method ReadPalette(sock: Websock) returns (ready: bool)
      requires Valid() && sock.Valid() && sock.rQ != palette
      modifies `numColors, palette, sock`rQi
      ensures Valid() && sock.Valid()
      ensures var u := old(sock.Unread());
        && (ready <==> |u| >= 1 && |u| >= 1 + 3 * ColorCount(u[0]))
        && (!ready ==> Abs() == old(Abs()) && sock.Unread() == u)
        && (ready ==>
              var n := ColorCount(u[0]);
              && Abs() == old(Abs()).(numColors := n, palette := u[1..1 + 3 * n] + old(palette[..])[3 * n..])
              && sock.Unread() == u[1 + 3 * n..])
    {
      ghost var u := sock.Unread();
      var lacks := sock.RQlacks(1);
      if lacks {
        return false;
      }
      var peeked := sock.RQpeek8();
      var n := ColorCount(peeked);
      lacks := sock.RQlacks(1 + 3 * n);
      if lacks {
        return false;
      }
      numColors := n;
      sock.RQskipBytes(1);
      var colors := sock.RQshiftBytes(3 * n);
      assert colors == u[1..1 + 3 * n];
      SetPalette(colors);
      return true;
    }

    method SetPalette(colors: seq<Byte>)
      requires |colors| <= palette.Length
      modifies palette
      ensures palette[..] == colors + old(palette[..])[|colors|..]
    {
      var i := 0;
      while i < |colors|
        modifies palette
        invariant 0 <= i <= |colors|
        invariant forall k :: 0 <= k < palette.Length ==> palette[k] == if k < i then colors[k] else old(palette[k])
      {
        palette[i] := colors[i];
        i := i + 1;
      }
    }

    method IndexedData(streamId: nat, j: Job, sock: Websock, display: CallLog) returns (status: Status)
      requires Valid() && sock.Valid() && streamId < 4 && sock.rQ != palette && sock.rQ != scratchBuffer
      modifies `numColors, `len, `zlibs, `scratchBuffer, scratchBuffer, sock`rQi, display
      ensures Valid() && sock.Valid() && (scratchBuffer == old(scratchBuffer) || fresh(scratchBuffer))
      ensures var o := TightFormat.IndexedData(inflate, j, streamId, old(Abs()), old(sock.Unread()));
        && status == o.status && display.calls == old(display.calls) + o.calls
        && Abs() == o.state && sock.Unread() == o.rest
    {
      hide TightFormat.PixelData, IndexedPixels;
      var uncompressedSize := IndexedRow(numColors, j.area.w) * j.area.h;
      if uncompressedSize == 0 {
        return Done;
      }
      var data;
      status, data := PixelData(streamId, uncompressedSize, sock);
      if status != Done {
        return;
      }
      DrawIndexed(data, j, display);
      numColors := 0;
    }

    method DrawIndexed(data: seq<Byte>, j: Job, display: CallLog)
      requires Valid() && |data| == IndexedRow(numColors, j.area.w) * j.area.h
      modifies `scratchBuffer, scratchBuffer, display
      ensures Valid() && (scratchBuffer == old(scratchBuffer) || fresh(scratchBuffer))
      ensures display.calls == old(display.calls)
        + [Blit(j.area, IndexedPixels(data, palette[..], numColors, j.area.w, j.area.h), j.frameId)]
    {
      var w, h := j.area.w, j.area.h;
      if scratchBuffer.Length < 4 * (w * h) {
        scratchBuffer := new Byte[4 * (w * h)](_ => 0);
      }
      ghost var px := IndexedPixels(data, palette[..], numColors, w, h);
      if numColors == 2 {
        MonoRect(w, h, data, palette[..], scratchBuffer);
      } else {
        PaletteRect(w * h, data, palette[..], scratchBuffer);
      }
      ShownIsTaken(scratchBuffer, px);
      display.Record(Blit(j.area, PixelsOf(scratchBuffer[..], w * h), j.frameId));
    }
  }
}
