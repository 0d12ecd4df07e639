/** The hextile decoder as it runs: resumable fields, a tile buffer, and the receive queue. */
module HextileDecoding {
  import opened Arithmetic
  import opened Bytes
  import opened DrawCalls
  import opened Resumable
  import opened ReceiveQueue
  import opened HextileFormat

  class HextileDecoder {
    var tiles: nat
    var tilesX: nat
    var tilesY: nat
    var totalTiles: nat
    var lastsubencoding: Byte
    var background: Option<Color>
    var foreground: Option<Color>
    const tileBuffer: array<Color>
    var tileX: nat
    var tileY: nat
    var tileW: nat
    var tileH: nat

    ghost predicate Valid(g: Area)
      reads this
    {
      && tileBuffer.Length == TILE * TILE
      && (tiles > 0 ==>
            tilesX == TilesX(g.w) && tilesY == TilesX(g.h) && totalTiles == TotalTiles(g) && tiles <= totalTiles)
    }

    ghost function Abs(): State
      reads this
    {
      State(tiles, Context(lastsubencoding, background, foreground))
    }

    constructor ()
      ensures Abs() == INITIAL && fresh(tileBuffer) && forall g :: Valid(g)
    {
      tiles, lastsubencoding := 0, 0;
      background, foreground := None, None;
      tileBuffer := new Color[TILE * TILE](_ => BLACK);
    }

    /** Fills the tile with one colour; the rest of the buffer keeps older pixels. */
    method StartTile(x: nat, y: nat, width: nat, height: nat, color: Color)
      requires tileBuffer.Length == TILE * TILE && width <= TILE && height <= TILE
      modifies `tileX, `tileY, `tileW, `tileH, tileBuffer
      ensures tileX == x && tileY == y && tileW == width && tileH == height
      ensures width * height <= TILE * TILE && tileBuffer[..width * height] == Solid(width * height, color)
    {
      tileX, tileY, tileW, tileH := x, y, width, height;
      MulLe(width, TILE, height);
      var i := 0;
      while i < width * height
        modifies tileBuffer
        invariant 0 <= i <= width * height
        invariant forall k :: 0 <= k < i ==> tileBuffer[k] == color
      {
        tileBuffer[i] := color;
        i := i + 1;
      }
    }

    /** Draws a subrectangle; an index past the end of the buffer is ignored, as typed arrays do. */
    method SubTile(s: Subrect, ghost n: nat)
      requires n <= tileBuffer.Length
      modifies tileBuffer
      ensures tileBuffer[..n] == FillRows(old(tileBuffer[..n]), tileW, s, s.h)
    {
      ghost var px := tileBuffer[..n];
      var j := s.y;
      while j < s.y + s.h
        modifies tileBuffer
        invariant s.y <= j <= s.y + s.h
        invariant tileBuffer[..n] == FillRows(px, tileW, s, j - s.y)
      {
        SubTileRow(s.x + j * tileW, s.w, s.color, n);
        j := j + 1;
      }
    }

    method SubTileRow(start: nat, count: nat, color: Color, ghost n: nat)
      requires n <= tileBuffer.Length
      modifies tileBuffer
      ensures tileBuffer[..n] == FillRow(old(tileBuffer[..n]), start, count, color)
    {
      var i := 0;
      while i < count
        modifies tileBuffer
        invariant 0 <= i <= count
        invariant forall k :: 0 <= k < n ==>
          tileBuffer[k] == if start <= k < start + i then color else old(tileBuffer[k])
      {
        if start + i < tileBuffer.Length {
          tileBuffer[start + i] := color;
        }
        i := i + 1;
      }
    }

    method FinishTile(display: CallLog, frameId: int)
      requires tileW * tileH <= tileBuffer.Length
      modifies display
      ensures display.calls == old(display.calls)
        + [Blit(Area(tileX, tileY, tileW, tileH), tileBuffer[..tileW * tileH], frameId)]
    {
      display.Record(Blit(Area(tileX, tileY, tileW, tileH), tileBuffer[..tileW * tileH], frameId));
    }

    /** The coded branch of the loop: colours, background and subrectangles of one complete tile. */
    method DrawCoded(t: Area, tile: seq<Byte>, display: CallLog, frameId: int) returns (ok: bool)
      requires tileBuffer.Length == TILE * TILE && t.w <= TILE && t.h <= TILE
      requires |tile| >= 1 && 0 < tile[0] <= 30 && !IsRaw(tile[0]) && TileLength(t, tile) == Some(|tile|)
      modifies `background, `foreground, `tileX, `tileY, `tileW, `tileH, tileBuffer, display
      ensures var next := NextContext(Context(lastsubencoding, old(background), old(foreground)), tile);
        background == next.background && foreground == next.foreground
      ensures var d := DrawTile(t, frameId, Context(lastsubencoding, old(background), old(foreground)), tile);
        && ok == d.Some?
        && display.calls == old(display.calls) + if ok then d.value else []
    {
      hide IsRaw, HasBackground, HasForeground, AnySubrects, IsColoured, Paint, Solid, SubrectsAt;
      var sub := tile[0];
      var rQi := 1;
      if HasBackground(sub) {
        background := Some(ColorAt(tile, rQi));
        rQi := rQi + 4;
      }
      if HasForeground(sub) {
        foreground := Some(ColorAt(tile, rQi));
        rQi := rQi + 4;
      }
      if background.None? {
        return false;
      }
      StartTile(t.x, t.y, t.w, t.h, background.value);
      PaintNothing(tileBuffer[..t.w * t.h], t.w);
      if AnySubrects(sub) {
        var subrects := tile[rQi];
        rQi := rQi + 1;
        ok := DrawSubrects(tile, rQi, subrects, IsColoured(sub), t.w * t.h);
        if !ok {
          return;
        }
      }
      FinishTile(display, frameId);
      return true;
    }

    method DrawSubrects(tile: seq<Byte>, start: nat, subrects: nat, coloured: bool, ghost n: nat) returns (ok: bool)
      requires n <= tileBuffer.Length
      requires start + subrects * (if coloured then 6 else 2) <= |tile|
      modifies tileBuffer
      ensures ok <==> subrects == 0 || coloured || foreground.Some?
      ensures ok ==>
        tileBuffer[..n] == Paint(old(tileBuffer[..n]), tileW, SubrectsAt(tile, start, subrects, coloured, foreground))
    {
      ghost var px := tileBuffer[..n];
      var size := if coloured then 6 else 2;
      assert SubrectsAt(tile, start, 0, coloured, foreground) == [] && Paint(px, tileW, []) == px;
      hide Paint, FillRows, SubrectAt, SubrectsAt;
      var s, at := 0, start;
      while s < subrects
        modifies tileBuffer
        invariant 0 <= s <= subrects && at == start + s * size
        invariant s == 0 || coloured || foreground.Some?
        invariant tileBuffer[..n] == Paint(px, tileW, SubrectsAt(tile, start, s, coloured, foreground))
      {
        if !coloured && foreground.None? {
          return false;
        }
        DrawSubrect(tile, start, at, subrects, s, coloured, n, px);
        s, at := s + 1, at + size;
      }
      return true;
    }

    method DrawSubrect(tile: seq<Byte>, ghost start: nat, at: nat, ghost subrects: nat, ghost s: nat, coloured: bool,
                       ghost n: nat, ghost px: seq<Color>)
      requires n <= tileBuffer.Length && s < subrects && (coloured || foreground.Some?)
      requires start + subrects * (if coloured then 6 else 2) <= |tile|
      requires at == start + s * (if coloured then 6 else 2)
      requires start + s * (if coloured then 6 else 2) <= |tile|
      requires tileBuffer[..n] == Paint(px, tileW, SubrectsAt(tile, start, s, coloured, foreground))
      modifies tileBuffer
      ensures start + (s + 1) * (if coloured then 6 else 2) <= |tile|
      ensures tileBuffer[..n] == Paint(px, tileW, SubrectsAt(tile, start, s + 1, coloured, foreground))
    {
      SubrectInTile(tile, start, subrects, s, if coloured then 6 else 2);
      PaintOneMore(px, tileW, tile, start, s, coloured, foreground);
      hide Paint, SubrectsAt, FillRows, SubrectAt;
      SubTile(SubrectAt(tile, at, coloured, foreground), n);
    }

    /**
     One call of `decodeRect`: it takes whole tiles while they last, and returns false (Wait)
     with the queue at the start of the first tile that is incomplete.
     */
    method DecodeRect(g: Area, sock: Websock, display: CallLog, frameId: int) returns (status: Status)
      requires Valid(g) && sock.Valid()
      modifies this, tileBuffer, sock`rQi, sock`mark, sock.rQ, display
      ensures sock.Valid()
      ensures Valid(g)
      ensures var o := HextileFormat.DecodeRect(g, frameId, old(Abs()), old(sock.Unread()));
        && status == o.status
        && display.calls == old(display.calls) + o.calls
        && (status != Fail ==> Abs() == o.state)
        && (status != Fail ==> sock.Unread() == o.rest)
    {
      if tiles == 0 {
        tilesX := (g.w + 15) / 16;
        tilesY := (g.h + 15) / 16;
        totalTiles := tilesX * tilesY;
        tiles := totalTiles;
      }
      status := DecodeTilesLeft(g, sock, display, frameId);
    }

    method DecodeTilesLeft(g: Area, sock: Websock, display: CallLog, frameId: int) returns (status: Status)
      requires Valid(g) && sock.Valid()
      modifies `tiles, `lastsubencoding, `background, `foreground, `tileX, `tileY, `tileW, `tileH,
               tileBuffer, sock`rQi, sock`mark, sock.rQ, display
      ensures sock.Valid() && Valid(g)
      ensures Abs().tiles <= TotalTiles(g) && old(Abs()).tiles <= TotalTiles(g)
      ensures var o := DecodeTiles(g, frameId, old(Abs()), old(sock.Unread()));
        && status == o.status
        && display.calls == old(display.calls) + o.calls
        && (status != Fail ==> Abs() == o.state && sock.Unread() == o.rest)
    {
      hide DecodeTile, TileArea, DecodeTiles, TotalTiles;
      ghost var whole, made := DecodeTiles(g, frameId, Abs(), sock.Unread()), [];
      assert whole == whole.After(made);
      while tiles > 0
        invariant Valid(g) && sock.Valid()
        invariant display.calls == old(display.calls) + made
        invariant whole == DecodeTiles(g, frameId, Abs(), sock.Unread()).After(made)
        decreases tiles
      {
        ghost var r := DecodeTile(TileArea(g, totalTiles - tiles), frameId, Abs().ctx, sock.Unread());
        TilesStep(g, frameId, Abs(), sock.Unread(), made);
        status := NextTile(g, sock, display, frameId);
        made := made + r.calls;
        if status != Done {
          return;
        }
      }
      status := Done;
      NoTilesLeft(g, frameId, Abs(), sock.Unread(), made);
    }

    /** The body of the loop: one tile, or the reason to stop before it. */
    method NextTile(g: Area, sock: Websock, display: CallLog, frameId: int) returns (status: Status)
      requires Valid(g) && tiles > 0 && sock.Valid()
      modifies `tiles, `lastsubencoding, `background, `foreground, `tileX, `tileY, `tileW, `tileH,
               tileBuffer, sock`rQi, sock`mark, sock.rQ, display
      ensures sock.Valid() && Valid(g)
      ensures var r := DecodeTile(TileArea(g, totalTiles - old(tiles)), frameId, old(Abs()).ctx, old(sock.Unread()));
        && status == r.status
        && display.calls == old(display.calls) + r.calls
        && (status == Done ==> Abs() == State(old(tiles) - 1, r.state) && sock.Unread() == r.rest)
        && (status == Wait ==> Abs() == old(Abs()) && sock.Unread() == old(sock.Unread()))
        && (status == Fail ==> tiles == old(tiles))
    {
      hide TileLength, DrawTile, NextContext, TileArea, TotalTiles;
      var t := CurrentTile(g);
      var bytes;
      status, bytes := PeekTile(t, sock);
      if status != Done {
        return;
      }
      LengthOfPrefix(t, sock.Unread(), bytes);
      var ok := TakeTile(t, bytes, sock, display, frameId);
      if !ok {
        return Fail;
      }
      tiles := tiles - 1;
      return Done;
    }

    /** Done with the length of the tile at the front of the queue, once all of it is there. */
    method PeekTile(t: Area, sock: Websock) returns (status: Status, bytes: nat)
      requires sock.Valid()
      ensures var u := sock.Unread();
        if u == [] then status == Wait
        else if u[0] > 30 then status == Fail
        else if TileLength(t, u).None? || TileLength(t, u).value > |u| then status == Wait
        else status == Done && TileLength(t, u) == Some(bytes)
    {
      bytes := 1;
      var lacks := sock.RQlacks(bytes);
      if lacks {
        return Wait, bytes;
      }
      var rQi := sock.rQi;
      var subencoding := sock.rQ[rQi];
      if subencoding > 30 {
        return Fail, bytes;
      }
      if IsRaw(subencoding) {
        bytes := bytes + t.w * t.h * 4;
      } else {
        bytes := bytes + ColorBytes(subencoding);
        if AnySubrects(subencoding) {
          bytes := bytes + 1;
          lacks := sock.RQlacks(bytes);
          if lacks {
            return Wait, bytes;
          }
          bytes := bytes + sock.rQ[rQi + bytes - 1] * SubrectBytes(subencoding);
        }
      }
      lacks := sock.RQlacks(bytes);
      status := if lacks then Wait else Done;
    }

    /** Draws the complete tile at the front of the queue and steps over it. */
    method TakeTile(t: Area, bytes: nat, sock: Websock, display: CallLog, frameId: int) returns (ok: bool)
      requires tileBuffer.Length == TILE * TILE && t.w <= TILE && t.h <= TILE
      requires sock.Valid() && 0 < bytes <= |sock.Unread()| && sock.Unread()[0] <= 30
      requires TileLength(t, sock.Unread()) == Some(bytes)
      requires TileLength(t, sock.Unread()[..bytes]) == Some(bytes)
      modifies `lastsubencoding, `background, `foreground, `tileX, `tileY, `tileW, `tileH, tileBuffer,
               sock`rQi, sock`mark, sock.rQ, display
      ensures sock.Valid()
      ensures var d := DrawTile(t, frameId, old(Abs()).ctx, old(sock.Unread())[..bytes]);
        && ok == d.Some?
        && display.calls == old(display.calls) + (if ok then d.value else [])
      ensures ok ==> Abs().ctx == NextContext(old(Abs()).ctx, old(sock.Unread())[..bytes])
      ensures ok ==> sock.Unread() == old(sock.Unread())[bytes..]
    {
      hide Paint, Solid, SubrectsAt, Opaque, ColorBytes;
      ghost var u, c := sock.Unread(), Abs().ctx;
      var rQi := sock.rQi;
      var tile := sock.rQ[rQi..rQi + bytes];
      assert tile == u[..bytes];
      var subencoding := tile[0];
      if subencoding == 0 {
        if !IsRaw(lastsubencoding) {
          display.Record(Fill(t, background, frameId));
        }
      } else if IsRaw(subencoding) {
        BlitRaw(t, bytes, sock, display, frameId);
        lastsubencoding := subencoding;
        return true;
      } else {
        ok := DrawCoded(t, tile, display, frameId);
        if !ok {
          return;
        }
      }
      sock.RQskipBytes(bytes);
      lastsubencoding := subencoding;
      return true;
    }

    /** The raw branch: the pixels are made opaque where they lie and blitted from there. */
    method BlitRaw(t: Area, bytes: nat, sock: Websock, display: CallLog, frameId: int)
      requires sock.Valid() && bytes == 1 + t.w * t.h * 4 <= |sock.Unread()|
      modifies sock`rQi, sock`mark, sock.rQ, display
      ensures sock.Valid() && sock.Unread() == old(sock.Unread())[bytes..]
      ensures display.calls == old(display.calls) + [RawBlit(t, Opaque(old(sock.Unread())[1..bytes]), frameId)]
    {
      ghost var u := sock.Unread();
      var pixels := t.w * t.h;
      var img := OverwriteAlpha(sock, pixels, u);
      display.Record(RawBlit(t, img, frameId));
      StepOver(sock, bytes, u);
    }

    /** The pixels behind the subencoding byte, made opaque where they lie. */
    method OverwriteAlpha(sock: Websock, pixels: nat, ghost u: seq<Byte>) returns (img: seq<Byte>)
      requires sock.Valid() && 1 + pixels * 4 <= |u| && u == sock.Unread()
      modifies sock.rQ
      ensures img == Opaque(u[1..1 + pixels * 4])
      ensures sock.rQ[sock.rQi + 1 + pixels * 4..sock.rQlen] == u[1 + pixels * 4..]
    {
      hide Opaque;
      var start := sock.rQi + 1;
      SliceOfRest(sock.rQ[..], sock.rQi, sock.rQlen, 1 + pixels * 4);
      assert u == sock.rQ[..][sock.rQi..sock.rQlen];
      assert sock.rQ[start..start + pixels * 4] == sock.rQ[..][start..start + pixels * 4];
      ghost var rest := sock.rQ[start + pixels * 4..sock.rQlen];
      assert rest == sock.rQ[..][start + pixels * 4..sock.rQlen];
      MakeOpaque(sock, start, pixels);
      img := sock.rQ[start..start + pixels * 4];
      assert sock.rQ[start + pixels * 4..sock.rQlen] == rest;
    }

    /** Steps over bytes that no longer are what arrived. */
    method StepOver(sock: Websock, bytes: nat, ghost u: seq<Byte>)
      requires sock.rQ.Length == sock.rQbufferSize <= MAX_RQ_GROW_SIZE
      requires sock.rQi + bytes <= sock.rQlen <= sock.rQbufferSize && |u| == sock.rQlen - sock.rQi
      requires sock.rQ[sock.rQi + bytes..sock.rQlen] == u[bytes..]
      requires |u| <= |sock.received| && u == sock.received[|sock.received| - |u|..]
      modifies sock`rQi, sock`mark
      ensures sock.Valid() && sock.Unread() == u[bytes..]
    {
      assert u[bytes..] == sock.received[|sock.received| - |u[bytes..]|..];
      sock.mark := sock.rQi + bytes;
      sock.rQi := sock.rQi + bytes;
    }

    method CurrentTile(g: Area) returns (t: Area)
      requires Valid(g) && tiles > 0
      ensures t == TileArea(g, totalTiles - tiles)
    {
      var currTile := totalTiles - tiles;
      TileInRange(g, currTile);
      hide TilesX, TotalTiles;
      var tx := g.x + currTile % tilesX * 16;
      var ty := g.y + currTile / tilesX * 16;
      t := Area(tx, ty, Min(16, g.x + g.w - tx), Min(16, g.y + g.h - ty));
    }

    /** Sets every fourth byte, the alpha of a pixel, in place in the receive queue. */
    method MakeOpaque(sock: Websock, start: nat, pixels: nat)
      requires start + pixels * 4 <= sock.rQ.Length
      modifies sock.rQ
      ensures sock.rQ[start..start + pixels * 4] == Opaque(old(sock.rQ[start..start + pixels * 4]))
      ensures forall k :: 0 <= k < sock.rQ.Length && !(start <= k < start + pixels * 4) ==>
        sock.rQ[k] == old(sock.rQ[k])
    {
      var i := 0;
      while i < pixels
        modifies sock.rQ
        invariant 0 <= i <= pixels
        invariant forall k :: 0 <= k < sock.rQ.Length ==>
          sock.rQ[k] == if start <= k < start + i * 4 && (k - start) % 4 == 3 then 255 else old(sock.rQ[k])
      {
        sock.rQ[start + i * 4 + 3] := 255;
        i := i + 1;
      }
    }
  }

  /** One turn of the loop, seen from the function it computes. */
  lemma TilesStep(g: Area, frameId: int, s: State, bytes: seq<Byte>, made: seq<Call>)
    requires 0 < s.tiles <= TotalTiles(g)
    ensures var r := DecodeTile(TileArea(g, TotalTiles(g) - s.tiles), frameId, s.ctx, bytes);
      DecodeTiles(g, frameId, s, bytes).After(made)
      == if r.status == Done then
           DecodeTiles(g, frameId, State(s.tiles - 1, r.state), r.rest).After(made + r.calls)
         else
           Outcome(r.status, s, bytes, made + r.calls)
  {
    hide DecodeTile, TileArea;
    var r := DecodeTile(TileArea(g, TotalTiles(g) - s.tiles), frameId, s.ctx, bytes);
    if r.status == Done {
      AfterAfter(DecodeTiles(g, frameId, State(s.tiles - 1, r.state), r.rest), made, r.calls);
    }
  }

  lemma NoTilesLeft(g: Area, frameId: int, s: State, bytes: seq<Byte>, made: seq<Call>)
    requires s.tiles == 0
    ensures DecodeTiles(g, frameId, s, bytes).After(made) == Outcome(Done, s, bytes, made)
  {
    assert made + [] == made;
  }

  lemma SliceOfRest(s: seq<Byte>, i: nat, end: nat, n: nat)
    requires i + n <= end <= |s| && n >= 1
    ensures s[i..end][1..n] == s[i + 1..i + n] && s[i..end][n..] == s[i + n..end]
  {
    var u := s[i..end];
    assert forall k :: 0 <= k < |u| ==> u[k] == s[i + k];
  }

  lemma LengthOfPrefix(t: Area, u: seq<Byte>, n: nat)
    requires |u| > 0 && TileLength(t, u) == Some(n) && n <= |u|
    ensures TileLength(t, u[..n]) == Some(n)
  {
  }

  lemma PaintNothing(px: seq<Color>, width: nat)
    ensures Paint(px, width, []) == px
  {
  }

  lemma PaintOneMore(px: seq<Color>, width: nat, tile: seq<Byte>, start: nat, s: nat, coloured: bool,
                     foreground: Option<Color>)
    requires start + (s + 1) * (if coloured then 6 else 2) <= |tile| && (coloured || foreground.Some?)
    ensures start + s * (if coloured then 6 else 2) + (if coloured then 6 else 2) <= |tile|
    ensures var r := SubrectAt(tile, start + s * (if coloured then 6 else 2), coloured, foreground);
      Paint(px, width, SubrectsAt(tile, start, s + 1, coloured, foreground))
      == FillRows(Paint(px, width, SubrectsAt(tile, start, s, coloured, foreground)), width, r, r.h)
  {
    hide FillRows, SubrectAt;
    var before, now := SubrectsAt(tile, start, s, coloured, foreground),
                       SubrectsAt(tile, start, s + 1, coloured, foreground);
    assert now[..|now| - 1] == before;
  }

  lemma SubrectInTile(tile: seq<Byte>, start: nat, subrects: nat, s: nat, size: nat)
    requires s < subrects && start + subrects * size <= |tile|
    ensures start + s * size + size <= |tile|
  {
    MulLe(s + 1, subrects, size);
    assert (s + 1) * size == s * size + size;
  }
}
