/**
 Hextile rectangles (section 7.7.4 of RFC 6143) as the client reads them: what one tile's bytes
 mean, and what the decoder does with whatever prefix of a rectangle has arrived.
 */
module HextileFormat {
  import opened Arithmetic
  import opened Bytes
  import opened DrawCalls
  import opened Resumable

  const TILE := 16

  predicate IsRaw(sub: Byte) { sub % 2 == 1 }
  predicate HasBackground(sub: Byte) { sub / 2 % 2 == 1 }
  predicate HasForeground(sub: Byte) { sub / 4 % 2 == 1 }
  predicate AnySubrects(sub: Byte) { sub / 8 % 2 == 1 }
  predicate IsColoured(sub: Byte) { sub / 16 % 2 == 1 }

  // ---- the tiles of a rectangle

  function TilesX(w: nat): nat { (w + 15) / TILE }

  function TotalTiles(g: Area): nat { TilesX(g.w) * TilesX(g.h) }

  function Min(a: int, b: int): int { if a <= b then a else b }

  /** Tile number `k` of rectangle `g`, counted in rows from the top left. */
  function TileArea(g: Area, k: nat): (t: Area)
    requires k < TotalTiles(g)
    ensures 1 <= t.w <= TILE && 1 <= t.h <= TILE
    ensures g.x <= t.x && t.x + t.w <= g.x + g.w && g.y <= t.y && t.y + t.h <= g.y + g.h
  {
    TileInRange(g, k);
    LeftEdge(k % TilesX(g.w), g.w);
    LeftEdge(k / TilesX(g.w), g.h);
    var tx := g.x + k % TilesX(g.w) * TILE;
    var ty := g.y + k / TilesX(g.w) * TILE;
    Area(tx, ty, Min(TILE, g.x + g.w - tx), Min(TILE, g.y + g.h - ty))
  }

  lemma LeftEdge(i: nat, w: nat)
    requires i < TilesX(w)
    ensures i * TILE < w
  {
  }

  lemma TileInRange(g: Area, k: nat)
    requires k < TotalTiles(g)
    ensures TilesX(g.w) > 0 && k % TilesX(g.w) < TilesX(g.w) && k / TilesX(g.w) < TilesX(g.h)
  {
    RowAndColumn(TilesX(g.w), TilesX(g.h), k);
  }

  /** The number of the tile that covers a pixel. */
  function TileOf(g: Area, px: int, py: int): int
    requires g.x <= px && g.y <= py
  {
    (py - g.y) / TILE * TilesX(g.w) + (px - g.x) / TILE
  }

  predicate Covers(t: Area, px: int, py: int) {
    t.x <= px < t.x + t.w && t.y <= py < t.y + t.h
  }

  /** The tiles partition the rectangle: a pixel of it lies in one tile and in no other. */
  lemma {:induction false} TilesPartition(g: Area, px: int, py: int)
    requires Covers(g, px, py)
    ensures 0 <= TileOf(g, px, py) < TotalTiles(g)
    ensures forall k: nat :: k < TotalTiles(g) ==> (Covers(TileArea(g, k), px, py) <==> k == TileOf(g, px, py))
  {
    var n, m := TilesX(g.w), TilesX(g.h);
    var col, row := (px - g.x) / TILE, (py - g.y) / TILE;
    assert 0 <= col < n && 0 <= row < m;
    assert row * n + col < (row + 1) * n <= m * n by {
      assert (row + 1) * n == row * n + n;
      MulLe(row + 1, m, n);
    }
    MulLe(0, row, n);
    forall k: nat | k < TotalTiles(g)
      ensures Covers(TileArea(g, k), px, py) <==> k == TileOf(g, px, py)
    {
      TileInRange(g, k);
      if Covers(TileArea(g, k), px, py) {
        assert k % n == col && k / n == row;
        assert k == n * (k / n) + k % n;
      }
      if k == row * n + col {
        DivModUnique(k, n, row, col);
      }
    }
  }

  // ---- painting a tile

  datatype Subrect = Subrect(x: nat, y: nat, w: nat, h: nat, color: Color)

  function Solid(n: nat, c: Color): (px: seq<Color>)
    ensures |px| == n
  {
    seq(n, _ => c)
  }

  /** `count` pixels from `start` on take the colour; whatever lies past the end is ignored. */
  function FillRow(px: seq<Color>, start: nat, count: nat, c: Color): (r: seq<Color>)
    ensures |r| == |px|
    ensures forall k :: 0 <= k < |px| ==> r[k] == if start <= k < start + count then c else px[k]
  {
    seq(|px|, k requires 0 <= k < |px| => if start <= k < start + count then c else px[k])
  }

  /** The first `rows` rows of a subrectangle, drawn into a tile `tw` pixels wide. */
  function FillRows(px: seq<Color>, tw: nat, s: Subrect, rows: nat): (r: seq<Color>)
    ensures |r| == |px|
  {
    if rows == 0 then px
    else FillRow(FillRows(px, tw, s, rows - 1), s.x + (s.y + rows - 1) * tw, s.w, s.color)
  }

  /** The subrectangles, drawn in order. */
  function Paint(px: seq<Color>, tw: nat, subs: seq<Subrect>): (r: seq<Color>)
    ensures |r| == |px|
  {
    if subs == [] then px
    else var s := subs[|subs| - 1]; FillRows(Paint(px, tw, subs[..|subs| - 1]), tw, s, s.h)
  }

  predicate Inside(s: Subrect, tw: nat, th: nat) {
    s.x + s.w <= tw && s.y + s.h <= th
  }

  predicate InSubrect(s: Subrect, i: int, j: int) {
    s.x <= i < s.x + s.w && s.y <= j < s.y + s.h
  }

  /** The colour of the last subrectangle over a pixel, or the background under all of them. */
  function TopColor(subs: seq<Subrect>, i: int, j: int, background: Color): Color {
    if subs == [] then background
    else if InSubrect(subs[|subs| - 1], i, j) then subs[|subs| - 1].color
    else TopColor(subs[..|subs| - 1], i, j, background)
  }

  lemma {:induction false} RowsCover(px: seq<Color>, tw: nat, th: nat, s: Subrect, rows: nat, i: nat, j: nat)
    requires |px| == tw * th && i < tw && j < th && Inside(s, tw, th) && rows <= s.h
    requires i + j * tw < |px|
    ensures FillRows(px, tw, s, rows)[i + j * tw]
         == if InSubrect(s.(h := rows), i, j) then s.color else px[i + j * tw]
  {
    if rows > 0 {
      RowsCover(px, tw, th, s, rows - 1, i, j);
      RowHit(tw, i, j, s.x, s.w, s.y + rows - 1);
    }
  }

  /** A run of pixels that starts in row `y` and ends there covers no pixel of another row. */
  lemma RowHit(tw: nat, i: nat, j: nat, x: nat, w: nat, y: nat)
    requires i < tw && x + w <= tw
    ensures x + y * tw <= i + j * tw < x + y * tw + w <==> j == y && x <= i < x + w
  {
    if j < y {
      MulLe(j + 1, y, tw);
      assert (j + 1) * tw == j * tw + tw;
    } else if j > y {
      MulLe(y + 1, j, tw);
      assert (y + 1) * tw == y * tw + tw;
    }
  }

  /** After the background and any in-bounds subrectangles, each pixel shows the topmost of them. */
  lemma {:induction false} PaintShowsTop(tw: nat, th: nat, background: Color, subs: seq<Subrect>, i: nat, j: nat)
    requires i < tw && j < th && i + j * tw < tw * th
    requires forall s :: s in subs ==> Inside(s, tw, th)
    ensures Paint(Solid(tw * th, background), tw, subs)[i + j * tw] == TopColor(subs, i, j, background)
  {
    if subs != [] {
      var last, front := subs[|subs| - 1], subs[..|subs| - 1];
      PaintShowsTop(tw, th, background, front, i, j);
      RowsCover(Paint(Solid(tw * th, background), tw, front), tw, th, last, last.h, i, j);
    }
  }

  // ---- the bytes of one tile

  /** Colours and subencoding that carry over to the next tile; None is JavaScript's undefined. */
  datatype Context = Context(lastSub: Byte, background: Option<Color>, foreground: Option<Color>)

  /** The tile's length in bytes, or None while its subrectangle count has not arrived. */
  function TileLength(t: Area, bytes: seq<Byte>): (n: Option<nat>)
    requires |bytes| > 0
    ensures n.Some? ==> n.value >= 1
  {
    var sub := bytes[0];
    if IsRaw(sub) then
      Some(1 + t.w * t.h * 4)
    else
      var colors := ColorBytes(sub);
      if !AnySubrects(sub) then Some(1 + colors)
      else if |bytes| < 2 + colors then None
      else Some(2 + colors + bytes[1 + colors] * SubrectBytes(sub))
  }

  function ColorBytes(sub: Byte): nat {
    (if HasBackground(sub) then 4 else 0) + if HasForeground(sub) then 4 else 0
  }

  function SubrectBytes(sub: Byte): nat {
    if IsColoured(sub) then 6 else 2
  }

  /** Four bytes of a pixel; the last one is padding. */
  function ColorAt(s: seq<Byte>, i: nat): Color
    requires i + 4 <= |s|
  {
    Color(s[i], s[i + 1], s[i + 2])
  }

  function SubrectAt(s: seq<Byte>, i: nat, coloured: bool, foreground: Option<Color>): (r: Subrect)
    requires i + (if coloured then 6 else 2) <= |s|
    requires coloured || foreground.Some?
    ensures r.x < 16 && r.y < 16 && 1 <= r.w <= 16 && 1 <= r.h <= 16
  {
    var p := if coloured then i + 4 else i;
    Subrect(s[p] / 16, s[p] % 16, s[p + 1] / 16 + 1, s[p + 1] % 16 + 1,
            if coloured then ColorAt(s, i) else foreground.value)
  }

  /** The first `n` subrectangles that start at index `i`. */
  function SubrectsAt(s: seq<Byte>, i: nat, n: nat, coloured: bool, foreground: Option<Color>): (subs: seq<Subrect>)
    requires i + n * (if coloured then 6 else 2) <= |s|
    requires n == 0 || coloured || foreground.Some?
    ensures |subs| == n
  {
    if n == 0 then
      []
    else
      SubrectsAt(s, i, n - 1, coloured, foreground)
      + [SubrectAt(s, i + (n - 1) * (if coloured then 6 else 2), coloured, foreground)]
  }

  /** Raw pixels with the alpha byte of each overwritten. */
  function Opaque(s: seq<Byte>): (r: seq<Byte>)
    ensures |r| == |s|
    ensures forall i :: 0 <= i < |s| ==> r[i] == if i % 4 == 3 then 255 else s[i]
  {
    seq(|s|, i requires 0 <= i < |s| => if i % 4 == 3 then 255 else s[i])
  }

  /** The colours in force after a tile that may set them. */
  function NextContext(c: Context, tile: seq<Byte>): Context
    requires |tile| >= 1 && (!IsRaw(tile[0]) ==> |tile| >= 1 + ColorBytes(tile[0]))
  {
    var sub := tile[0];
    if IsRaw(sub) then c.(lastSub := sub)
    else
      var bg := if HasBackground(sub) then Some(ColorAt(tile, 1)) else c.background;
      var fg := if HasForeground(sub) then Some(ColorAt(tile, if HasBackground(sub) then 5 else 1)) else c.foreground;
      Context(sub, bg, fg)
  }

  /**
   What drawing one complete tile does. None stands for the exception that using a colour
   which was never sent raises.
   */
  function DrawTile(t: Area, frameId: int, c: Context, tile: seq<Byte>): Option<seq<Call>>
    requires |tile| >= 1 && tile[0] <= 30 && TileLength(t, tile) == Some(|tile|)
  {
    var sub := tile[0];
    if sub == 0 then
      if IsRaw(c.lastSub) then Some([]) else Some([Fill(t, c.background, frameId)])
    else if IsRaw(sub) then
      Some([RawBlit(t, Opaque(tile[1..]), frameId)])
    else
      var next := NextContext(c, tile);
      var count := if AnySubrects(sub) then tile[1 + ColorBytes(sub)] else 0;
      if next.background.None? || (count > 0 && !IsColoured(sub) && next.foreground.None?) then None
      else
        var subs :=
          if AnySubrects(sub) then SubrectsAt(tile, 2 + ColorBytes(sub), count, IsColoured(sub), next.foreground)
          else [];
        Some([Blit(t, Paint(Solid(t.w * t.h, next.background.value), t.w, subs), frameId)])
  }

  /** Takes one tile off the front of `bytes` if all of it is there. */
  function DecodeTile(t: Area, frameId: int, c: Context, bytes: seq<Byte>): (o: Outcome<Context>)
    ensures o.status != Done ==> o == Outcome(o.status, c, bytes, [])
    ensures |o.rest| <= |bytes| && InFrame(o.calls, frameId)
  {
    if |bytes| == 0 then Outcome(Wait, c, bytes, [])
    else if bytes[0] > 30 then Outcome(Fail, c, bytes, [])
    else
      var n := TileLength(t, bytes);
      if n.None? || |bytes| < n.value then Outcome(Wait, c, bytes, [])
      else
        var tile := bytes[..n.value];
        assert tile[0] == bytes[0];
        var drawn := DrawTile(t, frameId, c, tile);
        if drawn.None? then Outcome(Fail, c, bytes, [])
        else Outcome(Done, NextContext(c, tile), bytes[n.value..], drawn.value)
  }

  // ---- the rectangle

  /** `tiles` counts the tiles still missing from the rectangle in hand; 0 means none is in hand. */
  datatype State = State(tiles: nat, ctx: Context)

  const INITIAL := State(0, Context(0, None, None))

  function DecodeTiles(g: Area, frameId: int, s: State, bytes: seq<Byte>): (o: Outcome<State>)
    requires s.tiles <= TotalTiles(g)
    ensures o.state.tiles <= TotalTiles(g)
    ensures o.status == Wait ==> o.state.tiles > 0
    ensures o.status == Done ==> o.state.tiles == 0
    ensures |o.rest| <= |bytes| && InFrame(o.calls, frameId)
    decreases s.tiles
  {
    if s.tiles == 0 then Outcome(Done, s, bytes, [])
    else
      var r := DecodeTile(TileArea(g, TotalTiles(g) - s.tiles), frameId, s.ctx, bytes);
      if r.status == Done then
        DecodeTiles(g, frameId, State(s.tiles - 1, r.state), r.rest).After(r.calls)
      else
        Outcome(r.status, s, bytes, [])
  }

  /** One call of `decodeRect`. */
  function DecodeRect(g: Area, frameId: int, s: State, bytes: seq<Byte>): Outcome<State>
    requires s.tiles <= TotalTiles(g)
  {
    DecodeTiles(g, frameId, if s.tiles == 0 then s.(tiles := TotalTiles(g)) else s, bytes)
  }

  // ---- independence of fragmentation

  lemma TileResumes(t: Area, frameId: int, c: Context, a: seq<Byte>, b: seq<Byte>)
    requires DecodeTile(t, frameId, c, a).status != Wait
    ensures DecodeTile(t, frameId, c, a + b)
         == var r := DecodeTile(t, frameId, c, a); r.(rest := r.rest + b)
  {
    if a[0] <= 30 {
      assert TileLength(t, a + b) == TileLength(t, a);
      SplitExtended(a, b, TileLength(t, a).value);
    }
    hide TileLength, DrawTile, NextContext;
  }

  lemma {:induction false} TilesResume(g: Area, frameId: int, s: State, a: seq<Byte>, b: seq<Byte>)
    requires s.tiles <= TotalTiles(g)
    ensures var r := DecodeTiles(g, frameId, s, a);
      DecodeTiles(g, frameId, s, a + b)
      == if r.status == Wait then DecodeTiles(g, frameId, r.state, r.rest + b).After(r.calls)
         else r.(rest := r.rest + b)
    decreases s.tiles
  {
    hide DecodeTile, TileArea;
    if s.tiles > 0 {
      var t := TileArea(g, TotalTiles(g) - s.tiles);
      var r := DecodeTile(t, frameId, s.ctx, a);
      if r.status != Wait {
        TileResumes(t, frameId, s.ctx, a, b);
      }
      if r.status == Done {
        var next := State(s.tiles - 1, r.state);
        TilesResume(g, frameId, next, r.rest, b);
        var later := DecodeTiles(g, frameId, next, r.rest);
        if later.status == Wait {
          AfterAfter(DecodeTiles(g, frameId, later.state, later.rest + b), r.calls, later.calls);
        }
      }
    }
  }
}
