/**
 The other end of the wire: hextile tiles as section 7.7.4 of RFC 6143 describes them, their
 encoding, and the picture each stands for. Decoding is judged against this.
 */
module HextileEncoding {
  import opened Arithmetic
  import opened Bytes
  import opened DrawCalls
  import opened Resumable
  import opened HextileFormat

  /** A pixel on the wire: a colour and a padding byte. */
  datatype Pixel = Pixel(color: Color, pad: Byte)

  datatype Box = Box(x: nat, y: nat, w: nat, h: nat)

  datatype Boxes =
    | Mono(boxes: seq<Box>)
    | Coloured(pixels: seq<Pixel>, boxes: seq<Box>)

  datatype Tile =
      /** With the raw bit set the other bits of `flags` mean nothing. */
    | RawTile(flags: Byte, data: seq<Byte>)
    | CodedTile(background: Option<Pixel>, foreground: Option<Pixel>, boxes: Option<Boxes>)

  const BLANK := CodedTile(None, None, None)

  // ---- encoding

  function EncodePixel(p: Pixel): (s: seq<Byte>)
    ensures |s| == 4
  {
    [p.color.r, p.color.g, p.color.b, p.pad]
  }

  function EncodeOptional(p: Option<Pixel>): (s: seq<Byte>)
    ensures |s| == if p.Some? then 4 else 0
  {
    if p.Some? then EncodePixel(p.value) else []
  }

  predicate Fits(b: Box) {
    b.x < 16 && b.y < 16 && 1 <= b.w <= 16 && 1 <= b.h <= 16
  }

  function EncodeBox(b: Box): (s: seq<Byte>)
    requires Fits(b)
    ensures |s| == 2
  {
    [b.x * 16 + b.y, (b.w - 1) * 16 + (b.h - 1)]
  }

  predicate BoxesFit(bs: Boxes) {
    && |bs.boxes| <= 255
    && (forall b :: b in bs.boxes ==> Fits(b))
    && (bs.Coloured? ==> |bs.pixels| == |bs.boxes|)
  }

  /** The first `n` boxes, each after its own colour if it has one. */
  function EncodeBoxes(bs: Boxes, n: nat): (s: seq<Byte>)
    requires BoxesFit(bs) && n <= |bs.boxes|
    ensures |s| == n * (if bs.Coloured? then 6 else 2)
  {
    if n == 0 then [] else EncodeBoxes(bs, n - 1) + EncodeOneBox(bs, n - 1)
  }

  function EncodeOneBox(bs: Boxes, k: nat): (s: seq<Byte>)
    requires BoxesFit(bs) && k < |bs.boxes|
    ensures |s| == if bs.Coloured? then 6 else 2
  {
    (if bs.Coloured? then EncodePixel(bs.pixels[k]) else []) + EncodeBox(bs.boxes[k])
  }

  function Subencoding(t: Tile): Byte {
    if t.RawTile? then
      t.flags
    else
      (if t.background.Some? then 2 else 0) + (if t.foreground.Some? then 4 else 0)
      + if t.boxes.None? then 0 else if t.boxes.value.Mono? then 8 else 24
  }

  function EncodeCounted(boxes: Option<Boxes>): (s: seq<Byte>)
    requires boxes.Some? ==> BoxesFit(boxes.value)
  {
    if boxes.None? then [] else [|boxes.value.boxes|] + EncodeBoxes(boxes.value, |boxes.value.boxes|)
  }

  function EncodeTile(t: Tile): (s: seq<Byte>)
    requires t.CodedTile? && t.boxes.Some? ==> BoxesFit(t.boxes.value)
    ensures |s| >= 1 && s[0] == Subencoding(t)
  {
    if t.RawTile? then
      [Subencoding(t)] + t.data
    else
      [Subencoding(t)] + EncodeOptional(t.background) + EncodeOptional(t.foreground) + EncodeCounted(t.boxes)
  }

  // ---- meaning

  /** Colours a tile starts from; None until one has been sent. */
  datatype Palette = Palette(background: Option<Color>, foreground: Option<Color>)

  function After(p: Palette, t: Tile): Palette {
    if t.RawTile? then p
    else Palette(if t.background.Some? then Some(t.background.value.color) else p.background,
                 if t.foreground.Some? then Some(t.foreground.value.color) else p.foreground)
  }

  /** The tile is one the standard lets a server send here. */
  ghost predicate Legal(area: Area, p: Palette, t: Tile) {
    if t.RawTile? then IsRaw(t.flags) && t.flags <= 30 && |t.data| == area.w * area.h * 4
    else
      && After(p, t).background.Some?
      && (t.boxes.Some? ==>
            && BoxesFit(t.boxes.value)
            && (forall b :: b in t.boxes.value.boxes ==> b.x + b.w <= area.w && b.y + b.h <= area.h)
            && (t.boxes.value.Mono? && t.boxes.value.boxes != [] ==> After(p, t).foreground.Some?))
  }

  /** The subrectangles of a coded tile, each with its colour. */
  function SubrectsOf(bs: Boxes, foreground: Option<Color>, n: nat): (subs: seq<Subrect>)
    requires BoxesFit(bs) && n <= |bs.boxes|
    requires bs.Mono? && n > 0 ==> foreground.Some?
    ensures |subs| == n
    ensures forall k :: 0 <= k < n ==>
      subs[k] == Subrect(bs.boxes[k].x, bs.boxes[k].y, bs.boxes[k].w, bs.boxes[k].h,
                         if bs.Coloured? then bs.pixels[k].color else foreground.value)
  {
    seq(n, k requires 0 <= k < n =>
      Subrect(bs.boxes[k].x, bs.boxes[k].y, bs.boxes[k].w, bs.boxes[k].h,
              if bs.Coloured? then bs.pixels[k].color else foreground.value))
  }

  /** Each pixel in the colour of the topmost subrectangle over it, else the background. */
  function Picture(w: nat, h: nat, background: Color, subs: seq<Subrect>): (px: seq<Color>)
    ensures |px| == w * h
  {
    seq(w * h, k requires 0 <= k < w * h =>
      if w == 0 then background else TopColor(subs, k % w, k / w, background))
  }

  /** The drawing a tile stands for. */
  ghost function Meaning(area: Area, frameId: int, p: Palette, t: Tile): Call
    requires Legal(area, p, t)
  {
    if t.RawTile? then RawBlit(area, Opaque(t.data), frameId)
    else if t == BLANK then Fill(area, p.background, frameId)
    else
      var subs := if t.boxes.None? then []
                  else SubrectsOf(t.boxes.value, After(p, t).foreground, |t.boxes.value.boxes|);
      Blit(area, Picture(area.w, area.h, After(p, t).background.value, subs), frameId)
  }

  // ---- one tile decoded

  lemma {:induction false} BoxesDecode(s: seq<Byte>, i: nat, bs: Boxes, n: nat, foreground: Option<Color>)
    requires BoxesFit(bs) && n <= |bs.boxes|
    requires bs.Mono? && n > 0 ==> foreground.Some?
    requires i + |EncodeBoxes(bs, n)| <= |s| && s[i..i + |EncodeBoxes(bs, n)|] == EncodeBoxes(bs, n)
    ensures SubrectsAt(s, i, n, bs.Coloured?, foreground) == SubrectsOf(bs, foreground, n)
  {
    hide SubrectAt, EncodeOneBox, Fits;
    if n > 0 {
      var front, all := EncodeBoxes(bs, n - 1), EncodeBoxes(bs, n);
      var p := i + |front|;
      assert all == front + EncodeOneBox(bs, n - 1);
      TwoParts(s, i, front, EncodeOneBox(bs, n - 1));
      BoxesDecode(s, i, bs, n - 1, foreground);
      BoxDecodes(s, p, bs, n - 1, foreground);
    }
  }

  lemma TwoParts(s: seq<Byte>, i: nat, front: seq<Byte>, back: seq<Byte>)
    requires i + |front| + |back| <= |s| && s[i..i + |front| + |back|] == front + back
    ensures s[i..i + |front|] == front && s[i + |front|..i + |front| + |back|] == back
  {
    var all := s[i..i + |front| + |back|];
    assert all[..|front|] == front && all[|front|..] == back;
    assert forall k :: 0 <= k < |all| ==> all[k] == s[i + k];
  }

  lemma BoxDecodes(s: seq<Byte>, p: nat, bs: Boxes, k: nat, foreground: Option<Color>)
    requires BoxesFit(bs) && k < |bs.boxes| && (bs.Mono? ==> foreground.Some?)
    requires p + |EncodeOneBox(bs, k)| <= |s| && s[p..p + |EncodeOneBox(bs, k)|] == EncodeOneBox(bs, k)
    ensures SubrectAt(s, p, bs.Coloured?, foreground) == SubrectsOf(bs, foreground, k + 1)[k]
  {
    var e, b := EncodeOneBox(bs, k), bs.boxes[k];
    assert Fits(b);
    if bs.Coloured? {
      assert s[p] == e[0] && s[p + 1] == e[1] && s[p + 2] == e[2];
      assert s[p + 4] == e[4] && s[p + 5] == e[5];
    } else {
      assert s[p] == e[0] && s[p + 1] == e[1];
    }
  }

  /** Painting in order shows, at every pixel, the topmost subrectangle. */
  lemma PaintIsPicture(w: nat, h: nat, background: Color, subs: seq<Subrect>)
    requires forall s :: s in subs ==> Inside(s, w, h)
    ensures Paint(Solid(w * h, background), w, subs) == Picture(w, h, background, subs)
  {
    hide Paint, Solid, TopColor;
    var px := Paint(Solid(w * h, background), w, subs);
    forall k | 0 <= k < w * h
      ensures px[k] == Picture(w, h, background, subs)[k]
    {
      RowAndColumn(w, h, k);
      PaintShowsTop(w, h, background, subs, k % w, k / w);
    }
  }

  lemma SubencodingBits(t: Tile)
    requires t.CodedTile?
    ensures var sub := Subencoding(t);
      && !IsRaw(sub) && sub <= 30
      && (HasBackground(sub) <==> t.background.Some?)
      && (HasForeground(sub) <==> t.foreground.Some?)
      && (AnySubrects(sub) <==> t.boxes.Some?)
      && (AnySubrects(sub) ==> (IsColoured(sub) <==> t.boxes.value.Coloured?))
      && (sub == 0 <==> t == BLANK)
  {
  }

  lemma EncodingLength(area: Area, p: Palette, t: Tile)
    requires Legal(area, p, t)
    ensures TileLength(area, EncodeTile(t)) == Some(|EncodeTile(t)|)
    ensures Subencoding(t) <= 30
  {
    if t.CodedTile? {
      hide IsRaw, HasBackground, HasForeground, AnySubrects, IsColoured, Subencoding;
      SubencodingBits(t);
      if t.boxes.Some? {
        CountAndBoxes(t);
      }
    }
  }

  /** Where the count and the subrectangles of a coded tile lie. */
  lemma CountAndBoxes(t: Tile)
    requires t.CodedTile? && t.boxes.Some? && BoxesFit(t.boxes.value)
    ensures var bs, i := t.boxes.value, 2 + ColorBytes(Subencoding(t));
      var boxes := EncodeBoxes(bs, |bs.boxes|);
      && |EncodeTile(t)| == i + |boxes|
      && EncodeTile(t)[i - 1] == |bs.boxes|
      && EncodeTile(t)[i..i + |boxes|] == boxes
  {
    SubencodingBits(t);
    hide IsRaw, HasBackground, HasForeground, AnySubrects, IsColoured, Subencoding, EncodeBoxes;
    var bs, i := t.boxes.value, 2 + ColorBytes(Subencoding(t));
    var front := [Subencoding(t)] + EncodeOptional(t.background) + EncodeOptional(t.foreground);
    assert |front| == i - 1;
    assert EncodeTile(t) == front + ([|bs.boxes|] + EncodeBoxes(bs, |bs.boxes|));
  }

  lemma ContextFollows(area: Area, p: Palette, t: Tile, c: Context)
    requires Legal(area, p, t) && c.background == p.background && c.foreground == p.foreground
    ensures |EncodeTile(t)| >= 1 + (if IsRaw(Subencoding(t)) then 0 else ColorBytes(Subencoding(t)))
    ensures NextContext(c, EncodeTile(t)) == Context(Subencoding(t), After(p, t).background, After(p, t).foreground)
  {
    if t.CodedTile? {
      SubencodingBits(t);
      hide IsRaw, HasBackground, HasForeground, AnySubrects, IsColoured, Subencoding, EncodeBoxes;
    }
  }

  /** A blank tile that comes right after a raw one. */
  predicate Skipped(c: Context, t: Tile) {
    t == BLANK && IsRaw(c.lastSub)
  }

  /**
   A decoded tile draws what the standard says it shows, except for one kind: a blank tile that
   comes right after a raw one is skipped, where the standard would fill it.
   */
  lemma TileDecodes(area: Area, frameId: int, p: Palette, t: Tile, c: Context)
    requires Legal(area, p, t) && c.background == p.background && c.foreground == p.foreground
    ensures EncodeTile(t)[0] <= 30 && TileLength(area, EncodeTile(t)) == Some(|EncodeTile(t)|)
    ensures DrawTile(area, frameId, c, EncodeTile(t))
         == Some(if Skipped(c, t) then [] else [Meaning(area, frameId, p, t)])
  {
    EncodingLength(area, p, t);
    ContextFollows(area, p, t, c);
    var bytes := EncodeTile(t);
    if t.RawTile? {
      assert bytes[1..] == t.data;
    } else {
      SubencodingBits(t);
      if t != BLANK {
        CodedDecodes(area, frameId, p, t, c);
      }
    }
  }

  lemma CodedDecodes(area: Area, frameId: int, p: Palette, t: Tile, c: Context)
    requires t.CodedTile? && t != BLANK && Legal(area, p, t)
    requires c.background == p.background && c.foreground == p.foreground
    requires EncodeTile(t)[0] <= 30 && TileLength(area, EncodeTile(t)) == Some(|EncodeTile(t)|)
    ensures DrawTile(area, frameId, c, EncodeTile(t)) == Some([Meaning(area, frameId, p, t)])
  {
    hide IsRaw, HasBackground, HasForeground, AnySubrects, IsColoured, Subencoding, NextContext;
    hide Paint, Solid, Picture, EncodeTile, EncodeBoxes, TileLength, SubrectsAt, BoxesFit;
    SubencodingBits(t);
    ContextFollows(area, p, t, c);
    var next := After(p, t);
    if t.boxes.Some? {
      var bs := t.boxes.value;
      CountAndBoxes(t);
      BoxesDecode(EncodeTile(t), 2 + ColorBytes(Subencoding(t)), bs, |bs.boxes|, next.foreground);
      PaintIsPicture(area.w, area.h, next.background.value, SubrectsOf(bs, next.foreground, |bs.boxes|));
    } else {
      PaintIsPicture(area.w, area.h, next.background.value, []);
    }
  }

  // ---- tiles that are refused

  /** A tile of the right shape, whether or not its colours are known. */
  ghost predicate Shaped(area: Area, t: Tile) {
    if t.RawTile? then IsRaw(t.flags) && t.flags <= 30 && |t.data| == area.w * area.h * 4
    else t.boxes.Some? ==> BoxesFit(t.boxes.value)
  }

  /** It needs a colour that has not been sent yet; a blank tile, which is filled with the background, is not asked. */
  predicate Colourless(p: Palette, t: Tile) {
    && t.CodedTile? && t != BLANK
    && (|| After(p, t).background.None?
        || (t.boxes.Some? && t.boxes.value.Mono? && t.boxes.value.boxes != [] && After(p, t).foreground.None?))
  }

  lemma ShapedLength(area: Area, t: Tile)
    requires Shaped(area, t)
    ensures Subencoding(t) <= 30 && TileLength(area, EncodeTile(t)) == Some(|EncodeTile(t)|)
  {
    if t.CodedTile? {
      hide IsRaw, HasBackground, HasForeground, AnySubrects, IsColoured, Subencoding;
      SubencodingBits(t);
      if t.boxes.Some? {
        CountAndBoxes(t);
      }
    }
  }

  /** A first byte above 30 ends the connection by itself; otherwise a whole tile does exactly if it lacks a colour. */
  lemma TileFailsIff(area: Area, frameId: int, p: Palette, t: Tile, c: Context, tail: seq<Byte>)
    requires Shaped(area, t) && c.background == p.background && c.foreground == p.foreground
    ensures DecodeTile(area, frameId, c, EncodeTile(t) + tail).status == if Colourless(p, t) then Fail else Done
    ensures forall sub: Byte :: sub > 30 ==> DecodeTile(area, frameId, c, [sub] + tail).status == Fail
  {
    ShapedLength(area, t);
    var e := EncodeTile(t);
    var bytes := e + tail;
    assert bytes[..|e|] == e && bytes[0] == e[0];
    LengthOfMore(area, e, tail);
    DrawnIff(area, frameId, p, t, c);
    hide DrawTile, EncodeTile, TileLength, NextContext, Colourless, Shaped;
  }

  lemma LengthOfMore(area: Area, e: seq<Byte>, tail: seq<Byte>)
    requires e != [] && TileLength(area, e) == Some(|e|)
    ensures TileLength(area, e + tail) == Some(|e|)
  {
  }

  lemma DrawnIff(area: Area, frameId: int, p: Palette, t: Tile, c: Context)
    requires Shaped(area, t) && c.background == p.background && c.foreground == p.foreground
    requires EncodeTile(t)[0] <= 30 && TileLength(area, EncodeTile(t)) == Some(|EncodeTile(t)|)
    ensures DrawTile(area, frameId, c, EncodeTile(t)).None? <==> Colourless(p, t)
  {
    if t.CodedTile? {
      SubencodingBits(t);
      ColoursFollow(p, t, c);
      if t.boxes.Some? {
        CountAndBoxes(t);
      }
      hide IsRaw, HasBackground, HasForeground, AnySubrects, IsColoured, Subencoding, EncodeBoxes, NextContext, EncodeTile,
        TileLength, SubrectsAt, Paint, Solid;
    }
  }

  lemma ColoursFollow(p: Palette, t: Tile, c: Context)
    requires t.CodedTile? && (t.boxes.Some? ==> BoxesFit(t.boxes.value))
    requires c.background == p.background && c.foreground == p.foreground
    ensures |EncodeTile(t)| >= 1 + ColorBytes(Subencoding(t)) && !IsRaw(Subencoding(t))
    ensures NextContext(c, EncodeTile(t)) == Context(Subencoding(t), After(p, t).background, After(p, t).foreground)
  {
    SubencodingBits(t);
    hide IsRaw, HasBackground, HasForeground, AnySubrects, IsColoured, Subencoding, EncodeBoxes;
  }

  // ---- a whole rectangle, in any fragments

  /** Tiles `k`, `k`+1, ... of `g`: each legal after those before it. */
  ghost predicate LegalTiles(g: Area, k: nat, c: Context, ts: seq<Tile>)
    requires k + |ts| <= TotalTiles(g)
    decreases |ts|
  {
    ts != [] ==>
      var p := Palette(c.background, c.foreground);
      && Legal(TileArea(g, k), p, ts[0])
      && LegalTiles(g, k + 1, ContextAfter(c, ts[0]), ts[1..])
  }

  function ContextAfter(c: Context, t: Tile): Context {
    var q := After(Palette(c.background, c.foreground), t);
    Context(Subencoding(t), q.background, q.foreground)
  }

  function ContextAfterAll(c: Context, ts: seq<Tile>): Context
    decreases |ts|
  {
    if ts == [] then c else ContextAfterAll(ContextAfter(c, ts[0]), ts[1..])
  }

  ghost function EncodeTiles(g: Area, k: nat, c: Context, ts: seq<Tile>): seq<Byte>
    requires k + |ts| <= TotalTiles(g) && LegalTiles(g, k, c, ts)
    decreases |ts|
  {
    if ts == [] then [] else EncodeTile(ts[0]) + EncodeTiles(g, k + 1, ContextAfter(c, ts[0]), ts[1..])
  }

  ghost function Meanings(g: Area, frameId: int, k: nat, c: Context, ts: seq<Tile>): seq<Call>
    requires k + |ts| <= TotalTiles(g) && LegalTiles(g, k, c, ts)
    decreases |ts|
  {
    if ts == [] then
      []
    else
      [Meaning(TileArea(g, k), frameId, Palette(c.background, c.foreground), ts[0])]
      + Meanings(g, frameId, k + 1, ContextAfter(c, ts[0]), ts[1..])
  }

  /** The calls the decoder makes for these tiles. */
  ghost function CallsFor(g: Area, frameId: int, k: nat, c: Context, ts: seq<Tile>): seq<Call>
    requires k + |ts| <= TotalTiles(g) && LegalTiles(g, k, c, ts)
    decreases |ts|
  {
    if ts == [] then
      []
    else
      (if Skipped(c, ts[0]) then []
       else [Meaning(TileArea(g, k), frameId, Palette(c.background, c.foreground), ts[0])])
      + CallsFor(g, frameId, k + 1, ContextAfter(c, ts[0]), ts[1..])
  }

  predicate NoneSkipped(c: Context, ts: seq<Tile>)
    decreases |ts|
  {
    ts == [] || (!Skipped(c, ts[0]) && NoneSkipped(ContextAfter(c, ts[0]), ts[1..]))
  }

  lemma {:induction false} CallsAreMeanings(g: Area, frameId: int, k: nat, c: Context, ts: seq<Tile>)
    requires k + |ts| <= TotalTiles(g) && LegalTiles(g, k, c, ts)
    ensures |CallsFor(g, frameId, k, c, ts)| <= |Meanings(g, frameId, k, c, ts)| == |ts|
    ensures NoneSkipped(c, ts) <==> |CallsFor(g, frameId, k, c, ts)| == |ts|
    ensures NoneSkipped(c, ts) ==> CallsFor(g, frameId, k, c, ts) == Meanings(g, frameId, k, c, ts)
    decreases |ts|
  {
    hide Skipped, Meaning, TileArea, ContextAfter;
    if ts != [] {
      CallsAreMeanings(g, frameId, k + 1, ContextAfter(c, ts[0]), ts[1..]);
    }
  }

  lemma {:induction false} TilesDecode(g: Area, frameId: int, k: nat, c: Context, ts: seq<Tile>, tail: seq<Byte>)
    requires k + |ts| == TotalTiles(g) && LegalTiles(g, k, c, ts)
    ensures DecodeTiles(g, frameId, State(|ts|, c), EncodeTiles(g, k, c, ts) + tail)
         == Outcome(Done, State(0, ContextAfterAll(c, ts)), tail, CallsFor(g, frameId, k, c, ts))
    decreases |ts|
  {
    hide DecodeTile, TileArea, Meaning, EncodeTile, Skipped;
    if ts == [] {
      assert [] + tail == tail;
    } else {
      var e := EncodeTile(ts[0]);
      var more := EncodeTiles(g, k + 1, ContextAfter(c, ts[0]), ts[1..]) + tail;
      assert EncodeTiles(g, k, c, ts) + tail == e + more;
      TileTaken(TileArea(g, k), frameId, c, ts[0], more);
      TilesDecode(g, frameId, k + 1, ContextAfter(c, ts[0]), ts[1..], tail);
    }
  }

  lemma TileTaken(area: Area, frameId: int, c: Context, t: Tile, more: seq<Byte>)
    requires Legal(area, Palette(c.background, c.foreground), t)
    ensures DecodeTile(area, frameId, c, EncodeTile(t) + more)
         == Outcome(Done, ContextAfter(c, t), more,
                    if Skipped(c, t) then [] else [Meaning(area, frameId, Palette(c.background, c.foreground), t)])
  {
    var p := Palette(c.background, c.foreground);
    TileDecodes(area, frameId, p, t, c);
    ContextFollows(area, p, t, c);
    var e := EncodeTile(t);
    assert e[..|e|] == e && e[|e|..] == [];
    assert DecodeTile(area, frameId, c, e).status == Done;
    TileResumes(area, frameId, c, e, more);
    assert [] + more == more;
  }

  /** `decodeRect` for one rectangle, as a decoder of the fragmentation law. */
  function RectDecoder(g: Area, frameId: int): Decoder<State> {
    (s: State, bytes: seq<Byte>) =>
      if s.tiles <= TotalTiles(g) then DecodeRect(g, frameId, s, bytes) else Outcome(Fail, s, bytes, [])
  }

  lemma RectResumes(g: Area, frameId: int)
    ensures Resumes(RectDecoder(g, frameId))
  {
    hide DecodeTiles;
    var dec := RectDecoder(g, frameId);
    forall s: State, a: seq<Byte>, b: seq<Byte>
      ensures ResumesAt(dec, s, a, b)
    {
      if s.tiles <= TotalTiles(g) {
        TilesResume(g, frameId, if s.tiles == 0 then s.(tiles := TotalTiles(g)) else s, a, b);
      }
    }
  }

  /**
   However the bytes of a legal rectangle are cut into messages, and whatever follows them, the
   decoder makes one call for each tile that it does not skip, and leaves exactly what follows.
   These are the calls that the standard's meaning of the tiles demands exactly if no blank tile
   comes right after a raw one.
   */
  lemma AnyFragmentationDecodes(g: Area, frameId: int, c: Context, ts: seq<Tile>,
                                tail: seq<Byte>, messages: seq<seq<Byte>>)
    requires 0 < |ts| == TotalTiles(g) && LegalTiles(g, 0, c, ts)
    requires messages != [] && Concat(messages) == EncodeTiles(g, 0, c, ts) + tail
    ensures Feed(RectDecoder(g, frameId), State(0, c), [], messages)
         == Outcome(Done, State(0, ContextAfterAll(c, ts)), tail, CallsFor(g, frameId, 0, c, ts))
    ensures CallsFor(g, frameId, 0, c, ts) == Meanings(g, frameId, 0, c, ts) <==> NoneSkipped(c, ts)
  {
    hide LegalTiles, EncodeTiles, CallsFor, Meanings, DecodeTiles, NoneSkipped;
    RectResumes(g, frameId);
    FeedIsOneShot(RectDecoder(g, frameId), State(0, c), [], messages);
    assert [] + Concat(messages) == Concat(messages);
    TilesDecode(g, frameId, 0, c, ts, tail);
    CallsAreMeanings(g, frameId, 0, c, ts);
  }

  /**
   A row of three tiles: a coded one that sets the background, a raw one, a blank one. The standard
   has three calls for it; the decoder makes the first two, and leaves the third tile as it was.
   */
  lemma BlankAfterRawIsLost(x: nat, y: nat, frameId: int, c: Context, background: Pixel)
    ensures var g := Area(x, y, 48, 1);
      var ts := [CodedTile(Some(background), None, None), RawTile(1, seq(64, _ => 0)), BLANK];
      && TotalTiles(g) == 3 && LegalTiles(g, 0, c, ts) && !NoneSkipped(c, ts)
      && |Meanings(g, frameId, 0, c, ts)| == 3
      && Meanings(g, frameId, 0, c, ts)[2] == Fill(TileArea(g, 2), Some(background.color), frameId)
      && CallsFor(g, frameId, 0, c, ts) == Meanings(g, frameId, 0, c, ts)[..2]
  {
    var g := Area(x, y, 48, 1);
    var coded, raw := CodedTile(Some(background), None, None), RawTile(1, seq(64, _ => 0));
    assert TotalTiles(g) == 3;
    assert TileArea(g, 1).w == 16 && TileArea(g, 1).h == 1;
    hide TileArea, TotalTiles;
    var c1 := ContextAfter(c, coded);
    var c2 := ContextAfter(c1, raw);
    assert c1 == Context(2, Some(background.color), c.foreground);
    assert c2 == Context(1, Some(background.color), c.foreground);
    assert [coded, raw, BLANK][1..] == [raw, BLANK] && [raw, BLANK][1..] == [BLANK] && [BLANK][1..] == [];
    assert Legal(TileArea(g, 0), Palette(c.background, c.foreground), coded);
    assert Legal(TileArea(g, 1), Palette(c1.background, c1.foreground), raw);
    assert Legal(TileArea(g, 2), Palette(c2.background, c2.foreground), BLANK);
    assert !Skipped(c, coded) && !Skipped(c1, raw) && Skipped(c2, BLANK);
    hide Legal, Skipped, ContextAfter;
    assert LegalTiles(g, 3, ContextAfter(c2, BLANK), []) && LegalTiles(g, 2, c2, [BLANK]);
    assert LegalTiles(g, 1, c1, [raw, BLANK]);
    assert CallsFor(g, frameId, 2, c2, [BLANK]) == [];
    assert !NoneSkipped(c2, [BLANK]);
    assert !NoneSkipped(c1, [raw, BLANK]);
    assert Meanings(g, frameId, 2, c2, [BLANK]) == [Fill(TileArea(g, 2), Some(background.color), frameId)];
    hide Meaning;
    assert CallsFor(g, frameId, 1, c1, [raw, BLANK])
        == [Meaning(TileArea(g, 1), frameId, Palette(c1.background, c1.foreground), raw)];
  }
}
