/**
 What a server sends, as a list of messages, and what it means: updates made of any legal Tight,
 hextile and copy rectangles and of pseudo-rectangles, with any other messages between them.
 */
module UpdateEncoding {
  import opened Bytes
  import opened DrawCalls
  import opened FrameUpdates
  import opened MessageParsing
  import opened Resumable
  import Cursor = CursorDecoding
  import Hextile = HextileFormat
  import HextileEncoding
  import Tight = TightFormat
  import TightEncoding

  datatype Drawing =
    | TightRect(packet: TightEncoding.Packet)
    | HextileRect(tiles: seq<HextileEncoding.Tile>)
    | CopyFrom(x: nat, y: nat)
      /** `solid` holds a 1 for every pixel of the cursor that is not transparent. */
    | CursorShape(colors: seq<Color>, solid: seq<Byte>)
    | DesktopName(name: seq<Byte>)
    | ScreenList(screens: seq<Screen>)
    | DesktopSize
    | ExtendedKeys
    | CursorMoved

  datatype Screen = Screen(id: nat, x: nat, y: nat, w: nat, h: nat, flags: nat)

  datatype Sent = Sent(area: Area, drawing: Drawing)

  /**
   `marked`: the number of rectangles is not known in advance; the announced count is `marked`
   more than that of the rectangles and the marker that closes the list.
   */
  datatype ServerMessage = Update(rects: seq<Sent>, marked: Option<nat>) | Another(bytes: seq<Byte>)

  /** What both ends remember from one rectangle to the next. */
  datatype Peer = Peer(zlibs: seq<seq<Tight.Chunk>>, context: Hextile.Context)

  const START := Peer([[], [], [], []], Hextile.INITIAL.ctx)

  // ---- one rectangle

  predicate IsWord(n: nat) {
    n < 0x1_0000
  }

  ghost predicate LegalRect(z: Tight.Inflate, p: Peer, r: Sent) {
    && |p.zlibs| == 4 && IsWord(r.area.x) && IsWord(r.area.y) && IsWord(r.area.w) && IsWord(r.area.h)
    && match r.drawing
       case TightRect(k) =>
         && TightEncoding.Legal(k, r.area.w, r.area.h)
         && TightEncoding.Inflates(z, Tight.ResetStreams(p.zlibs, k.resets), k.rect, r.area.w, r.area.h)
       case HextileRect(ts) =>
         0 < |ts| == Hextile.TotalTiles(r.area) && HextileEncoding.LegalTiles(r.area, 0, p.context, ts)
       case CopyFrom(x, y) => IsWord(x) && IsWord(y)
       case CursorShape(colors, solid) =>
         |colors| == |solid| == r.area.w * r.area.h && TightEncoding.Below(solid, 2)
       case DesktopName(name) => |name| < 0x8000_0000
       case ScreenList(screens) => |screens| < 256 && forall k :: 0 <= k < |screens| ==> LegalScreen(screens[k])
       case _ => true
  }

  predicate LegalScreen(s: Screen) {
    IsWord(s.x) && IsWord(s.y) && IsWord(s.w) && IsWord(s.h) && s.id < 0x1_0000_0000 && s.flags < 0x1_0000_0000
  }

  /** It draws; the others tell the client something else, and are not counted. */
  predicate Draws(d: Drawing) {
    d.TightRect? || d.HextileRect? || d.CopyFrom?
  }

  ghost function PeerAfter(z: Tight.Inflate, p: Peer, r: Sent): (q: Peer)
    requires LegalRect(z, p, r)
    ensures |q.zlibs| == 4
  {
    match r.drawing
    case TightRect(k) =>
      p.(zlibs := TightEncoding.ZlibsAfter(k.rect, Tight.ResetStreams(p.zlibs, k.resets), r.area.w, r.area.h))
    case HextileRect(ts) => p.(context := HextileEncoding.ContextAfterAll(p.context, ts))
    case _ => p
  }

  function Word2(n: nat): (s: seq<Byte>)
    requires IsWord(n)
    ensures |s| == 2
  {
    [n / 256, n % 256]
  }

  function EncodeHeader(a: Area, encoding: int): (s: seq<Byte>)
    requires IsWord(a.x) && IsWord(a.y) && IsWord(a.w) && IsWord(a.h)
    ensures |s| == 12
  {
    Word2(a.x) + Word2(a.y) + Word2(a.w) + Word2(a.h) + BigEndian32(encoding % 0x1_0000_0000)
  }

  /** The numbers registered for the encodings; section 7.7 of RFC 6143 lists some of them. */
  function EncodingOf(d: Drawing): int {
    match d
    case TightRect(_) => 7
    case HextileRect(_) => 5
    case CopyFrom(_, _) => 1
    case CursorShape(_, _) => -239
    case DesktopName(_) => -307
    case ScreenList(_) => -308
    case DesktopSize => -223
    case ExtendedKeys => -258
    case CursorMoved => 0x574d_5666
  }

  const MARKER := -224

  function EncodeScreens(screens: seq<Screen>): (s: seq<Byte>)
    requires forall k :: 0 <= k < |screens| ==> LegalScreen(screens[k])
    ensures |s| == 16 * |screens|
  {
    if screens == [] then []
    else
      var f := screens[0];
      assert LegalScreen(f);
      BigEndian32(f.id) + Word2(f.x) + Word2(f.y) + Word2(f.w) + Word2(f.h) + BigEndian32(f.flags)
      + EncodeScreens(screens[1..])
  }

  ghost function Payload(z: Tight.Inflate, p: Peer, r: Sent): seq<Byte>
    requires LegalRect(z, p, r)
  {
    match r.drawing
    case TightRect(k) => TightEncoding.Encode(k, r.area.w, r.area.h)
    case HextileRect(ts) => HextileEncoding.EncodeTiles(r.area, 0, p.context, ts)
    case CopyFrom(x, y) => Word2(x) + Word2(y)
    case CursorShape(colors, solid) => Cursor.Bgrx(colors) + TightEncoding.Pack(solid, r.area.w, r.area.h)
    case DesktopName(name) => BigEndian32(|name|) + name
    case ScreenList(screens) => [|screens|, 0, 0, 0] + EncodeScreens(screens)
    case _ => []
  }

  ghost function EncodeRect(z: Tight.Inflate, p: Peer, r: Sent): seq<Byte>
    requires LegalRect(z, p, r)
  {
    EncodeHeader(r.area, EncodingOf(r.drawing)) + Payload(z, p, r)
  }

  /**
   What a rectangle shows. For hextile these are the tiles' meanings exactly if no blank tile
   comes right after a raw one.
   */
  ghost function Shown(z: Tight.Inflate, p: Peer, r: Sent, frameId: int): seq<Call>
    requires LegalRect(z, p, r)
  {
    match r.drawing
    case TightRect(k) => [TightEncoding.Meaning(Tight.Job(r.area, frameId), k.rect)]
    case HextileRect(ts) => HextileEncoding.CallsFor(r.area, frameId, 0, p.context, ts)
    case CopyFrom(x, y) => if r.area.w == 0 || r.area.h == 0 then [] else [CopyImage(x, y, r.area, frameId)]
    case _ => []
  }

  /** The client between two rectangles remembers what the server does. */
  ghost predicate Matches(s: Fbu, p: Peer) {
    s.Ok() && s.header.None? && s.tight.Idle() && s.tight.zlibs == p.zlibs && s.hextile == Hextile.State(0, p.context)
  }

  lemma WordReads(front: seq<Byte>, n: nat, tail: seq<Byte>)
    requires IsWord(n)
    ensures Word(front + Word2(n) + tail, |front|) == n
  {
    var s := front + Word2(n) + tail;
    assert s[|front|..|front| + 2] == Word2(n);
    BigEndian2(Word2(n));
  }

  lemma HeaderReads(a: Area, encoding: int)
    requires IsWord(a.x) && IsWord(a.y) && IsWord(a.w) && IsWord(a.h)
    requires -0x8000_0000 <= encoding < 0x8000_0000
    ensures ParseHeader(EncodeHeader(a, encoding)) == Header(a, encoding)
  {
    var x, y, w, h := Word2(a.x), Word2(a.y), Word2(a.w), Word2(a.h);
    var e := BigEndian32(encoding % 0x1_0000_0000);
    var s := EncodeHeader(a, encoding);
    assert s == [] + x + (y + w + h + e) == x + y + (w + h + e) == x + y + w + (h + e) == (x + y + w) + h + e;
    hide Word2, EncodeHeader, BigEndian32, Word;
    WordReads([], a.x, y + w + h + e);
    WordReads(x, a.y, w + h + e);
    WordReads(x + y, a.w, h + e);
    WordReads(x + y + w, a.h, e);
    assert s[8..] == e;
    SignedReads(encoding);
  }

  lemma SignedReads(n: int)
    requires -0x8000_0000 <= n < 0x8000_0000
    ensures Signed32(BigEndian(BigEndian32(n % 0x1_0000_0000))) == n
  {
    BigEndian4(BigEndian32(n % 0x1_0000_0000));
  }

  lemma CopyReads(area: Area, frameId: int, x: nat, y: nat, tail: seq<Byte>)
    requires IsWord(x) && IsWord(y)
    ensures CopyRect(area, frameId, Word2(x) + Word2(y) + tail)
         == Outcome(Done, (), tail, if area.w == 0 || area.h == 0 then [] else [CopyImage(x, y, area, frameId)])
  {
    var s := Word2(x) + Word2(y) + tail;
    assert s == [] + Word2(x) + (Word2(y) + tail);
    assert s[4..] == tail;
    hide Word2, Word;
    WordReads([], x, Word2(y) + tail);
    WordReads(Word2(x), y, tail);
  }

  /** A pseudo-rectangle takes what was written for it, and no more. */
  lemma PseudoReads(z: Tight.Inflate, p: Peer, r: Sent, tail: seq<Byte>)
    requires LegalRect(z, p, r) && !Draws(r.drawing)
    ensures var h, payload := Header(r.area, EncodingOf(r.drawing)), Payload(z, p, r);
      IsPseudo(h.encoding) && h.encoding != PSEUDO_ENCODING_LAST_RECT && PseudoRect(h, payload + tail) == Some(|payload|)
  {
    var h, payload := Header(r.area, EncodingOf(r.drawing)), Payload(z, p, r);
    var bytes := payload + tail;
    match r.drawing
    case CursorShape(colors, solid) =>
      assert |payload| == CursorBytes(r.area);
    case DesktopName(name) =>
      assert bytes[0..4] == BigEndian32(|name|);
      BigEndian4(BigEndian32(|name|));
      assert Int32(bytes, 0) == |name|;
    case ScreenList(screens) =>
      assert bytes[0] == |screens|;
    case _ =>
  }

  /** A desktop name whose length is negative takes its length, and nothing else. */
  lemma NegativeName(a: Area, n: nat, tail: seq<Byte>)
    requires 0 < n <= 0x8000_0000
    ensures PseudoRect(Header(a, -307), BigEndian32(0x1_0000_0000 - n) + tail) == Some(4)
  {
    var length := BigEndian32(0x1_0000_0000 - n);
    assert (length + tail)[0..4] == length;
    BigEndian4(length);
  }

  /** One rectangle behind its header. */
  lemma RectShows(z: Tight.Inflate, s: Fbu, p: Peer, r: Sent, tail: seq<Byte>) returns (t: Fbu)
    requires Matches(s, p) && s.rects > 0 && LegalRect(z, p, r)
    ensures var inHand := s.(header := Some(Header(r.area, EncodingOf(r.drawing))));
      HandleRect(z, inHand, Payload(z, p, r) + tail) == Outcome(Done, t, tail, Shown(z, p, r, s.frameId))
    ensures t.rects == s.rects && t.rectTotal == s.rectTotal + if Draws(r.drawing) then 1 else 0
    ensures Matches(NextRect(t), PeerAfter(z, p, r))
    ensures t.frameId == s.frameId && t.inbox == s.inbox
  {
    hide Tight.DecodeRect, Hextile.DecodeTiles, CopyRect, TightEncoding.Legal, TightEncoding.Inflates,
      TightEncoding.Encode, TightEncoding.Meaning, TightEncoding.ZlibsAfter, Tight.ResetStreams,
      HextileEncoding.LegalTiles, HextileEncoding.EncodeTiles, HextileEncoding.CallsFor, Hextile.TotalTiles, Word2;
    var inHand := s.(header := Some(Header(r.area, EncodingOf(r.drawing))));
    t := HandleRect(z, inHand, Payload(z, p, r) + tail).state;
    match r.drawing
    case TightRect(k) =>
      TightEncoding.RectDecodes(z, Tight.Job(r.area, s.frameId), k, s.tight, tail);
    case HextileRect(ts) =>
      HextileEncoding.TilesDecode(r.area, s.frameId, 0, p.context, ts, tail);
    case CopyFrom(x, y) =>
      CopyReads(r.area, s.frameId, x, y, tail);
    case _ =>
      PseudoReads(z, p, r, tail);
      assert (Payload(z, p, r) + tail)[|Payload(z, p, r)|..] == tail;
      hide Payload, PseudoRect;
  }

  /** The encodings that have a decoder or a handler, those left out of this model included. */
  predicate IsKnown(encoding: int) {
    || encoding in [0, 1, 2, 5, 7, -260, -261]
    || encoding in [-223, -224, -239, -258, -307, -308, 0x574d_5664, 0x574d_5666]
  }

  /** A rectangle of any other encoding ends the connection; nothing behind its header is read. */
  lemma UnknownFails(z: Tight.Inflate, s: Fbu, a: Area, encoding: int, bytes: seq<Byte>)
    requires s.Ok() && s.header.None? && s.rects > 0 && s.hextile.tiles == 0
    requires IsWord(a.x) && IsWord(a.y) && IsWord(a.w) && IsWord(a.h)
    requires -0x8000_0000 <= encoding < 0x8000_0000 && !IsKnown(encoding)
    ensures Rects(z, s, EncodeHeader(a, encoding) + bytes)
         == Outcome(Fail, s.(header := Some(Header(a, encoding))), bytes, [])
  {
    var header := EncodeHeader(a, encoding);
    HeaderReads(a, encoding);
    assert (header + bytes)[..12] == header && (header + bytes)[12..] == bytes;
    hide EncodeHeader, ParseHeader;
    var inHand := s.(header := Some(Header(a, encoding)));
    assert HandleRect(z, inHand, bytes) == Outcome(Fail, inHand, bytes, []);
    hide HandleRect;
  }

  // ---- one update

  ghost predicate LegalRects(z: Tight.Inflate, p: Peer, rs: seq<Sent>)
    decreases |rs|
  {
    rs == [] || (LegalRect(z, p, rs[0]) && LegalRects(z, PeerAfter(z, p, rs[0]), rs[1..]))
  }

  ghost function PeerAfterAll(z: Tight.Inflate, p: Peer, rs: seq<Sent>): Peer
    requires LegalRects(z, p, rs)
    decreases |rs|
  {
    if rs == [] then p else PeerAfterAll(z, PeerAfter(z, p, rs[0]), rs[1..])
  }

  ghost function EncodeRects(z: Tight.Inflate, p: Peer, rs: seq<Sent>): seq<Byte>
    requires LegalRects(z, p, rs)
    decreases |rs|
  {
    if rs == [] then []
    else EncodeRect(z, p, rs[0]) + EncodeRects(z, PeerAfter(z, p, rs[0]), rs[1..])
  }

  ghost function ShownByRects(z: Tight.Inflate, p: Peer, rs: seq<Sent>, frameId: int): seq<Call>
    requires LegalRects(z, p, rs)
    decreases |rs|
  {
    if rs == [] then []
    else Shown(z, p, rs[0], frameId) + ShownByRects(z, PeerAfter(z, p, rs[0]), rs[1..], frameId)
  }

  /** How many of the rectangles draw. */
  function DrawnIn(rs: seq<Sent>): nat {
    if rs == [] then 0 else (if Draws(rs[0].drawing) then 1 else 0) + DrawnIn(rs[1..])
  }

  lemma MatchesOk(s: Fbu, p: Peer)
    requires Matches(s, p)
    ensures s.Ok()
  {
  }

  lemma Unroll(z: Tight.Inflate, p: Peer, rs: seq<Sent>, frameId: int)
    requires LegalRects(z, p, rs)
    ensures rs == [] ==>
      PeerAfterAll(z, p, rs) == p && EncodeRects(z, p, rs) == [] && ShownByRects(z, p, rs, frameId) == []
    ensures rs != [] ==>
      && LegalRect(z, p, rs[0])
      && var q := PeerAfter(z, p, rs[0]);
         && LegalRects(z, q, rs[1..]) && PeerAfterAll(z, p, rs) == PeerAfterAll(z, q, rs[1..])
         && EncodeRects(z, p, rs) == EncodeRect(z, p, rs[0]) + EncodeRects(z, q, rs[1..])
         && ShownByRects(z, p, rs, frameId) == Shown(z, p, rs[0], frameId) + ShownByRects(z, q, rs[1..], frameId)
  {
    hide LegalRect, PeerAfter, EncodeRect, Shown;
  }

  /** What is left to be read of an update once its first rectangles have been shown. */
  lemma {:induction false} RectsShow(z: Tight.Inflate, s: Fbu, p: Peer, rs: seq<Sent>, tail: seq<Byte>)
    returns (t: Fbu)
    requires Matches(s, p) && s.rects >= |rs| && LegalRects(z, p, rs)
    ensures t.Ok() && Matches(t, PeerAfterAll(z, p, rs))
    ensures t.rects == s.rects - |rs| && t.rectTotal == s.rectTotal + DrawnIn(rs)
    ensures t.frameId == s.frameId && t.inbox == s.inbox
    ensures Rects(z, s, EncodeRects(z, p, rs) + tail)
         == Rects(z, t, tail).After(ShownByRects(z, p, rs, s.frameId))
    decreases |rs|
  {
    hide LegalRect, PeerAfter, EncodeRect, Shown, Matches, Rects, LegalRects, PeerAfterAll, EncodeRects, ShownByRects;
    MatchesOk(s, p);
    Unroll(z, p, rs, s.frameId);
    if rs == [] {
      t := s;
      assert [] + tail == tail;
      NothingBefore(Rects(z, s, tail));
    } else {
      var q := PeerAfter(z, p, rs[0]);
      var first, more := EncodeRect(z, p, rs[0]), EncodeRects(z, q, rs[1..]) + tail;
      assert EncodeRects(z, p, rs) + tail == first + more;
      var next := NextShows(z, s, p, rs[0], more);
      t := RectsShow(z, next, q, rs[1..], tail);
      AfterAfter(Rects(z, t, tail), Shown(z, p, rs[0], s.frameId), ShownByRects(z, q, rs[1..], s.frameId));
    }
  }

  /** A rectangle with its header, and what comes after it. */
  lemma NextShows(z: Tight.Inflate, s: Fbu, p: Peer, r: Sent, more: seq<Byte>) returns (t: Fbu)
    requires Matches(s, p) && s.rects > 0 && LegalRect(z, p, r)
    ensures t.Ok() && Matches(t, PeerAfter(z, p, r)) && t.frameId == s.frameId && t.inbox == s.inbox
    ensures t.rects == s.rects - 1 && t.rectTotal == s.rectTotal + if Draws(r.drawing) then 1 else 0
    ensures Rects(z, s, EncodeRect(z, p, r) + more) == Rects(z, t, more).After(Shown(z, p, r, s.frameId))
  {
    var next := RectShows(z, s, p, r, more);
    t := NextRect(next);
    var header, rest := EncodeHeader(r.area, EncodingOf(r.drawing)), Payload(z, p, r) + more;
    HeaderReads(r.area, EncodingOf(r.drawing));
    assert EncodeRect(z, p, r) + more == header + rest;
    assert (header + rest)[..12] == header && (header + rest)[12..] == rest;
    hide Payload, Shown, HandleRect, ParseHeader, EncodeHeader, LegalRect, PeerAfter, EncodeRect;
  }

  const NOWHERE := Area(0, 0, 0, 0)

  /** The marker ends the update, whatever count was announced. */
  lemma MarkerEnds(z: Tight.Inflate, s: Fbu, tail: seq<Byte>)
    requires s.Ok() && s.header.None? && s.rects > 0 && s.hextile.tiles == 0
    ensures Rects(z, s, EncodeHeader(NOWHERE, MARKER) + tail)
         == Outcome(Done, s.(rects := 0, rectTotal := s.rectTotal + 1), tail, [])
  {
    var header := EncodeHeader(NOWHERE, MARKER);
    HeaderReads(NOWHERE, MARKER);
    assert (header + tail)[..12] == header && (header + tail)[12..] == tail;
    hide EncodeHeader, ParseHeader;
    var inHand := s.(header := Some(Header(NOWHERE, MARKER)));
    var o := HandleRect(z, inHand, tail);
    assert o == Outcome(Done, inHand.(rectTotal := s.rectTotal + 1, rects := 1), tail, []);
    hide HandleRect;
    assert Rects(z, NextRect(o.state), tail) == Outcome(Done, NextRect(o.state), tail, []);
    NothingBefore(Rects(z, NextRect(o.state), tail));
  }

  // ---- a list of messages

  function Announced(m: ServerMessage): nat
    requires m.Update?
  {
    |m.rects| + if m.marked.Some? then 1 + m.marked.value else 0
  }

  /** What closes an update counts what has been drawn, and the marker. */
  function FlipOf(m: ServerMessage, frameId: int): seq<Call>
    requires m.Update?
  {
    var n := DrawnIn(m.rects) + if m.marked.Some? then 1 else 0;
    if n > 1 then [Flip(frameId, n)] else []
  }

  ghost predicate Legal(c: Setup, p: Peer, m: ServerMessage) {
    match m
    case Update(rs, _) => IsWord(Announced(m)) && LegalRects(c.inflate, p, rs)
    case Another(u) =>
      && u != [] && u[0] != 0
      && OtherMessage(u, c.viewOnly).Message? && OtherMessage(u, c.viewOnly).used == |u|
  }

  ghost predicate LegalAll(c: Setup, p: Peer, ms: seq<ServerMessage>)
    decreases |ms|
  {
    ms == [] || (Legal(c, p, ms[0]) && LegalAll(c, After(c, p, ms[0]), ms[1..]))
  }

  ghost function After(c: Setup, p: Peer, m: ServerMessage): Peer
    requires Legal(c, p, m)
  {
    if m.Update? then PeerAfterAll(c.inflate, p, m.rects) else p
  }

  ghost function Encode(c: Setup, p: Peer, m: ServerMessage): seq<Byte>
    requires Legal(c, p, m)
  {
    match m
    case Update(rs, marked) =>
      [0, 0] + Word2(Announced(m)) + EncodeRects(c.inflate, p, rs)
      + if marked.Some? then EncodeHeader(NOWHERE, MARKER) else []
    case Another(u) => u
  }

  ghost function EncodeAll(c: Setup, p: Peer, ms: seq<ServerMessage>): seq<Byte>
    requires LegalAll(c, p, ms)
    decreases |ms|
  {
    if ms == [] then [] else Encode(c, p, ms[0]) + EncodeAll(c, After(c, p, ms[0]), ms[1..])
  }

  /** What a message shows as update number `frameId`. */
  ghost function ShownBy(c: Setup, p: Peer, m: ServerMessage, frameId: int): seq<Call>
    requires Legal(c, p, m)
  {
    if m.Another? then []
    else [NewFrame(frameId)] + ShownByRects(c.inflate, p, m.rects, frameId) + FlipOf(m, frameId)
  }

  function FramesAfter(m: ServerMessage, frames: int): int {
    if m.Update? then frames + 1 else frames
  }

  ghost function ShownByAll(c: Setup, p: Peer, ms: seq<ServerMessage>, frames: int): seq<Call>
    requires LegalAll(c, p, ms)
    decreases |ms|
  {
    if ms == [] then []
    else
      ShownBy(c, p, ms[0], frames + 1) + ShownByAll(c, After(c, p, ms[0]), ms[1..], FramesAfter(ms[0], frames))
  }

  /** What the other messages say, in order. */
  ghost function Notices(c: Setup, p: Peer, ms: seq<ServerMessage>): seq<Notice>
    requires LegalAll(c, p, ms)
    decreases |ms|
  {
    if ms == [] then [] else NoticeOf(c, p, ms[0]) + Notices(c, After(c, p, ms[0]), ms[1..])
  }

  ghost function NoticeOf(c: Setup, p: Peer, m: ServerMessage): seq<Notice>
    requires Legal(c, p, m)
  {
    if m.Another? then [OtherMessage(m.bytes, c.viewOnly).value] else []
  }

  /** The client between two messages. */
  ghost predicate Between(s: Fbu, p: Peer) {
    Matches(s, p) && s.rects == 0
  }

  /** The bytes of an update behind its header. */
  ghost function Body(z: Tight.Inflate, p: Peer, m: ServerMessage): seq<Byte>
    requires m.Update? && LegalRects(z, p, m.rects)
  {
    EncodeRects(z, p, m.rects) + if m.marked.Some? then EncodeHeader(NOWHERE, MARKER) else []
  }

  function UpdateHeader(m: ServerMessage): (s: seq<Byte>)
    requires m.Update? && IsWord(Announced(m))
    ensures |s| == 4 && s[0] == 0
  {
    [0, 0] + Word2(Announced(m))
  }

  lemma EncodedParts(c: Setup, p: Peer, m: ServerMessage, tail: seq<Byte>)
    requires Legal(c, p, m) && m.Update?
    ensures Encode(c, p, m) == UpdateHeader(m) + Body(c.inflate, p, m)
    ensures var all := Encode(c, p, m) + tail;
      && |all| >= 4 && all[..4] == UpdateHeader(m) && all[4..] == Body(c.inflate, p, m) + tail
  {
    hide LegalRects, EncodeRects, EncodeHeader, Word2;
    assert Encode(c, p, m) == UpdateHeader(m) + Body(c.inflate, p, m);
  }

  lemma Begun(s: Fbu, m: ServerMessage)
    requires m.Update? && IsWord(Announced(m))
    ensures Begin(s, UpdateHeader(m)) == s.(rects := Announced(m), frameId := s.frameId + 1, rectTotal := 0)
    ensures s.Ok() && s.header.None? ==> Begin(s, UpdateHeader(m)).Ok()
  {
    hide Word2, Announced, Word;
    WordReads([0, 0], Announced(m), []);
    assert [0, 0] + Word2(Announced(m)) + [] == UpdateHeader(m);
  }

  /** The client once it has taken the message. */
  ghost function Taken(c: Setup, s: Fbu, p: Peer, m: ServerMessage): (t: Fbu)
    requires Between(s, p) && Legal(c, p, m)
  {
    if m.Another? then Heard(s, OtherMessage(m.bytes, c.viewOnly).value)
    else
      Begun(s, m);
      Rects(c.inflate, Begin(s, UpdateHeader(m)), Body(c.inflate, p, m)).state
  }

  /** The rectangles of an update, marker included, are read to their end and no further. */
  lemma BodyShows(c: Setup, s: Fbu, p: Peer, m: ServerMessage, tail: seq<Byte>)
    requires Between(s, p) && Legal(c, p, m) && m.Update?
    ensures Begin(s, UpdateHeader(m)).Ok()
    ensures var t := Taken(c, s, p, m);
      && Rects(c.inflate, Begin(s, UpdateHeader(m)), Body(c.inflate, p, m) + tail)
         == Outcome(Done, t, tail, ShownByRects(c.inflate, p, m.rects, s.frameId + 1))
      && Between(t, After(c, p, m)) && t.frameId == s.frameId + 1 && t.inbox == s.inbox
      && FlipCalls(t) == FlipOf(m, s.frameId + 1)
  {
    hide Rects, ShownByRects, Between, Body, Begin, UpdateHeader, Legal, After, FlipOf, FlipCalls, LegalRects,
      Announced;
    UpdateIsLegal(c, p, m);
    Begun(s, m);
    BodyEnds(c, s, p, m);
    var body := Body(c.inflate, p, m);
    RectsResume(c.inflate, Begin(s, UpdateHeader(m)), body, tail);
    assert [] + tail == tail;
  }

  lemma BodyEnds(c: Setup, s: Fbu, p: Peer, m: ServerMessage)
    requires Between(s, p) && Legal(c, p, m) && m.Update?
    ensures Begin(s, UpdateHeader(m)).Ok()
    ensures var o := Rects(c.inflate, Begin(s, UpdateHeader(m)), Body(c.inflate, p, m));
      && o.status == Done && o.rest == [] && o.calls == ShownByRects(c.inflate, p, m.rects, s.frameId + 1)
      && Between(o.state, After(c, p, m)) && o.state.frameId == s.frameId + 1 && o.state.inbox == s.inbox
      && FlipCalls(o.state) == FlipOf(m, s.frameId + 1)
  {
    hide LegalRects, PeerAfterAll, EncodeRects, ShownByRects, EncodeHeader, Rects, Begin, UpdateHeader;
    Begun(s, m);
    var z := c.inflate;
    var begun := Begin(s, UpdateHeader(m));
    var marker := if m.marked.Some? then EncodeHeader(NOWHERE, MARKER) else [];
    assert Body(z, p, m) == EncodeRects(z, p, m.rects) + (marker + []);
    var shown := RectsShow(z, begun, p, m.rects, marker + []);
    var t := EndOfUpdate(z, m, shown, marker, []);
    var drawn := ShownByRects(z, p, m.rects, s.frameId + 1);
    assert drawn + [] == drawn;
  }

  lemma UpdateShows(c: Setup, pausing: bool, s: Fbu, p: Peer, m: ServerMessage, tail: seq<Byte>)
    requires Between(s, p) && Legal(c, p, m) && m.Update?
    ensures var t := Taken(c, s, p, m);
      && Between(t, After(c, p, m)) && t.frameId == s.frameId + 1 && t.inbox == s.inbox
      && Pump(c, pausing, s, Encode(c, p, m) + tail)
         == Pump(c, pausing, t, tail).After(ShownBy(c, p, m, s.frameId + 1))
  {
    hide Legal, After, Encode, Body, FlipOf, ShownByRects, Rects, Begin, UpdateHeader, Taken;
    var id := s.frameId + 1;
    EncodedParts(c, p, m, tail);
    UpdateIsLegal(c, p, m);
    var t := Taken(c, s, p, m);
    BodyShows(c, s, p, m, tail);
    var begun, body := Begin(s, UpdateHeader(m)), Body(c.inflate, p, m) + tail;
    var drawn := ShownByRects(c.inflate, p, m.rects, id);
    Begun(s, m);
    assert Finish(c, pausing, begun, body) == Pump(c, pausing, t, tail).After(drawn + FlipOf(m, id));
    assert Pump(c, pausing, s, Encode(c, p, m) + tail) == Finish(c, pausing, begun, body).After([NewFrame(id)]);
    hide Pump, Finish;
    AfterAfter(Pump(c, pausing, t, tail), [NewFrame(id)], drawn + FlipOf(m, id));
    assert [NewFrame(id)] + (drawn + FlipOf(m, id)) == [NewFrame(id)] + drawn + FlipOf(m, id);
  }

  lemma UpdateIsLegal(c: Setup, p: Peer, m: ServerMessage)
    requires Legal(c, p, m) && m.Update?
    ensures IsWord(Announced(m)) && LegalRects(c.inflate, p, m.rects)
  {
  }

  lemma EndOfUpdate(z: Tight.Inflate, m: ServerMessage, shown: Fbu, marker: seq<Byte>, tail: seq<Byte>)
    returns (t: Fbu)
    requires m.Update? && shown.Ok() && shown.header.None? && shown.hextile.tiles == 0
    requires shown.rects == Announced(m) - |m.rects|
    requires marker == if m.marked.Some? then EncodeHeader(NOWHERE, MARKER) else []
    ensures t == shown.(rects := 0, rectTotal := shown.rectTotal + if m.marked.Some? then 1 else 0)
    ensures Rects(z, shown, marker + tail) == Outcome(Done, t, tail, [])
  {
    t := shown.(rects := 0, rectTotal := shown.rectTotal + if m.marked.Some? then 1 else 0);
    if m.marked.Some? {
      MarkerEnds(z, shown, tail);
    } else {
      assert marker + tail == tail;
    }
  }

  /** A message behind which the client's own loop stops. */
  predicate IsPausing(c: Setup, m: ServerMessage) {
    && m.Another? && m.bytes != []
    && OtherMessage(m.bytes, c.viewOnly).Message? && Pauses(OtherMessage(m.bytes, c.viewOnly).value)
  }

  lemma MessageShows(c: Setup, pausing: bool, s: Fbu, p: Peer, m: ServerMessage, tail: seq<Byte>)
    requires Between(s, p) && Legal(c, p, m)
    ensures var t := Taken(c, s, p, m);
      && Between(t, After(c, p, m)) && t.frameId == FramesAfter(m, s.frameId)
      && t.inbox == s.inbox + NoticeOf(c, p, m)
      && Pump(c, pausing, s, Encode(c, p, m) + tail)
         == if pausing && IsPausing(c, m) then Outcome(Wait, t, tail, [])
            else Pump(c, pausing, t, tail).After(ShownBy(c, p, m, s.frameId + 1))
  {
    hide OtherMessage, Finish, LegalRects, PeerAfterAll, EncodeRects, ShownByRects;
    var t := Taken(c, s, p, m);
    if m.Update? {
      UpdateShows(c, pausing, s, p, m, tail);
      assert t.inbox + [] == t.inbox;
    } else {
      var u := m.bytes;
      OtherMessageStable(u, tail, c.viewOnly);
      assert (u + tail)[|u|..] == tail;
      assert Pump(c, pausing, s, u + tail) == Hear(c, pausing, s, u + tail);
      NothingBefore(Pump(c, pausing, t, tail));
    }
  }

  /** Any list of messages, one after the other, is taken in full and shows what its messages show. */
  lemma {:induction false} MessagesShow(c: Setup, s: Fbu, p: Peer, ms: seq<ServerMessage>) returns (t: Fbu)
    requires Between(s, p) && LegalAll(c, p, ms)
    ensures t.rects == 0 && t.inbox == s.inbox + Notices(c, p, ms)
    ensures Pump(c, false, s, EncodeAll(c, p, ms)) == Outcome(Wait, t, [], ShownByAll(c, p, ms, s.frameId))
    decreases |ms|
  {
    hide Legal, After, Encode, ShownBy, NoticeOf, FramesAfter, Taken;
    if ms == [] {
      t := s;
      assert s.inbox + [] == s.inbox;
    } else {
      hide Pump, Between;
      var q, rest := After(c, p, ms[0]), EncodeAll(c, After(c, p, ms[0]), ms[1..]);
      var next := Taken(c, s, p, ms[0]);
      MessageShows(c, false, s, p, ms[0], rest);
      t := MessagesShow(c, next, q, ms[1..]);
      var heard := NoticeOf(c, p, ms[0]);
      assert s.inbox + heard + Notices(c, q, ms[1..]) == s.inbox + (heard + Notices(c, q, ms[1..]));
    }
  }

  lemma StartMatches()
    ensures Between(INITIAL, START) && INITIAL.frameId == 0 && INITIAL.inbox == []
  {
  }
}
