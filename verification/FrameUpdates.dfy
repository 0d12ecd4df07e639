/**
 The message loop, from the byte stream to the calls on the display: FramebufferUpdate messages
 (section 7.6.1 of RFC 6143) with their rectangle headers and decoders, and the other messages
 between them, any of which may run out of bytes. A loop that never pauses is again a decoder
 that is independent of fragmentation; the client's own loop, which pauses behind some messages,
 is compared with that one.
 */
module FrameUpdates {
  import opened Bytes
  import opened DrawCalls
  import opened MessageParsing
  import opened Resumable
  import Hextile = HextileFormat
  import Tight = TightFormat

  const ENCODING_COPYRECT := 1
  const ENCODING_HEXTILE := 5
  const ENCODING_TIGHT := 7
  const PSEUDO_ENCODING_LAST_RECT := -224
  const PSEUDO_ENCODING_DESKTOP_SIZE := -223
  const PSEUDO_ENCODING_CURSOR := -239
  const PSEUDO_ENCODING_QEMU_EXTENDED_KEY_EVENT := -258
  const PSEUDO_ENCODING_DESKTOP_NAME := -307
  const PSEUDO_ENCODING_EXTENDED_DESKTOP_SIZE := -308
  const PSEUDO_ENCODING_VMWARE_CURSOR_POSITION := 0x574d_5666

  /** What a connection is set up with. */
  datatype Setup = Setup(inflate: Tight.Inflate, viewOnly: bool)

  /** A rectangle header that has been read. */
  datatype Header = Header(area: Area, encoding: int)

  /** The `_FBU` record, the decoders' own state, and the notices taken from other messages, in order. */
  datatype Fbu = Fbu(rects: nat, header: Option<Header>, frameId: int, rectTotal: nat,
                     hextile: Hextile.State, tight: Tight.State, inbox: seq<Notice>)
  {
    ghost predicate Ok() {
      && tight.Ok()
      && (hextile.tiles > 0 ==> header.Some? && header.value.encoding == ENCODING_HEXTILE)
      && (header.Some? ==> hextile.tiles <= Hextile.TotalTiles(header.value.area))
      && (header.Some? ==> rects > 0)
    }
  }

  const INITIAL := Fbu(0, None, 0, 0, Hextile.INITIAL,
                       Tight.State(None, None, 0, seq(Tight.PALETTE_SIZE, _ => 0), 0, [[], [], [], []]), [])

  // ---- one rectangle

  function Word(s: seq<Byte>, i: nat): nat
    requires i + 2 <= |s|
  {
    BigEndian(s[i..i + 2])
  }

  function ParseHeader(hdr: seq<Byte>): Header
    requires |hdr| == 12
  {
    Header(Area(Word(hdr, 0), Word(hdr, 2), Word(hdr, 4), Word(hdr, 6)), Signed32(BigEndian(hdr[8..])))
  }

  function CopyRect(area: Area, frameId: int, bytes: seq<Byte>): (o: Outcome<()>)
    ensures |o.rest| <= |bytes| && InFrame(o.calls, frameId)
    ensures o.status != Done ==> o == Outcome(Wait, (), bytes, [])
  {
    if |bytes| < 4 then Outcome(Wait, (), bytes, [])
    else if area.w == 0 || area.h == 0 then Outcome(Done, (), bytes[4..], [])
    else Outcome(Done, (), bytes[4..], [CopyImage(Word(bytes, 0), Word(bytes, 2), area, frameId)])
  }

  predicate IsPseudo(encoding: int) {
    || encoding == PSEUDO_ENCODING_DESKTOP_SIZE || encoding == PSEUDO_ENCODING_CURSOR
    || encoding == PSEUDO_ENCODING_QEMU_EXTENDED_KEY_EVENT || encoding == PSEUDO_ENCODING_DESKTOP_NAME
    || encoding == PSEUDO_ENCODING_EXTENDED_DESKTOP_SIZE || encoding == PSEUDO_ENCODING_VMWARE_CURSOR_POSITION
  }

  /** Four bytes a pixel, and a mask of one bit a pixel. */
  function CursorBytes(area: Area): nat {
    area.w * area.h * 4 + (area.w + 7) / 8 * area.h
  }

  /** How many bytes a pseudo-rectangle takes; None while they are not all there. */
  function PseudoRect(h: Header, bytes: seq<Byte>): (n: Option<nat>)
    ensures n.Some? ==> n.value <= |bytes|
  {
    if h.encoding == PSEUDO_ENCODING_CURSOR then
      if |bytes| < CursorBytes(h.area) then None else Some(CursorBytes(h.area))
    else if h.encoding == PSEUDO_ENCODING_DESKTOP_NAME then
      if |bytes| < 4 || |bytes| < 4 + Max0(Int32(bytes, 0)) then None else Some(4 + Max0(Int32(bytes, 0)))
    else if h.encoding == PSEUDO_ENCODING_EXTENDED_DESKTOP_SIZE then
      if |bytes| < 4 || |bytes| < 4 + 16 * (bytes[0] as int) then None else Some(4 + 16 * (bytes[0] as int))
    else Some(0)
  }

  /** `_handleRect`, for the encodings modelled; any other one ends the connection. */
  function HandleRect(z: Tight.Inflate, s: Fbu, bytes: seq<Byte>): (o: Outcome<Fbu>)
    requires s.Ok() && s.header.Some?
    ensures o.state.Ok() && o.state.header == s.header && o.state.frameId == s.frameId && o.state.inbox == s.inbox
    ensures |o.rest| <= |bytes| && InFrame(o.calls, s.frameId)
    ensures o.state.rects == s.rects || (o.status == Done && o.state.rects == 1)
    ensures o.status == Done ==> o.state.hextile.tiles == 0
  {
    var h := s.header.value;
    if h.encoding == PSEUDO_ENCODING_LAST_RECT then
      Outcome(Done, s.(rectTotal := s.rectTotal + 1, rects := 1), bytes, [])
    else if IsPseudo(h.encoding) then
      match PseudoRect(h, bytes)
      case None => Outcome(Wait, s, bytes, [])
      case Some(n) => Outcome(Done, s, bytes[n..], [])
    else if h.encoding == ENCODING_TIGHT then
      var o := Tight.DecodeRect(z, Tight.Job(h.area, s.frameId), s.tight, bytes);
      Outcome(o.status, Decoded(s.(tight := o.state), o.status), o.rest, o.calls)
    else if h.encoding == ENCODING_HEXTILE then
      var o := Hextile.DecodeRect(h.area, s.frameId, s.hextile, bytes);
      Outcome(o.status, Decoded(s.(hextile := o.state), o.status), o.rest, o.calls)
    else if h.encoding == ENCODING_COPYRECT then
      var o := CopyRect(h.area, s.frameId, bytes);
      Outcome(o.status, Decoded(s, o.status), o.rest, o.calls)
    else
      Outcome(Fail, s, bytes, [])
  }

  /** Only rectangles that were drawn, and the last-rectangle marker, count. */
  function Decoded(s: Fbu, status: Status): Fbu {
    if status == Done then s.(rectTotal := s.rectTotal + 1) else s
  }

  // ---- one update

  function NextRect(s: Fbu): Fbu
    requires s.rects > 0
  {
    s.(rects := s.rects - 1, header := None)
  }

  function Rects(z: Tight.Inflate, s: Fbu, bytes: seq<Byte>): (o: Outcome<Fbu>)
    requires s.Ok()
    ensures o.state.Ok() && |o.rest| <= |bytes| && InFrame(o.calls, s.frameId) && o.state.frameId == s.frameId
    ensures o.state.inbox == s.inbox
    ensures o.status == Done ==> o.state.rects == 0
    ensures o.status == Wait ==> o.state.rects > 0
    decreases s.rects, s.header.None?
  {
    if s.rects == 0 then Outcome(Done, s, bytes, [])
    else if s.header.None? then
      if |bytes| < 12 then Outcome(Wait, s, bytes, [])
      else Rects(z, s.(header := Some(ParseHeader(bytes[..12]))), bytes[12..])
    else
      var o := HandleRect(z, s, bytes);
      if o.status == Done then Rects(z, NextRect(o.state), o.rest).After(o.calls) else o
  }

  function FlipCalls(s: Fbu): seq<Call> {
    if s.rectTotal > 1 then [Flip(s.frameId, s.rectTotal)] else []
  }

  // ---- the message loop

  function Begin(s: Fbu, header: seq<Byte>): Fbu
    requires |header| == 4
  {
    s.(rects := Word(header, 2), frameId := s.frameId + 1, rectTotal := 0)
  }

  /**
   `_handleMessage`: messages are taken while they last. A loop that pauses stops behind a message
   whose handler returns nothing, as if it had to wait. Less than a whole message header is left
   unread, which is what the rewind in `_framebufferUpdate` amounts to.
   */
  function Pump(c: Setup, pausing: bool, s: Fbu, bytes: seq<Byte>): (o: Outcome<Fbu>)
    requires s.Ok()
    ensures o.state.Ok() && o.status != Done && |o.rest| <= |bytes|
    decreases |bytes|, if s.rects > 0 then 2 else 0
  {
    if s.rects > 0 then Finish(c, pausing, s, bytes)
    else if |bytes| == 0 then Outcome(Wait, s, bytes, [])
    else if bytes[0] != 0 then Hear(c, pausing, s, bytes)
    else if |bytes| < 4 then Outcome(Wait, s, bytes, [])
    else
      var s' := Begin(s, bytes[..4]);
      Finish(c, pausing, s', bytes[4..]).After([NewFrame(s'.frameId)])
  }

  /** A message that is not an update, and what comes after it. */
  function Hear(c: Setup, pausing: bool, s: Fbu, bytes: seq<Byte>): (o: Outcome<Fbu>)
    requires s.Ok() && s.rects == 0 && bytes != []
    ensures o.state.Ok() && o.status != Done && |o.rest| <= |bytes|
    decreases |bytes|, -1
  {
    match OtherMessage(bytes, c.viewOnly)
    case More => Outcome(Wait, s, bytes, [])
    case Bad => Outcome(Fail, s, bytes, [])
    case Message(notice, used) =>
      if pausing && Pauses(notice) then Outcome(Wait, Heard(s, notice), bytes[used..], [])
      else Pump(c, pausing, Heard(s, notice), bytes[used..])
  }

  function Heard(s: Fbu, notice: Notice): Fbu {
    s.(inbox := s.inbox + [notice])
  }

  /** The rest of an update, and what comes after it. */
  function Finish(c: Setup, pausing: bool, s: Fbu, bytes: seq<Byte>): (o: Outcome<Fbu>)
    requires s.Ok()
    ensures o.state.Ok() && o.status != Done && |o.rest| <= |bytes|
    decreases |bytes|, 1
  {
    var o := Rects(c.inflate, s, bytes);
    if o.status == Done then Pump(c, pausing, o.state, o.rest).After(o.calls + FlipCalls(o.state)) else o
  }

  // ---- independence of fragmentation

  lemma CopyRectResumes(area: Area, frameId: int, a: seq<Byte>, b: seq<Byte>)
    requires CopyRect(area, frameId, a).status != Wait
    ensures CopyRect(area, frameId, a + b)
         == var o := CopyRect(area, frameId, a); o.(rest := o.rest + b)
  {
    SplitExtended(a, b, 4);
    assert (a + b)[0..2] == a[0..2] && (a + b)[2..4] == a[2..4];
  }

  lemma PseudoRectStable(h: Header, a: seq<Byte>, b: seq<Byte>)
    requires PseudoRect(h, a).Some?
    ensures PseudoRect(h, a + b) == PseudoRect(h, a)
  {
    if |a| >= 4 {
      SliceOfExtended(a, b, 0, 4);
    }
  }

  lemma HandleRectResumes(z: Tight.Inflate, s: Fbu, a: seq<Byte>, b: seq<Byte>)
    requires s.Ok() && s.header.Some?
    ensures var o := HandleRect(z, s, a);
      HandleRect(z, s, a + b)
      == if o.status == Wait then HandleRect(z, o.state, o.rest + b).After(o.calls) else o.(rest := o.rest + b)
  {
    hide Tight.DecodeRect, Hextile.DecodeTiles, CopyRect, PseudoRect;
    var h := s.header.value;
    var o := HandleRect(z, s, a);
    if IsPseudo(h.encoding) {
      match PseudoRect(h, a)
      case None =>
        NothingBefore(HandleRect(z, s, a + b));
      case Some(n) =>
        PseudoRectStable(h, a, b);
        SplitExtended(a, b, n);
    } else if h.encoding == ENCODING_TIGHT {
      var j := Tight.Job(h.area, s.frameId);
      Tight.DecodeRectResumes(z, j, s.tight, a, b);
      NothingBefore(HandleRect(z, o.state, o.rest + b));
    } else if h.encoding == ENCODING_HEXTILE {
      var t := if s.hextile.tiles == 0 then s.hextile.(tiles := Hextile.TotalTiles(h.area)) else s.hextile;
      Hextile.TilesResume(h.area, s.frameId, t, a, b);
    } else if h.encoding == ENCODING_COPYRECT {
      if CopyRect(h.area, s.frameId, a).status != Wait {
        CopyRectResumes(h.area, s.frameId, a, b);
      }
      NothingBefore(HandleRect(z, o.state, o.rest + b));
    }
  }

  lemma NothingBefore<S>(o: Outcome<S>)
    ensures o.After([]) == o
  {
    assert [] + o.calls == o.calls;
  }

  lemma {:induction false} RectsResume(z: Tight.Inflate, s: Fbu, a: seq<Byte>, b: seq<Byte>)
    requires s.Ok()
    ensures var o := Rects(z, s, a);
      Rects(z, s, a + b)
      == if o.status == Wait then Rects(z, o.state, o.rest + b).After(o.calls) else o.(rest := o.rest + b)
    decreases s.rects, s.header.None?
  {
    hide HandleRect, ParseHeader;
    if s.rects > 0 {
      if s.header.None? {
        if |a| < 12 {
          NothingBefore(Rects(z, s, a + b));
        } else {
          SplitExtended(a, b, 12);
          RectsResume(z, s.(header := Some(ParseHeader(a[..12]))), a[12..], b);
        }
      } else {
        HandleRectResumes(z, s, a, b);
        var o := HandleRect(z, s, a);
        if o.status == Done {
          RectsResume(z, NextRect(o.state), o.rest, b);
          var later := Rects(z, NextRect(o.state), o.rest);
          if later.status == Wait {
            AfterAfter(Rects(z, later.state, later.rest + b), o.calls, later.calls);
          }
        } else if o.status == Wait {
          RectsAfterWait(z, o.state, o.rest + b, o.calls);
        }
      }
    }
  }

  /** Going on with a rectangle in hand, whatever was drawn of it before. */
  lemma RectsAfterWait(z: Tight.Inflate, s: Fbu, bytes: seq<Byte>, before: seq<Call>)
    requires s.Ok() && s.header.Some?
    ensures Rects(z, s, bytes).After(before)
         == var r := HandleRect(z, s, bytes);
            if r.status == Done then Rects(z, NextRect(r.state), r.rest).After(before + r.calls) else r.After(before)
  {
    hide HandleRect;
    var r := HandleRect(z, s, bytes);
    if r.status == Done {
      AfterAfter(Rects(z, NextRect(r.state), r.rest), before, r.calls);
    }
  }

  /**
   Whether or not the loop has paused on what came first, a loop that never pauses gets from where
   it stands to where it would have got with everything at once. For a loop that never pauses this
   is the law of a decoder.
   */
  lemma {:induction false} PumpResumes(c: Setup, pausing: bool, s: Fbu, a: seq<Byte>, b: seq<Byte>)
    requires s.Ok()
    ensures var o := Pump(c, pausing, s, a);
      Pump(c, false, s, a + b)
      == if o.status == Wait then Pump(c, false, o.state, o.rest + b).After(o.calls) else o.(rest := o.rest + b)
    decreases |a|, if s.rects > 0 then 2 else 0
  {
    hide Finish, Hear;
    if s.rects > 0 {
      FinishResumes(c, pausing, s, a, b);
    } else if |a| == 0 {
      assert a + b == b;
      NothingBefore(Pump(c, false, s, b));
    } else if a[0] != 0 {
      HearResumes(c, pausing, s, a, b);
    } else if |a| < 4 {
      NothingBefore(Pump(c, false, s, a + b));
    } else {
      SplitExtended(a, b, 4);
      var s' := Begin(s, a[..4]);
      FinishResumes(c, pausing, s', a[4..], b);
      var o := Finish(c, pausing, s', a[4..]);
      if o.status == Wait {
        AfterAfter(Pump(c, false, o.state, o.rest + b), [NewFrame(s'.frameId)], o.calls);
      }
    }
  }

  lemma {:induction false} HearResumes(c: Setup, pausing: bool, s: Fbu, a: seq<Byte>, b: seq<Byte>)
    requires s.Ok() && s.rects == 0 && a != [] && a[0] != 0
    ensures var o := Hear(c, pausing, s, a);
      Hear(c, false, s, a + b)
      == if o.status == Wait then Pump(c, false, o.state, o.rest + b).After(o.calls) else o.(rest := o.rest + b)
    decreases |a|, -1
  {
    hide OtherMessage;
    match OtherMessage(a, c.viewOnly)
    case More =>
      NothingBefore(Pump(c, false, s, a + b));
    case Bad =>
      OtherMessageStable(a, b, c.viewOnly);
    case Message(notice, used) =>
      OtherMessageStable(a, b, c.viewOnly);
      SplitExtended(a, b, used);
      hide Pump;
      if pausing && Pauses(notice) {
        NothingBefore(Pump(c, false, Heard(s, notice), a[used..] + b));
      } else {
        PumpResumes(c, pausing, Heard(s, notice), a[used..], b);
      }
  }

  lemma {:induction false} FinishResumes(c: Setup, pausing: bool, s: Fbu, a: seq<Byte>, b: seq<Byte>)
    requires s.Ok()
    ensures var o := Finish(c, pausing, s, a);
      Finish(c, false, s, a + b)
      == if o.status == Wait then Pump(c, false, o.state, o.rest + b).After(o.calls) else o.(rest := o.rest + b)
    decreases |a|, 1
  {
    hide Rects, Pump;
    RectsResume(c.inflate, s, a, b);
    var o := Rects(c.inflate, s, a);
    if o.status == Done {
      PumpResumes(c, pausing, o.state, o.rest, b);
      var later := Pump(c, pausing, o.state, o.rest);
      if later.status == Wait {
        AfterAfter(Pump(c, false, later.state, later.rest + b), o.calls + FlipCalls(o.state), later.calls);
      }
    } else if o.status == Wait {
      FinishAfterWait(c, false, o.state, o.rest + b, o.calls);
    }
  }

  lemma FinishAfterWait(c: Setup, pausing: bool, s: Fbu, bytes: seq<Byte>, before: seq<Call>)
    requires s.Ok() && s.rects > 0
    ensures Pump(c, pausing, s, bytes) == Finish(c, pausing, s, bytes)
    ensures Finish(c, pausing, s, bytes).After(before)
         == var o := Rects(c.inflate, s, bytes).After(before);
            if o.status == Done then Pump(c, pausing, o.state, o.rest).After(o.calls + FlipCalls(o.state)) else o
  {
    hide Rects;
    var o := Rects(c.inflate, s, bytes);
    if o.status == Done {
      AfterAfter(Pump(c, pausing, o.state, o.rest), before, o.calls + FlipCalls(o.state));
      assert before + (o.calls + FlipCalls(o.state)) == (before + o.calls) + FlipCalls(o.state);
    }
  }

  // ---- messages that are not consumed whole

  lemma NextInLine(c: Setup, s: Fbu, u: seq<Byte>)
    requires s.Ok() && s.rects == 0 && u != [] && u[0] != 0 && OtherMessage(u, c.viewOnly).Message?
    ensures var m := OtherMessage(u, c.viewOnly);
      Pump(c, false, s, u) == Pump(c, false, Heard(s, m.value), u[m.used..])
  {
    hide OtherMessage;
    assert Pump(c, false, s, u) == Hear(c, false, s, u);
  }

  lemma LeftoverBell(c: Setup, s: Fbu, u: seq<Byte>, notice: Notice, used: nat)
    requires s.Ok() && s.rects == 0 && u != [] && u[0] != 0 && used + 1 == |u| && u[used] == 2
    requires OtherMessage(u, c.viewOnly) == Message(notice, used)
    ensures Pump(c, false, s, u) == Outcome(Wait, Heard(Heard(s, notice), Bell), [], [])
  {
    NextInLine(c, s, u);
    var rest := u[used..];
    assert rest == [2] && rest[1..] == [];
    assert OtherMessage(rest, c.viewOnly) == Message(Bell, 1);
    hide OtherMessage;
    NextInLine(c, Heard(s, notice), rest);
  }

  function LongFence(): (u: seq<Byte>)
    ensures |u| == 74 && u[0] == 248 && u[4] == 128 && u[8] == 65 && u[73] == 2
    ensures u[4..8] == [128, 0, 0, 0] && forall k :: 9 <= k < 73 ==> u[k] == 0
  {
    [248, 0, 0, 0, 128, 0, 0, 0, 65] + seq(64, _ => 0) + [2]
  }

  /** One fence of 65 bytes, the last of which is taken for a bell. */
  lemma FenceLeftover(c: Setup, s: Fbu)
    requires s.Ok() && s.rects == 0
    ensures Pump(c, false, s, LongFence())
         == Outcome(Wait, Heard(Heard(s, Fenced(Fence(0, seq(64, _ => 0)))), Bell), [], [])
  {
    var u := LongFence();
    BigEndian4(u[4..8]);
    assert u[9..73] == seq(64, _ => 0);
    assert ServerFence(u) == Message(Fence(0, seq(64, _ => 0)), 73);
    LeftoverBell(c, s, u, Fenced(Fence(0, seq(64, _ => 0))), 73);
  }

  /** A provided text of an unwanted format, five bytes long: four are read, and the fifth rings the bell. */
  const UNWANTED: seq<Byte> := [3, 0, 0, 0, 255, 255, 255, 251, 16, 0, 0, 0, 2]

  lemma ExtendedLeftover(c: Setup, s: Fbu)
    requires s.Ok() && s.rects == 0
    ensures Pump(c, false, s, UNWANTED) == Outcome(Wait, Heard(Heard(s, Cut(Extended(0x1000_0000))), Bell), [], [])
  {
    var u := UNWANTED;
    BigEndian4(u[4..8]);
    BigEndian4(u[8..12]);
    assert Int32(u, 4) == -5 && Int32(u, 8) == 0x1000_0000;
    assert Actions(0x1000_0000) == 16;
    assert ServerCutText(u, c.viewOnly) == Message(Extended(0x1000_0000), 12);
    LeftoverBell(c, s, u, Cut(Extended(0x1000_0000)), 12);
  }
}
