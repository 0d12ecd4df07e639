/** The client's message loop as it runs: `_handleMessage`, `_normalMsg`, `_framebufferUpdate` and `_handleRect`. */
module UpdateLoop {
  import opened Bytes
  import opened DrawCalls
  import opened MessageHandlers
  import opened MessageParsing
  import opened Resumable
  import opened ReceiveQueue
  import opened FrameUpdates
  import opened HextileDecoding
  import opened TightDecoding
  import Cursor = CursorDecoding
  import Hextile = HextileFormat
  import Tight = TightFormat

  class RfbClient {
    var rects: nat
    var header: Option<Header>
    var frameId: int
    var rectTotal: nat
    var inbox: seq<Notice>
    const viewOnly: bool
    const hextile: HextileDecoder
    const tight: TightDecoder

    ghost function Abs(): Fbu
      reads this, hextile, tight, tight.palette
    {
      Fbu(rects, header, frameId, rectTotal, hextile.Abs(), tight.Abs(), inbox)
    }

    ghost function Config(): Setup {
      Setup(tight.inflate, viewOnly)
    }

    ghost predicate Valid(sock: Websock)
      reads this, hextile, tight, tight.palette, sock, sock.rQ
    {
      && tight.Valid() && sock.Valid() && Abs().Ok()
      && sock.rQ != tight.palette && sock.rQ != tight.scratchBuffer
      && hextile.tileBuffer.Length == Hextile.TILE * Hextile.TILE
      && (header.Some? ==> hextile.Valid(header.value.area))
    }

    constructor (z: Tight.Inflate, viewOnly: bool)
      ensures Abs() == INITIAL && Config() == Setup(z, viewOnly) && fresh(tight) && fresh(hextile)
      ensures tight.Valid() && fresh(tight.palette) && fresh(tight.scratchBuffer) && fresh(hextile.tileBuffer)
      ensures hextile.tileBuffer.Length == Hextile.TILE * Hextile.TILE
    {
      rects, frameId, rectTotal := 0, 0, 0;
      header, inbox := None, [];
      this.viewOnly := viewOnly;
      hextile := new HextileDecoder();
      tight := new TightDecoder(z);
      new;
      assert hextile.Valid(Area(0, 0, 0, 0));
    }

    /**
     Takes messages off the queue while they last. Wait: no further step can be taken yet, or a
     handler has returned nothing.
     */
    method HandleMessage(sock: Websock, display: CallLog) returns (status: Status)
      requires Valid(sock)
      modifies this, hextile, hextile.tileBuffer, tight, tight.palette, tight.scratchBuffer,
               sock`rQi, sock`mark, sock.rQ, display
      ensures var o := Pump(Config(), true, old(Abs()), old(sock.Unread()));
        && status == o.status && display.calls == old(display.calls) + o.calls
        && (status == Wait ==> Valid(sock) && Abs() == o.state && sock.Unread() == o.rest)
    {
      hide Pump;
      ghost var whole, made := Pump(Config(), true, Abs(), sock.Unread()), [];
      NothingBefore(whole);
      while true
        invariant Valid(sock)
        invariant tight.scratchBuffer == old(tight.scratchBuffer) || fresh(tight.scratchBuffer)
        invariant display.calls == old(display.calls) + made
        invariant whole == Pump(Config(), true, Abs(), sock.Unread()).After(made)
        decreases |sock.Unread()|, rects
      {
        ghost var now;
        status, now := NormalMsg(sock, display);
        if status == Done {
          AfterAfter(Pump(Config(), true, Abs(), sock.Unread()), made, now);
        }
        made := made + now;
        if status != Done {
          break;
        }
      }
    }

    /** One message, or the rest of the update in hand. */
    method NormalMsg(sock: Websock, display: CallLog) returns (status: Status, ghost made: seq<Call>)
      requires Valid(sock)
      modifies this, hextile, hextile.tileBuffer, tight, tight.palette, tight.scratchBuffer,
               sock`rQi, sock`mark, sock.rQ, display
      ensures tight.scratchBuffer == old(tight.scratchBuffer) || fresh(tight.scratchBuffer)
      ensures display.calls == old(display.calls) + made
      ensures var whole := Pump(Config(), true, old(Abs()), old(sock.Unread()));
        if status == Fail then whole.status == Fail && whole.calls == made
        else Valid(sock) && Went(Config(), whole, status, made, Abs(), sock.Unread())
      ensures status == Done ==>
        && |sock.Unread()| <= |old(sock.Unread())|
        && (|sock.Unread()| < |old(sock.Unread())| || rects < old(rects))
    {
      hide Pump, Finish;
      var go;
      ghost var front;
      status, go, front := StartMessage(sock, display);
      if !go {
        return status, [];
      }
      status, made := UpdateInHand(sock, display, front);
    }

    /** Up to the rectangles of an update: a whole message of another type, or an update's header. */
    method StartMessage(sock: Websock, display: CallLog) returns (status: Status, go: bool, ghost front: seq<Call>)
      requires Valid(sock)
      modifies `rects, `frameId, `rectTotal, `inbox, sock`rQi, display
      ensures display.calls == old(display.calls) + front
      ensures go ==>
        && Valid(sock)
        && Pump(Config(), true, old(Abs()), old(sock.Unread()))
           == Finish(Config(), true, Abs(), sock.Unread()).After(front)
        && |sock.Unread()| <= |old(sock.Unread())|
        && (|sock.Unread()| < |old(sock.Unread())| || 0 < rects == old(rects))
      ensures !go ==>
        && front == []
        && (status == Done ==> Valid(sock) && |sock.Unread()| < |old(sock.Unread())|)
        && var whole := Pump(Config(), true, old(Abs()), old(sock.Unread()));
           if status == Fail then whole.status == Fail && whole.calls == []
           else Valid(sock) && Went(Config(), whole, status, [], Abs(), sock.Unread())
    {
      hide Pump, Finish, Hear, Begin;
      PumpBegins(Config(), Abs(), sock.Unread());
      if rects > 0 {
        return Done, true, [];
      }
      var n := sock.Available();
      if n == 0 {
        return Wait, false, [];
      }
      ghost var u := sock.Unread();
      var msgType := sock.RQshiftBytes(1);
      assert AfterType(sock) == u;
      if msgType[0] != 0 {
        status := OtherMsg(sock, msgType[0]);
        return status, false, [];
      }
      status := ReadUpdateHeader(sock);
      if status == Wait {
        return Wait, false, [];
      }
      display.Record(NewFrame(frameId));
      return Done, true, [NewFrame(frameId)];
    }

    /** A message whose type has been read, and is not an update. */
    method OtherMsg(sock: Websock, msgType: nat) returns (status: Status)
      requires Valid(sock) && rects == 0 && sock.mark < sock.rQi && AfterType(sock)[0] == msgType
      modifies `inbox, sock`rQi
      ensures var whole := Hear(Config(), true, old(Abs()), old(AfterType(sock)));
        if status == Fail then whole.status == Fail && whole.calls == []
        else Valid(sock) && Went(Config(), whole, status, [], Abs(), sock.Unread())
      ensures status == Done ==> |sock.Unread()| < |old(AfterType(sock))|
      ensures rects == old(rects)
    {
      hide Pump, OtherMessage;
      ghost var u, start := AfterType(sock), sock.rQi - 1;
      var reply := HandleOther(sock, msgType, viewOnly);
      match reply
      case Thrown => return Fail;
      case Waiting =>
        UnreadOfMessage(sock, u, start, 0);
        return Wait;
      case Got(notice) =>
        UnreadOfMessage(sock, u, start, OtherMessage(u, viewOnly).used);
        inbox := inbox + [notice];
        NothingBefore(Pump(Config(), true, Abs(), sock.Unread()));
        return if Pauses(notice) then Wait else Done;
    }

    /** The update in hand, after the calls in `front`. */
    method UpdateInHand(sock: Websock, display: CallLog, ghost front: seq<Call>)
      returns (status: Status, ghost made: seq<Call>)
      requires Valid(sock)
      modifies this, hextile, hextile.tileBuffer, tight, tight.palette, tight.scratchBuffer,
               sock`rQi, sock`mark, sock.rQ, display
      ensures tight.scratchBuffer == old(tight.scratchBuffer) || fresh(tight.scratchBuffer)
      ensures |made| >= |front| && made[..|front|] == front
      ensures display.calls == old(display.calls) + made[|front|..]
      ensures var whole := Finish(Config(), true, old(Abs()), old(sock.Unread())).After(front);
        if status == Fail then whole.status == Fail && whole.calls == made
        else Valid(sock) && Went(Config(), whole, status, made, Abs(), sock.Unread())
      ensures status == Done ==> rects == 0 && |sock.Unread()| <= |old(sock.Unread())|
    {
      hide Pump, Finish;
      ghost var s, u := Abs(), sock.Unread();
      FinishUnfolds(Config(), s, u, front);
      ghost var now;
      status, now := FramebufferUpdate(sock, display);
      made := front + now;
      hide Rects;
    }

    /** Padding and count, once the type is read; with fewer than three bytes the type is put back. */
    method ReadUpdateHeader(sock: Websock) returns (status: Status)
      requires Valid(sock) && rects == 0 && sock.mark < sock.rQi
      modifies `rects, `frameId, `rectTotal, sock`rQi
      ensures Valid(sock)
      ensures var u := old(AfterType(sock));
        if |u| < 4 then status == Wait && Abs() == old(Abs()) && sock.Unread() == u
        else status == Done && Abs() == Begin(old(Abs()), u[..4]) && sock.Unread() == u[4..]
    {
      ghost var u, start := AfterType(sock), sock.rQi - 1;
      var ready := WaitFor(sock, 3, 1, u, start);
      if !ready {
        UnreadOfMessage(sock, u, start, 0);
        return Wait;
      }
      Skip(sock, 1, u, start, 1);
      var count := Take16(sock, u, start, 2);
      UnreadOfMessage(sock, u, start, 4);
      assert u[..4][2..4] == u[2..4];
      rects := count;
      frameId := frameId + 1;
      rectTotal := 0;
      return Done;
    }

    /** The rectangles of an update, and the flip that closes it. */
    method FramebufferUpdate(sock: Websock, display: CallLog) returns (status: Status, ghost made: seq<Call>)
      requires Valid(sock)
      modifies this, hextile, hextile.tileBuffer, tight, tight.palette, tight.scratchBuffer,
               sock`rQi, sock`mark, sock.rQ, display
      ensures tight.scratchBuffer == old(tight.scratchBuffer) || fresh(tight.scratchBuffer)
      ensures display.calls == old(display.calls) + made
      ensures var o := Rects(tight.inflate, old(Abs()), old(sock.Unread()));
        && status == o.status && made == o.calls + (if status == Done then FlipCalls(o.state) else [])
        && (status != Fail ==> Valid(sock) && Abs() == o.state && sock.Unread() == o.rest)
    {
      hide Rects, HandleRect, ParseHeader;
      ghost var whole := Rects(tight.inflate, Abs(), sock.Unread());
      made := [];
      NothingBefore(whole);
      while rects > 0
        invariant Valid(sock)
        invariant tight.scratchBuffer == old(tight.scratchBuffer) || fresh(tight.scratchBuffer)
        invariant display.calls == old(display.calls) + made
        invariant whole == Rects(tight.inflate, Abs(), sock.Unread()).After(made)
        decreases rects, header.None?
      {
        ghost var now;
        status, now := HeaderOrRect(sock, display);
        if status == Done {
          AfterAfter(Rects(tight.inflate, Abs(), sock.Unread()), made, now);
        }
        made := made + now;
        if status != Done {
          return;
        }
      }
      RectsUnfold(tight.inflate, Abs(), sock.Unread(), made);
      CloseUpdate(display);
      status := Done;
      made := made + FlipCalls(Abs());
    }

    method CloseUpdate(display: CallLog)
      modifies display
      ensures display.calls == old(display.calls) + FlipCalls(Abs())
    {
      if rectTotal > 1 {
        display.Record(Flip(frameId, rectTotal));
      }
    }

    /** One turn of the loop: a rectangle's header if it is missing, the rectangle otherwise. */
    method HeaderOrRect(sock: Websock, display: CallLog) returns (status: Status, ghost made: seq<Call>)
      requires Valid(sock) && rects > 0
      modifies `rects, `header, `rectTotal, hextile, hextile.tileBuffer, tight, tight.palette, tight.scratchBuffer,
               sock`rQi, sock`mark, sock.rQ, display
      ensures tight.scratchBuffer == old(tight.scratchBuffer) || fresh(tight.scratchBuffer)
      ensures display.calls == old(display.calls) + made
      ensures status != Fail ==> Valid(sock)
      ensures var whole := Rects(tight.inflate, old(Abs()), old(sock.Unread()));
        && (status == Fail ==> whole.status == Fail && whole.calls == made)
        && (status == Wait ==> whole == Outcome(Wait, Abs(), sock.Unread(), made))
        && (status == Done ==> whole == Rects(tight.inflate, Abs(), sock.Unread()).After(made))
      ensures status == Done ==> rects < old(rects) || (rects == old(rects) && header.Some? && old(header.None?))
    {
      hide Rects, HandleRect, ParseHeader;
      RectsUnfold(tight.inflate, Abs(), sock.Unread(), []);
      NothingBefore(Rects(tight.inflate, Abs(), sock.Unread()));
      if header.None? {
        made := [];
        var lacks := sock.RQlacks(12);
        if lacks {
          return Wait, [];
        }
        var hdr := sock.RQshiftBytes(12);
        header := Some(ParseHeader(hdr));
        return Done, [];
      }
      status, made := OneRect(sock, display);
      assert [] + made == made;
      if status == Done {
        rects := rects - 1;
        header := None;
      }
    }

    /** `_handleRect` with the header read. */
    method OneRect(sock: Websock, display: CallLog) returns (status: Status, ghost made: seq<Call>)
      requires Valid(sock) && header.Some?
      modifies `rects, `rectTotal, hextile, hextile.tileBuffer, tight, tight.palette, tight.scratchBuffer,
               sock`rQi, sock`mark, sock.rQ, display
      ensures tight.scratchBuffer == old(tight.scratchBuffer) || fresh(tight.scratchBuffer)
      ensures display.calls == old(display.calls) + made
      ensures var o := HandleRect(tight.inflate, old(Abs()), old(sock.Unread()));
        && status == o.status && made == o.calls
        && (status != Fail ==> Valid(sock) && Abs() == o.state && sock.Unread() == o.rest)
    {
      hide Tight.DecodeRect, Hextile.DecodeTiles, CopyRect, PseudoRect;
      var h := header.value;
      ghost var s, u := Abs(), sock.Unread();
      made := HandleRect(tight.inflate, s, u).calls;
      if h.encoding == PSEUDO_ENCODING_LAST_RECT {
        rectTotal := rectTotal + 1;
        rects := 1;
        return Done, [];
      } else if IsPseudo(h.encoding) {
        status := HandlePseudo(h, sock);
        return status, [];
      } else if h.encoding == ENCODING_TIGHT {
        status := tight.DecodeRect(Tight.Job(h.area, frameId), sock, display);
      } else if h.encoding == ENCODING_HEXTILE {
        status := hextile.DecodeRect(h.area, sock, display, frameId);
      } else if h.encoding == ENCODING_COPYRECT {
        status := DecodeCopyRect(h.area, sock, display);
      } else {
        return Fail, [];
      }
      if status == Done {
        rectTotal := rectTotal + 1;
      }
    }

    /** Each pseudo-rectangle that has a payload waits for all of it. */
    method HandlePseudo(h: Header, sock: Websock) returns (status: Status)
      requires sock.Valid() && IsPseudo(h.encoding)
      modifies sock`rQi
      ensures sock.Valid()
      ensures Took(PseudoRect(h, old(sock.Unread())), old(sock.Unread()), sock.Unread(), status)
    {
      hide CursorBytes, Int32;
      if h.encoding == PSEUDO_ENCODING_CURSOR {
        // `_updateCursor`, which shows the picture, is not part of this model.
        var image;
        status, image := HandleCursor(h.area, sock);
      } else if h.encoding == PSEUDO_ENCODING_DESKTOP_NAME {
        status := HandleDesktopName(sock);
      } else if h.encoding == PSEUDO_ENCODING_EXTENDED_DESKTOP_SIZE {
        var lacks := sock.RQlacks(4);
        if lacks {
          return Wait;
        }
        var numberOfScreens: int := sock.RQpeek8();
        status := TakeAll(sock, 4 + numberOfScreens * 16);
      } else {
        status := Done;
      }
    }

    /** Waits for the pixels and the mask together, then makes one picture of them. */
    method HandleCursor(area: Area, sock: Websock) returns (status: Status, image: seq<Byte>)
      requires sock.Valid()
      modifies sock`rQi
      ensures sock.Valid()
      ensures var u, n := old(sock.Unread()), CursorBytes(area);
        && Took(if |u| < n then None else Some(n), u, sock.Unread(), status)
        && (status == Done ==> image == CursorIn(area, u))
    {
      hide CursorBytes, Cursor.Picture, Tight.RowBytes;
      CursorSizes(area);
      var pixelslength := area.w * area.h * 4;
      var masklength := (area.w + 7) / 8 * area.h;
      ghost var u := sock.Unread();
      var ready, pixels, mask := TakeTwo(sock, pixelslength, masklength);
      if !ready {
        return Wait, [];
      }
      var rgba := Cursor.Decode(area.w, area.h, pixels, mask);
      return Done, rgba[..];
    }

    /** Two strings of bytes, or neither. */
    method TakeTwo(sock: Websock, a: nat, b: nat) returns (ready: bool, first: seq<Byte>, second: seq<Byte>)
      requires sock.Valid()
      modifies sock`rQi
      ensures sock.Valid()
      ensures var u := old(sock.Unread());
        && (ready <==> |u| >= a + b)
        && if ready then first == u[..a] && second == u[a..a + b] && sock.Unread() == u[a + b..]
           else sock.Unread() == u
    {
      var lacks := sock.RQlacks(a + b);
      if lacks {
        return false, [], [];
      }
      ghost var u := sock.Unread();
      first := sock.RQshiftBytes(a);
      second := sock.RQshiftBytes(b);
      TwoSlices(u, a, b);
      ready := true;
    }

    method TakeAll(sock: Websock, size: nat) returns (status: Status)
      requires sock.Valid()
      modifies sock`rQi
      ensures sock.Valid()
      ensures var u := old(sock.Unread());
        Took(if |u| < size then None else Some(size), u, sock.Unread(), status)
    {
      var lacks := sock.RQlacks(size);
      if lacks {
        return Wait;
      }
      sock.RQskipBytes(size);
      return Done;
    }

    /** A name's length is put back while the name is not all there; a negative one takes no bytes. */
    method HandleDesktopName(sock: Websock) returns (status: Status)
      requires sock.Valid()
      modifies sock`rQi
      ensures sock.Valid()
      ensures var u := old(sock.Unread());
        Took(if |u| < 4 || |u| < 4 + Max0(Int32(u, 0)) then None else Some(4 + Max0(Int32(u, 0))),
             u, sock.Unread(), status)
    {
      ghost var u, start := sock.Unread(), sock.rQi;
      var lacks := sock.RQlacks(4);
      if lacks {
        return Wait;
      }
      assert InMessage(sock, u, start, 0);
      hide InMessage, Int32;
      var length := Take32(sock, u, start, 0);
      var ready := WaitFor(sock, Max0(length), 4, u, start);
      if !ready {
        UnreadOfMessage(sock, u, start, 0);
        return Wait;
      }
      Skip(sock, Max0(length), u, start, 4);
      UnreadOfMessage(sock, u, start, 4 + Max0(length));
      return Done;
    }

    method DecodeCopyRect(area: Area, sock: Websock, display: CallLog) returns (status: Status)
      requires sock.Valid()
      modifies sock`rQi, display
      ensures sock.Valid()
      ensures var o := CopyRect(area, frameId, old(sock.Unread()));
        status == o.status && sock.Unread() == o.rest && display.calls == old(display.calls) + o.calls
    {
      ghost var u := sock.Unread();
      var lacks := sock.RQlacks(4);
      if lacks {
        return Wait;
      }
      var deltaX := sock.RQshift(2);
      var deltaY := sock.RQshift(2);
      assert u[2..][..2] == u[2..4];
      if area.w == 0 || area.h == 0 {
        return Done;
      }
      display.Record(CopyImage(deltaX, deltaY, area, frameId));
      return Done;
    }
  }

  /** Where one turn of a message loop has got to, against everything there is to come. */
  ghost predicate Went(c: Setup, whole: Outcome<Fbu>, status: Status, made: seq<Call>, s: Fbu, u: seq<Byte>)
    requires s.Ok()
  {
    if status == Wait then whole == Outcome(Wait, s, u, made)
    else status == Done && whole == Pump(c, true, s, u).After(made)
  }

  lemma TwoSlices(u: seq<Byte>, a: nat, b: nat)
    requires a + b <= |u|
    ensures u[a..][..b] == u[a..a + b] && u[a..][b..] == u[a + b..]
  {
  }

  /** The picture in the first bytes: the pixels, then the mask. */
  function CursorIn(area: Area, u: seq<Byte>): seq<Byte>
    requires |u| >= CursorBytes(area)
  {
    CursorSizes(area);
    var size: nat := 4 * (area.w * area.h);
    Cursor.Picture(area.w, area.h, u[..size], u[size..CursorBytes(area)])
  }

  lemma CursorSizes(area: Area)
    ensures CursorBytes(area) == 4 * (area.w * area.h) + Tight.RowBytes(area.w) * area.h
    ensures 0 <= 4 * (area.w * area.h) <= CursorBytes(area)
    ensures (area.w + 7) / 8 * area.h == Tight.RowBytes(area.w) * area.h >= 0
    ensures (area.w + 7) / 8 * area.h == Tight.RowBytes(area.w) * area.h
    ensures CursorBytes(area) == area.w * area.h * 4 + (area.w + 7) / 8 * area.h
  {
  }

  /** All of what is wanted, or nothing. */
  ghost predicate Took(n: Option<nat>, u: seq<Byte>, unread: seq<Byte>, status: Status)
    requires n.Some? ==> n.value <= |u|
  {
    if n.None? then status == Wait && unread == u else status == Done && unread == u[n.value..]
  }

  lemma PumpBegins(c: Setup, s: Fbu, u: seq<Byte>)
    requires s.Ok()
    ensures s.rects > 0 ==> Pump(c, true, s, u) == Finish(c, true, s, u).After([])
    ensures s.rects == 0 && u != [] && u[0] != 0 ==> Pump(c, true, s, u) == Hear(c, true, s, u)
    ensures s.rects == 0 && |u| < 4 && (u == [] || u[0] == 0) ==> Pump(c, true, s, u) == Outcome(Wait, s, u, [])
    ensures s.rects == 0 && |u| >= 4 && u[0] == 0 ==>
      Pump(c, true, s, u) == Finish(c, true, Begin(s, u[..4]), u[4..]).After([NewFrame(Begin(s, u[..4]).frameId)])
  {
    hide Finish, Hear, Begin;
    NothingBefore(Finish(c, true, s, u));
  }

  lemma RectsUnfold(z: Tight.Inflate, s: Fbu, bytes: seq<Byte>, before: seq<Call>)
    requires s.Ok()
    ensures Rects(z, s, bytes).After(before)
         == if s.rects == 0 then Outcome(Done, s, bytes, before)
            else if s.header.None? then
              if |bytes| < 12 then Outcome(Wait, s, bytes, before)
              else Rects(z, s.(header := Some(ParseHeader(bytes[..12]))), bytes[12..]).After(before)
            else
              var r := HandleRect(z, s, bytes);
              if r.status == Done then Rects(z, NextRect(r.state), r.rest).After(before + r.calls)
              else r.After(before)
  {
    hide HandleRect, ParseHeader;
    assert before + [] == before;
    if s.rects > 0 && s.header.Some? {
      RectsAfterWait(z, s, bytes, before);
    }
  }

  lemma FinishUnfolds(c: Setup, s: Fbu, bytes: seq<Byte>, before: seq<Call>)
    requires s.Ok()
    ensures var o := Rects(c.inflate, s, bytes);
      Finish(c, true, s, bytes).After(before)
      == if o.status == Done then Pump(c, true, o.state, o.rest).After(before + (o.calls + FlipCalls(o.state)))
         else o.After(before)
    ensures s.rects > 0 ==> Pump(c, true, s, bytes) == Finish(c, true, s, bytes) == Finish(c, true, s, bytes).After([])
  {
    hide Rects;
    var o := Rects(c.inflate, s, bytes);
    if o.status == Done {
      AfterAfter(Pump(c, true, o.state, o.rest), before, o.calls + FlipCalls(o.state));
    }
    NothingBefore(Finish(c, true, s, bytes));
  }
}
