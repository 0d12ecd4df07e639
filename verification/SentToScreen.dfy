/**
 From a server's list of messages to the canvas: where the client stands after any cut of the
 stream into arrivals, which pause it behind some of the messages, and what it has shown by then.
 */
module SentToScreen {
  import opened Bytes
  import opened DrawCalls
  import opened FrameUpdates
  import opened MessageParsing
  import opened Resumable
  import opened StreamToScreen
  import opened UpdateEncoding
  import FrameQueue
  import Hextile = HextileFormat
  import HextileEncoding
  import TcpFrames
  import Tight = TightFormat

  // ---- messages and arrivals

  /** Where in the stream the messages end behind which the client pauses; the first message begins at `at`. */
  ghost function PauseEnds(c: Setup, p: Peer, ms: seq<ServerMessage>, at: nat): seq<nat>
    requires LegalAll(c, p, ms)
    decreases |ms|
  {
    if ms == [] then []
    else
      var end := at + |Encode(c, p, ms[0])|;
      (if IsPausing(c, ms[0]) then [end] else []) + PauseEnds(c, After(c, p, ms[0]), ms[1..], end)
  }

  /**
   How many pauses the client has been through: each arrival takes it past one more, if the next
   of these messages is all there by then, and never past two.
   */
  function Passed(ends: seq<nat>, arrivals: seq<seq<Byte>>): (n: nat)
    ensures n <= |ends|
  {
    if arrivals == [] then 0
    else
      var n := Passed(ends, arrivals[..|arrivals| - 1]);
      if n < |ends| && ends[n] <= |Concat(arrivals)| then n + 1 else n
  }

  /** By the last arrival the pauses are behind, but for one at the very end of what has been sent. */
  predicate AllPassed(ends: seq<nat>, arrivals: seq<seq<Byte>>, length: nat)
    requires arrivals != []
  {
    var n := Passed(ends, arrivals[..|arrivals| - 1]);
    n == |ends| || ends[n] >= length
  }

  lemma {:induction false} EndsWithin(c: Setup, p: Peer, ms: seq<ServerMessage>, at: nat)
    requires LegalAll(c, p, ms)
    ensures forall k :: 0 <= k < |PauseEnds(c, p, ms, at)| ==>
      at < PauseEnds(c, p, ms, at)[k] <= at + |EncodeAll(c, p, ms)|
    decreases |ms|
  {
    hide Encode, After, IsPausing;
    if ms != [] {
      SomethingSent(c, p, ms[0]);
      EndsWithin(c, After(c, p, ms[0]), ms[1..], at + |Encode(c, p, ms[0])|);
    }
  }

  lemma SomethingSent(c: Setup, p: Peer, m: ServerMessage)
    requires Legal(c, p, m)
    ensures |Encode(c, p, m)| > 0
  {
    hide LegalRects, EncodeRects;
  }

  // ---- within one message

  /** With less than all of a message the loop waits, paused or not, and goes on from there. */
  lemma PartWaits(c: Setup, s: Fbu, p: Peer, m: ServerMessage, u: seq<Byte>, b: seq<Byte>)
    requires Between(s, p) && Legal(c, p, m) && u < Encode(c, p, m)
    ensures var o := Pump(c, true, s, u);
      && o == Pump(c, false, s, u) && o.status == Wait
      && Pump(c, true, s, u + b) == Pump(c, true, o.state, o.rest + b).After(o.calls)
  {
    hide OtherMessage, Finish, LegalRects, PeerAfterAll, EncodeRects, ShownByRects;
    if m.Update? {
      PartOfUpdate(c, s, p, m, u, b);
    } else {
      PartOfOther(c, s, p, m, u, b);
    }
  }

  lemma PartOfOther(c: Setup, s: Fbu, p: Peer, m: ServerMessage, u: seq<Byte>, b: seq<Byte>)
    requires Between(s, p) && Legal(c, p, m) && m.Another? && u < m.bytes
    ensures Pump(c, true, s, u) == Pump(c, false, s, u) == Outcome(Wait, s, u, [])
    ensures Pump(c, true, s, u + b).After([]) == Pump(c, true, s, u + b)
  {
    hide OtherMessage, Finish;
    NothingBefore(Pump(c, true, s, u + b));
    if u != [] {
      ProperPrefixWaits(m.bytes, |u|, c.viewOnly, false);
      assert m.bytes[..|u|] == u;
    }
  }

  lemma PartOfUpdate(c: Setup, s: Fbu, p: Peer, m: ServerMessage, u: seq<Byte>, b: seq<Byte>)
    requires Between(s, p) && Legal(c, p, m) && m.Update? && u < Encode(c, p, m)
    ensures var o := Pump(c, true, s, u);
      && o == Pump(c, false, s, u) && o.status == Wait
      && Pump(c, true, s, u + b) == Pump(c, true, o.state, o.rest + b).After(o.calls)
  {
    hide Legal, Encode, Body, Rects, Begin, UpdateHeader;
    EncodedParts(c, p, m, []);
    assert Encode(c, p, m) + [] == Encode(c, p, m);
    UpdateIsLegal(c, p, m);
    if |u| < 4 {
      assert u != [] ==> u[0] == UpdateHeader(m)[0];
      NothingBefore(Pump(c, true, s, u + b));
    } else {
      var header, part := UpdateHeader(m), u[4..];
      assert u[..4] == header;
      SplitExtended(u, b, 4);
      BodyUnfinished(c, s, p, m, part);
      var begun := Begin(s, header);
      var o := Rects(c.inflate, begun, part);
      RectsResume(c.inflate, begun, part, b);
      FinishAfterWait(c, true, o.state, o.rest + b, o.calls);
      FinishWaits(c, true, begun, part);
      FinishWaits(c, false, begun, part);
      FinishGoesOn(c, begun, part, b);
      hide Pump, Finish;
      var again := Pump(c, true, o.state, o.rest + b);
      AfterAfter(again, [NewFrame(begun.frameId)], o.calls);
    }
  }

  lemma BodyUnfinished(c: Setup, s: Fbu, p: Peer, m: ServerMessage, part: seq<Byte>)
    requires Between(s, p) && Legal(c, p, m) && m.Update? && LegalRects(c.inflate, p, m.rects)
    requires part < Body(c.inflate, p, m)
    ensures Begin(s, UpdateHeader(m)).Ok() && Begin(s, UpdateHeader(m)).rects > 0
    ensures Rects(c.inflate, Begin(s, UpdateHeader(m)), part).status == Wait
  {
    hide Legal, LegalRects, Body, Rects, Begin, UpdateHeader, ShownByRects;
    UpdateIsLegal(c, p, m);
    var body := Body(c.inflate, p, m);
    var rest := body[|part|..];
    assert part + rest == body && body + [] == body;
    BodyShows(c, s, p, m, []);
    var begun := Begin(s, UpdateHeader(m));
    RectsResume(c.inflate, begun, part, rest);
    NothingToRead(c.inflate, begun, part);
    NothingToRead(c.inflate, begun, body);
  }

  lemma NothingToRead(z: Tight.Inflate, s: Fbu, bytes: seq<Byte>)
    requires s.Ok()
    ensures s.rects == 0 ==> Rects(z, s, bytes) == Outcome(Done, s, bytes, [])
  {
    hide HandleRect;
  }

  lemma FinishWaits(c: Setup, pausing: bool, s: Fbu, part: seq<Byte>)
    requires s.Ok() && Rects(c.inflate, s, part).status == Wait
    ensures Finish(c, pausing, s, part) == Rects(c.inflate, s, part)
  {
    hide Rects;
  }

  lemma FinishGoesOn(c: Setup, s: Fbu, part: seq<Byte>, b: seq<Byte>)
    requires s.Ok() && Rects(c.inflate, s, part).status == Wait
    ensures var o := Rects(c.inflate, s, part);
      Finish(c, true, s, part + b) == Pump(c, true, o.state, o.rest + b).After(o.calls)
  {
    hide Rects, Pump;
    var o := Rects(c.inflate, s, part);
    RectsResume(c.inflate, s, part, b);
    FinishAfterWait(c, true, o.state, o.rest + b, o.calls);
  }

  // ---- up to the next pause

  /** Before the end of the first such message the client is where a loop without pauses is, and goes on from there. */
  lemma {:induction false} NoPauseYet(c: Setup, s: Fbu, p: Peer, ms: seq<ServerMessage>, at: nat, u: seq<Byte>,
                                      b: seq<Byte>)
    requires Between(s, p) && LegalAll(c, p, ms) && u <= EncodeAll(c, p, ms)
    requires var ends := PauseEnds(c, p, ms, at); ends == [] || ends[0] > at + |u|
    ensures var o := Pump(c, true, s, u);
      && o == Pump(c, false, s, u) && o.status == Wait
      && Pump(c, true, s, u + b) == Pump(c, true, o.state, o.rest + b).After(o.calls)
    decreases |ms|
  {
    hide Legal, Encode, After, IsPausing, ShownBy, Between, Pump, Taken, NoticeOf, FramesAfter;
    if ms == [] {
      NothingArrived(c, s, p, b);
    } else {
      var e, q := Encode(c, p, ms[0]), After(c, p, ms[0]);
      if |u| < |e| {
        assert u == EncodeAll(c, p, ms)[..|u|] == e[..|u|];
        PartWaits(c, s, p, ms[0], u, b);
      } else {
        var v, t := u[|e|..], Taken(c, s, p, ms[0]);
        assert u == e + v && u + b == e + (v + b);
        assert v <= EncodeAll(c, q, ms[1..]);
        MessageShows(c, true, s, p, ms[0], v);
        MessageShows(c, true, s, p, ms[0], v + b);
        MessageShows(c, false, s, p, ms[0], v);
        BetweenOk(t, q);
        NoPauseYet(c, t, q, ms[1..], at + |e|, v, b);
        var o := Pump(c, true, t, v);
        AfterAfter(Pump(c, true, o.state, o.rest + b), ShownBy(c, p, ms[0], s.frameId + 1), o.calls);
      }
    }
  }

  lemma BetweenOk(s: Fbu, p: Peer)
    requires Between(s, p)
    ensures s.Ok()
  {
  }

  lemma NothingArrived(c: Setup, s: Fbu, p: Peer, b: seq<Byte>)
    requires Between(s, p)
    ensures Pump(c, true, s, []) == Pump(c, false, s, []) == Outcome(Wait, s, [], [])
    ensures Pump(c, true, s, [] + b) == Pump(c, true, s, [] + b).After([])
  {
    NothingBefore(Pump(c, true, s, [] + b));
  }

  /**
   Where the client stands between two messages: in state `s`, the server in step with it as `q`;
   `left` are the messages to come, and `shown` the calls made so far.
   */
  datatype Stand = Stand(s: Fbu, q: Peer, left: seq<ServerMessage>, shown: seq<Call>)

  /** What is to come from there, the next message beginning at `at`, completes what was to come before. */
  ghost predicate StandsAt(c: Setup, d: Stand, at: nat, ends: seq<nat>, bytes: seq<Byte>, shown: seq<Call>,
                           notices: seq<Notice>)
  {
    && Between(d.s, d.q) && LegalAll(c, d.q, d.left) && PauseEnds(c, d.q, d.left, at) == ends
    && EncodeAll(c, d.q, d.left) == bytes
    && d.shown + ShownByAll(c, d.q, d.left, d.s.frameId) == shown
    && d.s.inbox + Notices(c, d.q, d.left) == notices
  }

  /** Once the first such message is there, the client stands right behind it. */
  lemma {:induction false} FirstPause(c: Setup, d: Stand, at: nat, ends: seq<nat>, bytes: seq<Byte>,
                                      shown: seq<Call>, notices: seq<Notice>, u: seq<Byte>) returns (f: Stand)
    requires StandsAt(c, d, at, ends, bytes, shown, notices) && u <= bytes
    requires ends != [] && at <= ends[0] <= at + |u|
    ensures f.s.Ok() && StandsAt(c, f, ends[0], ends[1..], bytes[ends[0] - at..], shown, notices)
    ensures Pump(c, true, d.s, u).After(d.shown) == Outcome(Wait, f.s, u[ends[0] - at..], f.shown)
    decreases |d.left|
  {
    hide Legal, Encode, After, IsPausing, ShownBy, Between, Pump, Taken, NoticeOf, FramesAfter;
    var m := d.left[0];
    var e, q, drawn := Encode(c, d.q, m), After(c, d.q, m), ShownBy(c, d.q, m, d.s.frameId + 1);
    var t := Taken(c, d.s, d.q, m);
    EndsWithin(c, q, d.left[1..], at + |e|);
    assert ends == (if IsPausing(c, m) then [at + |e|] else []) + PauseEnds(c, q, d.left[1..], at + |e|);
    assert |e| <= ends[0] - at;
    var v := u[|e|..];
    assert u == e + v && bytes == e + EncodeAll(c, q, d.left[1..]);
    assert bytes[|e|..] == EncodeAll(c, q, d.left[1..]);
    MessageShows(c, true, d.s, d.q, m, v);
    var next := Stand(t, q, d.left[1..], d.shown + drawn);
    OneTaken(c, d, at, ends, bytes, shown, notices);
    BetweenOk(t, q);
    if IsPausing(c, m) {
      PausingShowsNothing(c, d.q, m, d.s.frameId + 1);
      f := next;
      assert d.shown + [] == d.shown;
    } else {
      f := FirstPause(c, next, at + |e|, ends, bytes[|e|..], shown, notices, v);
      AfterAfter(Pump(c, true, t, v), d.shown, drawn);
      assert bytes[|e|..][ends[0] - (at + |e|)..] == bytes[ends[0] - at..];
      assert v[ends[0] - (at + |e|)..] == u[ends[0] - at..];
    }
  }

  lemma PausingShowsNothing(c: Setup, p: Peer, m: ServerMessage, frameId: int)
    requires Legal(c, p, m) && IsPausing(c, m)
    ensures ShownBy(c, p, m, frameId) == []
  {
  }

  lemma OneTaken(c: Setup, d: Stand, at: nat, ends: seq<nat>, bytes: seq<Byte>, shown: seq<Call>, notices: seq<Notice>)
    requires StandsAt(c, d, at, ends, bytes, shown, notices) && d.left != []
    ensures var m := d.left[0];
      var e := Encode(c, d.q, m);
      var next := Stand(Taken(c, d.s, d.q, m), After(c, d.q, m), d.left[1..],
                        d.shown + ShownBy(c, d.q, m, d.s.frameId + 1));
      && |e| <= |bytes|
      && StandsAt(c, next, at + |e|, if IsPausing(c, m) then ends[1..] else ends, bytes[|e|..], shown, notices)
  {
    hide Legal, Encode, After, IsPausing, ShownBy, Between, Pump, Taken, NoticeOf, FramesAfter;
    var m, left := d.left[0], d.left[1..];
    var e, q, t := Encode(c, d.q, m), After(c, d.q, m), Taken(c, d.s, d.q, m);
    var drawn := ShownBy(c, d.q, m, d.s.frameId + 1);
    MessageShows(c, false, d.s, d.q, m, []);
    assert bytes[|e|..] == EncodeAll(c, q, left);
    assert d.shown + drawn + ShownByAll(c, q, left, t.frameId) == d.shown + (drawn + ShownByAll(c, q, left, t.frameId));
    assert d.s.inbox + NoticeOf(c, d.q, m) + Notices(c, q, left)
        == d.s.inbox + (NoticeOf(c, d.q, m) + Notices(c, q, left));
    if IsPausing(c, m) {
      assert ends[1..] == PauseEnds(c, q, left, at + |e|);
    } else {
      assert [] + PauseEnds(c, q, left, at + |e|) == PauseEnds(c, q, left, at + |e|);
    }
  }

  // ---- any cut into arrivals

  lemma {:induction false} FeedLast(c: Setup, s: Fbu, unread: seq<Byte>, arrivals: seq<seq<Byte>>)
    requires s.Ok() && arrivals != []
    ensures var n := |arrivals| - 1;
      var r := Feed(Stream(c, true), s, unread, arrivals[..n]);
      && r.state.Ok()
      && (r.status == Wait ==>
            Feed(Stream(c, true), s, unread, arrivals)
            == Pump(c, true, r.state, r.rest + arrivals[n]).After(r.calls))
    decreases |arrivals|
  {
    hide Pump;
    var n := |arrivals| - 1;
    if n == 0 {
      var o := Pump(c, true, s, unread + arrivals[0]);
      assert arrivals[1..] == [] && o.rest + [] == o.rest && o.calls + [] == o.calls;
      assert arrivals[..0] == [];
    } else {
      var o := Pump(c, true, s, unread + arrivals[0]);
      if o.status == Wait {
        FeedLast(c, o.state, o.rest, arrivals[1..]);
        assert arrivals[1..][..n - 1] == arrivals[..n][1..];
        var r := Feed(Stream(c, true), o.state, o.rest, arrivals[1..n]);
        assert arrivals[..n][1..] == arrivals[1..n];
        if r.status == Wait {
          AfterAfter(Pump(c, true, r.state, r.rest + arrivals[n]), o.calls, r.calls);
        }
      } else {
        assert Feed(Stream(c, true), s, unread, arrivals[..n]).status != Wait;
      }
    }
  }

  /** Where the last pause was; the stream's beginning before there has been one. */
  function LastPause(ends: seq<nat>, n: nat): nat
    requires n <= |ends|
  {
    if n == 0 then 0 else ends[n - 1]
  }

  lemma LastOfConcat(arrivals: seq<seq<Byte>>)
    requires arrivals != []
    ensures Concat(arrivals) == Concat(arrivals[..|arrivals| - 1]) + arrivals[|arrivals| - 1]
  {
    var m := |arrivals| - 1;
    assert arrivals == arrivals[..m] + [arrivals[m]];
    ConcatAppend(arrivals[..m], [arrivals[m]]);
    assert |[arrivals[m]]| == 1 && arrivals[m] + [] == arrivals[m];
  }

  lemma Beginning(c: Setup, ms: seq<ServerMessage>)
    requires LegalAll(c, START, ms)
    ensures StandsAt(c, Stand(INITIAL, START, ms, []), 0, PauseEnds(c, START, ms, 0), EncodeAll(c, START, ms),
                     ShownByAll(c, START, ms, 0), Notices(c, START, ms))
    ensures INITIAL.Ok()
    ensures Feed(Stream(c, true), INITIAL, [], []) == Pump(c, true, INITIAL, []) == Outcome(Wait, INITIAL, [], [])
    ensures Pump(c, true, INITIAL, []).After([]) == Outcome(Wait, INITIAL, [], [])
  {
    hide PauseEnds, EncodeAll, LegalAll, ShownByAll, Notices;
    StartMatches();
    assert [] + ShownByAll(c, START, ms, 0) == ShownByAll(c, START, ms, 0);
    assert [] + Notices(c, START, ms) == Notices(c, START, ms);
  }

  /** Paused or not, with the next arrival the client goes on from its last pause with all that has come since. */
  lemma NextArrival(c: Setup, d: Stand, at: nat, ends: seq<nat>, bytes: seq<Byte>, shown: seq<Call>,
                    notices: seq<Notice>, v: seq<Byte>, b: seq<Byte>, r: Outcome<Fbu>)
    requires StandsAt(c, d, at, ends, bytes, shown, notices) && v + b <= bytes && d.s.Ok() && r.state.Ok()
    requires r == Outcome(Wait, d.s, v, d.shown)
          || ((ends == [] || ends[0] > at + |v|) && r == Pump(c, true, d.s, v).After(d.shown))
    ensures Pump(c, true, r.state, r.rest + b).After(r.calls) == Pump(c, true, d.s, v + b).After(d.shown)
    ensures ends != [] ==> ends[0] > at
    ensures ends == [] || ends[0] > at + |v + b| ==> Pump(c, true, d.s, v + b).After(d.shown).status == Wait
  {
    hide PauseEnds, EncodeAll, LegalAll, ShownByAll, Notices, Pump, Between;
    EndsWithin(c, d.q, d.left, at);
    assert v <= bytes;
    if r != Outcome(Wait, d.s, v, d.shown) {
      NoPauseYet(c, d.s, d.q, d.left, at, v, b);
      var o := Pump(c, true, d.s, v);
      AfterAfter(Pump(c, true, o.state, o.rest + b), d.shown, o.calls);
    }
    if ends == [] || ends[0] > at + |v + b| {
      NoPauseYet(c, d.s, d.q, d.left, at, v + b, []);
    }
  }

  /**
   After any arrivals, the client has paused behind as many messages as `Passed` says. If the last
   arrival has taken it past one more, it stands right behind that; otherwise it has gone on from
   the last of them as far as the bytes go.
   */
  lemma {:induction false} WhereItStands(c: Setup, ms: seq<ServerMessage>, arrivals: seq<seq<Byte>>) returns (d: Stand)
    requires LegalAll(c, START, ms) && Concat(arrivals) <= EncodeAll(c, START, ms)
    ensures var r, ends := Feed(Stream(c, true), INITIAL, [], arrivals), PauseEnds(c, START, ms, 0);
      var n, arrived, all := Passed(ends, arrivals), Concat(arrivals), EncodeAll(c, START, ms);
      var at := LastPause(ends, n);
      && r.status == Wait && at <= |arrived| && d.s.Ok()
      && StandsAt(c, d, at, ends[n..], all[at..], ShownByAll(c, START, ms, 0), Notices(c, START, ms))
      && if arrivals != [] && n > Passed(ends, arrivals[..|arrivals| - 1])
         then r == Outcome(Wait, d.s, arrived[at..], d.shown)
         else (n < |ends| ==> ends[n] > |arrived|) && r == Pump(c, true, d.s, arrived[at..]).After(d.shown)
    decreases |arrivals|
  {
    hide *;
    var ends, all := PauseEnds(c, START, ms, 0), EncodeAll(c, START, ms);
    var shown, notices := ShownByAll(c, START, ms, 0), Notices(c, START, ms);
    PassedByLast(ends, arrivals);
    Beginning(c, ms);
    if arrivals == [] {
      d := Stand(INITIAL, START, ms, []);
      EndsWithin(c, START, ms, 0);
    } else {
      var m := |arrivals| - 1;
      var before, arrived := Concat(arrivals[..m]), Concat(arrivals);
      LastOfConcat(arrivals);
      assert before <= all;
      d := WhereItStands(c, ms, arrivals[..m]);
      var n := Passed(ends, arrivals[..m]);
      var at := LastPause(ends, n);
      var r0 := Feed(Stream(c, true), INITIAL, [], arrivals[..m]);
      FeedLast(c, INITIAL, [], arrivals);
      var u, v := arrived[at..], before[at..];
      assert u == v + arrivals[m] && u <= all[at..];
      NextArrival(c, d, at, ends[n..], all[at..], shown, notices, v, arrivals[m], r0);
      if n < |ends| && ends[n] <= |arrived| {
        d := FirstPause(c, d, at, ends[n..], all[at..], shown, notices, u);
        assert ends[n..][1..] == ends[n + 1..];
        assert all[at..][ends[n] - at..] == all[ends[n]..] && u[ends[n] - at..] == arrived[ends[n]..];
      }
    }
  }

  lemma PassedByLast(ends: seq<nat>, arrivals: seq<seq<Byte>>)
    ensures arrivals == [] ==> Passed(ends, arrivals) == 0 && LastPause(ends, 0) == 0 && Concat(arrivals) == []
    ensures arrivals != [] ==>
      var n := Passed(ends, arrivals[..|arrivals| - 1]);
      if n < |ends| && ends[n] <= |Concat(arrivals)|
      then Passed(ends, arrivals) == n + 1 && LastPause(ends, n + 1) == ends[n]
      else Passed(ends, arrivals) == n
  {
  }

  /**
   However what the server sends is cut into arrivals, the client takes all of it exactly if the
   arrivals before the last have taken it past every pause, one at the very end excepted: then it
   has shown everything and noticed everything. Otherwise the last arrival leaves it behind the
   next one of these messages, with all that follows it unread.
   */
  lemma AllTakenIff(c: Setup, ms: seq<ServerMessage>, arrivals: seq<seq<Byte>>)
    requires LegalAll(c, START, ms) && arrivals != [] && Concat(arrivals) == EncodeAll(c, START, ms)
    ensures var r := Feed(Stream(c, true), INITIAL, [], arrivals);
      var ends, all := PauseEnds(c, START, ms, 0), EncodeAll(c, START, ms);
      var n := Passed(ends, arrivals[..|arrivals| - 1]);
      && r.status == Wait
      && (AllPassed(ends, arrivals, |all|) <==>
            r.calls == ShownByAll(c, START, ms, 0) && r.state.inbox == Notices(c, START, ms))
      && r.rest == (if AllPassed(ends, arrivals, |all|) then [] else all[ends[n]..])
  {
    hide *;
    var ends, all := PauseEnds(c, START, ms, 0), EncodeAll(c, START, ms);
    var d := WhereItStands(c, ms, arrivals);
    var n, before := Passed(ends, arrivals), Passed(ends, arrivals[..|arrivals| - 1]);
    var at := LastPause(ends, n);
    OnePassed(ends, arrivals, |all|);
    EndsWithin(c, START, ms, 0);
    StandsCompletely(c, d, at, ends[n..], all[at..], ShownByAll(c, START, ms, 0), Notices(c, START, ms));
  }

  lemma OnePassed(ends: seq<nat>, arrivals: seq<seq<Byte>>, length: nat)
    requires arrivals != []
    ensures var n, before := Passed(ends, arrivals), Passed(ends, arrivals[..|arrivals| - 1]);
      && (n == before || (n == before + 1 && LastPause(ends, n) == ends[before]))
      && (AllPassed(ends, arrivals, length) <==> before == |ends| || ends[before] >= length)
  {
  }

  lemma SaysSomething(c: Setup, p: Peer, ms: seq<ServerMessage>, frames: int)
    requires LegalAll(c, p, ms)
    ensures ms != [] ==>
      EncodeAll(c, p, ms) != [] && (ShownByAll(c, p, ms, frames) != [] || Notices(c, p, ms) != [])
    ensures ms == [] ==> EncodeAll(c, p, ms) == [] && ShownByAll(c, p, ms, frames) == [] && Notices(c, p, ms) == []
  {
    hide Encode, Legal, ShownByRects, After, FramesAfter;
    if ms != [] {
      SomethingSent(c, p, ms[0]);
      SaysOrShows(c, p, ms[0], frames + 1);
      hide ShownBy, NoticeOf;
    }
  }

  lemma SaysOrShows(c: Setup, p: Peer, m: ServerMessage, frameId: int)
    requires Legal(c, p, m)
    ensures ShownBy(c, p, m, frameId) != [] || NoticeOf(c, p, m) != []
  {
    hide ShownByRects;
  }

  /** What is left when no pause is ahead is taken in full; what is left behind a pause shows or says something. */
  lemma StandsCompletely(c: Setup, d: Stand, at: nat, ends: seq<nat>, bytes: seq<Byte>, shown: seq<Call>,
                         notices: seq<Notice>)
    requires StandsAt(c, d, at, ends, bytes, shown, notices) && d.s.Ok()
    ensures ends == [] ==>
      var o := Pump(c, true, d.s, bytes).After(d.shown);
      o.rest == [] && o.calls == shown && o.state.inbox == notices
    ensures bytes == [] <==> d.shown == shown && d.s.inbox == notices
  {
    hide PauseEnds, LegalAll, Pump, Between, EncodeAll, ShownByAll, Notices;
    SaysSomething(c, d.q, d.left, d.s.frameId);
    var later, heard := ShownByAll(c, d.q, d.left, d.s.frameId), Notices(c, d.q, d.left);
    assert |shown| == |d.shown| + |later| && |notices| == |d.s.inbox| + |heard|;
    if d.left == [] {
      assert d.shown + [] == d.shown && d.s.inbox + [] == d.s.inbox;
    }
    if ends == [] {
      NoPauseYet(c, d.s, d.q, d.left, at, bytes, []);
      var t := MessagesShow(c, d.s, d.q, d.left);
    }
  }

  /** The next message, or the header of an update, has come whole. */
  predicate NextIsThere(c: Setup, u: seq<Byte>) {
    u != [] && if u[0] == 0 then |u| >= 4 else OtherMessage(u, c.viewOnly) != More
  }

  /** The last arrival has taken the client past the next pause, with more behind it that it could take. */
  predicate StopsShort(c: Setup, ends: seq<nat>, arrivals: seq<seq<Byte>>)
    requires arrivals != []
  {
    var n, arrived := Passed(ends, arrivals[..|arrivals| - 1]), Concat(arrivals);
    n < |ends| && ends[n] <= |arrived| && NextIsThere(c, arrived[ends[n]..])
  }

  /**
   The same while the stream is still coming: the client is where a parse of what has arrived ends,
   unless the last arrival has taken it past a pause and the next message, or the header of an
   update, has come with it.
   */
  lemma CaughtUpIff(c: Setup, ms: seq<ServerMessage>, arrivals: seq<seq<Byte>>)
    requires LegalAll(c, START, ms) && arrivals != [] && Concat(arrivals) <= EncodeAll(c, START, ms)
    ensures Feed(Stream(c, true), INITIAL, [], arrivals) == Pump(c, false, INITIAL, Concat(arrivals))
       <==> !StopsShort(c, PauseEnds(c, START, ms, 0), arrivals)
  {
    hide *;
    StopsShortMeans(c, PauseEnds(c, START, ms, 0), arrivals);
    var ends, all := PauseEnds(c, START, ms, 0), EncodeAll(c, START, ms);
    var r, arrived := Feed(Stream(c, true), INITIAL, [], arrivals), Concat(arrivals);
    var d := WhereItStands(c, ms, arrivals);
    PassedByLast(ends, arrivals);
    var at := LastPause(ends, Passed(ends, arrivals));
    LagsIff(c, arrivals);
    if Passed(ends, arrivals) > Passed(ends, arrivals[..|arrivals| - 1]) {
      StandsBetween(c, d, at, ends[Passed(ends, arrivals)..], all[at..], ShownByAll(c, START, ms, 0),
                    Notices(c, START, ms), arrived[at..]);
    } else {
      assert arrived[at..] <= all[at..];
      NothingToTake(c, d, at, ends[Passed(ends, arrivals)..], all[at..], ShownByAll(c, START, ms, 0),
                    Notices(c, START, ms), arrived[at..]);
    }
  }

  lemma StopsShortMeans(c: Setup, ends: seq<nat>, arrivals: seq<seq<Byte>>)
    requires arrivals != []
    ensures var n, arrived := Passed(ends, arrivals[..|arrivals| - 1]), Concat(arrivals);
      StopsShort(c, ends, arrivals) <==> n < |ends| && ends[n] <= |arrived| && NextIsThere(c, arrived[ends[n]..])
  {
    hide Passed, Concat, NextIsThere;
  }

  lemma StandsBetween(c: Setup, d: Stand, at: nat, ends: seq<nat>, bytes: seq<Byte>, shown: seq<Call>,
                      notices: seq<Notice>, u: seq<Byte>)
    requires StandsAt(c, d, at, ends, bytes, shown, notices)
    ensures CanGo(c, d.s, u) <==> NextIsThere(c, u)
  {
    hide OtherMessage;
  }

  lemma NothingToTake(c: Setup, d: Stand, at: nat, ends: seq<nat>, bytes: seq<Byte>, shown: seq<Call>,
                      notices: seq<Notice>, u: seq<Byte>)
    requires StandsAt(c, d, at, ends, bytes, shown, notices) && d.s.Ok() && u <= bytes
    requires ends == [] || ends[0] > at + |u|
    ensures var r := Pump(c, true, d.s, u).After(d.shown);
      !CanGo(c, r.state, r.rest)
  {
    hide PauseEnds, EncodeAll, LegalAll, ShownByAll, Notices, Pump, Between, CanGo, Stuck;
    NoPauseYet(c, d.s, d.q, d.left, at, u, []);
    var o := Pump(c, true, d.s, u);
    PumpResumes(c, false, d.s, u, []);
    assert u + [] == u && o.rest + [] == o.rest;
    StuckMeans(c, o);
    if o.state.rects == 0 {
      StuckIff(c, o.state, o.rest);
    } else {
      NotWithinUpdate(c, o.state, o.rest);
    }
  }

  /** Relay data without a name or a payload. */
  const RELAY: seq<Byte> := [183, 0, 0, 0, 0, 0]

  const BELL: seq<Byte> := [2]

  /** Two messages in one arrival, of which the second stays unread, and the same in two arrivals. */
  lemma SecondMessageWaits(c: Setup)
    ensures var ms := [Another(RELAY), Another(BELL)];
      && LegalAll(c, START, ms) && EncodeAll(c, START, ms) == RELAY + BELL && PauseEnds(c, START, ms, 0) == [6]
      && !AllPassed([6], [RELAY + BELL], 7) && AllPassed([6], [RELAY, BELL], 7)
    ensures var relay := Relayed(Relay([], []));
      && Feed(Stream(c, true), INITIAL, [], [RELAY + BELL]) == Outcome(Wait, Heard(INITIAL, relay), BELL, [])
      && Feed(Stream(c, true), INITIAL, [], [RELAY, BELL])
         == Outcome(Wait, Heard(Heard(INITIAL, relay), Bell), [], [])
  {
    var relay := Relayed(Relay([], []));
    hide PauseEnds, EncodeAll, LegalAll, AllPassed, Pump, OtherMessage, Feed;
    RelayAndBell(c);
    RelayReads(c.viewOnly);
    assert RELAY + [] == RELAY && [] + (RELAY + BELL) == RELAY + BELL && [] + RELAY == RELAY && [] + BELL == BELL;
    HeldUp(c, INITIAL, RELAY, BELL);
    HeldUp(c, INITIAL, RELAY, []);
    var once := Heard(INITIAL, relay);
    BellReads(c, once);
    OneArrival(c, INITIAL, RELAY + BELL);
    FeedLast(c, INITIAL, [], [RELAY, BELL]);
    assert [RELAY, BELL][..1] == [RELAY];
    OneArrival(c, INITIAL, RELAY);
  }

  lemma RelayAndBell(c: Setup)
    ensures var ms := [Another(RELAY), Another(BELL)];
      && LegalAll(c, START, ms) && EncodeAll(c, START, ms) == RELAY + BELL && PauseEnds(c, START, ms, 0) == [6]
    ensures !AllPassed([6], [RELAY + BELL], 7) && AllPassed([6], [RELAY, BELL], 7)
  {
    RelayReads(c.viewOnly);
    assert OtherMessage(BELL, c.viewOnly) == Message(Bell, 1);
    hide OtherMessage, UnixRelay;
    var relay, bell := Another(RELAY), Another(BELL);
    var ms := [relay, bell];
    assert Legal(c, START, relay) && Legal(c, START, bell) && IsPausing(c, relay) && !IsPausing(c, bell);
    assert After(c, START, relay) == After(c, START, bell) == START;
    assert Encode(c, START, relay) == RELAY && Encode(c, START, bell) == BELL;
    hide Legal, Encode, After, IsPausing;
    assert ms[1..] == [bell] && [bell][1..] == [];
    assert LegalAll(c, START, []) && LegalAll(c, START, [bell]);
    assert EncodeAll(c, START, [bell]) == BELL + [] == BELL;
    assert PauseEnds(c, START, [bell], 6) == [] + PauseEnds(c, START, [], 7) == [];
    assert PauseEnds(c, START, ms, 0) == [6] + [];
    assert [RELAY, BELL][..1] == [RELAY] && [RELAY][..0] == [] && [RELAY + BELL][..0] == [];
    assert Concat([RELAY]) == RELAY by {
      assert RELAY + [] == RELAY;
    }
  }

  lemma OneArrival(c: Setup, s: Fbu, u: seq<Byte>)
    requires s.Ok() && Pump(c, true, s, u).status == Wait
    ensures Feed(Stream(c, true), s, [], [u]) == Pump(c, true, s, u)
  {
    hide Pump;
    assert [] + u == u;
    assert Pump(c, true, s, u).calls + [] == Pump(c, true, s, u).calls;
  }

  lemma RelayReads(viewOnly: bool)
    ensures OtherMessage(RELAY, viewOnly) == Message(Relayed(Relay([], [])), 6)
  {
    BigEndian4(RELAY[2..6]);
    assert Int32(RELAY, 2) == 0;
    assert RELAY[2..2] == [] && RELAY[6..6] == [];
    assert UnixRelay(RELAY) == Message(Relay([], []), 6);
  }

  lemma BellReads(c: Setup, s: Fbu)
    requires s.Ok() && s.rects == 0
    ensures Pump(c, true, s, BELL) == Outcome(Wait, Heard(s, Bell), [], [])
  {
    assert BELL[1..] == [];
    assert Hear(c, true, s, BELL) == Pump(c, true, Heard(s, Bell), []);
  }

  // ---- nothing that is sent stays out of the queue

  lemma AllDrawnAppend(a: seq<Call>, b: seq<Call>)
    requires AllDrawn(a) && AllDrawn(b)
    ensures AllDrawn(a + b)
  {
    hide StaysOut;
  }

  lemma {:induction false} TilesAreDrawn(g: Area, frameId: int, k: nat, c: Hextile.Context, ts: seq<HextileEncoding.Tile>)
    requires k + |ts| <= Hextile.TotalTiles(g) && HextileEncoding.LegalTiles(g, k, c, ts)
    ensures AllDrawn(HextileEncoding.CallsFor(g, frameId, k, c, ts))
    decreases |ts|
  {
    hide HextileEncoding.Meaning, HextileEncoding.Skipped, HextileEncoding.ContextAfter, Hextile.TileArea, StaysOut;
    if ts != [] {
      TilesAreDrawn(g, frameId, k + 1, HextileEncoding.ContextAfter(c, ts[0]), ts[1..]);
      TileIsDrawn(Hextile.TileArea(g, k), frameId, HextileEncoding.Palette(c.background, c.foreground), ts[0]);
    }
  }

  lemma TileIsDrawn(area: Area, frameId: int, palette: HextileEncoding.Palette, tile: HextileEncoding.Tile)
    requires HextileEncoding.Legal(area, palette, tile)
    ensures !StaysOut(HextileEncoding.Meaning(area, frameId, palette, tile))
  {
  }

  lemma RectIsDrawn(z: Tight.Inflate, p: Peer, r: Sent, frameId: int)
    requires LegalRect(z, p, r)
    ensures AllDrawn(Shown(z, p, r, frameId))
  {
    match r.drawing
    case HextileRect(ts) => TilesAreDrawn(r.area, frameId, 0, p.context, ts);
    case _ =>
  }

  lemma {:induction false} RectsAreDrawn(z: Tight.Inflate, p: Peer, rs: seq<Sent>, frameId: int)
    requires LegalRects(z, p, rs)
    ensures AllDrawn(ShownByRects(z, p, rs, frameId))
    decreases |rs|
  {
    hide LegalRect, PeerAfter, Shown, AllDrawn;
    if rs == [] {
      NothingDrawn();
    } else {
      RectIsDrawn(z, p, rs[0], frameId);
      RectsAreDrawn(z, PeerAfter(z, p, rs[0]), rs[1..], frameId);
      AllDrawnAppend(Shown(z, p, rs[0], frameId), ShownByRects(z, PeerAfter(z, p, rs[0]), rs[1..], frameId));
    }
  }

  lemma NothingDrawn()
    ensures AllDrawn([])
  {
  }

  lemma MessageIsDrawn(c: Setup, p: Peer, m: ServerMessage, frameId: int)
    requires Legal(c, p, m)
    ensures AllDrawn(ShownBy(c, p, m, frameId))
  {
    hide LegalRects, ShownByRects;
    if m.Update? {
      var drawn := ShownByRects(c.inflate, p, m.rects, frameId);
      RectsAreDrawn(c.inflate, p, m.rects, frameId);
      AllDrawnAppend([NewFrame(frameId)], drawn);
      AllDrawnAppend([NewFrame(frameId)] + drawn, FlipOf(m, frameId));
    }
  }

  /** Whatever is sent, only the headers of updates stay out of the queue. */
  lemma {:induction false} MessagesAreDrawn(c: Setup, p: Peer, ms: seq<ServerMessage>, frames: int)
    requires LegalAll(c, p, ms)
    ensures AllDrawn(ShownByAll(c, p, ms, frames))
    decreases |ms|
  {
    hide Legal, After, ShownBy, FramesAfter, AllDrawn;
    if ms == [] {
      NothingDrawn();
    } else {
      MessageIsDrawn(c, p, ms[0], frames + 1);
      var q, more := After(c, p, ms[0]), FramesAfter(ms[0], frames);
      MessagesAreDrawn(c, q, ms[1..], more);
      AllDrawnAppend(ShownBy(c, p, ms[0], frames + 1), ShownByAll(c, q, ms[1..], more));
    }
  }

  lemma {:induction false} DrawingsAppend(a: seq<Call>, b: seq<Call>)
    ensures Drawings(a + b) == Drawings(a) + Drawings(b)
  {
    if a == [] {
      assert a + b == b;
    } else {
      assert (a + b)[1..] == a[1..] + b;
      DrawingsAppend(a[1..], b);
    }
  }

  lemma DrawnSoFar(made: seq<Call>, all: seq<Call>)
    requires made <= all && AllDrawn(all)
    ensures Submissions(made) == Drawings(made) <= Drawings(all)
  {
    DrawnAreSubmitted(made);
    assert all == made + all[|made|..];
    DrawingsAppend(made, all[|made|..]);
  }

  // ---- to the canvas

  /**
   A server sends any list of legal messages; the stream is cut into any arrivals; animation
   frames, loaded images and load events fall anywhere between the calls. Then what the canvas
   has got, followed by what is queued for it, is a beginning of all that the messages draw, in
   order, and each other message has been taken once and in order. It is all of that, and every
   message has been noticed, exactly if the arrivals before the last have taken the client past
   every pause but one at the very end.
   */
  lemma SentIsShown(c: Setup, ms: seq<ServerMessage>, arrivals: seq<seq<Byte>>, es: seq<FrameQueue.Event>)
    requires LegalAll(c, START, ms)
    requires arrivals != [] && Concat(arrivals) == EncodeAll(c, START, ms)
    requires NeverCleared(es) && CallsMade(es) == Feed(Stream(c, true), INITIAL, [], arrivals).calls
    ensures var t, all := TcpFrames.Run(FrameQueue.INITIAL, es), Drawings(ShownByAll(c, START, ms, 0));
      && t.discarded == [] && t.log <= all
      && FrameQueue.Items(t.rendered) + FrameQueue.Queued(t.slots) == FrameQueue.Submitted(t.log)
      && (AllPassed(PauseEnds(c, START, ms, 0), arrivals, |EncodeAll(c, START, ms)|) ==> t.log == all)
    ensures var r, passed := Feed(Stream(c, true), INITIAL, [], arrivals),
                             AllPassed(PauseEnds(c, START, ms, 0), arrivals, |EncodeAll(c, START, ms)|);
      && r.state.inbox <= Notices(c, START, ms)
      && (passed <==> CallsMade(es) == ShownByAll(c, START, ms, 0) && r.state.inbox == Notices(c, START, ms))
      && (passed <==> r.rest == [])
  {
    hide Pump, Feed, LegalAll, EncodeAll, ShownByAll, Notices, TcpFrames.Run, Between, CanGo, PauseEnds,
      FrameQueue.Items, FrameQueue.Queued, FrameQueue.Submitted, Submissions, Drawings, AllDrawn, CallsMade;
    StartMatches();
    var end := MessagesShow(c, INITIAL, START, ms);
    var r := Feed(Stream(c, true), INITIAL, [], arrivals);
    StreamIsDrawnInOrder(c, arrivals, es);
    PausingLosesNothing(c, INITIAL, [], arrivals);
    assert [] + Concat(arrivals) == Concat(arrivals);
    assert [] + Notices(c, START, ms) == Notices(c, START, ms);
    AllTakenIff(c, ms, arrivals);
    EndsWithin(c, START, ms, 0);
    InboxGrows(c, r.state, r.rest);
    MessagesAreDrawn(c, START, ms, 0);
    DrawnSoFar(CallsMade(es), ShownByAll(c, START, ms, 0));
    RunLogs(FrameQueue.INITIAL, es);
    assert [] + Submissions(CallsMade(es)) == Submissions(CallsMade(es));
  }

  lemma {:induction false} InboxGrows(c: Setup, s: Fbu, bytes: seq<Byte>)
    requires s.Ok()
    ensures s.inbox <= Pump(c, false, s, bytes).state.inbox
    decreases |bytes|, if s.rects > 0 then 2 else 0
  {
    hide Rects, OtherMessage;
    if s.rects > 0 {
      InboxGrowsBehind(c, s, bytes);
    } else if bytes != [] && bytes[0] != 0 {
      var m := OtherMessage(bytes, c.viewOnly);
      if m.Message? {
        InboxGrows(c, Heard(s, m.value), bytes[m.used..]);
      }
    } else if |bytes| >= 4 {
      InboxGrowsBehind(c, Begin(s, bytes[..4]), bytes[4..]);
    }
  }

  lemma {:induction false} InboxGrowsBehind(c: Setup, s: Fbu, bytes: seq<Byte>)
    requires s.Ok()
    ensures s.inbox <= Finish(c, false, s, bytes).state.inbox
    decreases |bytes|, 1
  {
    hide Rects;
    var o := Rects(c.inflate, s, bytes);
    if o.status == Done {
      hide Pump;
      InboxGrows(c, o.state, o.rest);
    }
  }
}
