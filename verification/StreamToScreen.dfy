/**
 From the bytes on the wire to the order of drawing: however a TCP stream is cut into messages,
 and however the browser's callbacks fall between the calls it causes, the rectangles reach the
 canvas in the order a one-shot parse of the whole stream yields them.
 */
module StreamToScreen {
  import opened Bytes
  import opened DrawCalls
  import opened Resumable
  import opened FrameUpdates
  import opened MessageParsing
  import opened TcpFrames
  import FrameQueue

  ghost function Stream(c: Setup, pausing: bool): Decoder<Fbu> {
    (s: Fbu, bytes: seq<Byte>) => if s.Ok() then Pump(c, pausing, s, bytes) else Outcome(Fail, s, bytes, [])
  }

  lemma StreamResumes(c: Setup)
    ensures Resumes(Stream(c, false))
  {
    forall s: Fbu, a: seq<Byte>, b: seq<Byte>
      ensures ResumesAt(Stream(c, false), s, a, b)
    {
      if s.Ok() {
        hide Pump;
        PumpResumes(c, false, s, a, b);
      }
    }
  }

  /** Message boundaries are invisible to a loop that does not pause: it is as if all had come at once. */
  lemma FragmentationIrrelevant(c: Setup, messages: seq<seq<Byte>>)
    requires messages != []
    ensures Feed(Stream(c, false), INITIAL, [], messages) == Pump(c, false, INITIAL, Concat(messages))
  {
    StreamResumes(c);
    FeedIsOneShot(Stream(c, false), INITIAL, [], messages);
    assert [] + Concat(messages) == Concat(messages);
  }

  // ---- the pauses

  /** The next message, or the header of an update, is there to be taken. */
  predicate CanGo(c: Setup, s: Fbu, unread: seq<Byte>) {
    && s.rects == 0 && unread != []
    && if unread[0] == 0 then |unread| >= 4 else OtherMessage(unread, c.viewOnly) != More
  }

  ghost predicate Stuck(c: Setup, s: Fbu, unread: seq<Byte>)
    requires s.Ok()
  {
    Pump(c, false, s, unread) == Outcome(Wait, s, unread, [])
  }

  lemma StuckIff(c: Setup, s: Fbu, unread: seq<Byte>)
    requires s.Ok() && s.rects == 0
    ensures Stuck(c, s, unread) <==> !CanGo(c, s, unread)
  {
    hide OtherMessage, Finish;
    var o := Pump(c, false, s, unread);
    if unread != [] && unread[0] != 0 {
      HearsOn(c, s, unread);
    } else if |unread| >= 4 {
      assert o.calls[0].NewFrame?;
    }
  }

  lemma HearsOn(c: Setup, s: Fbu, unread: seq<Byte>)
    requires s.Ok() && s.rects == 0 && unread != []
    ensures var m, o := OtherMessage(unread, c.viewOnly), Hear(c, false, s, unread);
      && (m.More? ==> o == Outcome(Wait, s, unread, []))
      && (m.Bad? ==> o.status == Fail)
      && (m.Message? ==> |o.rest| < |unread|)
  {
    hide OtherMessage, Pump;
  }

  predicate PausedBehind(s: Fbu) {
    s.rects == 0 && s.inbox != [] && Pauses(s.inbox[|s.inbox| - 1])
  }

  /** The loop stops where no further step can be taken, or behind a message whose handler returns nothing. */
  lemma {:induction false} StopsWhere(c: Setup, s: Fbu, bytes: seq<Byte>)
    requires s.Ok()
    ensures var o := Pump(c, true, s, bytes);
      o.status == Wait ==> Stuck(c, o.state, o.rest) || PausedBehind(o.state)
    decreases |bytes|, if s.rects > 0 then 2 else 0
  {
    hide OtherMessage, Rects;
    if s.rects == 0 {
      StuckIff(c, s, bytes);
    }
    if s.rects > 0 {
      FinishStopsWhere(c, s, bytes);
    } else if |bytes| >= 4 && bytes[0] == 0 {
      FinishStopsWhere(c, Begin(s, bytes[..4]), bytes[4..]);
    } else if bytes != [] && bytes[0] != 0 && OtherMessage(bytes, c.viewOnly).Message? {
      var m := OtherMessage(bytes, c.viewOnly);
      if !Pauses(m.value) {
        StopsWhere(c, Heard(s, m.value), bytes[m.used..]);
      }
    }
  }

  lemma {:induction false} FinishStopsWhere(c: Setup, s: Fbu, bytes: seq<Byte>)
    requires s.Ok()
    ensures var o := Finish(c, true, s, bytes);
      o.status == Wait ==> Stuck(c, o.state, o.rest) || PausedBehind(o.state)
    decreases |bytes|, 1
  {
    hide Rects;
    var o := Rects(c.inflate, s, bytes);
    if o.status == Done {
      hide Pump;
      StopsWhere(c, o.state, o.rest);
    } else if o.status == Wait {
      RectsResume(c.inflate, s, bytes, []);
      assert bytes + [] == bytes && o.rest + [] == o.rest;
      var again := Rects(c.inflate, o.state, o.rest);
      assert o == again.After(o.calls);
      assert |o.calls| == |o.calls| + |again.calls|;
      assert again == Outcome(Wait, o.state, o.rest, []);
      assert Finish(c, false, o.state, o.rest) == again;
    }
  }

  /**
   The client's own loop loses nothing by pausing: from where it stands, a loop that does not pause
   gets to exactly where it would have got, with the same calls, had everything come at once.
   */
  lemma {:induction false} PausingLosesNothing(c: Setup, s: Fbu, unread: seq<Byte>, messages: seq<seq<Byte>>)
    requires s.Ok()
    ensures var r := Feed(Stream(c, true), s, unread, messages);
      && r.state.Ok()
      && Pump(c, false, s, unread + Concat(messages))
         == if r.status == Wait then Pump(c, false, r.state, r.rest).After(r.calls) else r
    decreases |messages|
  {
    hide Pump;
    if messages == [] {
      assert unread + [] == unread;
      NothingBefore(Pump(c, false, s, unread));
    } else {
      var a, b := unread + messages[0], Concat(messages[1..]);
      assert unread + Concat(messages) == a + b;
      PumpResumes(c, true, s, a, b);
      var o := Pump(c, true, s, a);
      if o.status == Wait {
        PausingLosesNothing(c, o.state, o.rest, messages[1..]);
        var r := Feed(Stream(c, true), o.state, o.rest, messages[1..]);
        if r.status == Wait {
          AfterAfter(Pump(c, false, r.state, r.rest), o.calls, r.calls);
        }
      }
    }
  }

  lemma {:induction false} FeedStopsWhere(c: Setup, s: Fbu, unread: seq<Byte>, messages: seq<seq<Byte>>)
    requires s.Ok() && messages != []
    ensures var r := Feed(Stream(c, true), s, unread, messages);
      && r.state.Ok()
      && (r.status == Wait ==> Stuck(c, r.state, r.rest) || PausedBehind(r.state))
    decreases |messages|
  {
    hide Pump, Stuck;
    StopsWhere(c, s, unread + messages[0]);
    var o := Pump(c, true, s, unread + messages[0]);
    if o.status == Wait && messages[1..] != [] {
      FeedStopsWhere(c, o.state, o.rest, messages[1..]);
    }
  }

  /**
   However the stream is cut, the client is where a parse of the uncut stream ends exactly if it
   has not stopped in front of a message, or the header of an update, that is all there. It stops
   so only behind a UDP upgrade, a relay subscription or relay data.
   */
  lemma LagsIff(c: Setup, messages: seq<seq<Byte>>)
    requires messages != []
    ensures var r := Feed(Stream(c, true), INITIAL, [], messages);
      var lags := r.status == Wait && CanGo(c, r.state, r.rest);
      && (r == Pump(c, false, INITIAL, Concat(messages)) <==> !lags)
      && (lags ==> PausedBehind(r.state))
      && r.calls <= Pump(c, false, INITIAL, Concat(messages)).calls
  {
    hide Pump, Feed, CanGo, Stuck;
    PausingLosesNothing(c, INITIAL, [], messages);
    FeedStopsWhere(c, INITIAL, [], messages);
    assert [] + Concat(messages) == Concat(messages);
    var r := Feed(Stream(c, true), INITIAL, [], messages);
    if r.status == Wait {
      StuckMeans(c, r);
      if r.state.rects == 0 {
        StuckIff(c, r.state, r.rest);
      } else {
        NotWithinUpdate(c, r.state, r.rest);
      }
    }
  }

  lemma NotWithinUpdate(c: Setup, s: Fbu, unread: seq<Byte>)
    requires s.rects > 0
    ensures !CanGo(c, s, unread)
  {
  }

  lemma StuckMeans(c: Setup, r: Outcome<Fbu>)
    requires r.status == Wait && r.state.Ok()
    ensures Pump(c, false, r.state, r.rest).After(r.calls) == r <==> Stuck(c, r.state, r.rest)
  {
    hide Pump;
    var more := Pump(c, false, r.state, r.rest);
    if more.After(r.calls) == r {
      assert |r.calls| + |more.calls| == |r.calls|;
    } else {
      assert r.calls + [] == r.calls;
    }
  }

  /** Whatever comes in one piece behind such a message is left unread until more arrives. */
  lemma HeldUp(c: Setup, s: Fbu, u: seq<Byte>, v: seq<Byte>)
    requires s.Ok() && s.rects == 0 && u != []
    requires var m := OtherMessage(u, c.viewOnly); m.Message? && m.used == |u| && Pauses(m.value)
    ensures Pump(c, true, s, u + v) == Outcome(Wait, Heard(s, OtherMessage(u, c.viewOnly).value), v, [])
    ensures CanGo(c, s, v) <==> !Stuck(c, Heard(s, OtherMessage(u, c.viewOnly).value), v)
  {
    OtherMessageStable(u, v, c.viewOnly);
    assert (u + v)[|u|..] == v;
    assert OtherMessage(u, c.viewOnly).Message? ==> u[0] != 0;
    var t := Heard(s, OtherMessage(u, c.viewOnly).value);
    hide OtherMessage, Finish;
    StuckIff(c, t, v);
  }

  // ---- frame numbers

  /** Updates are numbered one by one, and each draws only into itself. */
  predicate InOrder(current: int, calls: seq<Call>)
    decreases |calls|
  {
    calls == [] ||
    (var c := calls[0];
     if c.NewFrame? then c.frameId == current + 1 && InOrder(current + 1, calls[1..])
     else c.frameId == current >= 1 && InOrder(current, calls[1..]))
  }

  function LastFrame(current: int, calls: seq<Call>): int
    decreases |calls|
  {
    if calls == [] then current
    else LastFrame(if calls[0].NewFrame? then calls[0].frameId else current, calls[1..])
  }

  lemma {:induction false} InOrderAppend(current: int, a: seq<Call>, b: seq<Call>)
    requires InOrder(current, a) && InOrder(LastFrame(current, a), b)
    ensures InOrder(current, a + b)
    decreases |a|
  {
    if a == [] {
      assert a + b == b;
    } else {
      assert (a + b)[1..] == a[1..] + b;
      InOrderAppend(if a[0].NewFrame? then a[0].frameId else current, a[1..], b);
    }
  }

  lemma {:induction false} InFrameInOrder(current: int, calls: seq<Call>)
    requires current >= 1 && forall k :: 0 <= k < |calls| ==> !calls[k].NewFrame? && calls[k].frameId == current
    ensures InOrder(current, calls) && LastFrame(current, calls) == current
    decreases |calls|
  {
    if calls != [] {
      InFrameInOrder(current, calls[1..]);
    }
  }

  /** An update whose rectangles are being read has a number. */
  predicate Numbered(s: Fbu) {
    s.frameId >= 0 && (s.rects > 0 ==> s.frameId >= 1)
  }

  lemma {:induction false} PumpInOrder(c: Setup, s: Fbu, bytes: seq<Byte>)
    requires s.Ok() && Numbered(s)
    ensures InOrder(s.frameId, Pump(c, false, s, bytes).calls)
    decreases |bytes|, if s.rects > 0 then 2 else 0
  {
    hide Rects, Finish, OtherMessage;
    if s.rects > 0 {
      FinishInOrder(c, s, bytes);
    } else if bytes != [] && bytes[0] != 0 {
      var m := OtherMessage(bytes, c.viewOnly);
      if m.Message? {
        PumpInOrder(c, Heard(s, m.value), bytes[m.used..]);
      }
    } else if |bytes| >= 4 {
      var s' := Begin(s, bytes[..4]);
      FinishInOrder(c, s', bytes[4..]);
      var calls := Finish(c, false, s', bytes[4..]).calls;
      assert ([NewFrame(s'.frameId)] + calls)[1..] == calls;
    }
  }

  lemma {:induction false} FinishInOrder(c: Setup, s: Fbu, bytes: seq<Byte>)
    requires s.Ok() && s.frameId >= 1
    ensures InOrder(s.frameId, Finish(c, false, s, bytes).calls)
    decreases |bytes|, 1
  {
    hide Rects, Pump;
    var o := Rects(c.inflate, s, bytes);
    InFrameInOrder(s.frameId, o.calls);
    if o.status == Done {
      var drawn := o.calls + FlipCalls(o.state);
      InFrameInOrder(s.frameId, drawn);
      PumpInOrder(c, o.state, o.rest);
      InOrderAppend(s.frameId, drawn, Pump(c, false, o.state, o.rest).calls);
    }
  }

  lemma {:induction false} InOrderPrefix(current: int, a: seq<Call>, b: seq<Call>)
    requires a <= b && InOrder(current, b)
    ensures InOrder(current, a)
    decreases |a|
  {
    if a != [] {
      InOrderPrefix(if a[0].NewFrame? then a[0].frameId else current, a[1..], b[1..]);
    }
  }

  // ---- calls among callbacks

  /** The calls in a run, without the callbacks between them. */
  function CallsMade(es: seq<FrameQueue.Event>): seq<Call> {
    if es == [] then []
    else (if es[0].Made? then [es[0].call] else []) + CallsMade(es[1..])
  }

  predicate NeverCleared(es: seq<FrameQueue.Event>) {
    forall k :: 0 <= k < |es| ==> !es[k].Cleared?
  }

  lemma {:induction false} OrderIsTcp(current: int, es: seq<FrameQueue.Event>)
    requires InOrder(current, CallsMade(es)) && NeverCleared(es)
    ensures TcpRun(current, es)
    decreases |es|
  {
    if es != [] {
      var rest := CallsMade(es[1..]);
      if es[0].Made? {
        assert CallsMade(es)[0] == es[0].call && CallsMade(es)[1..] == rest;
      } else {
        assert CallsMade(es) == rest;
      }
      OrderIsTcp(Next(current, es[0]), es[1..]);
    }
  }

  /** The header of an update, an empty image, and a payload that leaves the decoders' control without being drawn. */
  predicate StaysOut(c: Call) {
    || c.NewFrame?
    || (c.ImageRect? && (c.area.w == 0 || c.area.h == 0))
    || (c.Handoff? && (c.kind != 13 || c.area.w == 0 || c.area.h == 0))
  }

  /** The calls that put a rectangle into the queue. */
  function Submissions(calls: seq<Call>): seq<Call> {
    if calls == [] then []
    else (if StaysOut(calls[0]) then [] else [calls[0]]) + Submissions(calls[1..])
  }

  /** All calls but the headers of updates. */
  function Drawings(calls: seq<Call>): seq<Call> {
    if calls == [] then []
    else (if calls[0].NewFrame? then [] else [calls[0]]) + Drawings(calls[1..])
  }

  predicate AllDrawn(calls: seq<Call>) {
    forall k :: 0 <= k < |calls| ==> calls[k].NewFrame? || !StaysOut(calls[k])
  }

  lemma {:induction false} DrawnAreSubmitted(calls: seq<Call>)
    requires AllDrawn(calls)
    ensures Submissions(calls) == Drawings(calls)
    decreases |calls|
  {
    if calls != [] {
      assert AllDrawn(calls[1..]);
      DrawnAreSubmitted(calls[1..]);
    }
  }

  /** Of any call: it gets a place in the queue's log, once, unless it is one of those. */
  lemma LoggedIff(s: FrameQueue.State, c: Call, image: bool)
    requires 3 <= |s.slots| <= 4
    ensures FrameQueue.Step(s, FrameQueue.Made(c, image)).log == if StaysOut(c) then s.log else s.log + [c]
  {
    hide FrameQueue.AsyncFrameComplete, FrameQueue.AsyncRenderQPush;
    if c.NewFrame? {
      FrameQueue.CompleteFlow(s, 0, true);
    } else {
      PushLogs(s, c, image);
    }
  }

  lemma StepLogs(s: FrameQueue.State, e: FrameQueue.Event)
    requires 3 <= |s.slots| <= 4
    ensures FrameQueue.Step(s, e).log == s.log + if e.Made? then Submissions([e.call]) else []
  {
    hide FrameQueue.AsyncFrameComplete, FrameQueue.PushAsyncFrame, FrameQueue.Submits, StaysOut;
    match e
    case Made(c, image) =>
      assert [c][1..] == [];
      LoggedIff(s, c, image);
    case AnimationFrame => FrameQueue.PushFlow(s, false);
    case LoadEvent(i) => FrameQueue.CompleteFlow(s, i, false);
    case _ =>
  }

  lemma PushLogs(s: FrameQueue.State, c: Call, image: bool)
    requires 3 <= |s.slots| <= 4
    ensures FrameQueue.AsyncRenderQPush(s, c, image).log == s.log + [c]
  {
    hide FrameQueue.AsyncFrameComplete, FrameQueue.PushAsyncFrame, FrameQueue.FindSlot, FrameQueue.Oldest,
      FrameQueue.Newest;
    var r := FrameQueue.NewRect(s, c, image);
    var i := FrameQueue.FindSlot(s.slots, FrameQueue.FrameOf(c));
    var s' := s.(log := s.log + [c]);
    FrameQueue.PushFlow(s', true);
    if i < |s.slots| {
      var joined := s'.(slots := s.slots[i := FrameQueue.Counted(FrameQueue.Admit(s.slots[i], r), r)]);
      FrameQueue.CompleteFlow(joined, i, false);
    }
  }

  lemma {:induction false} RunLogs(s: FrameQueue.State, es: seq<FrameQueue.Event>)
    requires 3 <= |s.slots| <= 4
    ensures Run(s, es).log == s.log + Submissions(CallsMade(es))
    decreases |es|
  {
    hide FrameQueue.Step, StaysOut, Run, CallsMade, Submissions;
    UnrollRun(s, es);
    NoSubmissions();
    assert s.log + [] == s.log;
    if es != [] {
      StepLogs(s, es[0]);
      StepLength(s, es[0]);
      RunLogs(FrameQueue.Step(s, es[0]), es[1..]);
      var first, rest := if es[0].Made? then [es[0].call] else [], CallsMade(es[1..]);
      SubmissionsAppend(first, rest);
      assert (s.log + Submissions(first)) + Submissions(rest) == s.log + (Submissions(first) + Submissions(rest));
    }
  }

  lemma UnrollRun(s: FrameQueue.State, es: seq<FrameQueue.Event>)
    requires 3 <= |s.slots| <= 4
    ensures es == [] ==> Run(s, es) == s && CallsMade(es) == []
    ensures es != [] ==>
      && 3 <= |FrameQueue.Step(s, es[0]).slots| <= 4
      && Run(s, es) == Run(FrameQueue.Step(s, es[0]), es[1..])
      && CallsMade(es) == (if es[0].Made? then [es[0].call] else []) + CallsMade(es[1..])
  {
    hide FrameQueue.Step;
    if es != [] {
      StepLength(s, es[0]);
    }
  }

  lemma NoSubmissions()
    ensures Submissions([]) == []
  {
  }

  lemma {:induction false} SubmissionsAppend(a: seq<Call>, b: seq<Call>)
    ensures Submissions(a + b) == Submissions(a) + Submissions(b)
  {
    if a == [] {
      assert a + b == b;
    } else {
      hide StaysOut;
      assert (a + b)[1..] == a[1..] + b;
      SubmissionsAppend(a[1..], b);
      var first := if StaysOut(a[0]) then [] else [a[0]];
      assert first + (Submissions(a[1..]) + Submissions(b)) == (first + Submissions(a[1..])) + Submissions(b);
    }
  }

  lemma SubmissionsPrefix(a: seq<Call>, b: seq<Call>)
    requires a <= b
    ensures Submissions(a) <= Submissions(b)
  {
    assert b == a + b[|a|..];
    SubmissionsAppend(a, b[|a|..]);
  }

  /**
   The whole client over TCP. `messages` is any cut of the stream; `es` is any run whose calls
   are the ones this cut causes, with animation frames, loaded images and load events anywhere
   between them. Then nothing is dropped, and what the canvas has got, followed by what is
   queued for it, is a beginning of the sequence of rectangles in one parse of the uncut stream;
   it is all of that unless the client stands paused in front of a message that is all there.
   */
  lemma StreamIsDrawnInOrder(c: Setup, messages: seq<seq<Byte>>, es: seq<FrameQueue.Event>)
    requires messages != [] && NeverCleared(es)
    requires CallsMade(es) == Feed(Stream(c, true), INITIAL, [], messages).calls
    ensures var t, r := Run(FrameQueue.INITIAL, es), Feed(Stream(c, true), INITIAL, [], messages);
      var all := Submissions(Pump(c, false, INITIAL, Concat(messages)).calls);
      && t.discarded == []
      && FrameQueue.Items(t.rendered) + FrameQueue.Queued(t.slots) == FrameQueue.Submitted(Submissions(r.calls))
      && Submissions(r.calls) <= all
      && (!(r.status == Wait && CanGo(c, r.state, r.rest)) ==> Submissions(r.calls) == all)
  {
    hide Pump, Run, Feed, CanGo, FrameQueue.Items, FrameQueue.Queued, FrameQueue.Submitted, Submissions, InOrder;
    LagsIff(c, messages);
    PumpInOrder(c, INITIAL, Concat(messages));
    InOrderPrefix(0, CallsMade(es), Pump(c, false, INITIAL, Concat(messages)).calls);
    SubmissionsPrefix(CallsMade(es), Pump(c, false, INITIAL, Concat(messages)).calls);
    OrderIsTcp(0, es);
    InitialTcp();
    TcpIsFifo(FrameQueue.INITIAL, 0, es);
    RunLogs(FrameQueue.INITIAL, es);
    assert [] + Submissions(CallsMade(es)) == Submissions(CallsMade(es));
  }
}
