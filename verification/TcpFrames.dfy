/**
 Over TCP every rectangle carries the number of the update being read, and each update's header
 makes room first. Then the frame queue is a lossless first-in first-out queue, whatever the
 browser's callbacks do in between.
 */
module TcpFrames {
  import opened Bytes
  import opened DrawCalls
  import opened FrameQueue

  /** The slots in use: those before the first free one. */
  function Used(slots: seq<Slot>): nat {
    FindSlot(slots, 0)
  }

  predicate IsFree(slot: Slot) {
    slot.frameId == 0 && slot.rects == [] && slot.rectCount == 0
  }

  /** Frames in slots come oldest first, numbered from 1 up to the current update, with no gaps between slots. */
  ghost predicate Ordered(slots: seq<Slot>, current: int) {
    && |slots| == MAX_ASYNC_FRAME_QUEUE
    && (forall k :: Used(slots) <= k < |slots| ==> IsFree(slots[k]))
    && (forall k :: 0 <= k < Used(slots) ==> 1 <= slots[k].frameId <= current)
    && (forall i, k :: 0 <= i < k < Used(slots) ==> slots[i].frameId < slots[k].frameId)
  }

  /** The current update has a slot or can get one. */
  ghost predicate HasRoom(slots: seq<Slot>, current: int)
    requires |slots| == MAX_ASYNC_FRAME_QUEUE
  {
    Used(slots) < MAX_ASYNC_FRAME_QUEUE || slots[MAX_ASYNC_FRAME_QUEUE - 1].frameId == current
  }

  ghost predicate Fifo(s: State) {
    s.discarded == [] && Items(s.rendered) + Queued(s.slots) == Submitted(s.log)
  }

  ghost predicate Tcp(s: State, current: int) {
    current >= 0 && Ordered(s.slots, current) && HasRoom(s.slots, current) && Fifo(s)
  }

  /** The events of a TCP connection, from update number `current` on. */
  predicate TcpRun(current: int, es: seq<Event>)
    decreases |es|
  {
    es == [] || (TcpEvent(current, es[0]) && TcpRun(Next(current, es[0]), es[1..]))
  }

  predicate TcpEvent(current: int, e: Event) {
    match e
    case Made(c, _) => if c.NewFrame? then c.frameId == current + 1 else FrameOf(c) == current >= 1
    case Cleared => false
    case _ => true
  }

  function Next(current: int, e: Event): int {
    if e.Made? && e.call.NewFrame? then e.call.frameId else current
  }

  function Run(s: State, es: seq<Event>): (t: State)
    requires 3 <= |s.slots| <= 4
    ensures 3 <= |t.slots| <= 4
    decreases |es|
  {
    if es == [] then s
    else
      StepLength(s, es[0]);
      Run(Step(s, es[0]), es[1..])
  }

  lemma StepLength(s: State, e: Event)
    requires 3 <= |s.slots| <= 4
    ensures 3 <= |Step(s, e).slots| <= 4
  {
    match e
    case Made(c, image) =>
    case AnimationFrame => PushLength(s, false);
    case LoadEvent(i) => CompleteLength(s, i, false);
    case _ =>
  }

  function RunFrame(current: int, es: seq<Event>): int
    decreases |es|
  {
    if es == [] then current else RunFrame(Next(current, es[0]), es[1..])
  }

  // ---- what a step keeps

  lemma UsedIs(slots: seq<Slot>, n: nat)
    requires n <= |slots| && (n < |slots| ==> slots[n].frameId == 0)
    requires forall k :: 0 <= k < n ==> slots[k].frameId != 0
    ensures Used(slots) == n
  {
  }

  /** A slot rewritten in place, its frame kept. */
  lemma RewriteOrdered(slots: seq<Slot>, i: nat, slot: Slot, current: int)
    requires Ordered(slots, current) && i < |slots| && slot.frameId == slots[i].frameId
    requires Items(slot.rects) == Items(slots[i].rects) && slot.rectCount == slots[i].rectCount
    ensures Ordered(slots[i := slot], current)
    ensures Used(slots[i := slot]) == Used(slots)
  {
    var t := slots[i := slot];
    UsedIs(t, Used(slots));
    if i >= Used(slots) {
      assert |slot.rects| == |Items(slot.rects)| == 0;
    }
  }

  lemma TakeFrontOrdered(s: State, current: int)
    requires Ordered(s.slots, current)
    ensures Ordered(TakeFront(s).slots, current)
    ensures Used(TakeFront(s).slots) < MAX_ASYNC_FRAME_QUEUE
  {
    var t := TakeFront(s).slots;
    assert t == s.slots[1..] + [EMPTY];
    var n := if Used(s.slots) == 0 then 0 else Used(s.slots) - 1;
    UsedIs(t, n);
  }

  lemma PushOrdered(s: State, current: int, force: bool)
    requires Ordered(s.slots, current)
    ensures Ordered(PushAsyncFrame(s, force).slots, current)
    ensures Used(PushAsyncFrame(s, force).slots) <= Used(s.slots)
    ensures HasRoom(s.slots, current) ==> HasRoom(PushAsyncFrame(s, force).slots, current)
    ensures force ==> Used(PushAsyncFrame(s, force).slots) < MAX_ASYNC_FRAME_QUEUE
  {
    hide TakeFront, Items;
    var front := s.slots[0];
    var tried := front.(tries := front.tries + 1);
    RewriteOrdered(s.slots, 0, tried, current);
    TakeFrontOrdered(s, current);
    TakeFrontOrdered(s.(slots := s.slots[0 := tried]), current);
    TakeFrontUsed(s);
    TakeFrontUsed(s.(slots := s.slots[0 := tried]));
  }

  lemma TakeFrontUsed(s: State)
    requires |s.slots| == MAX_ASYNC_FRAME_QUEUE && Used(s.slots) <= |s.slots|
    requires forall k :: Used(s.slots) <= k < |s.slots| ==> IsFree(s.slots[k])
    ensures Used(TakeFront(s).slots) <= Used(s.slots)
  {
    var t := TakeFront(s).slots;
    assert t == s.slots[1..] + [EMPTY];
    UsedIs(t, if Used(s.slots) == 0 then 0 else Used(s.slots) - 1);
  }

  lemma CompleteOrdered(s: State, current: int, i: nat, force: bool)
    requires Ordered(s.slots, current)
    ensures Ordered(AsyncFrameComplete(s, i, force).slots, current)
    ensures HasRoom(s.slots, current) ==> HasRoom(AsyncFrameComplete(s, i, force).slots, current)
    ensures force && i == 0 ==> Used(AsyncFrameComplete(s, i, force).slots) < MAX_ASYNC_FRAME_QUEUE
  {
    hide PushAsyncFrame;
    if i < |s.slots| {
      var slot := s.slots[i];
      if force {
        var rects := SkipUnloaded(slot.rects, slot.cursor, s.loaded);
        assert Items(rects) == Items(slot.rects);
        var done := slot.(rects := rects,
                          cursor := if slot.cursor < |slot.rects| then |slot.rects| else slot.cursor,
                          ready := true);
        RewriteOrdered(s.slots, i, done, current);
        PushOrdered(s.(slots := s.slots[i := done]), current, true);
      } else {
        var k := FirstUnloaded(slot.rects, slot.cursor, s.loaded);
        RewriteOrdered(s.slots, i, slot.(cursor := k, ready := slot.ready || k >= |slot.rects|), current);
      }
    }
  }

  lemma FlowFifo(s: State, t: State)
    requires SameFlow(s, t) && Fifo(s)
    ensures Fifo(t)
  {
  }

  lemma {:induction false} FreeQueued(slots: seq<Slot>)
    requires forall k :: 0 <= k < |slots| ==> IsFree(slots[k])
    ensures Queued(slots) == []
  {
    if slots != [] {
      FreeQueued(slots[1..]);
    }
  }

  /** A rectangle of the current update goes behind everything queued: no drop branch is reached. */
  lemma SubmitTcp(s: State, current: int, c: Call, image: bool)
    requires Tcp(s, current) && FrameOf(c) == current >= 1
    ensures FindSlot(s.slots, current) < |s.slots|
    ensures Tcp(AsyncRenderQPush(s, c, image), current)
  {
    hide AsyncFrameComplete, Items, Queued;
    var r := NewRect(s, c, image);
    var i := FindSlot(s.slots, current);
    var u := Used(s.slots);
    assert i == if u > 0 && s.slots[u - 1].frameId == current then u - 1 else u by {
      WhereCurrent(s.slots, current);
    }
    var slot := Counted(Admit(s.slots[i], r), r);
    var joined := s.(log := s.log + [c], slots := s.slots[i := slot]);
    JoinOrdered(s.slots, current, r);
    JoinFifo(s, r, i);
    CompleteOrdered(joined, current, i, false);
    CompleteFlow(joined, i, false);
    FlowFifo(joined, AsyncFrameComplete(joined, i, false));
  }

  lemma WhereCurrent(slots: seq<Slot>, current: int)
    requires Ordered(slots, current) && HasRoom(slots, current) && current >= 1
    ensures var u := Used(slots);
      && FindSlot(slots, current) < |slots|
      && FindSlot(slots, current) == if u > 0 && slots[u - 1].frameId == current then u - 1 else u
  {
    var u := Used(slots);
    if u > 0 && slots[u - 1].frameId == current {
      FindIs(slots, current, u - 1);
    } else {
      assert forall k :: 0 <= k < u ==> slots[k].frameId < current;
      FindIs(slots, current, u);
    }
  }

  lemma FindIs(slots: seq<Slot>, id: int, n: nat)
    requires n < |slots| && (slots[n].frameId == id || slots[n].frameId == 0)
    requires forall k :: 0 <= k < n ==> slots[k].frameId != id && slots[k].frameId != 0
    ensures FindSlot(slots, id) == n
  {
  }

  lemma JoinOrdered(slots: seq<Slot>, current: int, r: Rect)
    requires Ordered(slots, current) && HasRoom(slots, current) && FrameOf(r.call) == current >= 1
    requires FindSlot(slots, current) < |slots|
    ensures var i := FindSlot(slots, current);
      var t := slots[i := Counted(Admit(slots[i], r), r)];
      Ordered(t, current) && HasRoom(t, current)
  {
    WhereCurrent(slots, current);
    var i, u := FindSlot(slots, current), Used(slots);
    var t := slots[i := Counted(Admit(slots[i], r), r)];
    UsedIs(t, i + 1);
    forall a, b | 0 <= a < b < i + 1
      ensures t[a].frameId < t[b].frameId
    {
      if b == i && i == u && a < u - 1 {
        assert slots[a].frameId < slots[u - 1].frameId;
      }
    }
  }

  lemma JoinFifo(s: State, r: Rect, i: nat)
    requires Fifo(s) && r.tag == |s.log| && i < |s.slots|
    requires forall k :: i < k < |s.slots| ==> IsFree(s.slots[k])
    ensures Fifo(s.(log := s.log + [r.call], slots := s.slots[i := Counted(Admit(s.slots[i], r), r)]))
  {
    var slot := Counted(Admit(s.slots[i], r), r);
    assert Submitted(s.log + [r.call]) == Submitted(s.log) + [Item(r.tag, r.call)];
    ItemsAppend(s.slots[i].rects, [r]);
    assert Items([r]) == [Item(r.tag, r.call)];
    QueuedAt(s.slots, i, slot);
    QueuedAt(s.slots, i, s.slots[i]);
    assert s.slots[i := s.slots[i]] == s.slots;
    FreeQueued(s.slots[i + 1..]);
  }

  lemma HeaderTcp(s: State, current: int)
    requires Tcp(s, current)
    ensures Tcp(Step(s, Made(NewFrame(current + 1), false)), current + 1)
  {
    hide AsyncFrameComplete, Items, Queued;
    if Pending(s) {
      CompleteOrdered(s, current, 0, true);
      CompleteFlow(s, 0, true);
      FlowFifo(s, AsyncFrameComplete(s, 0, true));
    } else {
      assert Used(s.slots) < MAX_ASYNC_FRAME_QUEUE;
    }
  }

  lemma StepTcp(s: State, current: int, e: Event)
    requires Tcp(s, current) && TcpEvent(current, e)
    ensures Tcp(Step(s, e), Next(current, e))
  {
    hide AsyncFrameComplete, PushAsyncFrame, AsyncRenderQPush, Items, Queued;
    match e
    case Made(c, image) =>
      if c.NewFrame? {
        HeaderTcp(s, current);
      } else if Submits(c) {
        SubmitTcp(s, current, c, image);
      }
    case AnimationFrame =>
      PushOrdered(s, current, false);
      PushFlow(s, false);
      FlowFifo(s, PushAsyncFrame(s, false));
    case ImageLoaded(t) =>
    case LoadEvent(i) =>
      CompleteOrdered(s, current, i, false);
      CompleteFlow(s, i, false);
      FlowFifo(s, AsyncFrameComplete(s, i, false));
  }

  /**
   Over any TCP run, with callbacks anywhere in it: nothing is discarded, and what has been
   rendered followed by what is queued is what was submitted, in order. The slots in use stay
   the first ones, with increasing frame numbers.
   */
  lemma {:induction false} TcpIsFifo(s: State, current: int, es: seq<Event>)
    requires Tcp(s, current) && TcpRun(current, es)
    ensures Tcp(Run(s, es), RunFrame(current, es))
    decreases |es|
  {
    if es != [] {
      hide Step, Tcp;
      StepTcp(s, current, es[0]);
      StepLength(s, es[0]);
      TcpIsFifo(Step(s, es[0]), Next(current, es[0]), es[1..]);
    }
  }

  lemma InitialTcp()
    ensures Tcp(INITIAL, 0)
  {
    FreeQueued(INITIAL.slots);
  }

  /** In any run at all, the weaker accounting holds. */
  lemma {:induction false} RunIsSound(s: State, es: seq<Event>)
    requires Sound(s)
    ensures Sound(Run(s, es))
    decreases |es|
  {
    if es != [] {
      hide Step;
      StepSound(s, es[0]);
      RunIsSound(Step(s, es[0]), es[1..]);
    }
  }

  lemma InitialSound()
    ensures Sound(INITIAL)
  {
    EmptyQueued();
  }
}
