/**
 When frames reach the canvas whole: over TCP an update is torn only by a load event that names
 its slot too early, and a front frame is rendered by animation frames exactly if it is ready or
 counts out.
 */
module WholeFrames {
  import opened Bytes
  import opened DrawCalls
  import opened FrameQueue
  import opened TcpFrames
  import FrameUpdates
  import MessageParsing
  import Resumable
  import StreamToScreen

  // ---- the update being read

  /** Whether the update's flip has been submitted. */
  function Over(over: bool, e: Event): bool {
    if !e.Made? then over else if e.call.NewFrame? then false else over || e.call.Flip?
  }

  function OverAfter(over: bool, es: seq<Event>): bool
    decreases |es|
  {
    if es == [] then over else OverAfter(Over(over, es[0]), es[1..])
  }

  /** Within an update nothing follows the flip. */
  predicate Shaped(over: bool, es: seq<Event>)
    decreases |es|
  {
    es == [] || (ShapedEvent(over, es[0]) && Shaped(Over(over, es[0]), es[1..]))
  }

  predicate ShapedEvent(over: bool, e: Event) {
    e.Made? && !e.call.NewFrame? ==> !over
  }

  /** A load event that names the slot of frame `u`, and finds no image missing there. */
  predicate Hits(s: State, u: int, e: Event) {
    && e.LoadEvent? && e.frameIx < |s.slots| && s.slots[e.frameIx].frameId == u
    && FirstUnloaded(s.slots[e.frameIx].rects, s.slots[e.frameIx].cursor, s.loaded) >= |s.slots[e.frameIx].rects|
  }

  /** The run after its first `k` events. */
  function At(es: seq<Event>, k: nat): (s: State)
    requires k <= |es|
    ensures 3 <= |s.slots| <= 4
  {
    Run(INITIAL, es[..k])
  }

  /** Event `i` is a hasty load event: it hits the slot of update `u`, whose flip has not come. */
  predicate HitAt(es: seq<Event>, u: int, i: nat)
    requires i < |es|
  {
    RunFrame(0, es[..i]) == u && !OverAfter(true, es[..i]) && Hits(At(es, i), u, es[i])
  }

  /** Event `j` is an animation frame while the slot of update `u` is the front one. */
  predicate FrontAt(es: seq<Event>, u: int, j: nat)
    requires j < |es|
  {
    es[j].AnimationFrame? && At(es, j).slots[0].frameId == u
  }

  ghost predicate HitBefore(es: seq<Event>, u: int, k: nat)
    requires k <= |es|
  {
    exists i :: 0 <= i < k && HitAt(es, u, i)
  }

  /** A hasty load event, and after it an animation frame while the slot is in front. */
  ghost predicate TornBefore(es: seq<Event>, u: int, k: nat)
    requires k <= |es|
  {
    exists i, j :: 0 <= i < j < k && HitAt(es, u, i) && FrontAt(es, u, j)
  }

  lemma BeforeLast(es: seq<Event>, u: int, k: nat)
    requires k < |es|
    ensures HitBefore(es, u, k + 1) <==> HitBefore(es, u, k) || HitAt(es, u, k)
    ensures TornBefore(es, u, k + 1) <==> TornBefore(es, u, k) || (HitBefore(es, u, k) && FrontAt(es, u, k))
  {
    hide HitAt, FrontAt;
  }

  // ---- a run event by event

  lemma {:induction false} LastOfRun(s: State, current: int, over: bool, es: seq<Event>, k: nat)
    requires 3 <= |s.slots| <= 4 && k < |es|
    ensures Run(s, es[..k + 1]) == Step(Run(s, es[..k]), es[k])
    ensures RunFrame(current, es[..k + 1]) == Next(RunFrame(current, es[..k]), es[k])
    ensures OverAfter(over, es[..k + 1]) == Over(OverAfter(over, es[..k]), es[k])
    ensures TcpRun(current, es) ==> TcpEvent(RunFrame(current, es[..k]), es[k])
    ensures Shaped(over, es) ==> ShapedEvent(OverAfter(over, es[..k]), es[k])
    decreases k
  {
    hide Step, TcpEvent, ShapedEvent, Next, Over;
    assert es[..k + 1][0] == es[0] && es[..k + 1][1..] == es[1..][..k];
    StepLength(s, es[0]);
    if k == 0 {
      assert es[..0] == [] && es[1..][..0] == [];
    } else {
      assert es[..k][0] == es[0] && es[..k][1..] == es[1..][..k - 1];
      LastOfRun(Step(s, es[0]), Next(current, es[0]), Over(over, es[0]), es[1..], k - 1);
    }
  }

  // ---- where rectangles are

  predicate AllOf(rects: seq<Rect>, frameId: int) {
    forall k :: 0 <= k < |rects| ==> FrameOf(rects[k].call) == frameId
  }

  predicate NoneOf(rects: seq<Rect>, frameId: int) {
    forall k :: 0 <= k < |rects| ==> FrameOf(rects[k].call) != frameId
  }

  predicate UpTo(rects: seq<Rect>, current: int) {
    forall k :: 0 <= k < |rects| ==> FrameOf(rects[k].call) <= current
  }

  /** Every rectangle is in the slot of its own frame, and nothing newer than the current update is rendered. */
  predicate Placed(s: State, current: int) {
    (forall i :: 0 <= i < |s.slots| ==> AllOf(s.slots[i].rects, s.slots[i].frameId)) && UpTo(s.rendered, current)
  }

  lemma TakePlaced(s: State, current: int)
    requires Ordered(s.slots, current) && Placed(s, current)
    ensures Placed(TakeFront(s), current)
  {
    var t := TakeFront(s);
    assert t.slots == s.slots[1..] + [EMPTY];
    assert AllOf(s.slots[0].rects, s.slots[0].frameId);
    assert s.slots[0].rects == [] || s.slots[0].frameId <= current;
  }

  lemma RewritePlaced(s: State, current: int, i: nat, slot: Slot)
    requires Placed(s, current) && i < |s.slots| && AllOf(slot.rects, slot.frameId)
    ensures Placed(s.(slots := s.slots[i := slot]), current)
  {
  }

  lemma PushPlaced(s: State, current: int, force: bool)
    requires Ordered(s.slots, current) && Placed(s, current)
    ensures Placed(PushAsyncFrame(s, force), current)
  {
    hide TakeFront, Placed, AllOf;
    var front := s.slots[0];
    var tried := front.(tries := front.tries + 1);
    SlotPlaced(s, current, 0);
    RewritePlaced(s, current, 0, tried);
    RewriteOrdered(s.slots, 0, tried, current);
    TakePlaced(s, current);
    TakePlaced(s.(slots := s.slots[0 := tried]), current);
  }

  lemma SlotPlaced(s: State, current: int, i: nat)
    requires Placed(s, current) && i < |s.slots|
    ensures AllOf(s.slots[i].rects, s.slots[i].frameId)
  {
  }

  lemma CompletePlaced(s: State, current: int, i: nat, force: bool)
    requires Ordered(s.slots, current) && Placed(s, current)
    ensures Placed(AsyncFrameComplete(s, i, force), current)
  {
    hide PushAsyncFrame, Placed;
    if i < |s.slots| {
      var slot := s.slots[i];
      SlotPlaced(s, current, i);
      if force {
        var rects := SkipUnloaded(slot.rects, slot.cursor, s.loaded);
        assert Items(rects) == Items(slot.rects);
        var done := slot.(rects := rects,
                          cursor := if slot.cursor < |slot.rects| then |slot.rects| else slot.cursor,
                          ready := true);
        RewritePlaced(s, current, i, done);
        RewriteOrdered(s.slots, i, done, current);
        PushPlaced(s.(slots := s.slots[i := done]), current, true);
      } else {
        var k := FirstUnloaded(slot.rects, slot.cursor, s.loaded);
        RewritePlaced(s, current, i, slot.(cursor := k, ready := slot.ready || k >= |slot.rects|));
      }
    }
  }

  /** The rectangle's slot, and what it becomes. */
  lemma JoinPlaced(s: State, current: int, c: Call, image: bool)
    requires Tcp(s, current) && FrameOf(c) == current >= 1 && Placed(s, current)
    ensures var i := FindSlot(s.slots, current);
      && i < |s.slots|
      && var slot := Counted(Admit(s.slots[i], NewRect(s, c, image)), NewRect(s, c, image));
         && AllOf(slot.rects, slot.frameId) && slot.frameId == current && slot.rects != []
         && Placed(s.(log := s.log + [c], slots := s.slots[i := slot]), current)
         && Ordered(s.slots[i := slot], current)
         && (s.slots[i].frameId != current ==> s.slots[i].rectCount == 0)
  {
    hide Queued, Items, Fifo;
    WhereCurrent(s.slots, current);
    JoinOrdered(s.slots, current, NewRect(s, c, image));
    var i := FindSlot(s.slots, current);
    SlotPlaced(s, current, i);
    assert s.slots[i].frameId == current || IsFree(s.slots[i]);
  }

  lemma SubmitPlaced(s: State, current: int, c: Call, image: bool)
    requires Tcp(s, current) && FrameOf(c) == current >= 1 && Placed(s, current)
    ensures Placed(AsyncRenderQPush(s, c, image), current)
  {
    hide AsyncFrameComplete, Placed, Ordered, Tcp;
    JoinPlaced(s, current, c, image);
    var r, i := NewRect(s, c, image), FindSlot(s.slots, current);
    var joined := s.(log := s.log + [c], slots := s.slots[i := Counted(Admit(s.slots[i], r), r)]);
    CompletePlaced(joined, current, i, false);
  }

  lemma PlacedLater(s: State, current: int)
    requires Placed(s, current)
    ensures Placed(s, current + 1) && NoneOf(s.rendered, current + 1)
  {
  }

  lemma StepPlaced(s: State, current: int, e: Event)
    requires Tcp(s, current) && TcpEvent(current, e) && Placed(s, current)
    ensures Placed(Step(s, e), Next(current, e))
  {
    hide AsyncFrameComplete, PushAsyncFrame, AsyncRenderQPush, Fifo, Ordered, HasRoom, Placed, Submits;
    ThreeSlots(s.slots, current);
    match e
    case Made(c, image) =>
      if c.NewFrame? {
        CompletePlaced(s, current, 0, true);
        PlacedLater(s, current);
        PlacedLater(AsyncFrameComplete(s, 0, true), current);
      } else if Submits(c) {
        SubmitPlaced(s, current, c, image);
      }
    case AnimationFrame => PushPlaced(s, current, false);
    case LoadEvent(i) => CompletePlaced(s, current, i, false);
    case ImageLoaded(_) => ImageAside(s, current, e);
  }

  lemma ThreeSlots(slots: seq<Slot>, current: int)
    requires Ordered(slots, current)
    ensures |slots| == 3
  {
  }

  lemma ImageAside(s: State, current: int, e: Event)
    requires |s.slots| >= 3 && Placed(s, current) && e.ImageLoaded?
    ensures Placed(Step(s, e), current)
  {
  }


  // ---- while an update is being read

  predicate ReadySlot(slots: seq<Slot>, u: int) {
    exists i :: 0 <= i < |slots| && slots[i].frameId == u && slots[i].ready
  }

  /** The slot of an update whose flip has not come: it has rectangles, and no count. */
  predicate Flipless(slots: seq<Slot>, u: int) {
    forall i :: 0 <= i < |slots| && slots[i].frameId == u ==> slots[i].rectCount == 0 && slots[i].rects != []
  }

  /**
   What holds while the rectangles of update `u` come in: its slot is ready only once it has been
   hit, and stays so until it is rendered; something of it is on the canvas exactly if it is torn.
   */
  predicate Watch(s: State, u: int, hit: bool, torn: bool) {
    && Flipless(s.slots, u) && (torn <==> !NoneOf(s.rendered, u)) && (torn ==> hit)
    && (ReadySlot(s.slots, u) ==> hit) && (hit && !torn ==> ReadySlot(s.slots, u))
  }

  /** Frames in use are numbered upwards, so an update has one slot. */
  lemma OneSlot(slots: seq<Slot>, u: int, i: nat, k: nat)
    requires Ordered(slots, u) && u >= 1 && i < |slots| && k < |slots|
    requires slots[i].frameId == u && slots[k].frameId == u
    ensures i == k
  {
    assert i < Used(slots) && k < Used(slots);
  }

  lemma WatchSubmit(s: State, u: int, hit: bool, torn: bool, c: Call, image: bool)
    requires Tcp(s, u) && FrameOf(c) == u >= 1 && !c.Flip? && Placed(s, u) && Watch(s, u, hit, torn)
    ensures Watch(AsyncRenderQPush(s, c, image), u, hit, torn)
  {
    hide Queued, Items, Fifo, Placed, NoneOf, AllOf, UpTo, Ordered, HasRoom;
    JoinPlaced(s, u, c, image);
    var r, i := NewRect(s, c, image), FindSlot(s.slots, u);
    var slot := Counted(Admit(s.slots[i], r), r);
    var t := s.slots[i := slot];
    assert slot.rectCount == 0;
    assert AsyncRenderQPush(s, c, image).slots == t;
    assert ReadySlot(s.slots, u) <==> ReadySlot(t, u) by {
      ReadyRewritten(s, u, i, slot);
    }
  }

  lemma ReadyRewritten(s: State, u: int, i: nat, slot: Slot)
    requires Ordered(s.slots, u) && u >= 1 && i < |s.slots| && slot.frameId == u
    requires FindSlot(s.slots, u) == i
    requires slot.ready == (s.slots[i].frameId == u && s.slots[i].ready)
    ensures ReadySlot(s.slots, u) <==> ReadySlot(s.slots[i := slot], u)
  {
    var t := s.slots[i := slot];
    if ReadySlot(s.slots, u) {
      var k :| 0 <= k < |s.slots| && s.slots[k].frameId == u && s.slots[k].ready;
      if s.slots[i].frameId == u {
        OneSlot(s.slots, u, i, k);
      }
      assert t[k].frameId == u && t[k].ready;
    }
    if ReadySlot(t, u) {
      var k :| 0 <= k < |t| && t[k].frameId == u && t[k].ready;
      assert s.slots[k].frameId == u && s.slots[k].ready;
    }
  }

  lemma WatchAnimation(s: State, u: int, hit: bool, torn: bool)
    requires Ordered(s.slots, u) && u >= 1 && Placed(s, u) && Watch(s, u, hit, torn)
    ensures Watch(PushAsyncFrame(s, false), u, hit, torn || (hit && s.slots[0].frameId == u))
  {
    hide Ordered, Placed, AllOf, NoneOf, TakeFront;
    ThreeSlots(s.slots, u);
    var front := s.slots[0];
    if front.frameId != u {
      OtherPushed(s, u);
    } else if front.ready {
      assert ReadySlot(s.slots, u);
      FrontTaken(s, u);
    } else if ReadySlot(s.slots, u) {
      var k :| 0 <= k < |s.slots| && s.slots[k].frameId == u && s.slots[k].ready;
      OneSlot(s.slots, u, 0, k);
    }
  }

  lemma FrontTaken(s: State, u: int)
    requires |s.slots| == 3 && Placed(s, u) && Flipless(s.slots, u) && s.slots[0].frameId == u >= 1
    ensures Flipless(TakeFront(s).slots, u) && !NoneOf(TakeFront(s).rendered, u)
    ensures ReadySlot(TakeFront(s).slots, u) ==> ReadySlot(s.slots, u)
  {
    var t := TakeFront(s);
    SlotPlaced(s, u, 0);
    assert t.slots == s.slots[1..] + [EMPTY];
    assert FrameOf(t.rendered[|s.rendered|].call) == u;
    ReadyShifted(s.slots, u);
  }

  lemma ReadyShifted(slots: seq<Slot>, u: int)
    requires slots != [] && u >= 1
    ensures ReadySlot(slots[1..] + [EMPTY], u) ==> ReadySlot(slots, u)
    ensures slots[0].frameId != u ==> (ReadySlot(slots, u) ==> ReadySlot(slots[1..] + [EMPTY], u))
  {
    var t := slots[1..] + [EMPTY];
    if ReadySlot(t, u) {
      var k :| 0 <= k < |t| && t[k].frameId == u && t[k].ready;
      assert slots[k + 1] == t[k];
    }
    if slots[0].frameId != u && ReadySlot(slots, u) {
      var k :| 0 <= k < |slots| && slots[k].frameId == u && slots[k].ready;
      assert t[k - 1] == slots[k];
    }
  }

  /** A push that does not take the slot of frame `u` leaves all there is of it where it is. */
  lemma OtherPushed(s: State, u: int)
    requires |s.slots| == 3 && Placed(s, u) && u >= 1 && s.slots[0].frameId != u
    ensures var t := PushAsyncFrame(s, false);
      && (Flipless(s.slots, u) ==> Flipless(t.slots, u))
      && (ReadySlot(t.slots, u) <==> ReadySlot(s.slots, u))
      && (NoneOf(t.rendered, u) <==> NoneOf(s.rendered, u))
  {
    hide ReadySlot, Placed;
    SlotPlaced(s, u, 0);
    var front := s.slots[0];
    var tried := s.slots[0 := front.(tries := front.tries + 1)];
    assert tried[1..] == s.slots[1..];
    ReadyShifted(s.slots, u);
    ReadyShifted(tried, u);
    ReadyTried(s.slots, u);
    var t := PushAsyncFrame(s, false);
    assert t.rendered == s.rendered || t.rendered == s.rendered + front.rects;
    NoneOfMore(s.rendered, front.rects, u);
  }

  lemma ReadyTried(slots: seq<Slot>, u: int)
    requires slots != [] && slots[0].frameId != u
    ensures ReadySlot(slots[0 := slots[0].(tries := slots[0].tries + 1)], u) <==> ReadySlot(slots, u)
  {
    var t := slots[0 := slots[0].(tries := slots[0].tries + 1)];
    assert forall k :: 0 <= k < |t| ==> t[k].frameId == slots[k].frameId && t[k].ready == slots[k].ready;
  }

  lemma NoneOfMore(a: seq<Rect>, b: seq<Rect>, u: int)
    ensures NoneOf(a + b, u) <==> NoneOf(a, u) && NoneOf(b, u)
  {
    if NoneOf(a + b, u) {
      assert forall k :: 0 <= k < |a| ==> (a + b)[k] == a[k];
      assert forall k :: 0 <= k < |b| ==> (a + b)[|a| + k] == b[k];
    }
  }

  lemma WatchLoad(s: State, u: int, hit: bool, torn: bool, i: nat)
    requires Watch(s, u, hit, torn)
    ensures Watch(AsyncFrameComplete(s, i, false), u, hit || Hits(s, u, LoadEvent(i)), torn)
  {
    var t := AsyncFrameComplete(s, i, false);
    assert forall k :: 0 <= k < |s.slots| ==>
      && t.slots[k].frameId == s.slots[k].frameId && t.slots[k].rects == s.slots[k].rects
      && t.slots[k].rectCount == s.slots[k].rectCount && (s.slots[k].ready ==> t.slots[k].ready);
    hide NoneOf;
    if ReadySlot(s.slots, u) {
      var k :| 0 <= k < |s.slots| && s.slots[k].frameId == u && s.slots[k].ready;
      assert t.slots[k].frameId == u && t.slots[k].ready;
    }
    if Hits(s, u, LoadEvent(i)) {
      assert t.slots[i].frameId == u && t.slots[i].ready;
    }
    if ReadySlot(t.slots, u) {
      var k :| 0 <= k < |t.slots| && t.slots[k].frameId == u && t.slots[k].ready;
      assert s.slots[k].ready || k == i;
    }
  }

  /** One event while the rectangles of update `u` come in. */
  lemma WatchStep(s: State, u: int, hit: bool, torn: bool, e: Event)
    requires Tcp(s, u) && u >= 1 && TcpEvent(u, e) && Placed(s, u) && Watch(s, u, hit, torn)
    requires e.Made? ==> !e.call.NewFrame? && !e.call.Flip?
    ensures Watch(Step(s, e), u, hit || Hits(s, u, e), torn || (hit && e.AnimationFrame? && s.slots[0].frameId == u))
  {
    hide AsyncFrameComplete, PushAsyncFrame, AsyncRenderQPush, Fifo, HasRoom, Placed, Watch, Submits;
    match e
    case Made(c, image) =>
      if Submits(c) {
        WatchSubmit(s, u, hit, torn, c, image);
      }
    case AnimationFrame => WatchAnimation(s, u, hit, torn);
    case LoadEvent(i) => WatchLoad(s, u, hit, torn, i);
    case ImageLoaded(_) => WatchLoaded(s, u, hit, torn, e);
  }

  lemma WatchLoaded(s: State, u: int, hit: bool, torn: bool, e: Event)
    requires |s.slots| >= 3 && Watch(s, u, hit, torn) && e.ImageLoaded?
    ensures Watch(Step(s, e), u, hit, torn)
  {
  }

  /** The slot of an update whose flip has not come gets ready exactly by a load event that hits it. */
  lemma ReadyIff(s: State, u: int, e: Event, i: nat)
    requires Tcp(s, u) && u >= 1 && Flipless(s.slots, u)
    requires TcpEvent(u, e) && !(e.Made? && (e.call.NewFrame? || e.call.Flip?)) && !e.AnimationFrame?
    requires i < |s.slots| && s.slots[i].frameId == u && !s.slots[i].ready
    ensures Step(s, e).slots[i].frameId == u
    ensures Step(s, e).slots[i].ready <==> Hits(s, u, e) && e.frameIx == i
  {
    if e.Made? && Submits(e.call) {
      hide Queued, Items, Fifo;
      WhereCurrent(s.slots, u);
      assert s.slots[FindSlot(s.slots, u)].frameId == u;
    }
  }

  /** At the header of an update there is nothing of it yet. */
  lemma WatchBegins(s: State, u: int, image: bool)
    requires Tcp(s, u - 1) && u >= 1 && Placed(s, u - 1)
    ensures Watch(Step(s, Made(NewFrame(u), image)), u, false, false)
  {
    var e := Made(NewFrame(u), image);
    StepPlaced(s, u - 1, e);
    StepTcp(s, u - 1, e);
    var t := Step(s, e);
    NothingYet(s, u, image);
  }

  lemma NothingYet(s: State, u: int, image: bool)
    requires Tcp(s, u - 1) && u >= 1 && Placed(s, u - 1)
    ensures var t := Step(s, Made(NewFrame(u), image));
      NoneOf(t.rendered, u) && forall i :: 0 <= i < |t.slots| ==> t.slots[i].frameId != u
  {
    hide Fifo, HasRoom, Placed, PushAsyncFrame, Items, Queued;
    CompleteOrdered(s, u - 1, 0, true);
    CompletePlaced(s, u - 1, 0, true);
    PlacedLater(s, u - 1);
    PlacedLater(AsyncFrameComplete(s, 0, true), u - 1);
  }

  // ---- over a whole run

  lemma {:induction false} Watching(es: seq<Event>, u: int, k: nat)
    requires TcpRun(0, es) && Shaped(true, es) && u >= 1 && k <= |es|
    ensures var current, over := RunFrame(0, es[..k]), OverAfter(true, es[..k]);
      && Tcp(At(es, k), current) && Placed(At(es, k), current)
      && (current < u ==> !HitBefore(es, u, k) && !TornBefore(es, u, k))
      && (current == u && !over ==> Watch(At(es, k), u, HitBefore(es, u, k), TornBefore(es, u, k)))
    decreases k
  {
    hide Tcp, Placed, Watch, Step, TcpRun, Shaped, Run, Hits, HitBefore, TornBefore;
    if k == 0 {
      AtStart(es);
      InitialTcp();
      BeforeAll(es, u);
    } else {
      var n := k - 1;
      Watching(es, u, n);
      LastOfRun(INITIAL, 0, true, es, n);
      BeforeLast(es, u, n);
      var s, e, current := At(es, n), es[n], RunFrame(0, es[..n]);
      StepTcp(s, current, e);
      StepPlaced(s, current, e);
      if e.Made? && e.call.NewFrame? {
        if current + 1 == u {
          WatchBegins(s, u, e.image);
        }
      } else if current == u && !OverAfter(true, es[..n]) && !(e.Made? && e.call.Flip?) {
        WatchStep(s, u, HitBefore(es, u, n), TornBefore(es, u, n), e);
      }
    }
  }

  lemma AtStart(es: seq<Event>)
    ensures At(es, 0) == INITIAL && RunFrame(0, es[..0]) == 0 && OverAfter(true, es[..0]) && Placed(INITIAL, 0)
  {
    assert es[..0] == [];
  }

  lemma BeforeAll(es: seq<Event>, u: int)
    ensures !HitBefore(es, u, 0) && !TornBefore(es, u, 0)
  {
  }

  /**
   Over any TCP run in which the flip comes last: something of an update is on the canvas while its
   rectangles are still being submitted exactly if a load event has hit its slot with no image
   missing there, and afterwards an animation frame has come while that slot was in front.
   */
  lemma TornIff(es: seq<Event>, k: nat)
    requires TcpRun(0, es) && Shaped(true, es)
    requires k < |es| && es[k].Made? && !es[k].call.NewFrame?
    ensures var u := FrameOf(es[k].call);
      !NoneOf(At(es, k).rendered, u) <==> TornBefore(es, u, k)
  {
    hide NoneOf, TornBefore, HitBefore, Tcp, Placed, At, Run, TcpRun, Shaped;
    LastOfRun(INITIAL, 0, true, es, k);
    var u := FrameOf(es[k].call);
    Watching(es, u, k);
  }
  // ---- animation frames alone

  function Animation(n: nat): (es: seq<Event>)
    ensures |es| == n
  {
    if n == 0 then [] else [AnimationFrame] + Animation(n - 1)
  }

  /** How many animation frames it takes to render the front frame; None if no number does. */
  function Patience(front: Slot): Option<nat> {
    if front.ready then Some(1)
    else if front.rectCount == 0 || front.rectCount != |front.rects| then None
    else if front.tries >= 5 then Some(1) else Some(6 - front.tries)
  }

  /**
   Left to animation frames, the front frame is rendered exactly if it is ready, or has precisely
   as many rectangles as its flip counts; then it takes one frame, or as many as are left of six.
   A frame with more rectangles than its flip counts, or without a flip, waits to be forced out.
   */
  lemma {:induction false} FrontIsRendered(s: State, n: nat)
    requires 3 <= |s.slots| <= 4
    ensures var t, p := Run(s, Animation(n)), Patience(s.slots[0]);
      && (p == None ==> t == s)
      && (p.Some? && n < p.value ==> t.rendered == s.rendered && t.slots[1..] == s.slots[1..])
      && (p.Some? && n >= p.value ==> s.rendered + s.slots[0].rects <= t.rendered)
    decreases n
  {
    if n > 0 {
      StepLength(s, AnimationFrame);
      var next := Step(s, AnimationFrame);
      var p := Patience(s.slots[0]);
      assert Animation(n)[0] == AnimationFrame && Animation(n)[1..] == Animation(n - 1);
      if p.Some? && p.value == 1 {
        RenderedGrows(next, n - 1);
      } else {
        FrontIsRendered(next, n - 1);
      }
    }
  }

  lemma {:induction false} RenderedGrows(s: State, n: nat)
    requires 3 <= |s.slots| <= 4
    ensures s.rendered <= Run(s, Animation(n)).rendered
    decreases n
  {
    if n > 0 {
      StepLength(s, AnimationFrame);
      assert Animation(n)[0] == AnimationFrame && Animation(n)[1..] == Animation(n - 1);
      RenderedGrows(Step(s, AnimationFrame), n - 1);
    }
  }

  // ---- the client's calls

  predicate ShapedCalls(over: bool, calls: seq<Call>)
    decreases |calls|
  {
    calls == []
    || ((calls[0].NewFrame? || !over)
        && ShapedCalls(if calls[0].NewFrame? then false else over || calls[0].Flip?, calls[1..]))
  }

  lemma {:induction false} ShapeOfRun(over: bool, es: seq<Event>)
    requires ShapedCalls(over, StreamToScreen.CallsMade(es))
    ensures Shaped(over, es)
    decreases |es|
  {
    if es != [] {
      var rest := StreamToScreen.CallsMade(es[1..]);
      if es[0].Made? {
        assert StreamToScreen.CallsMade(es)[0] == es[0].call && StreamToScreen.CallsMade(es)[1..] == rest;
      } else {
        assert StreamToScreen.CallsMade(es) == rest;
      }
      ShapeOfRun(Over(over, es[0]), es[1..]);
    }
  }

  lemma {:induction false} ShapedPrefix(over: bool, a: seq<Call>, b: seq<Call>)
    requires a <= b && ShapedCalls(over, b)
    ensures ShapedCalls(over, a)
    decreases |a|
  {
    if a != [] {
      ShapedPrefix(if a[0].NewFrame? then false else over || a[0].Flip?, a[1..], b[1..]);
    }
  }

  /** Rectangles of one update, and then what may come after them. */
  lemma {:induction false} DrawnFirst(a: seq<Call>, b: seq<Call>)
    requires forall k :: 0 <= k < |a| ==> !a[k].NewFrame? && !a[k].Flip?
    requires ShapedCalls(false, b)
    ensures ShapedCalls(false, a + b)
    decreases |a|
  {
    if a == [] {
      assert a + b == b;
    } else {
      assert (a + b)[1..] == a[1..] + b;
      DrawnFirst(a[1..], b);
    }
  }

  lemma {:induction false} PumpShaped(c: FrameUpdates.Setup, s: FrameUpdates.Fbu, bytes: seq<Byte>)
    requires s.Ok()
    ensures ShapedCalls(s.rects == 0, FrameUpdates.Pump(c, false, s, bytes).calls)
    decreases |bytes|, if s.rects > 0 then 2 else 0
  {
    hide FrameUpdates.Rects, FrameUpdates.Finish, MessageParsing.OtherMessage;
    if s.rects > 0 {
      FinishShaped(c, s, bytes);
    } else if bytes != [] && bytes[0] != 0 {
      var m := MessageParsing.OtherMessage(bytes, c.viewOnly);
      if m.Message? {
        PumpShaped(c, FrameUpdates.Heard(s, m.value), bytes[m.used..]);
      }
    } else if |bytes| >= 4 {
      var begun := FrameUpdates.Begin(s, bytes[..4]);
      FinishShaped(c, begun, bytes[4..]);
      var calls := FrameUpdates.Finish(c, false, begun, bytes[4..]).calls;
      assert ([NewFrame(begun.frameId)] + calls)[1..] == calls;
    }
  }

  lemma {:induction false} FinishShaped(c: FrameUpdates.Setup, s: FrameUpdates.Fbu, bytes: seq<Byte>)
    requires s.Ok()
    ensures ShapedCalls(false, FrameUpdates.Finish(c, false, s, bytes).calls)
    decreases |bytes|, 1
  {
    hide FrameUpdates.Rects, FrameUpdates.Pump;
    var o := FrameUpdates.Rects(c.inflate, s, bytes);
    if o.status == Resumable.Done {
      PumpShaped(c, o.state, o.rest);
      var flip, later := FrameUpdates.FlipCalls(o.state), FrameUpdates.Pump(c, false, o.state, o.rest).calls;
      assert flip != [] ==> (flip + later)[1..] == later;
      assert flip == [] ==> flip + later == later;
      DrawnFirst(o.calls, flip + later);
      assert o.calls + (flip + later) == o.calls + flip + later;
    } else {
      DrawnFirst(o.calls, []);
      assert o.calls + [] == o.calls;
    }
  }

  /**
   The whole client over TCP, for any stream, any cut of it and any callbacks between its calls:
   an update is on the canvas in part exactly if such a load event and such an animation frame
   have come before the rectangle now being submitted.
   */
  lemma UpdateTornIff(c: FrameUpdates.Setup, arrivals: seq<seq<Byte>>, es: seq<Event>, k: nat)
    requires arrivals != [] && StreamToScreen.NeverCleared(es)
    requires StreamToScreen.CallsMade(es)
          == Resumable.Feed(StreamToScreen.Stream(c, true), FrameUpdates.INITIAL, [], arrivals).calls
    requires k < |es| && es[k].Made? && !es[k].call.NewFrame?
    ensures var u := FrameOf(es[k].call);
      !NoneOf(At(es, k).rendered, u) <==> TornBefore(es, u, k)
  {
    hide *;
    FreshClient();
    var whole := FrameUpdates.Pump(c, false, FrameUpdates.INITIAL, Concat(arrivals)).calls;
    StreamToScreen.LagsIff(c, arrivals);
    StreamToScreen.PumpInOrder(c, FrameUpdates.INITIAL, Concat(arrivals));
    StreamToScreen.InOrderPrefix(0, StreamToScreen.CallsMade(es), whole);
    StreamToScreen.OrderIsTcp(0, es);
    PumpShaped(c, FrameUpdates.INITIAL, Concat(arrivals));
    ShapedPrefix(true, StreamToScreen.CallsMade(es), whole);
    ShapeOfRun(true, es);
    TornIff(es, k);
  }

  lemma FreshClient()
    ensures FrameUpdates.INITIAL.Ok() && StreamToScreen.Numbered(FrameUpdates.INITIAL)
    ensures FrameUpdates.INITIAL.frameId == 0 && FrameUpdates.INITIAL.rects == 0
  {
  }
}
