/**
 The order of frames when rectangles come in any order, as they do over UDP: when what is rendered,
 followed by what is queued, is no longer ordered by frame number.
 */
module FrameOrder {
  import opened Bytes
  import opened DrawCalls
  import opened FrameQueue
  import opened TcpFrames
  import opened WholeFrames
  import TornUpdate

  function FrameIn(item: Item): int {
    item.call.frameId
  }

  predicate Rising(items: seq<Item>) {
    forall i, k :: 0 <= i < k < |items| ==> FrameIn(items[i]) <= FrameIn(items[k])
  }

  predicate AtMost(items: seq<Item>, frameId: int) {
    forall k :: 0 <= k < |items| ==> FrameIn(items[k]) <= frameId
  }

  predicate AtLeast(items: seq<Item>, frameId: int) {
    forall k :: 0 <= k < |items| ==> FrameIn(items[k]) >= frameId
  }

  /** What is on the canvas, and what is queued behind it. */
  function Flow(s: State): seq<Item> {
    Items(s.rendered) + Queued(s.slots)
  }

  /** What ends up before the rectangle that `c` submits, and what behind it; None if it is dropped. */
  function Around(s: State, c: Call): Option<(seq<Item>, seq<Item>)>
    requires s.slots != []
  {
    var id := FrameOf(c);
    var i := FindSlot(s.slots, id);
    if i < |s.slots| then Some((Items(s.rendered) + Queued(s.slots[..i + 1]), Queued(s.slots[i + 1..])))
    else if id < Oldest(s.slots) || id <= Newest(s.slots) then None
    else Some((Items(s.rendered) + Queued(if s.slots[0].ready then s.slots else s.slots[1..]), []))
  }

  /** It goes behind something newer, on the canvas or in a slot, or before something older. */
  predicate Misplaced(s: State, c: Call)
    requires s.slots != []
  {
    var around := Around(s, c);
    around.Some? && (!AtMost(around.value.0, FrameOf(c)) || !AtLeast(around.value.1, FrameOf(c)))
  }

  // ---- sequences

  lemma RisingInsert(a: seq<Item>, x: Item, b: seq<Item>)
    requires Rising(a + b)
    ensures Rising(a + [x] + b) <==> AtMost(a, FrameIn(x)) && AtLeast(b, FrameIn(x))
  {
    var t := a + [x] + b;
    assert forall k :: 0 <= k < |a| ==> t[k] == a[k] == (a + b)[k];
    assert t[|a|] == x;
    assert forall k :: 0 <= k < |b| ==> t[|a| + 1 + k] == b[k] == (a + b)[|a| + k];
    hide FrameIn;
  }

  lemma RisingWithout(a: seq<Item>, m: seq<Item>, b: seq<Item>)
    requires Rising(a + m + b)
    ensures Rising(a + b)
  {
    hide FrameIn;
    var t, rest := a + m + b, a + b;
    forall i, k | 0 <= i < k < |rest|
      ensures FrameIn(rest[i]) <= FrameIn(rest[k])
    {
      var i', k' := if i < |a| then i else i + |m|, if k < |a| then k else k + |m|;
      assert rest[i] == t[i'] && rest[k] == t[k'];
    }
  }

  // ---- one event

  lemma FlowKept(s: State, t: State)
    requires SameFlow(s, t)
    ensures Flow(t) == Flow(s)
  {
  }

  lemma JoinFlow(s: State, r: Rect, i: nat)
    requires i < |s.slots|
    ensures var slot := Counted(Admit(s.slots[i], r), r);
      Items(s.rendered) + Queued(s.slots[i := slot])
      == (Items(s.rendered) + Queued(s.slots[..i + 1])) + [Item(r.tag, r.call)] + Queued(s.slots[i + 1..])
    ensures Flow(s) == (Items(s.rendered) + Queued(s.slots[..i + 1])) + Queued(s.slots[i + 1..])
  {
    hide Queued, Items;
    var slot := Counted(Admit(s.slots[i], r), r);
    var front, behind, own := Queued(s.slots[..i]), Queued(s.slots[i + 1..]), Items(s.slots[i].rects);
    ItemsAppend(s.slots[i].rects, [r]);
    OneItem(r);
    QueuedAt(s.slots, i, slot);
    assert s.slots[..i + 1] == s.slots[..i] + [s.slots[i]] && s.slots == s.slots[..i + 1] + s.slots[i + 1..];
    QueuedAppend(s.slots[..i], [s.slots[i]]);
    QueuedAppend(s.slots[..i + 1], s.slots[i + 1..]);
    OneQueued(s.slots[i]);
    var x := [Item(r.tag, r.call)];
    assert front + (own + x) + behind == (front + own) + x + behind;
    Shuffle(Items(s.rendered), front + own, x, behind);
  }

  lemma Shuffle(a: seq<Item>, b: seq<Item>, x: seq<Item>, c: seq<Item>)
    ensures a + (b + x + c) == (a + b) + x + c
    ensures a + (b + c) == (a + b) + c
  {
  }

  lemma OneItem(r: Rect)
    ensures Items([r]) == [Item(r.tag, r.call)]
  {
  }

  lemma OneQueued(slot: Slot)
    ensures Queued([slot]) == Items(slot.rects)
  {
    assert Queued([slot]) == Items(slot.rects) + Queued([slot][1..]);
  }

  /** A rectangle that finds no slot: dropped, or put behind everything that stays. */
  lemma AppendFlow(s: State, c: Call, image: bool)
    requires s.slots != [] && FindSlot(s.slots, FrameOf(c)) == |s.slots|
    ensures Around(s, c).None? ==> Flow(AsyncRenderQPush(s, c, image)) == Flow(s)
    ensures Around(s, c).Some? ==>
      && Around(s, c).value.1 == []
      && Flow(AsyncRenderQPush(s, c, image)) == Around(s, c).value.0 + [Item(|s.log|, c)]
    ensures Around(s, c).Some? && s.slots[0].ready ==> Around(s, c).value.0 == Flow(s)
  {
    hide PushAsyncFrame, Queued, Items, Oldest, Newest, FindSlot, AsyncFrameComplete;
    var r, s' := NewRect(s, c, image), s.(log := s.log + [c]);
    if Around(s, c).Some? {
      PushFlow(s', true);
      var freed := if s.slots[0].ready then PushAsyncFrame(s', true)
                   else s'.(slots := s.slots[1..], discarded := s.discarded + s.slots[0].rects);
      QueuedAppend(freed.slots, [NewSlot(r)]);
      OneQueued(NewSlot(r));
      OneItem(r);
      assert Items(freed.rendered) + (Queued(freed.slots) + Items([r]))
          == Items(freed.rendered) + Queued(freed.slots) + Items([r]);
    }
  }

  /** Submitting keeps the order exactly if the rectangle is not misplaced. */
  lemma SubmitRisingIff(s: State, c: Call, image: bool)
    requires s.slots != [] && Rising(Flow(s))
    ensures Rising(Flow(AsyncRenderQPush(s, c, image))) <==> !Misplaced(s, c)
  {
    hide Queued, Items, Rising, AtMost, AtLeast, AsyncFrameComplete, FindSlot, Oldest, Newest, Counted, Admit;
    var r, i := NewRect(s, c, image), FindSlot(s.slots, FrameOf(c));
    if i < |s.slots| {
      JoinFlow(s, r, i);
      var joined := s.(log := s.log + [c], slots := s.slots[i := Counted(Admit(s.slots[i], r), r)]);
      CompleteFlow(joined, i, false);
      FlowKept(joined, AsyncFrameComplete(joined, i, false));
      RisingInsert(Items(s.rendered) + Queued(s.slots[..i + 1]), Item(r.tag, c), Queued(s.slots[i + 1..]));
    } else {
      AppendFlow(s, c, image);
      if Around(s, c).Some? {
        StaysRising(s);
        var ahead := Around(s, c).value.0;
        assert ahead + [] == ahead && ahead + [Item(|s.log|, c)] + [] == ahead + [Item(|s.log|, c)];
        RisingInsert(ahead, Item(|s.log|, c), []);
        NothingOlder(FrameOf(c));
      }
    }
  }

  lemma NothingOlder(id: int)
    ensures AtLeast([], id)
  {
  }

  /** Without its oldest frame the queue is as ordered as it was. */
  lemma StaysRising(s: State)
    requires s.slots != [] && Rising(Flow(s))
    ensures Rising(Items(s.rendered) + Queued(s.slots[1..]))
  {
    var a, m, b := Items(s.rendered), Items(s.slots[0].rects), Queued(s.slots[1..]);
    assert Flow(s) == a + (m + b) == a + m + b;
    RisingWithout(a, m, b);
  }

  predicate MisplacedBy(s: State, e: Event)
    requires s.slots != []
  {
    e.Made? && !e.call.NewFrame? && Submits(e.call) && Misplaced(s, e.call)
  }

  lemma StepRisingIff(s: State, e: Event)
    requires 3 <= |s.slots| && Rising(Flow(s))
    ensures Rising(Flow(Step(s, e))) <==> !MisplacedBy(s, e)
  {
    hide Rising, Misplaced, AsyncFrameComplete, PushAsyncFrame, AsyncRenderQPush, Queued, Items, Submits;
    match e
    case Made(c, image) =>
      if c.NewFrame? {
        CompleteFlow(s, 0, true);
        FlowKept(s, AsyncFrameComplete(s, 0, true));
      } else if Submits(c) {
        SubmitRisingIff(s, c, image);
      }
    case AnimationFrame =>
      PushFlow(s, false);
      FlowKept(s, PushAsyncFrame(s, false));
    case LoadEvent(i) =>
      CompleteFlow(s, i, false);
      FlowKept(s, AsyncFrameComplete(s, i, false));
    case Cleared =>
      EmptyQueued();
      assert Flow(Step(s, e)) == Items(s.rendered);
      RisingFront(Items(s.rendered), Queued(s.slots));
    case ImageLoaded(_) =>
  }

  lemma RisingFront(a: seq<Item>, b: seq<Item>)
    requires Rising(a + b)
    ensures Rising(a) && a + [] == a
  {
    RisingWithout(a, b, []);
    assert a + b + [] == a + b && a + [] == a;
  }

  // ---- over a run

  /**
   In any run, with rectangles of any frames in any order, callbacks and clearing anywhere: what is
   rendered, followed by what is queued, is ordered by frame number all along exactly if no
   rectangle is misplaced when it is submitted.
   */
  lemma {:induction false} RisingThroughoutIff(es: seq<Event>)
    ensures (forall k :: 0 <= k <= |es| ==> Rising(Flow(At(es, k))))
       <==> (forall k :: 0 <= k < |es| ==> !MisplacedBy(At(es, k), es[k]))
    decreases |es|
  {
    hide Rising, MisplacedBy, Run;
    if es == [] {
      StartsRising(es);
    } else {
      var n := |es| - 1;
      var init := es[..n];
      RisingThroughoutIff(init);
      forall k | 0 <= k <= n
        ensures At(es, k) == At(init, k)
      {
        assert es[..k] == init[..k];
      }
      assert forall k :: 0 <= k < n ==> es[k] == init[k];
      LastOfRun(INITIAL, 0, true, es, n);
      assert es[..n + 1] == es[..|es|];
      assert At(es, n + 1) == Step(At(es, n), es[n]);
      if Rising(Flow(At(es, n))) {
        StepRisingIff(At(es, n), es[n]);
      }
    }
  }

  lemma StartsRising(es: seq<Event>)
    ensures At(es, 0) == INITIAL && Rising(Flow(INITIAL))
  {
    assert es[..0] == [];
    EmptyQueued();
  }

  // ---- a run in which it is not

  function FillOf(id: int): Event {
    Made(Call.Fill(TornUpdate.SPOT, Some(BLACK), id), false)
  }

  /** A rectangle of frame 2 and then one of frame 1: the older frame takes the slot behind the newer one. */
  lemma OlderBehindNewer()
    ensures var es := [FillOf(2), FillOf(1)];
      MisplacedBy(At(es, 1), FillOf(1)) && !Rising(Flow(At(es, 2)))
  {
    var es := [FillOf(2), FillOf(1)];
    StartsRising(es);
    LastOfRun(INITIAL, 0, true, es, 0);
    LastOfRun(INITIAL, 0, true, es, 1);
    hide Step, Run;
    TornUpdate.TakesSlot(INITIAL, FillOf(2), 0);
    var s, r := At(es, 1), Rect(0, FillOf(2).call, Plain);
    assert s.slots == INITIAL.slots[0 := Slot(2, 0, [r], false, 0, 0)];
    BehindNewer(s, r);
    StepRisingIff(s, FillOf(1));
    assert At(es, 2) == Step(s, FillOf(1));
  }

  lemma BehindNewer(s: State, r: Rect)
    requires s.slots == INITIAL.slots[0 := Slot(2, 0, [r], false, 0, 0)] && s.rendered == []
    requires FrameOf(r.call) == 2
    ensures MisplacedBy(s, FillOf(1)) && Rising(Flow(s))
  {
    var first := Slot(2, 0, [r], false, 0, 0);
    assert s.slots == [first, EMPTY, EMPTY] && FindSlot(s.slots, 1) == 1;
    assert s.slots[..2] == [first] + [EMPTY] && s.slots == [first] + [EMPTY] + [EMPTY];
    QueuedAppend([first], [EMPTY]);
    QueuedAppend([first] + [EMPTY], [EMPTY]);
    OneQueued(first);
    OneQueued(EMPTY);
    OneItem(r);
    assert Queued(s.slots[..2]) == [Item(r.tag, r.call)] == Queued(s.slots);
    var ahead := Items(s.rendered) + Queued(s.slots[..2]);
    assert ahead[0] == Item(r.tag, r.call);
  }
}
