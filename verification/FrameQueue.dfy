/**
 The queue in which the display collects rectangles into frames, as a state machine: what each
 call and each browser callback does to the slots, to what has been rendered, and to what has
 been dropped.
 */
module FrameQueue {
  import opened Bytes
  import opened DrawCalls

  /** Skipped: an image that had not loaded when its frame was forced out. */
  datatype Kind = Image | Plain | Skipped

  /** `tag` tells submissions apart; it is the number of submissions before this one. */
  datatype Rect = Rect(tag: nat, call: Call, kind: Kind)

  /** The six elements of a frame's array, in their order. A frame id of 0 marks a free slot. */
  datatype Slot = Slot(frameId: int, rectCount: int, rects: seq<Rect>, ready: bool, cursor: nat, tries: nat)

  const EMPTY := Slot(0, 0, [], false, 0, 0)
  const MAX_ASYNC_FRAME_QUEUE := 3
  const MAX_SAFE_INTEGER := 0x1f_ffff_ffff_ffff

  /** `log` lists what was submitted; `loaded` holds the tags of images the browser has loaded. */
  datatype State = State(slots: seq<Slot>, loaded: set<nat>, rendered: seq<Rect>, discarded: seq<Rect>, log: seq<Call>)

  const INITIAL := State([EMPTY, EMPTY, EMPTY], {}, [], [], [])

  function FrameOf(c: Call): int {
    c.frameId
  }

  predicate IsFlip(r: Rect) {
    r.call.Flip?
  }

  /** The first slot that holds the frame or is free; the length of the queue if there is none. */
  function FindSlot(slots: seq<Slot>, id: int): (i: nat)
    ensures i <= |slots|
    ensures i < |slots| ==> slots[i].frameId == id || slots[i].frameId == 0
    ensures forall k :: 0 <= k < i ==> slots[k].frameId != id && slots[k].frameId != 0
  {
    if slots == [] || slots[0].frameId == id || slots[0].frameId == 0 then 0 else 1 + FindSlot(slots[1..], id)
  }

  function Oldest(slots: seq<Slot>): int {
    if slots == [] then MAX_SAFE_INTEGER
    else var o := Oldest(slots[..|slots| - 1]);
         if slots[|slots| - 1].frameId < o then slots[|slots| - 1].frameId else o
  }

  function Newest(slots: seq<Slot>): int {
    if slots == [] then 0
    else var n := Newest(slots[..|slots| - 1]);
         if slots[|slots| - 1].frameId > n then slots[|slots| - 1].frameId else n
  }

  /** The rectangle joins the slot; a free slot takes on its frame. */
  function Admit(slot: Slot, r: Rect): Slot {
    if FrameOf(r.call) == slot.frameId then slot.(rects := slot.rects + [r])
    else slot.(frameId := FrameOf(r.call), rects := slot.rects + [r], ready := IsFlip(r) && r.call.rectCount == 1)
  }

  /** A flip rectangle adds its count to the slot's. */
  function Counted(slot: Slot, r: Rect): Slot {
    if IsFlip(r) then slot.(rectCount := slot.rectCount + r.call.rectCount) else slot
  }

  predicate AllHere(slot: Slot) {
    slot.rectCount > 0 && |slot.rects| >= slot.rectCount
  }

  predicate Unloaded(r: Rect, loaded: set<nat>) {
    r.kind == Image && r.tag !in loaded
  }

  /** The first image from `from` on that is not loaded, or the end. */
  function FirstUnloaded(rects: seq<Rect>, from: nat, loaded: set<nat>): (k: nat)
    ensures from <= k && (from <= |rects| ==> k <= |rects|)
    decreases |rects| - from
  {
    if from >= |rects| || Unloaded(rects[from], loaded) then from else FirstUnloaded(rects, from + 1, loaded)
  }

  function SkipUnloaded(rects: seq<Rect>, from: nat, loaded: set<nat>): (r: seq<Rect>)
    ensures |r| == |rects|
    ensures forall k :: 0 <= k < |rects| ==>
      r[k] == if from <= k && Unloaded(rects[k], loaded) then rects[k].(kind := Skipped) else rects[k]
  {
    seq(|rects|, k requires 0 <= k < |rects| =>
      if from <= k && Unloaded(rects[k], loaded) then rects[k].(kind := Skipped) else rects[k])
  }

  /** The oldest frame goes to the canvas; a queue left with fewer than three slots gets a free one. */
  function TakeFront(s: State): State
    requires s.slots != []
  {
    s.(rendered := s.rendered + s.slots[0].rects,
       slots := s.slots[1..] + if |s.slots| - 1 < MAX_ASYNC_FRAME_QUEUE then [EMPTY] else [])
  }

  /** `_pushAsyncFrame`. */
  function PushAsyncFrame(s: State, force: bool): State
    requires s.slots != []
  {
    var front := s.slots[0];
    if front.ready || force then TakeFront(s)
    else if front.rectCount > 0 && front.rectCount == |front.rects| then
      var s' := s.(slots := s.slots[0 := front.(tries := front.tries + 1)]);
      if front.tries + 1 > 5 then TakeFront(s') else s'
    else s
  }

  /** `_asyncFrameComplete`. */
  function AsyncFrameComplete(s: State, i: nat, force: bool): State {
    if i >= |s.slots| then s
    else if force then
      var slot := s.slots[i];
      var done := slot.(rects := SkipUnloaded(slot.rects, slot.cursor, s.loaded),
                        cursor := if slot.cursor < |slot.rects| then |slot.rects| else slot.cursor,
                        ready := true);
      var s' := s.(slots := s.slots[i := done]);
      if i == 0 then PushAsyncFrame(s', true) else s'
    else
      var slot := s.slots[i];
      var k := FirstUnloaded(slot.rects, slot.cursor, s.loaded);
      s.(slots := s.slots[i := slot.(cursor := k, ready := slot.ready || k >= |slot.rects|)])
  }

  /** The rectangle that submitting `c` creates. */
  function NewRect(s: State, c: Call, image: bool): Rect {
    Rect(|s.log|, c, if image then Image else Plain)
  }

  /** `_asyncRenderQPush`. */
  function AsyncRenderQPush(s: State, c: Call, image: bool): State
    requires s.slots != []
  {
    var r, id := NewRect(s, c, image), FrameOf(c);
    var i := FindSlot(s.slots, id);
    var s' := s.(log := s.log + [c]);
    if i < |s.slots| then
      var joined := s'.(slots := s.slots[i := Counted(Admit(s.slots[i], r), r)]);
      if AllHere(joined.slots[i]) then AsyncFrameComplete(joined, i, false) else joined
    else if id < Oldest(s.slots) || id <= Newest(s.slots) then
      s'.(discarded := s.discarded + [r])
    else
      var freed := if s.slots[0].ready then PushAsyncFrame(s', true)
                   else s'.(slots := s.slots[1..], discarded := s.discarded + s.slots[0].rects);
      freed.(slots := freed.slots + [NewSlot(r)])
  }

  function NewSlot(r: Rect): Slot {
    var count := if IsFlip(r) then r.call.rectCount else 0;
    Slot(FrameOf(r.call), count, [r], count == 1, 0, 0)
  }

  predicate Pending(s: State)
    requires |s.slots| >= MAX_ASYNC_FRAME_QUEUE
  {
    s.slots[MAX_ASYNC_FRAME_QUEUE - 1].frameId > 0
  }

  function Clear(s: State): State {
    s.(slots := [EMPTY, EMPTY, EMPTY], discarded := s.discarded + AllRects(s.slots))
  }

  function AllRects(slots: seq<Slot>): seq<Rect> {
    if slots == [] then [] else slots[0].rects + AllRects(slots[1..])
  }

  // ---- runs

  /**
   Anything that can happen to the display, in any order. Callbacks are not tied to having been
   registered: an animation frame may come at any time, and a load event may name any slot,
   since the slot number it carries was fixed before the queue moved on.
   */
  datatype Event =
    | Made(call: Call, image: bool)
    | AnimationFrame
    | ImageLoaded(tag: nat)
    | LoadEvent(frameIx: nat)
    | Cleared

  /** Whether a call puts a rectangle into the queue; empty images and QOI payloads do not. */
  predicate Submits(c: Call) {
    match c
    case NewFrame(_) => false
    case ImageRect(a, _, _, _) => a.w > 0 && a.h > 0
    case Handoff(a, kind, _, _) => kind == 13 && a.w > 0 && a.h > 0
    case _ => true
  }

  function Step(s: State, e: Event): State
    requires |s.slots| >= MAX_ASYNC_FRAME_QUEUE
  {
    match e
    case Made(c, image) =>
      if c.NewFrame? then (if Pending(s) then AsyncFrameComplete(s, 0, true) else s)
      else if Submits(c) then AsyncRenderQPush(s, c, image) else s
    case AnimationFrame => PushAsyncFrame(s, false)
    case ImageLoaded(t) => s.(loaded := s.loaded + {t})
    case LoadEvent(i) => AsyncFrameComplete(s, i, false)
    case Cleared => Clear(s)
  }

  // ---- accounting

  /** A submission: its number and the call that made it. */
  datatype Item = Item(tag: nat, call: Call)

  function Items(rects: seq<Rect>): (r: seq<Item>)
    ensures |r| == |rects|
  {
    seq(|rects|, k requires 0 <= k < |rects| => Item(rects[k].tag, rects[k].call))
  }

  function Submitted(log: seq<Call>): (r: seq<Item>)
    ensures |r| == |log|
  {
    seq(|log|, t requires 0 <= t < |log| => Item(t, log[t]))
  }

  function Queued(slots: seq<Slot>): seq<Item> {
    if slots == [] then [] else Items(slots[0].rects) + Queued(slots[1..])
  }

  /** Every submission is in exactly one place: queued, rendered or discarded. */
  ghost predicate Accounted(s: State) {
    multiset(Items(s.rendered)) + multiset(Queued(s.slots)) + multiset(Items(s.discarded))
    == multiset(Submitted(s.log))
  }

  lemma SubmittedOnce(log: seq<Call>, t: nat)
    requires t < |log|
    ensures multiset(Submitted(log))[Item(t, log[t])] == 1
  {
    if log != [] {
      var n := |log| - 1;
      assert Submitted(log) == Submitted(log[..n]) + [Item(n, log[n])];
      if t < n {
        SubmittedOnce(log[..n], t);
      } else {
        forall k | 0 <= k < n
          ensures Submitted(log[..n])[k] != Item(n, log[n])
        {
        }
        assert Item(n, log[n]) !in Submitted(log[..n]);
      }
    }
  }

  ghost predicate Sound(s: State) {
    MAX_ASYNC_FRAME_QUEUE <= |s.slots| <= MAX_ASYNC_FRAME_QUEUE + 1 && Accounted(s)
  }

  lemma {:induction false} QueuedAppend(a: seq<Slot>, b: seq<Slot>)
    ensures Queued(a + b) == Queued(a) + Queued(b)
  {
    if a == [] {
      assert a + b == b;
    } else {
      assert (a + b)[1..] == a[1..] + b;
      QueuedAppend(a[1..], b);
    }
  }

  lemma QueuedAt(slots: seq<Slot>, i: nat, slot: Slot)
    requires i < |slots|
    ensures Queued(slots[i := slot]) == Queued(slots[..i]) + Items(slot.rects) + Queued(slots[i + 1..])
  {
    assert slots[i := slot] == slots[..i] + [slot] + slots[i + 1..];
    QueuedAppend(slots[..i] + [slot], slots[i + 1..]);
    QueuedAppend(slots[..i], [slot]);
    assert Queued([slot]) == Items(slot.rects) + Queued([slot][1..]);
  }

  /** A slot rewritten without adding or losing a rectangle leaves the queue's items as they were. */
  lemma QueuedSame(slots: seq<Slot>, i: nat, slot: Slot)
    requires i < |slots| && Items(slot.rects) == Items(slots[i].rects)
    ensures Queued(slots[i := slot]) == Queued(slots)
  {
    QueuedAt(slots, i, slot);
    QueuedAt(slots, i, slots[i]);
    assert slots[i := slots[i]] == slots;
  }

  lemma ItemsAppend(a: seq<Rect>, b: seq<Rect>)
    ensures Items(a + b) == Items(a) + Items(b)
  {
  }

  lemma {:induction false} AllRectsQueued(slots: seq<Slot>)
    ensures Items(AllRects(slots)) == Queued(slots)
  {
    if slots != [] {
      ItemsAppend(slots[0].rects, AllRects(slots[1..]));
      AllRectsQueued(slots[1..]);
    }
  }

  lemma TakeFrontQueued(s: State)
    requires s.slots != []
    ensures Items(TakeFront(s).rendered) + Queued(TakeFront(s).slots) == Items(s.rendered) + Queued(s.slots)
  {
    ItemsAppend(s.rendered, s.slots[0].rects);
    var more := if |s.slots| - 1 < MAX_ASYNC_FRAME_QUEUE then [EMPTY] else [];
    QueuedAppend(s.slots[1..], more);
    assert Queued(more) == [] by {
      if more != [] {
        assert Queued(more) == Items(EMPTY.rects) + Queued(more[1..]);
      }
    }
  }

  /** Rendered followed by queued is the same sequence before and after. */
  ghost predicate SameFlow(s: State, t: State) {
    && Items(s.rendered) + Queued(s.slots) == Items(t.rendered) + Queued(t.slots)
    && t.discarded == s.discarded && t.log == s.log
  }

  lemma FlowAccounted(s: State, t: State)
    requires SameFlow(s, t) && Accounted(s)
    ensures Accounted(t)
  {
    assert multiset(Items(s.rendered) + Queued(s.slots)) == multiset(Items(t.rendered) + Queued(t.slots));
  }

  lemma PushFlow(s: State, force: bool)
    requires s.slots != []
    ensures SameFlow(s, PushAsyncFrame(s, force))
  {
    hide TakeFront, Queued, Items;
    var front := s.slots[0];
    var s' := s.(slots := s.slots[0 := front.(tries := front.tries + 1)]);
    QueuedSame(s.slots, 0, front.(tries := front.tries + 1));
    TakeFrontQueued(s);
    TakeFrontQueued(s');
    TakeFrontLogs(s);
    TakeFrontLogs(s');
  }

  lemma TakeFrontLogs(s: State)
    requires s.slots != []
    ensures TakeFront(s).discarded == s.discarded && TakeFront(s).log == s.log
  {
  }

  lemma CompleteFlow(s: State, i: nat, force: bool)
    ensures SameFlow(s, AsyncFrameComplete(s, i, force))
  {
    hide PushAsyncFrame, Queued;
    if i < |s.slots| {
      var slot := s.slots[i];
      if force {
        var rects := SkipUnloaded(slot.rects, slot.cursor, s.loaded);
        assert Items(rects) == Items(slot.rects);
        var done := slot.(rects := rects,
                          cursor := if slot.cursor < |slot.rects| then |slot.rects| else slot.cursor,
                          ready := true);
        QueuedSame(s.slots, i, done);
        PushFlow(s.(slots := s.slots[i := done]), true);
      } else {
        var k := FirstUnloaded(slot.rects, slot.cursor, s.loaded);
        QueuedSame(s.slots, i, slot.(cursor := k, ready := slot.ready || k >= |slot.rects|));
      }
    }
  }

  // ---- any order of events, UDP included

  lemma CompleteLength(s: State, i: nat, force: bool)
    requires 3 <= |s.slots| <= 4
    ensures 3 <= |AsyncFrameComplete(s, i, force).slots| <= 4
  {
  }

  lemma SubmitAccounted(s: State, c: Call, image: bool)
    requires Sound(s)
    ensures Sound(AsyncRenderQPush(s, c, image))
  {
    hide AsyncFrameComplete, PushAsyncFrame, Oldest, Newest, FindSlot, Accounted, Counted, Admit, NewSlot, AllHere;
    var r, id := NewRect(s, c, image), FrameOf(c);
    var i := FindSlot(s.slots, id);
    if i < |s.slots| {
      var joined := s.(log := s.log + [c], slots := s.slots[i := Counted(Admit(s.slots[i], r), r)]);
      JoinAccounted(s, r, i);
      CompleteFlow(joined, i, false);
      CompleteLength(joined, i, false);
      FlowAccounted(joined, AsyncFrameComplete(joined, i, false));
    } else if id < Oldest(s.slots) || id <= Newest(s.slots) {
      DropAccounted(s, r);
    } else {
      var s' := s.(log := s.log + [c]);
      var freed := if s.slots[0].ready then PushAsyncFrame(s', true)
                   else s'.(slots := s.slots[1..], discarded := s.discarded + s.slots[0].rects);
      if s.slots[0].ready {
        PushFlow(s', true);
        PushAccounts(s', freed);
      } else {
        OldestDropped(s');
      }
      ForcedLength(s');
      NewSlotAccounted(s, freed, r);
    }
  }

  lemma LogGrows(s: State, r: Rect)
    requires r.tag == |s.log|
    ensures multiset(Submitted(s.log + [r.call])) == multiset(Submitted(s.log)) + multiset{Item(r.tag, r.call)}
    ensures Items([r]) == [Item(r.tag, r.call)]
  {
    assert Submitted(s.log + [r.call]) == Submitted(s.log) + [Item(r.tag, r.call)];
  }

  lemma JoinAccounted(s: State, r: Rect, i: nat)
    requires Accounted(s) && r.tag == |s.log| && i < |s.slots|
    ensures Accounted(s.(log := s.log + [r.call], slots := s.slots[i := Counted(Admit(s.slots[i], r), r)]))
  {
    hide Queued, Items;
    var slot := Counted(Admit(s.slots[i], r), r);
    LogGrows(s, r);
    ItemsAppend(s.slots[i].rects, [r]);
    QueuedAt(s.slots, i, slot);
    QueuedAt(s.slots, i, s.slots[i]);
    assert s.slots[i := s.slots[i]] == s.slots;
  }

  lemma DropAccounted(s: State, r: Rect)
    requires Accounted(s) && r.tag == |s.log|
    ensures Accounted(s.(log := s.log + [r.call], discarded := s.discarded + [r]))
  {
    hide Queued, Items;
    LogGrows(s, r);
    ItemsAppend(s.discarded, [r]);
  }

  /** How many submissions a state holds, and which. */
  ghost function Contents(s: State): multiset<Item> {
    multiset(Items(s.rendered)) + multiset(Queued(s.slots)) + multiset(Items(s.discarded))
  }

  lemma PushAccounts(s: State, t: State)
    requires SameFlow(s, t)
    ensures Contents(t) == Contents(s)
  {
    assert multiset(Items(s.rendered) + Queued(s.slots)) == multiset(Items(t.rendered) + Queued(t.slots));
  }

  lemma OldestDropped(s: State)
    requires s.slots != []
    ensures Contents(s.(slots := s.slots[1..], discarded := s.discarded + s.slots[0].rects)) == Contents(s)
  {
    ItemsAppend(s.discarded, s.slots[0].rects);
  }

  lemma ForcedLength(s: State)
    requires 3 <= |s.slots| <= 4
    ensures |PushAsyncFrame(s, true).slots| == 3
    ensures PushAsyncFrame(s, true).log == s.log
  {
  }

  lemma NewSlotAccounted(s: State, freed: State, r: Rect)
    requires Accounted(s) && r.tag == |s.log| && Contents(freed) == Contents(s) && freed.log == s.log + [r.call]
    ensures Accounted(freed.(slots := freed.slots + [NewSlot(r)]))
  {
    hide Items;
    LogGrows(s, r);
    QueuedAppend(freed.slots, [NewSlot(r)]);
    assert Queued([NewSlot(r)]) == Items([r]) + Queued([NewSlot(r)][1..]);
  }

  /**
   In every run, over any transport, out of order, forced or cleared: three or four slots, and
   every submission in exactly one of queued, rendered and discarded.
   */
  lemma StepSound(s: State, e: Event)
    requires Sound(s)
    ensures Sound(Step(s, e))
  {
    hide AsyncFrameComplete, PushAsyncFrame, AsyncRenderQPush, Queued;
    match e
    case Made(c, image) =>
      if c.NewFrame? {
        CompleteFlow(s, 0, true);
        CompleteLength(s, 0, true);
        FlowAccounted(s, AsyncFrameComplete(s, 0, true));
      } else if Submits(c) {
        SubmitAccounted(s, c, image);
      }
    case AnimationFrame =>
      PushFlow(s, false);
      PushLength(s, false);
      FlowAccounted(s, PushAsyncFrame(s, false));
    case ImageLoaded(t) =>
    case LoadEvent(i) =>
      CompleteFlow(s, i, false);
      CompleteLength(s, i, false);
      FlowAccounted(s, AsyncFrameComplete(s, i, false));
    case Cleared =>
      AllRectsQueued(s.slots);
      ItemsAppend(s.discarded, AllRects(s.slots));
      EmptyQueued();
  }

  lemma PushLength(s: State, force: bool)
    requires 3 <= |s.slots| <= 4
    ensures 3 <= |PushAsyncFrame(s, force).slots| <= 4
  {
  }

  lemma EmptyQueued()
    ensures Queued([EMPTY, EMPTY, EMPTY]) == []
  {
    assert [EMPTY, EMPTY, EMPTY][1..] == [EMPTY, EMPTY];
    assert [EMPTY, EMPTY][1..] == [EMPTY];
    assert Queued([EMPTY]) == Items(EMPTY.rects) + Queued([EMPTY][1..]);
    assert Queued([EMPTY, EMPTY]) == Items(EMPTY.rects) + Queued([EMPTY]);
  }
}
