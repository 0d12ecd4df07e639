/**
 A run in which part of an update reaches the canvas alone. The image of update 1 is still loading
 at its flip, so that its load event will name slot 0; the header of update 4 forces update 1 out;
 updates 2 and 3 are rendered, which brings update 4 to slot 0; and then the image loads.
 */
module TornUpdate {
  import opened Bytes
  import opened DrawCalls
  import opened FrameQueue
  import opened TcpFrames
  import opened WholeFrames

  const SPOT := Area(0, 0, 1, 1)

  function Header(id: int): Event {
    Made(NewFrame(id), false)
  }

  function Plain1(id: int): Event {
    Made(Call.Fill(SPOT, Some(BLACK), id), false)
  }

  function Flip2(id: int): Event {
    Made(Call.Flip(id, 2), false)
  }

  const IMAGE := Made(ImageRect(SPOT, Jpeg, [], 1), true)

  /** From `s`, a TCP run of update `current` on, through `es` to `t`. */
  ghost predicate Goes(s: State, current: int, over: bool, es: seq<Event>, t: State, next: int, nowOver: bool) {
    && 3 <= |s.slots| <= 4 && TcpRun(current, es) && Shaped(over, es)
    && Run(s, es) == t && RunFrame(current, es) == next && OverAfter(over, es) == nowOver
  }

  lemma OneGoes(s: State, current: int, over: bool, e: Event)
    requires 3 <= |s.slots| <= 4 && TcpEvent(current, e) && ShapedEvent(over, e)
    ensures Goes(s, current, over, [e], Step(s, e), Next(current, e), Over(over, e))
  {
    hide Step, TcpEvent, ShapedEvent, Next, Over;
    OneEvent(s, e);
    NothingLeft(Next(current, e), Over(over, e));
    assert [e][1..] == [];
  }

  lemma NothingLeft(current: int, over: bool)
    ensures TcpRun(current, []) && Shaped(over, []) && RunFrame(current, []) == current && OverAfter(over, []) == over
  {
  }

  lemma OneEvent(s: State, e: Event)
    requires 3 <= |s.slots| <= 4
    ensures 3 <= |Step(s, e).slots| <= 4 && Run(s, [e]) == Step(s, e)
  {
    StepLength(s, e);
    hide Step;
    assert [e][1..] == [];
  }

  lemma {:induction false} GoOn(s: State, current: int, over: bool, a: seq<Event>, t: State, next: int, nowOver: bool,
                                b: seq<Event>, u: State, last: int, lastOver: bool)
    requires Goes(s, current, over, a, t, next, nowOver) && Goes(t, next, nowOver, b, u, last, lastOver)
    ensures Goes(s, current, over, a + b, u, last, lastOver)
    decreases |a|
  {
    hide Step, TcpEvent, ShapedEvent, Next, Over;
    if a == [] {
      assert a + b == b;
    } else {
      assert (a + b)[0] == a[0] && (a + b)[1..] == a[1..] + b;
      StepLength(s, a[0]);
      GoOn(Step(s, a[0]), Next(current, a[0]), Over(over, a[0]), a[1..], t, next, nowOver, b, u, last, lastOver);
    }
  }

  /** Two events, and what they make of the state. */
  lemma TwoGo(s: State, current: int, over: bool, e: Event, f: Event)
    requires 3 <= |s.slots| <= 4 && TcpEvent(current, e) && ShapedEvent(over, e)
    requires TcpEvent(Next(current, e), f) && ShapedEvent(Over(over, e), f)
    ensures 3 <= |Step(s, e).slots| <= 4
    ensures Goes(s, current, over, [e, f], Step(Step(s, e), f), Next(Next(current, e), f), Over(Over(over, e), f))
  {
    hide Step, Next, Over, TcpEvent, ShapedEvent;
    OneEvent(s, e);
    OneGoes(s, current, over, e);
    OneGoes(Step(s, e), Next(current, e), Over(over, e), f);
    GoOn(s, current, over, [e], Step(s, e), Next(current, e), Over(over, e), [f],
         Step(Step(s, e), f), Next(Next(current, e), f), Over(Over(over, e), f));
    assert [e] + [f] == [e, f];
  }

  // ---- what its events do

  function Submitted(s: State, e: Event): Rect
    requires e.Made?
  {
    NewRect(s, e.call, e.image)
  }

  /** The first rectangle of an update takes the first free slot. */
  lemma TakesSlot(s: State, e: Event, i: nat)
    requires 3 <= |s.slots| && i < |s.slots| && s.slots[i] == EMPTY
    requires e.Made? && Submits(e.call) && !e.call.Flip? && !e.call.NewFrame?
    requires forall k :: 0 <= k < i ==> s.slots[k].frameId != 0 && s.slots[k].frameId != FrameOf(e.call)
    requires FrameOf(e.call) != 0
    ensures Step(s, e) == s.(log := s.log + [e.call],
                             slots := s.slots[i := Slot(FrameOf(e.call), 0, [Submitted(s, e)], false, 0, 0)])
  {
    assert FindSlot(s.slots, FrameOf(e.call)) == i;
    assert EMPTY.rects + [Submitted(s, e)] == [Submitted(s, e)];
  }

  /** The flip behind one rectangle completes the frame, but for an image that is loading. */
  lemma FlipsSlot(s: State, e: Event, i: nat, r: Rect)
    requires 3 <= |s.slots| && i < |s.slots| && e.Made? && e.call.Flip? && e.call.rectCount == 2
    requires s.slots[i] == Slot(FrameOf(e.call), 0, [r], false, 0, 0) && FrameOf(e.call) != 0
    requires forall k :: 0 <= k < i ==> s.slots[k].frameId != 0 && s.slots[k].frameId != FrameOf(e.call)
    requires !e.image
    ensures Step(s, e)
         == s.(log := s.log + [e.call],
               slots := s.slots[i := Slot(FrameOf(e.call), 2, [r, Submitted(s, e)], !Unloaded(r, s.loaded),
                                          if Unloaded(r, s.loaded) then 0 else 2, 0)])
  {
    assert FindSlot(s.slots, FrameOf(e.call)) == i;
    var f := Submitted(s, e);
    var rects := [r, f];
    assert [r] + [f] == rects;
    var joined := s.(log := s.log + [e.call], slots := s.slots[i := Slot(FrameOf(e.call), 2, rects, false, 0, 0)]);
    assert FirstUnloaded(rects, 2, s.loaded) == 2 && FirstUnloaded(rects, 1, s.loaded) == 2;
    assert FirstUnloaded(rects, 0, s.loaded) == if Unloaded(r, s.loaded) then 0 else 2;
    assert AsyncFrameComplete(joined, i, false).slots == Step(s, e).slots;
  }

  /** An update of one rectangle and its flip. */
  function Whole(s: State, id: int, e: Event): Slot
    requires e.Made?
  {
    var r := Submitted(s, e);
    Slot(id, 2, [r, Rect(|s.log| + 1, Flip2(id).call, Plain)], !Unloaded(r, s.loaded),
         if Unloaded(r, s.loaded) then 0 else 2, 0)
  }

  function AfterUpdate(s: State, id: int, e: Event, i: nat): (t: State)
    requires e.Made? && i < |s.slots|
    ensures |t.slots| == |s.slots|
  {
    s.(log := s.log + [e.call] + [Flip2(id).call], slots := s.slots[i := Whole(s, id, e)])
  }

  lemma UpdateGoes(s: State, id: int, over: bool, e: Event, i: nat)
    requires 3 <= |s.slots| <= 4 && s.slots[2] == EMPTY && i < |s.slots| && s.slots[i] == EMPTY
    requires e.Made? && Submits(e.call) && !e.call.Flip? && !e.call.NewFrame? && FrameOf(e.call) == id >= 1
    requires forall k :: 0 <= k < i ==> s.slots[k].frameId != 0 && s.slots[k].frameId != id
    ensures Goes(s, id - 1, over, [Header(id), e, Flip2(id)], AfterUpdate(s, id, e, i), id, true)
  {
    hide Goes;
    assert Step(s, Header(id)) == s;
    OneGoes(s, id - 1, over, Header(id));
    TakesSlot(s, e, i);
    var first := Step(s, e);
    FlipsSlot(first, Flip2(id), i, Submitted(s, e));
    assert Step(first, Flip2(id)) == AfterUpdate(s, id, e, i);
    TwoGo(s, id, false, e, Flip2(id));
    GoOn(s, id - 1, over, [Header(id)], s, id, false, [e, Flip2(id)], AfterUpdate(s, id, e, i), id, true);
    assert [Header(id)] + [e, Flip2(id)] == [Header(id), e, Flip2(id)];
  }

  /** The header of an update while all slots are in use forces the oldest frame out. */
  lemma ForcesOut(s: State, id: int, over: bool, a: Rect, b: Rect)
    requires |s.slots| == 3 && s.slots[2].frameId > 0 && s.slots[0].rects == [a, b] && s.slots[0].cursor == 0
    ensures var t := Step(s, Header(id));
      && Goes(s, id - 1, over, [Header(id)], t, id, false)
      && t.slots == [s.slots[1], s.slots[2], EMPTY] && t.loaded == s.loaded && t.log == s.log
      && |t.rendered| == |s.rendered| + 2
  {
    OneGoes(s, id - 1, over, Header(id));
    hide Goes;
    assert s.slots[0 := s.slots[0]][1..] + [EMPTY] == [s.slots[1], s.slots[2], EMPTY];
  }

  lemma FrontGoes(s: State, current: int, over: bool)
    requires |s.slots| == 3 && s.slots[0].ready
    ensures Goes(s, current, over, [AnimationFrame],
                 s.(rendered := s.rendered + s.slots[0].rects, slots := [s.slots[1], s.slots[2], EMPTY]), current, over)
  {
    OneGoes(s, current, over, AnimationFrame);
    hide Goes;
    assert s.slots[1..] + [EMPTY] == [s.slots[1], s.slots[2], EMPTY];
  }

  // ---- the run

  const UPDATES := [Header(1), IMAGE, Flip2(1)] + [Header(2), Plain1(2), Flip2(2)] + [Header(3), Plain1(3), Flip2(3)]

  function Full(): State {
    AfterUpdate(AfterUpdate(AfterUpdate(INITIAL, 1, IMAGE, 0), 2, Plain1(2), 1), 3, Plain1(3), 2)
  }

  lemma UpdatesGo()
    ensures Goes(INITIAL, 0, true, UPDATES, Full(), 3, true)
  {
    hide Goes, AfterUpdate;
    var first := AfterUpdate(INITIAL, 1, IMAGE, 0);
    var second := AfterUpdate(first, 2, Plain1(2), 1);
    SlotsOf(INITIAL, 1, IMAGE, 0);
    SlotsOf(first, 2, Plain1(2), 1);
    UpdateGoes(INITIAL, 1, true, IMAGE, 0);
    UpdateGoes(first, 2, true, Plain1(2), 1);
    UpdateGoes(second, 3, true, Plain1(3), 2);
    var a, b := [Header(1), IMAGE, Flip2(1)], [Header(2), Plain1(2), Flip2(2)];
    GoOn(INITIAL, 0, true, a, first, 1, true, b, second, 2, true);
    GoOn(INITIAL, 0, true, a + b, second, 2, true, [Header(3), Plain1(3), Flip2(3)], Full(), 3, true);
  }

  lemma SlotsOf(s: State, id: int, e: Event, i: nat)
    requires e.Made? && i < |s.slots|
    ensures AfterUpdate(s, id, e, i).slots == s.slots[i := Whole(s, id, e)]
    ensures AfterUpdate(s, id, e, i).loaded == s.loaded
    ensures Whole(s, id, e).frameId == id && |Whole(s, id, e).rects| == 2
    ensures !e.image ==> Whole(s, id, e).ready
    ensures Whole(s, id, e).cursor == if Unloaded(Submitted(s, e), s.loaded) then 0 else 2
  {
  }

  /** What the queue holds then: an image that is loading, in slot 0, and two frames that are ready. */
  lemma FullSlots()
    ensures var slots := Full().slots;
      && |slots| == 3 && |slots[0].rects| == 2 && slots[0].cursor == 0
      && slots[1].frameId == 2 && slots[1].ready && slots[2].frameId == 3 && slots[2].ready
    ensures Full().loaded == {}
  {
    hide AfterUpdate, Whole;
    var first := AfterUpdate(INITIAL, 1, IMAGE, 0);
    var second := AfterUpdate(first, 2, Plain1(2), 1);
    SlotsOf(INITIAL, 1, IMAGE, 0);
    SlotsOf(first, 2, Plain1(2), 1);
    SlotsOf(second, 3, Plain1(3), 2);
  }

  const LATER := [Header(4), Plain1(4), AnimationFrame, AnimationFrame, ImageLoaded(0), LoadEvent(0), AnimationFrame]

  /**
   The first rectangle of update 4 is on the canvas before the second is submitted. The load event
   is that of update 1's image, for which the queue began to listen when it was in slot 0.
   */
  lemma HalfAnUpdate()
    ensures var es := UPDATES + LATER + [Plain1(4)];
      && TcpRun(0, es) && Shaped(true, es) && |es| == 17 && es[16] == Plain1(4)
      && !NoneOf(At(es, 16).rendered, 4)
  {
    hide Goes, Full, NoneOf, TcpRun, Shaped, Run;
    UpdatesGo();
    var t := LaterGoes();
    GoOn(INITIAL, 0, true, UPDATES, Full(), 3, true, LATER, t, 4, false);
    GoesMeans(INITIAL, 0, true, UPDATES + LATER, t, 4, false);
    OneGoes(t, 4, false, Plain1(4));
    GoOn(INITIAL, 0, true, UPDATES + LATER, t, 4, false, [Plain1(4)], Step(t, Plain1(4)), 4, false);
    var es := UPDATES + LATER + [Plain1(4)];
    assert es[..16] == UPDATES + LATER;
    GoesMeans(INITIAL, 0, true, es, Step(t, Plain1(4)), 4, false);
  }

  lemma GoesMeans(s: State, current: int, over: bool, es: seq<Event>, t: State, next: int, nowOver: bool)
    requires Goes(s, current, over, es, t, next, nowOver)
    ensures 3 <= |s.slots| <= 4 && 3 <= |t.slots| <= 4
    ensures Run(s, es) == t && TcpRun(current, es) && Shaped(over, es)
  {
  }

  lemma LaterGoes() returns (t: State)
    ensures Goes(Full(), 3, true, LATER, t, 4, false) && !NoneOf(t.rendered, 4)
  {
    hide Goes, Full, Step, NoneOf;
    FullSlots();
    var s := Full();
    ForcesOut(s, 4, true, s.slots[0].rects[0], s.slots[0].rects[1]);
    var forced := Step(s, Header(4));
    TakesSlot(forced, Plain1(4), 2);
    var begun := Step(forced, Plain1(4));
    OneGoes(forced, 4, false, Plain1(4));
    GoOn(s, 3, true, [Header(4)], forced, 4, false, [Plain1(4)], begun, 4, false);
    FrontGoes(begun, 4, false);
    var one := begun.(rendered := begun.rendered + begun.slots[0].rects,
                      slots := [begun.slots[1], begun.slots[2], EMPTY]);
    GoOn(s, 3, true, [Header(4)] + [Plain1(4)], begun, 4, false, [AnimationFrame], one, 4, false);
    FrontGoes(one, 4, false);
    var two := one.(rendered := one.rendered + one.slots[0].rects, slots := [one.slots[1], one.slots[2], EMPTY]);
    GoOn(s, 3, true, [Header(4)] + [Plain1(4)] + [AnimationFrame], one, 4, false, [AnimationFrame], two, 4, false);
    LoadsLate(two, Submitted(forced, Plain1(4)));
    var late := AfterLoad(two, Submitted(forced, Plain1(4)));
    GoOn(s, 3, true, [Header(4)] + [Plain1(4)] + [AnimationFrame] + [AnimationFrame], two, 4, false,
         [ImageLoaded(0), LoadEvent(0)], late, 4, false);
    FrontGoes(late, 4, false);
    t := late.(rendered := late.rendered + late.slots[0].rects, slots := [late.slots[1], late.slots[2], EMPTY]);
    GoOn(s, 3, true, [Header(4)] + [Plain1(4)] + [AnimationFrame] + [AnimationFrame] + [ImageLoaded(0), LoadEvent(0)],
         late, 4, false, [AnimationFrame], t, 4, false);
    assert LATER == [Header(4)] + [Plain1(4)] + [AnimationFrame] + [AnimationFrame] + [ImageLoaded(0), LoadEvent(0)]
                    + [AnimationFrame];
    LastIsOf(late.rendered, Submitted(forced, Plain1(4)));
  }

  function AfterLoad(s: State, r: Rect): State
    requires |s.slots| >= 1
  {
    s.(loaded := s.loaded + {0}, slots := s.slots[0 := Slot(FrameOf(r.call), 0, [r], true, 1, 0)])
  }

  lemma LoadsLate(s: State, r: Rect)
    requires |s.slots| == 3 && r.kind == Plain
    requires s.slots[0] == Slot(FrameOf(r.call), 0, [r], false, 0, 0)
    ensures Goes(s, 4, false, [ImageLoaded(0), LoadEvent(0)], AfterLoad(s, r), 4, false)
  {
    TwoGo(s, 4, false, ImageLoaded(0), LoadEvent(0));
    hide Goes;
    assert FirstUnloaded([r], 1, s.loaded + {0}) == 1 && FirstUnloaded([r], 0, s.loaded + {0}) == 1;
    assert Step(Step(s, ImageLoaded(0)), LoadEvent(0)) == AfterLoad(s, r);
  }

  lemma LastIsOf(rects: seq<Rect>, r: Rect)
    ensures !NoneOf(rects + [r], FrameOf(r.call))
  {
    assert (rects + [r])[|rects|] == r;
  }
}
