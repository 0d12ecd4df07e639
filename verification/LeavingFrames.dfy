/**
 What leaves the queue, over any transport: which submissions are turned away, which frame gives
 way to which, and which images are given up on when the header of an update flushes a frame.
 */
module LeavingFrames {
  import opened Bytes
  import opened DrawCalls
  import opened FrameQueue
  import opened TcpFrames
  import opened WholeFrames
  import opened ReadySlots

  // ---- turned away, or in place of another

  /** Some slot is free, or holds this frame. */
  predicate HasPlace(slots: seq<Slot>, id: int) {
    exists j :: 0 <= j < |slots| && (slots[j].frameId == id || slots[j].frameId == 0)
  }

  predicate HasNewer(slots: seq<Slot>, id: int) {
    exists j :: 0 <= j < |slots| && slots[j].frameId > id
  }

  lemma FindSlotFinds(slots: seq<Slot>, id: int)
    ensures FindSlot(slots, id) < |slots| <==> HasPlace(slots, id)
  {
    hide HasPlace;
    var i := FindSlot(slots, id);
    if i < |slots| {
      PlaceAt(slots, id, i);
    } else {
      NoPlace(slots, id);
    }
  }

  lemma PlaceAt(slots: seq<Slot>, id: int, i: nat)
    requires i < |slots| && (slots[i].frameId == id || slots[i].frameId == 0)
    ensures HasPlace(slots, id)
  {
  }

  lemma NoPlace(slots: seq<Slot>, id: int)
    requires forall k :: 0 <= k < |slots| ==> slots[k].frameId != id && slots[k].frameId != 0
    ensures !HasPlace(slots, id)
  {
  }

  lemma {:induction false} OldestIs(slots: seq<Slot>, id: int)
    ensures id < Oldest(slots) ==> forall j :: 0 <= j < |slots| ==> id < slots[j].frameId
    decreases |slots|
  {
    if slots != [] {
      OldestIs(slots[..|slots| - 1], id);
    }
  }

  lemma {:induction false} NewestIs(slots: seq<Slot>, id: int)
    ensures id > Newest(slots) <==> id > 0 && forall j :: 0 <= j < |slots| ==> slots[j].frameId < id
    decreases |slots|
  {
    if slots != [] {
      NewestIs(slots[..|slots| - 1], id);
    }
  }

  /** The rectangle a submission makes: it is an image exactly if it was submitted as one. */
  function RectOf(s: State, c: Call, image: bool): Rect {
    Rect(|s.log|, c, if image then Image else Plain)
  }

  /**
   A submission whose frame has a place joins it. Without one it is turned away exactly if its
   frame is older than some frame that has a place. Otherwise the oldest frame leaves: to the
   canvas if it is ready, and for good if not.
   */
  lemma TurnedAwayIff(s: State, c: Call, image: bool)
    requires 3 <= |s.slots| <= 4 && Submits(c)
    ensures var t, r := Step(s, Made(c, image)), RectOf(s, c, image);
      if HasPlace(s.slots, FrameOf(c)) then
        t.discarded == s.discarded && t.rendered == s.rendered && TakenIn(s.slots, t.slots, FrameOf(c), r)
      else if FrameOf(c) <= 0 || HasNewer(s.slots, FrameOf(c)) then
        t.slots == s.slots && t.rendered == s.rendered && t.discarded == s.discarded + [r]
      else
        && t.slots != [] && t.slots[|t.slots| - 1].frameId == FrameOf(c) && t.slots[|t.slots| - 1].rects == [r]
        && t.rendered == s.rendered + (if s.slots[0].ready then s.slots[0].rects else [])
        && t.discarded == s.discarded + (if s.slots[0].ready then [] else s.slots[0].rects)
        && t.slots[..|s.slots| - 1] == s.slots[1..]
  {
    hide FindSlot, Oldest, Newest, FirstUnloaded, HasPlace, TakenIn;
    FindSlotFinds(s.slots, FrameOf(c));
    OldestIs(s.slots, FrameOf(c));
    NewestIs(s.slots, FrameOf(c));
    if FindSlot(s.slots, FrameOf(c)) < |s.slots| {
      JoinTakenIn(s, c, image);
    }
  }

  /** The first slot that is free or holds this frame ends with the rectangle; the others are as they were. */
  predicate TakenIn(before: seq<Slot>, after: seq<Slot>, id: int, r: Rect) {
    && |after| == |before|
    && var i := FindSlot(before, id);
       && i < |before| && after[i].frameId == id && after[i].rects == before[i].rects + [r]
       && forall k :: 0 <= k < |before| && k != i ==> after[k] == before[k]
  }

  lemma JoinTakenIn(s: State, c: Call, image: bool)
    requires 3 <= |s.slots| <= 4 && Submits(c) && FindSlot(s.slots, FrameOf(c)) < |s.slots|
    ensures TakenIn(s.slots, Step(s, Made(c, image)).slots, FrameOf(c), RectOf(s, c, image))
    ensures Step(s, Made(c, image)).rendered == s.rendered
    ensures Step(s, Made(c, image)).discarded == s.discarded
  {
    hide FindSlot, FirstUnloaded;
  }

  /**
   A frame that displaces another is torn in two exactly if the other was ready: the next
   rectangle of it then takes the free slot that rendering has left, ahead of the frame's own.
   */
  lemma SplitIff(s: State, c: Call, image: bool, d: Call, late: bool)
    requires |s.slots| == 3 && Submits(c) && Submits(d) && FrameOf(d) == FrameOf(c) > 0
    requires !HasPlace(s.slots, FrameOf(c)) && !HasNewer(s.slots, FrameOf(c))
    ensures var t := Step(s, Made(c, image));
      3 <= |t.slots| <= 4
    ensures var t := Step(s, Made(c, image));
      var u, first, second := Step(t, Made(d, late)), RectOf(s, c, image), RectOf(t, d, late);
      if s.slots[0].ready then
        && |u.slots| == 4 && u.slots[2].frameId == u.slots[3].frameId == FrameOf(c)
        && u.slots[2].rects == [second] && u.slots[3].rects == [first]
      else |u.slots| == 3 && u.slots[2].frameId == FrameOf(c) && u.slots[2].rects == [first, second]
  {
    hide Oldest, Newest, FirstUnloaded;
    TurnedAwayIff(s, c, image);
    StepLength(s, Made(c, image));
    var t := Step(s, Made(c, image));
    assert forall j :: 0 <= j < 2 ==> t.slots[j] == s.slots[j + 1];
    hide FindSlot;
    var id := FrameOf(c);
    assert FindSlot(s.slots, id) == 3 by {
      FindSlotFinds(s.slots, id);
    }
    OldestIs(s.slots, id);
    NewestIs(s.slots, id);
    FirstPlace(t.slots, id, 2);
  }

  lemma FirstPlace(slots: seq<Slot>, id: int, i: nat)
    requires i < |slots| && (slots[i].frameId == id || slots[i].frameId == 0)
    requires forall k :: 0 <= k < i ==> slots[k].frameId != id && slots[k].frameId != 0
    ensures FindSlot(slots, id) == i
  {
  }

  // ---- images given up on

  /** The same rectangles, the images among them that have not loaded marked as skipped. */
  predicate GivenUp(rects: seq<Rect>, marked: seq<Rect>, loaded: set<nat>) {
    && |marked| == |rects|
    && forall k :: 0 <= k < |rects| ==>
         marked[k] == if rects[k].kind == Image && rects[k].tag !in loaded then rects[k].(kind := Skipped) else rects[k]
  }

  /**
   The header of an update lets the queue be unless all of its three slots are in use. Then the
   oldest frame goes to the canvas, ready or not, without just those images that are missing.
   */
  lemma FlushIff(s: State, id: int, image: bool)
    requires Orderly(s)
    ensures var t := Step(s, Made(NewFrame(id), image));
      if s.slots[2].frameId <= 0 then t == s
      else
        && s.rendered <= t.rendered && GivenUp(s.slots[0].rects, t.rendered[|s.rendered|..], s.loaded)
        && t.slots == s.slots[1..] + (if |s.slots| == 3 then [EMPTY] else []) && t.discarded == s.discarded
  {
    var slot := s.slots[0];
    assert Kept(slot, s.loaded, |s.log|);
    var shown := SkipUnloaded(slot.rects, slot.cursor, s.loaded);
    assert GivenUp(slot.rects, shown, s.loaded) by {
      assert forall k :: 0 <= k < slot.cursor ==> slot.rects[..slot.cursor][k] == slot.rects[k];
    }
    assert (s.rendered + shown)[|s.rendered|..] == shown;
    hide Kept, GivenUp, SkipUnloaded, Before;
  }

  predicate Skips(rects: seq<Rect>, tag: nat) {
    exists k :: 0 <= k < |rects| && rects[k].tag == tag && rects[k].kind == Skipped
  }

  predicate Misses(rects: seq<Rect>, tag: nat, loaded: set<nat>) {
    tag !in loaded && exists k :: 0 <= k < |rects| && rects[k].tag == tag && rects[k].kind == Image
  }

  predicate NoneSkipped(rects: seq<Rect>) {
    forall k :: 0 <= k < |rects| ==> rects[k].kind != Skipped
  }

  ghost predicate CleanSlots(slots: seq<Slot>) {
    forall j :: 0 <= j < |slots| ==> NoneSkipped(slots[j].rects)
  }

  lemma SkipsMore(a: seq<Rect>, b: seq<Rect>, tag: nat)
    ensures Skips(a + b, tag) <==> Skips(a, tag) || Skips(b, tag)
    ensures NoneSkipped(b) ==> !Skips(b, tag)
  {
    if Skips(a, tag) {
      var k :| 0 <= k < |a| && a[k].tag == tag && a[k].kind == Skipped;
      assert (a + b)[k] == a[k];
    }
    if Skips(b, tag) {
      var k :| 0 <= k < |b| && b[k].tag == tag && b[k].kind == Skipped;
      assert (a + b)[|a| + k] == b[k];
    }
  }

  lemma GivenUpSkips(rects: seq<Rect>, marked: seq<Rect>, loaded: set<nat>, tag: nat)
    requires GivenUp(rects, marked, loaded) && NoneSkipped(rects)
    ensures Skips(marked, tag) <==> Misses(rects, tag, loaded)
  {
    if Misses(rects, tag, loaded) {
      var k :| 0 <= k < |rects| && rects[k].tag == tag && rects[k].kind == Image;
      assert marked[k].tag == tag && marked[k].kind == Skipped;
    }
  }

  /** The event is the header of an update that finds every slot in use, and the image missing in the oldest frame. */
  predicate GivesUp(s: State, e: Event, tag: nat)
    requires |s.slots| >= 3
  {
    e.Made? && e.call.NewFrame? && s.slots[2].frameId > 0 && Misses(s.slots[0].rects, tag, s.loaded)
  }

  lemma FewerClean(a: seq<Slot>, b: seq<Slot>)
    requires Fewer(a, b) && CleanSlots(a)
    ensures CleanSlots(b)
  {
    hide Apart, NoneSkipped;
    FreeClean();
    forall j | 0 <= j < |b|
      ensures NoneSkipped(b[j].rects)
    {
      assert Found(a, b[j]);
    }
  }

  lemma FreeClean()
    ensures NoneSkipped([])
  {
  }

  lemma SubmitSkips(s: State, c: Call, image: bool)
    requires Orderly(s) && CleanSlots(s.slots) && Submits(c)
    ensures var t := Step(s, Made(c, image));
      CleanSlots(t.slots) && (t.rendered == s.rendered || t.rendered == s.rendered + s.slots[0].rects)
  {
    hide Step, Kept, Fewer, Apart, Oldest, Newest, FirstUnloaded, AllHere;
    TurnedAwayIff(s, c, image);
    FindSlotFinds(s.slots, FrameOf(c));
    assert s.rendered + [] == s.rendered;
    if FindSlot(s.slots, FrameOf(c)) < |s.slots| {
      JoinSlots(s, c, image);
    } else {
      DisplacedSlots(s, c, image);
      FewerClean(s.slots, Staying(s, c));
    }
  }

  lemma PushSkips(s: State)
    requires s.slots != [] && CleanSlots(s.slots)
    ensures var t := PushAsyncFrame(s, false);
      CleanSlots(t.slots) && (t.rendered == s.rendered || t.rendered == s.rendered + s.slots[0].rects)
  {
    hide Fewer, CleanSlots;
    PushFewer(s, false);
    FewerClean(s.slots, PushAsyncFrame(s, false).slots);
  }

  lemma FlushSkips(s: State, id: int, image: bool, tag: nat)
    requires Orderly(s) && CleanSlots(s.slots)
    ensures var e := Made(NewFrame(id), image);
      && CleanSlots(Step(s, e).slots)
      && (Skips(Step(s, e).rendered, tag) <==> Skips(s.rendered, tag) || GivesUp(s, e, tag))
  {
    hide Step, Kept, Fewer, Apart, Skips, Misses, GivenUp;
    FlushIff(s, id, image);
    var t := Step(s, Made(NewFrame(id), image));
    if s.slots[2].frameId > 0 {
      var shown := t.rendered[|s.rendered|..];
      assert t.rendered == s.rendered + shown;
      SkipsMore(s.rendered, shown, tag);
      GivenUpSkips(s.slots[0].rects, shown, s.loaded, tag);
    }
  }

  lemma StepSkips(s: State, e: Event, tag: nat)
    requires Orderly(s) && CleanSlots(s.slots)
    ensures CleanSlots(Step(s, e).slots)
    ensures Skips(Step(s, e).rendered, tag) <==> Skips(s.rendered, tag) || GivesUp(s, e, tag)
  {
    hide AsyncRenderQPush, PushAsyncFrame, Kept, Fewer, Apart, Skips, Misses, Submits, FirstUnloaded;
    SkipsMore(s.rendered, s.slots[0].rects, tag);
    match e
    case Made(c, image) =>
      if c.NewFrame? {
        FlushSkips(s, c.frameId, image, tag);
      } else if Submits(c) {
        SubmitSkips(s, c, image);
      }
    case AnimationFrame =>
      PushSkips(s);
    case ImageLoaded(_) =>
    case LoadEvent(i) =>
    case Cleared =>
      FreeClean();
  }

  // ---- any run

  predicate GivesUpAt(es: seq<Event>, i: nat, tag: nat)
    requires i < |es|
  {
    GivesUp(At(es, i), es[i], tag)
  }

  ghost predicate GivenUpBefore(es: seq<Event>, tag: nat, k: nat)
    requires k <= |es|
  {
    exists i :: 0 <= i < k && GivesUpAt(es, i, tag)
  }

  lemma GivenUpLast(es: seq<Event>, tag: nat, k: nat)
    requires k < |es|
    ensures GivenUpBefore(es, tag, k + 1) <==> GivenUpBefore(es, tag, k) || GivesUpAt(es, k, tag)
  {
    hide GivesUpAt;
  }

  /**
   In any run, over any transport: a frame is drawn without one of its images, submission `tag`,
   exactly if an update's header has found every slot in use, and this image, in the oldest frame,
   not loaded yet.
   */
  lemma {:induction false} SkippedIff(es: seq<Event>, tag: nat, k: nat)
    requires k <= |es|
    ensures CleanSlots(At(es, k).slots)
    ensures Skips(At(es, k).rendered, tag) <==> GivenUpBefore(es, tag, k)
    decreases k
  {
    hide Orderly, Skips, GivesUp, CleanSlots, Step, GivenUpBefore;
    if k == 0 {
      NothingGivenUp(es, tag);
    } else {
      SkippedIff(es, tag, k - 1);
      Telling(es, 1, 0, k - 1);
      LastOfRun(INITIAL, 0, true, es, k - 1);
      GivenUpLast(es, tag, k - 1);
      StepSkips(At(es, k - 1), es[k - 1], tag);
    }
  }

  lemma NothingGivenUp(es: seq<Event>, tag: nat)
    ensures CleanSlots(At(es, 0).slots) && !Skips(At(es, 0).rendered, tag) && !GivenUpBefore(es, tag, 0)
  {
    assert es[..0] == [];
  }
}
