/**
 When a frame is ready, in runs where rectangles of any frames come in any order, over any
 transport, and frames displace one another: what a slot counts, and the only things that make a
 slot ready.
 */
module ReadySlots {
  import opened Bytes
  import opened DrawCalls
  import opened FrameQueue
  import opened TcpFrames
  import opened WholeFrames

  // ---- what a slot's rectangles say

  /** What the flips among the rectangles count. */
  function FlipSum(rects: seq<Rect>): nat {
    if rects == [] then 0
    else
      var last := rects[|rects| - 1];
      FlipSum(rects[..|rects| - 1]) + if last.call.Flip? then last.call.rectCount else 0
  }

  predicate HasFlip(rects: seq<Rect>) {
    exists k :: 0 <= k < |rects| && rects[k].call.Flip?
  }

  predicate NoneMissing(rects: seq<Rect>, loaded: set<nat>) {
    forall k :: 0 <= k < |rects| ==> rects[k].kind == Image ==> rects[k].tag in loaded
  }

  /** There is a flip that counts something, and at least as many rectangles as the flips count. */
  predicate CountedOut(rects: seq<Rect>) {
    0 < FlipSum(rects) <= |rects|
  }

  lemma FlipSumLast(rects: seq<Rect>, r: Rect)
    ensures FlipSum(rects + [r]) == FlipSum(rects) + if r.call.Flip? then r.call.rectCount else 0
  {
    assert (rects + [r])[..|rects|] == rects;
  }

  lemma {:induction false} NoFlipNoCount(rects: seq<Rect>)
    requires !HasFlip(rects)
    ensures FlipSum(rects) == 0
    decreases |rects|
  {
    if rects != [] {
      NoFlipNoCount(rects[..|rects| - 1]);
    }
  }

  lemma FlipStays(rects: seq<Rect>, r: Rect)
    requires HasFlip(rects) || r.call.Flip?
    ensures HasFlip(rects + [r])
  {
    if r.call.Flip? {
      assert (rects + [r])[|rects|] == r;
    } else {
      var k :| 0 <= k < |rects| && rects[k].call.Flip?;
      assert (rects + [r])[k] == rects[k];
    }
  }

  // ---- what every slot keeps

  /** `made`: how many submissions there have been, and so an upper bound of their tags. */
  ghost predicate Kept(slot: Slot, loaded: set<nat>, made: nat) {
    && slot.rectCount == FlipSum(slot.rects)
    && slot.cursor <= |slot.rects| && NoneMissing(slot.rects[..slot.cursor], loaded)
    && (slot.frameId != 0 ==> slot.rects != [])
    && Before(slot.rects, made)
  }

  predicate Before(rects: seq<Rect>, made: nat) {
    forall k :: 0 <= k < |rects| ==> rects[k].tag < made
  }

  ghost predicate AllKept(s: State) {
    forall j :: 0 <= j < |s.slots| ==> Kept(s.slots[j], s.loaded, |s.log|)
  }

  /** No two slots begin with the same submission. */
  predicate Apart(slots: seq<Slot>) {
    forall i, j :: 0 <= i < j < |slots| && slots[i].rects != [] && slots[j].rects != [] ==>
      slots[i].rects[0].tag != slots[j].rects[0].tag
  }

  /** The slot of frame `u` that begins with submission `g`. */
  predicate Holds(slot: Slot, u: int, g: nat) {
    slot.frameId == u && slot.rects != [] && slot.rects[0].tag == g
  }

  // ---- what makes a frame ready

  /** A load event names the slot, and none of its images is missing. */
  predicate LoadReadies(s: State, e: Event, u: int, g: nat) {
    && e.LoadEvent? && e.frameIx < |s.slots| && Holds(s.slots[e.frameIx], u, g)
    && NoneMissing(s.slots[e.frameIx].rects, s.loaded)
  }

  /**
   A submission joins the slot and counts it out while none of its images is missing; or it is a
   flip that counts one, and gives the slot its frame.
   */
  ghost predicate SubmissionReadies(s: State, e: Event, u: int, g: nat)
    requires |s.slots| >= MAX_ASYNC_FRAME_QUEUE
  {
    && e.Made? && Submits(e.call)
    && exists j :: 0 <= j < |Step(s, e).slots| && Joins(s, e.call, Step(s, e).slots[j], u, g)
                && ReadiesAs(s, e.call, Step(s, e).slots[j].rects, u, g)
  }

  /** The slot of frame `u` that begins with submission `g` ends with the submission of `c`. */
  predicate Joins(s: State, c: Call, slot: Slot, u: int, g: nat) {
    Holds(slot, u, g) && slot.rects[|slot.rects| - 1].tag == |s.log| && slot.rects[|slot.rects| - 1].call == c
  }

  predicate ReadiesAs(s: State, c: Call, rects: seq<Rect>, u: int, g: nat) {
    || (CountedOut(rects) && NoneMissing(rects, s.loaded))
    || (c.Flip? && c.rectCount == 1 && forall i :: 0 <= i < |s.slots| ==> !Holds(s.slots[i], u, g))
  }

  // ---- what becomes of the slots

  /** The same slot as before, but for its count of tries. */
  predicate Same(a: Slot, b: Slot) {
    b == a.(tries := b.tries)
  }

  /** The slot is one of `a`, or a free one. */
  ghost predicate Found(a: seq<Slot>, slot: Slot) {
    Same(EMPTY, slot) || exists i :: 0 <= i < |a| && Same(a[i], slot)
  }

  lemma FoundAt(a: seq<Slot>, i: nat, slot: Slot)
    requires i < |a| && Same(a[i], slot)
    ensures Found(a, slot)
  {
  }

  /** No slot is new, and none is there twice. */
  ghost predicate Fewer(a: seq<Slot>, b: seq<Slot>) {
    (forall j :: 0 <= j < |b| ==> Found(a, b[j])) && (Apart(a) ==> Apart(b))
  }

  lemma TakenFewer(s: State)
    requires s.slots != []
    ensures Fewer(s.slots, TakeFront(s).slots) && Fewer(s.slots, s.slots[1..])
  {
    hide Found;
    var t := TakeFront(s).slots;
    assert t == s.slots[1..] || t == s.slots[1..] + [EMPTY];
    forall j | 0 <= j < |s.slots| - 1
      ensures Found(s.slots, s.slots[1..][j])
    {
      FoundAt(s.slots, j + 1, s.slots[1..][j]);
    }
    FreeFound(s.slots);
  }

  lemma FreeFound(a: seq<Slot>)
    ensures Found(a, EMPTY)
  {
  }

  lemma FewerStill(a: seq<Slot>, b: seq<Slot>, c: seq<Slot>)
    requires Fewer(a, b) && Fewer(b, c)
    ensures Fewer(a, c)
  {
    hide Apart;
    forall j | 0 <= j < |c|
      ensures Found(a, c[j])
    {
      if !Same(EMPTY, c[j]) {
        var k :| 0 <= k < |b| && Same(b[k], c[j]);
        assert Found(a, b[k]);
        if !Same(EMPTY, b[k]) {
          var i :| 0 <= i < |a| && Same(a[i], b[k]);
          assert Same(a[i], c[j]);
        }
      }
    }
  }

  // ---- how a slot is completed, and joined

  lemma {:induction false} FirstUnloadedIs(rects: seq<Rect>, from: nat, loaded: set<nat>)
    requires from <= |rects| && NoneMissing(rects[..from], loaded)
    ensures var k := FirstUnloaded(rects, from, loaded);
      k <= |rects| && NoneMissing(rects[..k], loaded) && (k == |rects| <==> NoneMissing(rects, loaded))
    decreases |rects| - from
  {
    if from < |rects| && !Unloaded(rects[from], loaded) {
      assert rects[..from + 1] == rects[..from] + [rects[from]];
      FirstUnloadedIs(rects, from + 1, loaded);
    } else if from == |rects| {
      assert rects[..from] == rects;
    }
  }

  /** What a slot becomes by being completed without force. */
  function Completed(slot: Slot, loaded: set<nat>): Slot {
    var k := FirstUnloaded(slot.rects, slot.cursor, loaded);
    slot.(cursor := k, ready := slot.ready || k >= |slot.rects|)
  }

  lemma CompletedIs(slot: Slot, loaded: set<nat>, made: nat)
    requires Kept(slot, loaded, made)
    ensures var c := Completed(slot, loaded);
      && Kept(c, loaded, made) && c.frameId == slot.frameId && c.rects == slot.rects
      && c.ready == (slot.ready || NoneMissing(slot.rects, loaded))
  {
    hide Before, NoneMissing, FlipSum;
    FirstUnloadedIs(slot.rects, slot.cursor, loaded);
  }

  /** What a slot becomes by taking in a rectangle. */
  function Joined(slot: Slot, r: Rect, loaded: set<nat>): Slot {
    var joined := Counted(Admit(slot, r), r);
    if AllHere(joined) then Completed(joined, loaded) else joined
  }

  lemma JoinedIs(slot: Slot, r: Rect, loaded: set<nat>, made: nat)
    requires Kept(slot, loaded, made) && r.tag == made
    requires slot.frameId == FrameOf(r.call) || slot.frameId == 0
    ensures var j := Joined(slot, r, loaded);
      && Kept(j, loaded, made + 1) && j.frameId == FrameOf(r.call) && j.rects == slot.rects + [r]
      && j.ready == (|| (if slot.frameId == FrameOf(r.call) then slot.ready else r.call.Flip? && r.call.rectCount == 1)
                     || (CountedOut(j.rects) && NoneMissing(j.rects, loaded)))
  {
    hide NoneMissing, FlipSum, FirstUnloaded;
    var joined := Counted(Admit(slot, r), r);
    FlipSumLast(slot.rects, r);
    assert joined.rects[..joined.cursor] == slot.rects[..slot.cursor];
    assert Kept(joined, loaded, made + 1);
    if AllHere(joined) {
      CompletedIs(joined, loaded, made + 1);
    }
  }

  // ---- one event

  ghost predicate Orderly(s: State) {
    3 <= |s.slots| <= 4 && AllKept(s) && Apart(s.slots)
  }

  /**
   `hit`: frame `u` has been made ready in the slot that begins with submission `g`; `flipped`: a
   submission has made it so. From then on that slot is this frame's.
   */
  ghost predicate Tells(s: State, u: int, g: nat, hit: bool, flipped: bool) {
    && (flipped ==> hit) && (hit ==> g < |s.log|)
    && forall j :: 0 <= j < |s.slots| ==> TellsOf(s.slots[j], u, g, hit, flipped)
  }

  predicate TellsOf(slot: Slot, u: int, g: nat, hit: bool, flipped: bool) {
    slot.rects != [] && slot.rects[0].tag == g ==>
      && (slot.frameId == u ==> (slot.ready <==> hit) && (flipped ==> HasFlip(slot.rects)))
      && (hit ==> slot.frameId == u)
  }

  lemma SameTells(a: Slot, b: Slot, loaded: set<nat>, more: set<nat>, made: nat, u: int, g: nat, hit: bool,
                  flipped: bool)
    requires Same(a, b) && loaded <= more
    ensures Kept(a, loaded, made) ==> Kept(b, more, made)
    ensures TellsOf(a, u, g, hit, flipped) ==> TellsOf(b, u, g, hit, flipped)
  {
  }

  lemma FreeTells(b: Slot, loaded: set<nat>, made: nat, u: int, g: nat, hit: bool, flipped: bool)
    requires Same(EMPTY, b)
    ensures Kept(b, loaded, made) && TellsOf(b, u, g, hit, flipped)
  {
  }

  /** Frames that leave, and images that arrive, change nothing about the slots that stay. */
  lemma FewerTells(s: State, t: State, u: int, g: nat, hit: bool, flipped: bool)
    requires Orderly(s) && Tells(s, u, g, hit, flipped)
    requires Fewer(s.slots, t.slots) && s.loaded <= t.loaded && |t.log| == |s.log|
    ensures AllKept(t) && Apart(t.slots) && Tells(t, u, g, hit, flipped)
  {
    hide Kept, TellsOf, Same, Apart;
    forall j | 0 <= j < |t.slots|
      ensures Kept(t.slots[j], t.loaded, |t.log|) && TellsOf(t.slots[j], u, g, hit, flipped)
    {
      if Same(EMPTY, t.slots[j]) {
        FreeTells(t.slots[j], t.loaded, |t.log|, u, g, hit, flipped);
      } else {
        assert Found(s.slots, t.slots[j]);
        var i :| 0 <= i < |s.slots| && Same(s.slots[i], t.slots[j]);
        SameTells(s.slots[i], t.slots[j], s.loaded, t.loaded, |t.log|, u, g, hit, flipped);
      }
    }
  }

  lemma PushFewer(s: State, force: bool)
    requires s.slots != []
    ensures Fewer(s.slots, PushAsyncFrame(s, force).slots)
    ensures PushAsyncFrame(s, force).loaded == s.loaded
  {
    var front := s.slots[0];
    var s' := s.(slots := s.slots[0 := front.(tries := front.tries + 1)]);
    TakenFewer(s);
    TakenFewer(s');
    TriedFewer(s.slots);
    FewerStill(s.slots, s'.slots, TakeFront(s').slots);
  }

  lemma TriedFewer(slots: seq<Slot>)
    requires slots != []
    ensures Fewer(slots, slots[0 := slots[0].(tries := slots[0].tries + 1)])
    ensures Fewer(slots, slots)
  {
    hide Found;
    var t := slots[0 := slots[0].(tries := slots[0].tries + 1)];
    forall j | 0 <= j < |t|
      ensures Found(slots, t[j]) && Found(slots, slots[j])
    {
      FoundAt(slots, j, t[j]);
      FoundAt(slots, j, slots[j]);
    }
  }

  // ---- a submission

  /** The slot that takes the rectangle in. */
  lemma JoinTellsOf(s: State, c: Call, image: bool, i: nat, u: int, g: nat, hit: bool, flipped: bool)
    requires Orderly(s) && Tells(s, u, g, hit, flipped) && u != 0 && i < |s.slots|
    requires s.slots[i].frameId == FrameOf(c) || s.slots[i].frameId == 0
    ensures var j := Joined(s.slots[i], NewRect(s, c, image), s.loaded);
      var now := Joins(s, c, j, u, g) && ReadiesAs(s, c, j.rects, u, g);
      && Kept(j, s.loaded, |s.log| + 1) && TellsOf(j, u, g, hit || now, flipped || now)
      && (now ==> forall k :: 0 <= k < |s.slots| && k != i ==>
            s.slots[k].rects == [] || s.slots[k].rects[0].tag != g)
      && j.rects == s.slots[i].rects + [NewRect(s, c, image)]
  {
    hide Joined, FlipSum, NoneMissing, CountedOut, HasFlip;
    var slot, r := s.slots[i], NewRect(s, c, image);
    JoinedIs(slot, r, s.loaded, |s.log|);
    var j := Joined(slot, r, s.loaded);
    assert TellsOf(slot, u, g, hit, flipped);
    if HasFlip(slot.rects) || c.Flip? {
      FlipStays(slot.rects, r);
    }
    if CountedOut(j.rects) {
      CountHasFlip(j.rects);
    }
    if Holds(j, u, g) {
      if slot.rects == [] {
        assert g == |s.log|;
      } else {
        assert slot.rects[0].tag == g;
      }
      assert forall k :: 0 <= k < |s.slots| && k != i ==> s.slots[k].rects == [] || s.slots[k].rects[0].tag != g;
    }
  }

  lemma CountHasFlip(rects: seq<Rect>)
    requires CountedOut(rects)
    ensures HasFlip(rects)
  {
    if !HasFlip(rects) {
      NoFlipNoCount(rects);
    }
  }

  /** A slot the rectangle does not join. */
  lemma OtherSlot(s: State, c: Call, slot: Slot, u: int, g: nat)
    requires Kept(slot, s.loaded, |s.log|)
    ensures Kept(slot, s.loaded, |s.log| + 1) && !Joins(s, c, slot, u, g)
  {
  }

  /** A rectangle that finds its slot, or a free one. */
  lemma JoinTells(s: State, c: Call, image: bool, u: int, g: nat, hit: bool, flipped: bool)
    requires Orderly(s) && Tells(s, u, g, hit, flipped) && u != 0 && Submits(c)
    requires FindSlot(s.slots, FrameOf(c)) < |s.slots|
    ensures var t, now := Step(s, Made(c, image)), SubmissionReadies(s, Made(c, image), u, g);
      Orderly(t) && Tells(t, u, g, hit || now, flipped || now)
  {
    hide Joined, Kept, TellsOf, Joins, ReadiesAs, Holds, Submits, FirstUnloaded, Admit, Counted, AllHere, FindSlot;
    var e, i, r := Made(c, image), FindSlot(s.slots, FrameOf(c)), NewRect(s, c, image);
    var t, j := Step(s, e), Joined(s.slots[i], r, s.loaded);
    JoinSlots(s, c, image);
    JoinTellsOf(s, c, image, i, u, g, hit, flipped);
    var now := Joins(s, c, j, u, g) && ReadiesAs(s, c, j.rects, u, g);
    forall k | 0 <= k < |s.slots| && k != i
      ensures t.slots[k] == s.slots[k] && Kept(t.slots[k], t.loaded, |t.log|) && !Joins(s, c, t.slots[k], u, g)
      ensures TellsOf(t.slots[k], u, g, hit || now, flipped || now)
    {
      OtherSlot(s, c, s.slots[k], u, g);
      if now {
        Elsewhere(s.slots[k], u, g, hit || now, flipped || now);
      }
    }
    assert t.slots[i] == j;
    assert SubmissionReadies(s, e, u, g) <==> now;
    JoinApart(s, i, r, j);
    if now {
      NowBound(s, c, j, u, g);
    }
  }

  lemma Elsewhere(slot: Slot, u: int, g: nat, hit: bool, flipped: bool)
    requires slot.rects == [] || slot.rects[0].tag != g
    ensures TellsOf(slot, u, g, hit, flipped)
  {
  }

  lemma NowBound(s: State, c: Call, slot: Slot, u: int, g: nat)
    requires Kept(slot, s.loaded, |s.log| + 1) && Joins(s, c, slot, u, g)
    ensures g < |s.log| + 1
  {
  }

  lemma JoinSlots(s: State, c: Call, image: bool)
    requires 3 <= |s.slots| <= 4 && Submits(c) && FindSlot(s.slots, FrameOf(c)) < |s.slots|
    ensures var t, i := Step(s, Made(c, image)), FindSlot(s.slots, FrameOf(c));
      && t.slots == s.slots[i := Joined(s.slots[i], NewRect(s, c, image), s.loaded)]
      && t.loaded == s.loaded && t.log == s.log + [c]
  {
    hide FindSlot, FirstUnloaded;
  }

  lemma JoinApart(s: State, i: nat, r: Rect, slot: Slot)
    requires Orderly(s) && i < |s.slots| && slot.rects == s.slots[i].rects + [r] && r.tag == |s.log|
    ensures Apart(s.slots[i := slot])
  {
    forall k | 0 <= k < |s.slots| && s.slots[k].rects != []
      ensures s.slots[k].rects[0].tag < |s.log|
    {
      assert Kept(s.slots[k], s.loaded, |s.log|);
    }
  }

  /** A rectangle that finds no slot: it is dropped, or displaces the oldest frame. */
  lemma DisplaceTells(s: State, c: Call, image: bool, u: int, g: nat, hit: bool, flipped: bool)
    requires Orderly(s) && Tells(s, u, g, hit, flipped) && u != 0 && Submits(c)
    requires FindSlot(s.slots, FrameOf(c)) == |s.slots|
    ensures var t, now := Step(s, Made(c, image)), SubmissionReadies(s, Made(c, image), u, g);
      Orderly(t) && Tells(t, u, g, hit || now, flipped || now)
  {
    hide Step, Tells, Staying, NewSlot, NewRect, SubmissionReadies, FindSlot, AllKept, Fewer, Apart, FrameOf, Submits;
    var t, rest := Step(s, Made(c, image)), Staying(s, c);
    StepLength(s, Made(c, image));
    DisplacedSlots(s, c, image);
    FewerTells(s, s.(slots := rest), u, g, hit, flipped);
    if t.slots == rest {
      DropTells(s, c, image, rest, u, g, hit, flipped);
    } else {
      NewTells(s, c, image, rest, u, g, hit, flipped);
    }
  }

  lemma DropTells(s: State, c: Call, image: bool, rest: seq<Slot>, u: int, g: nat, hit: bool, flipped: bool)
    requires |s.slots| >= 3 && AllKept(s.(slots := rest)) && Tells(s.(slots := rest), u, g, hit, flipped)
    requires var t := Step(s, Made(c, image)); t.slots == rest && t.loaded == s.loaded && t.log == s.log + [c]
    ensures var t := Step(s, Made(c, image)); AllKept(t) && Tells(t, u, g, hit, flipped)
    ensures !SubmissionReadies(s, Made(c, image), u, g)
  {
    hide Kept, TellsOf, Joins, Step;
    forall k | 0 <= k < |rest|
      ensures Kept(rest[k], s.loaded, |s.log| + 1) && !Joins(s, c, rest[k], u, g)
    {
      OtherSlot(s, c, rest[k], u, g);
    }
  }

  lemma NewTells(s: State, c: Call, image: bool, rest: seq<Slot>, u: int, g: nat, hit: bool, flipped: bool)
    requires |s.slots| >= 3 && AllKept(s) && AllKept(s.(slots := rest)) && Apart(rest) && u != 0 && Submits(c)
    requires Tells(s.(slots := rest), u, g, hit, flipped)
    requires var t := Step(s, Made(c, image));
      t.slots == rest + [NewSlot(NewRect(s, c, image))] && t.loaded == s.loaded && t.log == s.log + [c]
    ensures var t, now := Step(s, Made(c, image)), SubmissionReadies(s, Made(c, image), u, g);
      AllKept(t) && Apart(t.slots) && Tells(t, u, g, hit || now, flipped || now)
  {
    hide Kept, TellsOf, Joins, ReadiesAs, NewSlot, Step, Submits;
    var e, r := Made(c, image), NewRect(s, c, image);
    var t, slot := Step(s, e), NewSlot(r);
    NewSlotTells(s, c, image, u, g);
    var now := Joins(s, c, slot, u, g) && ReadiesAs(s, c, slot.rects, u, g);
    forall k | 0 <= k < |rest|
      ensures t.slots[k] == rest[k] && Kept(rest[k], s.loaded, |s.log| + 1) && !Joins(s, c, rest[k], u, g)
      ensures TellsOf(rest[k], u, g, hit || now, flipped || now)
    {
      OtherSlot(s, c, rest[k], u, g);
      if now {
        FirstBefore(rest[k], s.loaded, |s.log|);
        Elsewhere(rest[k], u, g, hit || now, flipped || now);
      }
    }
    assert t.slots[|rest|] == slot;
    assert SubmissionReadies(s, e, u, g) <==> now;
    forall k | 0 <= k < |rest| && rest[k].rects != []
      ensures rest[k].rects[0].tag < |s.log|
    {
      FirstBefore(rest[k], s.loaded, |s.log|);
    }
    if g != |s.log| {
      Elsewhere(slot, u, g, hit || now, flipped || now);
    }
  }

  lemma FirstBefore(slot: Slot, loaded: set<nat>, made: nat)
    requires Kept(slot, loaded, made)
    ensures slot.rects != [] ==> slot.rects[0].tag < made
  {
  }

  /** A frame that displaces another is ready at once only if a flip that counts one begins it. */
  lemma NewSlotTells(s: State, c: Call, image: bool, u: int, g: nat)
    requires AllKept(s) && u != 0
    ensures var slot := NewSlot(NewRect(s, c, image));
      var now := Joins(s, c, slot, u, g) && ReadiesAs(s, c, slot.rects, u, g);
      && Kept(slot, s.loaded, |s.log| + 1) && slot.rects == [NewRect(s, c, image)]
      && (now ==> g == |s.log|) && (g == |s.log| ==> TellsOf(slot, u, g, now, now))
  {
    hide NoneMissing;
    var slot, r := NewSlot(NewRect(s, c, image)), NewRect(s, c, image);
    assert [r][..0] == [] && FlipSum([]) == 0;
    assert FlipSum([r]) == if c.Flip? then c.rectCount else 0;
    NothingMissing(s.loaded);
    if c.Flip? {
      FlipStays([], r);
      assert [] + [r] == [r];
    }
    forall k | 0 <= k < |s.slots|
      ensures !Holds(s.slots[k], u, |s.log|)
    {
      FirstBefore(s.slots[k], s.loaded, |s.log|);
    }
  }

  lemma NothingMissing(loaded: set<nat>)
    ensures NoneMissing([], loaded)
  {
  }

  /** The slots that stay when a rectangle finds none. */
  ghost function Staying(s: State, c: Call): seq<Slot>
    requires s.slots != []
  {
    if FrameOf(c) < Oldest(s.slots) || FrameOf(c) <= Newest(s.slots) then s.slots
    else if s.slots[0].ready then TakeFront(s).slots else s.slots[1..]
  }

  lemma DisplacedSlots(s: State, c: Call, image: bool)
    requires 3 <= |s.slots| <= 4 && Submits(c) && FindSlot(s.slots, FrameOf(c)) == |s.slots|
    ensures var t := Step(s, Made(c, image));
      && t.loaded == s.loaded && t.log == s.log + [c] && Fewer(s.slots, Staying(s, c))
      && (t.slots == Staying(s, c) || t.slots == Staying(s, c) + [NewSlot(NewRect(s, c, image))])
  {
    hide FindSlot, Oldest, Newest, Found, Apart, NewSlot;
    TakenFewer(s);
    TriedFewer(s.slots);
    assert TakeFront(s.(log := s.log + [c])).slots == TakeFront(s).slots;
  }

  // ---- any event

  /** The event makes frame `u` ready, in the slot that begins with submission `g`. */
  ghost predicate Readies(s: State, e: Event, u: int, g: nat)
    requires |s.slots| >= MAX_ASYNC_FRAME_QUEUE
  {
    LoadReadies(s, e, u, g) || SubmissionReadies(s, e, u, g)
  }

  lemma LoadTells(s: State, i: nat, u: int, g: nat, hit: bool, flipped: bool)
    requires Orderly(s) && Tells(s, u, g, hit, flipped)
    ensures var t, now := AsyncFrameComplete(s, i, false), LoadReadies(s, LoadEvent(i), u, g);
      AllKept(t) && Apart(t.slots) && Tells(t, u, g, hit || now, flipped)
  {
    hide FlipSum, NoneMissing, HasFlip, FirstUnloaded;
    if i < |s.slots| {
      var slot := s.slots[i];
      CompletedIs(slot, s.loaded, |s.log|);
      var t, now := AsyncFrameComplete(s, i, false), LoadReadies(s, LoadEvent(i), u, g);
      assert t.slots == s.slots[i := Completed(slot, s.loaded)];
      forall k | 0 <= k < |s.slots|
        ensures TellsOf(t.slots[k], u, g, hit || now, flipped)
      {
        assert TellsOf(s.slots[k], u, g, hit, flipped);
      }
    }
  }

  /** What leaves with a flush. */
  lemma FlushFewer(s: State)
    requires 3 <= |s.slots|
    ensures var t := AsyncFrameComplete(s, 0, true);
      Fewer(s.slots, t.slots) && t.loaded == s.loaded && t.log == s.log
  {
    hide SkipUnloaded, Fewer;
    TakenFewer(s);
    var slot := s.slots[0];
    var done := slot.(rects := SkipUnloaded(slot.rects, slot.cursor, s.loaded),
                      cursor := if slot.cursor < |slot.rects| then |slot.rects| else slot.cursor,
                      ready := true);
    assert s.slots[0 := done][1..] == s.slots[1..];
  }

  lemma ClearFewer(slots: seq<Slot>)
    ensures Fewer(slots, [EMPTY, EMPTY, EMPTY])
  {
    FreeFound(slots);
  }

  lemma StepTells(s: State, e: Event, u: int, g: nat, hit: bool, flipped: bool)
    requires Orderly(s) && Tells(s, u, g, hit, flipped) && u != 0
    ensures var t := Step(s, e);
      Orderly(t) && Tells(t, u, g, hit || Readies(s, e, u, g), flipped || SubmissionReadies(s, e, u, g))
  {
    hide AsyncFrameComplete, PushAsyncFrame, AsyncRenderQPush, Fewer, AllKept, Apart, Tells, Joins, ReadiesAs, Holds,
      NoneMissing, Submits;
    StepLength(s, e);
    var t := Step(s, e);
    match e
    case Made(c, image) =>
      if Submits(c) {
        if FindSlot(s.slots, FrameOf(c)) < |s.slots| {
          JoinTells(s, c, image, u, g, hit, flipped);
        } else {
          DisplaceTells(s, c, image, u, g, hit, flipped);
        }
      } else {
        TriedFewer(s.slots);
        FlushFewer(s);
        FewerTells(s, t, u, g, hit, flipped);
      }
    case AnimationFrame =>
      PushFewer(s, false);
      PushFlow(s, false);
      FewerTells(s, t, u, g, hit, flipped);
    case ImageLoaded(_) =>
      TriedFewer(s.slots);
      FewerTells(s, t, u, g, hit, flipped);
    case LoadEvent(i) =>
      LoadTells(s, i, u, g, hit, flipped);
    case Cleared =>
      ClearFewer(s.slots);
      FewerTells(s, t, u, g, hit, flipped);
  }

  // ---- any run

  ghost predicate ReadiedBefore(es: seq<Event>, u: int, g: nat, k: nat)
    requires k <= |es|
  {
    exists i :: 0 <= i < k && Readies(At(es, i), es[i], u, g)
  }

  ghost predicate SubmittedReady(es: seq<Event>, u: int, g: nat, k: nat)
    requires k <= |es|
  {
    exists i :: 0 <= i < k && SubmissionReadies(At(es, i), es[i], u, g)
  }

  lemma ReadiedLast(es: seq<Event>, u: int, g: nat, k: nat)
    requires k < |es|
    ensures ReadiedBefore(es, u, g, k + 1) <==> ReadiedBefore(es, u, g, k) || Readies(At(es, k), es[k], u, g)
    ensures SubmittedReady(es, u, g, k + 1)
       <==> SubmittedReady(es, u, g, k) || SubmissionReadies(At(es, k), es[k], u, g)
  {
    hide Readies, SubmissionReadies, At;
  }

  lemma {:induction false} Telling(es: seq<Event>, u: int, g: nat, k: nat)
    requires u != 0 && k <= |es|
    ensures Orderly(At(es, k)) && Tells(At(es, k), u, g, ReadiedBefore(es, u, g, k), SubmittedReady(es, u, g, k))
    decreases k
  {
    hide Orderly, Tells, Step, Readies, SubmissionReadies, ReadiedBefore, SubmittedReady;
    if k == 0 {
      NothingReadied(es, u, g);
    } else {
      Telling(es, u, g, k - 1);
      LastOfRun(INITIAL, 0, true, es, k - 1);
      ReadiedLast(es, u, g, k - 1);
      StepTells(At(es, k - 1), es[k - 1], u, g, ReadiedBefore(es, u, g, k - 1), SubmittedReady(es, u, g, k - 1));
    }
  }

  lemma NothingReadied(es: seq<Event>, u: int, g: nat)
    ensures Orderly(At(es, 0)) && Tells(At(es, 0), u, g, false, false)
    ensures !ReadiedBefore(es, u, g, 0) && !SubmittedReady(es, u, g, 0)
  {
    assert es[..0] == [];
    assert AllKept(INITIAL) by {
      FreeTells(EMPTY, {}, 0, u, g, false, false);
    }
  }

  /** In any run, over any transport, a slot counts what the flips among its rectangles count. */
  lemma CountIsFlips(es: seq<Event>, k: nat, j: nat)
    requires k <= |es| && j < |At(es, k).slots|
    ensures At(es, k).slots[j].rectCount == FlipSum(At(es, k).slots[j].rects)
    ensures At(es, k).slots[j].frameId != 0 ==> At(es, k).slots[j].rects != []
  {
    hide At, ReadiedBefore, SubmittedReady, FlipSum;
    Telling(es, 1, 0, k);
    assert Kept(At(es, k).slots[j], At(es, k).loaded, |At(es, k).log|);
  }

  /**
   In any run, over any transport, the slot of a frame is ready exactly if some earlier event has
   made it so. Load events and submissions are all that can.
   */
  lemma ReadyExactly(es: seq<Event>, k: nat, j: nat)
    requires k <= |es| && j < |At(es, k).slots| && At(es, k).slots[j].frameId != 0
    ensures var slot := At(es, k).slots[j];
      slot.rects != [] && (slot.ready <==> ReadiedBefore(es, slot.frameId, slot.rects[0].tag, k))
  {
    hide At, ReadiedBefore, SubmittedReady, FlipSum;
    var slot := At(es, k).slots[j];
    CountIsFlips(es, k, j);
    var g := slot.rects[0].tag;
    Telling(es, slot.frameId, g, k);
    assert TellsOf(slot, slot.frameId, g, ReadiedBefore(es, slot.frameId, g, k), SubmittedReady(es, slot.frameId, g, k));
  }

  /** Event `i` is a load event that names the slot and finds none of its images missing. */
  predicate LoadedAt(es: seq<Event>, u: int, g: nat, i: nat)
    requires i < |es|
  {
    LoadReadies(At(es, i), es[i], u, g)
  }

  /** A frame whose flip has not come is ready exactly if a load event has found nothing missing in its slot. */
  lemma FliplessReadyIff(es: seq<Event>, k: nat, j: nat)
    requires k <= |es| && j < |At(es, k).slots| && At(es, k).slots[j].frameId != 0
    requires !HasFlip(At(es, k).slots[j].rects)
    ensures var slot := At(es, k).slots[j];
      && slot.rects != [] && slot.rectCount == 0
      && (slot.ready <==> exists i :: 0 <= i < k && LoadedAt(es, slot.frameId, slot.rects[0].tag, i))
  {
    hide At, HasFlip, LoadReadies, SubmissionReadies;
    var slot := At(es, k).slots[j];
    CountIsFlips(es, k, j);
    ReadyExactly(es, k, j);
    NoFlipNoCount(slot.rects);
    var u, g := slot.frameId, slot.rects[0].tag;
    Telling(es, u, g, k);
    assert TellsOf(slot, u, g, ReadiedBefore(es, u, g, k), SubmittedReady(es, u, g, k));
    if slot.ready {
      var i :| 0 <= i < k && Readies(At(es, i), es[i], u, g);
      assert !SubmissionReadies(At(es, i), es[i], u, g);
      assert LoadedAt(es, u, g, i);
    }
  }
}
