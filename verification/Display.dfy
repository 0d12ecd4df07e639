/** The display's frame queue as it runs: slots shifted, pushed and overwritten in place. */
module DisplayQueue {
  import opened Bytes
  import opened DrawCalls
  import opened FrameQueue

  class Display {
    var asyncFrameQueue: seq<Slot>
    /** Images whose `complete` property has become true. */
    var loaded: set<nat>
    var submissions: nat
    ghost var rendered: seq<Rect>
    ghost var discarded: seq<Rect>
    ghost var log: seq<Call>

    ghost predicate Valid()
      reads this
    {
      MAX_ASYNC_FRAME_QUEUE <= |asyncFrameQueue| <= MAX_ASYNC_FRAME_QUEUE + 1 && submissions == |log|
    }

    ghost function Abs(): State
      reads this
    {
      State(asyncFrameQueue, loaded, rendered, discarded, log)
    }

    constructor ()
      ensures Valid() && Abs() == INITIAL
    {
      asyncFrameQueue := [EMPTY, EMPTY, EMPTY];
      loaded, submissions := {}, 0;
      rendered, discarded, log := [], [], [];
    }

    /** Is the slot for the newest frame in use? */
    method IsPending() returns (p: bool)
      requires Valid()
      ensures p == Pending(Abs())
    {
      p := asyncFrameQueue[MAX_ASYNC_FRAME_QUEUE - 1].frameId > 0;
    }

    method Flush()
      requires Valid()
      modifies this
      ensures Valid() && Abs() == AsyncFrameComplete(old(Abs()), 0, true)
    {
      CompleteFrame(0, true);
    }

    method ClearQueue()
      requires Valid()
      modifies this
      ensures Valid() && Abs() == Clear(old(Abs()))
    {
      discarded := discarded + AllRects(asyncFrameQueue);
      asyncFrameQueue := [];
      var i := 0;
      while i < MAX_ASYNC_FRAME_QUEUE
        modifies `asyncFrameQueue
        invariant 0 <= i <= MAX_ASYNC_FRAME_QUEUE
        invariant asyncFrameQueue == [EMPTY, EMPTY, EMPTY][..i]
      {
        asyncFrameQueue := asyncFrameQueue + [EMPTY];
        i := i + 1;
      }
    }

    /** One pass over the slots: the one that takes the rectangle, and the extreme frame numbers before it. */
    method Scan(id: int) returns (frameIx: int, oldestFrameID: int, newestFrameID: int)
      requires Valid()
      ensures var i := FindSlot(asyncFrameQueue, id);
        if i < |asyncFrameQueue| then frameIx == i
        else frameIx == -1 && oldestFrameID == Oldest(asyncFrameQueue) && newestFrameID == Newest(asyncFrameQueue)
    {
      frameIx, oldestFrameID, newestFrameID := -1, MAX_SAFE_INTEGER, 0;
      var i := 0;
      while i < |asyncFrameQueue|
        invariant 0 <= i <= |asyncFrameQueue|
        invariant i <= FindSlot(asyncFrameQueue, id)
        invariant frameIx == -1
        invariant oldestFrameID == Oldest(asyncFrameQueue[..i]) && newestFrameID == Newest(asyncFrameQueue[..i])
      {
        var frame := asyncFrameQueue[i].frameId;
        if id == frame || frame == 0 {
          frameIx := i;
          return;
        }
        assert asyncFrameQueue[..i + 1][..i] == asyncFrameQueue[..i];
        oldestFrameID := if frame < oldestFrameID then frame else oldestFrameID;
        newestFrameID := if frame > newestFrameID then frame else newestFrameID;
        i := i + 1;
      }
      assert asyncFrameQueue[..i] == asyncFrameQueue;
    }

    method RenderQPush(c: Call, image: bool)
      requires Valid()
      modifies this
      ensures Valid() && Abs() == AsyncRenderQPush(old(Abs()), c, image)
    {
      hide AsyncFrameComplete, PushAsyncFrame, Oldest, Newest;
      var id := FrameOf(c);
      var rect := Rect(submissions, c, if image then Image else Plain);
      submissions := submissions + 1;
      log := log + [c];
      var frameIx, oldestFrameID, newestFrameID := Scan(id);
      if frameIx >= 0 {
        var slot := asyncFrameQueue[frameIx];
        if id == slot.frameId {
          slot := slot.(rects := slot.rects + [rect]);
        } else {
          slot := slot.(frameId := id, rects := slot.rects + [rect],
                        ready := IsFlip(rect) && rect.call.rectCount == 1);
        }
        if IsFlip(rect) {
          slot := slot.(rectCount := slot.rectCount + rect.call.rectCount);
        }
        asyncFrameQueue := asyncFrameQueue[frameIx := slot];
        if slot.rectCount > 0 && |slot.rects| >= slot.rectCount {
          CompleteFrame(frameIx, false);
        }
      } else if id < oldestFrameID {
        discarded := discarded + [rect];
      } else if id > newestFrameID {
        MakeRoom(rect);
      } else {
        discarded := discarded + [rect];
      }
    }

    method MakeRoom(rect: Rect)
      requires Valid()
      modifies `asyncFrameQueue, `rendered, `discarded
      ensures Valid() && loaded == old(loaded) && log == old(log)
      ensures var s := old(Abs());
        var freed := if s.slots[0].ready then PushAsyncFrame(s, true)
                     else s.(slots := s.slots[1..], discarded := s.discarded + s.slots[0].rects);
        Abs() == freed.(slots := freed.slots + [NewSlot(rect)])
    {
      if asyncFrameQueue[0].ready {
        PushFrame(true);
      } else {
        discarded := discarded + asyncFrameQueue[0].rects;
        asyncFrameQueue := asyncFrameQueue[1..];
      }
      var count := if IsFlip(rect) then rect.call.rectCount else 0;
      asyncFrameQueue := asyncFrameQueue + [Slot(FrameOf(rect.call), count, [rect], count == 1, 0, 0)];
    }

    /** `_asyncFrameComplete`: also the callback of an image's load event, with the slot it was registered for. */
    method CompleteFrame(frameIx: nat, force: bool)
      requires Valid()
      modifies `asyncFrameQueue, `rendered
      ensures Valid() && Abs() == AsyncFrameComplete(old(Abs()), frameIx, force)
    {
      hide PushAsyncFrame;
      if frameIx >= |asyncFrameQueue| {
        return;
      }
      var slot := asyncFrameQueue[frameIx];
      var current := slot.cursor;
      if force {
        var rects := slot.rects;
        while current < |rects|
          invariant slot.cursor <= current && |rects| == |slot.rects|
          invariant slot.cursor <= |rects| ==> current <= |rects|
          invariant slot.cursor > |rects| ==> current == slot.cursor
          invariant forall k :: 0 <= k < |rects| ==>
            rects[k] == if slot.cursor <= k < current && Unloaded(slot.rects[k], loaded) then slot.rects[k].(kind := Skipped)
               else slot.rects[k]
        {
          if rects[current].kind == Image && rects[current].tag !in loaded {
            rects := rects[current := rects[current].(kind := Skipped)];
          }
          current := current + 1;
        }
        assert rects == SkipUnloaded(slot.rects, slot.cursor, loaded);
        slot := slot.(rects := rects);
      } else {
        while current < |slot.rects|
          invariant slot.cursor <= current
          invariant FirstUnloaded(slot.rects, slot.cursor, loaded) == FirstUnloaded(slot.rects, current, loaded)
        {
          if slot.rects[current].kind == Image && slot.rects[current].tag !in loaded {
            asyncFrameQueue := asyncFrameQueue[frameIx := slot.(cursor := current)];
            return;
          }
          current := current + 1;
        }
      }
      asyncFrameQueue := asyncFrameQueue[frameIx := slot.(cursor := current, ready := true)];
      if force && frameIx == 0 {
        PushFrame(true);
      }
    }

    /** `_pushAsyncFrame`: also the animation-frame callback. */
    method PushFrame(force: bool)
      requires Valid()
      modifies `asyncFrameQueue, `rendered
      ensures Valid() && Abs() == PushAsyncFrame(old(Abs()), force)
      decreases !force
    {
      var front := asyncFrameQueue[0];
      if front.ready || force {
        asyncFrameQueue := asyncFrameQueue[1..];
        if |asyncFrameQueue| < MAX_ASYNC_FRAME_QUEUE {
          asyncFrameQueue := asyncFrameQueue + [EMPTY];
        }
        rendered := rendered + front.rects;
      } else if front.rectCount > 0 && front.rectCount == |front.rects| {
        asyncFrameQueue := asyncFrameQueue[0 := front.(tries := front.tries + 1)];
        if asyncFrameQueue[0].tries > 5 {
          PushFrame(true);
        }
      }
    }
  }
}
