/**
 The event stream of a broker connector: an async generator that hands a bus's events to a
 consumer, through a queue when the consumer is busy and through a parked promise when it waits.
 */
module EventStream {
  import opened Bytes

  datatype BrokerEvent =
    | OrderState(orderId: string, status: string)
    | Fill(orderId: string, symbol: string, qty: real, price: real)
    | AccountState(balance: real)

  /**
   Where the generator stands. `Ready` is at the loop's test; `Parked` waits on the promise whose
   resolver is `resolveNext`; `Woken` is after the promise was resolved and before the generator
   runs on, with None for `done`; `Yielded` waits for the consumer's next call.
   */
  datatype Phase = Ready | Parked | Woken(value: Option<BrokerEvent>) | Yielded | Done

  /** One call of `stream`. The simulator's stream takes every account's events: `account` is None. */
  datatype State = State(account: Option<string>, queue: seq<BrokerEvent>, phase: Phase,
                         listening: bool, aborted: bool)

  /** What can happen: the bus emits, the signal aborts, the generator runs on, the consumer asks or leaves. */
  datatype Step = Emit(event: BrokerEvent, ref: string) | Abort | Run | Next | Return

  function Initial(account: Option<string>): State {
    State(account, [], Ready, true, false)
  }

  predicate Wanted(account: Option<string>, ref: string) {
    account.None? || ref == account.value
  }

  function OnEvent(s: State, e: BrokerEvent): State {
    if s.phase.Parked? then s.(phase := Woken(Some(e))) else s.(queue := s.queue + [e])
  }

  function OnAbort(s: State): State {
    s.(phase := if s.phase.Parked? then Woken(None) else s.phase, listening := false, aborted := true)
  }

  function Finish(s: State): State {
    s.(phase := Done, listening := false)
  }

  /** The generator from where it stands to its next `yield`, its next `await`, or its end. */
  function RunOn(s: State): (State, seq<BrokerEvent>) {
    match s.phase
    case Ready =>
      if s.aborted then (Finish(s), [])
      else if s.queue != [] then (s.(queue := s.queue[1..], phase := Yielded), [s.queue[0]])
      else (s.(phase := Parked), [])
    case Woken(None) => (Finish(s), [])
    case Woken(Some(e)) => (s.(phase := Yielded), [e])
    case _ => (s, [])
  }

  /** One step, and the events it hands to the consumer. */
  function Take(s: State, step: Step): (State, seq<BrokerEvent>) {
    match step
    case Emit(e, ref) => (if s.listening && Wanted(s.account, ref) then OnEvent(s, e) else s, [])
    case Abort => (if s.aborted || s.phase.Done? then s.(aborted := true) else OnAbort(s), [])
    case Run => RunOn(s)
    case Next => (if s.phase.Yielded? then s.(phase := Ready) else s, [])
    case Return => (if s.phase.Yielded? then Finish(s) else s, [])
  }

  function After(s: State, steps: seq<Step>): State {
    if steps == [] then s else Take(After(s, steps[..|steps| - 1]), steps[|steps| - 1]).0
  }

  /** Everything the consumer has been handed. */
  function Handed(s: State, steps: seq<Step>): seq<BrokerEvent> {
    if steps == [] then []
    else
      var init := steps[..|steps| - 1];
      Handed(s, init) + Take(After(s, init), steps[|steps| - 1]).1
  }

  /** The events the bus emitted for the account, in order. */
  function Emitted(account: Option<string>, steps: seq<Step>): seq<BrokerEvent> {
    if steps == [] then []
    else
      var last := steps[|steps| - 1];
      Emitted(account, steps[..|steps| - 1])
      + if last.Emit? && Wanted(account, last.ref) then [last.event] else []
  }

  /** The event that a resolved promise carries to the generator. */
  function InFlight(s: State): seq<BrokerEvent> {
    if s.phase.Woken? && s.phase.value.Some? then [s.phase.value.value] else []
  }

  /** While nobody has aborted or left, the generator listens and is not done. */
  predicate Open(steps: seq<Step>) {
    Abort !in steps && Return !in steps
  }

  lemma {:induction false} AccountStays(s: State, steps: seq<Step>)
    ensures After(s, steps).account == s.account
  {
    if steps != [] {
      AccountStays(s, steps[..|steps| - 1]);
    }
  }

  /** A parked consumer leaves nothing in the queue, whatever has happened. */
  lemma {:induction false} ParkedMeansEmpty(account: Option<string>, steps: seq<Step>)
    ensures var s := After(Initial(account), steps);
      && (s.phase.Parked? ==> s.queue == [] && !s.aborted)
      && (s.aborted || s.phase.Done? ==> !s.listening)
  {
    if steps != [] {
      ParkedMeansEmpty(account, steps[..|steps| - 1]);
    }
  }

  /**
   Until an abort or the consumer's leaving, nothing is lost, doubled or reordered: what was handed
   over, then the event in flight, then the queue, are the events emitted since the subscription.
   */
  lemma {:induction false} NothingLost(account: Option<string>, steps: seq<Step>)
    requires Open(steps)
    ensures var s := After(Initial(account), steps);
      && s.listening && !s.aborted && !s.phase.Done? && s.phase != Woken(None)
      && Handed(Initial(account), steps) + InFlight(s) + s.queue == Emitted(account, steps)
  {
    if steps != [] {
      var n := |steps| - 1;
      var init, last := steps[..n], steps[n];
      assert steps[n] in steps;
      NothingLost(account, init);
      AccountStays(Initial(account), init);
      ParkedMeansEmpty(account, init);
      StepLosesNothing(After(Initial(account), init), last, Handed(Initial(account), init));
      hide Take;
    }
  }

  lemma StepLosesNothing(s: State, step: Step, handed: seq<BrokerEvent>)
    requires s.listening && !s.aborted && !s.phase.Done? && s.phase != Woken(None)
    requires s.phase.Parked? ==> s.queue == []
    requires !step.Abort? && !step.Return?
    ensures var (t, out) := Take(s, step);
      && t.listening && !t.aborted && !t.phase.Done? && t.phase != Woken(None)
      && (handed + out) + InFlight(t) + t.queue
         == handed + InFlight(s) + s.queue + if step.Emit? && Wanted(s.account, step.ref) then [step.event] else []
  {
    if step.Run? && s.phase.Ready? && s.queue != [] {
      assert s.queue == [s.queue[0]] + s.queue[1..];
    }
  }

  // ---- after the abort

  /** What an aborted stream can still do: hand over the one event in flight, then end. */
  lemma {:induction false} AfterAbort(s: State, steps: seq<Step>)
    requires s.aborted && !s.listening && !s.phase.Parked?
    ensures var t := After(s, steps);
      && t.aborted && !t.listening && !t.phase.Parked? && t.queue == s.queue
      && Handed(s, steps) + InFlight(t) == InFlight(s)
  {
    if steps != [] {
      var init := steps[..|steps| - 1];
      AfterAbort(s, init);
      StepAfterAbort(After(s, init), steps[|steps| - 1], Handed(s, init));
      hide Take;
    }
  }

  lemma StepAfterAbort(s: State, step: Step, handed: seq<BrokerEvent>)
    requires s.aborted && !s.listening && !s.phase.Parked?
    ensures var (t, out) := Take(s, step);
      && t.aborted && !t.listening && !t.phase.Parked? && t.queue == s.queue
      && (handed + out) + InFlight(t) == handed + InFlight(s)
  {
  }

  lemma {:induction false} AfterSplit(s: State, a: seq<Step>, b: seq<Step>)
    ensures After(s, a + b) == After(After(s, a), b)
    ensures Handed(s, a + b) == Handed(s, a) + Handed(After(s, a), b)
  {
    hide Take;
    if b == [] {
      assert a + b == a;
    } else {
      var n := |b| - 1;
      AfterSplit(s, a, b[..n]);
      assert (a + b)[..|a| + n] == a + b[..n];
      assert (a + b)[|a| + n] == b[n];
    }
  }

  lemma OneStep(s: State, steps: seq<Step>, step: Step)
    ensures After(s, steps + [step]) == Take(After(s, steps), step).0
    ensures Handed(s, steps + [step]) == Handed(s, steps) + Take(After(s, steps), step).1
  {
    hide Take;
    assert (steps + [step])[..|steps|] == steps;
  }

  /** The consumer is handed at most one event after the abort, and it is the one that was in flight. */
  lemma AtMostOneAfterAbort(account: Option<string>, before: seq<Step>, rest: seq<Step>)
    requires Open(before)
    ensures var s := After(Initial(account), before);
      Handed(Initial(account), before + [Abort] + rest)
      == Handed(Initial(account), before) + Handed(OnAbort(s), rest)
      && Handed(OnAbort(s), rest) <= InFlight(s) && |Handed(OnAbort(s), rest)| <= 1
    ensures Handed(Initial(account), before + [Abort] + rest) <= Emitted(account, before)
  {
    var s := After(Initial(account), before);
    NothingLost(account, before);
    ParkedMeansEmpty(account, before);
    OneStep(Initial(account), before, Abort);
    assert Take(s, Abort) == (OnAbort(s), []);
    assert Handed(Initial(account), before) + [] == Handed(Initial(account), before);
    hide Take, After, Handed, Emitted;
    AfterSplit(Initial(account), before + [Abort], rest);
    AfterAbort(OnAbort(s), rest);
    assert InFlight(OnAbort(s)) == InFlight(s);
  }

  // ---- a consumer that keeps asking

  /** Each turn lets the generator run and asks again. */
  function Asking(turns: nat): seq<Step> {
    if turns == 0 then [] else [Run, Next] + Asking(turns - 1)
  }

  lemma {:induction false} QueueDrains(s: State)
    requires !s.aborted && s.phase.Ready?
    ensures var steps := Asking(|s.queue| + 1);
      Handed(s, steps) == s.queue && After(s, steps) == s.(queue := [], phase := Parked)
    decreases |s.queue|
  {
    var turn := [Run, Next];
    OneTurn(s);
    hide After, Handed;
    if s.queue == [] {
      assert Asking(0) == [] && turn + [] == turn;
      assert Asking(1) == turn;
      assert s.(queue := []) == s;
    } else {
      var t := s.(queue := s.queue[1..]);
      QueueDrains(t);
      AfterSplit(s, turn, Asking(|s.queue|));
      assert s.queue == [s.queue[0]] + t.queue;
    }
  }

  lemma OneTurn(s: State)
    ensures After(s, [Run, Next]) == Take(RunOn(s).0, Next).0
    ensures Handed(s, [Run, Next]) == RunOn(s).1
  {
    assert [Run, Next] == [Run] + [Next] && [Run] == [] + [Run];
    OneStep(s, [], Run);
    OneStep(s, [Run], Next);
  }

  /** Brings the generator to the loop's test without losing what is in flight. */
  lemma ToTheTest(s: State)
    requires !s.aborted && !s.phase.Done? && s.phase != Woken(None) && !s.phase.Parked?
    ensures After(s, [Run, Next]).phase.Ready? || After(s, [Run, Next]).phase.Parked?
    ensures !After(s, [Run, Next]).aborted
    ensures Handed(s, [Run, Next]) + After(s, [Run, Next]).queue == InFlight(s) + s.queue
    ensures After(s, [Run, Next]).phase.Parked? ==> After(s, [Run, Next]).queue == []
  {
    OneTurn(s);
    hide After, Handed;
    if s.phase.Ready? && s.queue != [] {
      assert s.queue == [s.queue[0]] + s.queue[1..];
    }
  }

  /**
   If the consumer keeps asking, it gets everything that was emitted, and then waits: for every run
   there is a number of further turns after which all emitted events have been handed over.
   */
  lemma EverythingArrives(account: Option<string>, steps: seq<Step>) returns (turns: nat)
    requires Open(steps)
    ensures var all := steps + Asking(turns);
      && Handed(Initial(account), all) == Emitted(account, steps)
      && After(Initial(account), all).phase.Parked?
  {
    hide Take, After, Handed, Emitted;
    var s0 := Initial(account);
    var s := After(s0, steps);
    NothingLost(account, steps);
    ParkedMeansEmpty(account, steps);
    var so := Handed(s0, steps);
    assert Emitted(account, steps) == so + (InFlight(s) + s.queue);
    if s.phase.Parked? {
      assert so + ([] + []) == so;
      turns := 0;
      assert steps + Asking(0) == steps;
    } else {
      ToTheTest(s);
      var t := After(s, [Run, Next]);
      AfterSplit(s0, steps, [Run, Next]);
      if t.phase.Parked? {
        turns := 1;
        assert Asking(0) == [] && [Run, Next] + [] == [Run, Next];
        assert Asking(1) == [Run, Next];
        assert Handed(s, [Run, Next]) + [] == Handed(s, [Run, Next]);
      } else {
        turns := |t.queue| + 2;
        QueueDrains(t);
        assert Asking(turns) == [Run, Next] + Asking(|t.queue| + 1);
        AfterSplit(s, [Run, Next], Asking(|t.queue| + 1));
        AfterSplit(s0, steps, Asking(turns));
      }
    }
  }

  lemma {:induction false} ParkedStays(s: State, turns: nat)
    requires s.phase.Parked?
    ensures After(s, Asking(turns)) == s && Handed(s, Asking(turns)) == []
  {
    hide After, Handed;
    if turns == 0 {
      NoSteps(s);
    } else {
      OneTurn(s);
      ParkedStays(s, turns - 1);
      AfterSplit(s, [Run, Next], Asking(turns - 1));
    }
  }

  lemma NoSteps(s: State)
    ensures After(s, []) == s && Handed(s, []) == []
  {
  }

  lemma {:induction false} AskingMore(turns: nat, more: nat)
    ensures Asking(turns + more) == Asking(turns) + Asking(more)
  {
    if turns > 0 {
      AskingMore(turns - 1, more);
      assert [Run, Next] + (Asking(turns - 1) + Asking(more)) == [Run, Next] + Asking(turns - 1) + Asking(more);
    }
  }

  /** Asking longer than it takes changes nothing. */
  lemma ArrivedStays(account: Option<string>, steps: seq<Step>, turns: nat, more: nat)
    requires After(Initial(account), steps + Asking(turns)).phase.Parked?
    ensures Handed(Initial(account), steps + Asking(turns + more)) == Handed(Initial(account), steps + Asking(turns))
  {
    hide After, Handed, Take;
    AskingMore(turns, more);
    assert steps + Asking(turns + more) == steps + Asking(turns) + Asking(more);
    AfterSplit(Initial(account), steps + Asking(turns), Asking(more));
    ParkedStays(After(Initial(account), steps + Asking(turns)), more);
    var handed := Handed(Initial(account), steps + Asking(turns));
    assert handed + [] == handed;
  }

  // ---- the end

  /** The consumer has left at a `yield`. */
  ghost predicate LeftBefore(account: Option<string>, steps: seq<Step>) {
    exists k :: 0 <= k < |steps| && LeavesAt(account, steps, k)
  }

  predicate LeavesAt(account: Option<string>, steps: seq<Step>, k: nat)
    requires k < |steps|
  {
    steps[k].Return? && After(Initial(account), steps[..k]).phase.Yielded?
  }

  lemma LeftLast(account: Option<string>, steps: seq<Step>)
    requires steps != []
    ensures var n := |steps| - 1;
      LeftBefore(account, steps) <==> LeftBefore(account, steps[..n]) || LeavesAt(account, steps, n)
  {
    hide After;
    var n := |steps| - 1;
    assert forall k :: 0 <= k < n ==> steps[..n][..k] == steps[..k];
    assert forall k :: 0 <= k < n ==> LeavesAt(account, steps[..n], k) == LeavesAt(account, steps, k);
  }

  lemma {:induction false} WhatEnds(account: Option<string>, steps: seq<Step>)
    ensures var s := After(Initial(account), steps);
      && (s.aborted <==> Abort in steps) && (s.phase == Woken(None) ==> s.aborted) && (s.aborted ==> !s.phase.Parked?)
      && (LeftBefore(account, steps) ==> s.phase.Done?)
      && (s.phase.Done? ==> s.aborted || LeftBefore(account, steps))
    decreases |steps|
  {
    if steps != [] {
      var n := |steps| - 1;
      WhatEnds(account, steps[..n]);
      ParkedMeansEmpty(account, steps[..n]);
      LeftLast(account, steps);
      assert Abort in steps <==> Abort in steps[..n] || steps[n] == Abort by {
        assert steps == steps[..n] + [steps[n]];
      }
      hide LeftBefore;
    }
  }

  lemma TwoTurns(s: State)
    requires s.aborted && !s.phase.Parked?
    ensures After(s, Asking(2)).phase.Done?
  {
    var turn := [Run, Next];
    assert Asking(0) == [] && Asking(1) == turn + [] == turn && Asking(2) == turn + turn;
    OneTurn(s);
    AfterSplit(s, turn, turn);
    OneTurn(After(s, turn));
    hide After;
  }

  lemma {:induction false} NotDoneYet(s: State, turns: nat)
    requires !s.aborted && !s.phase.Done? && s.phase != Woken(None)
    ensures !After(s, Asking(turns)).phase.Done?
    decreases turns
  {
    if turns == 0 {
      NoSteps(s);
    } else {
      OneTurn(s);
      var t := After(s, [Run, Next]);
      AfterSplit(s, [Run, Next], Asking(turns - 1));
      hide After;
      NotDoneYet(t, turns - 1);
    }
  }

  /** A stream that has ended stays so, and hands nothing over. */
  lemma {:induction false} DoneForGood(s: State, steps: seq<Step>)
    requires s.phase.Done? && !s.listening
    ensures After(s, steps).phase.Done? && !After(s, steps).listening && Handed(s, steps) == []
    decreases |steps|
  {
    if steps != [] {
      DoneForGood(s, steps[..|steps| - 1]);
    }
  }

  /**
   Whatever has happened, a consumer that keeps asking comes to the end, within two turns, exactly
   if the signal has aborted or the consumer has left at a `yield`. Then the listener is gone.
   */
  lemma EndsIff(account: Option<string>, steps: seq<Step>)
    ensures var t := After(Initial(account), steps + Asking(2));
      && (t.phase.Done? <==> Abort in steps || LeftBefore(account, steps))
      && (t.phase.Done? ==> !t.listening)
  {
    hide Take, LeftBefore, Asking, After, Handed;
    var s := After(Initial(account), steps);
    WhatEnds(account, steps);
    ParkedMeansEmpty(account, steps);
    ParkedMeansEmpty(account, steps + Asking(2));
    AfterSplit(Initial(account), steps, Asking(2));
    if s.aborted {
      TwoTurns(s);
    } else if s.phase.Done? {
      DoneForGood(s, Asking(2));
    } else {
      NotDoneYet(s, 2);
    }
  }

  /** A consumer that waits when the signal aborts gets the end as soon as the generator runs on. */
  lemma WaitingEndsAtOnce(account: Option<string>, steps: seq<Step>)
    requires After(Initial(account), steps).phase.Parked?
    ensures After(Initial(account), steps + [Abort] + [Run]).phase.Done?
    ensures Handed(Initial(account), steps + [Abort] + [Run]) == Handed(Initial(account), steps)
  {
    ParkedMeansEmpty(account, steps);
    OneStep(Initial(account), steps, Abort);
    OneStep(Initial(account), steps + [Abort], Run);
    var handed := Handed(Initial(account), steps);
    assert handed + [] == handed;
    hide After, Handed;
  }

  /** Events of every account come up exactly if the bus carries another account's. */
  lemma {:induction false} EmittedMixesAccounts(account: string, steps: seq<Step>)
    ensures Emitted(None, steps) == Emitted(Some(account), steps)
       <==> forall k :: 0 <= k < |steps| && steps[k].Emit? ==> steps[k].ref == account
    ensures |Emitted(Some(account), steps)| <= |Emitted(None, steps)|
  {
    if steps != [] {
      var n := |steps| - 1;
      var init, last := steps[..n], steps[n];
      EmittedMixesAccounts(account, init);
      assert forall k :: 0 <= k < |steps| && steps[k].Emit? && k != n ==> init[k] == steps[k];
      if last.Emit? && last.ref == account {
        assert Emitted(None, steps)[..|Emitted(None, init)|] == Emitted(None, init);
        assert Emitted(Some(account), steps)[..|Emitted(Some(account), init)|] == Emitted(Some(account), init);
      }
      if forall k :: 0 <= k < |init| && init[k].Emit? ==> init[k].ref == account {
      } else {
        var k :| 0 <= k < |init| && init[k].Emit? && init[k].ref != account;
        assert steps[k] == init[k];
      }
    }
  }

  /**
   A consumer made for one account, and a simulator's made for it, are handed the same events
   exactly if the bus has carried no other account's: whatever the run, once both have asked often
   enough, each has been handed all that was emitted for it, and the simulator's has the others', too.
   */
  lemma SimulatorMixesAccounts(account: string, steps: seq<Step>) returns (turns: nat)
    requires Open(steps)
    ensures var all := steps + Asking(turns);
      && Handed(Initial(None), all) == Emitted(None, steps)
      && Handed(Initial(Some(account)), all) == Emitted(Some(account), steps)
      && (Handed(Initial(None), all) == Handed(Initial(Some(account)), all)
          <==> forall k :: 0 <= k < |steps| && steps[k].Emit? ==> steps[k].ref == account)
  {
    hide After, Handed, Emitted;
    var forAll := EverythingArrives(None, steps);
    var forOne := EverythingArrives(Some(account), steps);
    turns := forAll + forOne;
    ArrivedStays(None, steps, forAll, forOne);
    ArrivedStays(Some(account), steps, forOne, forAll);
    EmittedMixesAccounts(account, steps);
  }

  // ---- the generator as it runs

  class Stream {
    const account: Option<string>
    var queue: seq<BrokerEvent>
    var phase: Phase
    var listening: bool
    var aborted: bool
    var handed: seq<BrokerEvent>

    function Value(): State
      reads this
    {
      State(account, queue, phase, listening, aborted)
    }

    constructor (account: Option<string>)
      ensures Value() == Initial(account) && handed == []
    {
      this.account := account;
      queue, phase, listening, aborted, handed := [], Ready, true, false, [];
    }

    /** The bus listener: `resolveNext` is set exactly while the generator is parked. */
    method Listener(e: BrokerEvent, ref: string)
      modifies this
      ensures Value() == Take(old(Value()), Emit(e, ref)).0 && handed == old(handed)
    {
      if !listening || (account.Some? && ref != account.value) {
        return;
      }
      if phase.Parked? {
        phase := Woken(Some(e));
      } else {
        queue := queue + [e];
      }
    }

    method AbortSignal()
      modifies this
      ensures Value() == Take(old(Value()), Abort).0 && handed == old(handed)
    {
      if !aborted && !phase.Done? {
        if phase.Parked? {
          phase := Woken(None);
        }
        listening := false;
      }
      aborted := true;
    }

    /** The body of the generator's loop, up to the next place it stops. */
    method Resume()
      modifies this
      ensures Value() == Take(old(Value()), Run).0
      ensures handed == old(handed) + Take(old(Value()), Run).1
    {
      if phase.Ready? {
        if aborted {
          End();
        } else if queue != [] {
          Yield(queue[0]);
          queue := queue[1..];
        } else {
          phase := Parked;
        }
      } else if phase.Woken? {
        if phase.value.None? {
          End();
        } else {
          Yield(phase.value.value);
        }
      }
    }

    method Yield(e: BrokerEvent)
      modifies `phase, `handed
      ensures phase == Yielded && handed == old(handed) + [e]
    {
      phase := Yielded;
      handed := handed + [e];
    }

    method End()
      modifies `phase, `listening
      ensures Value() == Finish(old(Value()))
    {
      phase, listening := Done, false;
    }

    method NextCall()
      modifies this
      ensures Value() == Take(old(Value()), Next).0 && handed == old(handed)
    {
      if phase.Yielded? {
        phase := Ready;
      }
    }

    method ReturnCall()
      modifies this
      ensures Value() == Take(old(Value()), Return).0 && handed == old(handed)
    {
      if phase.Yielded? {
        End();
      }
    }
  }
}
