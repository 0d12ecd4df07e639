/**
 The client that sends commands to the MT5 terminal over one socket and matches the responses:
 its handlers as steps, in any interleaving.
 */
module CommandClient {
  import opened Bytes

  type Id = string

  /** What `JSON.parse` makes of a line. */
  datatype Frame = BadJson | Other | Response(id: Id, ok: bool, value: string)

  datatype Reason = Timeout | Failed(error: string) | SocketFailed | WriteFailed | NotConnected | NoSocket | Destroyed

  /** How a command's promise settled. */
  datatype Outcome = Resolved(result: string) | Rejected(reason: Reason)

  /**
   `waiting` holds the commands inside `ensureConnected`; `pending` is the map of registered
   commands and `timers` their armed timeouts. Sockets are numbered in the order they were made:
   `errored` ones have their `connectFailed` flag set, `torn` ones were destroyed from this side,
   `closed` ones have had their close event. `reconnects` counts the armed reconnect timers.
   */
  datatype State = State(
    sock: Option<nat>, made: nat, errored: set<nat>, torn: set<nat>, closed: set<nat>, recvBuf: string,
    waiting: set<Id>, pending: set<Id>, timers: set<Id>, written: set<Id>,
    outcome: map<Id, Outcome>, destroyed: bool, reconnects: nat)

  datatype Event =
    | Begin(id: Id)                    // dispatch is called
    | GiveUp(id: Id)                   // ensureConnected times out
    | Register(id: Id)                 // dispatch goes on after ensureConnected
    | Data(socket: nat, chunk: string)
    | TimerFires(id: Id)
    | WriteFails(id: Id)
    | SocketError(socket: nat)
    | SocketClose(socket: nat)
    | ReconnectTimer
    | Destroy

  const OVERFLOW := 65536

  // ---- lines

  /** The position of the first newline, or the length if there is none. */
  function Newline(s: string): (i: nat)
    ensures i <= |s| && '\n' !in s[..i] && (i < |s| ==> s[i] == '\n')
  {
    if s == "" || s[0] == '\n' then 0 else Newline(s[1..]) + 1
  }

  /** The complete lines of `s`, and what follows the last newline. */
  function Lines(s: string): (r: (seq<string>, string))
    ensures '\n' !in r.1
    decreases |s|
  {
    var i := Newline(s);
    if i == |s| then ([], s)
    else
      var (lines, rest) := Lines(s[i + 1..]);
      ([s[..i]] + lines, rest)
  }

  lemma {:induction false} NewlineOfSum(a: string, b: string)
    ensures Newline(a) < |a| ==> Newline(a + b) == Newline(a)
    ensures Newline(a) == |a| ==> Newline(a + b) == |a| + Newline(b)
  {
    if a == "" {
      assert a + b == b;
    } else {
      assert (a + b)[1..] == a[1..] + b;
      NewlineOfSum(a[1..], b);
    }
  }

  lemma LineOff(s: string)
    requires Newline(s) < |s|
    ensures var i := Newline(s); Lines(s) == ([s[..i]] + Lines(s[i + 1..]).0, Lines(s[i + 1..]).1)
  {
  }

  lemma NoLine(s: string)
    requires Newline(s) == |s|
    ensures Lines(s) == ([], s)
  {
  }

  /** Where a stream is cut into chunks makes no difference to its lines. */
  lemma {:induction false} LinesOfSum(a: string, b: string)
    ensures Lines(a + b) == (Lines(a).0 + Lines(Lines(a).1 + b).0, Lines(Lines(a).1 + b).1)
    decreases |a|
  {
    hide Lines, Newline;
    var i := Newline(a);
    NewlineOfSum(a, b);
    if i < |a| {
      var (lines, rest) := Lines(a[i + 1..]);
      var more := Lines(rest + b).0;
      assert (a + b)[..i] == a[..i] && (a + b)[i + 1..] == a[i + 1..] + b;
      LineOff(a);
      LineOff(a + b);
      LinesOfSum(a[i + 1..], b);
      assert [a[..i]] + (lines + more) == ([a[..i]] + lines) + more;
    } else {
      NoLine(a);
      assert [] + Lines(a + b).0 == Lines(a + b).0;
    }
  }

  /** The lines out of a list of chunks, each appended to what the last one left. */
  function Chunked(left: string, chunks: seq<string>): (seq<string>, string)
    decreases |chunks|
  {
    if chunks == [] then ([], left)
    else
      var (first, rest) := Lines(left + chunks[0]);
      var (more, last) := Chunked(rest, chunks[1..]);
      (first + more, last)
  }

  function Whole(chunks: seq<string>): string {
    if chunks == [] then "" else chunks[0] + Whole(chunks[1..])
  }

  lemma NewlineThere(s: string)
    ensures Newline(s) == |s| <==> '\n' !in s
  {
    if Newline(s) < |s| {
      assert s[Newline(s)] in s;
    } else {
      assert s[..|s|] == s;
    }
  }

  lemma {:induction false} ChunksDoNotMatter(left: string, chunks: seq<string>)
    requires '\n' !in left
    ensures Chunked(left, chunks) == Lines(left + Whole(chunks))
    decreases |chunks|
  {
    if chunks == [] {
      assert left + "" == left;
      NewlineThere(left);
    } else {
      var (first, rest) := Lines(left + chunks[0]);
      ChunksDoNotMatter(rest, chunks[1..]);
      LinesOfSum(left + chunks[0], Whole(chunks[1..]));
      assert left + chunks[0] + Whole(chunks[1..]) == left + Whole(chunks);
    }
  }

  lemma SpoiltLines(left: string, data: string)
    requires '\n' !in left
    ensures Lines(left + data).0 == Lines(data).0 <==> left == "" || '\n' !in data
  {
    NewlineOfSum(left, data);
    NewlineThere(left);
    NewlineThere(data);
    var i := Newline(data);
    if i < |data| {
      assert (left + data)[..|left| + i] == left + data[..i];
      assert (left + data)[|left| + i + 1..] == data[i + 1..];
      assert Lines(left + data).0[0] == left + data[..i] && Lines(data).0[0] == data[..i];
      assert left != "" ==> |left + data[..i]| > |data[..i]|;
      assert left == "" ==> left + data == data;
    }
  }

  // ---- the handlers

  /** A promise settles once: later calls of its resolve or reject do nothing. */
  function Settle(s: State, id: Id, o: Outcome): State {
    s.(outcome := if id in s.outcome then s.outcome else s.outcome[id := o])
  }

  function Drop(s: State, id: Id): State {
    s.(pending := s.pending - {id}, timers := s.timers - {id})
  }

  function RejectAll(outcome: map<Id, Outcome>, ids: set<Id>, why: Reason): map<Id, Outcome> {
    map id | id in outcome.Keys + ids :: if id in outcome then outcome[id] else Rejected(why)
  }

  function FailPending(s: State, why: Reason): State {
    s.(outcome := RejectAll(s.outcome, s.pending, why), timers := s.timers - s.pending, pending := {})
  }

  function Connect(s: State): State {
    if s.destroyed then s else s.(sock := Some(s.made), made := s.made + 1)
  }

  function ScheduleReconnect(s: State): State {
    if s.destroyed then s else s.(reconnects := s.reconnects + 1)
  }

  function Initial(): State {
    Connect(State(None, 0, {}, {}, {}, "", {}, {}, {}, {}, map[], false, 0))
  }

  function DispatchFrame(s: State, f: Frame): State {
    if f.Response? && f.id in s.pending then
      Settle(Drop(s, f.id), f.id, if f.ok then Resolved(f.value) else Rejected(Failed(f.value)))
    else s
  }

  function DispatchAll(parse: string -> Frame, s: State, lines: seq<string>): State {
    if lines == [] then s
    else
      var n := |lines| - 1;
      DispatchFrame(DispatchAll(parse, s, lines[..n]), parse(lines[n]))
  }

  function OnData(parse: string -> Frame, s: State, k: nat, chunk: string): State {
    var (lines, rest) := Lines(s.recvBuf + chunk);
    var t := DispatchAll(parse, s, lines).(recvBuf := rest);
    if |rest| > OVERFLOW then t.(torn := t.torn + {k}) else t
  }

  function OnRegister(s: State, id: Id): State {
    var t := s.(waiting := s.waiting - {id}, timers := s.timers + {id}, pending := s.pending + {id});
    if s.sock.None? then Settle(t, id, Rejected(NoSocket)) else t.(written := t.written + {id})
  }

  function OnError(s: State, k: nat): State {
    ScheduleReconnect(FailPending(s, SocketFailed).(errored := s.errored + {k}, torn := s.torn + {k}, sock := None))
  }

  function OnClose(s: State, k: nat): State {
    var t := FailPending(s, SocketFailed).(closed := s.closed + {k});
    if k in s.errored || s.destroyed then t else ScheduleReconnect(t.(sock := None))
  }

  function OnDestroy(s: State): State {
    FailPending(s, Destroyed).(
      destroyed := true, sock := None,
      torn := if s.sock.Some? then s.torn + {s.sock.value} else s.torn)
  }

  /** Which events can happen: sockets report only while they exist, each command is begun once. */
  predicate Enabled(s: State, e: Event) {
    match e
    case Begin(id) => id !in s.waiting + s.pending + s.written && id !in s.outcome
    case GiveUp(id) => id in s.waiting
    case Register(id) => id in s.waiting
    case Data(k, _) => k < s.made && k !in s.errored + s.torn + s.closed
    case TimerFires(id) => id in s.timers
    case WriteFails(id) => id in s.written
    case SocketError(k) => k < s.made && k !in s.errored + s.torn + s.closed
    case SocketClose(k) => k < s.made && k !in s.closed
    case ReconnectTimer => s.reconnects > 0
    case Destroy => true
  }

  function Step(parse: string -> Frame, s: State, e: Event): State
    requires Enabled(s, e)
  {
    match e
    case Begin(id) => if s.destroyed then Settle(s, id, Rejected(Destroyed)) else s.(waiting := s.waiting + {id})
    case GiveUp(id) => Settle(s.(waiting := s.waiting - {id}), id, Rejected(NotConnected))
    case Register(id) => OnRegister(s, id)
    case Data(k, chunk) => OnData(parse, s, k, chunk)
    case TimerFires(id) => Settle(Drop(s, id), id, Rejected(Timeout))
    case WriteFails(id) => Settle(Drop(s, id), id, Rejected(WriteFailed))
    case SocketError(k) => OnError(s, k)
    case SocketClose(k) => OnClose(s, k)
    case ReconnectTimer => Connect(s.(reconnects := s.reconnects - 1))
    case Destroy => OnDestroy(s)
  }

  /** The state after a run, as long as every event of it can happen. */
  function After(parse: string -> Frame, run: seq<Event>): Option<State> {
    if run == [] then Some(Initial())
    else
      match After(parse, run[..|run| - 1])
      case None => None
      case Some(s) =>
        var e := run[|run| - 1];
        if Enabled(s, e) then Some(Step(parse, s, e)) else None
  }

  ghost predicate Run(parse: string -> Frame, run: seq<Event>) {
    After(parse, run).Some?
  }

  // ---- what every step keeps

  predicate Live(s: State, k: nat) {
    k < s.made && k !in s.errored && k !in s.closed
  }

  /** Before `destroy`, one socket that has not failed, or one armed reconnect timer, and not both. */
  predicate OneConnection(s: State) {
    if s.destroyed then s.sock.None? && s.reconnects <= 1
    else
      match s.sock
      case Some(k) => s.reconnects == 0 && forall j :: 0 <= j < s.made ==> (Live(s, j) <==> j == k)
      case None => s.reconnects == 1 && forall j :: 0 <= j < s.made ==> !Live(s, j)
  }

  predicate SocketsKnown(s: State) {
    && (s.sock.Some? ==> s.sock.value < s.made)
    && forall k :: k in s.errored + s.torn + s.closed ==> k < s.made
  }

  /** A registered command that found no socket to be written to. */
  predicate Orphan(s: State, id: Id) {
    id in s.pending && id !in s.written
  }

  predicate Commands(s: State) {
    && s.timers == s.pending
    && s.waiting !! s.pending + s.written + s.outcome.Keys
    && (forall id :: id in s.written ==> (id in s.pending <==> id !in s.outcome))
    && (forall id :: id in s.pending && id !in s.written ==> id in s.outcome && s.outcome[id] == Rejected(NoSocket))
  }

  predicate Inv(s: State) {
    Commands(s) && SocketsKnown(s) && OneConnection(s)
  }

  lemma FrameKeeps(s: State, f: Frame)
    requires Commands(s)
    ensures Commands(DispatchFrame(s, f))
    ensures var t := DispatchFrame(s, f);
      t == s.(pending := t.pending, timers := t.timers, outcome := t.outcome)
  {
  }

  lemma {:induction false} FramesKeep(parse: string -> Frame, s: State, lines: seq<string>)
    requires Commands(s)
    ensures Commands(DispatchAll(parse, s, lines))
    ensures var t := DispatchAll(parse, s, lines);
      t == s.(pending := t.pending, timers := t.timers, outcome := t.outcome)
    decreases |lines|
  {
    if lines != [] {
      var n := |lines| - 1;
      FramesKeep(parse, s, lines[..n]);
      FrameKeeps(DispatchAll(parse, s, lines[..n]), parse(lines[n]));
      hide DispatchFrame, Commands;
    }
  }

  lemma FailKeeps(s: State, why: Reason)
    requires Commands(s)
    ensures Commands(FailPending(s, why))
  {
  }

  lemma StepKeepsCommands(parse: string -> Frame, s: State, e: Event)
    requires Commands(s) && Enabled(s, e)
    ensures Commands(Step(parse, s, e))
  {
    match e
    case Data(k, chunk) =>
      FramesKeep(parse, s, Lines(s.recvBuf + chunk).0);
      hide DispatchAll, Lines;
    case SocketError(_) =>
      FailKeeps(s, SocketFailed);
      hide FailPending;
    case SocketClose(_) =>
      FailKeeps(s, SocketFailed);
      hide FailPending;
    case Destroy =>
      FailKeeps(s, Destroyed);
      hide FailPending;
    case _ =>
  }

  lemma StepKeepsConnection(parse: string -> Frame, s: State, e: Event)
    requires Inv(s) && Enabled(s, e)
    ensures SocketsKnown(Step(parse, s, e)) && OneConnection(Step(parse, s, e))
  {
    if e.Data? {
      FramesKeep(parse, s, Lines(s.recvBuf + e.chunk).0);
      hide DispatchAll, Lines;
    }
    hide Commands, RejectAll;
    assert s.made !in s.errored + s.torn + s.closed;
    var t := Step(parse, s, e);
    assert forall j :: 0 <= j < s.made && !e.SocketError? && !e.SocketClose? ==> Live(t, j) == Live(s, j);
    if e.SocketError? || e.SocketClose? {
      assert Live(s, e.socket) && !s.destroyed ==> s.sock == Some(e.socket);
      assert forall j :: 0 <= j < s.made ==> Live(t, j) == (Live(s, j) && j != e.socket);
    }
  }

  lemma {:induction false} EveryRunKeeps(parse: string -> Frame, run: seq<Event>)
    requires Run(parse, run)
    ensures Inv(After(parse, run).value)
    decreases |run|
  {
    if run != [] {
      var init := run[..|run| - 1];
      EveryRunKeeps(parse, init);
      StepKeepsCommands(parse, After(parse, init).value, run[|run| - 1]);
      StepKeepsConnection(parse, After(parse, init).value, run[|run| - 1]);
    }
  }

  // ---- what is pending

  /** The registered commands that have no outcome, and those that found no socket. */
  lemma PendingIsUnsettled(parse: string -> Frame, run: seq<Event>)
    requires Run(parse, run)
    ensures var s := After(parse, run).value;
      && s.pending == s.timers
      && s.pending == (s.written - s.outcome.Keys) + set id | Orphan(s, id) && id in s.pending
  {
    EveryRunKeeps(parse, run);
  }

  predicate Exact(s: State) {
    s.pending == s.written - s.outcome.Keys
  }

  /** The event does not register a command while there is no socket. */
  predicate HasSocket(s: State, e: Event) {
    e.Register? ==> s.sock.Some?
  }

  lemma ExactStep(parse: string -> Frame, s: State, e: Event)
    requires Inv(s) && Enabled(s, e) && Exact(s)
    ensures Exact(Step(parse, s, e)) <==> HasSocket(s, e)
  {
    StepKeepsCommands(parse, s, e);
    var t := Step(parse, s, e);
    if e.Data? {
      FramesKeep(parse, s, Lines(s.recvBuf + e.chunk).0);
      FramesOnlyDrop(parse, s, Lines(s.recvBuf + e.chunk).0);
      hide DispatchAll, Lines;
      assert forall id :: id in t.pending ==> id in s.pending;
    }
  }

  lemma {:induction false} FramesOnlyDrop(parse: string -> Frame, s: State, lines: seq<string>)
    ensures DispatchAll(parse, s, lines).pending <= s.pending
    decreases |lines|
  {
    if lines != [] {
      FramesOnlyDrop(parse, s, lines[..|lines| - 1]);
    }
  }

  ghost predicate ExactAfter(parse: string -> Frame, run: seq<Event>, n: nat)
    requires n <= |run|
  {
    var r := After(parse, run[..n]);
    r.Some? && Exact(r.value)
  }

  ghost predicate HasSocketThen(parse: string -> Frame, run: seq<Event>, k: nat)
    requires k < |run|
  {
    var r := After(parse, run[..k]);
    r.Some? ==> HasSocket(r.value, run[k])
  }

  /**
   The pending commands are the written, unsettled ones all along a run exactly if the socket is
   there whenever a command is registered.
   */
  lemma {:induction false} ExactThroughout(parse: string -> Frame, run: seq<Event>)
    requires Run(parse, run)
    ensures (forall n :: 0 <= n <= |run| ==> ExactAfter(parse, run, n))
       <==> (forall k :: 0 <= k < |run| ==> HasSocketThen(parse, run, k))
    decreases |run|
  {
    if run == [] {
      assert ExactAfter(parse, run, 0);
    } else {
      var m := |run| - 1;
      var init := run[..m];
      assert Run(parse, init);
      EarlierExact(parse, run);
      LastExact(parse, run);
      hide *;
      ExactThroughout(parse, init);
      assert ExactAfter(parse, init, m) == ExactAfter(parse, run, m);
    }
  }

  lemma EarlierExact(parse: string -> Frame, run: seq<Event>)
    requires run != []
    ensures var init := run[..|run| - 1];
      && (forall n :: 0 <= n < |run| ==> ExactAfter(parse, init, n) == ExactAfter(parse, run, n))
      && (forall k :: 0 <= k < |run| - 1 ==> HasSocketThen(parse, init, k) == HasSocketThen(parse, run, k))
  {
    hide After, Exact, HasSocket;
    var init := run[..|run| - 1];
    assert forall n :: 0 <= n < |run| ==> init[..n] == run[..n];
  }

  lemma LastExact(parse: string -> Frame, run: seq<Event>)
    requires Run(parse, run) && run != []
    ensures var m := |run| - 1;
      ExactAfter(parse, run, m) ==> (ExactAfter(parse, run, m + 1) <==> HasSocketThen(parse, run, m))
  {
    var m := |run| - 1;
    assert run[..m + 1] == run;
    EveryRunKeeps(parse, run[..m]);
    if ExactAfter(parse, run, m) {
      ExactStep(parse, After(parse, run[..m]).value, run[m]);
    }
    hide Step, Enabled, Inv, HasSocket;
  }

  /** The run that breaks it: the client is destroyed between the socket check and the registration. */
  lemma OrphanStays(parse: string -> Frame, id: Id)
    ensures var run := [Begin(id), Destroy, Register(id)];
      Run(parse, run)
      && var s := After(parse, run).value;
         && id in s.pending && id in s.timers && id !in s.written
         && id in s.outcome && s.outcome[id] == Rejected(NoSocket)
  {
    var run := [Begin(id), Destroy, Register(id)];
    assert run[..2] == [Begin(id), Destroy] && run[..2][..1] == [Begin(id)] && [Begin(id)][..0] == [];
    assert {} + {id} == {id};
    assert After(parse, []) == Some(Initial());
    assert After(parse, [Begin(id)]) == Some(Initial().(waiting := {id}));
    var t := OnDestroy(Initial().(waiting := {id}));
    assert After(parse, run[..2]) == Some(t);
    assert t.sock == None && t.waiting == {id} && t.outcome == map[];
  }

  // ---- outcomes

  /** What the first response to `id` among these lines says. */
  function FirstResponse(parse: string -> Frame, lines: seq<string>, id: Id): Option<Outcome> {
    if lines == [] then None
    else
      var n := |lines| - 1;
      match FirstResponse(parse, lines[..n], id)
      case Some(o) => Some(o)
      case None =>
        var f := parse(lines[n]);
        if f.Response? && f.id == id then Some(if f.ok then Resolved(f.value) else Rejected(Failed(f.value)))
        else None
  }

  /**
   Received lines settle exactly the pending commands they respond to, each by the first response
   with its own id, and touch no other command.
   */
  lemma {:induction false} LinesSettle(parse: string -> Frame, s: State, lines: seq<string>, id: Id)
    ensures var t, first := DispatchAll(parse, s, lines), FirstResponse(parse, lines, id);
      && (id in t.pending <==> id in s.pending && first.None?)
      && (id in s.outcome ==> id in t.outcome && t.outcome[id] == s.outcome[id])
      && (id !in s.outcome ==>
            (if id in s.pending && first.Some? then id in t.outcome && t.outcome[id] == first.value
             else id !in t.outcome))
    decreases |lines|
  {
    if lines != [] {
      LinesSettle(parse, s, lines[..|lines| - 1], id);
    }
  }

  predicate Kept(before: map<Id, Outcome>, after: map<Id, Outcome>) {
    forall id :: id in before ==> id in after && after[id] == before[id]
  }

  lemma StepKeepsOutcomes(parse: string -> Frame, s: State, e: Event)
    requires Enabled(s, e)
    ensures Kept(s.outcome, Step(parse, s, e).outcome)
  {
    if e.Data? {
      forall id
        ensures id in s.outcome ==>
          var t := DispatchAll(parse, s, Lines(s.recvBuf + e.chunk).0);
          id in t.outcome && t.outcome[id] == s.outcome[id]
      {
        LinesSettle(parse, s, Lines(s.recvBuf + e.chunk).0, id);
      }
      hide DispatchAll, Lines;
    }
  }

  lemma RunPrefix(parse: string -> Frame, a: seq<Event>, b: seq<Event>)
    requires Run(parse, a + b)
    ensures Run(parse, a)
    decreases |b|
  {
    if b == [] {
      assert a + b == a;
    } else {
      assert (a + b)[..|a + b| - 1] == a + b[..|b| - 1];
      RunPrefix(parse, a, b[..|b| - 1]);
    }
  }

  /** A settled command stays settled as it is. */
  lemma {:induction false} OutcomesAreFinal(parse: string -> Frame, a: seq<Event>, b: seq<Event>)
    requires Run(parse, a + b)
    ensures Run(parse, a) && Kept(After(parse, a).value.outcome, After(parse, a + b).value.outcome)
    decreases |b|
  {
    RunPrefix(parse, a, b);
    if b == [] {
      assert a + b == a;
    } else {
      var init := b[..|b| - 1];
      assert (a + b)[..|a + b| - 1] == a + init;
      OutcomesAreFinal(parse, a, init);
      StepKeepsOutcomes(parse, After(parse, a + init).value, (a + b)[|a + b| - 1]);
      hide Step, Enabled;
    }
  }

  /** At the `n`th event the command was pending and its response was among the received lines. */
  ghost predicate AnsweredAt(parse: string -> Frame, run: seq<Event>, n: nat, id: Id, result: string) {
    && n < |run| && run[n].Data? && Run(parse, run[..n])
    && var s := After(parse, run[..n]).value;
       && id in s.pending && id in s.written && id !in s.outcome
       && FirstResponse(parse, Lines(s.recvBuf + run[n].chunk).0, id) == Some(Resolved(result))
  }

  /** A command resolves only from the response with its own id, received while it is pending. */
  lemma {:induction false} ResolvedByOwnResponse(parse: string -> Frame, run: seq<Event>, id: Id) returns (n: nat)
    requires Run(parse, run)
    requires var o := After(parse, run).value.outcome; id in o && o[id].Resolved?
    ensures AnsweredAt(parse, run, n, id, After(parse, run).value.outcome[id].result)
    decreases |run|
  {
    assert run != [];
    var m := |run| - 1;
    var init, e := run[..m], run[m];
    var s := After(parse, init).value;
    EveryRunKeeps(parse, init);
    StepKeepsOutcomes(parse, s, e);
    if id in s.outcome {
      n := ResolvedByOwnResponse(parse, init, id);
      assert run[..n] == init[..n];
    } else {
      n := m;
      SettledByData(parse, s, e, id);
    }
  }

  lemma SettledByData(parse: string -> Frame, s: State, e: Event, id: Id)
    requires Inv(s) && Enabled(s, e) && id !in s.outcome
    requires id in Step(parse, s, e).outcome && Step(parse, s, e).outcome[id].Resolved?
    ensures e.Data? && id in s.pending && id in s.written
    ensures FirstResponse(parse, Lines(s.recvBuf + e.chunk).0, id) == Some(Step(parse, s, e).outcome[id])
  {
    if e.Data? {
      LinesSettle(parse, s, Lines(s.recvBuf + e.chunk).0, id);
      hide DispatchAll, Lines, FirstResponse;
    }
  }

  // ---- nothing is forgotten

  function Begun(run: seq<Event>): set<Id> {
    set k | 0 <= k < |run| && run[k].Begin? :: run[k].id
  }

  /** Every command is settled, or inside `ensureConnected`, or pending with its timeout armed. */
  lemma {:induction false} NothingForgotten(parse: string -> Frame, run: seq<Event>, id: Id)
    requires Run(parse, run) && id in Begun(run)
    ensures var s := After(parse, run).value;
      id in s.outcome || id in s.waiting || (id in s.pending && id in s.timers)
    decreases |run|
  {
    var m := |run| - 1;
    var init, e := run[..m], run[m];
    var s := After(parse, init).value;
    assert forall j :: 0 <= j < m ==> init[j] == run[j];
    EveryRunKeeps(parse, run);
    EveryRunKeeps(parse, init);
    if id in Begun(init) {
      NothingForgotten(parse, init, id);
      StepForgetsNothing(parse, s, e, id);
    } else {
      var k :| 0 <= k < |run| && run[k].Begin? && run[k].id == id;
    }
    hide Inv;
  }

  lemma StepForgetsNothing(parse: string -> Frame, s: State, e: Event, id: Id)
    requires Inv(s) && Enabled(s, e) && (id in s.outcome || id in s.waiting || id in s.pending)
    ensures var t := Step(parse, s, e); id in t.outcome || id in t.waiting || id in t.pending
  {
    if e.Data? {
      LinesSettle(parse, s, Lines(s.recvBuf + e.chunk).0, id);
      FramesKeep(parse, s, Lines(s.recvBuf + e.chunk).0);
      hide DispatchAll, Lines, FirstResponse;
    }
  }

  /** `destroy` settles every registered command at once, and no socket is opened after it. */
  lemma {:induction false} DestroyEndsIt(parse: string -> Frame, before: seq<Event>, rest: seq<Event>)
    requires Run(parse, before + [Destroy] + rest)
    ensures Run(parse, before)
    ensures var s, t := After(parse, before).value, After(parse, before + [Destroy] + rest).value;
      && t.destroyed && t.sock.None? && t.made == s.made
      && s.pending + s.written <= t.outcome.Keys
    decreases |rest|
  {
    var all := before + [Destroy] + rest;
    if rest == [] {
      assert all == before + [Destroy] && all[..|all| - 1] == before;
      EveryRunKeeps(parse, before);
    } else {
      var init := before + [Destroy] + rest[..|rest| - 1];
      assert all[..|all| - 1] == init;
      DestroyEndsIt(parse, before, rest[..|rest| - 1]);
      var u, e := After(parse, init).value, all[|all| - 1];
      EveryRunKeeps(parse, init);
      StepKeepsOutcomes(parse, u, e);
      StaysDestroyed(parse, u, e);
      hide Step, Enabled, Inv;
    }
  }

  lemma StaysDestroyed(parse: string -> Frame, s: State, e: Event)
    requires Inv(s) && Enabled(s, e) && s.destroyed && s.sock.None?
    ensures var t := Step(parse, s, e); t.destroyed && t.sock.None? && t.made == s.made
  {
    if e.Data? {
      FramesKeep(parse, s, Lines(s.recvBuf + e.chunk).0);
      hide DispatchAll, Lines;
    }
  }

  // ---- how a command ends

  /** What an event means for a command that is pending; None if nothing. */
  function Ending(parse: string -> Frame, s: State, e: Event, id: Id): Option<Outcome> {
    match e
    case Data(_, chunk) => FirstResponse(parse, Lines(s.recvBuf + chunk).0, id)
    case TimerFires(other) => if other == id then Some(Rejected(Timeout)) else None
    case WriteFails(other) => if other == id then Some(Rejected(WriteFailed)) else None
    case SocketError(_) => Some(Rejected(SocketFailed))
    case SocketClose(_) => Some(Rejected(SocketFailed))
    case Destroy => Some(Rejected(Destroyed))
    case _ => None
  }

  lemma StepEnds(parse: string -> Frame, s: State, e: Event, id: Id)
    requires Commands(s) && Enabled(s, e) && id in s.pending
    ensures var t, o := Step(parse, s, e), Ending(parse, s, e, id);
      && (id in t.pending <==> o.None?)
      && (id !in s.outcome ==> (if o.Some? then id in t.outcome && t.outcome[id] == o.value else id !in t.outcome))
  {
    if e.Data? {
      LinesSettle(parse, s, Lines(s.recvBuf + e.chunk).0, id);
      hide DispatchAll, Lines, FirstResponse;
    }
  }

  /** What the first event of `rest` says that means anything for the command, `rest` coming after `before`. */
  function FirstEnding(parse: string -> Frame, before: seq<Event>, rest: seq<Event>, id: Id): Option<Outcome>
    decreases |rest|
  {
    if rest == [] then None
    else
      var n := |rest| - 1;
      match FirstEnding(parse, before, rest[..n], id)
      case Some(o) => Some(o)
      case None =>
        match After(parse, before + rest[..n])
        case None => None
        case Some(s) => Ending(parse, s, rest[n], id)
  }

  /**
   The whole life of a command from its registration on: it is pending, with its timeout armed, as
   long as nothing has come for it; and then its outcome is what came first. Its own response, its
   timeout, its failed write, the failure or end of any socket, and `destroy` are all that count.
   */
  lemma {:induction false} CommandEnds(parse: string -> Frame, before: seq<Event>, rest: seq<Event>, id: Id)
    requires Run(parse, before + [Register(id)] + rest)
    ensures Run(parse, before)
    ensures var s, t := After(parse, before).value, After(parse, before + [Register(id)] + rest).value;
      var o := FirstEnding(parse, before + [Register(id)], rest, id);
      && (id in t.pending) == (id in t.timers) == o.None?
      && (s.sock.Some? ==> (if o.Some? then id in t.outcome && t.outcome[id] == o.value else id !in t.outcome))
      && (s.sock.None? ==> id in t.outcome && t.outcome[id] == Rejected(NoSocket))
    decreases |rest|
  {
    hide After, Step, Enabled, Ending, Inv, FirstEnding;
    var all := before + [Register(id)] + rest;
    EveryRunKeeps(parse, all);
    TimedWhilePending(After(parse, all).value);
    if rest == [] {
      assert all == before + [Register(id)];
      LastEvent(parse, before, Register(id));
      EveryRunKeeps(parse, before);
      JustRegistered(parse, After(parse, before).value, id);
      EndingsSoFar(parse, before + [Register(id)], rest, id);
    } else {
      var n := |rest| - 1;
      var init := before + [Register(id)] + rest[..n];
      assert all == init + [rest[n]];
      LastEvent(parse, init, rest[n]);
      CommandEnds(parse, before, rest[..n], id);
      EveryRunKeeps(parse, init);
      EndsOrEnded(parse, After(parse, init).value, rest[n], id);
      EndingsSoFar(parse, before + [Register(id)], rest, id);
    }
  }

  lemma TimedWhilePending(s: State)
    requires Inv(s)
    ensures s.timers == s.pending
  {
  }

  lemma EndingsSoFar(parse: string -> Frame, before: seq<Event>, rest: seq<Event>, id: Id)
    ensures rest == [] ==> FirstEnding(parse, before, rest, id) == None
    ensures rest != [] && Run(parse, before + rest[..|rest| - 1]) ==>
      FirstEnding(parse, before, rest, id)
      == match FirstEnding(parse, before, rest[..|rest| - 1], id)
         case Some(o) => Some(o)
         case None => Ending(parse, After(parse, before + rest[..|rest| - 1]).value, rest[|rest| - 1], id)
  {
    hide After, Ending;
  }

  lemma JustRegistered(parse: string -> Frame, s: State, id: Id)
    requires Inv(s) && Enabled(s, Register(id))
    ensures var t := Step(parse, s, Register(id));
      && id in t.pending
      && (s.sock.Some? ==> id !in t.outcome)
      && (s.sock.None? ==> id in t.outcome && t.outcome[id] == Rejected(NoSocket))
  {
  }

  /** One event for a command that has been registered. */
  lemma EndsOrEnded(parse: string -> Frame, s: State, e: Event, id: Id)
    requires Inv(s) && Enabled(s, e) && (id in s.pending || id in s.outcome)
    ensures var t, o := Step(parse, s, e), Ending(parse, s, e, id);
      && (id in s.pending ==> (id in t.pending <==> o.None?))
      && (id in s.outcome ==> id in t.outcome && t.outcome[id] == s.outcome[id])
      && (id in s.pending && id !in s.outcome ==>
            (if o.Some? then id in t.outcome && t.outcome[id] == o.value else id !in t.outcome))
      && (id !in s.pending ==> id !in t.pending)
  {
    StepKeepsOutcomes(parse, s, e);
    if id in s.pending {
      StepEnds(parse, s, e, id);
    } else if e.Data? {
      FramesOnlyDrop(parse, s, Lines(s.recvBuf + e.chunk).0);
      hide DispatchAll, Lines, FirstResponse;
    }
  }

  /**
   When a socket fails or closes, or the client is destroyed, no command is left pending and no
   timeout armed: every pending command that had no outcome is rejected with the reason, and no
   other command is touched. A socket that fails, or that is there when the client is destroyed, is
   destroyed.
   */
  lemma FailureSettles(parse: string -> Frame, before: seq<Event>, e: Event)
    requires Run(parse, before + [e]) && (e.SocketError? || e.SocketClose? || e.Destroy?)
    ensures Run(parse, before)
    ensures var s, t := After(parse, before).value, After(parse, before + [e]).value;
      && t.pending == {} && t.timers == {} && t.waiting == s.waiting
      && t.outcome.Keys == s.outcome.Keys + s.pending && Kept(s.outcome, t.outcome)
      && (e.SocketError? ==> e.socket in t.torn) && (e.Destroy? && s.sock.Some? ==> s.sock.value in t.torn)
      && forall id :: id in s.pending - s.outcome.Keys ==>
           t.outcome[id] == Rejected(if e.Destroy? then Destroyed else SocketFailed)
  {
    LastEvent(parse, before, e);
    EveryRunKeeps(parse, before);
  }

  /** A pending command was registered after the last failure or end of a socket. */
  lemma {:induction false} RegisteredSince(parse: string -> Frame, run: seq<Event>, id: Id) returns (m: nat)
    requires Run(parse, run) && id in After(parse, run).value.pending
    ensures m < |run| && run[m] == Register(id)
    ensures forall j :: m < j < |run| ==> !run[j].SocketError? && !run[j].SocketClose? && !run[j].Destroy?
    decreases |run|
  {
    assert run != [];
    var n := |run| - 1;
    assert run == run[..n] + [run[n]];
    if run[n] == Register(id) {
      m := n;
    } else {
      var s := After(parse, run[..n]).value;
      EveryRunKeeps(parse, run[..n]);
      OnlyRegistered(parse, s, run[n], id);
      m := RegisteredSince(parse, run[..n], id);
      StepEnds(parse, s, run[n], id);
    }
  }

  lemma OnlyRegistered(parse: string -> Frame, s: State, e: Event, id: Id)
    requires Enabled(s, e) && id in Step(parse, s, e).pending && e != Register(id)
    ensures id in s.pending
  {
    if e.Data? {
      FramesOnlyDrop(parse, s, Lines(s.recvBuf + e.chunk).0);
      hide DispatchAll, Lines;
    }
  }

  /** A command that was never registered: it came after `destroy`, or gave up waiting for a socket. */
  lemma {:induction false} UnregisteredOutcome(parse: string -> Frame, run: seq<Event>, id: Id)
    requires Run(parse, run) && Register(id) !in run && id in After(parse, run).value.outcome
    ensures After(parse, run).value.outcome[id] == Rejected(if GiveUp(id) in run then NotConnected else Destroyed)
    decreases |run|
  {
    assert run != [];
    var n := |run| - 1;
    assert run == run[..n] + [run[n]];
    var s := After(parse, run[..n]).value;
    EveryRunKeeps(parse, run[..n]);
    NeverPending(parse, run[..n], id);
    StepKeepsOutcomes(parse, s, run[n]);
    if id in s.outcome {
      UnregisteredOutcome(parse, run[..n], id);
    } else {
      SettledUnregistered(parse, s, run[n], id);
      if GiveUp(id) in run[..n] {
        GaveUp(parse, run[..n], id);
      }
    }
  }

  lemma SettledUnregistered(parse: string -> Frame, s: State, e: Event, id: Id)
    requires Inv(s) && Enabled(s, e) && id !in s.pending + s.written && e != Register(id)
    requires id !in s.outcome && id in Step(parse, s, e).outcome
    ensures (e == GiveUp(id) && Step(parse, s, e).outcome[id] == Rejected(NotConnected))
         || (e == Begin(id) && Step(parse, s, e).outcome[id] == Rejected(Destroyed))
  {
    if e.Data? {
      LinesSettle(parse, s, Lines(s.recvBuf + e.chunk).0, id);
      hide DispatchAll, Lines, FirstResponse;
    }
  }

  lemma {:induction false} NeverPending(parse: string -> Frame, run: seq<Event>, id: Id)
    requires Run(parse, run) && Register(id) !in run
    ensures id !in After(parse, run).value.pending + After(parse, run).value.written
    decreases |run|
  {
    if run != [] {
      var n := |run| - 1;
      var s := After(parse, run[..n]).value;
      assert run == run[..n] + [run[n]];
      NeverPending(parse, run[..n], id);
      EveryRunKeeps(parse, run[..n]);
      if id in Step(parse, s, run[n]).pending {
        OnlyRegistered(parse, s, run[n], id);
      }
      WrittenKept(parse, s, run[n], id);
    }
  }

  lemma WrittenKept(parse: string -> Frame, s: State, e: Event, id: Id)
    requires Enabled(s, e) && e != Register(id) && Commands(s)
    ensures id in Step(parse, s, e).written <==> id in s.written
  {
    if e.Data? {
      FramesKeep(parse, s, Lines(s.recvBuf + e.chunk).0);
      hide DispatchAll, Lines;
    }
  }

  lemma {:induction false} GaveUp(parse: string -> Frame, run: seq<Event>, id: Id)
    requires Run(parse, run) && GiveUp(id) in run
    ensures id in After(parse, run).value.outcome
    decreases |run|
  {
    var n := |run| - 1;
    var s := After(parse, run[..n]).value;
    assert run == run[..n] + [run[n]];
    StepKeepsOutcomes(parse, s, run[n]);
    if run[n] != GiveUp(id) {
      GaveUp(parse, run[..n], id);
    }
  }

  // ---- what a reconnect leaves in the buffer

  /** The lines that a data event hands to `dispatchFrame`. */
  function Dispatched(s: State, chunk: string): seq<string> {
    Lines(s.recvBuf + chunk).0
  }

  predicate NoData(run: seq<Event>) {
    forall k :: 0 <= k < |run| ==> !run[k].Data?
  }

  lemma StepKeepsBuffer(parse: string -> Frame, s: State, e: Event)
    requires Enabled(s, e) && !e.Data?
    ensures Step(parse, s, e).recvBuf == s.recvBuf
  {
  }

  lemma {:induction false} BufferKept(parse: string -> Frame, a: seq<Event>, b: seq<Event>)
    requires Run(parse, a + b) && NoData(b)
    ensures Run(parse, a) && After(parse, a + b).value.recvBuf == After(parse, a).value.recvBuf
    decreases |b|
  {
    RunPrefix(parse, a, b);
    if b == [] {
      assert a + b == a;
    } else {
      var init := b[..|b| - 1];
      assert (a + b)[..|a + b| - 1] == a + init && (a + b)[|a + b| - 1] == b[|b| - 1];
      BufferKept(parse, a, init);
      StepKeepsBuffer(parse, After(parse, a + init).value, b[|b| - 1]);
      hide Step, Enabled;
    }
  }

  lemma DeadStaysDead(parse: string -> Frame, s: State, e: Event, j: nat)
    requires Commands(s) && Enabled(s, e) && j < s.made && !Live(s, j)
    ensures j < Step(parse, s, e).made && !Live(Step(parse, s, e), j)
  {
    if e.Data? {
      FramesKeep(parse, s, Lines(s.recvBuf + e.chunk).0);
      hide DispatchAll, Lines;
    }
    hide Commands, RejectAll;
  }

  lemma {:induction false} DeadAllAlong(parse: string -> Frame, a: seq<Event>, b: seq<Event>, j: nat)
    requires Run(parse, a + b) && Run(parse, a) && j < After(parse, a).value.made && !Live(After(parse, a).value, j)
    ensures j < After(parse, a + b).value.made && !Live(After(parse, a + b).value, j)
    decreases |b|
  {
    if b == [] {
      assert a + b == a;
    } else {
      var init := b[..|b| - 1];
      assert (a + b)[..|a + b| - 1] == a + init && (a + b)[|a + b| - 1] == b[|b| - 1];
      RunPrefix(parse, a + init, [b[|b| - 1]]);
      assert a + init + [b[|b| - 1]] == a + b;
      DeadAllAlong(parse, a, init, j);
      EveryRunKeeps(parse, a + init);
      DeadStaysDead(parse, After(parse, a + init).value, b[|b| - 1], j);
      hide Step, Enabled, Live;
    }
  }

  /** The current socket fails or is closed. */
  predicate Fails(s: State, e: Event) {
    (e.SocketError? || e.SocketClose?) && s.sock == Some(e.socket)
  }

  /**
   A connection fails, and after anything but data the next data event comes. It is on a new
   connection, but what the old one had left over of a line is still in the buffer: the lines
   dispatched are the new connection's own exactly if nothing was left over, or the data has no
   newline.
   */
  lemma LeftoverSpoilsFirstLine(parse: string -> Frame, before: seq<Event>, fail: Event, mid: seq<Event>,
                                k: nat, chunk: string)
    requires Run(parse, before + [fail] + mid + [Data(k, chunk)]) && NoData(mid)
    requires Run(parse, before) && Fails(After(parse, before).value, fail)
    ensures Run(parse, before + [fail] + mid)
    ensures var left, now := After(parse, before).value.recvBuf, After(parse, before + [fail] + mid).value;
      && k >= After(parse, before).value.made
      && (Dispatched(now, chunk) == Lines(chunk).0 <==> left == "" || '\n' !in chunk)
  {
    hide After, Inv, Enabled, Step;
    var run := before + [fail] + mid;
    RunPrefix(parse, run, [Data(k, chunk)]);
    assert run == before + ([fail] + mid);
    BufferKept(parse, before, [fail] + mid);
    RestHasNoNewline(parse, before);
    SpoiltLines(After(parse, before).value.recvBuf, chunk);
    NewSocket(parse, before, fail, mid, k, chunk);
    hide Lines;
  }

  lemma NewSocket(parse: string -> Frame, before: seq<Event>, fail: Event, mid: seq<Event>, k: nat, chunk: string)
    requires Run(parse, before + [fail] + mid + [Data(k, chunk)])
    requires Run(parse, before) && Fails(After(parse, before).value, fail)
    ensures k >= After(parse, before).value.made
  {
    var run := before + [fail] + mid;
    LastEvent(parse, run, Data(k, chunk));
    RunPrefix(parse, before + [fail], mid);
    LastEvent(parse, before, fail);
    EveryRunKeeps(parse, before);
    hide After, Inv, Step;
    var s := After(parse, before).value;
    if k < s.made {
      AllDead(parse, s, fail, k);
      DeadAllAlong(parse, before + [fail], mid, k);
    }
  }

  lemma AllDead(parse: string -> Frame, s: State, fail: Event, j: nat)
    requires Inv(s) && Enabled(s, fail) && Fails(s, fail) && j < s.made
    ensures j < Step(parse, s, fail).made && !Live(Step(parse, s, fail), j)
  {
    hide Commands, RejectAll;
    assert !s.destroyed;
    assert Live(s, j) ==> j == fail.socket;
  }

  /** Between events the buffer holds no complete line. */
  lemma {:induction false} RestHasNoNewline(parse: string -> Frame, run: seq<Event>)
    requires Run(parse, run)
    ensures '\n' !in After(parse, run).value.recvBuf
    decreases |run|
  {
    if run != [] {
      var init, e := run[..|run| - 1], run[|run| - 1];
      RestHasNoNewline(parse, init);
      if !e.Data? {
        StepKeepsBuffer(parse, After(parse, init).value, e);
      } else {
        EveryRunKeeps(parse, init);
        FramesKeep(parse, After(parse, init).value, Lines(After(parse, init).value.recvBuf + e.chunk).0);
        hide DispatchAll;
      }
      hide Enabled;
    }
  }

  /** Everything received in a run, over all its connections. */
  function Received(run: seq<Event>): string {
    if run == [] then ""
    else Received(run[..|run| - 1]) + if run[|run| - 1].Data? then run[|run| - 1].chunk else ""
  }

  /** The buffer holds what follows the last newline of all that was ever received. */
  lemma {:induction false} BufferIsRest(parse: string -> Frame, run: seq<Event>)
    requires Run(parse, run)
    ensures After(parse, run).value.recvBuf == Lines(Received(run)).1
    decreases |run|
  {
    if run == [] {
      NoLine("");
    } else {
      var init, e := run[..|run| - 1], run[|run| - 1];
      var s := After(parse, init).value;
      BufferIsRest(parse, init);
      if !e.Data? {
        StepKeepsBuffer(parse, s, e);
        assert Received(init) + "" == Received(init);
      } else {
        LinesOfSum(Received(init), e.chunk);
      }
      hide Enabled, DispatchAll, Lines;
    }
  }

  /**
   Data makes the client tear its socket exactly if more than 65536 characters have then come since
   the last newline on any connection, what earlier connections left over included.
   */
  lemma OverflowIff(parse: string -> Frame, run: seq<Event>, k: nat, chunk: string)
    requires Run(parse, run + [Data(k, chunk)])
    ensures Run(parse, run)
    ensures k in After(parse, run + [Data(k, chunk)]).value.torn <==> |Lines(Received(run + [Data(k, chunk)])).1| > 65536
  {
    var all := run + [Data(k, chunk)];
    assert all[..|all| - 1] == run;
    BufferIsRest(parse, all);
    EveryRunKeeps(parse, run);
    LastEvent(parse, run, Data(k, chunk));
    var s := After(parse, run).value;
    FramesKeep(parse, s, Lines(s.recvBuf + chunk).0);
    hide After, DispatchAll, Lines, Received;
  }

  /** The connection closes and is made again, and a command is sent on it. */
  function Reconnected(left: string, id: Id): seq<Event> {
    [Data(0, left), SocketClose(0), ReconnectTimer, Begin(id), Register(id)]
  }

  /**
   A command lost to it: its response comes on the new connection, behind a leftover of the old
   one, and is not recognised. The command is still pending; without the leftover it is settled.
   */
  lemma ResponseLost(parse: string -> Frame, left: string, line: string, id: Id, value: string)
    requires '\n' !in left && '\n' !in line && |left| <= OVERFLOW
    requires parse(line) == Response(id, true, value) && parse(left + line) == BadJson
    ensures var lost, got := Reconnected(left, id) + [Data(1, line + "\n")], Reconnected("", id) + [Data(1, line + "\n")];
      && Run(parse, lost) && id in After(parse, lost).value.pending && id !in After(parse, lost).value.outcome
      && Run(parse, got) && id !in After(parse, got).value.pending
      && After(parse, got).value.outcome == map[id := Resolved(value)]
  {
    hide After, Lines, Reconnected, Newline;
    AfterReconnect(parse, left, id);
    AfterReconnect(parse, "", id);
    assert left + (line + "\n") == (left + line) + "\n" && "" + (line + "\n") == line + "\n";
    OneLine(left + line);
    OneLine(line);
    var data := Data(1, line + "\n");
    LastEvent(parse, Reconnected(left, id), data);
    LastEvent(parse, Reconnected("", id), data);
    OneDispatched(parse, After(parse, Reconnected(left, id)).value, left + line);
    OneDispatched(parse, After(parse, Reconnected("", id)).value, line);
    hide DispatchAll;
    assert map[][id := Resolved(value)] == map[id := Resolved(value)];
  }

  lemma OneDispatched(parse: string -> Frame, s: State, line: string)
    ensures DispatchAll(parse, s, [line]) == DispatchFrame(s, parse(line))
  {
    assert [line][..0] == [];
    assert DispatchAll(parse, s, []) == s;
  }

  lemma OneLine(s: string)
    requires '\n' !in s
    ensures Lines(s + "\n") == ([s], "")
  {
    NewlineThere(s);
    NewlineOfSum(s, "\n");
    assert (s + "\n")[..|s|] == s && (s + "\n")[|s| + 1..] == "";
    LineOff(s + "\n");
    NoLine("");
    assert [s] + [] == [s];
  }

  lemma LastEvent(parse: string -> Frame, run: seq<Event>, e: Event)
    ensures After(parse, run + [e])
         == match After(parse, run)
            case None => None
            case Some(s) => if Enabled(s, e) then Some(Step(parse, s, e)) else None
  {
    assert (run + [e])[..|run|] == run;
    hide Step, Enabled;
  }

  lemma AfterReconnect(parse: string -> Frame, left: string, id: Id)
    requires '\n' !in left && |left| <= OVERFLOW
    ensures After(parse, Reconnected(left, id))
         == Some(State(Some(1), 2, {}, {}, {0}, left, {}, {id}, {id}, {id}, map[], false, 0))
  {
    NewlineThere(left);
    NoLine(left);
    assert "" + left == left;
    var run := Reconnected(left, id);
    assert run == [] + [Data(0, left)] + [SocketClose(0)] + [ReconnectTimer] + [Begin(id)] + [Register(id)];
    var s0 := Initial();
    assert After(parse, []) == Some(s0);
    LastEvent(parse, [], Data(0, left));
    LastEvent(parse, [] + [Data(0, left)], SocketClose(0));
    LastEvent(parse, [] + [Data(0, left)] + [SocketClose(0)], ReconnectTimer);
    LastEvent(parse, [] + [Data(0, left)] + [SocketClose(0)] + [ReconnectTimer], Begin(id));
    LastEvent(parse, [] + [Data(0, left)] + [SocketClose(0)] + [ReconnectTimer] + [Begin(id)], Register(id));
    hide After, Lines, Reconnected;
    var s1 := s0.(recvBuf := left);
    assert OnData(parse, s0, 0, left) == s1;
    var s2 := State(None, 1, {}, {}, {0}, left, {}, {}, {}, {}, map[], false, 1);
    assert RejectAll(map[], {}, SocketFailed) == map[];
    assert OnClose(s1, 0) == s2;
    var s3 := State(Some(1), 2, {}, {}, {0}, left, {}, {}, {}, {}, map[], false, 0);
    assert Connect(s2.(reconnects := 0)) == s3;
    var s4 := s3.(waiting := {id});
    assert Step(parse, s3, Begin(id)) == s4;
    assert OnRegister(s4, id) == State(Some(1), 2, {}, {}, {0}, left, {}, {id}, {id}, {id}, map[], false, 0);
  }

  // ---- the client as it runs

  class Mt5CommandClient {
    const parse: string -> Frame
    var sock: Option<nat>
    var made: nat
    var errored: set<nat>
    var torn: set<nat>
    var closed: set<nat>
    var recvBuf: string
    var waiting: set<Id>
    var pending: set<Id>
    var timers: set<Id>
    var written: set<Id>
    var outcome: map<Id, Outcome>
    var destroyed: bool
    var reconnects: nat

    function Value(): State
      reads this
    {
      State(sock, made, errored, torn, closed, recvBuf, waiting, pending, timers, written,
            outcome, destroyed, reconnects)
    }

    constructor (parse: string -> Frame)
      ensures Value() == Initial() && this.parse == parse
    {
      this.parse := parse;
      sock, made, errored, torn, closed, recvBuf := None, 0, {}, {}, {}, "";
      waiting, pending, timers, written, outcome := {}, {}, {}, {}, map[];
      destroyed, reconnects := false, 0;
      new;
      OpenSocket();
    }

    method OpenSocket()
      modifies `sock, `made
      ensures Value() == Connect(old(Value()))
    {
      if destroyed {
        return;
      }
      sock, made := Some(made), made + 1;
    }

    method ArmReconnect()
      modifies `reconnects
      ensures Value() == ScheduleReconnect(old(Value()))
    {
      if !destroyed {
        reconnects := reconnects + 1;
      }
    }

    method Reject(id: Id, why: Reason)
      modifies `outcome
      ensures Value() == Settle(old(Value()), id, Rejected(why))
    {
      if id !in outcome {
        outcome := outcome[id := Rejected(why)];
      }
    }

    method Remove(id: Id)
      modifies `pending, `timers
      ensures Value() == Drop(old(Value()), id)
    {
      pending, timers := pending - {id}, timers - {id};
    }

    method RejectPending(why: Reason)
      modifies `pending, `timers, `outcome
      ensures Value() == FailPending(old(Value()), why)
    {
      var left := pending;
      ghost var s := Value();
      while left != {}
        invariant left <= pending == s.pending
        invariant timers == s.timers - (pending - left)
        invariant outcome == RejectAll(s.outcome, pending - left, why)
      {
        var id :| id in left;
        left := left - {id};
        timers := timers - {id};
        if id !in outcome {
          outcome := outcome[id := Rejected(why)];
        }
      }
      assert pending - left == s.pending;
      pending := {};
    }

    method Dispatch(id: Id)
      requires Enabled(Value(), Begin(id))
      modifies this
      ensures Value() == Step(parse, old(Value()), Begin(id))
    {
      if destroyed {
        Reject(id, Destroyed);
      } else {
        waiting := waiting + {id};
      }
    }

    method ConnectTimeout(id: Id)
      requires Enabled(Value(), GiveUp(id))
      modifies this
      ensures Value() == Step(parse, old(Value()), GiveUp(id))
    {
      waiting := waiting - {id};
      Reject(id, NotConnected);
    }

    /** The promise's executor: the map entry and the timer come first, then the write. */
    method RegisterAndWrite(id: Id)
      requires Enabled(Value(), Register(id))
      modifies this
      ensures Value() == Step(parse, old(Value()), Register(id))
    {
      waiting := waiting - {id};
      timers := timers + {id};
      pending := pending + {id};
      if sock.None? {
        Reject(id, NoSocket);
      } else {
        written := written + {id};
      }
    }

    method OnTimer(id: Id)
      requires Enabled(Value(), TimerFires(id))
      modifies this
      ensures Value() == Step(parse, old(Value()), TimerFires(id))
    {
      Remove(id);
      Reject(id, Timeout);
    }

    method OnWriteError(id: Id)
      requires Enabled(Value(), WriteFails(id))
      modifies this
      ensures Value() == Step(parse, old(Value()), WriteFails(id))
    {
      Remove(id);
      Reject(id, WriteFailed);
    }

    method HandleFrame(line: string)
      modifies `pending, `timers, `outcome
      ensures Value() == DispatchFrame(old(Value()), parse(line))
    {
      match parse(line)
      case Response(id, ok, value) =>
        if id in pending {
          Remove(id);
          if id !in outcome {
            outcome := outcome[id := if ok then Resolved(value) else Rejected(Failed(value))];
          }
        }
      case _ =>
    }

    /** The data handler: takes complete lines off the buffer while there are any. */
    method OnChunk(k: nat, chunk: string)
      requires Enabled(Value(), Data(k, chunk))
      modifies this
      ensures Value() == Step(parse, old(Value()), Data(k, chunk))
    {
      hide Lines, Newline, DispatchFrame;
      ghost var s := Value();
      ghost var all := recvBuf + chunk;
      recvBuf := recvBuf + chunk;
      ghost var done: seq<string> := [];
      assert done + Lines(recvBuf).0 == Lines(all).0;
      var idx := Newline(recvBuf);
      while idx < |recvBuf|
        invariant idx == Newline(recvBuf)
        invariant Lines(all) == (done + Lines(recvBuf).0, Lines(recvBuf).1)
        invariant Value() == DispatchAll(parse, s, done).(recvBuf := recvBuf)
        decreases |recvBuf|
      {
        var line := recvBuf[..idx];
        TakeLine(parse, s, done, recvBuf);
        recvBuf := recvBuf[idx + 1..];
        BufferAside(DispatchAll(parse, s, done), parse(line), recvBuf);
        HandleFrame(line);
        done := done + [line];
        idx := Newline(recvBuf);
      }
      NoLine(recvBuf);
      assert done + [] == done;
      if |recvBuf| > OVERFLOW {
        torn := torn + {k};
      }
    }

    method OnSocketError(k: nat)
      requires Enabled(Value(), SocketError(k))
      modifies this
      ensures Value() == Step(parse, old(Value()), SocketError(k))
    {
      errored := errored + {k};
      RejectPending(SocketFailed);
      torn := torn + {k};
      sock := None;
      ArmReconnect();
    }

    method OnSocketClose(k: nat)
      requires Enabled(Value(), SocketClose(k))
      modifies this
      ensures Value() == Step(parse, old(Value()), SocketClose(k))
    {
      closed := closed + {k};
      RejectPending(SocketFailed);
      if k in errored || destroyed {
        return;
      }
      sock := None;
      ArmReconnect();
    }

    method OnReconnectTimer()
      requires Enabled(Value(), ReconnectTimer)
      modifies this
      ensures Value() == Step(parse, old(Value()), ReconnectTimer)
    {
      reconnects := reconnects - 1;
      if !destroyed {
        OpenSocket();
      }
    }

    method DestroyClient()
      modifies this
      ensures Value() == Step(parse, old(Value()), Event.Destroy)
    {
      destroyed := true;
      RejectPending(Destroyed);
      if sock.Some? {
        torn := torn + {sock.value};
        sock := None;
      }
    }
  }

  lemma TakeLine(parse: string -> Frame, s: State, done: seq<string>, buf: string)
    requires Newline(buf) < |buf|
    ensures var i := Newline(buf);
      && Lines(buf) == ([buf[..i]] + Lines(buf[i + 1..]).0, Lines(buf[i + 1..]).1)
      && done + Lines(buf).0 == (done + [buf[..i]]) + Lines(buf[i + 1..]).0
      && DispatchAll(parse, s, done + [buf[..i]]) == DispatchFrame(DispatchAll(parse, s, done), parse(buf[..i]))
  {
    var line := buf[..Newline(buf)];
    assert (done + [line])[..|done|] == done;
  }

  /** What a line settles has nothing to do with what is in the buffer. */
  lemma BufferAside(s: State, f: Frame, buf: string)
    ensures DispatchFrame(s.(recvBuf := buf), f) == DispatchFrame(s, f).(recvBuf := buf)
  {
  }
}
