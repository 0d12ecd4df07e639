/**
 The rewinding handlers over the receive queue. The message type has been read already; each
 `goback` adds up what has been read since, so that a wait restores the queue to the type byte.
 */
module MessageHandlers {
  import opened Bytes
  import opened ReceiveQueue
  import opened MessageParsing

  /**
   Waiting: the handler returned false with the message put back. Thrown: an exception, a failed
   connection, or a read past what was waited for.
   */
  datatype Reply<+T> = Waiting | Thrown | Got(value: T)

  /** `read` bytes have been read of a message that began at index `start`; `u` is all there is of it. */
  ghost predicate InMessage(sock: Websock, u: seq<Byte>, start: nat, read: nat)
    reads sock, sock.rQ
  {
    && sock.Valid() && sock.mark <= start && sock.rQi == start + read && read <= |u|
    && sock.rQ[start..sock.rQlen] == u
  }

  /** The message behind a type byte that has just been read. */
  ghost function AfterType(sock: Websock): seq<Byte>
    requires sock.Valid() && sock.mark < sock.rQi
    reads sock, sock.rQ
  {
    sock.rQ[sock.rQi - 1..sock.rQlen]
  }

  lemma UnreadOfMessage(sock: Websock, u: seq<Byte>, start: nat, read: nat)
    requires InMessage(sock, u, start, read)
    ensures sock.Unread() == u[read..]
  {
    assert sock.rQ[sock.rQi..sock.rQlen] == sock.rQ[start..sock.rQlen][read..];
  }

  /**
   What a handler may have done. All of it: the value is read and the queue is behind the
   message. Nothing: the queue is back at the type byte.
   */
  ghost predicate AllOrNothing<T>(sock: Websock, u: seq<Byte>, start: nat, p: Parsed<T>, r: Reply<T>)
    requires p.Message? ==> p.used <= |u|
    reads sock, sock.rQ
  {
    match p
    case More => r == Waiting && InMessage(sock, u, start, 0)
    case Bad => r == Thrown
    case Message(value, used) => r == Got(value) && InMessage(sock, u, start, used)
  }

  /** `rQwait` with the whole of what has been read as `goback`: it cannot throw, and it rewinds exactly. */
  method WaitFor(sock: Websock, num: nat, goback: nat, ghost u: seq<Byte>, ghost start: nat) returns (ready: bool)
    requires InMessage(sock, u, start, goback)
    modifies sock`rQi
    ensures ready <==> |u| >= goback + num
    ensures InMessage(sock, u, start, if ready then goback else 0)
  {
    UnreadOfMessage(sock, u, start, goback);
    var w := sock.RQwait(num, goback);
    ready := w == Ready;
  }

  method TakeBytes(sock: Websock, n: nat, ghost u: seq<Byte>, ghost start: nat, ghost read: nat) returns (s: seq<Byte>)
    requires InMessage(sock, u, start, read) && read + n <= |u|
    modifies sock`rQi
    ensures InMessage(sock, u, start, read + n) && s == u[read..read + n]
  {
    UnreadOfMessage(sock, u, start, read);
    s := sock.RQshiftStr(n);
  }

  method TakeByte(sock: Websock, ghost u: seq<Byte>, ghost start: nat, ghost read: nat) returns (n: nat)
    requires InMessage(sock, u, start, read) && read + 1 <= |u|
    modifies sock`rQi
    ensures InMessage(sock, u, start, read + 1) && n == u[read]
  {
    var s := TakeBytes(sock, 1, u, start, read);
    n := s[0];
  }

  method Take16(sock: Websock, ghost u: seq<Byte>, ghost start: nat, ghost read: nat) returns (n: nat)
    requires InMessage(sock, u, start, read) && read + 2 <= |u|
    modifies sock`rQi
    ensures InMessage(sock, u, start, read + 2) && n == Int16(u, read)
  {
    UnreadOfMessage(sock, u, start, read);
    assert u[read..][..2] == u[read..read + 2];
    n := sock.RQshift(2);
  }

  method Take32(sock: Websock, ghost u: seq<Byte>, ghost start: nat, ghost read: nat) returns (n: int)
    requires InMessage(sock, u, start, read) && read + 4 <= |u|
    modifies sock`rQi
    ensures InMessage(sock, u, start, read + 4) && n == Int32(u, read)
  {
    UnreadOfMessage(sock, u, start, read);
    assert u[read..][..4] == u[read..read + 4];
    n := sock.RQshift(4);
  }

  method Skip(sock: Websock, n: nat, ghost u: seq<Byte>, ghost start: nat, ghost read: nat)
    requires InMessage(sock, u, start, read) && read + n <= |u|
    modifies sock`rQi
    ensures InMessage(sock, u, start, read + n)
  {
    UnreadOfMessage(sock, u, start, read);
    sock.RQskipBytes(n);
  }

  method HandleUdpUpgrade(sock: Websock) returns (r: Reply<seq<Byte>>)
    requires sock.Valid() && sock.mark < sock.rQi
    modifies sock`rQi
    ensures AllOrNothing(sock, old(AfterType(sock)), old(sock.rQi) - 1, UdpUpgrade(old(AfterType(sock))), r)
  {
    ghost var u, start := AfterType(sock), sock.rQi - 1;
    var ready := WaitFor(sock, 2, 1, u, start);
    if !ready {
      return Waiting;
    }
    var len := Take16(sock, u, start, 1);
    ready := WaitFor(sock, len, 3, u, start);
    if !ready {
      return Waiting;
    }
    var payload := TakeBytes(sock, len, u, start, 3);
    return Got(payload);
  }

  method HandleSubscribeUnixRelay(sock: Websock) returns (r: Reply<Subscription>)
    requires sock.Valid() && sock.mark < sock.rQi
    modifies sock`rQi
    ensures AllOrNothing(sock, old(AfterType(sock)), old(sock.rQi) - 1, SubscribeUnixRelay(old(AfterType(sock))), r)
  {
    ghost var u, start := AfterType(sock), sock.rQi - 1;
    var ready := WaitFor(sock, 2, 1, u, start);
    if !ready {
      return Waiting;
    }
    var status := TakeByte(sock, u, start, 1);
    var len := TakeByte(sock, u, start, 2);
    ready := WaitFor(sock, len, 3, u, start);
    if !ready {
      return Waiting;
    }
    var payload := TakeBytes(sock, len, u, start, 3);
    return Got(Subscription(status != 0, payload));
  }

  method HandleUnixRelay(sock: Websock) returns (r: Reply<Relay>)
    requires sock.Valid() && sock.mark < sock.rQi
    modifies sock`rQi
    ensures AllOrNothing(sock, old(AfterType(sock)), old(sock.rQi) - 1, UnixRelay(old(AfterType(sock))), r)
  {
    ghost var u, start := AfterType(sock), sock.rQi - 1;
    assert InMessage(sock, u, start, 1);
    hide InMessage, Int32;
    var name := ReadRelayName(sock, u, start);
    if name != Waiting {
      var namelen := |name.value|;
      var ready := WaitFor(sock, 4, 2 + namelen, u, start);
      if !ready {
        return Waiting;
      }
      var len := Take32(sock, u, start, 2 + namelen);
      var payload := ReadRelayData(sock, len, 6 + namelen, u, start);
      match payload
      case Waiting => return Waiting;
      case Thrown => return Thrown;
      case Got(data) => return Got(Relay(name.value, data));
    }
    return Waiting;
  }

  method ReadRelayName(sock: Websock, ghost u: seq<Byte>, ghost start: nat) returns (r: Reply<seq<Byte>>)
    requires InMessage(sock, u, start, 1)
    modifies sock`rQi
    ensures if |u| < 2 then r == Waiting && InMessage(sock, u, start, 0)
            else
              var n := u[1] as nat;
              if |u| < 2 + n then r == Waiting && InMessage(sock, u, start, 0)
              else r == Got(u[2..2 + n]) && InMessage(sock, u, start, 2 + n)
  {
    hide InMessage;
    var ready := WaitFor(sock, 1, 1, u, start);
    if !ready {
      return Waiting;
    }
    var namelen := TakeByte(sock, u, start, 1);
    ready := WaitFor(sock, namelen, 2, u, start);
    if !ready {
      return Waiting;
    }
    var name := TakeBytes(sock, namelen, u, start, 2);
    return Got(name);
  }

  /** A negative number of bytes is never waited for, and making an array of it throws. */
  method ReadRelayData(sock: Websock, len: int, read: nat, ghost u: seq<Byte>, ghost start: nat)
    returns (r: Reply<seq<Byte>>)
    requires InMessage(sock, u, start, read)
    modifies sock`rQi
    ensures if len < 0 then r == Thrown
            else if |u| < read + len then r == Waiting && InMessage(sock, u, start, 0)
            else r == Got(u[read..read + len]) && InMessage(sock, u, start, read + len)
  {
    if len < 0 {
      return Thrown;
    }
    var ready := WaitFor(sock, len, read, u, start);
    if !ready {
      return Waiting;
    }
    var payload := TakeBytes(sock, len, u, start, read);
    return Got(payload);
  }

  method HandleServerCutText(sock: Websock, viewOnly: bool) returns (r: Reply<CutText>)
    requires sock.Valid() && sock.mark < sock.rQi
    modifies sock`rQi
    ensures AllOrNothing(sock, old(AfterType(sock)), old(sock.rQi) - 1,
                         ServerCutText(old(AfterType(sock)), viewOnly), r)
  {
    ghost var u, start := AfterType(sock), sock.rQi - 1;
    assert InMessage(sock, u, start, 1);
    hide InMessage, BodyRead, Int32;
    var ready := WaitFor(sock, 7, 1, u, start);
    if !ready {
      return Waiting;
    }
    Skip(sock, 3, u, start, 1);
    var length := Take32(sock, u, start, 4);
    ready := WaitFor(sock, Abs(length), 8, u, start);
    if !ready {
      return Waiting;
    }
    if length >= 0 {
      var text := TakeBytes(sock, length, u, start, 8);
      return Got(Plain(text));
    }
    r := ReadExtended(sock, -length, viewOnly, u, start);
  }

  /** The extended form, none of which is waited for again. */
  method ReadExtended(sock: Websock, length: nat, viewOnly: bool, ghost u: seq<Byte>, ghost start: nat)
    returns (r: Reply<CutText>)
    requires InMessage(sock, u, start, 8) && |u| >= 8 + length && Int32(u, 4) + length == 0 < length
    modifies sock`rQi
    ensures AllOrNothing(sock, u, start, ServerCutText(u, viewOnly), r)
  {
    hide InMessage, Int32, Ones, Actions;
    if length < 4 {
      return Thrown;
    }
    var flags := Take32(sock, u, start, 8);
    var formats, actions := flags % 0x1_0000, Actions(flags);
    if actions % 2 == 1 {
      var within := SkipSizes(sock, formats, length - 4, u, start);
      if !within {
        return Thrown;
      }
    } else if actions == 16 {
      if !viewOnly && formats % 2 == 1 {
        Skip(sock, length - 4, u, start, 12);
      }
    } else if actions != 2 && actions != 4 && actions != 8 {
      return Thrown;
    }
    return Got(Extended(flags));
  }

  /** A size for each format in the flags, as long as the body lasts. */
  method SkipSizes(sock: Websock, formats: nat, room: nat, ghost u: seq<Byte>, ghost start: nat) returns (within: bool)
    requires InMessage(sock, u, start, 12) && |u| >= 12 + room
    modifies sock`rQi
    ensures within <==> 4 * Ones(formats, 16) <= room
    ensures within ==> InMessage(sock, u, start, 12 + 4 * Ones(formats, 16))
  {
    hide InMessage;
    var i, read := 0, 0;
    while i <= 15
      invariant 0 <= i <= 16 && read == 4 * Ones(formats, i) <= room
      invariant InMessage(sock, u, start, 12 + read)
    {
      if Bit(formats, i) {
        if read + 4 > room {
          OnesGrow(formats, i + 1, 16);
          return false;
        }
        Skip(sock, 4, u, start, 12 + read);
        read := read + 4;
      }
      i := i + 1;
    }
    return true;
  }

  lemma {:induction false} OnesGrow(x: nat, i: nat, n: nat)
    requires i <= n
    ensures Ones(x, i) <= Ones(x, n)
  {
    if i < n {
      OnesGrow(x, i, n - 1);
    }
  }

  method HandleServerFence(sock: Websock) returns (r: Reply<Fence>)
    requires sock.Valid() && sock.mark < sock.rQi
    modifies sock`rQi
    ensures AllOrNothing(sock, old(AfterType(sock)), old(sock.rQi) - 1, ServerFence(old(AfterType(sock))), r)
  {
    ghost var u, start := AfterType(sock), sock.rQi - 1;
    assert InMessage(sock, u, start, 1);
    hide InMessage, Int32;
    var ready := WaitFor(sock, 8, 1, u, start);
    if !ready {
      return Waiting;
    }
    Skip(sock, 3, u, start, 1);
    var flags := Take32(sock, u, start, 4);
    var length := TakeByte(sock, u, start, 8);
    ready := WaitFor(sock, length, 9, u, start);
    if !ready {
      return Waiting;
    }
    if length > 64 {
      length := 64;
    }
    var payload := TakeBytes(sock, length, u, start, 9);
    if flags >= 0 {
      return Thrown;
    }
    return Got(Fence(flags % 4, payload));
  }

  method HandleXvpMsg(sock: Websock) returns (r: Reply<Xvp>)
    requires sock.Valid() && sock.mark < sock.rQi
    modifies sock`rQi
    ensures AllOrNothing(sock, old(AfterType(sock)), old(sock.rQi) - 1, XvpMessage(old(AfterType(sock))), r)
  {
    ghost var u, start := AfterType(sock), sock.rQi - 1;
    var ready := WaitFor(sock, 3, 1, u, start);
    if !ready {
      return Waiting;
    }
    Skip(sock, 1, u, start, 1);
    var xvpVer := TakeByte(sock, u, start, 2);
    var xvpMsg := TakeByte(sock, u, start, 3);
    if xvpMsg > 1 {
      return Thrown;
    }
    return Got(Xvp(xvpVer, xvpMsg));
  }

  /** Any number of items; `buffByteLen` is all that has been read of the message. */
  method HandleBinaryClipboard(sock: Websock) returns (r: Reply<()>, items: seq<ClipItem>)
    requires sock.Valid() && sock.mark < sock.rQi
    modifies sock`rQi
    ensures items == BinaryClipboard(old(AfterType(sock))).items
    ensures AllOrNothing(sock, old(AfterType(sock)), old(sock.rQi) - 1, BinaryClipboard(old(AfterType(sock))).stop, r)
  {
    hide OneItem;
    ghost var u, start := AfterType(sock), sock.rQi - 1;
    items := [];
    var ready := WaitFor(sock, 2, 1, u, start);
    if !ready {
      return Waiting, [];
    }
    var num := TakeByte(sock, u, start, 1);
    var buffByteLen := 2;
    var i := 0;
    while i < num
      invariant 0 <= i <= num && 2 <= buffByteLen
      invariant InMessage(sock, u, start, buffByteLen)
      invariant ItemsFrom(u, 2, num, []) == ItemsFrom(u, buffByteLen, num - i, items)
    {
      var item;
      item, buffByteLen := ReadItem(sock, buffByteLen, u, start);
      match item
      case Waiting => return Waiting, items;
      case Thrown => return Thrown, items;
      case Got(c) =>
        items := items + [c];
        i := i + 1;
    }
    return Got(()), items;
  }

  method ReadItem(sock: Websock, read: nat, ghost u: seq<Byte>, ghost start: nat)
    returns (item: Reply<ClipItem>, buffByteLen: nat)
    requires InMessage(sock, u, start, read)
    modifies sock`rQi
    ensures match OneItem(u, read)
      case ItemMore => item == Waiting && InMessage(sock, u, start, 0)
      case ItemBad => item == Thrown
      case Item(c, next) => item == Got(c) && buffByteLen == next && InMessage(sock, u, start, next)
  {
    hide InMessage, Int32;
    var clipid, mime, ready := ReadItemHead(sock, read, u, start);
    if !ready {
      return Waiting, 0;
    }
    buffByteLen := read + 5 + |mime|;
    ready := WaitFor(sock, 4, buffByteLen, u, start);
    if !ready {
      return Waiting, 0;
    }
    buffByteLen := buffByteLen + 4;
    var len := Take32(sock, u, start, read + 5 + |mime|);
    var data := ReadClipData(sock, len, buffByteLen, u, start);
    match data
    case Waiting => return Waiting, 0;
    case Thrown => return Thrown, 0;
    case Got(d) => return Got(ClipItem(clipid, mime, d)), buffByteLen + len;
  }

  /** An item's id and MIME type. */
  method ReadItemHead(sock: Websock, read: nat, ghost u: seq<Byte>, ghost start: nat)
    returns (clipid: int, mime: seq<Byte>, ready: bool)
    requires InMessage(sock, u, start, read)
    modifies sock`rQi
    ensures ready <==> |u| >= read + 5 && |u| >= read + 5 + u[read + 4] as int
    ensures ready ==>
      && clipid == Int32(u, read) && mime == u[read + 5..read + 5 + u[read + 4] as int]
      && InMessage(sock, u, start, read + 5 + |mime|)
    ensures !ready ==> InMessage(sock, u, start, 0)
  {
    hide InMessage, Int32;
    mime := [];
    ready := WaitFor(sock, 4, read, u, start);
    if !ready {
      return 0, [], false;
    }
    clipid := Take32(sock, u, start, read);
    ready := WaitFor(sock, 1, read + 4, u, start);
    if !ready {
      return 0, [], false;
    }
    var mimelen := TakeByte(sock, u, start, read + 4);
    ready := WaitFor(sock, mimelen, read + 5, u, start);
    if !ready {
      return 0, [], false;
    }
    mime := TakeBytes(sock, mimelen, u, start, read + 5);
  }

  /** Waits for the magnitude of a negative length before it throws. */
  method ReadClipData(sock: Websock, len: int, read: nat, ghost u: seq<Byte>, ghost start: nat)
    returns (r: Reply<seq<Byte>>)
    requires InMessage(sock, u, start, read)
    modifies sock`rQi
    ensures if |u| < read + Abs(len) then r == Waiting && InMessage(sock, u, start, 0)
            else if len < 0 then r == Thrown
            else r == Got(u[read..read + len]) && InMessage(sock, u, start, read + len)
  {
    hide InMessage;
    var ready := WaitFor(sock, Abs(len), read, u, start);
    if !ready {
      return Waiting;
    }
    if len < 0 {
      return Thrown;
    }
    var data := TakeBytes(sock, len, u, start, read);
    return Got(data);
  }

  /** The switch over message types, for all but updates. */
  method HandleOther(sock: Websock, msgType: nat, viewOnly: bool) returns (r: Reply<Notice>)
    requires sock.Valid() && sock.mark < sock.rQi && AfterType(sock)[0] == msgType
    modifies sock`rQi
    ensures AllOrNothing(sock, old(AfterType(sock)), old(sock.rQi) - 1,
                         OtherMessage(old(AfterType(sock)), viewOnly), r)
  {
    hide ServerCutText, BinaryClipboard, UdpUpgrade, SubscribeUnixRelay, UnixRelay, ServerFence, XvpMessage;
    match msgType
    case 2 => return Got(Bell);
    case 3 =>
      var cut := HandleServerCutText(sock, viewOnly);
      return Told(cut, (c: CutText) => Cut(c));
    case 150 => return Got(NoMoreContinuousUpdates);
    case 179 => return Got(FrameStatsAsked);
    case 180 =>
      var reply, items := HandleBinaryClipboard(sock);
      return Told(reply, (x: ()) => Clipboard(items));
    case 181 =>
      var payload := HandleUdpUpgrade(sock);
      return Told(payload, (p: seq<Byte>) => Upgraded(p));
    case 182 =>
      var subscription := HandleSubscribeUnixRelay(sock);
      return Told(subscription, (s: Subscription) => Subscribed(s));
    case 183 =>
      var relay := HandleUnixRelay(sock);
      return Told(relay, (d: Relay) => Relayed(d));
    case 248 =>
      var fence := HandleServerFence(sock);
      return Told(fence, (f: Fence) => Fenced(f));
    case 250 =>
      var xvp := HandleXvpMsg(sock);
      return Told(xvp, (x: Xvp) => PowerControl(x));
    case _ => return Thrown;
  }

  function Told<T>(r: Reply<T>, f: T -> Notice): Reply<Notice> {
    match r
    case Waiting => Waiting
    case Thrown => Thrown
    case Got(value) => Got(f(value))
  }

  /** How far past the beginning of the message a wait leaves the queue. */
  function InitDisplacement(u: seq<Byte>, tight: bool): nat {
    if tight && |u| >= 24 && Int32(u, 20) < 0 then -Int32(u, 20) else 0
  }

  /**
   ServerInit has no type byte: it begins at the first unread byte. Its name length is signed,
   and where that is negative the name takes no bytes, but in TightVNC mode the later rewinds
   still subtract it. So a wait there ends up that far past the beginning: the handler is
   all-or-nothing exactly when the length is not negative or the mode is not TightVNC's.
   */
  method NegotiateServerInit(sock: Websock, tight: bool) returns (r: Reply<Init>)
    requires sock.Valid()
    modifies sock`rQi
    ensures var u, start := old(sock.Unread()), old(sock.rQi);
      match ServerInit(u, tight)
      case More =>
        && r == Waiting && sock.rQi == start + InitDisplacement(u, tight)
        && (InMessage(sock, u, start, 0) <==> InitDisplacement(u, tight) == 0)
      case Bad => true
      case Message(init, used) => r == Got(init) && InMessage(sock, u, start, used)
  {
    ghost var u, start := sock.Unread(), sock.rQi;
    var lacks := sock.RQlacks(24);
    if lacks {
      return Waiting;
    }
    assert InMessage(sock, u, start, 0);
    var width, height, nameLength := ReadDimensions(sock, u, start);
    var name := [];
    if nameLength >= 0 {
      var ready := WaitFor(sock, nameLength, 24, u, start);
      if !ready {
        return Waiting;
      }
      name := TakeBytes(sock, nameLength, u, start, 24);
    }
    // A negative length neither waits nor reads anything.
    assert name == u[24..24 + Max0(nameLength)];
    if tight {
      var done := SkipCapabilities(sock, nameLength, u, start);
      if !done {
        return Waiting;
      }
    }
    return Got(Init(width, height, name));
  }

  /** A name length of -5, and no capabilities yet: the wait ends five bytes too far. */
  lemma NegativeNameDisplaces()
    ensures var u := seq(20, _ => 0) + [255, 255, 255, 251];
      ServerInit(u, true) == More && InitDisplacement(u, true) == 5 && InitDisplacement(u, false) == 0
  {
    var u: seq<Byte> := seq(20, _ => 0) + [255, 255, 255, 251];
    assert u[20..24] == [255, 255, 255, 251];
    BigEndian4(u[20..24]);
    assert Int32(u, 20) == -5;
  }

  method ReadDimensions(sock: Websock, ghost u: seq<Byte>, ghost start: nat)
    returns (width: nat, height: nat, nameLength: int)
    requires InMessage(sock, u, start, 0) && |u| >= 24
    modifies sock`rQi
    ensures InMessage(sock, u, start, 24)
    ensures width == Int16(u, 0) && height == Int16(u, 2) && nameLength == Int32(u, 20)
  {
    hide InMessage, Int16, Int32;
    width := Take16(sock, u, start, 0);
    height := Take16(sock, u, start, 2);
    Skip(sock, 16, u, start, 4);
    nameLength := Take32(sock, u, start, 20);
  }

  /** The capability lists of the extended message, which are skipped unread. */
  method SkipCapabilities(sock: Websock, nameLength: int, ghost u: seq<Byte>, ghost start: nat) returns (done: bool)
    requires |u| >= 24 && nameLength == Int32(u, 20) && InMessage(sock, u, start, 24 + Max0(nameLength))
    modifies sock`rQi
    ensures match ServerInit(u, true)
      case More =>
        && !done && sock.rQi == start + InitDisplacement(u, true)
        && (nameLength >= 0 ==> InMessage(sock, u, start, 0))
      case Bad => true
      case Message(_, used) => done && InMessage(sock, u, start, used)
  {
    var n := Max0(nameLength);
    hide InMessage, Int32, Int16;
    var ready := WaitNamed(sock, 8, 24 + nameLength, 24 + n, u, start);
    if !ready {
      return false;
    }
    var entries := TakeEntries(sock, n, u, start);
    ready := WaitNamed(sock, entries * 16, 32 + nameLength, 32 + n, u, start);
    if !ready {
      return false;
    }
    Skip(sock, 16 * entries, u, start, 32 + n);
    return true;
  }

  /** Three counts and two bytes of padding: how many list entries follow. */
  method TakeEntries(sock: Websock, n: nat, ghost u: seq<Byte>, ghost start: nat) returns (entries: nat)
    requires InMessage(sock, u, start, 24 + n) && 32 + n <= |u|
    modifies sock`rQi
    ensures InMessage(sock, u, start, 32 + n)
    ensures entries == Int16(u, 24 + n) + Int16(u, 26 + n) + Int16(u, 28 + n)
  {
    hide InMessage, Int16;
    var numServerMessages := Take16(sock, u, start, 24 + n);
    var numClientMessages := Take16(sock, u, start, 26 + n);
    var numEncodings := Take16(sock, u, start, 28 + n);
    Skip(sock, 2, u, start, 30 + n);
    entries := numServerMessages + numClientMessages + numEncodings;
  }

  /** A wait whose `goback` may differ from what has been read. */
  method WaitNamed(sock: Websock, num: nat, goback: int, ghost read: nat, ghost u: seq<Byte>, ghost start: nat)
    returns (ready: bool)
    requires InMessage(sock, u, start, read) && goback <= read
    modifies sock`rQi
    ensures ready <==> |u| >= read + num
    ensures ready ==> InMessage(sock, u, start, read)
    ensures !ready ==> sock.rQi == start + read - goback >= 0
    ensures !ready && goback == read ==> InMessage(sock, u, start, 0)
  {
    UnreadOfMessage(sock, u, start, read);
    var w := sock.RQwait(num, goback);
    ready := w == Ready;
  }
}
