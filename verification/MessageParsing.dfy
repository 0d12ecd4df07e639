/**
 The messages whose handlers rewind, as functions of the bytes since the message began: what a
 complete one holds, and that nothing is concluded from less than all of it.
 */
module MessageParsing {
  import opened Bytes

  /** More: bytes are missing. Bad: the handler throws, fails the connection, or reads past what it waited for. */
  datatype Parsed<+T> = More | Bad | Message(value: T, used: nat)

  function Int32(s: seq<Byte>, i: nat): int
    requires i + 4 <= |s|
  {
    Signed32(BigEndian(s[i..i + 4]))
  }

  function Int16(s: seq<Byte>, i: nat): nat
    requires i + 2 <= |s|
  {
    BigEndian(s[i..i + 2])
  }

  function Abs(x: int): nat {
    if x < 0 then -x else x
  }

  function Max0(x: int): nat {
    if x < 0 then 0 else x
  }

  // ---- UDP upgrade, type 181

  function UdpUpgrade(u: seq<Byte>): (p: Parsed<seq<Byte>>)
    ensures p.Message? ==> 0 < p.used <= |u|
  {
    if |u| < 3 then More
    else
      var len := Int16(u, 1);
      if |u| < 3 + len then More else Message(u[3..3 + len], 3 + len)
  }

  // ---- unix relay subscription, type 182

  datatype Subscription = Subscription(ok: bool, text: seq<Byte>)

  function SubscribeUnixRelay(u: seq<Byte>): (p: Parsed<Subscription>)
    ensures p.Message? ==> 0 < p.used <= |u|
  {
    if |u| < 3 then More
    else
      var len: nat := u[2];
      if |u| < 3 + len then More else Message(Subscription(u[1] != 0, u[3..3 + len]), 3 + len)
  }

  // ---- unix relay data, type 183

  datatype Relay = Relay(name: seq<Byte>, payload: seq<Byte>)

  function UnixRelay(u: seq<Byte>): (p: Parsed<Relay>)
    ensures p.Message? ==> 0 < p.used <= |u|
  {
    if |u| < 2 then More
    else
      var n: nat := u[1];
      if |u| < 6 + n then More
      else
        var len := Int32(u, 2 + n);
        if len < 0 then Bad
        else if |u| < 6 + n + len then More
        else Message(Relay(u[2..2 + n], u[6 + n..6 + n + len]), 6 + n + len)
  }

  // ---- ServerCutText, type 3

  datatype CutText = Plain(text: seq<Byte>) | Extended(flags: int)

  /** The bits set among the lowest `n` bits. */
  function Ones(x: nat, n: nat): (r: nat)
    ensures r <= n
  {
    if n == 0 then 0 else Ones(x, n - 1) + if Bit(x, n - 1) then 1 else 0
  }

  /** The `actions` byte of an extended message's flags. */
  function Actions(flags: int): (r: nat)
    ensures r < 256
  {
    flags / 0x100_0000 % 256
  }

  /**
   How much of an extended message's body is read: the flags, then a size for each format of a
   capabilities message, or all of a provided text that is wanted. None for an unknown action.
   */
  function BodyRead(flags: int, length: nat, viewOnly: bool): Option<nat> {
    var formats, actions := flags % 0x1_0000, Actions(flags);
    if actions % 2 == 1 then Some(4 + 4 * Ones(formats, 16))
    else if actions == 2 || actions == 4 || actions == 8 then Some(4)
    else if actions == 16 then Some(if viewOnly || formats % 2 == 0 then 4 else length)
    else None
  }

  /** A negative length announces the extended form, and its magnitude is waited for. */
  function ServerCutText(u: seq<Byte>, viewOnly: bool): (p: Parsed<CutText>)
    ensures p.Message? ==> 0 < p.used <= |u|
  {
    if |u| < 8 then More
    else
      var len := Int32(u, 4);
      if |u| < 8 + Abs(len) then More
      else if len >= 0 then Message(Plain(u[8..8 + len]), 8 + len)
      else if -len < 4 then Bad
      else
        var flags := Int32(u, 8);
        match BodyRead(flags, -len, viewOnly)
        case None => Bad
        case Some(read) => if read > -len then Bad else Message(Extended(flags), 8 + read)
  }

  // ---- binary clipboard, type 180

  datatype ClipItem = ClipItem(id: int, mime: seq<Byte>, data: seq<Byte>)

  datatype ItemResult = ItemMore | ItemBad | Item(item: ClipItem, next: nat)

  function OneItem(u: seq<Byte>, at: nat): (r: ItemResult)
    ensures r.Item? ==> at < r.next <= |u|
  {
    if |u| < at + 5 then ItemMore
    else
      var mimelen: nat := u[at + 4];
      var i := at + 5 + mimelen;
      if |u| < i + 4 then ItemMore
      else
        var len := Int32(u, i);
        if |u| < i + 4 + Abs(len) then ItemMore
        else if len < 0 then ItemBad
        else Item(ClipItem(Int32(u, at), u[at + 5..i], u[i + 4..i + 4 + len]), i + 4 + len)
  }

  /** Items read before the handler stopped, and why it stopped. */
  datatype Items = Items(items: seq<ClipItem>, stop: Parsed<()>)

  /** `n` items from index `at` on, after those in `before`. */
  function ItemsFrom(u: seq<Byte>, at: nat, n: nat, before: seq<ClipItem>): (r: Items)
    requires at <= |u|
    ensures r.stop.Message? ==> at <= r.stop.used <= |u| && |r.items| == |before| + n
    ensures before <= r.items
    decreases n
  {
    if n == 0 then Items(before, Message((), at))
    else
      match OneItem(u, at)
      case ItemMore => Items(before, More)
      case ItemBad => Items(before, Bad)
      case Item(item, next) => ItemsFrom(u, next, n - 1, before + [item])
  }

  /** With fewer than three bytes not even the number of items is looked at. */
  function BinaryClipboard(u: seq<Byte>): (r: Items)
    ensures r.stop.Message? ==> 0 < r.stop.used <= |u|
  {
    if |u| < 3 then Items([], More) else ItemsFrom(u, 2, u[1], [])
  }

  const TEXT_PLAIN: seq<Byte> := [116, 101, 120, 116, 47, 112, 108, 97, 105, 110]

  /** The clipboard events that reading these items dispatches. */
  function Texts(items: seq<ClipItem>): seq<seq<Byte>> {
    if items == [] then []
    else
      var last := items[|items| - 1];
      Texts(items[..|items| - 1]) + if last.mime == TEXT_PLAIN then [last.data] else []
  }

  // ---- server fence, type 248

  datatype Fence = Fence(flags: int, payload: seq<Byte>)

  function Min64(n: nat): (r: nat)
    ensures r <= n
  {
    if n < 64 then n else 64
  }

  /** All of the payload is waited for, at most 64 bytes of it are read, and bit 31 must be set. */
  function ServerFence(u: seq<Byte>): (p: Parsed<Fence>)
    ensures p.Message? ==> 0 < p.used <= |u|
  {
    if |u| < 9 then More
    else
      var len: nat := u[8];
      if |u| < 9 + len then More
      else if Int32(u, 4) >= 0 then Bad
      else Message(Fence(Int32(u, 4) % 4, u[9..9 + Min64(len)]), 9 + Min64(len))
  }

  // ---- XVP, type 250

  datatype Xvp = Xvp(version: Byte, code: Byte)

  function XvpMessage(u: seq<Byte>): (p: Parsed<Xvp>)
    ensures p.Message? ==> 0 < p.used <= |u|
  {
    if |u| < 4 then More else if u[3] > 1 then Bad else Message(Xvp(u[2], u[3]), 4)
  }

  // ---- any message but an update

  /** What a message that is not a FramebufferUpdate tells the client. */
  datatype Notice =
    | Bell
    | NoMoreContinuousUpdates
    | FrameStatsAsked
    | Cut(cut: CutText)
    | Clipboard(items: seq<ClipItem>)
    | Upgraded(payload: seq<Byte>)
    | Subscribed(subscription: Subscription)
    | Relayed(relay: Relay)
    | Fenced(fence: Fence)
    | PowerControl(xvp: Xvp)

  function Noticed<T>(p: Parsed<T>, f: T -> Notice): (q: Parsed<Notice>)
    ensures q.Message? <==> p.Message?
    ensures q.Message? ==> q.used == p.used && q.value == f(p.value)
    ensures q.More? <==> p.More?
  {
    match p
    case More => More
    case Bad => Bad
    case Message(value, used) => Message(f(value), used)
  }

  /**
   A message from its type byte on. Colour maps and unknown types fail the connection; statistics
   (178) are not modelled, since their header is read without being waited for.
   */
  function OtherMessage(u: seq<Byte>, viewOnly: bool): (p: Parsed<Notice>)
    requires u != []
    ensures p.Message? ==> 0 < p.used <= |u|
  {
    match u[0]
    case 2 => Message(Bell, 1)
    case 3 => Noticed(ServerCutText(u, viewOnly), (c: CutText) => Cut(c))
    case 150 => Message(NoMoreContinuousUpdates, 1)
    case 179 => Message(FrameStatsAsked, 1)
    case 180 => Noticed(BinaryClipboard(u).stop, (x: ()) => Clipboard(BinaryClipboard(u).items))
    case 181 => Noticed(UdpUpgrade(u), (payload: seq<Byte>) => Upgraded(payload))
    case 182 => Noticed(SubscribeUnixRelay(u), (s: Subscription) => Subscribed(s))
    case 183 => Noticed(UnixRelay(u), (r: Relay) => Relayed(r))
    case 248 => Noticed(ServerFence(u), (f: Fence) => Fenced(f))
    case 250 => Noticed(XvpMessage(u), (x: Xvp) => PowerControl(x))
    case _ => Bad
  }

  /** These handlers return nothing when they succeed, and the message loop takes that for a wait. */
  predicate Pauses(n: Notice) {
    n.Upgraded? || n.Subscribed? || n.Relayed?
  }

  // ---- ServerInit, which has no type byte

  datatype Init = Init(width: nat, height: nat, name: seq<Byte>)

  function ServerInit(u: seq<Byte>, tight: bool): (p: Parsed<Init>)
    ensures p.Message? ==> 0 < p.used <= |u|
  {
    if |u| < 24 then More
    else
      var n := Max0(Int32(u, 20));
      if |u| < 24 + n then More
      else
        var init := Init(Int16(u, 0), Int16(u, 2), u[24..24 + n]);
        if !tight then Message(init, 24 + n)
        else if |u| < 32 + n then More
        else
          var total := (Int16(u, 24 + n) + Int16(u, 26 + n) + Int16(u, 28 + n)) * 16;
          if |u| < 32 + n + total then More else Message(init, 32 + n + total)
  }

  // ---- more bytes change nothing that was concluded

  lemma SliceOfExtended(u: seq<Byte>, v: seq<Byte>, i: nat, j: nat)
    requires i <= j <= |u|
    ensures (u + v)[i..j] == u[i..j]
  {
  }

  lemma UdpUpgradeStable(u: seq<Byte>, v: seq<Byte>)
    requires UdpUpgrade(u) != More
    ensures UdpUpgrade(u + v) == UdpUpgrade(u)
  {
    SliceOfExtended(u, v, 1, 3);
    SliceOfExtended(u, v, 3, 3 + Int16(u, 1));
  }

  lemma SubscribeStable(u: seq<Byte>, v: seq<Byte>)
    requires SubscribeUnixRelay(u) != More
    ensures SubscribeUnixRelay(u + v) == SubscribeUnixRelay(u)
  {
    SliceOfExtended(u, v, 3, 3 + u[2] as int);
  }

  lemma UnixRelayStable(u: seq<Byte>, v: seq<Byte>)
    requires UnixRelay(u) != More
    ensures UnixRelay(u + v) == UnixRelay(u)
  {
    var n: nat := u[1];
    SliceOfExtended(u, v, 2, 2 + n);
    SliceOfExtended(u, v, 2 + n, 6 + n);
    var len := Int32(u, 2 + n);
    if len >= 0 {
      SliceOfExtended(u, v, 6 + n, 6 + n + len);
    }
  }

  lemma ServerCutTextStable(u: seq<Byte>, v: seq<Byte>, viewOnly: bool)
    requires ServerCutText(u, viewOnly) != More
    ensures ServerCutText(u + v, viewOnly) == ServerCutText(u, viewOnly)
  {
    hide BodyRead;
    SliceOfExtended(u, v, 4, 8);
    var len := Int32(u, 4);
    if len >= 0 {
      SliceOfExtended(u, v, 8, 8 + len);
    } else if -len >= 4 {
      SliceOfExtended(u, v, 8, 12);
    }
  }

  lemma ServerFenceStable(u: seq<Byte>, v: seq<Byte>)
    requires ServerFence(u) != More
    ensures ServerFence(u + v) == ServerFence(u)
  {
    SliceOfExtended(u, v, 4, 8);
    SliceOfExtended(u, v, 9, 9 + Min64(u[8]));
  }

  lemma OneItemStable(u: seq<Byte>, v: seq<Byte>, at: nat)
    requires OneItem(u, at) != ItemMore
    ensures OneItem(u + v, at) == OneItem(u, at)
  {
    var mimelen: nat := u[at + 4];
    var i := at + 5 + mimelen;
    SliceOfExtended(u, v, at, at + 4);
    SliceOfExtended(u, v, at + 5, i);
    SliceOfExtended(u, v, i, i + 4);
    var len := Int32(u, i);
    if len >= 0 {
      SliceOfExtended(u, v, i + 4, i + 4 + len);
    }
  }

  lemma {:induction false} ItemsStable(u: seq<Byte>, v: seq<Byte>, at: nat, n: nat, before: seq<ClipItem>)
    requires at <= |u|
    ensures var r := ItemsFrom(u, at, n, before);
      if r.stop == More then r.items <= ItemsFrom(u + v, at, n, before).items
      else ItemsFrom(u + v, at, n, before) == r
    decreases n
  {
    hide OneItem;
    if n > 0 {
      if OneItem(u, at) != ItemMore {
        OneItemStable(u, v, at);
        match OneItem(u, at)
        case Item(item, next) => ItemsStable(u, v, next, n - 1, before + [item]);
        case _ =>
      }
    }
  }

  lemma BinaryClipboardStable(u: seq<Byte>, v: seq<Byte>)
    ensures var r := BinaryClipboard(u);
      if r.stop == More then r.items <= BinaryClipboard(u + v).items else BinaryClipboard(u + v) == r
  {
    if |u| >= 3 {
      ItemsStable(u, v, 2, u[1], []);
    }
  }

  lemma ServerInitStable(u: seq<Byte>, v: seq<Byte>, tight: bool)
    requires ServerInit(u, tight) != More
    ensures ServerInit(u + v, tight) == ServerInit(u, tight)
  {
    SliceOfExtended(u, v, 20, 24);
    var n := Max0(Int32(u, 20));
    SliceOfExtended(u, v, 24, 24 + n);
    SliceOfExtended(u, v, 0, 2);
    SliceOfExtended(u, v, 2, 4);
    if tight {
      SliceOfExtended(u, v, 24 + n, 26 + n);
      SliceOfExtended(u, v, 26 + n, 28 + n);
      SliceOfExtended(u, v, 28 + n, 30 + n);
    }
  }

  lemma OtherMessageStable(u: seq<Byte>, v: seq<Byte>, viewOnly: bool)
    requires u != [] && OtherMessage(u, viewOnly) != More
    ensures OtherMessage(u + v, viewOnly) == OtherMessage(u, viewOnly)
  {
    hide ServerCutText, BinaryClipboard, UdpUpgrade, SubscribeUnixRelay, UnixRelay, ServerFence;
    match u[0]
    case 3 => ServerCutTextStable(u, v, viewOnly);
    case 180 => BinaryClipboardStable(u, v);
    case 181 => UdpUpgradeStable(u, v);
    case 182 => SubscribeStable(u, v);
    case 183 => UnixRelayStable(u, v);
    case 248 => ServerFenceStable(u, v);
    case _ =>
  }

  /** Hence every proper prefix of a message is waited on, and no message is cut short or overrun. */
  lemma ProperPrefixWaits(u: seq<Byte>, k: nat, viewOnly: bool, tight: bool)
    requires k <= |u|
    ensures 0 < k && OtherMessage(u, viewOnly).Message? && k < OtherMessage(u, viewOnly).used ==>
      OtherMessage(u[..k], viewOnly) == More
    ensures ServerInit(u, tight).Message? && k < ServerInit(u, tight).used ==> ServerInit(u[..k], tight) == More
  {
    hide OtherMessage, ServerInit;
    var p, v := u[..k], u[k..];
    assert p + v == u;
    if 0 < k && OtherMessage(p, viewOnly) != More {
      OtherMessageStable(p, v, viewOnly);
    }
    if ServerInit(p, tight) != More {
      ServerInitStable(p, v, tight);
    }
  }

  // ---- messages that are not consumed whole

  /**
   What is read of an extended cut text is the whole of it exactly if its sender put nothing
   behind what its action needs, or the client wants the text it provides. What is left is taken
   for the next message.
   */
  lemma ExtendedIsWhole(u: seq<Byte>, viewOnly: bool)
    requires ServerCutText(u, viewOnly).Message? && ServerCutText(u, viewOnly).value.Extended?
    ensures var (flags, length) := (Int32(u, 8), -Int32(u, 4));
      var wanted := Actions(flags) == 16 && !viewOnly && flags % 2 == 1;
      ServerCutText(u, viewOnly).used == 8 + length
      <==> wanted || length == 4 + if Actions(flags) % 2 == 1 then 4 * Ones(flags % 0x1_0000, 16) else 0
  {
    hide Ones;
    var flags := Int32(u, 8);
    assert flags % 0x1_0000 % 2 == flags % 2;
  }

  /** A fence is consumed whole exactly if its payload is not above 64 bytes. */
  lemma FenceIsWhole(u: seq<Byte>)
    requires ServerFence(u).Message?
    ensures ServerFence(u).used == 9 + u[8] as int <==> u[8] <= 64
    ensures ServerFence(u).value.payload == u[9..ServerFence(u).used]
  {
  }

  // ---- clipboard items written and read back

  function BigEndian32(n: nat): (s: seq<Byte>)
    requires n < 0x1_0000_0000
    ensures |s| == 4
  {
    var q1 := n / 256;
    var q2 := q1 / 256;
    [q2 / 256, q2 % 256, q1 % 256, n % 256]
  }

  lemma Int32Reads(s: seq<Byte>, i: nat, n: nat)
    requires n < 0x8000_0000 && i + 4 <= |s| && s[i..i + 4] == BigEndian32(n)
    ensures Int32(s, i) == n
  {
    BigEndian4(s[i..i + 4]);
  }

  predicate Sendable(c: ClipItem) {
    0 <= c.id < 0x8000_0000 && |c.mime| < 256 && |c.data| < 0x8000_0000
  }

  function EncodeItem(c: ClipItem): seq<Byte>
    requires Sendable(c)
  {
    BigEndian32(c.id) + [|c.mime|] + c.mime + BigEndian32(|c.data|) + c.data
  }

  function EncodeItems(cs: seq<ClipItem>): seq<Byte>
    requires forall c :: c in cs ==> Sendable(c)
  {
    if cs == [] then [] else EncodeItem(cs[0]) + EncodeItems(cs[1..])
  }

  lemma ItemReads(front: seq<Byte>, c: ClipItem, tail: seq<Byte>)
    requires Sendable(c)
    ensures OneItem(front + EncodeItem(c) + tail, |front|) == Item(c, |front| + |EncodeItem(c)|)
  {
    var at, m := |front|, |c.mime|;
    var i := at + 5 + m;
    var id, len := BigEndian32(c.id), BigEndian32(|c.data|);
    var u := front + EncodeItem(c) + tail;
    assert |id| == 4 && |len| == 4;
    assert EncodeItem(c) == id + [m] + c.mime + len + c.data;
    hide BigEndian32, EncodeItem;
    ItemParts(front, id, m, c.mime, len, c.data, tail);
    Int32Reads(u, at, c.id);
    Int32Reads(u, i, |c.data|);
    hide Int32;
  }

  lemma ItemParts(front: seq<Byte>, id: seq<Byte>, m: Byte, mime: seq<Byte>, len: seq<Byte>, data: seq<Byte>,
                  tail: seq<Byte>)
    requires |id| == |len| == 4 && |mime| == m
    ensures var u, at := front + (id + [m] + mime + len + data) + tail, |front|;
      var i := at + 5 + |mime|;
      && |u| >= i + 4 + |data|
      && u[at..at + 4] == id && u[at + 4] == m && u[at + 5..i] == mime
      && u[i..i + 4] == len && u[i + 4..i + 4 + |data|] == data
  {
  }

  lemma {:induction false} ItemsRead(front: seq<Byte>, cs: seq<ClipItem>, tail: seq<Byte>, before: seq<ClipItem>)
    requires forall c :: c in cs ==> Sendable(c)
    ensures ItemsFrom(front + EncodeItems(cs) + tail, |front|, |cs|, before)
         == Items(before + cs, Message((), |front| + |EncodeItems(cs)|))
    decreases |cs|
  {
    hide OneItem, EncodeItem;
    if cs == [] {
      assert before + cs == before;
    } else {
      var e, rest := EncodeItem(cs[0]), EncodeItems(cs[1..]);
      assert front + EncodeItems(cs) + tail == front + e + (rest + tail);
      assert front + EncodeItems(cs) + tail == (front + e) + rest + tail;
      ItemReads(front, cs[0], rest + tail);
      ItemsRead(front + e, cs[1..], tail, before + [cs[0]]);
      assert before + [cs[0]] + cs[1..] == before + cs;
    }
  }

  /** Any number of items is read back as sent, unless it is none and nothing follows. */
  lemma ClipboardReads(cs: seq<ClipItem>, tail: seq<Byte>)
    requires |cs| < 256 && forall c :: c in cs ==> Sendable(c)
    ensures BinaryClipboard([180, |cs|] + EncodeItems(cs) + tail)
         == if cs == [] && tail == [] then Items([], More)
            else Items(cs, Message((), 2 + |EncodeItems(cs)|))
  {
    var u := [180, |cs|] + EncodeItems(cs) + tail;
    ItemsRead([180, |cs|], cs, tail, []);
    assert [] + cs == cs;
    if cs != [] {
      assert |EncodeItem(cs[0])| >= 1;
    }
  }

  // ---- clipboard events are not all-or-nothing

  lemma {:induction false} TextsPrefix(a: seq<ClipItem>, b: seq<ClipItem>)
    requires a <= b
    ensures Texts(a) <= Texts(b)
    decreases |b|
  {
    if |a| < |b| {
      TextsPrefix(a, b[..|b| - 1]);
    } else {
      assert a == b;
    }
  }

  /**
   The position is restored when bytes are missing, but events already dispatched are not taken
   back: what an attempt on a prefix announces, every later attempt announces again.
   */
  lemma TextsAnnouncedAgain(u: seq<Byte>, v: seq<Byte>)
    requires BinaryClipboard(u).stop == More
    ensures Texts(BinaryClipboard(u).items) <= Texts(BinaryClipboard(u + v).items)
  {
    hide BinaryClipboard;
    BinaryClipboardStable(u, v);
    TextsPrefix(BinaryClipboard(u).items, BinaryClipboard(u + v).items);
  }

  /** Such a prefix exists: a first item of plain text, and a second of which nothing has come. */
  lemma TextAnnouncedEarly(text: seq<Byte>)
    requires |text| < 0x8000_0000
    ensures var u := [180, 2] + EncodeItem(ClipItem(0, TEXT_PLAIN, text));
      BinaryClipboard(u) == Items([ClipItem(0, TEXT_PLAIN, text)], More)
    ensures Texts([ClipItem(0, TEXT_PLAIN, text)]) == [text]
  {
    hide EncodeItem;
    var c := ClipItem(0, TEXT_PLAIN, text);
    var e := EncodeItem(c);
    ItemReads([180, 2], c, []);
    assert [180, 2] + e + [] == [180, 2] + e;
    assert [c][..0] == [] && Texts([c][..0]) == [];
    assert [] + [c] == [c];
  }
}
