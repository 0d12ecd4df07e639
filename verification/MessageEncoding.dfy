/**
 The messages a server sends besides updates, written down by their layouts, and the client reading
 each of them back: its kind by its type byte, its contents, and its end.
 */
module MessageEncoding {
  import opened Bytes
  import opened MessageParsing
  import opened UpdateEncoding

  // ---- messages that say all they have to say

  /** The lengths have a place in their fields; of a fence, the payload is within the 64 bytes agreed on. */
  predicate Legit(n: Notice) {
    match n
    case Cut(cut) => cut.Plain? && |cut.text| < 0x8000_0000
    case Clipboard(items) => |items| < 256 && forall c :: c in items ==> Sendable(c)
    case Upgraded(payload) => |payload| < 0x1_0000
    case Subscribed(s) => |s.text| < 256
    case Relayed(r) => |r.name| < 256 && |r.payload| < 0x8000_0000
    case Fenced(f) => 0 <= f.flags < 4 && |f.payload| <= 64
    case PowerControl(x) => x.code <= 1
    case _ => true
  }

  function EncodeNotice(n: Notice): (s: seq<Byte>)
    requires Legit(n)
    ensures s != []
  {
    match n
    case Bell => [2]
    case NoMoreContinuousUpdates => [150]
    case FrameStatsAsked => [179]
    case Cut(cut) => [3, 0, 0, 0] + BigEndian32(|cut.text|) + cut.text
    case Clipboard(items) => [180, |items|] + EncodeItems(items)
    case Upgraded(payload) => [181] + Word2(|payload|) + payload
    case Subscribed(s) => [182, if s.ok then 1 else 0, |s.text|] + s.text
    case Relayed(r) => [183, |r.name|] + r.name + BigEndian32(|r.payload|) + r.payload
    case Fenced(f) => [248, 0, 0, 0] + BigEndian32(0x8000_0000 + f.flags) + [|f.payload|] + f.payload
    case PowerControl(x) => [250, 0, x.version, x.code]
  }

  lemma WordAt(s: seq<Byte>, i: nat, n: nat)
    requires IsWord(n) && i + 2 <= |s| && s[i..i + 2] == Word2(n)
    ensures Int16(s, i) == n
  {
    BigEndian2(s[i..i + 2]);
  }

  lemma UpgradeReads(payload: seq<Byte>, tail: seq<Byte>)
    requires |payload| < 0x1_0000
    ensures UdpUpgrade([181] + Word2(|payload|) + payload + tail) == Message(payload, 3 + |payload|)
  {
    var u := [181] + Word2(|payload|) + payload + tail;
    assert u[1..3] == Word2(|payload|) && u[3..3 + |payload|] == payload;
    WordAt(u, 1, |payload|);
    hide Int16, Word2;
  }

  lemma CutReads(text: seq<Byte>, tail: seq<Byte>, viewOnly: bool)
    requires |text| < 0x8000_0000
    ensures ServerCutText([3, 0, 0, 0] + BigEndian32(|text|) + text + tail, viewOnly) == Message(Plain(text), 8 + |text|)
  {
    var u := [3, 0, 0, 0] + BigEndian32(|text|) + text + tail;
    assert u[4..8] == BigEndian32(|text|) && u[8..8 + |text|] == text;
    Int32Reads(u, 4, |text|);
    hide Int32, BigEndian32;
  }

  lemma SubscriptionReads(s: Subscription, tail: seq<Byte>)
    requires |s.text| < 256
    ensures SubscribeUnixRelay([182, if s.ok then 1 else 0, |s.text|] + s.text + tail) == Message(s, 3 + |s.text|)
  {
    var u := [182, if s.ok then 1 else 0, |s.text|] + s.text + tail;
    assert u[3..3 + |s.text|] == s.text;
  }

  lemma RelayReads(r: Relay, tail: seq<Byte>)
    requires |r.name| < 256 && |r.payload| < 0x8000_0000
    ensures UnixRelay([183, |r.name|] + r.name + BigEndian32(|r.payload|) + r.payload + tail)
         == Message(r, 6 + |r.name| + |r.payload|)
  {
    var n := |r.name|;
    var u := [183, n] + r.name + BigEndian32(|r.payload|) + r.payload + tail;
    assert u[2..2 + n] == r.name && u[2 + n..6 + n] == BigEndian32(|r.payload|);
    assert u[6 + n..6 + n + |r.payload|] == r.payload;
    Int32Reads(u, 2 + n, |r.payload|);
    hide Int32, BigEndian32;
  }

  /** Of a request's flags, the client keeps the two it supports. */
  lemma FenceReads(flags: nat, payload: seq<Byte>, tail: seq<Byte>)
    requires flags < 0x8000_0000 && |payload| <= 64
    ensures ServerFence([248, 0, 0, 0] + BigEndian32(0x8000_0000 + flags) + [|payload|] + payload + tail)
         == Message(Fence(flags % 4, payload), 9 + |payload|)
  {
    hide BigEndian32, Signed32;
    var word := BigEndian32(0x8000_0000 + flags);
    FenceParts(word, payload, tail);
    assert (flags - 0x8000_0000) % 0x1_0000_0000 == 0x8000_0000 + flags;
    SignedReads(flags - 0x8000_0000);
    assert (flags - 0x8000_0000) % 4 == flags % 4;
  }

  lemma FenceParts(flags: seq<Byte>, payload: seq<Byte>, tail: seq<Byte>)
    requires |flags| == 4 && |payload| <= 64
    ensures var u := [248, 0, 0, 0] + flags + [|payload|] + payload + tail;
      |u| >= 9 + |payload| && u[4..8] == flags && u[8] == |payload| && u[9..9 + |payload|] == payload
  {
  }

  /**
   Every message is read back as it was sent, and to its own end. The one exception is a clipboard
   without items that nothing follows: the client waits for a byte more than it is long. The client
   stops behind messages 181 to 183, and behind no other.
   */
  lemma NoticeReads(n: Notice, tail: seq<Byte>, viewOnly: bool)
    requires Legit(n)
    ensures OtherMessage(EncodeNotice(n) + tail, viewOnly)
         == if n == Clipboard([]) && tail == [] then More else Message(n, |EncodeNotice(n)|)
    ensures Pauses(n) <==> 181 <= EncodeNotice(n)[0] <= 183
  {
    hide ServerCutText, BinaryClipboard, UdpUpgrade, SubscribeUnixRelay, UnixRelay, ServerFence, Word2, BigEndian32;
    match n
    case Cut(cut) =>
      CutReads(cut.text, tail, viewOnly);
    case Clipboard(items) =>
      ClipboardReads(items, tail);
    case Upgraded(payload) =>
      UpgradeReads(payload, tail);
    case Subscribed(s) =>
      SubscriptionReads(s, tail);
    case Relayed(r) =>
      RelayReads(r, tail);
    case Fenced(f) =>
      FenceReads(f.flags, f.payload, tail);
    case PowerControl(x) =>
    case _ =>
  }

  // ---- clipboard messages of the extended form

  /** The formats of which the message speaks, each a number below 16. */
  function FormatsIn(mask: nat): set<nat> {
    set k: nat | k < 16 && Bit(mask, k)
  }

  lemma {:induction false} OnesAreFormats(mask: nat, n: nat)
    requires n <= 16
    ensures Ones(mask, n) == |set k: nat | k < n && Bit(mask, k)|
    decreases n
  {
    hide Bit;
    var s := set k: nat | k < n && Bit(mask, k);
    if n == 0 {
      assert s == {};
    } else {
      OnesAreFormats(mask, n - 1);
      var t := set k: nat | k < n - 1 && Bit(mask, k);
      assert s == t + if Bit(mask, n - 1) then {n - 1} else {};
      assert n - 1 !in t;
    }
  }

  /** Bit 24 announces capabilities; 25, 26 and 27 request, peek and notify; 28 provides a text. */
  datatype Action = Caps | Request | Peek | Notify | Provide

  function ActionBit(a: Action): nat {
    match a
    case Caps => 0x100_0000
    case Request => 0x200_0000
    case Peek => 0x400_0000
    case Notify => 0x800_0000
    case Provide => 0x1000_0000
  }

  /** What comes behind the flags: a size for each format, nothing, or the compressed text. */
  predicate BodyFits(a: Action, mask: nat, body: seq<Byte>) {
    && mask < 0x1_0000 && |body| < 0x4000_0000
    && (a.Caps? ==> |body| == 4 * |FormatsIn(mask)|)
    && (a.Request? || a.Peek? || a.Notify? ==> body == [])
  }

  function EncodeExtended(a: Action, mask: nat, body: seq<Byte>): seq<Byte>
    requires BodyFits(a, mask, body)
  {
    [3, 0, 0, 0] + BigEndian32(0x1_0000_0000 - (4 + |body|)) + BigEndian32(ActionBit(a) + mask) + body
  }

  /**
   A message of the extended form is read with its flags. It is read to its own end, except a text
   that nobody wants, because the client only views or the text is not plain: of that message the
   flags are read, and the text is left where the next message is looked for.
   */
  lemma ExtendedReads(a: Action, mask: nat, body: seq<Byte>, tail: seq<Byte>, viewOnly: bool)
    requires BodyFits(a, mask, body)
    ensures var unwanted := a.Provide? && (viewOnly || 0 !in FormatsIn(mask));
      OtherMessage(EncodeExtended(a, mask, body) + tail, viewOnly)
      == Message(Cut(Extended(ActionBit(a) + mask)), 12 + if unwanted then 0 else |body|)
  {
    hide EncodeExtended, Int32, BodyRead, FormatsIn, ActionBit, BodyFits;
    ExtendedParts(a, mask, body, tail);
    BodyReadIs(a, mask, body, viewOnly);
  }

  lemma ExtendedParts(a: Action, mask: nat, body: seq<Byte>, tail: seq<Byte>)
    requires BodyFits(a, mask, body)
    ensures var u := EncodeExtended(a, mask, body) + tail;
      && |u| == 12 + |body| + |tail| && u[0] == 3
      && Int32(u, 4) == -(4 + |body|) && Int32(u, 8) == ActionBit(a) + mask
  {
    hide FormatsIn, BigEndian32, Signed32;
    var n := -(4 + |body|);
    var size, flags := BigEndian32(0x1_0000_0000 + n), BigEndian32(ActionBit(a) + mask);
    ExtendedSlices(size, flags, body, tail);
    assert n % 0x1_0000_0000 == 0x1_0000_0000 + n;
    SignedReads(n);
    SignedReads(ActionBit(a) + mask);
  }

  lemma ExtendedSlices(size: seq<Byte>, flags: seq<Byte>, body: seq<Byte>, tail: seq<Byte>)
    requires |size| == |flags| == 4
    ensures var u := [3, 0, 0, 0] + size + flags + body + tail;
      |u| == 12 + |body| + |tail| && u[0] == 3 && u[4..8] == size && u[8..12] == flags
  {
  }

  lemma BodyReadIs(a: Action, mask: nat, body: seq<Byte>, viewOnly: bool)
    requires BodyFits(a, mask, body)
    ensures var unwanted := a.Provide? && (viewOnly || 0 !in FormatsIn(mask));
      BodyRead(ActionBit(a) + mask, 4 + |body|, viewOnly) == Some(4 + if unwanted then 0 else |body|)
  {
    hide Ones;
    OnesAreFormats(mask, 16);
    var flags := ActionBit(a) + mask;
    assert flags % 0x1_0000 == mask && Actions(flags) == ActionBit(a) / 0x100_0000;
    assert Bit(mask, 0) <==> mask % 2 == 1;
    assert 0 in FormatsIn(mask) <==> mask % 2 == 1;
  }

  // ---- messages that are refused

  /** There is no such message, or not for this client: colour maps (1) are among them. */
  lemma UnknownRefused(u: seq<Byte>, viewOnly: bool)
    requires u != [] && u[0] !in [0, 2, 3, 150, 178, 179, 180, 181, 182, 183, 248, 250]
    ensures OtherMessage(u, viewOnly) == Bad
  {
  }

  lemma XvpRefusedIff(version: Byte, code: Byte, tail: seq<Byte>, viewOnly: bool)
    ensures OtherMessage([250, 0, version, code] + tail, viewOnly) == Bad <==> code > 1
  {
  }

  /** A fence whose top bit says that it is a response. */
  lemma FenceRefused(flags: nat, payload: seq<Byte>, tail: seq<Byte>, viewOnly: bool)
    requires flags < 0x8000_0000 && |payload| <= 64
    ensures OtherMessage([248, 0, 0, 0] + BigEndian32(flags) + [|payload|] + payload + tail, viewOnly) == Bad
  {
    hide BigEndian32, Int32;
    FenceParts(BigEndian32(flags), payload, tail);
    Int32Reads([248, 0, 0, 0] + BigEndian32(flags) + [|payload|] + payload + tail, 4, flags);
  }

  /** Relayed data whose length is negative as the client reads it. */
  lemma RelayRefused(name: seq<Byte>, n: nat, tail: seq<Byte>, viewOnly: bool)
    requires |name| < 256 && 0 < n <= 0x8000_0000
    ensures OtherMessage([183, |name|] + name + BigEndian32(0x1_0000_0000 - n) + tail, viewOnly) == Bad
  {
    var len := BigEndian32(0x1_0000_0000 - n);
    var u := [183, |name|] + name + len + tail;
    assert u[2 + |name|..6 + |name|] == len;
    NegativeReads(u, 2 + |name|, n);
    hide BigEndian32, Int32;
  }

  lemma NegativeReads(u: seq<Byte>, i: nat, n: nat)
    requires 0 < n <= 0x8000_0000 && i + 4 <= |u| && u[i..i + 4] == BigEndian32(0x1_0000_0000 - n)
    ensures Int32(u, i) == -(n as int)
  {
    BigEndian4(u[i..i + 4]);
  }

  /** A clipboard item whose length is negative is refused once as many bytes have come as it says. */
  lemma ItemRefused(front: seq<Byte>, id: nat, mime: seq<Byte>, n: nat, tail: seq<Byte>)
    requires id < 0x8000_0000 && |mime| < 256 && 0 < n <= 0x8000_0000
    ensures OneItem(front + (BigEndian32(id) + [|mime|] + mime + BigEndian32(0x1_0000_0000 - n) + []) + tail, |front|)
         == if |tail| < n then ItemMore else ItemBad
  {
    var len := BigEndian32(0x1_0000_0000 - n);
    ItemParts(front, BigEndian32(id), |mime|, mime, len, [], tail);
    NegativeReads(front + (BigEndian32(id) + [|mime|] + mime + len + []) + tail, |front| + 5 + |mime|, n);
    hide BigEndian32, Int32;
  }

  /** What an extended clipboard message may be: an action the client knows, with what that action needs. */
  predicate ActionFits(flags: nat, size: nat) {
    && size >= 4
    && var action, mask := flags / 0x100_0000, flags % 0x1_0000;
       || (action % 2 == 1 && size >= 4 + 4 * |FormatsIn(mask)|)
       || action == 2 || action == 4 || action == 8 || action == 16
  }

  /** An extended clipboard message that is all there is refused exactly if it is not one of those. */
  lemma ExtendedRefusedIff(flags: nat, body: seq<Byte>, tail: seq<Byte>, viewOnly: bool)
    requires flags < 0x1000_0000 * 16 && |body| < 0x4000_0000
    ensures OtherMessage([3, 0, 0, 0] + BigEndian32(0x1_0000_0000 - (4 + |body|)) + BigEndian32(flags) + body + tail,
                         viewOnly) == Bad
       <==> !ActionFits(flags, 4 + |body|)
  {
    hide BigEndian32, Signed32;
    var size, word := BigEndian32(0x1_0000_0000 - (4 + |body|)), BigEndian32(flags);
    var u := [3, 0, 0, 0] + size + word + body + tail;
    ExtendedSlices(size, word, body, tail);
    NegativeReads(u, 4, 4 + |body|);
    FlagsRead(u, flags);
    ActionsRead(flags, Int32(u, 8));
    OnesAreFormats(flags % 0x1_0000, 16);
    hide Int32, Ones, FormatsIn, Actions;
  }

  lemma FlagsRead(u: seq<Byte>, flags: nat)
    requires flags < 0x1_0000_0000 && |u| >= 12 && u[8..12] == BigEndian32(flags)
    ensures Int32(u, 8) == flags || Int32(u, 8) == flags - 0x1_0000_0000
  {
    BigEndian4(u[8..12]);
  }

  lemma ActionsRead(flags: nat, read: int)
    requires flags < 0x1_0000_0000 && (read == flags || read == flags - 0x1_0000_0000)
    ensures Actions(read) == flags / 0x100_0000 && read % 0x1_0000 == flags % 0x1_0000
  {
  }

  /** One too short to hold its flags is refused, whatever it holds. */
  lemma FlaglessRefused(body: seq<Byte>, tail: seq<Byte>, viewOnly: bool)
    requires 0 < |body| < 4
    ensures OtherMessage([3, 0, 0, 0] + BigEndian32(0x1_0000_0000 - |body|) + body + tail, viewOnly) == Bad
  {
    var size := BigEndian32(0x1_0000_0000 - |body|);
    var u := [3, 0, 0, 0] + size + body + tail;
    assert u[4..8] == size;
    NegativeReads(u, 4, |body|);
    hide BigEndian32, Int32;
  }

  /** The format whose items raise clipboard events. */
  lemma TextPlainIs()
    ensures |TEXT_PLAIN| == |"text/plain"|
    ensures forall k :: 0 <= k < |TEXT_PLAIN| ==> TEXT_PLAIN[k] == "text/plain"[k] as int
  {
  }

  // ---- ServerInit

  /** Three lists of capabilities, each entry 16 bytes long. */
  datatype Capabilities = Capabilities(server: seq<Byte>, client: seq<Byte>, encodings: seq<Byte>)

  predicate EntriesFit(list: seq<Byte>) {
    |list| % 16 == 0 && IsWord(|list| / 16)
  }

  predicate InitFits(init: Init, format: seq<Byte>, caps: Option<Capabilities>) {
    && IsWord(init.width) && IsWord(init.height) && |init.name| < 0x8000_0000 && |format| == 16
    && (caps.Some? ==>
          EntriesFit(caps.value.server) && EntriesFit(caps.value.client) && EntriesFit(caps.value.encodings))
  }

  function EncodeCapabilities(c: Capabilities): seq<Byte>
    requires EntriesFit(c.server) && EntriesFit(c.client) && EntriesFit(c.encodings)
  {
    Word2(|c.server| / 16) + Word2(|c.client| / 16) + Word2(|c.encodings| / 16) + [0, 0]
    + (c.server + c.client + c.encodings)
  }

  /** Section 7.3.2 of RFC 6143, and what TightVNC mode puts behind it. */
  function EncodeInit(init: Init, format: seq<Byte>, caps: Option<Capabilities>): seq<Byte>
    requires InitFits(init, format, caps)
  {
    Word2(init.width) + Word2(init.height) + format + BigEndian32(|init.name|) + init.name
    + if caps.Some? then EncodeCapabilities(caps.value) else []
  }

  lemma CapabilitiesRead(c: Capabilities, front: seq<Byte>, tail: seq<Byte>)
    requires EntriesFit(c.server) && EntriesFit(c.client) && EntriesFit(c.encodings)
    ensures var u, n, e := front + EncodeCapabilities(c) + tail, |front|, EncodeCapabilities(c);
      |e| >= 8 && (Int16(u, n) + Int16(u, n + 2) + Int16(u, n + 4)) * 16 == |e| - 8
  {
    var a, b, d := Word2(|c.server| / 16), Word2(|c.client| / 16), Word2(|c.encodings| / 16);
    var u, n := front + EncodeCapabilities(c) + tail, |front|;
    assert u[n..n + 2] == a && u[n + 2..n + 4] == b && u[n + 4..n + 6] == d;
    WordAt(u, n, |c.server| / 16);
    WordAt(u, n + 2, |c.client| / 16);
    WordAt(u, n + 4, |c.encodings| / 16);
    hide Int16, Word2;
  }

  /** The first message of a session: the screen's size and the desktop's name are read back, and its end is found. */
  lemma ServerInitReads(init: Init, format: seq<Byte>, caps: Option<Capabilities>, tail: seq<Byte>)
    requires InitFits(init, format, caps)
    ensures ServerInit(EncodeInit(init, format, caps) + tail, caps.Some?)
         == Message(init, |EncodeInit(init, format, caps)|)
  {
    hide Int16, Int32, EncodeCapabilities, Word2, BigEndian32;
    var w, h, l, n := Word2(init.width), Word2(init.height), BigEndian32(|init.name|), |init.name|;
    var more := if caps.Some? then EncodeCapabilities(caps.value) else [];
    var front := w + h + format + l + init.name;
    var u := EncodeInit(init, format, caps) + tail;
    assert EncodeInit(init, format, caps) == front + more;
    InitParts(w, h, format, l, init.name, more + tail);
    assert u == front + (more + tail);
    WordAt(u, 0, init.width);
    WordAt(u, 2, init.height);
    Int32Reads(u, 20, n);
    if caps.Some? {
      CapabilitiesRead(caps.value, front, tail);
      assert u == front + more + tail;
    }
  }

  lemma InitParts(w: seq<Byte>, h: seq<Byte>, format: seq<Byte>, l: seq<Byte>, name: seq<Byte>, rest: seq<Byte>)
    requires |w| == 2 && |h| == 2 && |format| == 16 && |l| == 4
    ensures var u := w + h + format + l + name + rest;
      |u| >= 24 + |name| && u[0..2] == w && u[2..4] == h && u[20..24] == l && u[24..24 + |name|] == name
  {
  }
}
