/**
 From datagrams to the frame queue: a server's rectangles, each cut into pieces, whose datagrams
 arrive in any order; what the client reads in them, decodes and submits; and where all of it is,
 whatever the callbacks do.
 */
module UdpToScreen {
  import opened Bytes
  import opened DrawCalls
  import opened FrameUpdates
  import opened MessageParsing
  import opened Reassembly
  import opened StreamToScreen
  import opened UdpDecoding
  import opened UpdateEncoding
  import FrameQueue
  import TcpFrames
  import Tight = TightFormat
  import TightEncoding

  // ---- the header of a datagram

  /** Four bytes, least significant first, as a signed number. */
  function Little32(s: seq<Byte>, i: nat): int
    requires i + 4 <= |s|
  {
    Signed32(s[i] as int + 0x100 * (s[i + 1] as int) + 0x1_0000 * (s[i + 2] as int) + 0x100_0000 * (s[i + 3] as int))
  }

  /** Five numbers, of which the hash is not looked at, and the payload. */
  function ReadDatagram(u8: seq<Byte>): Packet
    requires |u8| >= 20
  {
    Packet(Little32(u8, 0), Little32(u8, 4), Little32(u8, 8), Little32(u8, 16), u8[20..])
  }

  predicate IsInt32(n: int) {
    -0x8000_0000 <= n < 0x8000_0000
  }

  function WriteLittle32(n: int): (s: seq<Byte>)
    ensures |s| == 4
  {
    var m := n % 0x1_0000_0000;
    [m % 256, m / 0x100 % 256, m / 0x1_0000 % 256, m / 0x100_0000]
  }

  function WriteDatagram(p: Packet, hash: int): seq<Byte> {
    WriteLittle32(p.id) + WriteLittle32(p.index) + WriteLittle32(p.pieces) + WriteLittle32(hash)
    + WriteLittle32(p.frameId) + p.payload
  }

  lemma LittleReads(front: seq<Byte>, n: int, tail: seq<Byte>)
    requires IsInt32(n)
    ensures Little32(front + WriteLittle32(n) + tail, |front|) == n
  {
    var s, w := front + WriteLittle32(n) + tail, WriteLittle32(n);
    assert s[|front|] == w[0] && s[|front| + 1] == w[1] && s[|front| + 2] == w[2] && s[|front| + 3] == w[3];
    Digits(n % 0x1_0000_0000);
  }

  lemma Digits(m: nat)
    requires m < 0x1_0000_0000
    ensures m == m % 0x100 + 0x100 * (m / 0x100 % 0x100) + 0x1_0000 * (m / 0x1_0000 % 0x100)
              + 0x100_0000 * (m / 0x100_0000)
  {
    var q1, q2 := m / 0x100, m / 0x1_0000;
    assert q2 == q1 / 0x100 && m / 0x100_0000 == q2 / 0x100;
    assert m == 0x100 * q1 + m % 0x100 && q1 == 0x100 * q2 + q1 % 0x100;
  }

  lemma DatagramReads(p: Packet, hash: int)
    requires IsInt32(p.id) && IsInt32(p.index) && IsInt32(p.pieces) && IsInt32(p.frameId)
    ensures |WriteDatagram(p, hash)| >= 20 && ReadDatagram(WriteDatagram(p, hash)) == p
  {
    hide Little32, WriteLittle32;
    var a, b, c := WriteLittle32(p.id), WriteLittle32(p.index), WriteLittle32(p.pieces);
    var d, e := WriteLittle32(hash), WriteLittle32(p.frameId);
    var u8 := WriteDatagram(p, hash);
    assert u8 == [] + a + (b + c + d + e + p.payload) == a + b + (c + d + e + p.payload)
        == (a + b) + c + (d + e + p.payload) == (a + b + c + d) + e + p.payload;
    LittleReads([], p.id, b + c + d + e + p.payload);
    LittleReads(a, p.index, c + d + e + p.payload);
    LittleReads(a + b, p.pieces, d + e + p.payload);
    LittleReads(a + b + c + d, p.frameId, p.payload);
    assert u8[20..] == p.payload;
  }

  // ---- one message

  /** `failed`: the decoder threw, which ends the connection. */
  datatype Handled = Handled(zlibs: seq<seq<Tight.Chunk>>, calls: seq<Call>, failed: bool)

  /** `_handleUdpRect`: a Tight rectangle, or the last of a frame, whose x is one less than the frame's count. */
  function HandleUdpRect(z: Tight.Inflate, zlibs: seq<seq<Tight.Chunk>>, data: seq<Byte>, frameId: int): Handled
    requires |zlibs| == 4
  {
    if |data| < 12 then Handled(zlibs, [], false)
    else
      var h := ParseHeader(data[..12]);
      if h.encoding == PSEUDO_ENCODING_LAST_RECT then Handled(zlibs, [Flip(frameId, h.area.x + 1)], false)
      else if h.encoding == ENCODING_TIGHT then
        var r := UdpDecodeRect(z, Tight.Job(h.area, frameId), zlibs, data);
        Handled(r.zlibs, r.calls, r.status == UdpStatus.Threw)
      else Handled(zlibs, [], false)
  }

  // ---- what a server sends

  datatype Content = Rectangle(area: Area, packet: TightEncoding.Packet) | LastRect(count: nat)

  ghost predicate LegalContent(u: Content) {
    match u
    case Rectangle(a, p) => IsWord(a.x) && IsWord(a.y) && IsWord(a.w) && IsWord(a.h) && TightEncoding.Legal(p, a.w, a.h)
    case LastRect(n) => 1 <= n <= 0x1_0000
  }

  ghost function EncodeContent(u: Content): seq<Byte>
    requires LegalContent(u)
  {
    match u
    case Rectangle(a, p) => EncodeHeader(a, 7) + TightEncoding.Encode(p, a.w, a.h)
    case LastRect(n) => EncodeHeader(Area(n - 1, 0, 0, 0), MARKER)
  }

  ghost function Shows(u: Content, frameId: int): Call
    requires LegalContent(u)
  {
    match u
    case Rectangle(a, p) => TightEncoding.Meaning(Tight.Job(a, frameId), p.rect)
    case LastRect(n) => Flip(frameId, n)
  }

  /** Its compressed pixels, if it has any, inflate where it comes. */
  ghost predicate Inflatable(z: Tight.Inflate, zlibs: seq<seq<Tight.Chunk>>, u: Content)
    requires LegalContent(u) && |zlibs| == 4
  {
    u.Rectangle? ==>
      TightEncoding.Inflates(z, Tight.ResetStreams(zlibs, u.packet.resets), u.packet.rect, u.area.w, u.area.h)
  }

  lemma MessageShown(z: Tight.Inflate, zlibs: seq<seq<Tight.Chunk>>, u: Content, frameId: int)
    requires LegalContent(u) && |zlibs| == 4 && Inflatable(z, zlibs, u)
    ensures var o := HandleUdpRect(z, zlibs, EncodeContent(u), frameId);
      !o.failed && o.calls == [Shows(u, frameId)] && |o.zlibs| == 4
  {
    hide UdpDecodeRect, TightEncoding.Encode, TightEncoding.Inflates, TightEncoding.LegalRect, TightEncoding.Meaning,
      EncodeHeader, ParseHeader, Tight.ResetStreams, TightEncoding.ZlibsAfter;
    match u
    case Rectangle(a, p) =>
      var h, e := EncodeHeader(a, 7), TightEncoding.Encode(p, a.w, a.h);
      HeaderReads(a, 7);
      assert (h + e)[..12] == h;
      DatagramDecodes(z, Tight.Job(a, frameId), zlibs, h, p);
      FourStreams(p.rect, Tight.ResetStreams(zlibs, p.resets), a.w, a.h);
    case LastRect(n) =>
      var h := EncodeHeader(Area(n - 1, 0, 0, 0), MARKER);
      HeaderReads(Area(n - 1, 0, 0, 0), MARKER);
      assert h[..12] == h;
  }

  lemma FourStreams(r: TightEncoding.Rect, zlibs: seq<seq<Tight.Chunk>>, w: nat, h: nat)
    requires TightEncoding.LegalRect(r, w, h) && |zlibs| == 4
    ensures |TightEncoding.ZlibsAfter(r, zlibs, w, h)| == 4
  {
  }

  // ---- all messages that arrive

  /** The calls for the messages handed on, in order; after a failure nothing is handled. */
  function HandleAll(z: Tight.Inflate, ds: seq<Delivery>): (o: Handled)
    ensures |o.zlibs| == 4
  {
    if ds == [] then Handled([[], [], [], []], [], false)
    else
      var o, d := HandleAll(z, ds[..|ds| - 1]), ds[|ds| - 1];
      if o.failed then o
      else
        var next := HandleUdpRect(z, o.zlibs, d.data, d.frameId);
        Handled(next.zlibs, o.calls + next.calls, next.failed)
  }

  /** The message is this, cut into pieces. */
  ghost predicate CutFrom(m: Message, u: Content) {
    |m.parts| > 0 && LegalContent(u) && Concat(m.parts) == EncodeContent(u)
  }

  ghost predicate Carries(sent: Traffic, contents: map<int, Content>) {
    contents.Keys == sent.Keys && forall id :: id in sent ==> CutFrom(sent[id], contents[id])
  }

  ghost function ContentOf(sent: Traffic, contents: map<int, Content>, id: int): (u: Content)
    requires Carries(sent, contents) && id in sent
    ensures CutFrom(sent[id], u)
  {
    contents[id]
  }

  /** What the messages show, in the order in which they were completed. */
  ghost function ShowsAll(sent: Traffic, contents: map<int, Content>, ids: seq<int>): (calls: seq<Call>)
    requires Carries(sent, contents) && forall k :: 0 <= k < |ids| ==> ids[k] in sent
    ensures |calls| == |ids|
  {
    seq(|ids|, k requires 0 <= k < |ids| => Shows(ContentOf(sent, contents, ids[k]), sent[ids[k]].frameId))
  }

  /** Each message's pixels inflate after those before it. */
  ghost predicate AllInflate(z: Tight.Inflate, sent: Traffic, contents: map<int, Content>, ids: seq<int>)
    requires Carries(sent, contents) && forall k :: 0 <= k < |ids| ==> ids[k] in sent
  {
    forall k :: 0 <= k < |ids| ==>
      Inflatable(z, HandleAll(z, Deliveries(sent, ids[..k])).zlibs, ContentOf(sent, contents, ids[k]))
  }

  lemma {:induction false} AllShown(z: Tight.Inflate, sent: Traffic, contents: map<int, Content>, ids: seq<int>)
    requires Carries(sent, contents) && forall k :: 0 <= k < |ids| ==> ids[k] in sent
    requires AllInflate(z, sent, contents, ids)
    ensures var o := HandleAll(z, Deliveries(sent, ids));
      !o.failed && o.calls == ShowsAll(sent, contents, ids)
    decreases |ids|
  {
    hide HandleUdpRect, EncodeContent, LegalContent, Shows, Inflatable, Carries, HandleAll, Deliveries, ShowsAll;
    if ids == [] {
      NothingHandled(z, sent, contents);
    } else {
      var n := |ids| - 1;
      var init, last := ids[..n], ids[n];
      assert forall k :: 0 <= k < n ==> init[..k] == ids[..k];
      AllShown(z, sent, contents, init);
      LastHandled(z, sent, contents, ids);
      MessageShown(z, HandleAll(z, Deliveries(sent, init)).zlibs, ContentOf(sent, contents, last), sent[last].frameId);
    }
  }

  lemma NothingHandled(z: Tight.Inflate, sent: Traffic, contents: map<int, Content>)
    requires Carries(sent, contents)
    ensures var o := HandleAll(z, Deliveries(sent, [])); !o.failed && o.calls == ShowsAll(sent, contents, [])
  {
  }

  lemma LastHandled(z: Tight.Inflate, sent: Traffic, contents: map<int, Content>, ids: seq<int>)
    requires Carries(sent, contents) && ids != [] && forall k :: 0 <= k < |ids| ==> ids[k] in sent
    ensures var n := |ids| - 1;
      var u, frameId := ContentOf(sent, contents, ids[n]), sent[ids[n]].frameId;
      && ShowsAll(sent, contents, ids) == ShowsAll(sent, contents, ids[..n]) + [Shows(u, frameId)]
      && var o := HandleAll(z, Deliveries(sent, ids[..n]));
         var next := HandleUdpRect(z, o.zlibs, EncodeContent(u), frameId);
         HandleAll(z, Deliveries(sent, ids))
         == if o.failed then o else Handled(next.zlibs, o.calls + next.calls, next.failed)
  {
    hide HandleUdpRect, EncodeContent, LegalContent, Shows, Carries;
    var n := |ids| - 1;
    var ds := Deliveries(sent, ids);
    assert ds[..n] == Deliveries(sent, ids[..n]);
    assert ds[n] == Delivery(EncodeContent(ContentOf(sent, contents, ids[n])), sent[ids[n]].frameId);
  }

  // ---- to the queue

  /** The browser gets the datagrams of these pieces, each with some hash. */
  ghost predicate Bears(sent: Traffic, arrived: seq<Piece>, datagrams: seq<seq<Byte>>)
    requires Arrived(sent, arrived)
  {
    && |datagrams| == |arrived|
    && forall k :: 0 <= k < |arrived| ==> BearsPiece(PacketOf(sent, arrived[k]), datagrams[k])
  }

  ghost predicate BearsPiece(p: Packet, u8: seq<Byte>) {
    && IsInt32(p.id) && IsInt32(p.index) && IsInt32(p.pieces) && IsInt32(p.frameId)
    && exists hash: int :: u8 == WriteDatagram(p, hash)
  }

  function ReadAll(datagrams: seq<seq<Byte>>): (ps: seq<Packet>)
    requires forall k :: 0 <= k < |datagrams| ==> |datagrams[k]| >= 20
  {
    seq(|datagrams|, k requires 0 <= k < |datagrams| => ReadDatagram(datagrams[k]))
  }

  lemma AllRead(sent: Traffic, arrived: seq<Piece>, datagrams: seq<seq<Byte>>)
    requires Arrived(sent, arrived) && Bears(sent, arrived, datagrams)
    ensures forall k :: 0 <= k < |datagrams| ==> |datagrams[k]| >= 20
    ensures ReadAll(datagrams) == Packets(sent, arrived)
  {
    forall k | 0 <= k < |datagrams|
      ensures |datagrams[k]| >= 20 && ReadDatagram(datagrams[k]) == PacketOf(sent, arrived[k])
    {
      var p := PacketOf(sent, arrived[k]);
      assert BearsPiece(p, datagrams[k]);
      var hash: int :| datagrams[k] == WriteDatagram(p, hash);
      DatagramReads(p, hash);
    }
  }

  lemma ShownAreDrawn(sent: Traffic, contents: map<int, Content>, ids: seq<int>)
    requires Carries(sent, contents) && forall k :: 0 <= k < |ids| ==> ids[k] in sent
    ensures AllDrawn(ShowsAll(sent, contents, ids))
    ensures forall k :: 0 <= k < |ids| ==> !ShowsAll(sent, contents, ids)[k].NewFrame?
  {
    forall k | 0 <= k < |ids|
      ensures var c := ShowsAll(sent, contents, ids)[k]; !c.NewFrame? && !StaysOut(c)
    {
      var u := ContentOf(sent, contents, ids[k]);
      assert CutFrom(sent[ids[k]], u);
    }
  }

  lemma {:induction false} DrawingsAreSubmitted(calls: seq<Call>)
    requires AllDrawn(Drawings(calls))
    ensures Submissions(calls) == Drawings(calls)
    decreases |calls|
  {
    if calls != [] {
      var rest := Drawings(calls[1..]);
      if !calls[0].NewFrame? {
        assert Drawings(calls) == [calls[0]] + rest && Drawings(calls)[0] == calls[0] && Drawings(calls)[1..] == rest;
        assert AllDrawn(rest);
      } else {
        assert Drawings(calls) == [] + rest == rest;
      }
      DrawingsAreSubmitted(calls[1..]);
    }
  }

  /** In any run: what has been submitted, if nothing stays out, and where it is. */
  lemma Located(es: seq<FrameQueue.Event>, shown: seq<Call>)
    requires Drawings(CallsMade(es)) == shown && AllDrawn(shown)
    ensures var t := TcpFrames.Run(FrameQueue.INITIAL, es);
      && t.log == shown
      && multiset(FrameQueue.Items(t.rendered)) + multiset(FrameQueue.Queued(t.slots))
         + multiset(FrameQueue.Items(t.discarded)) == multiset(FrameQueue.Submitted(shown))
  {
    hide CallsMade, Drawings, AllDrawn, Submissions, TcpFrames.Run, FrameQueue.Items, FrameQueue.Queued,
      FrameQueue.Submitted;
    DrawingsAreSubmitted(CallsMade(es));
    RunLogs(FrameQueue.INITIAL, es);
    assert [] + Submissions(CallsMade(es)) == Submissions(CallsMade(es));
    TcpFrames.InitialSound();
    TcpFrames.RunIsSound(FrameQueue.INITIAL, es);
  }

  lemma SomeParts(sent: Traffic, contents: map<int, Content>, id: int)
    requires Carries(sent, contents) && id in sent
    ensures |sent[id].parts| > 0
  {
    assert CutFrom(sent[id], contents[id]);
  }

  lemma PiecesOf(sent: Traffic, arrived: seq<Piece>)
    requires Arrival(sent, arrived)
    ensures Arrived(sent, arrived) && forall k :: 0 <= k < |arrived| ==> IsPiece(sent, arrived[k])
  {
  }

  /**
   A server cuts rectangles of any frames into pieces. Each piece arrives once, in any order and
   among those of other messages; the client submits what it decodes, and flushes, animation
   frames, loaded images, load events and changes of transport fall anywhere between. Then what has
   been submitted is what the completed messages show, in the order in which they were completed,
   each in its own frame; and each of it is in exactly one place: on the canvas, in the queue, or
   dropped. A message is completed once, if all its pieces have arrived, and else never.
   */
  lemma UdpIsShown(z: Tight.Inflate, sent: Traffic, contents: map<int, Content>, arrived: seq<Piece>,
                   datagrams: seq<seq<Byte>>, es: seq<FrameQueue.Event>)
    requires Carries(sent, contents) && Arrival(sent, arrived) && Bears(sent, arrived, datagrams)
    requires AllInflate(z, sent, contents, Completed(sent, arrived))
    requires forall k :: 0 <= k < |datagrams| ==> |datagrams[k]| >= 20
    requires ReceiveAll(ReadAll(datagrams)).Some? ==>
      Drawings(CallsMade(es)) == HandleAll(z, ReceiveAll(ReadAll(datagrams)).value.1).calls
    ensures ReceiveAll(ReadAll(datagrams)).Some?
    ensures !HandleAll(z, ReceiveAll(ReadAll(datagrams)).value.1).failed
    ensures var t, shown := TcpFrames.Run(FrameQueue.INITIAL, es), ShowsAll(sent, contents, Completed(sent, arrived));
      && t.log == shown
      && multiset(FrameQueue.Items(t.rendered)) + multiset(FrameQueue.Queued(t.slots))
         + multiset(FrameQueue.Items(t.discarded)) == multiset(FrameQueue.Submitted(shown))
    ensures forall id :: id in sent ==>
      multiset(Completed(sent, arrived))[id]
      == if forall x: nat :: x < |sent[id].parts| ==> Piece(id, x) in arrived then 1 else 0
  {
    hide *;
    PiecesOf(sent, arrived);
    forall id | id in sent
      ensures multiset(Completed(sent, arrived))[id]
           == if forall x: nat :: x < |sent[id].parts| ==> Piece(id, x) in arrived then 1 else 0
    {
      SomeParts(sent, contents, id);
      DeliveredOnce(sent, arrived, id);
    }
    var ids := Completed(sent, arrived);
    AllRead(sent, arrived, datagrams);
    AnyOrderDelivers(sent, arrived);
    AllShown(z, sent, contents, ids);
    ShownAreDrawn(sent, contents, ids);
    Located(es, ShowsAll(sent, contents, ids));
  }

  // ---- the handler as it runs

  method OnUdpRect(decoder: UDPDecoder, data: seq<Byte>, frameId: int, display: CallLog) returns (failed: bool)
    requires |decoder.zlibs| == 4
    modifies decoder, decoder.scratchBuffer, display
    ensures |decoder.zlibs| == 4 && (decoder.scratchBuffer == old(decoder.scratchBuffer) || fresh(decoder.scratchBuffer))
    ensures var o := HandleUdpRect(decoder.inflate, old(decoder.zlibs), data, frameId);
      decoder.zlibs == o.zlibs && display.calls == old(display.calls) + o.calls && failed == o.failed
  {
    hide UdpDecodeRect;
    if |data| < 12 {
      return false;
    }
    var frame := ParseHeader(data[..12]);
    if frame.encoding == PSEUDO_ENCODING_LAST_RECT {
      display.Record(Flip(frameId, frame.area.x + 1));
    } else if frame.encoding == ENCODING_TIGHT {
      var status := decoder.DecodeDatagram(Tight.Job(frame.area, frameId), data, display);
      return status == UdpStatus.Threw;
    }
    return false;
  }
}
