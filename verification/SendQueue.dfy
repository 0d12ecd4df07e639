/**
 The send queue and the senders whose payload may exceed it: they fill the buffer, flush it, and
 go on. Payloads reach the wire whole and in order; headers do exactly if they fit, or lose zeros.
 */
module SendQueue {
  import opened Bytes

  const SEND_BUFFER_SIZE := 10 * 1024

  // ---- messages

  /** Four bytes of `n` modulo 2^32, most significant first. */
  function Word32(n: int): (s: seq<Byte>)
    ensures |s| == 4
  {
    var m := n % 0x1_0000_0000;
    var q1 := m / 256;
    var q2 := q1 / 256;
    [q2 / 256, q2 % 256, q1 % 256, m % 256]
  }

  lemma Word32Reads(n: int)
    ensures BigEndian(Word32(n)) == n % 0x1_0000_0000
  {
    BigEndian4(Word32(n));
  }

  /** ClientCutText, section 7.5.6 of RFC 6143; the extended form negates the length. */
  function CutTextHeader(n: nat, extended: bool): (s: seq<Byte>)
    ensures |s| == 8
  {
    [6, 0, 0, 0] + Word32(if extended then 0 - n as int else n)
  }

  function RelayHeader(name: seq<Byte>, n: nat): (s: seq<Byte>)
    ensures |s| == 6 + |name|
  {
    [183, |name| % 256] + name + Word32(n)
  }

  datatype ClipData = ClipData(mime: seq<Byte>, data: seq<Byte>)

  function ItemHeader(c: ClipData): (s: seq<Byte>)
    ensures |s| == 5 + |c.mime|
  {
    [|c.mime| % 256] + c.mime + Word32(|c.data|)
  }

  function ClipItems(cs: seq<ClipData>): seq<Byte> {
    if cs == [] then [] else ItemHeader(cs[0]) + cs[0].data + ClipItems(cs[1..])
  }

  function ClipboardMessage(cs: seq<ClipData>): seq<Byte> {
    [180, |cs| % 256] + ClipItems(cs)
  }

  /** A header, which is written at once, and a payload, which is written in chunks. */
  datatype Piece = Piece(header: seq<Byte>, data: seq<Byte>)

  function ClipPieces(cs: seq<ClipData>): (ps: seq<Piece>)
    ensures |ps| == |cs|
  {
    if cs == [] then [] else [Piece(ItemHeader(cs[0]), cs[0].data)] + ClipPieces(cs[1..])
  }

  function ClipboardPieces(cs: seq<ClipData>): seq<Piece> {
    [Piece([180, |cs| % 256], [])] + ClipPieces(cs)
  }

  function Intended(ps: seq<Piece>): seq<Byte> {
    if ps == [] then [] else ps[0].header + ps[0].data + Intended(ps[1..])
  }

  lemma {:induction false} ClipItemsIntended(cs: seq<ClipData>)
    ensures Intended(ClipPieces(cs)) == ClipItems(cs)
    ensures Intended(ClipboardPieces(cs)) == ClipboardMessage(cs)
    decreases |cs|
  {
    if cs != [] {
      assert ClipPieces(cs)[1..] == ClipPieces(cs[1..]);
      ClipItemsIntended(cs[1..]);
    }
    assert ClipboardPieces(cs)[1..] == ClipPieces(cs);
    assert [180, |cs| % 256] + [] == [180, |cs| % 256];
  }

  // ---- what an open socket gets

  /**
   What has been sent, on the wire or in the buffer, and the fill count. Nothing checks a header
   against the room left: bytes written past the end of the buffer are lost, and the count goes on.
   */
  datatype Queue = Queue(sent: seq<Byte>, len: nat)

  function Overrun(len: nat): nat {
    if len > SEND_BUFFER_SIZE then len - SEND_BUFFER_SIZE else 0
  }

  function Zeros(n: nat): (s: seq<Byte>)
    ensures |s| == n && forall k :: 0 <= k < n ==> s[k] == 0
  {
    seq(n, _ => 0)
  }

  /** How much of `bytes` lands in the buffer. */
  function Fitting(bytes: seq<Byte>, len: nat): (n: nat)
    ensures n <= |bytes| && |bytes| - n == Overrun(len + |bytes|) - Overrun(len)
  {
    if len >= SEND_BUFFER_SIZE then 0
    else if len + |bytes| <= SEND_BUFFER_SIZE then |bytes|
    else SEND_BUFFER_SIZE - len
  }

  function PutHeader(q: Queue, header: seq<Byte>): Queue {
    Queue(q.sent + header[..Fitting(header, q.len)], q.len + |header|)
  }

  /** The chunks start as far before the payload as the count is past the end: there are zeros there. */
  function PutData(q: Queue, data: seq<Byte>): Queue {
    if data == [] then q else Queue(q.sent + Zeros(Overrun(q.len)) + data, 0)
  }

  function SendAll(q: Queue, ps: seq<Piece>): Queue
    decreases |ps|
  {
    if ps == [] then q else SendAll(PutData(PutHeader(q, ps[0].header), ps[0].data), ps[1..])
  }

  /** The fill count after a piece. */
  function Next(len: nat, p: Piece): nat {
    if p.data == [] then len + |p.header| else 0
  }

  predicate LosesOnlyZeros(h: seq<Byte>, len: nat) {
    forall k :: Fitting(h, len) <= k < |h| ==> h[k] == 0
  }

  /** The bytes of every header that do not fit are zeros, and a payload comes after any that do not fit. */
  predicate OnlyZerosLost(len: nat, ps: seq<Piece>)
    decreases |ps|
  {
    if ps == [] then len <= SEND_BUFFER_SIZE
    else
      LosesOnlyZeros(ps[0].header, len) && OnlyZerosLost(Next(len, ps[0]), ps[1..])
  }

  function PieceFilled(p: Piece, len: nat): seq<Byte> {
    var n := Fitting(p.header, len);
    p.header[..n] + Zeros(|p.header| - n) + p.data
  }

  /** What comes out, with zeros for what is lost. */
  function Filled(len: nat, ps: seq<Piece>): seq<Byte>
    decreases |ps|
  {
    if ps == [] then [] else PieceFilled(ps[0], len) + Filled(Next(len, ps[0]), ps[1..])
  }

  lemma ZerosAppend(a: nat, b: nat)
    ensures Zeros(a) + Zeros(b) == Zeros(a + b)
  {
  }

  lemma OnePieceFilled(q: Queue, p: Piece)
    ensures var t := PutData(PutHeader(q, p.header), p.data);
      && t.len == Next(q.len, p)
      && t.sent + Zeros(Overrun(t.len)) == q.sent + Zeros(Overrun(q.len)) + PieceFilled(p, q.len)
  {
    var h, n := p.header, Fitting(p.header, q.len);
    ZerosAppend(Overrun(q.len), |h| - n);
    assert Overrun(q.len) > 0 ==> h[..n] == [];
    assert Overrun(q.len) == 0 ==> Zeros(Overrun(q.len)) == [];
    var put := PutHeader(q, h);
    assert put.sent + Zeros(Overrun(put.len)) == q.sent + Zeros(Overrun(q.len)) + (h[..n] + Zeros(|h| - n));
    if p.data == [] {
      assert h[..n] + Zeros(|h| - n) + [] == h[..n] + Zeros(|h| - n);
    }
    hide Fitting;
  }

  lemma {:induction false} SentIsFilled(q: Queue, ps: seq<Piece>)
    ensures var t := SendAll(q, ps);
      t.sent + Zeros(Overrun(t.len)) == q.sent + Zeros(Overrun(q.len)) + Filled(q.len, ps)
    decreases |ps|
  {
    hide PutData, PutHeader, Overrun, PieceFilled, Next;
    if ps == [] {
      assert q.sent + Zeros(Overrun(q.len)) + [] == q.sent + Zeros(Overrun(q.len));
    } else {
      var p, t := ps[0], PutData(PutHeader(q, ps[0].header), ps[0].data);
      OnePieceFilled(q, p);
      SentIsFilled(t, ps[1..]);
      var first := PieceFilled(p, q.len);
      var before := q.sent + Zeros(Overrun(q.len));
      assert (before + first) + Filled(t.len, ps[1..]) == before + (first + Filled(t.len, ps[1..]));
    }
  }

  lemma EqualParts(a: seq<Byte>, b: seq<Byte>, c: seq<Byte>, d: seq<Byte>)
    requires |a| == |c|
    ensures a + b == c + d <==> a == c && b == d
  {
    if a + b == c + d {
      assert a == (a + b)[..|a|] && b == (a + b)[|a|..];
      assert c == (c + d)[..|c|] && d == (c + d)[|c|..];
    }
  }

  lemma ZerosIff(h: seq<Byte>, n: nat)
    requires n <= |h|
    ensures h[..n] + Zeros(|h| - n) == h <==> forall k :: n <= k < |h| ==> h[k] == 0
  {
    var z := h[..n] + Zeros(|h| - n);
    assert forall k :: 0 <= k < n ==> z[k] == h[k];
    assert forall k :: n <= k < |h| ==> z[k] == 0;
  }

  /** Zeros everywhere: no more than the lost bytes, but they may be followed by nothing. */
  predicate ZerosOnly(len: nat, ps: seq<Piece>)
    decreases |ps|
  {
    ps == [] || (LosesOnlyZeros(ps[0].header, len) && ZerosOnly(Next(len, ps[0]), ps[1..]))
  }

  lemma {:induction false} FilledIff(len: nat, ps: seq<Piece>)
    ensures |Filled(len, ps)| == |Intended(ps)|
    ensures Filled(len, ps) == Intended(ps) <==> ZerosOnly(len, ps)
    decreases |ps|
  {
    if ps != [] {
      FilledIff(Next(len, ps[0]), ps[1..]);
      PartFilled(ps[0], len);
      hide PieceFilled, LosesOnlyZeros, Next;
      EqualParts(PieceFilled(ps[0], len), Filled(Next(len, ps[0]), ps[1..]), ps[0].header + ps[0].data, Intended(ps[1..]));
    }
  }

  lemma PartFilled(p: Piece, len: nat)
    ensures |PieceFilled(p, len)| == |p.header + p.data|
    ensures PieceFilled(p, len) == p.header + p.data <==> LosesOnlyZeros(p.header, len)
  {
    var h, n := p.header, Fitting(p.header, len);
    ZerosIff(h, n);
    EqualParts(h[..n] + Zeros(|h| - n), p.data, h, p.data);
  }

  /** The fill count after the pieces. */
  function LenAfter(len: nat, ps: seq<Piece>): nat
    decreases |ps|
  {
    if ps == [] then len else LenAfter(Next(len, ps[0]), ps[1..])
  }

  lemma {:induction false} LenIs(q: Queue, ps: seq<Piece>)
    ensures SendAll(q, ps).len == LenAfter(q.len, ps)
    ensures OnlyZerosLost(q.len, ps) <==> ZerosOnly(q.len, ps) && LenAfter(q.len, ps) <= SEND_BUFFER_SIZE
    decreases |ps|
  {
    hide Fitting;
    if ps != [] {
      LenIs(PutData(PutHeader(q, ps[0].header), ps[0].data), ps[1..]);
    }
  }

  /**
   On an open socket exactly the intended bytes have been sent, whatever the sizes, if and only if
   what does not fit of the headers is zeros, with a payload to come after it.
   */
  lemma ConservedIff(q: Queue, ps: seq<Piece>)
    requires q.len <= SEND_BUFFER_SIZE
    ensures SendAll(q, ps).sent == q.sent + Intended(ps) <==> OnlyZerosLost(q.len, ps)
  {
    SentIsFilled(q, ps);
    FilledIff(q.len, ps);
    LenIs(q, ps);
    hide SendAll, Filled, Intended, OnlyZerosLost, ZerosOnly, LenAfter;
    var t := SendAll(q, ps);
    assert q.sent + Zeros(0) == q.sent;
    if Overrun(t.len) == 0 {
      assert t.sent + Zeros(0) == t.sent;
      EqualParts(q.sent, Filled(q.len, ps), q.sent, Intended(ps));
    } else {
      assert |t.sent| < |q.sent + Intended(ps)|;
    }
  }

  /** Each header fits behind what is still buffered: nothing after a payload, which ends with a flush. */
  predicate HeadersFit(len: nat, ps: seq<Piece>)
    decreases |ps|
  {
    len <= SEND_BUFFER_SIZE &&
    (ps == [] || (len + |ps[0].header| <= SEND_BUFFER_SIZE
                  && HeadersFit(Next(len, ps[0]), ps[1..])))
  }

  lemma {:induction false} FittingHeadersLoseNothing(len: nat, ps: seq<Piece>)
    requires HeadersFit(len, ps)
    ensures OnlyZerosLost(len, ps)
    decreases |ps|
  {
    if ps != [] {
      FittingHeadersLoseNothing(Next(len, ps[0]), ps[1..]);
    }
  }

  /** A relay name as long as the buffer: its last two bytes and the length of the payload arrive as zeros. */
  lemma LongNameLosesLength(name: seq<Byte>, b: Byte)
    requires |name| == 10240
    ensures var ps := [Piece(RelayHeader(name, 1), [b])];
      && SendAll(Queue([], 0), ps).sent == [183, 0] + name[..10238] + Zeros(6) + [b]
      && SendAll(Queue([], 0), ps).sent != Intended(ps)
  {
    var h := RelayHeader(name, 1);
    var ps := [Piece(h, [b])];
    assert Word32(1) == [0, 0, 0, 1];
    assert h[SEND_BUFFER_SIZE + 5] == 1;
    assert h[..SEND_BUFFER_SIZE] == [183, 0] + name[..SEND_BUFFER_SIZE - 2];
    assert ps[1..] == [];
    assert Fitting(h, 0) == SEND_BUFFER_SIZE;
    assert !OnlyZerosLost(0, ps);
    ConservedIff(Queue([], 0), ps);
    assert [] + Intended(ps) == Intended(ps);
    assert [] + h[..SEND_BUFFER_SIZE] == h[..SEND_BUFFER_SIZE];
    assert SendAll(Queue([], 0), ps) == PutData(PutHeader(Queue([], 0), h), [b]);
  }

  // ---- one turn of the sending loop

  datatype Turn = Turn(remaining: nat, buffered: nat)

  /** Copy as much as fits, which past the end is a negative number, then flush if the socket is open. */
  function LoopTurn(t: Turn, open: bool): Turn {
    if t.remaining == 0 then t
    else
      var room := SEND_BUFFER_SIZE - t.buffered;
      var flushSize := if t.remaining <= room then t.remaining else room;
      Turn(t.remaining - flushSize, if open then 0 else t.buffered + flushSize)
  }

  function Turns(t: Turn, open: bool, n: nat): Turn {
    if n == 0 then t else LoopTurn(Turns(t, open, n - 1), open)
  }

  /**
   The loop ends, after some number of turns, exactly when there is nothing to send, the socket is
   open, or the payload fits in the room left; otherwise it turns forever without copying anything.
   */
  lemma LoopEndsIff(t: Turn, open: bool)
    ensures (exists n: nat :: Turns(t, open, n).remaining == 0)
       <==> t.remaining == 0 || open || t.remaining <= SEND_BUFFER_SIZE - t.buffered
  {
    if t.remaining == 0 {
      assert Turns(t, open, 0).remaining == 0;
    } else if open {
      var n := t.remaining + Overrun(t.buffered) + 1;
      OpenEnds(t, n);
      assert Turns(t, open, n).remaining == 0;
    } else if t.remaining <= SEND_BUFFER_SIZE - t.buffered {
      assert Turns(t, open, 1) == LoopTurn(Turns(t, open, 0), open);
      assert Turns(t, open, 1).remaining == 0;
    } else {
      forall n: nat
        ensures Turns(t, open, n).remaining > 0
      {
        ClosedStalls(t, n);
      }
    }
  }

  /** On an open socket the first turn clears the overrun, and every later one copies something. */
  lemma {:induction false} OpenEnds(t: Turn, n: nat)
    requires t.remaining > 0
    ensures n > 0 ==> Turns(t, true, n).buffered == 0
    ensures n > 0 ==> var all := t.remaining + Overrun(t.buffered);
      Turns(t, true, n).remaining <= if all < n then 0 else all - (n - 1)
  {
    if n > 0 {
      OpenEnds(t, n - 1);
    }
  }

  lemma {:induction false} ClosedStalls(t: Turn, n: nat)
    requires t.remaining > 0 && t.buffered + t.remaining > SEND_BUFFER_SIZE
    ensures Turns(t, false, n).remaining > 0
    ensures Turns(t, false, n).buffered + Turns(t, false, n).remaining == t.buffered + t.remaining
  {
    if n > 0 {
      ClosedStalls(t, n - 1);
    }
  }

  // ---- the queue as it runs

  class Sender {
    const sQ: array<Byte>
    var sQlen: nat
    var open: bool
    /** What has been handed to the socket. */
    ghost var wire: seq<Byte>

    ghost predicate Valid() {
      sQ.Length == SEND_BUFFER_SIZE
    }

    function Buffered(): (n: nat)
      reads this
      ensures n <= SEND_BUFFER_SIZE
    {
      if sQlen <= SEND_BUFFER_SIZE then sQlen else SEND_BUFFER_SIZE
    }

    /** Everything sent so far, on the wire or still buffered, and the fill count. */
    ghost function Value(): Queue
      requires Valid()
      reads this, sQ
    {
      Queue(wire + sQ[..Buffered()], sQlen)
    }

    constructor ()
      ensures Valid() && Value() == Queue([], 0) && open && fresh(sQ)
    {
      sQ := new Byte[SEND_BUFFER_SIZE](_ => 0);
      sQlen, open, wire := 0, true, [];
    }

    /** A view of the buffer that is longer than the buffer cannot be made: that throws. */
    method Flush() returns (threw: bool)
      requires Valid()
      modifies `sQlen, `wire
      ensures threw <==> open && old(sQlen) > SEND_BUFFER_SIZE
      ensures Value().sent == old(Value()).sent
      ensures sQlen == if open && !threw then 0 else old(sQlen)
    {
      if sQlen > 0 && open {
        if sQlen > SEND_BUFFER_SIZE {
          return true;
        }
        wire := wire + sQ[..sQlen];
        sQlen := 0;
      }
      return false;
    }

    /** A header's bytes one by one; an index past the end of the buffer is ignored. */
    method Write(bytes: seq<Byte>)
      requires Valid()
      modifies `sQlen, sQ
      ensures Value() == PutHeader(old(Value()), bytes)
    {
      var i := 0;
      ghost var n := Fitting(bytes, sQlen);
      while i < |bytes|
        modifies sQ
        invariant 0 <= i <= |bytes|
        invariant sQ[..Buffered()] == old(sQ[..Buffered()])
        invariant forall k :: 0 <= k < i && k < n ==> sQ[sQlen + k] == bytes[k]
      {
        if sQlen + i < sQ.Length {
          sQ[sQlen + i] := bytes[i];
        }
        i := i + 1;
      }
      ghost var had := Buffered();
      sQlen := sQlen + |bytes|;
      assert Buffered() == had + n;
      assert sQ[..had + n] == sQ[..had] + sQ[had..had + n];
      assert sQ[had..had + n] == bytes[..n];
    }

    /**
     The chunking loop the senders share. It ends, copies stay inside the buffer, and the payload
     arrives whole. If a header has run past the end, the first turn copies nothing and goes back
     in the payload by as much; reads before its start give undefined, which is stored as 0.
     */
    method SendPayload(data: seq<Byte>)
      requires Valid() && open
      modifies `sQlen, `wire, sQ
      ensures Value() == PutData(old(Value()), data)
    {
      var dataOffset: int, remaining: int := 0, |data|;
      ghost var d := Overrun(sQlen);
      ghost var stream := Zeros(d) + data;
      while remaining > 0
        invariant 0 <= remaining && dataOffset + remaining == |data| && dataOffset + d >= 0
        invariant sQlen > SEND_BUFFER_SIZE ==> dataOffset == 0 && Value() == old(Value())
        invariant sQlen <= SEND_BUFFER_SIZE ==> Value().sent == old(Value()).sent + stream[..dataOffset + d]
        invariant remaining == 0 && data != [] ==> sQlen == 0
        invariant data == [] ==> Value() == old(Value())
        decreases if sQlen > SEND_BUFFER_SIZE then 1 else 0, remaining, sQlen
      {
        var room := SEND_BUFFER_SIZE - sQlen;
        var flushSize := if remaining <= room then remaining else room;
        if flushSize < 0 {
          sQlen := sQlen + flushSize;
          assert stream[..0] == [];
        } else {
          CopyChunk(data, dataOffset, flushSize, stream, d);
          assert stream[..dataOffset + d] + stream[dataOffset + d..dataOffset + d + flushSize]
              == stream[..dataOffset + d + flushSize];
        }
        var threw := Flush();
        remaining := remaining - flushSize;
        dataOffset := dataOffset + flushSize;
      }
      if data != [] {
        assert stream[..|stream|] == stream;
        assert old(Value()).sent + (Zeros(d) + data) == old(Value()).sent + Zeros(d) + data;
      }
    }

    method CopyChunk(data: seq<Byte>, dataOffset: int, flushSize: nat, ghost stream: seq<Byte>, ghost d: nat)
      requires Valid() && sQlen + flushSize <= SEND_BUFFER_SIZE
      requires dataOffset + d >= 0 && dataOffset + flushSize <= |data| && stream == Zeros(d) + data
      modifies `sQlen, sQ
      ensures sQlen == old(sQlen) + flushSize
      ensures Value().sent == old(Value()).sent + stream[dataOffset + d..dataOffset + d + flushSize]
    {
      var i := 0;
      ghost var from := dataOffset + d;
      while i < flushSize
        modifies sQ
        invariant 0 <= i <= flushSize
        invariant forall j :: 0 <= j < sQlen ==> sQ[j] == old(sQ[j])
        invariant forall j :: sQlen <= j < sQlen + i ==> sQ[j] == stream[j - sQlen + from]
      {
        sQ[sQlen + i] := if dataOffset + i < 0 then 0 else data[dataOffset + i];
        i := i + 1;
      }
      ghost var copied, part := sQ[sQlen..sQlen + flushSize], stream[from..from + flushSize];
      assert forall k :: 0 <= k < flushSize ==> copied[k] == sQ[sQlen + k] && part[k] == stream[from + k];
      assert copied == part;
      assert sQ[..sQlen + flushSize] == sQ[..sQlen] + sQ[sQlen..sQlen + flushSize];
      sQlen := sQlen + flushSize;
    }

    method SendPiece(p: Piece)
      requires Valid() && open
      modifies `sQlen, `wire, sQ
      ensures Value() == PutData(PutHeader(old(Value()), p.header), p.data)
    {
      Write(p.header);
      SendPayload(p.data);
    }

    method ClientCutText(data: seq<Byte>, extended: bool)
      requires Valid() && open
      modifies `sQlen, `wire, sQ
      ensures Value() == SendAll(old(Value()), [Piece(CutTextHeader(|data|, extended), data)])
      ensures old(sQlen) <= SEND_BUFFER_SIZE ==>
        (Value().sent == old(Value()).sent + CutTextHeader(|data|, extended) + data
         <==> OnlyZerosLost(old(sQlen), [Piece(CutTextHeader(|data|, extended), data)]))
    {
      ghost var q, p := Value(), Piece(CutTextHeader(|data|, extended), data);
      var length: int := |data|;
      if extended {
        length := -length;
      }
      SendPiece(Piece([6, 0, 0, 0] + Word32(length), data));
      OnePieceSent(q, p);
    }

    method SendUnixRelay(name: seq<Byte>, data: seq<Byte>)
      requires Valid() && open
      modifies `sQlen, `wire, sQ
      ensures Value() == SendAll(old(Value()), [Piece(RelayHeader(name, |data|), data)])
      ensures old(sQlen) <= SEND_BUFFER_SIZE ==>
        (Value().sent == old(Value()).sent + RelayHeader(name, |data|) + data
         <==> OnlyZerosLost(old(sQlen), [Piece(RelayHeader(name, |data|), data)]))
    {
      ghost var q, p := Value(), Piece(RelayHeader(name, |data|), data);
      SendPiece(Piece([183, |name| % 256] + name + Word32(|data|), data));
      OnePieceSent(q, p);
    }

    method SendBinaryClipboard(cs: seq<ClipData>)
      requires Valid() && open
      modifies `sQlen, `wire, sQ
      ensures Value() == SendAll(old(Value()), ClipboardPieces(cs))
      ensures old(sQlen) <= SEND_BUFFER_SIZE ==>
        (Value().sent == old(Value()).sent + ClipboardMessage(cs) <==> OnlyZerosLost(old(sQlen), ClipboardPieces(cs)))
    {
      hide PutHeader, PutData, OnlyZerosLost, Intended;
      ghost var q := Value();
      SendPiece(Piece([180, |cs| % 256], []));
      assert ClipboardPieces(cs)[1..] == ClipPieces(cs);
      var i := 0;
      while i < |cs|
        invariant 0 <= i <= |cs|
        invariant SendAll(Value(), ClipPieces(cs[i..])) == SendAll(q, ClipboardPieces(cs))
      {
        assert ClipPieces(cs[i..])[1..] == ClipPieces(cs[i + 1..]) by {
          assert cs[i..][1..] == cs[i + 1..];
        }
        SendItem(cs[i]);
        i := i + 1;
      }
      ClipItemsIntended(cs);
      if q.len <= SEND_BUFFER_SIZE {
        ConservedIff(q, ClipboardPieces(cs));
      }
    }

    method SendItem(c: ClipData)
      requires Valid() && open
      modifies `sQlen, `wire, sQ
      ensures Value() == PutData(PutHeader(old(Value()), ItemHeader(c)), c.data)
    {
      SendPiece(Piece([|c.mime| % 256] + c.mime + Word32(|c.data|), c.data));
    }
  }

  lemma OnePieceSent(q: Queue, p: Piece)
    ensures SendAll(q, [p]) == PutData(PutHeader(q, p.header), p.data)
    ensures q.len <= SEND_BUFFER_SIZE ==>
      (SendAll(q, [p]).sent == q.sent + p.header + p.data <==> OnlyZerosLost(q.len, [p]))
  {
    assert [p][1..] == [];
    assert Intended([p]) == p.header + p.data;
    assert q.sent + (p.header + p.data) == q.sent + p.header + p.data;
    if q.len <= SEND_BUFFER_SIZE {
      ConservedIff(q, [p]);
    }
    hide PutData, PutHeader, OnlyZerosLost, Intended;
  }
}
