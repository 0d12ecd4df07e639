/**
 Messages that arrive over UDP in pieces, in any order and among one another: the buffer that
 collects them, and what it delivers.
 */
module Reassembly {
  import opened Arithmetic
  import opened Bytes

  /** The numbers at the front of a datagram, and what follows them. */
  datatype Packet = Packet(id: int, index: int, pieces: int, frameId: int, payload: seq<Byte>)

  /** An entry of `udpBuffer`. `data` is a JavaScript array of `length` slots, some of them empty. */
  datatype Entry = Entry(total: int, received: nat, totalBytes: nat, length: int, data: map<int, seq<Byte>>)

  datatype Delivery = Delivery(data: seq<Byte>, frameId: int)

  /** A message that was handed on, nothing yet, or an exception from an empty slot. */
  datatype Result = Delivered(d: Delivery) | Collected | Threw

  // ---- one datagram

  /** `data[i] = payload`: an index past the end lengthens the array, a negative one does not. */
  function Put(e: Entry, index: int, payload: seq<Byte>): Entry {
    e.(data := e.data[index := payload],
       length := if index >= e.length then index + 1 else e.length,
       received := e.received + 1, totalBytes := e.totalBytes + |payload|)
  }

  predicate Full(e: Entry) {
    e.total == e.received
  }

  predicate NoHole(e: Entry) {
    forall x :: 0 <= x < e.length ==> x in e.data
  }

  /** The pieces in index order. */
  function Joined(e: Entry, n: nat): seq<Byte>
    requires forall x :: 0 <= x < n ==> x in e.data
  {
    if n == 0 then [] else Joined(e, n - 1) + e.data[n - 1]
  }

  /** An array of `n` bytes that begins with `s`. */
  function ZeroFilled(s: seq<Byte>, n: nat): (r: seq<Byte>)
    ensures |s| == n ==> r == s
  {
    if |s| >= n then s else s + seq(n - |s|, _ => 0)
  }

  function Receive(buffer: map<int, Entry>, p: Packet): (map<int, Entry>, Result) {
    if p.pieces == 1 then
      (buffer, Delivered(Delivery(p.payload, p.frameId)))
    else if p.id in buffer then
      var e := Put(buffer[p.id], p.index, p.payload);
      if !Full(e) then (buffer[p.id := e], Collected)
      else if !NoHole(e) then (buffer[p.id := e], Threw)
      else
        (buffer - {p.id},
         Delivered(Delivery(ZeroFilled(Joined(e, if e.length < 0 then 0 else e.length), e.totalBytes), p.frameId)))
    else
      (buffer[p.id := Put(Entry(p.pieces, 0, 0, p.pieces, map[]), p.index, p.payload)], Collected)
  }

  // ---- the messages a server sends

  /** A message: its pieces, and the frame its datagrams name. */
  datatype Message = Message(parts: seq<seq<Byte>>, frameId: int)

  /** Which piece of which message a datagram carries. */
  datatype Piece = Piece(id: int, index: nat)

  type Traffic = map<int, Message>

  predicate IsPiece(sent: Traffic, p: Piece) {
    p.id in sent && p.index < |sent[p.id].parts|
  }

  function PacketOf(sent: Traffic, p: Piece): Packet
    requires IsPiece(sent, p)
  {
    Packet(p.id, p.index, |sent[p.id].parts|, sent[p.id].frameId, sent[p.id].parts[p.index])
  }

  /** Pieces of sent messages, in any order and any number of times. */
  ghost predicate Arrived(sent: Traffic, arrived: seq<Piece>) {
    forall k :: 0 <= k < |arrived| ==> IsPiece(sent, arrived[k])
  }

  /** ... none of them twice. */
  ghost predicate Arrival(sent: Traffic, arrived: seq<Piece>) {
    && Arrived(sent, arrived)
    && (forall i, k :: 0 <= i < k < |arrived| ==> arrived[i] != arrived[k])
  }

  /** The indices of message `id` in the order they arrived. */
  function Of(arrived: seq<Piece>, id: int): seq<nat> {
    if arrived == [] then []
    else
      var last := arrived[|arrived| - 1];
      Of(arrived[..|arrived| - 1], id) + if last.id == id then [last.index] else []
  }

  /** What has come since the last time `n` were there. */
  function Block(xs: seq<nat>, n: nat): (b: seq<nat>)
    ensures n > 0 ==> |b| == |xs| % n
  {
    if n == 0 then [] else xs[|xs| - |xs| % n..]
  }

  /** No two of the first `n` are the same, no two of the next `n`, and so on; an unfinished block may repeat. */
  ghost predicate BlocksDistinct(xs: seq<nat>, n: nat)
    decreases |xs|
  {
    n == 0 || |xs| < n || (Distinct(xs[..n]) && BlocksDistinct(xs[n..], n))
  }

  /** The messages completed, in order: one each time another `n` of its pieces are there. */
  function Completed(sent: Traffic, arrived: seq<Piece>): (ids: seq<int>)
    requires forall k :: 0 <= k < |arrived| ==> IsPiece(sent, arrived[k])
    ensures forall k :: 0 <= k < |ids| ==> ids[k] in sent
  {
    if arrived == [] then []
    else
      var last := arrived[|arrived| - 1];
      assert IsPiece(sent, last);
      Completed(sent, arrived[..|arrived| - 1])
      + if |Of(arrived, last.id)| % |sent[last.id].parts| == 0 then [last.id] else []
  }

  function Whole(m: Message): Delivery {
    Delivery(Concat(m.parts), m.frameId)
  }

  function Deliveries(sent: Traffic, ids: seq<int>): (ds: seq<Delivery>)
    requires forall k :: 0 <= k < |ids| ==> ids[k] in sent
    ensures |ds| == |ids|
  {
    seq(|ids|, k requires 0 <= k < |ids| => Whole(sent[ids[k]]))
  }

  // ---- sets of indices

  ghost predicate Distinct(indices: seq<nat>) {
    forall i, k :: 0 <= i < k < |indices| ==> indices[i] != indices[k]
  }

  ghost function Elements(indices: seq<nat>): set<nat> {
    set k | 0 <= k < |indices| :: indices[k]
  }

  lemma {:induction false} DistinctIffAsMany(indices: seq<nat>)
    ensures |Elements(indices)| <= |indices|
    ensures Distinct(indices) <==> |Elements(indices)| == |indices|
  {
    if indices == [] {
      assert Elements(indices) == {};
    } else {
      var n := |indices| - 1;
      var init, last := indices[..n], indices[n];
      DistinctIffAsMany(init);
      assert init + [last] == indices;
      forall x
        ensures x in Elements(indices) <==> x in Elements(init) || x == last
      {
        if x in Elements(init) {
          var k :| 0 <= k < |init| && init[k] == x;
          assert indices[k] == x;
        }
      }
      assert Elements(indices) == Elements(init) + {last};
      if last in Elements(init) {
        var k :| 0 <= k < n && init[k] == last;
        assert indices[k] == indices[n];
        assert Elements(indices) == Elements(init);
      } else if Distinct(init) {
        assert forall i :: 0 <= i < n ==> indices[i] in Elements(init);
      } else {
        var i, k :| 0 <= i < k < |init| && init[i] == init[k];
        assert indices[i] == indices[k];
      }
    }
  }

  /** `n` different numbers below `n` leave none out; fewer do. */
  lemma {:induction false} FullIffAsMany(have: set<nat>, n: nat)
    requires forall i :: i in have ==> i < n
    ensures |have| == n <==> forall i: nat :: i < n ==> i in have
  {
    AllIndices(have, n);
    if forall i: nat :: i < n ==> i in have {
      AllBelow(have, n);
    }
  }

  lemma {:induction false} AllBelow(have: set<nat>, n: nat)
    requires forall i: nat :: i < n ==> i in have
    ensures |have| >= n
  {
    if n > 0 {
      AllBelow(have - {n - 1}, n - 1);
    }
  }

  /** As many indices below `n` as there are numbers below `n` are all of them. */
  lemma {:induction false} AllIndices(have: set<nat>, n: nat)
    requires forall i :: i in have ==> i < n
    ensures |have| <= n
    ensures |have| == n ==> forall i: nat :: i < n ==> i in have
  {
    if n == 0 {
      assert forall i :: i !in have;
    } else if n - 1 in have {
      AllIndices(have - {n - 1}, n - 1);
    } else {
      AllIndices(have, n - 1);
    }
  }

  // ---- lengths

  /** The total length of the parts below `n` whose index is in `have`. */
  ghost function Size(parts: seq<seq<Byte>>, have: set<nat>, n: nat): nat
    requires n <= |parts|
  {
    if n == 0 then 0 else Size(parts, have, n - 1) + if n - 1 in have then |parts[n - 1]| else 0
  }

  lemma {:induction false} SizeAdds(parts: seq<seq<Byte>>, have: set<nat>, i: nat, n: nat)
    requires n <= |parts| && i < |parts| && i !in have
    ensures Size(parts, have + {i}, n) == Size(parts, have, n) + if i < n then |parts[i]| else 0
  {
    if n > 0 {
      SizeAdds(parts, have, i, n - 1);
    }
  }

  lemma {:induction false} SizeOfAll(parts: seq<seq<Byte>>, have: set<nat>, n: nat)
    requires n <= |parts| && forall i: nat :: i < n ==> i in have
    ensures Size(parts, have, n) == |Concat(parts[..n])|
  {
    if n > 0 {
      SizeOfAll(parts, have, n - 1);
      assert parts[..n] == parts[..n - 1] + [parts[n - 1]];
      ConcatAppend(parts[..n - 1], [parts[n - 1]]);
      ConcatOne(parts[n - 1]);
    } else {
      assert parts[..0] == [];
    }
  }

  lemma ConcatOne(s: seq<Byte>)
    ensures Concat([s]) == s
  {
    assert [s][1..] == [];
    assert s + [] == s;
  }

  lemma {:induction false} JoinedIsConcat(e: Entry, parts: seq<seq<Byte>>, n: nat)
    requires n <= |parts| && forall x :: 0 <= x < n ==> x in e.data && e.data[x] == parts[x]
    ensures Joined(e, n) == Concat(parts[..n])
  {
    if n > 0 {
      JoinedIsConcat(e, parts, n - 1);
      assert parts[..n] == parts[..n - 1] + [parts[n - 1]];
      ConcatAppend(parts[..n - 1], [parts[n - 1]]);
      ConcatOne(parts[n - 1]);
    } else {
      assert parts[..0] == [];
    }
  }

  lemma {:induction false} NothingYet(parts: seq<seq<Byte>>, n: nat)
    requires n <= |parts|
    ensures Size(parts, {}, n) == 0
  {
    if n > 0 {
      NothingYet(parts, n - 1);
    }
  }

  function TotalBytes(parts: seq<seq<Byte>>, block: seq<nat>): nat
    requires forall k :: 0 <= k < |block| ==> block[k] < |parts|
  {
    if block == [] then 0
    else TotalBytes(parts, block[..|block| - 1]) + |parts[block[|block| - 1]]|
  }

  lemma {:induction false} TotalIsSize(parts: seq<seq<Byte>>, block: seq<nat>)
    requires (forall k :: 0 <= k < |block| ==> block[k] < |parts|) && Distinct(block)
    ensures TotalBytes(parts, block) == Size(parts, Elements(block), |parts|)
  {
    if block == [] {
      assert Elements(block) == {};
      NothingYet(parts, |parts|);
    } else {
      var n := |block| - 1;
      var init, last := block[..n], block[n];
      TotalIsSize(parts, init);
      ElementsGrow(init, last);
      assert init + [last] == block;
      assert last !in Elements(init);
      SizeAdds(parts, Elements(init), last, |parts|);
    }
  }

  lemma ElementsGrow(init: seq<nat>, last: nat)
    ensures Elements(init + [last]) == Elements(init) + {last}
  {
    var all := init + [last];
    forall x
      ensures x in Elements(all) <==> x in Elements(init) || x == last
    {
      if x in Elements(init) {
        var k :| 0 <= k < |init| && init[k] == x;
        assert all[k] == x;
      }
      assert all[|init|] == last;
    }
  }

  // ---- the buffer at any moment

  /** An entry into which exactly the pieces of `block` have been put. */
  ghost predicate Holds(e: Entry, parts: seq<seq<Byte>>, block: seq<nat>) {
    && (forall k :: 0 <= k < |block| ==> block[k] < |parts|)
    && e.total == e.length == |parts| && e.received == |block|
    && (forall x :: x in e.data <==> x >= 0 && x in Elements(block))
    && (forall x :: x in Elements(block) ==> x < |parts| && e.data[x] == parts[x])
    && e.totalBytes == TotalBytes(parts, block)
  }

  ghost predicate Collecting(sent: Traffic, arrived: seq<Piece>, buffer: map<int, Entry>, id: int)
    requires id in sent
  {
    var block := Block(Of(arrived, id), |sent[id].parts|);
    if block == [] then id !in buffer else id in buffer && Holds(buffer[id], sent[id].parts, block)
  }

  ghost predicate InStep(sent: Traffic, arrived: seq<Piece>, buffer: map<int, Entry>) {
    && (forall id :: id in sent ==> Collecting(sent, arrived, buffer, id))
    && (forall id :: id in buffer ==> id in sent)
  }

  lemma PutHolds(e: Entry, parts: seq<seq<Byte>>, block: seq<nat>, i: nat)
    requires Holds(e, parts, block) && i < |parts|
    ensures Holds(Put(e, i, parts[i]), parts, block + [i])
  {
    ElementsGrow(block, i);
    assert (block + [i])[..|block|] == block;
    hide Elements;
  }

  lemma FirstHolds(parts: seq<seq<Byte>>, i: nat)
    requires i < |parts|
    ensures Holds(Put(Entry(|parts|, 0, 0, |parts|, map[]), i, parts[i]), parts, [i])
  {
    var e := Entry(|parts|, 0, 0, |parts|, map[]);
    assert Elements([]) == {};
    assert [] + [i] == [i];
    PutHolds(e, parts, [], i);
  }

  /** As many pieces as the message has leave no hole exactly if they are all different. */
  lemma NoHoleIff(e: Entry, parts: seq<seq<Byte>>, block: seq<nat>)
    requires Holds(e, parts, block) && |block| == |parts|
    ensures NoHole(e) <==> Distinct(block)
  {
    DistinctIffAsMany(block);
    FullIffAsMany(Elements(block), |parts|);
    hide Elements, Distinct;
    if forall i: nat :: i < |parts| ==> i in Elements(block) {
      assert NoHole(e);
    } else {
      var i: nat :| i < |parts| && i !in Elements(block);
      assert i !in e.data;
    }
  }

  /** An entry with every part in it is the whole message. */
  lemma FullIsWhole(e: Entry, parts: seq<seq<Byte>>, block: seq<nat>)
    requires Holds(e, parts, block) && |block| == |parts| && Distinct(block)
    ensures NoHole(e) && ZeroFilled(Joined(e, e.length), e.totalBytes) == Concat(parts)
  {
    NoHoleIff(e, parts, block);
    assert forall i: nat :: i < |parts| ==> i in e.data && i in Elements(block);
    TotalIsSize(parts, block);
    SizeOfAll(parts, Elements(block), |parts|);
    JoinedIsConcat(e, parts, |parts|);
    assert parts[..|parts|] == parts;
  }

  lemma BlockGrows(xs: seq<nat>, x: nat, n: nat)
    requires n > 0
    ensures Block(xs + [x], n) == if |Block(xs, n)| + 1 == n then [] else Block(xs, n) + [x]
    ensures (|xs| + 1) % n == 0 <==> |Block(xs, n)| + 1 == n
  {
    NextRemainder(|xs|, n);
  }

  lemma NextRemainder(m: nat, n: nat)
    requires n > 0
    ensures (m + 1) % n == if m % n + 1 == n then 0 else m % n + 1
    ensures (m + 1) / n == m / n + if m % n + 1 == n then 1 else 0
  {
    var q, r := m / n, m % n;
    assert m == q * n + r;
    if r + 1 == n {
      assert m + 1 == (q + 1) * n + 0;
      DivModUnique(m + 1, n, q + 1, 0);
    } else {
      DivModUnique(m + 1, n, q, r + 1);
    }
  }

  lemma OfGrows(arrived: seq<Piece>, p: Piece, id: int)
    ensures Of(arrived + [p], id) == Of(arrived, id) + if p.id == id then [p.index] else []
  {
    assert (arrived + [p])[..|arrived|] == arrived;
  }

  lemma OthersUntouched(sent: Traffic, arrived: seq<Piece>, p: Piece, buffer: map<int, Entry>)
    requires InStep(sent, arrived, buffer) && IsPiece(sent, p)
    ensures var (next, r) := Receive(buffer, PacketOf(sent, p));
      && (forall id :: id in sent && id != p.id ==> Collecting(sent, arrived + [p], next, id))
      && (forall id :: id in next ==> id in sent)
  {
    OthersKept(buffer, PacketOf(sent, p));
    hide Receive, Holds, Of, Block;
    var (next, r) := Receive(buffer, PacketOf(sent, p));
    forall id | id in sent && id != p.id
      ensures Collecting(sent, arrived + [p], next, id)
    {
      OfGrows(arrived, p, id);
      assert Of(arrived, id) + [] == Of(arrived, id);
      assert Collecting(sent, arrived, buffer, id);
    }
  }

  lemma OthersKept(buffer: map<int, Entry>, p: Packet)
    ensures var next := Receive(buffer, p).0;
      forall id :: id != p.id ==> (id in next <==> id in buffer) && (id in buffer ==> next[id] == buffer[id])
  {
    hide Put, Full, NoHole, Joined, ZeroFilled;
  }

  /**
   One more piece: it joins its block, and if that makes as many as the message has pieces, the
   message is delivered if they are all different, and otherwise the handler throws.
   */
  lemma PieceArrives(sent: Traffic, arrived: seq<Piece>, p: Piece, buffer: map<int, Entry>)
    requires InStep(sent, arrived, buffer) && IsPiece(sent, p)
    ensures var (next, r) := Receive(buffer, PacketOf(sent, p));
      var n, block := |sent[p.id].parts|, Block(Of(arrived, p.id), |sent[p.id].parts|) + [p.index];
      && (r == if |block| < n then Collected else if Distinct(block) then Delivered(Whole(sent[p.id])) else Threw)
      && (r != Threw ==> InStep(sent, arrived + [p], next))
  {
    var parts := sent[p.id].parts;
    var had := Block(Of(arrived, p.id), |parts|);
    OthersUntouched(sent, arrived, p, buffer);
    OfGrows(arrived, p, p.id);
    BlockGrows(Of(arrived, p.id), p.index, |parts|);
    BlockFits(sent, arrived, p.id);
    assert Collecting(sent, arrived, buffer, p.id);
    OwnEntry(sent, p, buffer, had);
    hide Of, Block, Elements, Receive, Holds, Distinct, Whole, PacketOf;
  }

  lemma OwnEntry(sent: Traffic, p: Piece, buffer: map<int, Entry>, had: seq<nat>)
    requires IsPiece(sent, p) && |had| < |sent[p.id].parts|
    requires if had == [] then p.id !in buffer else p.id in buffer && Holds(buffer[p.id], sent[p.id].parts, had)
    ensures var (next, r) := Receive(buffer, PacketOf(sent, p));
      var parts, block := sent[p.id].parts, had + [p.index];
      && r == (if |block| < |parts| then Collected
               else if Distinct(block) then Delivered(Whole(sent[p.id])) else Threw)
      && (|block| < |parts| ==> p.id in next && Holds(next[p.id], parts, block))
      && (r.Delivered? ==> p.id !in next)
  {
    var parts := sent[p.id].parts;
    if |parts| == 1 {
      assert parts == [parts[0]];
      ConcatOne(parts[0]);
      assert had + [p.index] == [p.index];
    } else if had == [] {
      FirstHolds(parts, p.index);
      assert [] + [p.index] == [p.index];
      hide Holds, Put;
    } else {
      LaterPiece(parts, had, p.index, buffer[p.id]);
      hide Holds, Put, Joined, ZeroFilled, NoHole, Distinct, Full;
    }
  }

  lemma LaterPiece(parts: seq<seq<Byte>>, block: seq<nat>, i: nat, e: Entry)
    requires Holds(e, parts, block) && i < |parts|
    ensures var f, all := Put(e, i, parts[i]), block + [i];
      && Holds(f, parts, all) && f.length == |parts|
      && (Full(f) <==> |all| == |parts|)
      && (|all| == |parts| ==> (NoHole(f) <==> Distinct(all)))
      && (|all| == |parts| && Distinct(all) ==> NoHole(f) && ZeroFilled(Joined(f, f.length), f.totalBytes) == Concat(parts))
  {
    var f, all := Put(e, i, parts[i]), block + [i];
    PutHolds(e, parts, block, i);
    if |all| == |parts| {
      NoHoleIff(f, parts, all);
      if Distinct(all) {
        FullIsWhole(f, parts, all);
      }
    }
  }

  // ---- any list of datagrams

  ghost function Packets(sent: Traffic, arrived: seq<Piece>): (packets: seq<Packet>)
    requires Arrived(sent, arrived)
    ensures |packets| == |arrived|
  {
    seq(|arrived|, k requires 0 <= k < |arrived| => PacketOf(sent, arrived[k]))
  }

  /** The buffer and the deliveries after a list of datagrams; None once one of them threw. */
  function ReceiveAll(packets: seq<Packet>): Option<(map<int, Entry>, seq<Delivery>)> {
    if packets == [] then Some((map[], []))
    else
      match ReceiveAll(packets[..|packets| - 1])
      case None => None
      case Some((buffer, out)) =>
        var (next, r) := Receive(buffer, packets[|packets| - 1]);
        match r
        case Threw => None
        case Collected => Some((next, out))
        case Delivered(d) => Some((next, out + [d]))
  }

  lemma {:induction false} BlocksGrow(xs: seq<nat>, x: nat, n: nat)
    requires n > 0
    ensures BlocksDistinct(xs + [x], n)
       <==> BlocksDistinct(xs, n) && (|Block(xs, n)| + 1 == n ==> Distinct(Block(xs, n) + [x]))
    decreases |xs|
  {
    hide Distinct;
    if |xs| < n {
      BlockOfShort(xs, n);
      if |xs| + 1 == n {
        assert (xs + [x])[..n] == xs + [x] && (xs + [x])[n..] == [];
      }
    } else {
      BlocksGrow(xs[n..], x, n);
      BlockOfRest(xs, n);
      assert (xs + [x])[..n] == xs[..n] && (xs + [x])[n..] == xs[n..] + [x];
    }
  }

  lemma BlockOfShort(xs: seq<nat>, n: nat)
    requires |xs| < n
    ensures Block(xs, n) == xs
  {
  }

  lemma BlockOfRest(xs: seq<nat>, n: nat)
    requires 0 < n <= |xs|
    ensures Block(xs[n..], n) == Block(xs, n)
  {
    var q, r := |xs| / n, |xs| % n;
    assert |xs| - n == (q - 1) * n + r;
    DivModUnique(|xs| - n, n, q - 1, r);
  }

  ghost predicate Unrepeated(sent: Traffic, arrived: seq<Piece>, id: int)
    requires id in sent
  {
    BlocksDistinct(Of(arrived, id), |sent[id].parts|)
  }

  /** No message has a repetition in one of its blocks. */
  ghost predicate NoRepeats(sent: Traffic, arrived: seq<Piece>) {
    forall id :: id in sent ==> Unrepeated(sent, arrived, id)
  }

  lemma NoRepeatsGrow(sent: Traffic, arrived: seq<Piece>, p: Piece)
    requires IsPiece(sent, p)
    ensures var n, block := |sent[p.id].parts|, Block(Of(arrived, p.id), |sent[p.id].parts|) + [p.index];
      NoRepeats(sent, arrived + [p]) <==> NoRepeats(sent, arrived) && (|block| == n ==> Distinct(block))
  {
    hide Of, BlocksDistinct, Distinct, Block;
    forall id | id in sent && id != p.id
      ensures Unrepeated(sent, arrived + [p], id) == Unrepeated(sent, arrived, id)
    {
      OfGrows(arrived, p, id);
      assert Of(arrived, id) + [] == Of(arrived, id);
    }
    OfGrows(arrived, p, p.id);
    BlocksGrow(Of(arrived, p.id), p.index, |sent[p.id].parts|);
    assert Unrepeated(sent, arrived + [p], p.id) == BlocksDistinct(Of(arrived + [p], p.id), |sent[p.id].parts|);
    assert Unrepeated(sent, arrived, p.id) == BlocksDistinct(Of(arrived, p.id), |sent[p.id].parts|);
    hide Unrepeated;
  }

  lemma LastArrival(sent: Traffic, arrived: seq<Piece>)
    requires Arrived(sent, arrived) && arrived != []
    ensures var n := |arrived| - 1;
      && Arrived(sent, arrived[..n]) && IsPiece(sent, arrived[n]) && arrived[..n] + [arrived[n]] == arrived
      && Packets(sent, arrived)[..n] == Packets(sent, arrived[..n])
      && Packets(sent, arrived)[n] == PacketOf(sent, arrived[n])
  {
    hide PacketOf;
  }

  lemma CompletedGrows(sent: Traffic, arrived: seq<Piece>, p: Piece)
    requires Arrived(sent, arrived) && IsPiece(sent, p)
    ensures Arrived(sent, arrived + [p])
    ensures var n := |sent[p.id].parts|;
      Completed(sent, arrived + [p])
      == Completed(sent, arrived) + if |Block(Of(arrived, p.id), n)| + 1 == n then [p.id] else []
  {
    assert (arrived + [p])[..|arrived|] == arrived;
    OfGrows(arrived, p, p.id);
    BlockGrows(Of(arrived, p.id), p.index, |sent[p.id].parts|);
    hide Of, Block;
  }

  lemma OneMoreCompleted(sent: Traffic, arrived: seq<Piece>, p: Piece)
    requires Arrived(sent, arrived) && IsPiece(sent, p)
    ensures Arrived(sent, arrived + [p])
    ensures Deliveries(sent, Completed(sent, arrived + [p]))
         == Deliveries(sent, Completed(sent, arrived))
            + if |Block(Of(arrived, p.id), |sent[p.id].parts|)| + 1 == |sent[p.id].parts| then [Whole(sent[p.id])] else []
  {
    CompletedGrows(sent, arrived, p);
    hide Of, Block, Whole, Completed;
  }

  /**
   Any pieces of any messages, in any order, repeated or not: the handler never throws exactly if
   no message repeats a piece within one of its blocks, and then it delivers a message each time
   another block of it is complete, whole and with its pieces in index order.
   */
  lemma {:induction false} ThrowsIffRepeated(sent: Traffic, arrived: seq<Piece>)
    requires Arrived(sent, arrived)
    ensures var r := ReceiveAll(Packets(sent, arrived));
      && (r.Some? <==> NoRepeats(sent, arrived))
      && (r.Some? ==>
            && r.value.1 == Deliveries(sent, Completed(sent, arrived))
            && InStep(sent, arrived, r.value.0))
    decreases |arrived|
  {
    if arrived == [] {
      assert Packets(sent, arrived) == [];
    } else {
      hide InStep, Receive, Completed, NoRepeats, Deliveries, Packets, PacketOf, Distinct, Block, Of, Arrived, IsPiece;
      var n := |arrived| - 1;
      var before, last := arrived[..n], arrived[n];
      LastArrival(sent, arrived);
      ThrowsIffRepeated(sent, before);
      NoRepeatsGrow(sent, before, last);
      OneMoreCompleted(sent, before, last);
      if ReceiveAll(Packets(sent, before)).Some? {
        PieceArrives(sent, before, last, ReceiveAll(Packets(sent, before)).value.0);
        BlockFits(sent, before, last.id);
      }
      ReceiveLast(Packets(sent, arrived));
      hide ReceiveAll;
    }
  }

  lemma ReceiveLast(packets: seq<Packet>)
    requires packets != []
    ensures var r, whole := ReceiveAll(packets[..|packets| - 1]), ReceiveAll(packets);
      if r.None? then whole.None?
      else
        var (next, got) := Receive(r.value.0, packets[|packets| - 1]);
        if got == Threw then whole.None?
        else whole == Some((next, r.value.1 + if got.Delivered? then [got.d] else []))
  {
    hide Receive;
    if ReceiveAll(packets[..|packets| - 1]).Some? {
      var out := ReceiveAll(packets[..|packets| - 1]).value.1;
      assert out + [] == out;
    }
  }

  lemma BlockFits(sent: Traffic, arrived: seq<Piece>, id: int)
    requires id in sent && |sent[id].parts| > 0
    ensures |Block(Of(arrived, id), |sent[id].parts|)| < |sent[id].parts|
  {
    hide Of;
  }

  /** A message is completed once for every `n` of its pieces that arrive. */
  lemma {:induction false} CompletedOften(sent: Traffic, arrived: seq<Piece>, id: int)
    requires Arrived(sent, arrived) && id in sent && |sent[id].parts| > 0
    ensures multiset(Completed(sent, arrived))[id] == |Of(arrived, id)| / |sent[id].parts|
    decreases |arrived|
  {
    if arrived == [] {
      assert Completed(sent, arrived) == [] && Of(arrived, id) == [];
      DivModUnique(0, |sent[id].parts|, 0, 0);
    } else {
      hide Of, Block, Completed;
      var n := |arrived| - 1;
      var before, last := arrived[..n], arrived[n];
      LastArrival(sent, arrived);
      CompletedOften(sent, before, id);
      CompletedGrows(sent, before, last);
      OfGrows(before, last, id);
      NextRemainder(|Of(before, id)|, |sent[id].parts|);
    }
  }

  // ---- after an exception

  /** What the browser does: the exception ends one call of the handler, and the next datagram is handled. */
  function GoOn(packets: seq<Packet>): (map<int, Entry>, seq<Delivery>) {
    if packets == [] then (map[], [])
    else
      var (buffer, out) := GoOn(packets[..|packets| - 1]);
      var (next, r) := Receive(buffer, packets[|packets| - 1]);
      (next, out + if r.Delivered? then [r.d] else [])
  }

  /** The messages completed, in order, as long as none of their blocks has had a repetition. */
  ghost function CompletedClean(sent: Traffic, arrived: seq<Piece>): (ids: seq<int>)
    requires Arrived(sent, arrived)
    ensures forall k :: 0 <= k < |ids| ==> ids[k] in sent
  {
    if arrived == [] then []
    else
      var last := arrived[|arrived| - 1];
      assert IsPiece(sent, last);
      CompletedClean(sent, arrived[..|arrived| - 1])
      + if |Of(arrived, last.id)| % |sent[last.id].parts| == 0 && Unrepeated(sent, arrived, last.id) then [last.id] else []
  }

  /** An entry that has counted all its pieces will never again be found complete. */
  ghost predicate Dead(buffer: map<int, Entry>, id: int) {
    id in buffer && buffer[id].received >= buffer[id].total
  }

  ghost predicate CollectingOrDead(sent: Traffic, arrived: seq<Piece>, buffer: map<int, Entry>, id: int)
    requires id in sent
  {
    if Unrepeated(sent, arrived, id) then Collecting(sent, arrived, buffer, id) else Dead(buffer, id)
  }

  ghost predicate StillInStep(sent: Traffic, arrived: seq<Piece>, buffer: map<int, Entry>) {
    forall id :: id in sent ==> CollectingOrDead(sent, arrived, buffer, id)
  }

  lemma {:induction false} OnesDistinct(xs: seq<nat>)
    ensures BlocksDistinct(xs, 1)
    decreases |xs|
  {
    if xs != [] {
      OnesDistinct(xs[1..]);
    }
  }

  lemma DeadStays(buffer: map<int, Entry>, p: Packet)
    requires Dead(buffer, p.id) && p.pieces != 1
    ensures var (next, r) := Receive(buffer, p);
      r == Collected && Dead(next, p.id)
  {
  }

  lemma ThrowingKills(buffer: map<int, Entry>, p: Packet)
    requires Receive(buffer, p).1 == Threw
    ensures Dead(Receive(buffer, p).0, p.id)
  {
  }

  lemma OthersAsBefore(sent: Traffic, arrived: seq<Piece>, p: Piece, buffer: map<int, Entry>, id: int)
    requires StillInStep(sent, arrived, buffer) && IsPiece(sent, p) && id in sent && id != p.id
    ensures CollectingOrDead(sent, arrived + [p], Receive(buffer, PacketOf(sent, p)).0, id)
  {
    OthersKept(buffer, PacketOf(sent, p));
    OfGrows(arrived, p, id);
    assert Of(arrived, id) + [] == Of(arrived, id);
    assert CollectingOrDead(sent, arrived, buffer, id);
    hide Receive, Holds, Of, Block, BlocksDistinct, PacketOf;
  }

  /** One more piece, whatever has been thrown before. */
  lemma PieceGoesOn(sent: Traffic, arrived: seq<Piece>, p: Piece, buffer: map<int, Entry>)
    requires StillInStep(sent, arrived, buffer) && IsPiece(sent, p)
    ensures var (next, r) := Receive(buffer, PacketOf(sent, p));
      var n, all := |sent[p.id].parts|, arrived + [p];
      && StillInStep(sent, all, next)
      && (r.Delivered? <==> |Of(all, p.id)| % n == 0 && Unrepeated(sent, all, p.id))
      && (r.Delivered? ==> r.d == Whole(sent[p.id]))
  {
    hide Of, Block, Elements, Receive, Holds, Distinct, Whole, PacketOf, BlocksDistinct, Dead;
    var parts := sent[p.id].parts;
    var had, all := Block(Of(arrived, p.id), |parts|), arrived + [p];
    var (next, r) := Receive(buffer, PacketOf(sent, p));
    forall id | id in sent && id != p.id
      ensures CollectingOrDead(sent, all, next, id)
    {
      OthersAsBefore(sent, arrived, p, buffer, id);
    }
    assert CollectingOrDead(sent, arrived, buffer, p.id);
    OfGrows(arrived, p, p.id);
    BlockGrows(Of(arrived, p.id), p.index, |parts|);
    BlockFits(sent, arrived, p.id);
    BlocksGrow(Of(arrived, p.id), p.index, |parts|);
    PacketIs(sent, p);
    if Unrepeated(sent, arrived, p.id) {
      OwnEntry(sent, p, buffer, had);
      if r == Threw {
        ThrowingKills(buffer, PacketOf(sent, p));
      }
    } else {
      if |parts| == 1 {
        OnesDistinct(Of(arrived, p.id));
      }
      DeadStays(buffer, PacketOf(sent, p));
    }
  }

  lemma PacketIs(sent: Traffic, p: Piece)
    requires IsPiece(sent, p)
    ensures PacketOf(sent, p).id == p.id && PacketOf(sent, p).pieces == |sent[p.id].parts|
  {
  }

  /**
   Any datagrams, exceptions included: a message is delivered, whole, each time a block of its
   pieces is complete, until one of its blocks has had a repetition; from then on it is never
   delivered again. What has come of other messages makes no difference to it.
   */
  lemma {:induction false} GoesOn(sent: Traffic, arrived: seq<Piece>)
    requires Arrived(sent, arrived)
    ensures GoOn(Packets(sent, arrived)).1 == Deliveries(sent, CompletedClean(sent, arrived))
    ensures StillInStep(sent, arrived, GoOn(Packets(sent, arrived)).0)
    decreases |arrived|
  {
    if arrived == [] {
      assert Packets(sent, arrived) == [];
      assert forall id :: id in sent ==> CollectingOrDead(sent, [], map[], id);
    } else {
      hide StillInStep, Receive, Deliveries, Packets, PacketOf, Of, Arrived, IsPiece, Unrepeated, Whole;
      var n := |arrived| - 1;
      var before, last := arrived[..n], arrived[n];
      LastArrival(sent, arrived);
      GoesOn(sent, before);
      PieceGoesOn(sent, before, last, GoOn(Packets(sent, before)).0);
      OneMoreDelivered(sent, CompletedClean(sent, before), last.id);
      assert Deliveries(sent, CompletedClean(sent, before)) + [] == Deliveries(sent, CompletedClean(sent, before));
      assert CompletedClean(sent, before) + [] == CompletedClean(sent, before);
    }
  }

  lemma OneMoreDelivered(sent: Traffic, ids: seq<int>, id: int)
    requires id in sent && forall k :: 0 <= k < |ids| ==> ids[k] in sent
    ensures Deliveries(sent, ids + [id]) == Deliveries(sent, ids) + [Whole(sent[id])]
  {
  }

  /** Once a block of a message has had a repetition, the message is not delivered again. */
  lemma {:induction false} NeverAgain(sent: Traffic, arrived: seq<Piece>, more: seq<Piece>, id: int)
    requires Arrived(sent, arrived + more) && Arrived(sent, arrived)
    requires id in sent && |sent[id].parts| > 0 && !Unrepeated(sent, arrived, id)
    ensures !Unrepeated(sent, arrived + more, id)
    ensures multiset(CompletedClean(sent, arrived + more))[id] == multiset(CompletedClean(sent, arrived))[id]
    decreases |more|
  {
    if more == [] {
      assert arrived + more == arrived;
    } else {
      var n := |more| - 1;
      var all, before, last := arrived + more, arrived + more[..n], more[n];
      assert all == before + [last];
      LastArrival(sent, all);
      assert all[..|all| - 1] == before;
      hide Of, Arrived, BlocksDistinct, Distinct, Block;
      NeverAgain(sent, arrived, more[..n], id);
      OfGrows(before, last, id);
      assert Of(before, id) + [] == Of(before, id);
      BlocksGrow(Of(before, id), last.index, |sent[id].parts|);
    }
  }

  // ---- each piece once

  lemma {:induction false} OfElements(sent: Traffic, arrived: seq<Piece>, id: int, x: nat)
    requires Arrived(sent, arrived) && id in sent
    ensures x in Elements(Of(arrived, id)) <==> Piece(id, x) in arrived
    ensures x in Elements(Of(arrived, id)) ==> x < |sent[id].parts|
    decreases |arrived|
  {
    if arrived == [] {
      assert Elements([]) == {};
    } else {
      var n := |arrived| - 1;
      var before, last := arrived[..n], arrived[n];
      LastArrival(sent, arrived);
      OfElements(sent, before, id, x);
      OfGrows(before, last, id);
      ElementsGrow(Of(before, id), last.index);
      assert Of(before, id) + [] == Of(before, id);
      hide Of, Elements;
    }
  }

  lemma {:induction false} OnceIsDistinct(sent: Traffic, arrived: seq<Piece>, id: int)
    requires Arrival(sent, arrived) && id in sent
    ensures Distinct(Of(arrived, id))
    decreases |arrived|
  {
    if arrived != [] {
      var n := |arrived| - 1;
      var before, last := arrived[..n], arrived[n];
      LastArrival(sent, arrived);
      OnceIsDistinct(sent, before, id);
      OfGrows(before, last, id);
      assert last !in before;
      OfElements(sent, before, id, last.index);
      var xs := Of(before, id);
      hide Of;
      assert last.id == id ==> last.index !in Elements(xs);
      assert forall k :: 0 <= k < |xs| ==> xs[k] in Elements(xs);
    }
  }

  lemma OnceMeansDistinct(sent: Traffic, arrived: seq<Piece>, id: int)
    requires Arrival(sent, arrived) && id in sent
    ensures Distinct(Of(arrived, id)) && |Of(arrived, id)| <= |sent[id].parts|
    ensures forall x: nat :: x in Elements(Of(arrived, id)) <==> Piece(id, x) in arrived
    ensures forall x :: x in Elements(Of(arrived, id)) ==> x < |sent[id].parts|
  {
    OnceIsDistinct(sent, arrived, id);
    forall x: nat
      ensures x in Elements(Of(arrived, id)) <==> Piece(id, x) in arrived
      ensures x in Elements(Of(arrived, id)) ==> x < |sent[id].parts|
    {
      OfElements(sent, arrived, id, x);
    }
    DistinctIffAsMany(Of(arrived, id));
    AllIndices(Elements(Of(arrived, id)), |sent[id].parts|);
    hide Of, Elements, Distinct;
  }

  lemma ShortIsDistinct(xs: seq<nat>, n: nat)
    requires |xs| <= n && Distinct(xs)
    ensures BlocksDistinct(xs, n)
  {
    assert xs[..|xs|] == xs && xs[|xs|..] == [];
    hide Distinct;
  }

  /**
   With each piece arriving once, whatever the order and however messages interleave, nothing
   throws, and the deliveries are the completed messages, whole.
   */
  lemma AnyOrderDelivers(sent: Traffic, arrived: seq<Piece>)
    requires Arrival(sent, arrived)
    ensures var r := ReceiveAll(Packets(sent, arrived));
      r.Some? && r.value.1 == Deliveries(sent, Completed(sent, arrived)) && InStep(sent, arrived, r.value.0)
  {
    forall id | id in sent
      ensures Unrepeated(sent, arrived, id)
    {
      OnceMeansDistinct(sent, arrived, id);
      var xs := Of(arrived, id);
      hide Of, Elements, Distinct;
      ShortIsDistinct(xs, |sent[id].parts|);
    }
    ThrowsIffRepeated(sent, arrived);
  }

  /** ... each of them once, and only if all its pieces have arrived. */
  lemma DeliveredOnce(sent: Traffic, arrived: seq<Piece>, id: int)
    requires Arrival(sent, arrived) && id in sent && |sent[id].parts| > 0
    ensures multiset(Completed(sent, arrived))[id]
         == if forall x: nat :: x < |sent[id].parts| ==> Piece(id, x) in arrived then 1 else 0
  {
    var xs, n := Of(arrived, id), |sent[id].parts|;
    OnceMeansDistinct(sent, arrived, id);
    CompletedOften(sent, arrived, id);
    DistinctIffAsMany(xs);
    FullIffAsMany(Elements(xs), n);
    hide Of, Completed, Elements, Distinct;
    if |xs| < n {
      DivModUnique(|xs|, n, 0, |xs|);
    } else {
      DivModUnique(n, n, 1, 0);
    }
  }

  // ---- pieces that arrive twice

  /** A message of one piece is delivered again when its datagram comes again. */
  lemma OnePieceTwice(id: int, m: Message)
    requires |m.parts| == 1
    ensures var p := PacketOf(map[id := m], Piece(id, 0));
      ReceiveAll([p, p]) == Some((map[], [Whole(m), Whole(m)]))
  {
    var p := PacketOf(map[id := m], Piece(id, 0));
    assert [p, p][..1] == [p] && [p][..0] == [];
    assert m.parts == [m.parts[0]];
    ConcatOne(m.parts[0]);
    assert p.payload == m.parts[0] && p.frameId == m.frameId && p.pieces == 1;
    assert Receive(map[], p) == (map[], Delivered(Whole(m)));
    hide Receive, Whole;
    assert ReceiveAll([]) == Some((map[], []));
    assert [] + [Whole(m)] == [Whole(m)];
    assert ReceiveAll([p]) == Some((map[], [Whole(m)]));
    assert [Whole(m)] + [Whole(m)] == [Whole(m), Whole(m)];
  }

  lemma OfThree(id: int, x: nat, y: nat, z: nat)
    ensures Of([Piece(id, x)], id) == [x] && Of([Piece(id, x), Piece(id, y)], id) == [x, y]
    ensures Of([Piece(id, x), Piece(id, y), Piece(id, z)], id) == [x, y, z]
  {
    assert [Piece(id, x)] == [] + [Piece(id, x)];
    assert [Piece(id, x), Piece(id, y)] == [Piece(id, x)] + [Piece(id, y)];
    assert [Piece(id, x), Piece(id, y), Piece(id, z)] == [Piece(id, x), Piece(id, y)] + [Piece(id, z)];
    OfGrows([], Piece(id, x), id);
    OfGrows([Piece(id, x)], Piece(id, y), id);
    OfGrows([Piece(id, x), Piece(id, y)], Piece(id, z), id);
  }

  /** A piece that comes again before the others makes the handler throw. */
  lemma RepeatedEarly(id: int, m: Message)
    requires |m.parts| == 2
    ensures var p := PacketOf(map[id := m], Piece(id, 0));
      ReceiveAll([p, p]).None?
  {
    var sent, zero := map[id := m], Piece(id, 0);
    assert Packets(sent, [zero, zero]) == [PacketOf(sent, zero), PacketOf(sent, zero)];
    OfThree(id, 0, 0, 0);
    assert [0, 0][..2] == [0, 0];
    assert [0, 0][0] == [0, 0][1];
    assert !Unrepeated(sent, [zero, zero], id);
    hide Of, ReceiveAll, BlocksDistinct;
    ThrowsIffRepeated(sent, [zero, zero]);
  }

  lemma LateCompleted(id: int, m: Message)
    requires |m.parts| == 2
    ensures var sent, late := map[id := m], [Piece(id, 0), Piece(id, 1), Piece(id, 0)];
      Arrived(sent, late) && Completed(sent, late) == [id]
  {
    var sent, zero, one := map[id := m], Piece(id, 0), Piece(id, 1);
    OfThree(id, 0, 1, 0);
    hide Of;
    assert [zero, one, zero][..2] == [zero, one] && [zero, one][..1] == [zero] && [zero][..0] == [];
    assert |[0]| % 2 == 1 && |[0, 1]| % 2 == 0 && |[0, 1, 0]| % 2 == 1;
    assert Completed(sent, []) == [];
    assert Completed(sent, [zero]) == [];
    assert Completed(sent, [zero, one]) == [id];
  }

  /** One that comes again after the others leaves an entry behind. */
  lemma RepeatedLate(id: int, m: Message)
    requires |m.parts| == 2
    ensures var p, q := PacketOf(map[id := m], Piece(id, 0)), PacketOf(map[id := m], Piece(id, 1));
      var r := ReceiveAll([p, q, p]);
      r.Some? && r.value.1 == [Whole(m)] && id in r.value.0
  {
    var sent, zero, one := map[id := m], Piece(id, 0), Piece(id, 1);
    var late := [zero, one, zero];
    LateCompleted(id, m);
    OfThree(id, 0, 1, 0);
    assert Packets(sent, late) == [PacketOf(sent, zero), PacketOf(sent, one), PacketOf(sent, zero)];
    assert [0, 1, 0][..2] == [0, 1] && [0, 1, 0][2..] == [0];
    assert Distinct([0, 1]);
    hide Of, ReceiveAll, Completed, Distinct, Whole;
    assert Unrepeated(sent, late, id);
    assert |Block([0, 1, 0], 2)| == 1;
    hide Unrepeated, BlocksDistinct, Block;
    ThrowsIffRepeated(sent, late);
    assert Collecting(sent, late, ReceiveAll(Packets(sent, late)).value.0, id);
  }

  // ---- datagrams that need not be a message's

  /** The entry that collects these datagrams, the first of which announced `n`. */
  function Gathered(packets: seq<Packet>, n: int): Entry {
    if packets == [] then Entry(n, 0, 0, n, map[])
    else
      var last := packets[|packets| - 1];
      Put(Gathered(packets[..|packets| - 1], n), last.index, last.payload)
  }

  function Indices(packets: seq<Packet>): set<int> {
    set k | 0 <= k < |packets| :: packets[k].index
  }

  function UpTo(n: nat): (s: set<int>)
    ensures |s| == n && forall x :: x in s <==> 0 <= x < n
  {
    if n == 0 then {} else UpTo(n - 1) + {n - 1}
  }

  lemma {:induction false} EntryIs(packets: seq<Packet>, n: nat)
    ensures var e := Gathered(packets, n);
      && e.total == n && e.received == |packets| && e.data.Keys == Indices(packets) && |Indices(packets)| <= |packets|
      && e.length >= n && ((forall x :: x in Indices(packets) ==> x < n) ==> e.length == n)
    decreases |packets|
  {
    if packets == [] {
      assert Indices(packets) == {};
    } else {
      var init, last := packets[..|packets| - 1], packets[|packets| - 1];
      EntryIs(init, n);
      assert packets == init + [last];
      IndicesGrow(init, last);
    }
  }

  lemma IndicesGrow(init: seq<Packet>, last: Packet)
    ensures Indices(init + [last]) == Indices(init) + {last.index}
  {
    var packets := init + [last];
    forall x
      ensures x in Indices(packets) <==> x in Indices(init) || x == last.index
    {
      if x in Indices(init) {
        var k :| 0 <= k < |init| && init[k].index == x;
        assert packets[k].index == x;
      }
      if x == last.index {
        assert packets[|init|].index == x;
      }
      if x in Indices(packets) {
        var k :| 0 <= k < |packets| && packets[k].index == x;
        assert k < |init| ==> init[k].index == x;
      }
    }
  }

  ghost predicate OfOne(packets: seq<Packet>, id: int, n: nat) {
    forall k :: 0 <= k < |packets| ==> packets[k].id == id && packets[k].pieces == n
  }

  lemma {:induction false} Gathering(packets: seq<Packet>, id: int, n: nat)
    requires OfOne(packets, id, n) && n > 1 && |packets| < n
    ensures ReceiveAll(packets) == Some((if packets == [] then map[] else map[id := Gathered(packets, n)], []))
    decreases |packets|
  {
    if packets != [] {
      var init, last := packets[..|packets| - 1], packets[|packets| - 1];
      Gathering(init, id, n);
      EntryIs(packets, n);
      hide Put, Indices;
      var e := Gathered(packets, n);
      if init == [] {
        assert e == Put(Entry(n, 0, 0, n, map[]), last.index, last.payload);
        assert Receive(map[], last) == (map[][id := e], Collected);
      } else {
        assert map[id := Gathered(init, n)][id := e] == map[id := e];
        assert Receive(map[id := Gathered(init, n)], last) == (map[id := e], Collected);
      }
    }
  }

  /**
   As many datagrams as a message has pieces, with any indices whatever, negative ones and ones past
   the end included, are put together exactly if the indices are those of its pieces; otherwise the
   last of them makes the handler throw.
   */
  lemma PutTogetherIff(packets: seq<Packet>, id: int, n: nat)
    requires OfOne(packets, id, n) && |packets| == n > 1
    ensures ReceiveAll(packets).Some? <==> Indices(packets) == UpTo(n)
    ensures ReceiveAll(packets).Some? ==> ReceiveAll(packets).value.0 == map[] && |ReceiveAll(packets).value.1| == 1
  {
    hide Put, Indices, NoHole, UpTo, Joined, ZeroFilled, Gathered, Receive;
    var init, last := packets[..n - 1], packets[n - 1];
    Gathering(init, id, n);
    HolesIff(packets, n);
    LastOfMessage(packets, id, n);
  }

  lemma LastOfMessage(packets: seq<Packet>, id: int, n: nat)
    requires OfOne(packets, id, n) && |packets| == n > 1
    ensures var (buffer, r) := Receive(map[id := Gathered(packets[..n - 1], n)], packets[n - 1]);
      if NoHole(Gathered(packets, n)) then buffer == map[] && r.Delivered? else r == Threw
  {
    hide Put, Indices, NoHole, Joined, ZeroFilled;
    var before, e := Gathered(packets[..n - 1], n), Gathered(packets, n);
    EntryIs(packets, n);
    assert e == Put(before, packets[n - 1].index, packets[n - 1].payload);
    assert map[id := before] - {id} == map[];
  }

  lemma HolesIff(packets: seq<Packet>, n: nat)
    requires |packets| == n
    ensures NoHole(Gathered(packets, n)) <==> Indices(packets) == UpTo(n)
  {
    EntryIs(packets, n);
    var e := Gathered(packets, n);
    hide Indices, Gathered, UpTo;
    if NoHole(e) {
      assert UpTo(n) <= Indices(packets);
      AsMany(UpTo(n), Indices(packets));
    }
  }

  lemma AsMany(a: set<int>, b: set<int>)
    requires a <= b && |b| <= |a|
    ensures a == b
  {
    assert b == a + (b - a) && |a + (b - a)| == |a| + |b - a|;
    assert b - a == {};
    assert forall x :: x in b ==> x in a || x in b - a;
  }

  // ---- the handler as it runs

  class UdpChannel {
    var udpBuffer: map<int, Entry>
    var delivered: seq<Delivery>

    constructor ()
      ensures udpBuffer == map[] && delivered == []
    {
      udpBuffer, delivered := map[], [];
    }

    method OnMessage(p: Packet) returns (threw: bool)
      modifies this
      ensures var (next, r) := Receive(old(udpBuffer), p);
        && udpBuffer == next && (threw <==> r == Threw)
        && delivered == old(delivered) + if r.Delivered? then [r.d] else []
    {
      if p.pieces == 1 {
        delivered := delivered + [Delivery(p.payload, p.frameId)];
        return false;
      }
      if p.id !in udpBuffer {
        var item := Entry(p.pieces, 0, 0, p.pieces, map[]);
        udpBuffer := udpBuffer[p.id := Put(item, p.index, p.payload)];
        return false;
      }
      var item := Put(udpBuffer[p.id], p.index, p.payload);
      udpBuffer := udpBuffer[p.id := item];
      if item.total != item.received {
        return false;
      }
      var finaldata, hole := Combine(item);
      if hole {
        return true;
      }
      udpBuffer := udpBuffer - {p.id};
      delivered := delivered + [Delivery(finaldata, p.frameId)];
      assert udpBuffer == old(udpBuffer) - {p.id};
      return false;
    }
  }

  /** The loop that copies the pieces, one behind the other, into one array. */
  method Combine(item: Entry) returns (finaldata: seq<Byte>, hole: bool)
    ensures hole <==> !NoHole(item)
    ensures !hole ==>
      finaldata == ZeroFilled(Joined(item, if item.length < 0 then 0 else item.length), item.totalBytes)
  {
    finaldata := [];
    var x := 0;
    while x < item.length
      invariant 0 <= x && (item.length >= 0 ==> x <= item.length) && (item.length < 0 ==> x == 0)
      invariant forall k :: 0 <= k < x ==> k in item.data
      invariant finaldata == Joined(item, x)
    {
      if x !in item.data {
        return [], true;
      }
      finaldata := finaldata + item.data[x];
      x := x + 1;
    }
    finaldata := ZeroFilled(finaldata, item.totalBytes);
    hole := false;
  }
}
