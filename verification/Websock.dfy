/**
 The receive queue of the web socket: one byte buffer that is filled at its end, read from its
 front, rewound inside a message, compacted in place, and grown up to a fixed limit.
 */
module ReceiveQueue {
  import opened Bytes

  const MAX_RQ_GROW_SIZE := 40 * 1024 * 1024

  datatype WaitResult = Ready | MustWait | CannotBackUp

  class Websock {
    var rQ: array<Byte>
    var rQi: nat
    var rQlen: nat
    var rQbufferSize: nat

    /** Every byte that has arrived on this connection. */
    ghost var received: seq<Byte>
    /** Below this index the buffer no longer holds what arrived; no rewind may reach it. */
    ghost var mark: nat

    ghost predicate Valid()
      reads this, rQ
    {
      && rQ.Length == rQbufferSize <= MAX_RQ_GROW_SIZE
      && mark <= rQi <= rQlen <= rQbufferSize
      && rQlen - mark <= |received|
      && rQ[mark..rQlen] == received[|received| - (rQlen - mark)..]
    }

    /** How many of the received bytes have been read. */
    ghost function Consumed(): nat
      requires Valid()
      reads this, rQ
    {
      |received| - (rQlen - rQi)
    }

    ghost function Unread(): (u: seq<Byte>)
      requires Valid()
      reads this, rQ
      ensures u == received[Consumed()..]
    {
      assert rQ[rQi..rQlen] == rQ[mark..rQlen][rQi - mark..];
      rQ[rQi..rQlen]
    }

    constructor (capacity: nat)
      requires capacity <= MAX_RQ_GROW_SIZE
      ensures Valid() && fresh(rQ)
      ensures rQbufferSize == capacity && received == []
    {
      rQ := new Byte[capacity](_ => 0);
      rQi, rQlen, rQbufferSize := 0, 0, capacity;
      received, mark := [], 0;
    }

    /** The getter `rQlen`: bytes that may still be read. */
    method Available() returns (n: nat)
      requires Valid()
      ensures n == |Unread()|
    {
      n := rQlen - rQi;
    }

    /**
     Moves the unread bytes to the front, into a larger buffer if need be. It gives up exactly
     when unread and coming bytes together exceed the limit; what it leaves behind then is a
     recorded size that the buffer does not have.
     */
    method ExpandCompactRQ(minFit: nat) returns (thrown: bool)
      requires Valid()
      modifies this, rQ
      ensures thrown <==> old(rQlen - rQi) + minFit > 41943040
      ensures received == old(received) && rQbufferSize >= old(rQbufferSize)
      ensures !thrown ==> Valid() && Unread() == old(Unread()) && Consumed() == old(Consumed())
      ensures !thrown ==> rQi == 0 && rQlen + minFit <= rQbufferSize
      ensures !thrown ==> rQ == old(rQ) || fresh(rQ)
      ensures thrown ==> rQ == old(rQ) && rQ[..] == old(rQ[..]) && rQi == old(rQi) && rQlen == old(rQlen)
      ensures thrown ==> rQbufferSize == MAX_RQ_GROW_SIZE
    {
      var requiredBufferSize := (rQlen - rQi + minFit) * 8;
      var resizeNeeded := rQbufferSize < requiredBufferSize;
      if resizeNeeded {
        rQbufferSize := if rQbufferSize * 2 > requiredBufferSize then rQbufferSize * 2 else requiredBufferSize;
      }
      if rQbufferSize > MAX_RQ_GROW_SIZE {
        rQbufferSize := MAX_RQ_GROW_SIZE;
        if rQbufferSize - (rQlen - rQi) < minFit {
          return true;
        }
      }
      MoveUnread(resizeNeeded);
      return false;
    }

    method MoveUnread(resizeNeeded: bool)
      requires mark <= rQi <= rQlen <= rQ.Length && rQlen - mark <= |received|
      requires rQ[mark..rQlen] == received[|received| - (rQlen - mark)..]
      requires rQlen - rQi <= rQbufferSize <= MAX_RQ_GROW_SIZE
      requires !resizeNeeded ==> rQbufferSize == rQ.Length
      modifies `rQ, `rQi, `rQlen, `mark, rQ
      ensures rQi == 0 && rQlen == old(rQlen - rQi)
      ensures Valid() && Unread() == old(rQ[rQi..rQlen])
      ensures rQ == old(rQ) || fresh(rQ)
    {
      ghost var before := rQ[rQi..rQlen];
      assert before == rQ[mark..rQlen][rQi - mark..];
      assert before == received[|received| - |before|..];
      if resizeNeeded {
        rQ := CopyToLarger();
      } else {
        CopyToFront();
      }
      rQlen := rQlen - rQi;
      rQi := 0;
      mark := 0;
      assert rQ[0..rQlen] == before;
    }

    /** A fresh buffer of the recorded size that starts with the unread bytes. */
    method CopyToLarger() returns (larger: array<Byte>)
      requires rQi <= rQlen <= rQ.Length && rQlen - rQi <= rQbufferSize
      ensures fresh(larger) && larger.Length == rQbufferSize
      ensures larger[..rQlen - rQi] == rQ[rQi..rQlen]
    {
      larger := new Byte[rQbufferSize](_ => 0);
      var k := 0;
      while k < rQlen - rQi
        modifies larger
        invariant 0 <= k <= rQlen - rQi
        invariant larger[..k] == rQ[rQi..rQi + k]
      {
        larger[k] := rQ[rQi + k];
        k := k + 1;
      }
    }

    /** `copyWithin(0, rQi, rQlen)`: a forward copy onto lower or equal indices. */
    method CopyToFront()
      requires rQi <= rQlen <= rQ.Length
      modifies rQ
      ensures rQ[..rQlen - rQi] == old(rQ[rQi..rQlen])
    {
      ghost var before := rQ[rQi..rQlen];
      var k := 0;
      while k < rQlen - rQi
        modifies rQ
        invariant 0 <= k <= rQlen - rQi
        invariant forall j :: 0 <= j < k ==> rQ[j] == before[j]
        invariant forall j :: rQi + k <= j < rQlen ==> rQ[j] == before[j - rQi]
      {
        rQ[k] := rQ[rQi + k];
        k := k + 1;
      }
    }

    /** A message arrives: its bytes follow everything that is still unread. */
    method DecodeMessage(data: seq<Byte>) returns (thrown: bool)
      requires Valid()
      modifies this, rQ
      ensures thrown <==>
        old(rQlen) + |data| > old(rQbufferSize) && old(rQlen - rQi) + |data| > MAX_RQ_GROW_SIZE
      ensures rQbufferSize >= old(rQbufferSize)
      ensures !thrown ==> Valid() && received == old(received) + data
      ensures !thrown ==> Unread() == old(Unread()) + data && Consumed() == old(Consumed())
      ensures !thrown ==> rQ == old(rQ) || fresh(rQ)
      ensures thrown ==> received == old(received) && rQ == old(rQ) && rQ[..] == old(rQ[..])
    {
      if |data| > rQbufferSize - rQlen {
        thrown := ExpandCompactRQ(|data|);
        if thrown {
          return;
        }
      }
      Append(data);
      thrown := false;
    }

    method Append(data: seq<Byte>)
      requires Valid() && rQlen + |data| <= rQbufferSize
      modifies `rQlen, `received, rQ
      ensures Valid() && received == old(received) + data
      ensures Unread() == old(Unread()) + data && Consumed() == old(Consumed())
    {
      ghost var front := rQ[..rQlen];
      assert front[mark..] == rQ[mark..rQlen] && front[rQi..] == rQ[rQi..rQlen];
      CopyToEnd(data);
      assert rQ[..rQlen + |data|] == front + data;
      assert rQ[mark..rQlen + |data|] == front[mark..] + data;
      assert rQ[rQi..rQlen + |data|] == front[rQi..] + data;
      rQlen := rQlen + |data|;
      received := received + data;
    }

    /** `rQ.set(data, rQlen)`. */
    method CopyToEnd(data: seq<Byte>)
      requires rQlen + |data| <= rQ.Length
      modifies rQ
      ensures rQ[..rQlen] == old(rQ[..rQlen])
      ensures rQ[rQlen..rQlen + |data|] == data
    {
      var k := 0;
      while k < |data|
        modifies rQ
        invariant 0 <= k <= |data|
        invariant forall j :: 0 <= j < rQlen ==> rQ[j] == old(rQ[j])
        invariant forall j :: 0 <= j < k ==> rQ[rQlen + j] == data[j]
      {
        rQ[rQlen + k] := data[k];
        k := k + 1;
      }
    }

    /** After the message handler: a drained queue starts over at index 0. */
    method ResetIfDrained()
      requires Valid()
      modifies this
      ensures Valid() && Unread() == old(Unread()) && Consumed() == old(Consumed())
      ensures rQ == old(rQ) && rQbufferSize == old(rQbufferSize) && received == old(received)
    {
      if rQlen == rQi {
        rQlen, rQi := 0, 0;
        mark := 0;
      }
    }

    /**
     MustWait when fewer than `num` bytes are unread; the position then goes back over `goback`
     bytes. Nothing stops a negative `goback` from moving it forward.
     */
    method RQwait(num: int, goback: int) returns (w: WaitResult)
      requires Valid()
      modifies this`rQi
      ensures w == if |old(Unread())| >= num then Ready
                   else if goback > old(rQi) then CannotBackUp else MustWait
      ensures rQi == if w == MustWait then old(rQi) - goback else old(rQi)
      ensures mark <= rQi <= rQlen ==> Valid() && Consumed() == old(Consumed()) + (rQi - old(rQi))
      ensures w != MustWait || goback == 0 ==> Valid() && Unread() == old(Unread())
    {
      if rQlen - rQi < num {
        if goback != 0 {
          if rQi < goback {
            return CannotBackUp;
          }
          rQi := rQi - goback;
        }
        return MustWait;
      }
      return Ready;
    }

    /** `rQwait` without `goback`: true when fewer than `num` bytes are unread. */
    method RQlacks(num: int) returns (lacks: bool)
      requires Valid()
      ensures lacks <==> |Unread()| < num
    {
      lacks := rQlen - rQi < num;
    }

    method RQskipBytes(n: nat)
      requires Valid() && n <= |Unread()|
      modifies this`rQi
      ensures Valid() && rQi == old(rQi) + n && Unread() == old(Unread())[n..]
    {
      rQi := rQi + n;
    }

    /** Reads `n` bytes as one big-endian value; the top byte of four is shifted into the sign. */
    method RQshift(n: nat) returns (res: int)
      requires Valid() && n <= |Unread()| && n <= 4
      modifies this`rQi
      ensures Valid() && rQi == old(rQi) + n && Unread() == old(Unread())[n..]
      ensures res == if n == 4 then Signed32(BigEndian(old(Unread())[..4])) else BigEndian(old(Unread())[..n])
    {
      ghost var u, from := Unread(), rQi;
      res := 0;
      var left: nat := n;
      while left > 0
        invariant left <= n && rQi == from + (n - left)
        invariant mark <= rQi <= rQlen
        invariant rQ[from..rQlen] == u
        invariant res == ShiftedSum(u[..n - left], n)
      {
        var b := rQ[rQi];
        assert b == u[n - left];
        rQi := rQi + 1;
        res := res + ShiftLeft(b, left - 1);
        assert u[..n - left + 1][..n - left] == u[..n - left];
        left := left - 1;
      }
      ShiftedSumIsBigEndian(u[..n]);
    }

    method RQshiftBytes(n: nat) returns (data: seq<Byte>)
      requires Valid() && n <= |Unread()|
      modifies this`rQi
      ensures Valid() && rQi == old(rQi) + n && Unread() == old(Unread())[n..]
      ensures data == old(Unread())[..n]
    {
      rQi := rQi + n;
      data := rQ[rQi - n..rQi];
    }

    /** A string is read in parts of at most 4096 bytes; a negative length reads nothing. */
    method RQshiftStr(len: int) returns (str: seq<Byte>)
      requires Valid() && len <= |Unread()|
      modifies this`rQi
      ensures Valid()
      ensures str == old(Unread())[..if len < 0 then 0 else len]
      ensures rQi == old(rQi) + |str| && Unread() == old(Unread())[|str|..]
    {
      ghost var u := Unread();
      str := [];
      var i := 0;
      while i < len
        invariant 0 <= i && |str| == if i <= len then i else if len < 0 then 0 else len
        invariant Valid() && rQi == old(rQi) + |str|
        invariant |str| <= |u| && str == u[..|str|] && Unread() == u[|str|..]
        decreases len - i
      {
        var part := RQshiftBytes(if 4096 < len - i then 4096 else len - i);
        str := str + part;
        i := i + 4096;
      }
    }

    method RQpeek8() returns (b: Byte)
      requires Valid() && |Unread()| > 0
      ensures b == Unread()[0]
    {
      b := rQ[rQi];
    }
  }

  /** `b << (8 * k)` on 32-bit signed integers. */
  function ShiftLeft(b: Byte, k: nat): int
    requires k < 4
  {
    if k == 0 then b
    else if k == 1 then (b as int) * 256
    else if k == 2 then (b as int) * 0x1_0000
    else if b < 128 then (b as int) * 0x100_0000
    else (b as int) * 0x100_0000 - 0x1_0000_0000
  }

  /** What adding up the shifted bytes gives after the first |s| of `n` bytes. */
  ghost function ShiftedSum(s: seq<Byte>, n: nat): int
    requires |s| <= n <= 4
  {
    if s == [] then 0
    else ShiftedSum(s[..|s| - 1], n) + ShiftLeft(s[|s| - 1], n - |s|)
  }

  lemma {:induction false} ShiftedSumIsBigEndian(s: seq<Byte>)
    requires |s| <= 4
    ensures ShiftedSum(s, |s|) == if |s| == 4 then Signed32(BigEndian(s)) else BigEndian(s)
  {
    if |s| == 4 {
      BigEndian4(s);
      ShiftedSum3(s[..3], 4);
    } else if |s| == 3 {
      ShiftedSum3(s, 3);
      BigEndian2(s[..2]);
    } else if |s| == 2 {
      BigEndian2(s);
      assert s[..1][..0] == [];
      assert ShiftedSum(s[..1], 2) == ShiftLeft(s[0], 1);
    } else if |s| == 1 {
      assert s[..0] == [];
    }
  }

  lemma ShiftedSum3(s: seq<Byte>, n: nat)
    requires |s| == 3 <= n <= 4
    ensures ShiftedSum(s, n) == ShiftLeft(s[0], n - 1) + ShiftLeft(s[1], n - 2) + ShiftLeft(s[2], n - 3)
  {
    assert s[..2][..1] == s[..1] && s[..1][..0] == [];
    assert ShiftedSum(s[..1], n) == ShiftLeft(s[0], n - 1);
    assert ShiftedSum(s[..2], n) == ShiftedSum(s[..1], n) + ShiftLeft(s[1], n - 2);
  }
}
