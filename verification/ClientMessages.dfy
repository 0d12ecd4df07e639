/**
 What a server makes of the messages whose senders are in `SendQueue`, read by the layouts of
 section 7.5.6 of RFC 6143, its extension for clipboard formats, and the two messages added to it.
 */
module ClientMessages {
  import opened Bytes
  import opened SendQueue

  /** A text and whether it is of the extended form; a list of clipboard formats; relayed data. */
  datatype Received =
    | CutText(extended: bool, data: seq<Byte>)
    | Clipboard(items: seq<ClipData>)
    | RelayData(name: seq<Byte>, data: seq<Byte>)

  /** What is read, and what is left behind it. */
  type Reading<T> = Option<(T, seq<Byte>)>

  function ReadCutText(s: seq<Byte>): Reading<Received> {
    if |s| < 8 || s[0] != 6 || s[1] != 0 || s[2] != 0 || s[3] != 0 then None
    else
      var n := Signed32(BigEndian(s[4..8]));
      var size := if n < 0 then -n else n;
      if |s| < 8 + size then None else Some((CutText(n < 0, s[8..8 + size]), s[8 + size..]))
  }

  /** A string behind its length in one byte, then bytes behind their length in four. */
  function ReadNamed(s: seq<Byte>): Reading<ClipData> {
    if s == [] then None
    else
      var at: nat := 1 + s[0] as int;
      if |s| < at + 4 then None
      else
        var size := BigEndian(s[at..at + 4]);
        if |s| < at + 4 + size then None
        else Some((ClipData(s[1..at], s[at + 4..at + 4 + size]), s[at + 4 + size..]))
  }

  function ReadRelay(s: seq<Byte>): Reading<Received> {
    if s == [] || s[0] != 183 then None
    else
      match ReadNamed(s[1..])
      case None => None
      case Some(r) => Some((RelayData(r.0.mime, r.0.data), r.1))
  }

  function ReadItems(s: seq<Byte>, n: nat): (r: Reading<seq<ClipData>>)
    ensures r.Some? ==> |r.value.0| == n
  {
    if n == 0 then Some(([], s))
    else
      match ReadNamed(s)
      case None => None
      case Some(first) =>
        match ReadItems(first.1, n - 1)
        case None => None
        case Some(more) => Some(([first.0] + more.0, more.1))
  }

  function ReadClipboard(s: seq<Byte>): Reading<Received> {
    if |s| < 2 || s[0] != 180 then None
    else
      match ReadItems(s[2..], s[1])
      case None => None
      case Some(r) => Some((Clipboard(r.0), r.1))
  }

  // ---- written and read back

  lemma SignedOf(n: nat, extended: bool)
    ensures var m := Signed32((if extended then 0 - n as int else n) % 0x1_0000_0000);
      if extended then m + n == 0 <==> n <= 0x8000_0000 else m == n <==> n < 0x8000_0000
    ensures var m := Signed32((if extended then 0 - n as int else n) % 0x1_0000_0000);
      -0x8000_0000 <= m < 0x8000_0000
  {
  }

  /**
   A text arrives as it was sent, of the form it was sent in, exactly if its length has a place in
   the header: up to 2^31, less one in the plain form, and at least 1 in the extended form.
   */
  lemma CutTextReadsIff(data: seq<Byte>, extended: bool, tail: seq<Byte>)
    ensures ReadCutText(CutTextHeader(|data|, extended) + data + tail) == Some((CutText(extended, data), tail))
       <==> if extended then 1 <= |data| <= 0x8000_0000 else |data| < 0x8000_0000
  {
    var h := CutTextHeader(|data|, extended);
    var s := h + data + tail;
    assert s[4..8] == h[4..8] == Word32(if extended then 0 - |data| as int else |data|);
    Word32Reads(if extended then 0 - |data| as int else |data|);
    SignedOf(|data|, extended);
    assert s[8..8 + |data|] == data && s[8 + |data|..] == tail;
  }

  lemma NamedReadsIff(c: ClipData, tail: seq<Byte>)
    ensures ReadNamed(ItemHeader(c) + c.data + tail) == Some((c, tail))
       <==> |c.mime| < 256 && |c.data| < 0x1_0000_0000
    ensures ReadNamed(ItemHeader(c) + c.data + tail).Some? ==>
      (ReadNamed(ItemHeader(c) + c.data + tail).value.0 == c <==> |c.mime| < 256 && |c.data| < 0x1_0000_0000)
  {
    var h := ItemHeader(c);
    var s := h + c.data + tail;
    assert s[0] == |c.mime| % 256;
    if |c.mime| < 256 {
      var at := 1 + |c.mime|;
      assert s[1..at] == c.mime && s[at..at + 4] == Word32(|c.data|);
      Word32Reads(|c.data|);
      if |c.data| < 0x1_0000_0000 {
        assert s[at + 4..at + 4 + |c.data|] == c.data && s[at + 4 + |c.data|..] == tail;
      }
    }
  }

  /** Relayed data arrives under its name exactly if the name's length fits one byte, and the data's four. */
  lemma RelayReadsIff(name: seq<Byte>, data: seq<Byte>, tail: seq<Byte>)
    ensures ReadRelay(RelayHeader(name, |data|) + data + tail) == Some((RelayData(name, data), tail))
       <==> |name| < 256 && |data| < 0x1_0000_0000
  {
    var c := ClipData(name, data);
    var s := RelayHeader(name, |data|) + data + tail;
    assert s[1..] == ItemHeader(c) + data + tail;
    NamedReadsIff(c, tail);
  }

  predicate ItemFits(c: ClipData) {
    |c.mime| < 256 && |c.data| < 0x1_0000_0000
  }

  predicate AllFit(cs: seq<ClipData>) {
    cs == [] || (ItemFits(cs[0]) && AllFit(cs[1..]))
  }

  lemma {:induction false} ItemsReadIff(cs: seq<ClipData>, tail: seq<Byte>)
    ensures ReadItems(ClipItems(cs) + tail, |cs|) == Some((cs, tail)) <==> AllFit(cs)
    decreases |cs|
  {
    if cs == [] {
      assert [] + tail == tail;
    } else {
      hide ReadNamed, ItemHeader;
      var more := ClipItems(cs[1..]) + tail;
      assert ClipItems(cs) + tail == ItemHeader(cs[0]) + cs[0].data + more;
      NamedReadsIff(cs[0], more);
      ItemsReadIff(cs[1..], tail);
      assert [cs[0]] + cs[1..] == cs;
    }
  }

  /** Clipboard formats arrive as they were sent exactly if there are at most 255, each name and length in its field. */
  lemma ClipboardReadsIff(cs: seq<ClipData>, tail: seq<Byte>)
    ensures ReadClipboard(ClipboardMessage(cs) + tail) == Some((Clipboard(cs), tail)) <==> |cs| < 256 && AllFit(cs)
  {
    hide ClipboardMessage, AllFit, ReadItems;
    ClipboardParts(cs, tail);
    ItemsReadIff(cs, tail);
  }

  lemma ClipboardParts(cs: seq<ClipData>, tail: seq<Byte>)
    ensures var s := ClipboardMessage(cs) + tail;
      |s| >= 2 && s[0] == 180 && s[1] == |cs| % 256 && s[2..] == ClipItems(cs) + tail
  {
    hide ClipItems;
  }
}
