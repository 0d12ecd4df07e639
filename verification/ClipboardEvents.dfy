/**
 The clipboard events of a binary clipboard message that arrives in parts. Each attempt to read it
 dispatches the texts that are complete by then, and an attempt that finds bytes missing starts over
 with the next one.
 */
module ClipboardEvents {
  import opened Bytes
  import opened MessageParsing

  predicate AllSendable(cs: seq<ClipItem>) {
    |cs| < 256 && forall c :: c in cs ==> Sendable(c)
  }

  function Wire(cs: seq<ClipItem>): (u: seq<Byte>)
    requires AllSendable(cs)
    ensures |u| == 2 + |EncodeItems(cs)| && u[1] as nat == |cs|
  {
    [180, |cs|] + EncodeItems(cs)
  }

  /** Where item `i` ends, counted from the message's type byte. */
  function EndOf(cs: seq<ClipItem>, i: nat): nat
    requires AllSendable(cs) && i < |cs|
  {
    2 + |EncodeItems(cs[..i + 1])|
  }

  predicate IsText(c: ClipItem) {
    c.mime == TEXT_PLAIN
  }

  /** How many of the items, the first of which starts at `at`, end at or before `k`. */
  function CompleteBy(cs: seq<ClipItem>, at: nat, k: nat): (n: nat)
    requires forall c :: c in cs ==> Sendable(c)
    ensures n <= |cs|
  {
    if cs == [] || at + |EncodeItem(cs[0])| > k then 0
    else 1 + CompleteBy(cs[1..], at + |EncodeItem(cs[0])|, k)
  }

  lemma ItemIsLong(c: ClipItem)
    requires Sendable(c)
    ensures |EncodeItem(c)| >= 9
  {
  }

  /** An item that has not come whole is not read. */
  lemma CutItemWaits(front: seq<Byte>, c: ClipItem, m: nat)
    requires Sendable(c) && m < |EncodeItem(c)|
    ensures OneItem(front + EncodeItem(c)[..m], |front|) == ItemMore
  {
    var e := EncodeItem(c);
    var u, v := front + e[..m], e[m..];
    ItemReads(front, c, []);
    assert u + v == front + e + [];
    hide EncodeItem;
    if OneItem(u, |front|) != ItemMore {
      OneItemStable(u, v, |front|);
    }
  }

  lemma {:induction false} CutItemsRead(front: seq<Byte>, cs: seq<ClipItem>, m: nat, before: seq<ClipItem>)
    requires (forall c :: c in cs ==> Sendable(c)) && m <= |EncodeItems(cs)|
    ensures ItemsFrom(front + EncodeItems(cs)[..m], |front|, |cs|, before).items
         == before + cs[..CompleteBy(cs, |front|, |front| + m)]
    decreases |cs|
  {
    hide OneItem, EncodeItem;
    if cs == [] {
      assert before + [] == before;
    } else {
      var e, rest := EncodeItem(cs[0]), EncodeItems(cs[1..]);
      if m < |e| {
        CutItemWaits(front, cs[0], m);
        assert (e + rest)[..m] == e[..m];
        assert before + [] == before;
      } else {
        var tail := rest[..m - |e|];
        assert (e + rest)[..m] == e + tail;
        assert front + (e + tail) == front + e + tail == (front + e) + tail;
        ItemReads(front, cs[0], tail);
        CutItemsRead(front + e, cs[1..], m - |e|, before + [cs[0]]);
        var n := CompleteBy(cs[1..], |front| + |e|, |front| + m);
        assert before + [cs[0]] + cs[1..][..n] == before + cs[..n + 1];
      }
    }
  }

  /** An attempt with the first `k` bytes reads exactly the items that end at or before `k`. */
  lemma CutReads(cs: seq<ClipItem>, k: nat)
    requires AllSendable(cs) && k <= |Wire(cs)|
    ensures BinaryClipboard(Wire(cs)[..k]).items == cs[..CompleteBy(cs, 2, k)]
  {
    if k < 3 {
      if cs != [] {
        ItemIsLong(cs[0]);
      }
    } else {
      CutItemsRead([180, |cs|], cs, k - 2, []);
      assert Wire(cs)[..k] == [180, |cs|] + EncodeItems(cs)[..k - 2];
      assert [] + cs[..CompleteBy(cs, 2, k)] == cs[..CompleteBy(cs, 2, k)];
      hide EncodeItems, CompleteBy;
    }
  }

  lemma {:induction false} CompleteIffEnded(cs: seq<ClipItem>, at: nat, k: nat, i: nat)
    requires (forall c :: c in cs ==> Sendable(c)) && i < |cs|
    ensures i < CompleteBy(cs, at, k) <==> at + |EncodeItems(cs[..i + 1])| <= k
    decreases |cs|
  {
    hide EncodeItem;
    var e := EncodeItem(cs[0]);
    assert cs[..i + 1][0] == cs[0] && cs[..i + 1][1..] == cs[1..i + 1];
    if i > 0 {
      CompleteIffEnded(cs[1..], at + |e|, k, i - 1);
      assert cs[1..][..i] == cs[1..i + 1];
    } else {
      assert cs[1..1] == [];
    }
  }

  predicate Cuts(cs: seq<ClipItem>, cuts: seq<nat>)
    requires AllSendable(cs)
  {
    forall i :: 0 <= i < |cuts| ==> cuts[i] <= |Wire(cs)|
  }

  /** Everything dispatched by attempts that have these many bytes of the message. */
  function Announced(cs: seq<ClipItem>, cuts: seq<nat>): seq<seq<Byte>>
    requires AllSendable(cs) && Cuts(cs, cuts)
  {
    if cuts == [] then []
    else
      var n := |cuts| - 1;
      Announced(cs, cuts[..n]) + Texts(BinaryClipboard(Wire(cs)[..cuts[n]]).items)
  }

  /** How many of the cuts lie at or behind `end`. */
  function Behind(cuts: seq<nat>, end: nat): nat {
    if cuts == [] then 0
    else Behind(cuts[..|cuts| - 1], end) + if end <= cuts[|cuts| - 1] then 1 else 0
  }

  /** For each item among the first `n` that is this text, the attempts that had all of it. */
  function Times(cs: seq<ClipItem>, n: nat, cuts: seq<nat>, text: seq<Byte>): nat
    requires AllSendable(cs) && n <= |cs|
  {
    if n == 0 then 0
    else
      Times(cs, n - 1, cuts, text)
      + if IsText(cs[n - 1]) && cs[n - 1].data == text then Behind(cuts, EndOf(cs, n - 1)) else 0
  }

  lemma {:induction false} TimesGrow(cs: seq<ClipItem>, n: nat, cuts: seq<nat>, k: nat, text: seq<Byte>)
    requires AllSendable(cs) && n <= |cs|
    ensures Times(cs, n, cuts + [k], text)
         == Times(cs, n, cuts, text)
            + multiset(Texts(cs[..if n < CompleteBy(cs, 2, k) then n else CompleteBy(cs, 2, k)]))[text]
  {
    hide EncodeItem, EncodeItems, CompleteBy, Behind, Texts, EndOf, IsText;
    if n == 0 {
      TextsGrow(cs, 0);
    } else {
      TimesGrow(cs, n - 1, cuts, k, text);
      CompleteIffEnded(cs, 2, k, n - 1);
      assert EndOf(cs, n - 1) == 2 + |EncodeItems(cs[..n])| by {
        EndIs(cs, n - 1);
      }
      BehindGrows(cuts, k, EndOf(cs, n - 1));
      TextsGrow(cs, n);
    }
  }

  lemma EndIs(cs: seq<ClipItem>, i: nat)
    requires AllSendable(cs) && i < |cs|
    ensures EndOf(cs, i) == 2 + |EncodeItems(cs[..i + 1])|
  {
  }

  lemma BehindGrows(cuts: seq<nat>, k: nat, end: nat)
    ensures Behind(cuts + [k], end) == Behind(cuts, end) + if end <= k then 1 else 0
  {
    assert (cuts + [k])[..|cuts|] == cuts;
  }

  lemma TextsGrow(cs: seq<ClipItem>, n: nat)
    requires n <= |cs|
    ensures n == 0 ==> Texts(cs[..n]) == []
    ensures n > 0 ==> Texts(cs[..n]) == Texts(cs[..n - 1]) + if IsText(cs[n - 1]) then [cs[n - 1].data] else []
  {
    if n > 0 {
      assert cs[..n][..n - 1] == cs[..n - 1];
    }
  }

  /**
   Whatever the attempts, each text item of the message is announced once for every attempt that
   had all of it: this is how often each text is dispatched.
   */
  lemma {:induction false} EachTextAnnounced(cs: seq<ClipItem>, cuts: seq<nat>, text: seq<Byte>)
    requires AllSendable(cs) && Cuts(cs, cuts)
    ensures multiset(Announced(cs, cuts))[text] == Times(cs, |cs|, cuts, text)
  {
    hide Wire, BinaryClipboard, CompleteBy, Texts;
    if cuts == [] {
      NeverAnnounced(cs, |cs|, text);
    } else {
      var n := |cuts| - 1;
      assert cuts[..n] + [cuts[n]] == cuts;
      EachTextAnnounced(cs, cuts[..n], text);
      CutReads(cs, cuts[n]);
      TimesGrow(cs, |cs|, cuts[..n], cuts[n], text);
    }
  }

  lemma {:induction false} NeverAnnounced(cs: seq<ClipItem>, n: nat, text: seq<Byte>)
    requires AllSendable(cs) && n <= |cs|
    ensures Times(cs, n, [], text) == 0
  {
    if n > 0 {
      NeverAnnounced(cs, n - 1, text);
    }
  }

  /** No cut lies at or behind the end of a text item. */
  predicate BeforeAnyText(cs: seq<ClipItem>, k: nat)
    requires AllSendable(cs)
  {
    forall i :: 0 <= i < |cs| && IsText(cs[i]) ==> k < EndOf(cs, i)
  }

  lemma {:induction false} NoTexts(cs: seq<ClipItem>)
    ensures Texts(cs) == [] <==> forall i :: 0 <= i < |cs| ==> !IsText(cs[i])
  {
    if cs != [] {
      var init := cs[..|cs| - 1];
      NoTexts(init);
      assert forall i :: 0 <= i < |init| ==> init[i] == cs[i];
    }
  }

  lemma SilentIff(cs: seq<ClipItem>, k: nat)
    requires AllSendable(cs) && k <= |Wire(cs)|
    ensures Texts(BinaryClipboard(Wire(cs)[..k]).items) == [] <==> BeforeAnyText(cs, k)
  {
    CutReads(cs, k);
    var n := CompleteBy(cs, 2, k);
    NoTexts(cs[..n]);
    forall i | 0 <= i < |cs|
      ensures i < n <==> EndOf(cs, i) <= k
    {
      CompleteIffEnded(cs, 2, k, i);
    }
    hide Wire, BinaryClipboard, CompleteBy, EndOf, Texts;
    assert forall i :: 0 <= i < n ==> cs[..n][i] == cs[i];
  }

  lemma {:induction false} AllSilentIff(cs: seq<ClipItem>, cuts: seq<nat>)
    requires AllSendable(cs) && Cuts(cs, cuts)
    ensures Announced(cs, cuts) == [] <==> forall i :: 0 <= i < |cuts| ==> BeforeAnyText(cs, cuts[i])
  {
    hide Wire, BinaryClipboard, BeforeAnyText, Texts;
    if cuts != [] {
      var n := |cuts| - 1;
      AllSilentIff(cs, cuts[..n]);
      SilentIff(cs, cuts[n]);
      assert cuts[..n] + [cuts[n]] == cuts;
    }
  }

  lemma WholeAnnounced(cs: seq<ClipItem>)
    requires AllSendable(cs)
    ensures Texts(BinaryClipboard(Wire(cs)[..|Wire(cs)|]).items) == Texts(cs)
  {
    CutReads(cs, |Wire(cs)|);
    if cs != [] {
      CompleteIffEnded(cs, 2, |Wire(cs)|, |cs| - 1);
      assert cs[..|cs|] == cs;
    }
  }

  /**
   A message that takes several attempts, the last of which has all of it, announces exactly its
   texts, each once, if and only if every earlier attempt ended before the end of the first text.
   */
  lemma TextsAnnouncedTwice(cs: seq<ClipItem>, cuts: seq<nat>)
    requires AllSendable(cs) && Cuts(cs, cuts)
    ensures Announced(cs, cuts + [|Wire(cs)|]) == Announced(cs, cuts) + Texts(cs)
    ensures Announced(cs, cuts + [|Wire(cs)|]) == Texts(cs) <==> forall i :: 0 <= i < |cuts| ==> BeforeAnyText(cs, cuts[i])
  {
    assert (cuts + [|Wire(cs)|])[..|cuts|] == cuts;
    WholeAnnounced(cs);
    AllSilentIff(cs, cuts);
    hide Wire, BinaryClipboard, BeforeAnyText, Texts;
    assert [] + Texts(cs) == Texts(cs);
  }
}
