/**
 The cipher as the client computes it: permutations by swapping groups of bits under masks, and
 S-boxes fused with the permutation behind them into eight tables.
 */
module Des {
  import opened DesKeys
  import opened DesStandard

  // ---- permutations by delta swaps

  /** The shape of every swap: `x = ((a >>> n) ^ b) & m; b ^= x; a ^= x << n`. */
  function SwapHigh(a: Word, b: Word, n: bv32, m: Word): Word
    requires n < 32
  {
    a ^ ((((a >> n) ^ b) & m) << n)
  }

  function SwapLow(a: Word, b: Word, n: bv32, m: Word): Word
    requires n < 32
  {
    b ^ (((a >> n) ^ b) & m)
  }

  function SwapDown(b: Block, n: bv32, m: Word): Block
    requires n < 32
  {
    Block(SwapHigh(b.l, b.r, n, m), SwapLow(b.l, b.r, n, m))
  }

  function SwapUp(b: Block, n: bv32, m: Word): Block
    requires n < 32
  {
    Block(SwapLow(b.r, b.l, n, m), SwapHigh(b.r, b.l, n, m))
  }

  function Exchange(b: Block): Block {
    Block(b.r, b.l)
  }

  function RotateLeft1(x: Word): Word {
    (x << 1) | ((x >> 31) & 1)
  }

  function RotateRight1(x: Word): Word {
    (x << 31) | (x >> 1)
  }

  /** The odd bits of `a` replaced by those of `b`: the swap between the two rotations. */
  function OddFrom(a: Word, b: Word): Word {
    a ^ ((a ^ b) & 0xaaaaaaaa)
  }

  function SwapOdd(b: Block): Block {
    Block(OddFrom(b.l, b.r), OddFrom(b.r, b.l))
  }

  function Open(b: Block): Block {
    var b1 := SwapDown(b, 4, 0x0f0f0f0f);
    var b2 := SwapDown(b1, 16, 0x0000ffff);
    var b3 := SwapUp(b2, 2, 0x33333333);
    var b4 := SwapUp(b3, 8, 0x00ff00ff);
    var b5 := SwapOdd(Block(b4.l, RotateLeft1(b4.r)));
    Block(RotateLeft1(b5.l), b5.r)
  }

  /** The closing swaps, and the halves as they are spread to bytes: the right one first. */
  function Close(b: Block): Block {
    var b1 := SwapOdd(Block(b.l, RotateRight1(b.r)));
    var b2 := Block(RotateRight1(b1.l), b1.r);
    var b3 := SwapDown(b2, 8, 0x00ff00ff);
    var b4 := SwapDown(b3, 2, 0x33333333);
    var b5 := SwapUp(b4, 16, 0x0000ffff);
    var b6 := SwapUp(b5, 4, 0x0f0f0f0f);
    Exchange(b6)
  }

  // ---- the fused tables

  /** An entry as the source composes it: one of z, a, b, a|b and one of z, d, e, d|e. */
  function Compose(code: Word, a: bv32, b: bv32, d: bv32, e: bv32): Word
    requires a < 32 && b < 32 && d < 32 && e < 32
  {
    Move(code, 2, a) | Move(code, 3, b) | Move(code, 0, d) | Move(code, 1, e)
  }

  /** Entry `x` of a table of four lines of sixteen. */
  function Entry(line0: bv64, line1: bv64, line2: bv64, line3: bv64, x: Word): Word
    requires x < 64
  {
    if x < 16 then Nibble(line0, x)
    else if x < 32 then Nibble(line1, x & 15)
    else if x < 48 then Nibble(line2, x & 15)
    else Nibble(line3, x & 15)
  }

  function SP1(x: Word): Word
    requires x < 64
  {
    Compose(Entry(0xE04FD7142EF2BD81, 0x3AA66CCB59950378,
                  0x4F1CE882D46921B7, 0xF5CB937E3AA0560D, x), 16, 24, 2, 10)
  }

  function SP2(x: Word): Word
    requires x < 64
  {
    Compose(Entry(0xFA2741DB9FE8A41D, 0x65B0827C59063EC3,
                  0x07D4BCE2CA1F7128, 0x3E495B9560A38DF6, x), 20, 31, 5, 15)
  }

  function SP3(x: Word): Word
    requires x < 64
  {
    Compose(Entry(0x3E0DA07A5994F5C3, 0x81E26CD7B64B1F28,
                  0xE8534EA025FA920D, 0xB48F1769CB3C71D6, x), 17, 27, 3, 9)
  }

  function SP4(x: Word): Word
    requires x < 64
  {
    Compose(Entry(0xD772EB950CCF30A9, 0x148D2856B16A4EF3,
                  0xA9CF300C6AB1D772, 0xF31495EB568D284E, x), 13, 23, 0, 7)
  }

  function SP5(x: Word): Word
    requires x < 64
  {
    Compose(Entry(0x176D2186B25BDE38, 0x4AA09FF5E90C74C3,
                  0x2D1486DB58E7B14E, 0xF3CF60AC35920A79, x), 25, 30, 8, 19)
  }

  function SP6(x: Word): Word
    requires x < 64
  {
    Compose(Entry(0x9C2FC1F4A7495A83, 0x05B26B1DD07E36E8,
                  0xA1D6F4394A839F6C, 0x7E0D12C725B0E85B, x), 22, 29, 4, 14)
  }

  function SP7(x: Word): Word
    requires x < 64
  {
    Compose(Entry(0x4DB02B7EF40918D3, 0xA75A9CE5C23F6186,
                  0x864BBDD158A4E37E, 0x39FC601F07C29A25, x), 21, 26, 1, 11)
  }

  function SP8(x: Word): Word
    requires x < 64
  {
    Compose(Entry(0xB24F8B185CF6E721, 0xC9A365DE300D9A74,
                  0x74E21D27A19CD84B, 0x0F59CAB0F663358E, x), 18, 28, 6, 12)
  }

  /** One half of a round: `fval` from a half and a pair of subkeys. */
  function Fval(r: Word, k0: Word, k1: Word): Word {
    var x := ((r << 28) | (r >> 4)) ^ k0;
    var y := r ^ k1;
    Join(SP7(x & 63), SP5((x >> 8) & 63), SP3((x >> 16) & 63), SP1((x >> 24) & 63),
         SP8(y & 63), SP6((y >> 8) & 63), SP4((y >> 16) & 63), SP2((y >> 24) & 63))
  }

  // ---- rounds, for any round function

  datatype KeyPair = KeyPair(k0: Word, k1: Word)

  type RoundFunction = (Word, KeyPair) -> Word

  function Feistel(f: RoundFunction, b: Block, ks: seq<KeyPair>): Block
    decreases |ks|
  {
    if ks == [] then b else Feistel(f, FeistelStep(f, b, ks[0]), ks[1..])
  }

  function FeistelStep(f: RoundFunction, b: Block, k: KeyPair): Block {
    Block(b.r, Mix(b.l, f(b.r, k)))
  }

  function Cipher(f: RoundFunction, b: Block, ks: seq<KeyPair>): Block {
    Close(Feistel(f, Open(b), ks))
  }

  function Reversed<T>(s: seq<T>): (r: seq<T>)
    ensures |r| == |s|
  {
    if s == [] then [] else Reversed(s[1..]) + [s[0]]
  }

  // ---- deciphering

  lemma Swap4Undone(a: Word, b: Word)
    ensures SwapHigh(SwapHigh(a, b, 4, 0x0f0f0f0f), SwapLow(a, b, 4, 0x0f0f0f0f), 4, 0x0f0f0f0f) == a
    ensures SwapLow(SwapHigh(a, b, 4, 0x0f0f0f0f), SwapLow(a, b, 4, 0x0f0f0f0f), 4, 0x0f0f0f0f) == b
  {
  }

  lemma Swap16Undone(a: Word, b: Word)
    ensures SwapHigh(SwapHigh(a, b, 16, 0x0000ffff), SwapLow(a, b, 16, 0x0000ffff), 16, 0x0000ffff) == a
    ensures SwapLow(SwapHigh(a, b, 16, 0x0000ffff), SwapLow(a, b, 16, 0x0000ffff), 16, 0x0000ffff) == b
  {
  }

  lemma Swap2Undone(a: Word, b: Word)
    ensures SwapHigh(SwapHigh(a, b, 2, 0x33333333), SwapLow(a, b, 2, 0x33333333), 2, 0x33333333) == a
    ensures SwapLow(SwapHigh(a, b, 2, 0x33333333), SwapLow(a, b, 2, 0x33333333), 2, 0x33333333) == b
  {
  }

  lemma Swap8Undone(a: Word, b: Word)
    ensures SwapHigh(SwapHigh(a, b, 8, 0x00ff00ff), SwapLow(a, b, 8, 0x00ff00ff), 8, 0x00ff00ff) == a
    ensures SwapLow(SwapHigh(a, b, 8, 0x00ff00ff), SwapLow(a, b, 8, 0x00ff00ff), 8, 0x00ff00ff) == b
  {
  }

  lemma OddUndone(a: Word, b: Word)
    ensures OddFrom(OddFrom(a, b), OddFrom(b, a)) == a
  {
  }

  lemma RotateUndone(a: Word)
    ensures RotateLeft1(RotateRight1(a)) == a && RotateRight1(RotateLeft1(a)) == a
  {
  }

  lemma DownTwice(b: Block, n: bv32, m: Word)
    requires (n == 4 && m == 0x0f0f0f0f) || (n == 16 && m == 0x0000ffff)
          || (n == 2 && m == 0x33333333) || (n == 8 && m == 0x00ff00ff)
    ensures SwapDown(SwapDown(b, n, m), n, m) == b
    ensures SwapUp(SwapUp(b, n, m), n, m) == b
    ensures SwapUp(Exchange(b), n, m) == Exchange(SwapDown(b, n, m))
    ensures SwapDown(Exchange(b), n, m) == Exchange(SwapUp(b, n, m))
  {
    hide SwapHigh, SwapLow;
    if n == 4 {
      Swap4Undone(b.l, b.r);
      Swap4Undone(b.r, b.l);
    } else if n == 16 {
      Swap16Undone(b.l, b.r);
      Swap16Undone(b.r, b.l);
    } else if n == 2 {
      Swap2Undone(b.l, b.r);
      Swap2Undone(b.r, b.l);
    } else {
      Swap8Undone(b.l, b.r);
      Swap8Undone(b.r, b.l);
    }
  }

  lemma OddTwice(b: Block)
    ensures SwapOdd(SwapOdd(b)) == b && SwapOdd(Exchange(b)) == Exchange(SwapOdd(b))
  {
    hide OddFrom;
    OddUndone(b.l, b.r);
    OddUndone(b.r, b.l);
  }

  /** The closing swaps undo the opening ones with the halves exchanged. */
  lemma OpenClose(b: Block)
    ensures Open(Close(b)) == Exchange(b)
  {
    hide SwapDown, SwapUp, SwapOdd, RotateLeft1, RotateRight1;
    var b1 := SwapOdd(Block(b.l, RotateRight1(b.r)));
    var b2 := Block(RotateRight1(b1.l), b1.r);
    var b3 := SwapDown(b2, 8, 0x00ff00ff);
    var b4 := SwapDown(b3, 2, 0x33333333);
    var b5 := SwapUp(b4, 16, 0x0000ffff);
    DownTwice(b5, 4, 0x0f0f0f0f);
    DownTwice(SwapUp(b5, 4, 0x0f0f0f0f), 4, 0x0f0f0f0f);
    DownTwice(b4, 16, 0x0000ffff);
    DownTwice(b5, 16, 0x0000ffff);
    DownTwice(b3, 2, 0x33333333);
    DownTwice(b4, 2, 0x33333333);
    DownTwice(b2, 8, 0x00ff00ff);
    DownTwice(b3, 8, 0x00ff00ff);
    RotateUndone(b.r);
    RotateUndone(b1.l);
    OddTwice(Block(b.l, RotateRight1(b.r)));
    OddTwice(b1);
  }

  /** And the opening ones undo the closing ones. */
  lemma CloseOpen(b: Block)
    ensures Close(Exchange(Open(b))) == b
  {
    hide SwapDown, SwapUp, SwapOdd, RotateLeft1, RotateRight1;
    var b1 := SwapDown(b, 4, 0x0f0f0f0f);
    var b2 := SwapDown(b1, 16, 0x0000ffff);
    var b3 := SwapUp(b2, 2, 0x33333333);
    var b4 := SwapUp(b3, 8, 0x00ff00ff);
    var b5 := SwapOdd(Block(b4.l, RotateLeft1(b4.r)));
    RotateUndone(b5.l);
    RotateUndone(b4.r);
    OddTwice(Block(b4.l, RotateLeft1(b4.r)));
    OddTwice(b5);
    DownTwice(b3, 8, 0x00ff00ff);
    DownTwice(b4, 8, 0x00ff00ff);
    DownTwice(b2, 2, 0x33333333);
    DownTwice(b3, 2, 0x33333333);
    DownTwice(b1, 16, 0x0000ffff);
    DownTwice(b2, 16, 0x0000ffff);
    DownTwice(b, 4, 0x0f0f0f0f);
    DownTwice(b1, 4, 0x0f0f0f0f);
  }

  lemma MixTwice(x: Word, y: Word)
    ensures Mix(Mix(x, y), y) == x
  {
  }

  lemma StepUndone(f: RoundFunction, b: Block, k: KeyPair)
    ensures FeistelStep(f, Exchange(FeistelStep(f, b, k)), k) == Exchange(b)
  {
    hide Mix;
    MixTwice(b.l, f(b.r, k));
  }

  lemma {:induction false} FeistelAppend(f: RoundFunction, b: Block, a: seq<KeyPair>, k: KeyPair)
    ensures Feistel(f, b, a + [k]) == FeistelStep(f, Feistel(f, b, a), k)
    decreases |a|
  {
    hide FeistelStep;
    if a == [] {
      assert (a + [k])[1..] == [];
    } else {
      assert (a + [k])[1..] == a[1..] + [k];
      FeistelAppend(f, FeistelStep(f, b, a[0]), a[1..], k);
    }
  }

  /** Rounds run backwards: the halves exchanged and the keys reversed, for any round function. */
  lemma {:induction false} FeistelUndone(f: RoundFunction, b: Block, ks: seq<KeyPair>)
    ensures Feistel(f, Exchange(Feistel(f, b, ks)), Reversed(ks)) == Exchange(b)
    decreases |ks|
  {
    hide FeistelStep, Exchange;
    if ks != [] {
      var b1 := FeistelStep(f, b, ks[0]);
      FeistelUndone(f, b1, ks[1..]);
      FeistelAppend(f, Exchange(Feistel(f, b, ks)), Reversed(ks[1..]), ks[0]);
      StepUndone(f, b, ks[0]);
    }
  }

  /**
   Deciphering: whatever the round function and the keys, enciphering the result again with the
   key pairs reversed restores the block.
   */
  lemma CipherUndone(f: RoundFunction, b: Block, ks: seq<KeyPair>)
    ensures Cipher(f, Cipher(f, b, ks), Reversed(ks)) == b
  {
    hide Open, Close, Feistel, Exchange;
    OpenClose(Feistel(f, Open(b), ks));
    FeistelUndone(f, Open(b), ks);
    CloseOpen(b);
  }

  // ---- the standard

  lemma OpenIsInitial(b: Block)
    ensures Open(b) == Block(RotateLeft1(InitialLeft(b.l, b.r)), RotateLeft1(InitialRight(b.l, b.r)))
  {
    hide SwapHigh, SwapLow, OddFrom, RotateLeft1, InitialLeft, InitialRight;
    OpenWires(b.l, b.r);
  }

  lemma OpenWires(l: Word, r: Word)
    ensures
      var l1, r1 := SwapHigh(l, r, 4, 0x0f0f0f0f), SwapLow(l, r, 4, 0x0f0f0f0f);
      var l2, r2 := SwapHigh(l1, r1, 16, 0x0000ffff), SwapLow(l1, r1, 16, 0x0000ffff);
      var l3, r3 := SwapLow(r2, l2, 2, 0x33333333), SwapHigh(r2, l2, 2, 0x33333333);
      var l4, r4 := SwapLow(r3, l3, 8, 0x00ff00ff), SwapHigh(r3, l3, 8, 0x00ff00ff);
      var r5 := RotateLeft1(r4);
      && RotateLeft1(OddFrom(l4, r5)) == RotateLeft1(InitialLeft(l, r))
      && OddFrom(r5, l4) == RotateLeft1(InitialRight(l, r))
  {
  }

  lemma CloseIsFinal(l: Word, r: Word)
    ensures Close(Block(RotateLeft1(l), RotateLeft1(r))) == Block(FinalLeft(r, l), FinalRight(r, l))
  {
    hide SwapHigh, SwapLow, OddFrom, RotateLeft1, RotateRight1, FinalLeft, FinalRight;
    RotateUndone(l);
    RotateUndone(r);
    CloseWires(RotateLeft1(l), l, r);
  }

  lemma CloseWires(l0: Word, l: Word, r: Word)
    requires l0 == RotateLeft1(l)
    ensures
      var l1, r1 := RotateRight1(OddFrom(l0, r)), OddFrom(r, l0);
      var l2, r2 := SwapHigh(l1, r1, 8, 0x00ff00ff), SwapLow(l1, r1, 8, 0x00ff00ff);
      var l3, r3 := SwapHigh(l2, r2, 2, 0x33333333), SwapLow(l2, r2, 2, 0x33333333);
      var l4, r4 := SwapLow(r3, l3, 16, 0x0000ffff), SwapHigh(r3, l3, 16, 0x0000ffff);
      && SwapLow(r4, l4, 4, 0x0f0f0f0f) == FinalRight(r, l)
      && SwapHigh(r4, l4, 4, 0x0f0f0f0f) == FinalLeft(r, l)
  {
  }

  /** A round key spread over two words, the odd groups in one and the even ones in the other. */
  function Cook(k: bv48): KeyPair {
    KeyPair(Cooked0(k), Cooked1(k))
  }

  // Each table fuses an S-box, the permutation behind it, and the rotation of the halves.

  lemma Table1(x: Word)
    requires x < 64
    ensures SP1(x) == RotateLeft1(P(S1(x) << 28))
  {
  }

  lemma Table2(x: Word)
    requires x < 64
    ensures SP2(x) == RotateLeft1(P(S2(x) << 24))
  {
  }

  lemma Table3(x: Word)
    requires x < 64
    ensures SP3(x) == RotateLeft1(P(S3(x) << 20))
  {
  }

  lemma Table4(x: Word)
    requires x < 64
    ensures SP4(x) == RotateLeft1(P(S4(x) << 16))
  {
  }

  lemma Table5(x: Word)
    requires x < 64
    ensures SP5(x) == RotateLeft1(P(S5(x) << 12))
  {
  }

  lemma Table6(x: Word)
    requires x < 64
    ensures SP6(x) == RotateLeft1(P(S6(x) << 8))
  {
  }

  lemma Table7(x: Word)
    requires x < 64
    ensures SP7(x) == RotateLeft1(P(S7(x) << 4))
  {
  }

  lemma Table8(x: Word)
    requires x < 64
    ensures SP8(x) == RotateLeft1(P(S8(x)))
  {
  }

  lemma Group1(r: Word, k: bv48)
    ensures var r1 := RotateLeft1(r);
      ((((r1 << 28) | (r1 >> 4)) ^ Cooked0(k)) >> 24) & 63 == Selected(r, k, 1)
  {
  }

  lemma Group2(r: Word, k: bv48)
    ensures var r1 := RotateLeft1(r);
      ((r1 ^ Cooked1(k)) >> 24) & 63 == Selected(r, k, 2)
  {
  }

  lemma Group3(r: Word, k: bv48)
    ensures var r1 := RotateLeft1(r);
      ((((r1 << 28) | (r1 >> 4)) ^ Cooked0(k)) >> 16) & 63 == Selected(r, k, 3)
  {
  }

  lemma Group4(r: Word, k: bv48)
    ensures var r1 := RotateLeft1(r);
      ((r1 ^ Cooked1(k)) >> 16) & 63 == Selected(r, k, 4)
  {
  }

  lemma Group5(r: Word, k: bv48)
    ensures var r1 := RotateLeft1(r);
      ((((r1 << 28) | (r1 >> 4)) ^ Cooked0(k)) >> 8) & 63 == Selected(r, k, 5)
  {
  }

  lemma Group6(r: Word, k: bv48)
    ensures var r1 := RotateLeft1(r);
      ((r1 ^ Cooked1(k)) >> 8) & 63 == Selected(r, k, 6)
  {
  }

  lemma Group7(r: Word, k: bv48)
    ensures var r1 := RotateLeft1(r);
      (((r1 << 28) | (r1 >> 4)) ^ Cooked0(k)) & 63 == Selected(r, k, 7)
  {
  }

  lemma Group8(r: Word, k: bv48)
    ensures var r1 := RotateLeft1(r);
      (r1 ^ Cooked1(k)) & 63 == Selected(r, k, 8)
  {
  }

  lemma PermuteBits(a: Word, b: Word)
    ensures RotateLeft1(P(a | b)) == RotateLeft1(P(a)) | RotateLeft1(P(b))
  {
  }

  lemma PermuteOr(a: Word, b: Word)
    ensures RotateLeft1(P(Or(a, b))) == Or(RotateLeft1(P(a)), RotateLeft1(P(b)))
  {
    hide P, RotateLeft1;
    PermuteBits(a, b);
  }

  lemma TablesCombine(a1: Word, a2: Word, a3: Word, a4: Word, a5: Word, a6: Word, a7: Word, a8: Word)
    ensures RotateLeft1(P(Join(a1, a2, a3, a4, a5, a6, a7, a8)))
         == Join(RotateLeft1(P(a1)), RotateLeft1(P(a2)), RotateLeft1(P(a3)), RotateLeft1(P(a4)),
                 RotateLeft1(P(a5)), RotateLeft1(P(a6)), RotateLeft1(P(a7)), RotateLeft1(P(a8)))
  {
    hide P, RotateLeft1, Or;
    PermuteOr(a1, a2);
    var b2 := Or(a1, a2);
    PermuteOr(b2, a3);
    var b3 := Or(b2, a3);
    PermuteOr(b3, a4);
    var b4 := Or(b3, a4);
    PermuteOr(b4, a5);
    var b5 := Or(b4, a5);
    PermuteOr(b5, a6);
    var b6 := Or(b5, a6);
    PermuteOr(b6, a7);
    PermuteOr(Or(b6, a7), a8);
  }

  lemma FvalFromGroups(r: Word, k0: Word, k1: Word, s1: Word, s2: Word, s3: Word, s4: Word, s5: Word, s6: Word, s7: Word, s8: Word)
    requires var x := ((r << 28) | (r >> 4)) ^ k0;
      (x >> 24) & 63 == s1 && (x >> 16) & 63 == s3 && (x >> 8) & 63 == s5 && x & 63 == s7
    requires var y := r ^ k1;
      (y >> 24) & 63 == s2 && (y >> 16) & 63 == s4 && (y >> 8) & 63 == s6 && y & 63 == s8
    ensures s1 < 64 && s2 < 64 && s3 < 64 && s4 < 64 && s5 < 64 && s6 < 64 && s7 < 64 && s8 < 64
    ensures Fval(r, k0, k1) == Join(SP7(s7), SP5(s5), SP3(s3), SP1(s1), SP8(s8), SP6(s6), SP4(s4), SP2(s2))
  {
    hide SP1, SP2, SP3, SP4, SP5, SP6, SP7, SP8, Join;
  }

  lemma TablesFuse(r: Word, k: bv48)
    ensures SP1(Selected(r, k, 1)) == RotateLeft1(P(Out1(r, k)))
    ensures SP2(Selected(r, k, 2)) == RotateLeft1(P(Out2(r, k)))
    ensures SP3(Selected(r, k, 3)) == RotateLeft1(P(Out3(r, k)))
    ensures SP4(Selected(r, k, 4)) == RotateLeft1(P(Out4(r, k)))
    ensures SP5(Selected(r, k, 5)) == RotateLeft1(P(Out5(r, k)))
    ensures SP6(Selected(r, k, 6)) == RotateLeft1(P(Out6(r, k)))
    ensures SP7(Selected(r, k, 7)) == RotateLeft1(P(Out7(r, k)))
    ensures SP8(Selected(r, k, 8)) == RotateLeft1(P(Out8(r, k)))
  {
    hide SP1, SP2, SP3, SP4, SP5, SP6, SP7, SP8, S1, S2, S3, S4, S5, S6, S7, S8, P, RotateLeft1, Selected;
    Table1(Selected(r, k, 1));
    Table2(Selected(r, k, 2));
    Table3(Selected(r, k, 3));
    Table4(Selected(r, k, 4));
    Table5(Selected(r, k, 5));
    Table6(Selected(r, k, 6));
    Table7(Selected(r, k, 7));
    Table8(Selected(r, k, 8));
  }

  /** Half a round of the client, on rotated halves, is the cipher function of the standard. */
  lemma FvalIsF(r: Word, k: bv48)
    ensures Fval(RotateLeft1(r), Cooked0(k), Cooked1(k)) == RotateLeft1(F(r, k))
  {
    hide SP1, SP2, SP3, SP4, SP5, SP6, SP7, SP8, Out1, Out2, Out3, Out4, Out5, Out6, Out7, Out8;
    hide P, RotateLeft1, Cooked0, Cooked1, Fval, Selected, Join;
    Group1(r, k);
    Group2(r, k);
    Group3(r, k);
    Group4(r, k);
    Group5(r, k);
    Group6(r, k);
    Group7(r, k);
    Group8(r, k);
    FvalFromGroups(RotateLeft1(r), Cooked0(k), Cooked1(k),
      Selected(r, k, 1), Selected(r, k, 2), Selected(r, k, 3), Selected(r, k, 4),
      Selected(r, k, 5), Selected(r, k, 6), Selected(r, k, 7), Selected(r, k, 8));
    TablesFuse(r, k);
    TablesCombine(Out7(r, k), Out5(r, k), Out3(r, k), Out1(r, k), Out8(r, k), Out6(r, k), Out4(r, k), Out2(r, k));
  }

  /** The client's round function. */
  function ClientRound(): RoundFunction {
    (r: Word, k: KeyPair) => Fval(r, k.k0, k.k1)
  }

  function CookAll(ks: seq<bv48>): (r: seq<KeyPair>)
    ensures |r| == |ks|
  {
    if ks == [] then [] else [Cook(ks[0])] + CookAll(ks[1..])
  }

  function Rotated(b: Block): Block {
    Block(RotateLeft1(b.l), RotateLeft1(b.r))
  }

  lemma RotateMix(a: Word, b: Word)
    ensures RotateLeft1(Mix(a, b)) == Mix(RotateLeft1(a), RotateLeft1(b))
  {
  }

  lemma StepMatches(b: Block, k: bv48)
    ensures FeistelStep(ClientRound(), Rotated(b), Cook(k)) == Rotated(Round(b, k))
  {
    hide RotateLeft1, Mix, Fval, F, Cooked0, Cooked1;
    FvalIsF(b.r, k);
    RotateMix(b.l, F(b.r, k));
  }

  lemma {:induction false} RoundsMatch(b: Block, ks: seq<bv48>)
    ensures Feistel(ClientRound(), Rotated(b), CookAll(ks)) == Rotated(Rounds(b, ks))
    decreases |ks|
  {
    hide Rotated, FeistelStep, Round, Cook, ClientRound;
    if ks != [] {
      StepMatches(b, ks[0]);
      assert CookAll(ks)[0] == Cook(ks[0]) && CookAll(ks)[1..] == CookAll(ks[1..]);
      RoundsMatch(Round(b, ks[0]), ks[1..]);
    }
  }

  /** The client computes the standard's cipher, for every block and every list of round keys. */
  lemma CipherIsStandard(b: Block, ks: seq<bv48>)
    ensures Cipher(ClientRound(), b, CookAll(ks)) == Encipher(b, ks)
  {
    hide Open, Close, Feistel, Rounds, RotateLeft1, InitialLeft, InitialRight, FinalLeft, FinalRight, ClientRound;
    var start := Block(InitialLeft(b.l, b.r), InitialRight(b.l, b.r));
    OpenIsInitial(b);
    RoundsMatch(start, ks);
    var pre := Rounds(start, ks);
    CloseIsFinal(pre.l, pre.r);
  }

  // ---- bytes

  function Squash4(b0: bv8, b1: bv8, b2: bv8, b3: bv8): Word {
    (b0 as bv32 << 24) | (b1 as bv32 << 16) | (b2 as bv32 << 8) | b3 as bv32
  }

  function Byte0(x: Word): bv8 { (x >> 24) as bv8 }

  function Byte1(x: Word): bv8 { ((x >> 16) & 255) as bv8 }

  function Byte2(x: Word): bv8 { ((x >> 8) & 255) as bv8 }

  function Byte3(x: Word): bv8 { (x & 255) as bv8 }

  function Squash(t: seq<bv8>): Block
    requires |t| == 8
  {
    Block(Squash4(t[0], t[1], t[2], t[3]), Squash4(t[4], t[5], t[6], t[7]))
  }

  function Spread(b: Block): (t: seq<bv8>)
    ensures |t| == 8
  {
    [Byte0(b.l), Byte1(b.l), Byte2(b.l), Byte3(b.l), Byte0(b.r), Byte1(b.r), Byte2(b.r), Byte3(b.r)]
  }

  lemma SquashBytes(b0: bv8, b1: bv8, b2: bv8, b3: bv8)
    ensures Byte0(Squash4(b0, b1, b2, b3)) == b0 && Byte1(Squash4(b0, b1, b2, b3)) == b1
    ensures Byte2(Squash4(b0, b1, b2, b3)) == b2 && Byte3(Squash4(b0, b1, b2, b3)) == b3
  {
  }

  lemma SpreadWord(x: Word)
    ensures Squash4(Byte0(x), Byte1(x), Byte2(x), Byte3(x)) == x
  {
  }

  function Pairs(keys: seq<Word>): (ks: seq<KeyPair>)
    requires |keys| % 2 == 0
    ensures |ks| == |keys| / 2
    ensures forall i :: 0 <= i < |ks| ==> ks[i] == KeyPair(keys[2 * i], keys[2 * i + 1])
  {
    seq(|keys| / 2, i requires 0 <= i < |keys| / 2 => KeyPair(keys[2 * i], keys[2 * i + 1]))
  }

  /** Eight bytes enciphered under a list of key pairs. */
  function Enciphered(text: seq<bv8>, ks: seq<KeyPair>): (t: seq<bv8>)
    requires |text| == 8
    ensures |t| == 8
  {
    Spread(Cipher(ClientRound(), Squash(text), ks))
  }

  /** `enc8` run on its own output with the key pairs reversed gives the input back. */
  lemma Enc8Undone(text: seq<bv8>, ks: seq<KeyPair>)
    requires |text| == 8
    ensures Enciphered(Enciphered(text, ks), Reversed(ks)) == text
  {
    hide Cipher, ClientRound, Squash4, Byte0, Byte1, Byte2, Byte3, Reversed;
    var b := Squash(text);
    var c := Cipher(ClientRound(), b, ks);
    SpreadWord(c.l);
    SpreadWord(c.r);
    CipherUndone(ClientRound(), b, ks);
    SquashBytes(text[0], text[1], text[2], text[3]);
    SquashBytes(text[4], text[5], text[6], text[7]);
  }

  lemma {:induction false} CookAllAt(ks: seq<bv48>, i: nat)
    requires i < |ks|
    ensures CookAll(ks)[i] == Cook(ks[i])
    decreases |ks|
  {
    if i > 0 {
      CookAllAt(ks[1..], i - 1);
    }
  }

  /** The constructor's keys, taken in pairs, are the standard's round keys. */
  lemma PairsAreCooked(keys: seq<Word>, ks: seq<bv48>)
    requires |keys| == 32 && |ks| == 16
    requires forall i :: 0 <= i < 16 ==> keys[2 * i] == Cooked0(ks[i]) && keys[2 * i + 1] == Cooked1(ks[i])
    ensures Pairs(keys) == CookAll(ks)
  {
    hide Cooked0, Cooked1;
    forall i | 0 <= i < 16
      ensures Pairs(keys)[i] == CookAll(ks)[i]
    {
      CookAllAt(ks, i);
    }
  }

  /** One block of eight bytes enciphered as the standard says, under VNC's reading of a password. */
  function Des(password: seq<bv16>, text: seq<bv8>): (t: seq<bv8>)
    requires |text| == 8
    ensures |t| == 8
  {
    Spread(Encipher(Squash(text), KeySchedule(VncKey(password))))
  }

  class DES {
    const keys: seq<Word>

    constructor (password: seq<bv16>)
      ensures |keys| == 32 && Pairs(keys) == CookAll(KeySchedule(VncKey(password)))
    {
      hide Cooked0, Cooked1, KeySchedule, VncKey;
      var ks := Schedule(password);
      PairsAreCooked(ks, KeySchedule(VncKey(password)));
      this.keys := ks;
    }

    method Enc8(text: seq<bv8>) returns (b: seq<bv8>)
      requires |text| == 8 && |keys| == 32
      ensures b == Enciphered(text, Pairs(keys))
    {
      hide SwapHigh, SwapLow, OddFrom, RotateLeft1, RotateRight1, Squash4, Byte0, Byte1, Byte2, Byte3, Mix, Feistel;
      var l := Squash4(text[0], text[1], text[2], text[3]);
      var r := Squash4(text[4], text[5], text[6], text[7]);
      l, r := SwapHigh(l, r, 4, 0x0f0f0f0f), SwapLow(l, r, 4, 0x0f0f0f0f);
      l, r := SwapHigh(l, r, 16, 0x0000ffff), SwapLow(l, r, 16, 0x0000ffff);
      r, l := SwapHigh(r, l, 2, 0x33333333), SwapLow(r, l, 2, 0x33333333);
      r, l := SwapHigh(r, l, 8, 0x00ff00ff), SwapLow(r, l, 8, 0x00ff00ff);
      r := RotateLeft1(r);
      l, r := OddFrom(l, r), OddFrom(r, l);
      l := RotateLeft1(l);
      assert Block(l, r) == Open(Squash(text));
      l, r := AllRounds(l, r);
      ghost var done := Block(l, r);
      r := RotateRight1(r);
      l, r := OddFrom(l, r), OddFrom(r, l);
      l := RotateRight1(l);
      l, r := SwapHigh(l, r, 8, 0x00ff00ff), SwapLow(l, r, 8, 0x00ff00ff);
      l, r := SwapHigh(l, r, 2, 0x33333333), SwapLow(l, r, 2, 0x33333333);
      r, l := SwapHigh(r, l, 16, 0x0000ffff), SwapLow(r, l, 16, 0x0000ffff);
      r, l := SwapHigh(r, l, 4, 0x0f0f0f0f), SwapLow(r, l, 4, 0x0f0f0f0f);
      assert Block(r, l) == Close(done);
      b := Spread(Block(r, l));
    }

    /** Eight passes of two half rounds, each taking the next two subkeys. */
    method AllRounds(l0: Word, r0: Word) returns (l: Word, r: Word)
      requires |keys| == 32
      ensures Block(l, r) == Feistel(ClientRound(), Block(l0, r0), Pairs(keys))
    {
      hide Fval, Mix;
      l, r := l0, r0;
      var i, keysi := 0, 0;
      ghost var ks := Pairs(keys);
      ghost var f := ClientRound();
      while i < 8
        invariant 0 <= i <= 8 && keysi == 4 * i
        invariant Feistel(f, Block(l0, r0), ks) == Feistel(f, Block(l, r), ks[2 * i..])
      {
        ghost var left := ks[2 * i..];
        assert left[0] == KeyPair(keys[keysi], keys[keysi + 1]);
        assert left[1..][0] == KeyPair(keys[keysi + 2], keys[keysi + 3]);
        assert left[1..][1..] == ks[2 * i + 2..];
        l := Mix(l, Fval(r, keys[keysi], keys[keysi + 1]));
        r := Mix(r, Fval(l, keys[keysi + 2], keys[keysi + 3]));
        keysi := keysi + 4;
        i := i + 1;
      }
    }

    /** Sixteen bytes as two blocks. */
    method Encrypt(t: seq<bv8>) returns (c: seq<bv8>)
      requires |t| == 16 && |keys| == 32
      ensures c == Enciphered(t[..8], Pairs(keys)) + Enciphered(t[8..], Pairs(keys))
    {
      var first := Enc8(t[..8]);
      var second := Enc8(t[8..16]);
      assert t[8..16] == t[8..];
      c := first + second;
    }
  }

  /** The response to a challenge: both blocks under the standard's cipher, keyed by the password. */
  method GenDes(password: seq<bv16>, challenge: seq<bv8>) returns (response: seq<bv8>)
    requires |challenge| == 16
    ensures response == Des(password, challenge[..8]) + Des(password, challenge[8..])
  {
    hide KeySchedule, VncKey, Encipher, Cipher, ClientRound, Squash, Spread, CookAll;
    var des := new DES(password);
    response := des.Encrypt(challenge);
    CipherIsStandard(Squash(challenge[..8]), KeySchedule(VncKey(password)));
    CipherIsStandard(Squash(challenge[8..]), KeySchedule(VncKey(password)));
  }
}
