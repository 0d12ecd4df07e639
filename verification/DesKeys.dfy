/**
 The client's key schedule: the round keys of a password, in the order its rounds take them.
 */
module DesKeys {
  import opened DesStandard

  /** The six-bit groups of a round key, as the two words a half round uses. */
  function Cooked0(k: bv48): Word {
    (KeyGroup(k, 1) << 24) | (KeyGroup(k, 3) << 16) | (KeyGroup(k, 5) << 8) | KeyGroup(k, 7)
  }

  function Cooked1(k: bv48): Word {
    (KeyGroup(k, 2) << 24) | (KeyGroup(k, 4) << 16) | (KeyGroup(k, 6) << 8) | KeyGroup(k, 8)
  }

  // ---- a password as a key

  /** Bit `m` of a character, from the low end; a character that is not there is 0. */
  function PasswordBit(password: seq<bv16>, index: nat, m: nat): bool
    requires m < 8
  {
    index < |password| && password[index] & (1 << m) != 0
  }

  /** VNC takes each byte of the key with its bits in reverse order. */
  function VncKey(password: seq<bv16>): (key: seq<bool>)
    ensures IsKey(key)
  {
    seq(64, n requires 0 <= n < 64 => PasswordBit(password, n / 8, n % 8))
  }

  /** The eight low bits of a character, and what is above them. */
  function Char(b0: bool, b1: bool, b2: bool, b3: bool, b4: bool, b5: bool, b6: bool, b7: bool, high: bv16): bv16 {
    (if b0 then 1 else 0) | (if b1 then 2 else 0) | (if b2 then 4 else 0) | (if b3 then 8 else 0)
    | (if b4 then 16 else 0) | (if b5 then 32 else 0) | (if b6 then 64 else 0) | (if b7 then 128 else 0) | (high << 8)
  }

  /** A character's lowest bit is the first of its eight key bits; what is above its eighth bit is not used. */
  lemma MirroredKey(b0: bool, b1: bool, b2: bool, b3: bool, b4: bool, b5: bool, b6: bool, b7: bool, high: bv16)
    ensures VncKey([Char(b0, b1, b2, b3, b4, b5, b6, b7, high)])
         == [b0, b1, b2, b3, b4, b5, b6, b7] + seq(56, _ => false)
  {
    var c := Char(b0, b1, b2, b3, b4, b5, b6, b7, high);
    LowBits(b0, b1, b2, b3, b4, b5, b6, b7, high);
    hide Char;
    BitsOfOne(c);
    var key, want := VncKey([c]), [b0, b1, b2, b3, b4, b5, b6, b7] + seq(56, _ => false);
    assert forall n :: 8 <= n < 64 ==> !PasswordBit([c], n / 8, n % 8);
    assert forall n :: 0 <= n < 8 ==> n / 8 == 0 && n % 8 == n;
    hide PasswordBit;
    assert key[0] == b0 && key[1] == b1 && key[2] == b2 && key[3] == b3;
    assert key[4] == b4 && key[5] == b5 && key[6] == b6 && key[7] == b7;
    assert key == want;
  }

  lemma LowBits(b0: bool, b1: bool, b2: bool, b3: bool, b4: bool, b5: bool, b6: bool, b7: bool, high: bv16)
    ensures var c := Char(b0, b1, b2, b3, b4, b5, b6, b7, high);
      && (c & 1 != 0) == b0 && (c & 2 != 0) == b1 && (c & 4 != 0) == b2 && (c & 8 != 0) == b3
      && (c & 16 != 0) == b4 && (c & 32 != 0) == b5 && (c & 64 != 0) == b6 && (c & 128 != 0) == b7
  {
  }

  lemma BitsOfOne(c: bv16)
    ensures PasswordBit([c], 0, 0) == (c & 1 != 0) && PasswordBit([c], 0, 1) == (c & 2 != 0)
    ensures PasswordBit([c], 0, 2) == (c & 4 != 0) && PasswordBit([c], 0, 3) == (c & 8 != 0)
    ensures PasswordBit([c], 0, 4) == (c & 16 != 0) && PasswordBit([c], 0, 5) == (c & 32 != 0)
    ensures PasswordBit([c], 0, 6) == (c & 64 != 0) && PasswordBit([c], 0, 7) == (c & 128 != 0)
  {
  }

  // ---- permuted choice 1

  function Adjustment(l: int): int {
    if l < -5 then 65 else if l < -3 then 31 else if l < -1 then 63 else if l == 27 then 35 else 0
  }

  /** The running index of the loop goes through the table of permuted choice 1. */
  lemma RunningIndex(j: nat)
    requires j < 56
    ensures var l := if j == 0 then 56 else PC1(j - 1) - 9;
      l + Adjustment(l) == PC1(j) - 1
  {
  }

  method ChooseBits(password: seq<bv16>) returns (pc1m: seq<bool>)
    ensures pc1m == Choice1(VncKey(password))
  {
    hide PC1, PasswordBit;
    pc1m := [];
    var j, l := 0, 56;
    while j < 56
      invariant 0 <= j <= 56 && |pc1m| == j
      invariant l == if j == 0 then 56 else PC1(j - 1) - 9
      invariant forall k :: 0 <= k < j ==> pc1m[k] == VncKey(password)[PC1(k) - 1]
    {
      RunningIndex(j);
      l := l + Adjustment(l);
      pc1m := pc1m + [PasswordBit(password, l / 8, l % 8)];
      l := l - 8;
      j := j + 1;
    }
  }

  // ---- the rotations

  /** How far the halves have been rotated for each round. */
  function TotalRotation(i: nat): (n: nat)
    requires i < 16
    ensures 1 <= n <= 28
  {
    match i
    case 0 => 1 case 1 => 2 case 2 => 4 case 3 => 6
    case 4 => 8 case 5 => 10 case 6 => 12 case 7 => 14
    case 8 => 15 case 9 => 17 case 10 => 19 case 11 => 21
    case 12 => 23 case 13 => 25 case 14 => 27 case _ => 28
  }

  lemma ShiftTwice(half: seq<bool>, a: nat, b: nat)
    requires |half| == 28 && a + b <= 28
    ensures ShiftLeft(ShiftLeft(half, a), b) == ShiftLeft(half, a + b)
  {
  }

  lemma TotalGrows(i: nat)
    requires 0 < i < 16
    ensures TotalRotation(i) == TotalRotation(i - 1) + Shifts(i + 1)
  {
  }

  /** The table of totals against the shifts one after another. */
  lemma {:induction false} TotalIsShifted(half: seq<bool>, i: nat)
    requires |half| == 28 && i < 16
    ensures Shifted(half, i + 1) == ShiftLeft(half, TotalRotation(i))
  {
    if i == 0 {
      assert Shifted(half, 0) == half;
    } else {
      TotalIsShifted(half, i - 1);
      TotalGrows(i);
      ShiftTwice(half, TotalRotation(i - 1), Shifts(i + 1));
      hide TotalRotation, Shifts, ShiftLeft;
    }
  }

  method Rotate(pc1m: seq<bool>, i: nat) returns (pcr: seq<bool>)
    requires |pc1m| == 56 && i < 16
    ensures pcr == Shifted(pc1m[..28], i + 1) + Shifted(pc1m[28..], i + 1)
  {
    var n := TotalRotation(i);
    pcr := [];
    var o := 28;
    while o < 59
      invariant o == 28 || o == 56 || o == 84
      invariant |pcr| == o - 28
      invariant o >= 56 ==> pcr[..28] == ShiftLeft(pc1m[..28], n)
      invariant o == 84 ==> pcr[28..] == ShiftLeft(pc1m[28..], n)
      decreases 84 - o
    {
      ghost var before := pcr;
      var j := o - 28;
      while j < o
        invariant o - 28 <= j <= o && |pcr| == j && pcr[..o - 28] == before
        invariant forall k :: o - 28 <= k < j ==> pcr[k] == ShiftLeft(pc1m[o - 28..o], n)[k - (o - 28)]
      {
        var l := j + n;
        pcr := pcr + [if l < o then pc1m[l] else pc1m[l - 28]];
        j := j + 1;
      }
      assert pcr[o - 28..] == ShiftLeft(pc1m[o - 28..o], n);
      assert pc1m[28..56] == pc1m[28..] && pc1m[0..28] == pc1m[..28];
      assert o == 56 ==> pcr[..28] == before[..28];
      assert o == 28 ==> pcr[..28] == pcr[0..];
      hide ShiftLeft;
      o := o + 28;
    }
    TotalIsShifted(pc1m[..28], i);
    TotalIsShifted(pc1m[28..], i);
  }

  // ---- permuted choice 2

  function Choice(j: nat): (n: nat)
    requires j < 48
    ensures n < 56
  {
    match j
    case 0 => 13 case 1 => 16 case 2 => 10 case 3 => 23
    case 4 => 0 case 5 => 4 case 6 => 2 case 7 => 27
    case 8 => 14 case 9 => 5 case 10 => 20 case 11 => 9
    case 12 => 22 case 13 => 18 case 14 => 11 case 15 => 3
    case 16 => 25 case 17 => 7 case 18 => 15 case 19 => 6
    case 20 => 26 case 21 => 19 case 22 => 12 case 23 => 1
    case 24 => 40 case 25 => 51 case 26 => 30 case 27 => 36
    case 28 => 46 case 29 => 54 case 30 => 29 case 31 => 39
    case 32 => 50 case 33 => 44 case 34 => 32 case 35 => 47
    case 36 => 43 case 37 => 48 case 38 => 38 case 39 => 55
    case 40 => 33 case 41 => 52 case 42 => 45 case 43 => 41
    case 44 => 49 case 45 => 35 case 46 => 28 case _ => 31
  }

  lemma ChoiceIsPC2(j: nat)
    requires j < 48
    ensures Choice(j) == PC2(j) - 1
  {
  }

  /** The two words of 24 bits that make up a round key. */
  method Choose(pcr: seq<bool>) returns (raw0: Word, raw1: Word)
    requires |pcr| == 56
    ensures raw0 == Bits24(Choice2(pcr)[..24]) && raw1 == Bits24(Choice2(pcr)[24..])
  {
    hide Choice, PC2, Or, BitAt;
    ghost var bits := Choice2(pcr);
    raw0, raw1 := 0, 0;
    var j := 0;
    while j < 24
      invariant 0 <= j <= 24
      invariant raw0 == Bits24(bits[..24][..j]) && raw1 == Bits24(bits[24..][..j])
    {
      ChoiceIsPC2(j);
      ChoiceIsPC2(j + 24);
      NextBit(bits[..24], j);
      NextBit(bits[24..], j);
      hide Bits24;
      if pcr[Choice(j)] {
        raw0 := Or(raw0, BitAt(j));
      }
      if pcr[Choice(j + 24)] {
        raw1 := Or(raw1, BitAt(j));
      }
      j := j + 1;
    }
    assert bits[..24][..24] == bits[..24] && bits[24..][..24] == bits[24..];
  }

  lemma NextBit(bits: seq<bool>, j: nat)
    requires |bits| == 24 && j < 24
    ensures Bits24(bits[..j + 1]) == if bits[j] then Or(Bits24(bits[..j]), BitAt(j)) else Bits24(bits[..j])
  {
    hide Or, BitAt;
    assert bits[..j + 1][..j] == bits[..j];
    OrZero(Bits24(bits[..j]));
  }

  lemma OrZero(x: Word)
    ensures Or(x, 0) == x
  {
  }

  // ---- the order the rounds take them in

  function Cookey0(raw0: Word, raw1: Word): Word {
    ((raw0 & 0x00fc0000) << 6) | ((raw0 & 0x00000fc0) << 10) |
    ((raw1 & 0x00fc0000) >> 10) | ((raw1 & 0x00000fc0) >> 6)
  }

  function Cookey1(raw0: Word, raw1: Word): Word {
    ((raw0 & 0x0003f000) << 12) | ((raw0 & 0x0000003f) << 16) |
    ((raw1 & 0x0003f000) >> 4) | (raw1 & 0x0000003f)
  }

  lemma Cookey0IsCooked(raw0: Word, raw1: Word)
    ensures Cookey0(raw0, raw1) == Cooked0(Halves(raw0, raw1))
  {
  }

  lemma Cookey1IsCooked(raw0: Word, raw1: Word)
    ensures Cookey1(raw0, raw1) == Cooked1(Halves(raw0, raw1))
  {
  }

  /** The constructor: the raw round keys first, then each pair rearranged. */
  method Schedule(password: seq<bv16>) returns (keys: seq<Word>)
    ensures |keys| == 32
    ensures var ks := KeySchedule(VncKey(password));
      forall i :: 0 <= i < 16 ==> keys[2 * i] == Cooked0(ks[i]) && keys[2 * i + 1] == Cooked1(ks[i])
  {
    hide Cooked0, Cooked1, Cookey0, Cookey1, Bits24, Shifted, Choice1, Choice2, Halves;
    var pc1m := ChooseBits(password);
    ghost var ks := KeySchedule(VncKey(password));
    var kn: seq<Word> := [];
    for i := 0 to 16
      invariant |kn| == 2 * i
      invariant forall k :: 0 <= k < i ==> ks[k] == Halves(kn[2 * k], kn[2 * k + 1])
    {
      var pcr := Rotate(pc1m, i);
      var raw0, raw1 := Choose(pcr);
      assert ks[i] == RoundKey(VncKey(password), i + 1);
      kn := kn + [raw0, raw1];
    }
    keys := [];
    for i := 0 to 16
      invariant |keys| == 2 * i
      invariant forall k :: 0 <= k < i ==> keys[2 * k] == Cooked0(ks[k]) && keys[2 * k + 1] == Cooked1(ks[k])
    {
      Cookey0IsCooked(kn[2 * i], kn[2 * i + 1]);
      Cookey1IsCooked(kn[2 * i], kn[2 * i + 1]);
      keys := keys + [Cookey0(kn[2 * i], kn[2 * i + 1]), Cookey1(kn[2 * i], kn[2 * i + 1])];
    }
  }
}
