/**
 The standard's own form of the cipher (FIPS PUB 46-3): permutations as lists of bit positions,
 eight S-boxes, and sixteen rounds.
 */
module DesStandard {

  type Word = bv32

  datatype Block = Block(l: Word, r: Word)

  /** Bit number `from` of a word, counted from the low end, moved to position `to`. */
  function Move(x: Word, from: bv32, to: bv32): Word
    requires from < 32 && to < 32
  {
    ((x >> from) & 1) << to
  }

  /** Initial permutation, left half: bits 58, 50, 42, ... of the block. */
  function InitialLeft(l: Word, r: Word): Word {
    Move(r, 6, 31) | Move(r, 14, 30) | Move(r, 22, 29) | Move(r, 30, 28) |
    Move(l, 6, 27) | Move(l, 14, 26) | Move(l, 22, 25) | Move(l, 30, 24) |
    Move(r, 4, 23) | Move(r, 12, 22) | Move(r, 20, 21) | Move(r, 28, 20) |
    Move(l, 4, 19) | Move(l, 12, 18) | Move(l, 20, 17) | Move(l, 28, 16) |
    Move(r, 2, 15) | Move(r, 10, 14) | Move(r, 18, 13) | Move(r, 26, 12) |
    Move(l, 2, 11) | Move(l, 10, 10) | Move(l, 18, 9) | Move(l, 26, 8) |
    Move(r, 0, 7) | Move(r, 8, 6) | Move(r, 16, 5) | Move(r, 24, 4) |
    Move(l, 0, 3) | Move(l, 8, 2) | Move(l, 16, 1) | Move(l, 24, 0)
  }

  function InitialRight(l: Word, r: Word): Word {
    Move(r, 7, 31) | Move(r, 15, 30) | Move(r, 23, 29) | Move(r, 31, 28) |
    Move(l, 7, 27) | Move(l, 15, 26) | Move(l, 23, 25) | Move(l, 31, 24) |
    Move(r, 5, 23) | Move(r, 13, 22) | Move(r, 21, 21) | Move(r, 29, 20) |
    Move(l, 5, 19) | Move(l, 13, 18) | Move(l, 21, 17) | Move(l, 29, 16) |
    Move(r, 3, 15) | Move(r, 11, 14) | Move(r, 19, 13) | Move(r, 27, 12) |
    Move(l, 3, 11) | Move(l, 11, 10) | Move(l, 19, 9) | Move(l, 27, 8) |
    Move(r, 1, 7) | Move(r, 9, 6) | Move(r, 17, 5) | Move(r, 25, 4) |
    Move(l, 1, 3) | Move(l, 9, 2) | Move(l, 17, 1) | Move(l, 25, 0)
  }

  /** Inverse initial permutation: bits 40, 8, 48, ... of the preoutput block. */
  function FinalLeft(l: Word, r: Word): Word {
    Move(r, 24, 31) | Move(l, 24, 30) | Move(r, 16, 29) | Move(l, 16, 28) |
    Move(r, 8, 27) | Move(l, 8, 26) | Move(r, 0, 25) | Move(l, 0, 24) |
    Move(r, 25, 23) | Move(l, 25, 22) | Move(r, 17, 21) | Move(l, 17, 20) |
    Move(r, 9, 19) | Move(l, 9, 18) | Move(r, 1, 17) | Move(l, 1, 16) |
    Move(r, 26, 15) | Move(l, 26, 14) | Move(r, 18, 13) | Move(l, 18, 12) |
    Move(r, 10, 11) | Move(l, 10, 10) | Move(r, 2, 9) | Move(l, 2, 8) |
    Move(r, 27, 7) | Move(l, 27, 6) | Move(r, 19, 5) | Move(l, 19, 4) |
    Move(r, 11, 3) | Move(l, 11, 2) | Move(r, 3, 1) | Move(l, 3, 0)
  }

  function FinalRight(l: Word, r: Word): Word {
    Move(r, 28, 31) | Move(l, 28, 30) | Move(r, 20, 29) | Move(l, 20, 28) |
    Move(r, 12, 27) | Move(l, 12, 26) | Move(r, 4, 25) | Move(l, 4, 24) |
    Move(r, 29, 23) | Move(l, 29, 22) | Move(r, 21, 21) | Move(l, 21, 20) |
    Move(r, 13, 19) | Move(l, 13, 18) | Move(r, 5, 17) | Move(l, 5, 16) |
    Move(r, 30, 15) | Move(l, 30, 14) | Move(r, 22, 13) | Move(l, 22, 12) |
    Move(r, 14, 11) | Move(l, 14, 10) | Move(r, 6, 9) | Move(l, 6, 8) |
    Move(r, 31, 7) | Move(l, 31, 6) | Move(r, 23, 5) | Move(l, 23, 4) |
    Move(r, 15, 3) | Move(l, 15, 2) | Move(r, 7, 1) | Move(l, 7, 0)
  }

  /** Permutation P of the cipher function: bits 16, 7, 20, ... */
  function P(x: Word): Word {
    Move(x, 16, 31) | Move(x, 25, 30) | Move(x, 12, 29) | Move(x, 11, 28) |
    Move(x, 3, 27) | Move(x, 20, 26) | Move(x, 4, 25) | Move(x, 15, 24) |
    Move(x, 31, 23) | Move(x, 17, 22) | Move(x, 9, 21) | Move(x, 6, 20) |
    Move(x, 27, 19) | Move(x, 14, 18) | Move(x, 1, 17) | Move(x, 22, 16) |
    Move(x, 30, 15) | Move(x, 24, 14) | Move(x, 8, 13) | Move(x, 18, 12) |
    Move(x, 0, 11) | Move(x, 5, 10) | Move(x, 29, 9) | Move(x, 23, 8) |
    Move(x, 13, 7) | Move(x, 19, 6) | Move(x, 2, 5) | Move(x, 26, 4) |
    Move(x, 10, 3) | Move(x, 21, 2) | Move(x, 28, 1) | Move(x, 7, 0)
  }

  /** Four bits out of a row of sixteen. */
  function Nibble(row: bv64, column: bv32): Word
    requires column < 16
  {
    ((row >> (60 - 4 * (column as bv64))) & 15) as bv32
  }

  /** An S-box: the outer bits of six choose the row, the inner four the column. */
  function SBox(row0: bv64, row1: bv64, row2: bv64, row3: bv64, x: Word): Word
    requires x < 64
  {
    var column := (x >> 1) & 15;
    if x & 33 == 0 then Nibble(row0, column)
    else if x & 33 == 1 then Nibble(row1, column)
    else if x & 33 == 32 then Nibble(row2, column)
    else Nibble(row3, column)
  }

  function S1(x: Word): Word
    requires x < 64
  {
    SBox(0xE4D12FB83A6C5907, 0x0F74E2D1A6CB9538,
         0x41E8D62BFC973A50, 0xFC8249175B3EA06D, x)
  }

  function S2(x: Word): Word
    requires x < 64
  {
    SBox(0xF18E6B34972DC05A, 0x3D47F28EC01A69B5,
         0x0E7BA4D158C6932F, 0xD8A13F42B67C05E9, x)
  }

  function S3(x: Word): Word
    requires x < 64
  {
    SBox(0xA09E63F51DC7B428, 0xD709346A285ECBF1,
         0xD6498F30B12C5AE7, 0x1AD069874FE3B52C, x)
  }

  function S4(x: Word): Word
    requires x < 64
  {
    SBox(0x7DE3069A1285BC4F, 0xD8B56F03472C1AE9,
         0xA690CB7DF13E5284, 0x3F06A1D8945BC72E, x)
  }

  function S5(x: Word): Word
    requires x < 64
  {
    SBox(0x2C417AB6853FD0E9, 0xEB2C47D150FA3986,
         0x421BAD78F9C5630E, 0xB8C71E2D6F09A453, x)
  }

  function S6(x: Word): Word
    requires x < 64
  {
    SBox(0xC1AF92680D34E75B, 0xAF427C9561DE0B38,
         0x9EF528C3704A1DB6, 0x432C95FABE17608D, x)
  }

  function S7(x: Word): Word
    requires x < 64
  {
    SBox(0x4B2EF08D3C975A61, 0xD0B7491AE35C2F86,
         0x14BDC37EAF680592, 0x6BD814A7950FE23C, x)
  }

  function S8(x: Word): Word
    requires x < 64
  {
    SBox(0xD2846FB1A93E50C7, 0x1FD8A374C56B0E92,
         0x7B419CE206ADF358, 0x21E74A8DFC90356B, x)
  }

  /** Group `i` of the bit-selection table E: bits 4i-4 to 4i+1 of R, in a circle. */
  function E(r: Word, i: nat): Word
    requires 1 <= i <= 8
  {
    if i == 1 then Move(r, 0, 5) | Move(r, 31, 4) | Move(r, 30, 3) | Move(r, 29, 2) | Move(r, 28, 1) | Move(r, 27, 0)
    else if i == 2 then Move(r, 28, 5) | Move(r, 27, 4) | Move(r, 26, 3) | Move(r, 25, 2) | Move(r, 24, 1) | Move(r, 23, 0)
    else if i == 3 then Move(r, 24, 5) | Move(r, 23, 4) | Move(r, 22, 3) | Move(r, 21, 2) | Move(r, 20, 1) | Move(r, 19, 0)
    else if i == 4 then Move(r, 20, 5) | Move(r, 19, 4) | Move(r, 18, 3) | Move(r, 17, 2) | Move(r, 16, 1) | Move(r, 15, 0)
    else if i == 5 then Move(r, 16, 5) | Move(r, 15, 4) | Move(r, 14, 3) | Move(r, 13, 2) | Move(r, 12, 1) | Move(r, 11, 0)
    else if i == 6 then Move(r, 12, 5) | Move(r, 11, 4) | Move(r, 10, 3) | Move(r, 9, 2) | Move(r, 8, 1) | Move(r, 7, 0)
    else if i == 7 then Move(r, 8, 5) | Move(r, 7, 4) | Move(r, 6, 3) | Move(r, 5, 2) | Move(r, 4, 1) | Move(r, 3, 0)
    else Move(r, 4, 5) | Move(r, 3, 4) | Move(r, 2, 3) | Move(r, 1, 2) | Move(r, 0, 1) | Move(r, 31, 0)
  }

  /** Six bits of a 48-bit round key. */
  function KeyGroup(k: bv48, i: nat): Word
    requires 1 <= i <= 8
  {
    if i == 1 then ((k >> 42) & 63) as bv32
    else if i == 2 then ((k >> 36) & 63) as bv32
    else if i == 3 then ((k >> 30) & 63) as bv32
    else if i == 4 then ((k >> 24) & 63) as bv32
    else if i == 5 then ((k >> 18) & 63) as bv32
    else if i == 6 then ((k >> 12) & 63) as bv32
    else if i == 7 then ((k >> 6) & 63) as bv32
    else ((k >> 0) & 63) as bv32
  }

  /** The input of S-box `i`. */
  function Selected(r: Word, k: bv48, i: nat): (x: Word)
    requires 1 <= i <= 8
    ensures x < 64
  {
    (E(r, i) ^ KeyGroup(k, i)) & 63
  }

  /** Eight words whose set bits do not meet, put together. */
  function Join(a1: Word, a2: Word, a3: Word, a4: Word, a5: Word, a6: Word, a7: Word, a8: Word): Word {
    Or(Or(Or(Or(Or(Or(Or(a1, a2), a3), a4), a5), a6), a7), a8)
  }

  function Or(a: Word, b: Word): Word {
    a | b
  }

  // The four output bits of each S-box, in their place among the 32.

  function Out1(r: Word, k: bv48): Word {
    S1(Selected(r, k, 1)) << 28
  }

  function Out2(r: Word, k: bv48): Word {
    S2(Selected(r, k, 2)) << 24
  }

  function Out3(r: Word, k: bv48): Word {
    S3(Selected(r, k, 3)) << 20
  }

  function Out4(r: Word, k: bv48): Word {
    S4(Selected(r, k, 4)) << 16
  }

  function Out5(r: Word, k: bv48): Word {
    S5(Selected(r, k, 5)) << 12
  }

  function Out6(r: Word, k: bv48): Word {
    S6(Selected(r, k, 6)) << 8
  }

  function Out7(r: Word, k: bv48): Word {
    S7(Selected(r, k, 7)) << 4
  }

  function Out8(r: Word, k: bv48): Word {
    S8(Selected(r, k, 8))
  }

  /** The cipher function f(R, K); the order in which the S-boxes' outputs are put together is immaterial. */
  function F(r: Word, k: bv48): Word {
    P(Join(Out7(r, k), Out5(r, k), Out3(r, k), Out1(r, k), Out8(r, k), Out6(r, k), Out4(r, k), Out2(r, k)))
  }

  /** L' = R and R' = L + f(R, K), once for each round key. */
  function Rounds(b: Block, keys: seq<bv48>): Block
    decreases |keys|
  {
    if keys == [] then b else Rounds(Round(b, keys[0]), keys[1..])
  }

  function Round(b: Block, k: bv48): Block {
    Block(b.r, Mix(b.l, F(b.r, k)))
  }

  function Mix(x: Word, y: Word): Word {
    x ^ y
  }

  /** The enciphering computation, with the halves exchanged before the last permutation. */
  function Encipher(b: Block, keys: seq<bv48>): Block {
    var pre := Rounds(Block(InitialLeft(b.l, b.r), InitialRight(b.l, b.r)), keys);
    Block(FinalLeft(pre.r, pre.l), FinalRight(pre.r, pre.l))
  }

  // ---- the key schedule

  /** A key: 64 bits, of which the schedule uses 56. */
  predicate IsKey(key: seq<bool>) {
    |key| == 64
  }

  /** Permuted choice 1: the number, counted from 1, of the bit that becomes bit `j`, counted from 0. */
  function PC1(j: nat): (n: nat)
    requires j < 56
    ensures 1 <= n <= 64
  {
    match j
    case 0 => 57 case 1 => 49 case 2 => 41 case 3 => 33
    case 4 => 25 case 5 => 17 case 6 => 9 case 7 => 1
    case 8 => 58 case 9 => 50 case 10 => 42 case 11 => 34
    case 12 => 26 case 13 => 18 case 14 => 10 case 15 => 2
    case 16 => 59 case 17 => 51 case 18 => 43 case 19 => 35
    case 20 => 27 case 21 => 19 case 22 => 11 case 23 => 3
    case 24 => 60 case 25 => 52 case 26 => 44 case 27 => 36
    case 28 => 63 case 29 => 55 case 30 => 47 case 31 => 39
    case 32 => 31 case 33 => 23 case 34 => 15 case 35 => 7
    case 36 => 62 case 37 => 54 case 38 => 46 case 39 => 38
    case 40 => 30 case 41 => 22 case 42 => 14 case 43 => 6
    case 44 => 61 case 45 => 53 case 46 => 45 case 47 => 37
    case 48 => 29 case 49 => 21 case 50 => 13 case 51 => 5
    case 52 => 28 case 53 => 20 case 54 => 12 case _ => 4
  }

  /** Permuted choice 2: the number, counted from 1, of the bit that becomes bit `j`, counted from 0. */
  function PC2(j: nat): (n: nat)
    requires j < 48
    ensures 1 <= n <= 56
  {
    match j
    case 0 => 14 case 1 => 17 case 2 => 11 case 3 => 24
    case 4 => 1 case 5 => 5 case 6 => 3 case 7 => 28
    case 8 => 15 case 9 => 6 case 10 => 21 case 11 => 10
    case 12 => 23 case 13 => 19 case 14 => 12 case 15 => 4
    case 16 => 26 case 17 => 8 case 18 => 16 case 19 => 7
    case 20 => 27 case 21 => 20 case 22 => 13 case 23 => 2
    case 24 => 41 case 25 => 52 case 26 => 31 case 27 => 37
    case 28 => 47 case 29 => 55 case 30 => 30 case 31 => 40
    case 32 => 51 case 33 => 45 case 34 => 33 case 35 => 48
    case 36 => 44 case 37 => 49 case 38 => 39 case 39 => 56
    case 40 => 34 case 41 => 53 case 42 => 46 case 43 => 42
    case 44 => 50 case 45 => 36 case 46 => 29 case _ => 32
  }

  /** The left shift before round key `i`. */
  function Shifts(i: nat): nat {
    if i == 1 || i == 2 || i == 9 || i == 16 then 1 else 2
  }

  function Choice1(key: seq<bool>): (bits: seq<bool>)
    requires IsKey(key)
    ensures |bits| == 56
  {
    seq(56, j requires 0 <= j < 56 => key[PC1(j) - 1])
  }

  function Choice2(bits: seq<bool>): (chosen: seq<bool>)
    requires |bits| == 56
    ensures |chosen| == 48
  {
    seq(48, j requires 0 <= j < 48 => bits[PC2(j) - 1])
  }

  function ShiftLeft(half: seq<bool>, n: nat): (r: seq<bool>)
    requires n <= |half|
    ensures |r| == |half|
  {
    half[n..] + half[..n]
  }

  /** One of the halves C and D after `i` of the shifts. */
  function Shifted(half: seq<bool>, i: nat): (r: seq<bool>)
    requires |half| == 28 && i <= 16
    ensures |r| == 28
  {
    if i == 0 then half else ShiftLeft(Shifted(half, i - 1), Shifts(i))
  }

  /** 24 bits read as a number, the first the highest. */
  function Bits24(bits: seq<bool>): Word
    requires |bits| <= 24
  {
    if bits == [] then 0
    else
      var n := |bits| - 1;
      Or(Bits24(bits[..n]), if bits[n] then BitAt(n) else 0)
  }

  function BitAt(n: nat): Word
    requires n < 24
  {
    1 << (23 - n)
  }

  function RoundKey(key: seq<bool>, i: nat): bv48
    requires IsKey(key) && 1 <= i <= 16
  {
    var chosen := Choice1(key);
    var bits := Choice2(Shifted(chosen[..28], i) + Shifted(chosen[28..], i));
    Halves(Bits24(bits[..24]), Bits24(bits[24..]))
  }

  /** The low 24 bits of two words, one behind the other. */
  function Halves(high: Word, low: Word): bv48 {
    (((high & 0xffffff) as bv48) << 24) | ((low & 0xffffff) as bv48)
  }

  function KeySchedule(key: seq<bool>): (ks: seq<bv48>)
    requires IsKey(key)
    ensures |ks| == 16
  {
    seq(16, i requires 0 <= i < 16 => RoundKey(key, i + 1))
  }
}
