/** Base64 (section 4 of RFC 4648): the table-driven encoder and the bit-accumulating decoder. */
module Base64 {
  import opened Bytes

  const PAD := '='

  /** The 64 letters of the alphabet. */
  function Letter(v: nat): char
    requires v < 64
  {
    if v < 26 then (v + 65) as char
    else if v < 52 then (v + 71) as char
    else if v < 62 then (v - 4) as char
    else if v == 62 then '+' else '/'
  }

  /** The decoder's table: -1 for characters it skips, and 0 for the padding character. */
  function ToBinary(code: nat): (v: int)
    ensures -1 <= v < 64
  {
    if 65 <= code <= 90 then code - 65
    else if 97 <= code <= 122 then code - 71
    else if 48 <= code <= 57 then code + 4
    else if code == 43 then 62
    else if code == 47 then 63
    else if code == 61 then 0
    else -1
  }

  /** The low seven bits of the character's code, which is what is looked up. */
  function Value(c: char): int {
    ToBinary(c as int % 128)
  }

  lemma LetterValue(v: nat)
    requires v < 64
    ensures Value(Letter(v)) == v && Letter(v) != PAD
  {
  }

  // ---- the encoding of the standard

  /** Three bytes make four letters; one or two last bytes make two or three, and padding. */
  function Encode(b: seq<Byte>): string {
    if b == [] then ""
    else if |b| == 1 then [Sextet(b, 0), Sextet(b, 1), PAD, PAD]
    else if |b| == 2 then [Sextet(b, 0), Sextet(b, 1), Sextet(b, 2), PAD]
    else [Sextet(b, 0), Sextet(b, 1), Sextet(b, 2), Sextet(b, 3)] + Encode(b[3..])
  }

  /** A byte of the input, or 0 past its end. */
  function At(b: seq<Byte>, i: nat): int {
    if i < |b| then b[i] else 0
  }

  /** Letter `k` of the encoding: six bits, the first ones from the top of byte 3*(k/4). */
  function Sextet(b: seq<Byte>, k: nat): char {
    var j := k / 4 * 3;
    if k % 4 == 0 then Letter(At(b, j) / 4)
    else if k % 4 == 1 then Letter(At(b, j) % 4 * 16 + At(b, j + 1) / 16)
    else if k % 4 == 2 then Letter(At(b, j + 1) % 16 * 4 + At(b, j + 2) / 64)
    else Letter(At(b, j + 2) % 64)
  }

  function Unpadded(m: nat): nat {
    m / 3 * 4 + if m % 3 == 0 then 0 else m % 3 + 1
  }

  function Padding(m: nat): string {
    if m % 3 == 1 then "==" else if m % 3 == 2 then "=" else ""
  }

  function Letters(b: seq<Byte>, n: nat): (s: string)
    ensures |s| == n && forall k :: 0 <= k < n ==> s[k] == Sextet(b, k)
  {
    seq(n, k requires k >= 0 => Sextet(b, k))
  }

  lemma SextetShift(b: seq<Byte>, k: nat)
    requires |b| >= 3
    ensures Sextet(b[3..], k) == Sextet(b, k + 4)
  {
    hide Letter;
    assert (k + 4) / 4 == k / 4 + 1 && (k + 4) % 4 == k % 4;
    var j := k / 4 * 3;
    assert At(b[3..], j) == At(b, j + 3) && At(b[3..], j + 1) == At(b, j + 4) && At(b[3..], j + 2) == At(b, j + 5);
  }

  lemma {:induction false} EncodeByLetters(b: seq<Byte>)
    ensures Encode(b) == Letters(b, Unpadded(|b|)) + Padding(|b|)
  {
    hide Sextet;
    if |b| >= 3 {
      EncodeByLetters(b[3..]);
      var n := Unpadded(|b|);
      forall k: nat
        ensures Sextet(b[3..], k) == Sextet(b, k + 4)
      {
        SextetShift(b, k);
      }
      var first := [Sextet(b, 0), Sextet(b, 1), Sextet(b, 2), Sextet(b, 3)];
      assert Letters(b, n) == first + Letters(b[3..], n - 4);
      assert first + (Letters(b[3..], n - 4) + Padding(|b|)) == Letters(b, n) + Padding(|b|);
    }
  }

  /** Padded output is a multiple of four long, and its padding is at most two characters. */
  lemma {:induction false} EncodeLength(b: seq<Byte>)
    ensures |Encode(b)| == (|b| + 2) / 3 * 4
    ensures forall k :: 0 <= k < |Encode(b)| ==> (Encode(b)[k] == PAD <==> k >= Unpadded(|b|))
  {
    hide Sextet, Encode;
    EncodeByLetters(b);
    forall k: nat
      ensures Sextet(b, k) != PAD
    {
      SextetIsLetter(b, k);
    }
    PaddedLength(|b|);
    hide Unpadded;
  }

  lemma PaddedLength(m: nat)
    ensures Unpadded(m) + |Padding(m)| == (m + 2) / 3 * 4
  {
  }

  lemma SextetIsLetter(b: seq<Byte>, k: nat)
    ensures Sextet(b, k) != PAD
  {
  }

  // ---- decoding

  /** `leftbits` and `leftdata`, and the bytes appended so far. */
  datatype Acc = Acc(out: seq<Byte>, leftbits: nat, leftdata: nat)

  /** `1 << bits` for the numbers of bits that can be left. */
  function LowSize(bits: nat): nat {
    if bits == 0 then 1 else if bits == 2 then 4 else if bits == 4 then 16 else 64
  }

  predicate Ok(a: Acc) {
    (a.leftbits == 0 || a.leftbits == 2 || a.leftbits == 4 || a.leftbits == 6) && a.leftdata < LowSize(a.leftbits)
  }

  /** Six more bits; a byte is appended when eight are there, unless they end in padding. */
  function Shift(a: Acc, c: nat, padding: bool): (r: Acc)
    requires Ok(a) && c < 64
    ensures Ok(r) && r.leftbits == (a.leftbits + 6) % 8
  {
    var bits, data := a.leftbits + 6, a.leftdata * 64 + c;
    if bits < 8 then Acc(a.out, bits, data)
    else
      var low := LowSize(bits - 8);
      Acc(if padding then a.out else a.out + [data / low % 256], bits - 8, data % low)
  }

  /** One character: the body of the decoder's loop. */
  function Step(a: Acc, ch: char): (r: Acc)
    requires Ok(a)
    ensures Ok(r)
    ensures r.leftbits == if Value(ch) == -1 then a.leftbits else (a.leftbits + 6) % 8
  {
    if Value(ch) == -1 then a else Shift(a, Value(ch), ch == PAD)
  }

  function Steps(a: Acc, s: string): (r: Acc)
    requires Ok(a)
    ensures Ok(r)
    decreases |s|
  {
    if s == [] then a else Steps(Step(a, s[0]), s[1..])
  }

  function IndexOf(s: string, c: char): int {
    if s == [] then -1
    else if s[0] == c then 0
    else var i := IndexOf(s[1..], c); if i < 0 then -1 else i + 1
  }

  /**
   The length the decoder allots, from the number of characters before the first padding. That is
   looked for from the start of the string; before the offset it counts as none.
   */
  function ResultLength(s: string, offset: nat): nat
    requires offset <= |s|
  {
    var i := IndexOf(s, PAD) - offset;
    var dataLength := if i < 0 then |s| - offset else i;
    dataLength / 4 * 3 + dataLength % 4 * 2 / 3
  }

  /** Appending past the allotted length has no effect; unwritten bytes are 0. */
  function Fitted(out: seq<Byte>, n: nat): (r: seq<Byte>)
    ensures |r| == n
  {
    seq(n, k requires 0 <= k < n => if k < |out| then out[k] else 0)
  }

  /** None is the exception for a corrupted string. */
  function Decode(s: string, offset: nat): Option<seq<Byte>>
    requires offset <= |s|
  {
    var a := Steps(Acc([], 0, 0), s[offset..]);
    if a.leftbits == 0 then Some(Fitted(a.out, ResultLength(s, offset))) else None
  }

  function Legal(s: string): nat {
    if s == [] then 0 else (if Value(s[0]) == -1 then 0 else 1) + Legal(s[1..])
  }

  /** The characters that stand for something. */
  function Meaningful(s: string): string {
    if s == [] then [] else (if Value(s[0]) == -1 then [] else [s[0]]) + Meaningful(s[1..])
  }

  /**
   Any other character is skipped, wherever it is: the string is decoded as if it were not there,
   except that it counts towards the length, so that zeros fill up the end.
   */
  lemma JunkSkipped(s: string)
    ensures var clean := Decode(Meaningful(s), 0);
      && (Decode(s, 0).None? <==> clean.None?)
      && (clean.Some? ==>
            Decode(s, 0).value == Fitted(Steps(Acc([], 0, 0), Meaningful(s)).out, ResultLength(s, 0)))
  {
    JunkSteps(Acc([], 0, 0), s);
    assert s[0..] == s && Meaningful(s)[0..] == Meaningful(s);
    hide Steps, Meaningful, ResultLength;
  }

  lemma {:induction false} JunkSteps(a: Acc, s: string)
    requires Ok(a)
    ensures Steps(a, s) == Steps(a, Meaningful(s))
    decreases |s|
  {
    if s != [] {
      JunkSteps(Step(a, s[0]), s[1..]);
      if Value(s[0]) != -1 {
        assert Meaningful(s)[0] == s[0] && Meaningful(s)[1..] == Meaningful(s[1..]);
      } else {
        assert Meaningful(s) == Meaningful(s[1..]);
      }
    }
  }

  lemma {:induction false} BitsLeft(a: Acc, s: string)
    requires Ok(a)
    ensures a.leftbits < 8 && Steps(a, s).leftbits == (a.leftbits + 6 * Legal(s)) % 8
    decreases |s|
  {
    hide Step, Value;
    assert s != [] ==> Step(a, s[0]).leftbits == if Value(s[0]) == -1 then a.leftbits else (a.leftbits + 6) % 8;
    if s != [] {
      BitsLeft(Step(a, s[0]), s[1..]);
      SixMore(a.leftbits, Legal(s[1..]));
    }
  }

  lemma SixMore(bits: nat, n: nat)
    ensures ((bits + 6) % 8 + 6 * n) % 8 == (bits + 6 * (n + 1)) % 8
  {
    var q := (bits + 6) / 8;
    assert bits + 6 * (n + 1) == (bits + 6) % 8 + 6 * n + 8 * q;
    ModShift((bits + 6) % 8 + 6 * n, q);
  }

  lemma ModShift(x: nat, q: nat)
    ensures (x + 8 * q) % 8 == x % 8
  {
  }

  lemma SixFours(n: nat)
    ensures 6 * n % 8 == 0 <==> n % 4 == 0
  {
    var q, r := n / 4, n % 4;
    assert 6 * n == 6 * r + 8 * (3 * q);
    ModShift(6 * r, 3 * q);
  }

  /** Any string is rejected exactly when its table characters, padding included, do not come in fours. */
  lemma CorruptIff(s: string, offset: nat)
    requires offset <= |s|
    ensures Decode(s, offset) == None <==> Legal(s[offset..]) % 4 != 0
  {
    BitsLeft(Acc([], 0, 0), s[offset..]);
    SixFours(Legal(s[offset..]));
    hide Steps, Legal, ResultLength, Fitted;
  }

  // ---- round trip

  lemma StepLetter(a: Acc, v: nat)
    requires Ok(a) && v < 64
    ensures Step(a, Letter(v))
         == if a.leftbits == 0 then Acc(a.out, 6, v)
            else if a.leftbits == 6 then Acc(a.out + [a.leftdata * 4 + v / 16], 4, v % 16)
            else if a.leftbits == 4 then Acc(a.out + [a.leftdata * 16 + v / 4], 2, v % 4)
            else Acc(a.out + [a.leftdata * 64 + v], 0, 0)
  {
    LetterValue(v);
    hide Letter, Value;
    var x := a.leftdata * 64 + v;
    if a.leftbits == 6 {
      HighLow(x, a.leftdata * 4 + v / 16, v % 16, 16);
    } else if a.leftbits == 4 {
      HighLow(x, a.leftdata * 16 + v / 4, v % 4, 4);
    } else if a.leftbits == 2 {
      HighLow(x, x, 0, 1);
    }
  }

  lemma HighLow(x: nat, high: nat, low: nat, size: nat)
    requires (size == 1 || size == 4 || size == 16) && x == high * size + low && low < size && high < 256
    ensures x / size % 256 == high && x % size == low
  {
  }

  lemma StepPad(a: Acc)
    requires Ok(a) && a.leftdata == 0 && (a.leftbits == 2 || a.leftbits == 4)
    ensures Step(a, PAD) == Acc(a.out, if a.leftbits == 4 then 2 else 0, 0)
  {
  }

  lemma Steps4(a: Acc, c0: char, c1: char, c2: char, c3: char, more: string)
    requires Ok(a)
    ensures Steps(a, [c0, c1, c2, c3] + more) == Steps(Step(Step(Step(Step(a, c0), c1), c2), c3), more)
  {
    hide Step, Ok;
    StepsCons(a, c0, [c1, c2, c3] + more);
    assert [c0] + ([c1, c2, c3] + more) == [c0, c1, c2, c3] + more;
    StepsCons(Step(a, c0), c1, [c2, c3] + more);
    assert [c1] + ([c2, c3] + more) == [c1, c2, c3] + more;
    StepsCons(Step(Step(a, c0), c1), c2, [c3] + more);
    assert [c2] + ([c3] + more) == [c2, c3] + more;
    StepsCons(Step(Step(Step(a, c0), c1), c2), c3, more);
  }

  lemma StepsCons(a: Acc, c: char, more: string)
    requires Ok(a)
    ensures Steps(a, [c] + more) == Steps(Step(a, c), more)
  {
    hide Step, Ok;
    assert ([c] + more)[1..] == more;
  }

  // The letters of a group, one by one: each finishes the byte that the one before it began.

  lemma SecondLetter(out: seq<Byte>, b: Byte, high: nat)
    requires high < 16
    ensures var v: int := b;
      Step(Acc(out, 6, v / 4), Letter(v % 4 * 16 + high)) == Acc(out + [b], 4, high)
  {
    hide Step, Letter;
    var v: int := b;
    StepLetter(Acc(out, 6, v / 4), v % 4 * 16 + high);
  }

  lemma ThirdLetter(out: seq<Byte>, b: Byte, high: nat)
    requires high < 4
    ensures var v: int := b;
      Step(Acc(out, 4, v / 16), Letter(v % 16 * 4 + high)) == Acc(out + [b], 2, high)
  {
    hide Step, Letter;
    var v: int := b;
    StepLetter(Acc(out, 4, v / 16), v % 16 * 4 + high);
  }

  lemma FourthLetter(out: seq<Byte>, b: Byte)
    ensures var v: int := b;
      Step(Acc(out, 2, v / 64), Letter(v % 64)) == Acc(out + [b], 0, 0)
  {
    hide Step, Letter;
    var v: int := b;
    StepLetter(Acc(out, 2, v / 64), v % 64);
  }

  lemma QuadDecodes(out: seq<Byte>, b: seq<Byte>, more: string)
    requires |b| >= 3
    ensures Steps(Acc(out, 0, 0), [Sextet(b, 0), Sextet(b, 1), Sextet(b, 2), Sextet(b, 3)] + more)
         == Steps(Acc(out + b[..3], 0, 0), more)
  {
    hide Step, Letter, Steps;
    var v0: int, v1: int, v2: int := b[0], b[1], b[2];
    Steps4(Acc(out, 0, 0), Sextet(b, 0), Sextet(b, 1), Sextet(b, 2), Sextet(b, 3), more);
    StepLetter(Acc(out, 0, 0), v0 / 4);
    SecondLetter(out, b[0], v1 / 16);
    ThirdLetter(out + [b[0]], b[1], v2 / 64);
    FourthLetter(out + [b[0]] + [b[1]], b[2]);
    assert out + [b[0]] + [b[1]] + [b[2]] == out + b[..3];
  }

  lemma TailDecodes(out: seq<Byte>, b: seq<Byte>)
    requires 1 <= |b| <= 2
    ensures Steps(Acc(out, 0, 0), Encode(b)) == Acc(out + b, 0, 0)
  {
    hide Steps, Step, Letter;
    if |b| == 1 {
      OneByteDecodes(out, b[0]);
      assert Encode(b) == [Letter(b[0] as int / 4), Letter(b[0] as int % 4 * 16), PAD, PAD];
      assert b == [b[0]];
    } else {
      TwoBytesDecode(out, b[0], b[1]);
      assert b == [b[0], b[1]];
    }
  }

  lemma OneByteDecodes(out: seq<Byte>, b0: Byte)
    ensures var v0: int := b0;
      Steps(Acc(out, 0, 0), [Letter(v0 / 4), Letter(v0 % 4 * 16), PAD, PAD]) == Acc(out + [b0], 0, 0)
  {
    hide Step, Letter, Steps;
    var v0: int := b0;
    var s := [Letter(v0 / 4), Letter(v0 % 4 * 16), PAD, PAD];
    assert s == s + [];
    Steps4(Acc(out, 0, 0), s[0], s[1], s[2], s[3], []);
    StepLetter(Acc(out, 0, 0), v0 / 4);
    SecondLetter(out, b0, 0);
    StepPad(Acc(out + [b0], 4, 0));
    StepPad(Acc(out + [b0], 2, 0));
    StepsNone(Acc(out + [b0], 0, 0));
  }

  lemma StepsNone(a: Acc)
    requires Ok(a)
    ensures Steps(a, []) == a
  {
  }

  lemma TwoBytesDecode(out: seq<Byte>, b0: Byte, b1: Byte)
    ensures var v0: int, v1: int := b0, b1;
      Steps(Acc(out, 0, 0), [Letter(v0 / 4), Letter(v0 % 4 * 16 + v1 / 16), Letter(v1 % 16 * 4), PAD])
      == Acc(out + [b0, b1], 0, 0)
  {
    hide Step, Letter, Steps;
    var v0: int, v1: int := b0, b1;
    var s := [Letter(v0 / 4), Letter(v0 % 4 * 16 + v1 / 16), Letter(v1 % 16 * 4), PAD];
    assert s == s + [];
    Steps4(Acc(out, 0, 0), s[0], s[1], s[2], s[3], []);
    StepLetter(Acc(out, 0, 0), v0 / 4);
    SecondLetter(out, b0, v1 / 16);
    ThirdLetter(out + [b0], b1, 0);
    StepPad(Acc(out + [b0] + [b1], 2, 0));
    StepsNone(Acc(out + [b0] + [b1], 0, 0));
    assert out + [b0] + [b1] == out + [b0, b1];
  }

  lemma {:induction false} EncodingDecodes(out: seq<Byte>, b: seq<Byte>)
    ensures Steps(Acc(out, 0, 0), Encode(b)) == Acc(out + b, 0, 0)
    decreases |b|
  {
    if b == [] {
      assert out + b == out;
    } else if |b| <= 2 {
      TailDecodes(out, b);
    } else {
      hide Steps, Sextet;
      QuadDecodes(out, b, Encode(b[3..]));
      EncodingDecodes(out + b[..3], b[3..]);
      assert out + b[..3] + b[3..] == out + b;
    }
  }

  lemma {:induction false} FirstPad(s: string, n: nat)
    requires n <= |s| && forall k :: 0 <= k < |s| ==> (s[k] == PAD <==> k >= n)
    ensures IndexOf(s, PAD) == if n < |s| then n else -1
  {
    if s != [] && n > 0 {
      FirstPad(s[1..], n - 1);
    }
  }

  lemma {:induction false} IndexBehind(front: string, s: string)
    ensures IndexOf(front + s, PAD)
         == if IndexOf(front, PAD) >= 0 then IndexOf(front, PAD)
            else if IndexOf(s, PAD) >= 0 then |front| + IndexOf(s, PAD) else -1
    ensures -1 <= IndexOf(front, PAD) < |front|
  {
    if front == "" {
      assert front + s == s;
    } else {
      assert (front + s)[1..] == front[1..] + s;
      IndexBehind(front[1..], s);
    }
  }

  lemma Allotted(front: string, b: seq<Byte>)
    ensures ResultLength(front + Encode(b), |front|)
         == if IndexOf(front, PAD) < 0 then |b| else (|b| + 2) / 3 * 3
  {
    EncodeLength(b);
    FirstPad(Encode(b), Unpadded(|b|));
    IndexBehind(front, Encode(b));
    hide Encode;
  }

  /**
   Decoding undoes encoding, for every byte string: content, length and no bits left over. Behind
   an offset it does exactly if there is no padding before the offset, or none in the encoding;
   otherwise zeros are added.
   */
  lemma RoundTrip(b: seq<Byte>, front: string)
    ensures Decode(Encode(b), 0) == Some(b)
    ensures Decode(front + Encode(b), |front|) == Some(b) <==> IndexOf(front, PAD) < 0 || |b| % 3 == 0
  {
    RoundTripBehind(b, front);
    RoundTripBehind(b, "");
    assert "" + Encode(b) == Encode(b);
  }

  lemma RoundTripBehind(b: seq<Byte>, front: string)
    ensures Decode(front + Encode(b), |front|) == Some(b) <==> IndexOf(front, PAD) < 0 || |b| % 3 == 0
  {
    hide Encode, ResultLength, Steps, Fitted, IndexOf;
    EncodingDecodes([], b);
    assert [] + b == b;
    assert (front + Encode(b))[|front|..] == Encode(b);
    Allotted(front, b);
    FittedIff(b, ResultLength(front + Encode(b), |front|));
    RoundedIff(|b|);
  }

  lemma RoundedIff(n: nat)
    ensures (n + 2) / 3 * 3 == n <==> n % 3 == 0
  {
  }

  lemma FittedIff(out: seq<Byte>, n: nat)
    ensures Fitted(out, n) == out <==> n == |out|
  {
  }

  // ---- the loops

  /** `encode`: whole groups of four letters, of which a last partial group keeps only some. */
  method EncodeBytes(bytes: seq<Byte>) returns (base64: string)
    ensures base64 == Encode(bytes)
  {
    var m := |bytes|;
    var k := m % 3;
    var n := m / 3 * 4 + if k == 0 then 0 else k + 1;
    var N := (m + 2) / 3 * 4;
    var encoded := EncodeGroups(bytes, N);
    EncodeByLetters(bytes);
    assert encoded[..n] == Letters(bytes, n);
    base64 := encoded[..n];
    if k == 1 {
      base64 := base64 + "==";
    }
    if k == 2 {
      base64 := base64 + "=";
    }
  }

  method EncodeGroups(bytes: seq<Byte>, N: nat) returns (encoded: array<char>)
    requires N == (|bytes| + 2) / 3 * 4
    ensures encoded.Length == N && forall q :: 0 <= q < N ==> encoded[q] == Sextet(bytes, q)
  {
    hide Sextet, Letter;
    var m := |bytes|;
    encoded := new char[N](_ => '=');
    var i, j := 0, 0;
    while j < m
      invariant 0 <= j <= m + 2 && j % 3 == 0 && 0 <= i <= N && i == j / 3 * 4
      invariant forall q :: 0 <= q < i ==> encoded[q] == Sextet(bytes, q)
    {
      var y := At(bytes, j) * 0x1_0000 + At(bytes, j + 1) * 256 + At(bytes, j + 2);
      Group(bytes, j, y);
      encoded[i] := Letter(y / 0x4_0000);
      encoded[i + 1] := Letter(y / 0x1000 % 64);
      encoded[i + 2] := Letter(y / 64 % 64);
      encoded[i + 3] := Letter(y % 64);
      i := i + 4;
      j := j + 3;
    }
  }

  lemma Group(b: seq<Byte>, j: nat, y: int)
    requires j % 3 == 0 && y == At(b, j) * 0x1_0000 + At(b, j + 1) * 256 + At(b, j + 2)
    ensures var i := j / 3 * 4;
      && 0 <= y / 0x4_0000 < 64
      && Sextet(b, i) == Letter(y / 0x4_0000) && Sextet(b, i + 1) == Letter(y / 0x1000 % 64)
      && Sextet(b, i + 2) == Letter(y / 64 % 64) && Sextet(b, i + 3) == Letter(y % 64)
  {
    hide Letter;
    var i := j / 3 * 4;
    assert i / 4 * 3 == j && i % 4 == 0;
    assert (i + 1) / 4 * 3 == j && (i + 1) % 4 == 1 && (i + 2) / 4 * 3 == j && (i + 2) % 4 == 2;
    assert (i + 3) / 4 * 3 == j && (i + 3) % 4 == 3;
    SixBits(At(b, j), At(b, j + 1), At(b, j + 2));
    hide At;
  }

  /** Four times six bits out of three bytes. */
  lemma SixBits(b0: int, b1: int, b2: int)
    requires 0 <= b0 < 256 && 0 <= b1 < 256 && 0 <= b2 < 256
    ensures var y := b0 * 0x1_0000 + b1 * 256 + b2;
      && y / 0x4_0000 == b0 / 4 && y / 0x1000 % 64 == b0 % 4 * 16 + b1 / 16
      && y / 64 % 64 == b1 % 16 * 4 + b2 / 64 && y % 64 == b2 % 64
  {
    var y := b0 * 0x1_0000 + b1 * 256 + b2;
    LastSix(b0 * 1024 + b1 * 4 + b2 / 64, b2 % 64);
    LastSix(b0 * 16 + b1 / 16, b1 % 16 * 4 + b2 / 64);
    LastSix(b0 / 4, b0 % 4 * 16 + b1 / 16);
    assert y / 64 == b0 * 1024 + b1 * 4 + b2 / 64;
    assert y / 0x1000 == y / 64 / 64 && y / 0x4_0000 == y / 64 / 64 / 64;
  }

  lemma LastSix(q: int, r: int)
    requires 0 <= r < 64
    ensures (64 * q + r) / 64 == q && (64 * q + r) % 64 == r
  {
  }

  lemma StepsFrom(a: Acc, s: string, i: nat)
    requires Ok(a) && i < |s|
    ensures Steps(a, s[i..]) == Steps(Step(a, s[i]), s[i + 1..])
  {
    assert s[i..][1..] == s[i + 1..];
    hide Step, Ok;
  }

  lemma ValueInRange(c: char)
    ensures -1 <= Value(c) < 64
  {
  }

  /** A byte put in its place fits; one behind the end changes nothing. */
  lemma FittedNext(out: seq<Byte>, byte: Byte, n: nat)
    ensures Fitted(out + [byte], n) == if |out| < n then Fitted(out, n)[|out| := byte] else Fitted(out, n)
  {
  }

  /** One character: six bits more, and the byte that they complete unless they are padding. */
  method Collect(leftbits: nat, leftdata: nat, ch: char, ghost out: seq<Byte>)
    returns (bits: nat, data: nat, byte: Option<Byte>)
    requires Ok(Acc(out, leftbits, leftdata))
    ensures Step(Acc(out, leftbits, leftdata), ch)
         == Acc(if byte.Some? then out + [byte.value] else out, bits, data)
  {
    bits, data, byte := leftbits, leftdata, None;
    var c := Value(ch);
    ValueInRange(ch);
    hide Value;
    if c == -1 {
      return;
    }
    data := leftdata * 64 + c;
    bits := leftbits + 6;
    if bits >= 8 {
      bits := bits - 8;
      if ch != PAD {
        byte := Some(data / LowSize(bits) % 256);
      }
      data := data % LowSize(bits);
    }
  }

  /** `decode`. */
  method DecodeString(data: string, offset: nat) returns (result: Option<seq<Byte>>)
    requires offset <= |data|
    ensures result == Decode(data, offset)
  {
    var dataLength := IndexOf(data, PAD) - offset;
    if dataLength < 0 {
      dataLength := |data| - offset;
    }
    var resultLength := dataLength / 4 * 3 + dataLength % 4 * 2 / 3;
    assert resultLength == ResultLength(data, offset);
    hide Steps, Step, Value, IndexOf, ResultLength, Shift, Ok;
    var buffer := new Byte[resultLength](_ => 0);
    var leftbits, leftdata, idx, i := 0, 0, 0, offset;
    ghost var out: seq<Byte> := [];
    OkAtStart();
    while i < |data|
      invariant offset <= i <= |data| && 0 <= leftbits && 0 <= leftdata && Ok(Acc(out, leftbits, leftdata))
      invariant Steps(Acc([], 0, 0), data[offset..]) == Steps(Acc(out, leftbits, leftdata), data[i..])
      invariant idx == |out|
      invariant buffer[..] == Fitted(out, resultLength)
    {
      StepsFrom(Acc(out, leftbits, leftdata), data, i);
      var byte;
      leftbits, leftdata, byte := Collect(leftbits, leftdata, data[i], out);
      if byte.Some? {
        FittedNext(out, byte.value, resultLength);
        if idx < resultLength {
          buffer[idx] := byte.value;
        }
        out := out + [byte.value];
        idx := idx + 1;
      }
      i := i + 1;
    }
    StepsNone(Acc(out, leftbits, leftdata));
    assert data[i..] == [];
    if leftbits != 0 {
      return None;
    }
    return Some(buffer[..]);
  }

  lemma OkAtStart()
    ensures Ok(Acc([], 0, 0))
  {
  }
}
