/** SHA-256 as the loops compute it, against the recurrences of FIPS 180-4.

Words and bytes are bit-vectors. The padding, the message schedule, the rounds and
the chaining over blocks are functions named after the sections that define them;
the methods below them are the loops of the service.
*/
module Sha256 {

  type Byte = bv8
  type Word = bv32

  const K: seq<Word> := [
    0x428a2f98, 0x71374491, 0xb5c0fbcf, 0xe9b5dba5, 0x3956c25b, 0x59f111f1, 0x923f82a4,
    0xab1c5ed5, 0xd807aa98, 0x12835b01, 0x243185be, 0x550c7dc3, 0x72be5d74, 0x80deb1fe,
    0x9bdc06a7, 0xc19bf174, 0xe49b69c1, 0xefbe4786, 0x0fc19dc6, 0x240ca1cc, 0x2de92c6f,
    0x4a7484aa, 0x5cb0a9dc, 0x76f988da, 0x983e5152, 0xa831c66d, 0xb00327c8, 0xbf597fc7,
    0xc6e00bf3, 0xd5a79147, 0x06ca6351, 0x14292967, 0x27b70a85, 0x2e1b2138, 0x4d2c6dfc,
    0x53380d13, 0x650a7354, 0x766a0abb, 0x81c2c92e, 0x92722c85, 0xa2bfe8a1, 0xa81a664b,
    0xc24b8b70, 0xc76c51a3, 0xd192e819, 0xd6990624, 0xf40e3585, 0x106aa070, 0x19a4c116,
    0x1e376c08, 0x2748774c, 0x34b0bcb5, 0x391c0cb3, 0x4ed8aa4a, 0x5b9cca4f, 0x682e6ff3,
    0x748f82ee, 0x78a5636f, 0x84c87814, 0x8cc70208, 0x90befffa, 0xa4506ceb, 0xbef9a3f7,
    0xc67178f2
  ]

  /** The eight 32-bit values of a hash or of the working variables. */
  datatype Eight = Eight(a: Word, b: Word, c: Word, d: Word, e: Word, f: Word, g: Word, h: Word)

  const INITIAL := Eight(
    0x6a09e667, 0xbb67ae85, 0x3c6ef372, 0xa54ff53a, 0x510e527f, 0x9b05688c, 0x1f83d9ab, 0x5be0cd19)

  // ---- Section 4.1.2: functions ----

  /** Addition modulo 2^32. */
  function Add(x: Word, y: Word): Word { x + y }

  function SumOfFour(a: Word, b: Word, c: Word, d: Word): Word { a + b + c + d }

  function Ch(x: Word, y: Word, z: Word): Word { (x & y) ^ (!x & z) }

  function Maj(x: Word, y: Word, z: Word): Word { (x & y) ^ (x & z) ^ (y & z) }

  function BigSigma0(x: Word): Word { x.RotateRight(2) ^ x.RotateRight(13) ^ x.RotateRight(22) }

  function BigSigma1(x: Word): Word { x.RotateRight(6) ^ x.RotateRight(11) ^ x.RotateRight(25) }

  function SmallSigma0(x: Word): Word { x.RotateRight(7) ^ x.RotateRight(18) ^ (x >> 3) }

  function SmallSigma1(x: Word): Word { x.RotateRight(17) ^ x.RotateRight(19) ^ (x >> 10) }

  // ---- Section 5: padding and words ----

  function Zeros(n: nat): seq<Byte> {
    seq(n, i => 0 as Byte)
  }

  /** The smallest k with n + 1 + k = 56 modulo 64. */
  function Gap(n: nat): nat {
    (119 - n % 64) % 64
  }

  /** The last digits of a number to the base 256, most significant first. */
  function Digits(n: nat, count: nat): (r: seq<int>)
    ensures |r| == count && forall d :: d in r ==> 0 <= d < 256
  {
    if count == 0 then [] else Digits(n / 256, count - 1) + [n % 256]
  }

  /** A number in so many bytes, most significant byte first. */
  function BigEndian(n: nat, count: nat): (r: seq<Byte>)
    ensures |r| == count
  {
    var digits := Digits(n, count);
    seq(count, i requires 0 <= i < count => DigitByte(digits[i]))
  }

  function DigitByte(d: int): Byte {
    if 0 <= d < 256 then d as Byte else 0
  }

  function Padded(msg: seq<Byte>): seq<Byte> {
    msg + [0x80] + Zeros(Gap(|msg|)) + BigEndian(|msg| * 8, 8)
  }

  function BigEndianWord(b0: Byte, b1: Byte, b2: Byte, b3: Byte): Word {
    (b0 as Word << 24) | (b1 as Word << 16) | (b2 as Word << 8) | b3 as Word
  }

  function WordBytes(w: Word): (r: seq<Byte>)
    ensures |r| == 4
  {
    [(w >> 24) as Byte, ((w >> 16) & 0xFF) as Byte, ((w >> 8) & 0xFF) as Byte, (w & 0xFF) as Byte]
  }

  // ---- Section 6.2.2: the recurrences ----

  function Schedule(block: seq<Byte>, t: nat): Word
    requires |block| == 64 && t < 64
  {
    if t < 16 then BigEndianWord(block[4 * t], block[4 * t + 1], block[4 * t + 2], block[4 * t + 3])
    else
      SumOfFour(SmallSigma1(Schedule(block, t - 2)), Schedule(block, t - 7),
                SmallSigma0(Schedule(block, t - 15)), Schedule(block, t - 16))
  }

  function Round(v: Eight, k: Word, w: Word): Eight {
    var t1 := Add(Add(Add(Add(v.h, BigSigma1(v.e)), Ch(v.e, v.f, v.g)), k), w);
    var t2 := Add(BigSigma0(v.a), Maj(v.a, v.b, v.c));
    Eight(Add(t1, t2), v.a, v.b, v.c, Add(v.d, t1), v.e, v.f, v.g)
  }

  /** The working variables after the first `t` rounds. */
  function Rounds(v: Eight, block: seq<Byte>, t: nat): Eight
    requires |block| == 64 && t <= 64
  {
    if t == 0 then v else Round(Rounds(v, block, t - 1), K[t - 1], Schedule(block, t - 1))
  }

  function Sum(x: Eight, y: Eight): Eight {
    Eight(Add(x.a, y.a), Add(x.b, y.b), Add(x.c, y.c), Add(x.d, y.d),
          Add(x.e, y.e), Add(x.f, y.f), Add(x.g, y.g), Add(x.h, y.h))
  }

  /** The hash value after all blocks of `data`. */
  function Chain(h: Eight, data: seq<Byte>): Eight
    requires |data| % 64 == 0
    decreases |data|
  {
    if data == [] then h else Chain(Sum(Rounds(h, data[..64], 64), h), data[64..])
  }

  function Spell(h: Eight): (r: seq<Byte>)
    ensures |r| == 32
  {
    WordBytes(h.a) + WordBytes(h.b) + WordBytes(h.c) + WordBytes(h.d)
    + WordBytes(h.e) + WordBytes(h.f) + WordBytes(h.g) + WordBytes(h.h)
  }

  lemma PaddedLength(msg: seq<Byte>)
    ensures |Padded(msg)| % 64 == 0
  {
    hide *;
    PaddedSize(msg);
    GapFills(|msg|);
  }

  lemma PaddedSize(msg: seq<Byte>)
    ensures |Padded(msg)| == |msg| + 9 + Gap(|msg|)
  {
    hide Gap;
  }

  lemma GapFills(n: nat)
    ensures (n + 9 + Gap(n)) % 64 == 0
  {
    hide Gap;
    GapIsLeast(n, 0);
    var q := (n + 1 + Gap(n)) / 64;
    assert n + 9 + Gap(n) == 64 * (q + 1);
  }

  function Hash(msg: seq<Byte>): (r: seq<Byte>)
    ensures |r| == 32
  {
    PaddedLength(msg);
    Spell(Chain(INITIAL, Padded(msg)))
  }

  // ---- Padding ----

  /** The padding is the shortest that fills the last block. */
  lemma GapIsLeast(n: nat, j: nat)
    ensures (n + 1 + Gap(n)) % 64 == 56
    ensures j < Gap(n) ==> (n + 1 + j) % 64 != 56
  {
    var q, r := n / 64, n % 64;
    assert n == 64 * q + r;
    if r <= 55 {
      assert Gap(n) == 55 - r;
    } else {
      assert Gap(n) == 119 - r;
    }
  }

  /** The last nonzero byte before the length marks where the message ends. */
  lemma MarkerIsLast(msg: seq<Byte>)
    ensures |Padded(msg)| >= 8
    ensures var body := Padded(msg)[..|Padded(msg)| - 8];
            && |msg| < |body| && body[..|msg|] == msg && body[|msg|] == 0x80
            && forall i :: |msg| < i < |body| ==> body[i] == 0
  {
    var body := Padded(msg)[..|Padded(msg)| - 8];
    assert body == msg + [0x80] + Zeros(Gap(|msg|));
  }

  /** Different messages of any length are padded differently. */
  lemma PaddingInjective(m: seq<Byte>, n: seq<Byte>)
    requires Padded(m) == Padded(n)
    ensures m == n
  {
    hide Padded;
    MarkerIsLast(m);
    MarkerIsLast(n);
    var body := Padded(m)[..|Padded(m)| - 8];
    LastNonzero(body, |m|, |n|);
    assert m == body[..|m|] && n == body[..|n|];
  }

  lemma LastNonzero(body: seq<Byte>, i: nat, j: nat)
    requires i < |body| && body[i] == 0x80 && forall k :: i < k < |body| ==> body[k] == 0
    requires j < |body| && body[j] == 0x80 && forall k :: j < k < |body| ==> body[k] == 0
    ensures i == j
  {
  }

  function NumberOf(digits: seq<int>): int {
    if digits == [] then 0 else NumberOf(digits[..|digits| - 1]) * 256 + digits[|digits| - 1]
  }

  function Power256(k: nat): nat {
    if k == 0 then 1 else 256 * Power256(k - 1)
  }

  lemma {:induction false} DigitsSpell(n: nat, count: nat)
    requires n < Power256(count)
    ensures NumberOf(Digits(n, count)) == n
  {
    if count > 0 {
      DigitsSpell(n / 256, count - 1);
      assert Digits(n, count)[..count - 1] == Digits(n / 256, count - 1);
    }
  }

  /** Below 2^61 bytes the last eight bytes spell the length in bits, as section 5.1.1 requires. */
  lemma LengthIsEncoded(msg: seq<Byte>)
    requires |msg| < 0x2000_0000_0000_0000
    ensures |Padded(msg)| >= 8
    ensures var tail, digits := Padded(msg)[|Padded(msg)| - 8..], Digits(8 * |msg|, 8);
            NumberOf(digits) == 8 * |msg| && forall i :: 0 <= i < 8 ==> tail[i] == DigitByte(digits[i])
  {
    assert Padded(msg)[|Padded(msg)| - 8..] == BigEndian(|msg| * 8, 8);
    assert Power256(8) == 0x1_0000_0000_0000_0000 by {
      assert Power256(2) == 0x1_0000;
      assert Power256(4) == 0x1_0000_0000;
      assert Power256(6) == 0x1_0000_0000_0000;
    }
    hide Padded, Power256, Digits, DigitByte;
    DigitsSpell(|msg| * 8, 8);
  }

  // ---- The loops ----

  method Pad(msg: seq<Byte>) returns (data: seq<Byte>)
    ensures data == Padded(msg)
  {
    hide Gap;
    data := msg + [0x80];
    ghost var zeros := 0;
    while |data| % 64 != 56
      invariant zeros <= Gap(|msg|)
      invariant data == msg + [0x80] + Zeros(zeros)
      decreases Gap(|msg|) - zeros
    {
      GapIsLeast(|msg|, zeros);
      assert Zeros(zeros) + [0] == Zeros(zeros + 1);
      data := data + [0];
      zeros := zeros + 1;
    }
    GapIsLeast(|msg|, zeros);
    data := data + BigEndian(|msg| * 8, 8);
  }

  lemma Reversed(a: Word, b: Word, c: Word, d: Word)
    ensures SumOfFour(a, b, c, d) == SumOfFour(d, c, b, a)
  {
  }

  lemma ScheduleStep(block: seq<Byte>, t: nat)
    requires |block| == 64 && 16 <= t < 64
    ensures Schedule(block, t)
         == SumOfFour(SmallSigma1(Schedule(block, t - 2)), Schedule(block, t - 7),
                      SmallSigma0(Schedule(block, t - 15)), Schedule(block, t - 16))
  {
    hide SumOfFour, SmallSigma0, SmallSigma1, BigEndianWord;
  }

  lemma ScheduleLate(block: seq<Byte>, t: nat)
    requires |block| == 64 && 16 <= t < 64
    ensures Schedule(block, t)
         == SumOfFour(Schedule(block, t - 16), SmallSigma0(Schedule(block, t - 15)), Schedule(block, t - 7),
                      SmallSigma1(Schedule(block, t - 2)))
  {
    hide *;
    ScheduleStep(block, t);
    Reversed(SmallSigma1(Schedule(block, t - 2)), Schedule(block, t - 7),
              SmallSigma0(Schedule(block, t - 15)), Schedule(block, t - 16));
  }

  lemma ScheduleEarly(block: seq<Byte>, t: nat)
    requires |block| == 64 && t < 16
    ensures Schedule(block, t) == BigEndianWord(block[4 * t], block[4 * t + 1], block[4 * t + 2], block[4 * t + 3])
  {
  }

  /** Fills the message schedule in place. */
  method Expand(chunk: seq<Byte>) returns (w: array<Word>)
    requires |chunk| == 64
    ensures fresh(w) && w.Length == 64
    ensures forall t :: 0 <= t < 64 ==> w[t] == Schedule(chunk, t)
  {
    hide *;
    w := new Word[64](_ => 0);
    for i := 0 to 16
      invariant fresh(w)
      invariant forall t :: 0 <= t < i ==> w[t] == Schedule(chunk, t)
    {
      ScheduleEarly(chunk, i);
      w[i] := BigEndianWord(chunk[4 * i], chunk[4 * i + 1], chunk[4 * i + 2], chunk[4 * i + 3]);
    }
    for i := 16 to 64
      invariant fresh(w)
      invariant forall t :: 0 <= t < i ==> w[t] == Schedule(chunk, t)
    {
      ScheduleLate(chunk, i);
      var s0 := SmallSigma0(w[i - 15]);
      var s1 := SmallSigma1(w[i - 2]);
      w[i] := SumOfFour(w[i - 16], s0, w[i - 7], s1);
    }
  }

  lemma RoundsNone(v: Eight, block: seq<Byte>)
    requires |block| == 64
    ensures Rounds(v, block, 0) == v
  {
  }

  lemma RoundsMore(v: Eight, block: seq<Byte>, i: nat)
    requires |block| == 64 && i < 64 == |K|
    ensures Rounds(v, block, i + 1) == Round(Rounds(v, block, i), K[i], Schedule(block, i))
  {
    hide Schedule, Round;
  }

  lemma RoundShifts(v: Eight, k: Word, w: Word)
    ensures var t1 := Add(Add(Add(Add(v.h, BigSigma1(v.e)), Ch(v.e, v.f, v.g)), k), w);
            var t2 := Add(BigSigma0(v.a), Maj(v.a, v.b, v.c));
            Round(v, k, w) == Eight(Add(t1, t2), v.a, v.b, v.c, Add(v.d, t1), v.e, v.f, v.g)
  {
    hide Add, BigSigma0, BigSigma1, Ch, Maj;
  }

  lemma KLength()
    ensures |K| == 64
  {
  }

  /** Mixes one block into the hash value, shifting the eight working variables round by round. */
  method Compress(h: Eight, chunk: seq<Byte>) returns (r: Eight)
    requires |chunk| == 64
    ensures r == Sum(Rounds(h, chunk, 64), h)
  {
    hide *;
    KLength();
    var w := Expand(chunk);
    var a, b, c, d, e, f, g, hh := h.a, h.b, h.c, h.d, h.e, h.f, h.g, h.h;
    RoundsNone(h, chunk);
    for i := 0 to 64
      invariant forall t :: 0 <= t < 64 ==> w[t] == Schedule(chunk, t)
      invariant Eight(a, b, c, d, e, f, g, hh) == Rounds(h, chunk, i)
    {
      RoundsMore(h, chunk, i);
      RoundShifts(Eight(a, b, c, d, e, f, g, hh), K[i], w[i]);
      var s1 := BigSigma1(e);
      var ch := Ch(e, f, g);
      var t1 := Add(Add(Add(Add(hh, s1), ch), K[i]), w[i]);
      var s0 := BigSigma0(a);
      var maj := Maj(a, b, c);
      var t2 := Add(s0, maj);
      hh := g;
      g := f;
      f := e;
      e := Add(d, t1);
      d := c;
      c := b;
      b := a;
      a := Add(t1, t2);
    }
    r := Sum(Eight(a, b, c, d, e, f, g, hh), h);
  }

  lemma ChainNone(h: Eight)
    ensures Chain(h, []) == h
  {
  }

  lemma ChainMore(h: Eight, data: seq<Byte>)
    requires |data| % 64 == 0 && data != []
    ensures |data| >= 64 && |data[64..]| % 64 == 0
    ensures Chain(h, data) == Chain(Sum(Rounds(h, data[..64], 64), h), data[64..])
  {
  }

  method Digest(msg: seq<Byte>) returns (out: seq<Byte>)
    ensures out == Hash(msg)
  {
    hide *;
    var data := Pad(msg);
    PaddedLength(msg);
    var h := INITIAL;
    var at := 0;
    assert data[0..] == data;
    while at < |data|
      invariant at <= |data| && |data[at..]| % 64 == 0
      invariant Chain(INITIAL, data) == Chain(h, data[at..])
    {
      ChainMore(h, data[at..]);
      assert data[at..][..64] == data[at..at + 64] && data[at..][64..] == data[at + 64..];
      h := Compress(h, data[at..at + 64]);
      at := at + 64;
    }
    assert data[at..] == [];
    ChainNone(h);
    out := Spell(h);
    HashOf(msg);
  }

  lemma HashOf(msg: seq<Byte>)
    ensures |Padded(msg)| % 64 == 0 && Hash(msg) == Spell(Chain(INITIAL, Padded(msg)))
  {
    PaddedLength(msg);
  }
}
