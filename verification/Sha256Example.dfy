/**
 A published digest, worked through: that of the message of 448 bits among the examples that
 accompany FIPS 180-4, which takes two blocks. The tables hold the message schedule of each block,
 eight words in a row, and its working variables after every fourth round.

 The variables between two entries are parts of both, so that each round can be computed from
 values in the tables alone. Each lemma named after a row computes it; from them follows what the
 specification makes of the two blocks, and from that the digest. Any change to a constant, a
 rotation, the wiring of a round or the padding leads to other values.
 */
module Sha256Example {

  import opened Sha256Spec

  // ---------- eight at a time ----------

  /** The word of the schedule behind those that lie 16, 15, 7 and 2 before it. */
  function Mix(w16: Word, w15: Word, w7: Word, w2: Word): Word
  {
    Plus(Plus(Plus(SmallSigma1(w2), w7), SmallSigma0(w15)), w16)
  }

  /** z are the eight words of the schedule behind the eight of x and the eight of y. */
  predicate IsMixed(x: Words, y: Words, z: Words)
  {
    && z.a == Mix(x.a, x.b, y.b, y.g) && z.b == Mix(x.b, x.c, y.c, y.h)
    && z.c == Mix(x.c, x.d, y.d, z.a) && z.d == Mix(x.d, x.e, y.e, z.b)
    && z.e == Mix(x.e, x.f, y.f, z.c) && z.f == Mix(x.f, x.g, y.g, z.d)
    && z.g == Mix(x.g, x.h, y.h, z.e) && z.h == Mix(x.h, y.a, z.a, z.f)
  }

  lemma MixedWords(x: Words, y: Words, z: Words)
    requires z.a == Mix(x.a, x.b, y.b, y.g)
    requires z.b == Mix(x.b, x.c, y.c, y.h)
    requires z.c == Mix(x.c, x.d, y.d, z.a)
    requires z.d == Mix(x.d, x.e, y.e, z.b)
    requires z.e == Mix(x.e, x.f, y.f, z.c)
    requires z.f == Mix(x.f, x.g, y.g, z.d)
    requires z.g == Mix(x.g, x.h, y.h, z.e)
    requires z.h == Mix(x.h, y.a, z.a, z.f)
    ensures IsMixed(x, y, z)
  {
    hide Mix;
  }

  /** What is between v and the variables u four rounds later is in v and u. */
  function After1(v: Words, u: Words): Words { Words(u.d, v.a, v.b, v.c, u.h, v.e, v.f, v.g) }

  function After2(v: Words, u: Words): Words { Words(u.c, u.d, v.a, v.b, u.g, u.h, v.e, v.f) }

  function After3(v: Words, u: Words): Words { Words(u.b, u.c, u.d, v.a, u.f, u.g, u.h, v.e) }

  /** Eight rounds lead from v to x, and u is half-way. */
  predicate IsEight(v: Words, k: Words, w: Words, u: Words, x: Words)
  {
    && Round(v, k.a, w.a) == After1(v, u) && Round(After1(v, u), k.b, w.b) == After2(v, u)
    && Round(After2(v, u), k.c, w.c) == After3(v, u) && Round(After3(v, u), k.d, w.d) == u
    && Round(u, k.e, w.e) == After1(u, x) && Round(After1(u, x), k.f, w.f) == After2(u, x)
    && Round(After2(u, x), k.g, w.g) == After3(u, x) && Round(After3(u, x), k.h, w.h) == x
  }

  lemma EightRounds(v: Words, k: Words, w: Words, u: Words, x: Words)
    requires Round(v, k.a, w.a) == After1(v, u)
    requires Round(After1(v, u), k.b, w.b) == After2(v, u)
    requires Round(After2(v, u), k.c, w.c) == After3(v, u)
    requires Round(After3(v, u), k.d, w.d) == u
    requires Round(u, k.e, w.e) == After1(u, x)
    requires Round(After1(u, x), k.f, w.f) == After2(u, x)
    requires Round(After2(u, x), k.g, w.g) == After3(u, x)
    requires Round(After3(u, x), k.h, w.h) == x
    ensures IsEight(v, k, w, u, x)
  {
    hide Round, After1, After2, After3;
  }

  function RowOf(s: seq<Word>, i: nat): Words
    requires 8 * i + 8 <= |s|
  {
    var t := 8 * i;
    Words(s[t], s[t + 1], s[t + 2], s[t + 3], s[t + 4], s[t + 5], s[t + 6], s[t + 7])
  }

  function BlockRow(block: seq<Byte>, i: nat): Words
    requires |block| == 64 && i < 2
  {
    Words(BlockWord(block, 8 * i), BlockWord(block, 8 * i + 1), BlockWord(block, 8 * i + 2),
          BlockWord(block, 8 * i + 3), BlockWord(block, 8 * i + 4), BlockWord(block, 8 * i + 5),
          BlockWord(block, 8 * i + 6), BlockWord(block, 8 * i + 7))
  }

  function BlockWord(block: seq<Byte>, t: nat): Word
    requires |block| == 64 && t < 16
  {
    WordOf(block[4 * t], block[4 * t + 1], block[4 * t + 2], block[4 * t + 3])
  }

  /** The message schedule of section 6.2.2: its first words are those of the block, and every
      other one is made of words before it. */
  lemma {:induction false} ScheduleAt(block: seq<Byte>, n: nat, t: nat)
    requires |block| == 64 && t < n
    ensures var s := Schedule(block, n);
            s[t] == if t < 16 then BlockWord(block, t) else Mix(s[t - 16], s[t - 15], s[t - 7], s[t - 2])
  {
    hide WordOf, Plus, SmallSigma0, SmallSigma1;
    if t < n - 1 {
      ScheduleAt(block, n - 1, t);
    }
  }

  lemma FirstRows(block: seq<Byte>, i: nat)
    requires |block| == 64 && i < 2
    ensures RowOf(Schedule(block, 64), i) == BlockRow(block, i)
  {
    hide BlockWord, Schedule, Mix;
    forall t: nat | t < 16 ensures Schedule(block, 64)[t] == BlockWord(block, t) {
      ScheduleAt(block, 64, t);
    }
  }

  lemma OtherRows(block: seq<Byte>, i: nat)
    requires |block| == 64 && 2 <= i < 8
    ensures var s := Schedule(block, 64); IsMixed(RowOf(s, i - 2), RowOf(s, i - 1), RowOf(s, i))
  {
    hide Mix, BlockWord, Schedule;
    var t := 8 * i;
    ScheduleAt(block, 64, t);
    ScheduleAt(block, 64, t + 1);
    ScheduleAt(block, 64, t + 2);
    ScheduleAt(block, 64, t + 3);
    ScheduleAt(block, 64, t + 4);
    ScheduleAt(block, 64, t + 5);
    ScheduleAt(block, 64, t + 6);
    ScheduleAt(block, 64, t + 7);
  }

  lemma MixedOnce(x: Words, y: Words, z: Words, z': Words)
    requires IsMixed(x, y, z) && IsMixed(x, y, z')
    ensures z == z'
  {
    hide Mix;
  }

  lemma RoundsNext(v: Words, s: seq<Word>, n: nat)
    requires |s| == 64 && n < 64
    ensures Rounds(v, s, n + 1) == Round(Rounds(v, s, n), Constant(n), s[n])
  {
    hide Round, Constant;
  }

  lemma EightMore(v: Words, s: seq<Word>, i: nat, u: Words, x: Words)
    requires |s| == 64 && i < 8 && IsEight(Rounds(v, s, 8 * i), K[i], RowOf(s, i), u, x)
    ensures Rounds(v, s, 8 * i + 8) == x
  {
    hide Round, Rounds, Constant, K, IsEight;
    ConstantsAre(i);
    EightFrom(v, s, 8 * i, K[i], RowOf(s, i), u, x);
  }

  lemma EightFrom(v: Words, s: seq<Word>, n: nat, k: Words, w: Words, u: Words, x: Words)
    requires |s| == 64 && n <= 56 && IsEight(Rounds(v, s, n), k, w, u, x)
    requires k == Words(Constant(n), Constant(n + 1), Constant(n + 2), Constant(n + 3),
                        Constant(n + 4), Constant(n + 5), Constant(n + 6), Constant(n + 7))
    requires w == Words(s[n], s[n + 1], s[n + 2], s[n + 3], s[n + 4], s[n + 5], s[n + 6], s[n + 7])
    ensures Rounds(v, s, n + 8) == x
  {
    hide Round, Rounds, Constant, After1, After2, After3;
    RoundsNext(v, s, n);
    RoundsNext(v, s, n + 1);
    RoundsNext(v, s, n + 2);
    RoundsNext(v, s, n + 3);
    RoundsNext(v, s, n + 4);
    RoundsNext(v, s, n + 5);
    RoundsNext(v, s, n + 6);
    RoundsNext(v, s, n + 7);
  }

  lemma ConstantsAre(i: nat)
    requires i < 8
    ensures |K| == 8
    ensures var n := 8 * i;
            K[i] == Words(Constant(n), Constant(n + 1), Constant(n + 2), Constant(n + 3),
                          Constant(n + 4), Constant(n + 5), Constant(n + 6), Constant(n + 7))
  {
    hide K, Constant;
    ConstantAt(i, 0);
    ConstantAt(i, 1);
    ConstantAt(i, 2);
    ConstantAt(i, 3);
    ConstantAt(i, 4);
    ConstantAt(i, 5);
    ConstantAt(i, 6);
    ConstantAt(i, 7);
  }

  lemma ConstantAt(i: nat, j: nat)
    requires i < 8 && j < 8
    ensures |K| == 8 && Constant(8 * i + j) == K[i].At(j)
  {
    assert (8 * i + j) / 8 == i && (8 * i + j) % 8 == j;
  }

  /** The rows are those of the block's schedule. */
  ghost predicate AreRows(block: seq<Byte>, w: seq<Words>)
    requires |block| == 64
  {
    && |w| == 8 && w[0] == BlockRow(block, 0) && w[1] == BlockRow(block, 1)
    && forall i :: 2 <= i < 8 ==> IsMixed(w[i - 2], w[i - 1], w[i])
  }

  /** The working variables after each four rounds, from v[0] on. */
  ghost predicate AreVariables(v: seq<Words>, w: seq<Words>)
    requires |w| == 8
  {
    |v| == 17 && forall i :: 0 <= i < 8 ==> IsEight(v[2 * i], K[i], w[i], v[2 * i + 1], v[2 * i + 2])
  }

  lemma {:induction false} RowsAre(block: seq<Byte>, w: seq<Words>, i: nat)
    requires |block| == 64 && AreRows(block, w) && i < 8
    ensures RowOf(Schedule(block, 64), i) == w[i]
  {
    hide IsMixed, BlockRow, RowOf, Schedule;
    if i >= 2 {
      RowsAre(block, w, i - 2);
      RowsAre(block, w, i - 1);
      OtherRows(block, i);
      MixedOnce(w[i - 2], w[i - 1], w[i], RowOf(Schedule(block, 64), i));
    } else {
      FirstRows(block, i);
    }
  }

  lemma {:induction false} VariablesAre(block: seq<Byte>, w: seq<Words>, v: seq<Words>, i: nat)
    requires |block| == 64 && AreRows(block, w) && AreVariables(v, w) && i <= 8
    ensures Rounds(v[0], Schedule(block, 64), 8 * i) == v[2 * i]
  {
    hide IsEight, RowOf, Schedule, Rounds, K, IsMixed, BlockRow;
    if i > 0 {
      VariablesAre(block, w, v, i - 1);
      RowsAre(block, w, i - 1);
      EightMore(v[0], Schedule(block, 64), i - 1, v[2 * i - 1], v[2 * i]);
    } else {
      NoRounds(v[0], Schedule(block, 64));
    }
  }

  lemma NoRounds(v: Words, s: seq<Word>)
    requires |s| == 64
    ensures Rounds(v, s, 0) == v
  {
  }

  lemma CompressIs(block: seq<Byte>, w: seq<Words>, v: seq<Words>)
    requires |block| == 64 && AreRows(block, w) && AreVariables(v, w)
    ensures Compress(v[0], block) == AddWords(v[0], v[16])
  {
    hide Schedule, Rounds, AddWords;
    VariablesAre(block, w, v, 8);
  }

  // ---------- the padded message ----------

  /** Section 5.1.1: the message, a set bit, zeros and the length. */
  lemma PadAt(m: seq<Byte>, j: nat)
    requires j < |m| + 9 + ZeroBytes(|m|)
    ensures |Pad(m)| == |m| + 9 + ZeroBytes(|m|)
    ensures Pad(m)[j] == if j < |m| then m[j] else if j == |m| then 0x80 else if j < |Pad(m)| - 8 then 0
                         else BigEndian(8 * |m|, 8)[j - (|Pad(m)| - 8)]
  {
    hide ZeroBytes, BigEndian;
    if |m| < j < |Pad(m)| - 8 {
      ZerosAt(ZeroBytes(|m|), j - |m| - 1);
    }
  }

  lemma {:induction false} ZerosAt(k: nat, i: nat)
    requires i < k
    ensures Zeros(k)[i] == 0
  {
    if i < k - 1 {
      ZerosAt(k - 1, i);
    }
  }

  /** The 56 letters abcdbcdecdef...nopq: every fourth begins four successive ones. */
  function Message(): (m: seq<Byte>)
    ensures |m| == 56
  {
    seq(56, j requires 0 <= j < 56 => Letter(j / 4 + j % 4))
  }

  function Letter(k: nat): Byte
  {
    match k
    case 0 => 0x61 case 1 => 0x62 case 2 => 0x63 case 3 => 0x64 case 4 => 0x65 case 5 => 0x66
    case 6 => 0x67 case 7 => 0x68 case 8 => 0x69 case 9 => 0x6a case 10 => 0x6b case 11 => 0x6c
    case 12 => 0x6d case 13 => 0x6e case 14 => 0x6f case 15 => 0x70 case _ => 0x71
  }

  lemma LengthBytes()
    ensures BigEndian(448, 8) == [0, 0, 0, 0, 0, 0, 0x01, 0xc0]
  {
    assert BigEndian(0, 3) == [0, 0, 0];
    assert BigEndian(0, 6) == [0, 0, 0, 0, 0, 0];
    assert BigEndian(1, 7) == [0, 0, 0, 0, 0, 0, 0x01];
  }

  /** The bytes of the padded message. */
  function PaddedByte(j: nat): Byte
    requires j < 128
  {
    if j < 56 then Letter(j / 4 + j % 4) else if j == 56 then 0x80
    else if j == 126 then 0x01 else if j == 127 then 0xc0 else 0
  }

  function PaddedWord(t: nat): Word
    requires t < 32
  {
    WordOf(PaddedByte(4 * t), PaddedByte(4 * t + 1), PaddedByte(4 * t + 2), PaddedByte(4 * t + 3))
  }

  lemma LetterWord(t: nat)
    requires t < 14
    ensures PaddedWord(t) == WordOf(Letter(t), Letter(t + 1), Letter(t + 2), Letter(t + 3))
  {
    hide WordOf, Letter;
  }

  lemma BehindLetters()
    ensures PaddedWord(14) == 0x80000000 && PaddedWord(15) == 0
  {
  }

  function PaddedRow(r: nat): Words
    requires r < 4
  {
    var t := 8 * r;
    Words(PaddedWord(t), PaddedWord(t + 1), PaddedWord(t + 2), PaddedWord(t + 3),
          PaddedWord(t + 4), PaddedWord(t + 5), PaddedWord(t + 6), PaddedWord(t + 7))
  }

  lemma BlockRowIs(n: nat, i: nat)
    requires n < 2 && i < 2
    ensures |Pad(Message())| == 128
    ensures BlockRow(Pad(Message())[64 * n..64 * n + 64], i) == PaddedRow(2 * n + i)
  {
    hide Pad, Message, BlockWord, PaddedWord;
    BlockWordIs(n, 8 * i);
    BlockWordIs(n, 8 * i + 1);
    BlockWordIs(n, 8 * i + 2);
    BlockWordIs(n, 8 * i + 3);
    BlockWordIs(n, 8 * i + 4);
    BlockWordIs(n, 8 * i + 5);
    BlockWordIs(n, 8 * i + 6);
    BlockWordIs(n, 8 * i + 7);
  }

  lemma BlockWordIs(n: nat, t: nat)
    requires n < 2 && t < 16
    ensures |Pad(Message())| == 128
    ensures BlockWord(Pad(Message())[64 * n..64 * n + 64], t) == PaddedWord(16 * n + t)
  {
    hide Pad, Message, PaddedByte, WordOf;
    PaddedMessage();
  }

  lemma PaddedMessage()
    ensures |Pad(Message())| == 128 && forall j: nat :: j < 128 ==> Pad(Message())[j] == PaddedByte(j)
  {
    hide Pad, BigEndian, Letter;
    PadAt(Message(), 0);
    LengthBytes();
    forall j: nat | j < 128 ensures Pad(Message())[j] == PaddedByte(j) {
      PadAt(Message(), j);
    }
  }

  // ---------- its two blocks ----------

  /** The message schedule of the first block, and its working variables. */
  const W1: seq<Words> := [
    Words(0x61626364, 0x62636465, 0x63646566, 0x64656667, 0x65666768, 0x66676869, 0x6768696a, 0x68696a6b),
    Words(0x696a6b6c, 0x6a6b6c6d, 0x6b6c6d6e, 0x6c6d6e6f, 0x6d6e6f70, 0x6e6f7071, 0x80000000, 0x00000000),
    Words(0xeb8012ad, 0xa7c3ae92, 0x76e93ba2, 0xba42e743, 0x92a92204, 0xd847e75e, 0x9e160036, 0xb280a7cb),
    Words(0xddeb1516, 0xf36586f4, 0x969cd048, 0xe959d99d, 0x6accc0ec, 0xf54cb098, 0x2af1b2da, 0xee59c4c9),
    Words(0xa835e16a, 0x1dff4429, 0xd6e15959, 0xc397cd6e, 0x6f1801ca, 0x21574205, 0x35ff7a84, 0x9743ee78),
    Words(0xe44183e7, 0x0d09f00d, 0x9c89af54, 0x042d5bef, 0x71f134d0, 0x0f94f463, 0x7e49dc63, 0x6f65c997),
    Words(0x0b706583, 0x179312ca, 0x503054e9, 0xba125c39, 0x7e9392c9, 0xd5cbaa1e, 0x78e0585d, 0xf6e7611c),
    Words(0x8ac830ce, 0x8b47a303, 0xfd6e627f, 0x8c6e2c6a, 0x4001adf1, 0x1a3dd097, 0xa9df6f62, 0x6aa60a39)
  ]

  const V1: seq<Words> := [
    Words(0x6a09e667, 0xbb67ae85, 0x3c6ef372, 0xa54ff53a, 0x510e527f, 0x9b05688c, 0x1f83d9ab, 0x5be0cd19),
    Words(0x4a8d64d5, 0x97651825, 0x2f2d5fcf, 0x5d6aebb1, 0x6494841b, 0x62d5c49e, 0x4eb1cfce, 0xfa2a4606),
    Words(0xd237e6db, 0x485835b7, 0x55c8ef48, 0xf921c212, 0xa401d211, 0x39a5b2ca, 0x7ff91c94, 0x05c4f88a),
    Words(0x1762215c, 0xb8e2b4cb, 0x3a474b2b, 0x359f2bce, 0xee1c97a8, 0x443ed29e, 0x9037b3b8, 0xc09ffec4),
    Words(0xc3486194, 0xdd16cbb3, 0xd68e6457, 0x101a4861, 0x1496a54f, 0x9162aded, 0x9243f8af, 0x839a0fc9),
    Words(0x2139187b, 0xf402f058, 0x046a193e, 0xb9dcacb1, 0x7c304206, 0x6f433549, 0x885370b6, 0xd4f64250),
    Words(0x59fce6b9, 0xae2e2d4f, 0x1b2b66b8, 0xd70ac17d, 0xa2c7d51d, 0xf074fc95, 0xd560b028, 0x7cc6b262),
    Words(0x73f858af, 0x128661da, 0x573221da, 0x4a885065, 0xe77c797f, 0x1162d575, 0x36e74eb4, 0x763597fb),
    Words(0x5581ab07, 0xeb43f3ed, 0xdf7151a0, 0x74bcf468, 0xdf980085, 0x0635d880, 0x7629c961, 0x72abaecd),
    Words(0x0786dce8, 0x1df8e885, 0x9ce5a62f, 0x9fc905c8, 0xde2a21d1, 0x2a9e048e, 0x6ef3b6bd, 0xa94d2af1),
    Words(0x7e4d30b8, 0x91ac9d5d, 0xa985b4be, 0x2c55d3a6, 0x9f5b9b6d, 0x68d8d590, 0xf72bf353, 0xb067c1af),
    Words(0x167361de, 0xb62c7013, 0x508a16ab, 0x7e056794, 0x41dd3844, 0x80a92a00, 0x45459d97, 0x423b26c0),
    Words(0x13d82741, 0x165be9cd, 0x18f0d19d, 0xde71e2f2, 0xa7802a4d, 0xa483f080, 0x6b88472c, 0xff61c636),
    Words(0x81c1cde0, 0x758ca97a, 0x543c99a1, 0x017b9d99, 0x5c47eb7b, 0x100cf2ea, 0x16f134b6, 0xaeb10b60),
    Words(0x9e57c4a0, 0xf907b313, 0x1d6de87a, 0xb8d55619, 0xeec13548, 0x61a41711, 0x3443bed4, 0x1c806a61),
    Words(0xe18f259a, 0x921fccb6, 0x7c015a2c, 0x71629856, 0x51e15869, 0x43d8a034, 0xcb9d3dd0, 0x2f6c8c4e),
    Words(0x1bdc6f6f, 0x86126910, 0xf6f443f8, 0xbcfce922, 0x25d2430a, 0x2fc08f85, 0xacc75916, 0x962d8621)
  ]

  lemma Mixed1Rows2()
    ensures IsMixed(W1[0], W1[1], W1[2])
    ensures IsMixed(W1[1], W1[2], W1[3])
    ensures IsMixed(W1[2], W1[3], W1[4])
  {
    hide IsMixed;
    MixedWords(W1[0], W1[1], W1[2]);
    MixedWords(W1[1], W1[2], W1[3]);
    MixedWords(W1[2], W1[3], W1[4]);
  }

  lemma Mixed1Rows5()
    ensures IsMixed(W1[3], W1[4], W1[5])
    ensures IsMixed(W1[4], W1[5], W1[6])
    ensures IsMixed(W1[5], W1[6], W1[7])
  {
    hide IsMixed;
    MixedWords(W1[3], W1[4], W1[5]);
    MixedWords(W1[4], W1[5], W1[6]);
    MixedWords(W1[5], W1[6], W1[7]);
  }

  lemma Rounds1Row0()
    ensures IsEight(V1[0], K[0], W1[0], V1[1], V1[2])
  {
    hide IsEight;
    EightRounds(V1[0], K[0], W1[0], V1[1], V1[2]);
  }

  lemma Rounds1Row1()
    ensures IsEight(V1[2], K[1], W1[1], V1[3], V1[4])
  {
    hide IsEight;
    EightRounds(V1[2], K[1], W1[1], V1[3], V1[4]);
  }

  lemma Rounds1Row2()
    ensures IsEight(V1[4], K[2], W1[2], V1[5], V1[6])
  {
    hide IsEight;
    EightRounds(V1[4], K[2], W1[2], V1[5], V1[6]);
  }

  lemma Rounds1Row3()
    ensures IsEight(V1[6], K[3], W1[3], V1[7], V1[8])
  {
    hide IsEight;
    EightRounds(V1[6], K[3], W1[3], V1[7], V1[8]);
  }

  lemma Rounds1Row4()
    ensures IsEight(V1[8], K[4], W1[4], V1[9], V1[10])
  {
    hide IsEight;
    EightRounds(V1[8], K[4], W1[4], V1[9], V1[10]);
  }

  lemma Rounds1Row5()
    ensures IsEight(V1[10], K[5], W1[5], V1[11], V1[12])
  {
    hide IsEight;
    EightRounds(V1[10], K[5], W1[5], V1[11], V1[12]);
  }

  lemma Rounds1Row6()
    ensures IsEight(V1[12], K[6], W1[6], V1[13], V1[14])
  {
    hide IsEight;
    EightRounds(V1[12], K[6], W1[6], V1[13], V1[14]);
  }

  lemma Rounds1Row7()
    ensures IsEight(V1[14], K[7], W1[7], V1[15], V1[16])
  {
    hide IsEight;
    EightRounds(V1[14], K[7], W1[7], V1[15], V1[16]);
  }

  lemma Padded1Row0()
    ensures W1[0] == PaddedRow(0)
  {
    hide PaddedWord;
    LetterWord(0);
    LetterWord(1);
    LetterWord(2);
    LetterWord(3);
    LetterWord(4);
    LetterWord(5);
    LetterWord(6);
    LetterWord(7);
  }

  lemma Padded1Row1()
    ensures W1[1] == PaddedRow(1)
  {
    hide PaddedWord;
    LetterWord(8);
    LetterWord(9);
    LetterWord(10);
    LetterWord(11);
    LetterWord(12);
    LetterWord(13);
    BehindLetters();
  }

  lemma FirstRows1()
    ensures |Pad(Message())| == 128
    ensures var block := Pad(Message())[0..64];
            W1[0] == BlockRow(block, 0) && W1[1] == BlockRow(block, 1)
  {
    hide Pad, Message, PaddedRow, BlockRow, W1;
    BlockRowIs(0, 0);
    BlockRowIs(0, 1);
    Padded1Row0();
    Padded1Row1();
  }

  lemma Compressed1()
    ensures |Pad(Message())| == 128
    ensures Compress(V1[0], Pad(Message())[0..64]) == AddWords(V1[0], V1[16])
  {
    FirstRows1();
    Mixed1Rows2();
    Mixed1Rows5();
    Rounds1Row0();
    Rounds1Row1();
    Rounds1Row2();
    Rounds1Row3();
    Rounds1Row4();
    Rounds1Row5();
    Rounds1Row6();
    Rounds1Row7();
    hide Pad, IsMixed, IsEight, K, BlockRow, AddWords, Compress;
    CompressIs(Pad(Message())[0..64], W1, V1);
  }

  /** The message schedule of the second block, and its working variables. */
  const W2: seq<Words> := [
    Words(0x00000000, 0x00000000, 0x00000000, 0x00000000, 0x00000000, 0x00000000, 0x00000000, 0x00000000),
    Words(0x00000000, 0x00000000, 0x00000000, 0x00000000, 0x00000000, 0x00000000, 0x00000000, 0x000001c0),
    Words(0x00000000, 0x00d80000, 0x00000000, 0x00003677, 0x00000000, 0x1df5600d, 0x000001c0, 0x1c00501c),
    Words(0x01b00000, 0x220a8d94, 0x0000a365, 0x177017e7, 0x63d38035, 0x090ab713, 0x4c7539ca, 0x0f19a8c9),
    Words(0x5df4b0c4, 0xe257036a, 0xc97bb6f1, 0xc5b46f4d, 0xf8253c4e, 0xa558d189, 0x78696285, 0xed07117f),
    Words(0x107358f6, 0x390ae496, 0x565010a2, 0xc51d7d44, 0x9e74c972, 0x6614b561, 0x30fc129d, 0x9ac684a8),
    Words(0x2b658dbd, 0xe290f793, 0x9eebb24c, 0x9713b5de, 0x41061ab7, 0xe022e23b, 0x0772079e, 0x7de22d9c),
    Words(0xc8b83778, 0x75a79849, 0xd93dbddb, 0x0a036c9d, 0xcb4f6ac6, 0x823f97e2, 0xea2f2a7a, 0xb9018b52)
  ]

  const V2: seq<Words> := [
    Words(0x85e655d6, 0x417a1795, 0x3363376a, 0x624cde5c, 0x76e09589, 0xcac5f811, 0xcc4b32c1, 0xf20e533a),
    Words(0xf268faa9, 0xfd1eebdc, 0x7c3c0f86, 0x7c20c838, 0xe20362ef, 0xaf71b9ea, 0x8c51be64, 0x4670ae6e),
    Words(0xbf9a93a0, 0x89bba3f1, 0x3eeb6c06, 0x185a5d79, 0x059abdd1, 0x0a34df03, 0xfe20cda6, 0x8dff3001),
    Words(0x5eb4ec40, 0x5b35025b, 0x2d964e86, 0x2c096744, 0xe11b4548, 0x10e77723, 0xaa27ed82, 0xabfa465b),
    Words(0x16a8cc79, 0x0cea5cbc, 0xd74080fa, 0x35ee996d, 0x0fcb1f6f, 0x60356548, 0x68aa893f, 0x5c24e2a2),
    Words(0x76f1a2bc, 0xdcff40fd, 0x23dcb6c2, 0xf16f634e, 0x0dc84bb1, 0x69bf7b95, 0xca9182d3, 0x8b21cdc1),
    Words(0xa4195b91, 0xf13ae55b, 0xd44dc81a, 0x20aad899, 0xeddbd6ed, 0x966aa287, 0x5bace62d, 0xcc4769f2),
    Words(0x0d936bab, 0x9450fbbc, 0xaa6cb982, 0x4984fa79, 0x6e495d4b, 0x09166dda, 0x0b5eeea4, 0xa530d939),
    Words(0xb0eab1c5, 0x02ef3a5f, 0x1cfa5eb0, 0xd958b529, 0xf6d93952, 0x5da10665, 0x6c49db9f, 0xc2fa99b1),
    Words(0xecde4e0d, 0x9907f1b6, 0x4bd1df96, 0x0bfba73c, 0x5dc119e6, 0x66c3043d, 0x905e44ac, 0x8b99e3a9),
    Words(0x221b8a5a, 0xadca7a96, 0xd949682b, 0x2f11c939, 0x0b82c5eb, 0xc6cce4ff, 0x32d99008, 0xfed4ce1d),
    Words(0xf2ad6322, 0x8300fca2, 0x2c794876, 0x12d97845, 0xcc48c7f3, 0xe0e3457c, 0xff6759ba, 0xe4213ca2),
    Words(0xd7354d5b, 0x0b3303a7, 0x104a7db4, 0x0f154e11, 0xaad55b6b, 0xbbe1c39a, 0x5348e8f6, 0x6f9517cb),
    Words(0x1a6bcf6a, 0xd8aabcf9, 0x2748e5ec, 0xb736d7a6, 0xff5e99d0, 0x27844711, 0xd4b58576, 0x68f25260),
    Words(0x92952710, 0xd9f0c115, 0xec02560a, 0x4eca6fa0, 0x226806d6, 0x624150c4, 0x7151df8e, 0x989ed071),
    Words(0x1c4cddd9, 0x286fe5f0, 0x4348eb1f, 0x20d4d0e4, 0xf487a853, 0x54076664, 0xc21eddf9, 0x4e515a4d),
    Words(0x9ea7148b, 0x908c2123, 0xb25cef29, 0xa9f181dd, 0x2c5c4ed0, 0x9a392956, 0x2aa1bb13, 0x27ccb387)
  ]

  lemma Mixed2Rows2()
    ensures IsMixed(W2[0], W2[1], W2[2])
    ensures IsMixed(W2[1], W2[2], W2[3])
    ensures IsMixed(W2[2], W2[3], W2[4])
  {
    hide IsMixed;
    MixedWords(W2[0], W2[1], W2[2]);
    MixedWords(W2[1], W2[2], W2[3]);
    MixedWords(W2[2], W2[3], W2[4]);
  }

  lemma Mixed2Rows5()
    ensures IsMixed(W2[3], W2[4], W2[5])
    ensures IsMixed(W2[4], W2[5], W2[6])
    ensures IsMixed(W2[5], W2[6], W2[7])
  {
    hide IsMixed;
    MixedWords(W2[3], W2[4], W2[5]);
    MixedWords(W2[4], W2[5], W2[6]);
    MixedWords(W2[5], W2[6], W2[7]);
  }

  lemma Rounds2Row0()
    ensures IsEight(V2[0], K[0], W2[0], V2[1], V2[2])
  {
    hide IsEight;
    EightRounds(V2[0], K[0], W2[0], V2[1], V2[2]);
  }

  lemma Rounds2Row1()
    ensures IsEight(V2[2], K[1], W2[1], V2[3], V2[4])
  {
    hide IsEight;
    EightRounds(V2[2], K[1], W2[1], V2[3], V2[4]);
  }

  lemma Rounds2Row2()
    ensures IsEight(V2[4], K[2], W2[2], V2[5], V2[6])
  {
    hide IsEight;
    EightRounds(V2[4], K[2], W2[2], V2[5], V2[6]);
  }

  lemma Rounds2Row3()
    ensures IsEight(V2[6], K[3], W2[3], V2[7], V2[8])
  {
    hide IsEight;
    EightRounds(V2[6], K[3], W2[3], V2[7], V2[8]);
  }

  lemma Rounds2Row4()
    ensures IsEight(V2[8], K[4], W2[4], V2[9], V2[10])
  {
    hide IsEight;
    EightRounds(V2[8], K[4], W2[4], V2[9], V2[10]);
  }

  lemma Rounds2Row5()
    ensures IsEight(V2[10], K[5], W2[5], V2[11], V2[12])
  {
    hide IsEight;
    EightRounds(V2[10], K[5], W2[5], V2[11], V2[12]);
  }

  lemma Rounds2Row6()
    ensures IsEight(V2[12], K[6], W2[6], V2[13], V2[14])
  {
    hide IsEight;
    EightRounds(V2[12], K[6], W2[6], V2[13], V2[14]);
  }

  lemma Rounds2Row7()
    ensures IsEight(V2[14], K[7], W2[7], V2[15], V2[16])
  {
    hide IsEight;
    EightRounds(V2[14], K[7], W2[7], V2[15], V2[16]);
  }

  lemma Padded2Row0()
    ensures W2[0] == PaddedRow(2)
  {
  }

  lemma Padded2Row1()
    ensures W2[1] == PaddedRow(3)
  {
  }

  lemma FirstRows2()
    ensures |Pad(Message())| == 128
    ensures var block := Pad(Message())[64..128];
            W2[0] == BlockRow(block, 0) && W2[1] == BlockRow(block, 1)
  {
    hide Pad, Message, PaddedRow, BlockRow, W2;
    BlockRowIs(1, 0);
    BlockRowIs(1, 1);
    Padded2Row0();
    Padded2Row1();
  }

  lemma Compressed2()
    ensures |Pad(Message())| == 128
    ensures Compress(V2[0], Pad(Message())[64..128]) == AddWords(V2[0], V2[16])
  {
    FirstRows2();
    Mixed2Rows2();
    Mixed2Rows5();
    Rounds2Row0();
    Rounds2Row1();
    Rounds2Row2();
    Rounds2Row3();
    Rounds2Row4();
    Rounds2Row5();
    Rounds2Row6();
    Rounds2Row7();
    hide Pad, IsMixed, IsEight, K, BlockRow, AddWords, Compress;
    CompressIs(Pad(Message())[64..128], W2, V2);
  }

  // ---------- its digest ----------

  const HASH :=
    Words(0x248d6a61, 0xd20638b8, 0xe5c02693, 0x0c3e6039, 0xa33ce459, 0x64ff2167, 0xf6ecedd4, 0x19db06c1)

  lemma Sums()
    ensures V1[0] == H0 && AddWords(V1[0], V1[16]) == V2[0]
    ensures AddWords(V2[0], V2[16]) == HASH
  {
  }

  lemma MessageHash()
    ensures HashBlocks(Pad(Message())) == HASH
  {
    Compressed1();
    Compressed2();
    Sums();
    hide Pad, Message, V1, V2, AddWords, Compress;
    var p := Pad(Message());
    TwoBlocks(p);
  }

  lemma TwoBlocks(p: seq<Byte>)
    requires |p| == 128
    ensures HashBlocks(p) == Compress(Compress(H0, p[0..64]), p[64..128])
  {
    hide Compress;
    var q := p[..64];
    assert q[..0] == [] && q[0..] == p[0..64] && p[64..] == p[64..128];
    assert HashBlocks(q) == Compress(HashBlocks(q[..0]), q[0..]);
  }

  lemma Outputs()
    ensures BytesOf(0x248d6a61) == [0x24, 0x8d, 0x6a, 0x61]
    ensures BytesOf(0xd20638b8) == [0xd2, 0x06, 0x38, 0xb8]
    ensures BytesOf(0xe5c02693) == [0xe5, 0xc0, 0x26, 0x93]
    ensures BytesOf(0x0c3e6039) == [0x0c, 0x3e, 0x60, 0x39]
    ensures BytesOf(0xa33ce459) == [0xa3, 0x3c, 0xe4, 0x59]
    ensures BytesOf(0x64ff2167) == [0x64, 0xff, 0x21, 0x67]
    ensures BytesOf(0xf6ecedd4) == [0xf6, 0xec, 0xed, 0xd4]
    ensures BytesOf(0x19db06c1) == [0x19, 0xdb, 0x06, 0xc1]
  {
    ByteAtIs();
    hide ByteAt;
  }

  lemma ByteAtIs()
    ensures forall w: Word :: ByteAt(w, 24) == (w >> 24) as Byte
    ensures forall w: Word :: ByteAt(w, 16) == ((w >> 16) & 0xff) as Byte
    ensures forall w: Word :: ByteAt(w, 8) == ((w >> 8) & 0xff) as Byte
    ensures forall w: Word :: ByteAt(w, 0) == (w & 0xff) as Byte
  {
  }

  lemma MessageDigest()
    ensures Digest(Message()) == [
              0x24, 0x8d, 0x6a, 0x61, 0xd2, 0x06, 0x38, 0xb8, 0xe5, 0xc0, 0x26, 0x93, 0x0c, 0x3e, 0x60, 0x39,
              0xa3, 0x3c, 0xe4, 0x59, 0x64, 0xff, 0x21, 0x67, 0xf6, 0xec, 0xed, 0xd4, 0x19, 0xdb, 0x06, 0xc1
            ]
  {
    MessageHash();
    Outputs();
    hide HashBlocks, Pad, Message, BytesOf;
  }
}
