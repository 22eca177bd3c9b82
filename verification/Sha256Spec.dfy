/**
 SHA-256 as FIPS 180-4 defines it: functions and constants (sections 4.1.2, 4.2.2, 5.3.3),
 padding (5.1.1) and the hash computation (6.2).
 */
module Sha256Spec {

  type Byte = bv8

  type Word = bv32

  /** The eight words of a hash value, and of the working variables. */
  datatype Words = Words(a: Word, b: Word, c: Word, d: Word, e: Word, f: Word, g: Word, h: Word)
  {
    function At(i: nat): Word
      requires i < 8
    {
      if i == 0 then a else if i == 1 then b else if i == 2 then c else if i == 3 then d
      else if i == 4 then e else if i == 5 then f else if i == 6 then g else h
    }
  }

  /** The constants of the 64 rounds, eight in a row. */
  const K: seq<Words> := [
    Words(0x428a2f98, 0x71374491, 0xb5c0fbcf, 0xe9b5dba5, 0x3956c25b, 0x59f111f1, 0x923f82a4, 0xab1c5ed5),
    Words(0xd807aa98, 0x12835b01, 0x243185be, 0x550c7dc3, 0x72be5d74, 0x80deb1fe, 0x9bdc06a7, 0xc19bf174),
    Words(0xe49b69c1, 0xefbe4786, 0x0fc19dc6, 0x240ca1cc, 0x2de92c6f, 0x4a7484aa, 0x5cb0a9dc, 0x76f988da),
    Words(0x983e5152, 0xa831c66d, 0xb00327c8, 0xbf597fc7, 0xc6e00bf3, 0xd5a79147, 0x06ca6351, 0x14292967),
    Words(0x27b70a85, 0x2e1b2138, 0x4d2c6dfc, 0x53380d13, 0x650a7354, 0x766a0abb, 0x81c2c92e, 0x92722c85),
    Words(0xa2bfe8a1, 0xa81a664b, 0xc24b8b70, 0xc76c51a3, 0xd192e819, 0xd6990624, 0xf40e3585, 0x106aa070),
    Words(0x19a4c116, 0x1e376c08, 0x2748774c, 0x34b0bcb5, 0x391c0cb3, 0x4ed8aa4a, 0x5b9cca4f, 0x682e6ff3),
    Words(0x748f82ee, 0x78a5636f, 0x84c87814, 0x8cc70208, 0x90befffa, 0xa4506ceb, 0xbef9a3f7, 0xc67178f2)
  ]

  function Constant(t: nat): Word
    requires t < 64
  {
    K[t / 8].At(t % 8)
  }

  const H0 := Words(0x6a09e667, 0xbb67ae85, 0x3c6ef372, 0xa54ff53a, 0x510e527f, 0x9b05688c, 0x1f83d9ab, 0x5be0cd19)

  /** Addition modulo 2^32. */
  function Plus(x: Word, y: Word): Word { x + y }

  function Ch(x: Word, y: Word, z: Word): Word { (x & y) ^ (!x & z) }

  function Maj(x: Word, y: Word, z: Word): Word { (x & y) ^ (x & z) ^ (y & z) }

  function RotR(n: bv8, x: Word): Word
    requires n < 32
  {
    (x >> n) | (x << (32 - n))
  }

  /** Ch has the bits of y where x is set and those of z elsewhere. */
  lemma ChChooses(x: Word, y: Word, z: Word)
    ensures Ch(x, y, z) & x == y & x && Ch(x, y, z) & !x == z & !x
  {
  }

  /** Maj has the bits of x where x and y agree and those of z elsewhere. */
  lemma MajIsMajority(x: Word, y: Word, z: Word)
    ensures Maj(x, y, z) & !(x ^ y) == x & !(x ^ y) && Maj(x, y, z) & (x ^ y) == z & (x ^ y)
  {
  }

  function BigSigma0(x: Word): Word { RotR(2, x) ^ RotR(13, x) ^ RotR(22, x) }

  function BigSigma1(x: Word): Word { RotR(6, x) ^ RotR(11, x) ^ RotR(25, x) }

  function SmallSigma0(x: Word): Word { RotR(7, x) ^ RotR(18, x) ^ (x >> 3) }

  function SmallSigma1(x: Word): Word { RotR(17, x) ^ RotR(19, x) ^ (x >> 10) }

  // ---------- padding ----------

  /** The low k bytes of n, most significant first. */
  function BigEndian(n: nat, k: nat): (s: seq<Byte>)
    ensures |s| == k
  {
    if k == 0 then [] else BigEndian(n / 256, k - 1) + [(n % 256) as Byte]
  }

  function Zeros(k: nat): (s: seq<Byte>)
    ensures |s| == k
  {
    if k == 0 then [] else Zeros(k - 1) + [0]
  }

  /** The least number of zero bytes after which eight more complete a block. */
  function ZeroBytes(length: nat): (k: nat)
    ensures k < 64 && (length + 1 + k) % 64 == 56
  {
    (119 - length % 64) % 64
  }

  function Pad(m: seq<Byte>): (p: seq<Byte>)
    ensures |p| % 64 == 0
  {
    PaddedLength(|m|, ZeroBytes(|m|));
    m + [0x80] + Zeros(ZeroBytes(|m|)) + BigEndian(8 * |m|, 8)
  }

  lemma PaddedLength(length: nat, k: nat)
    requires (length + 1 + k) % 64 == 56
    ensures (length + 1 + k + 8) % 64 == 0
  {
  }

  function StripZeros(s: seq<Byte>): seq<Byte>
  {
    if s != [] && s[|s| - 1] == 0 then StripZeros(s[..|s| - 1]) else s
  }

  function Unpad(p: seq<Byte>): seq<Byte>
  {
    if |p| < 8 then []
    else
      var s := StripZeros(p[..|p| - 8]);
      if s == [] then [] else s[..|s| - 1]
  }

  lemma {:induction false} StripAppendedZeros(s: seq<Byte>, k: nat)
    requires s != [] && s[|s| - 1] != 0
    ensures StripZeros(s + Zeros(k)) == s
  {
    if k == 0 {
      assert s + Zeros(0) == s;
    } else {
      var t := s + Zeros(k);
      assert t[..|t| - 1] == s + Zeros(k - 1);
      StripAppendedZeros(s, k - 1);
    }
  }

  /** Padding can be undone, so no two messages have the same padded form. */
  lemma UnpadUndoesPad(m: seq<Byte>)
    ensures Unpad(Pad(m)) == m
  {
    var s := m + [0x80];
    var p := Pad(m);
    assert p[..|p| - 8] == s + Zeros(ZeroBytes(|m|));
    StripAppendedZeros(s, ZeroBytes(|m|));
    assert s[..|s| - 1] == m;
  }

  // ---------- hash computation ----------

  function WordOf(b0: Byte, b1: Byte, b2: Byte, b3: Byte): Word
  {
    ((b0 as Word) << 24) | ((b1 as Word) << 16) | ((b2 as Word) << 8) | (b3 as Word)
  }

  /** The first n words of the message schedule of a block. */
  function Schedule(block: seq<Byte>, n: nat): (w: seq<Word>)
    requires |block| == 64
    ensures |w| == n
  {
    if n == 0 then []
    else
      var w := Schedule(block, n - 1);
      var t := n - 1;
      w + [if t < 16 then WordOf(block[4 * t], block[4 * t + 1], block[4 * t + 2], block[4 * t + 3])
           else Plus(Plus(Plus(SmallSigma1(w[t - 2]), w[t - 7]), SmallSigma0(w[t - 15])), w[t - 16])]
  }

  function Round(v: Words, k: Word, w: Word): Words
  {
    var t1 := Plus(Plus(Plus(Plus(v.h, BigSigma1(v.e)), Ch(v.e, v.f, v.g)), k), w);
    var t2 := Plus(BigSigma0(v.a), Maj(v.a, v.b, v.c));
    Words(Plus(t1, t2), v.a, v.b, v.c, Plus(v.d, t1), v.e, v.f, v.g)
  }

  /** The working variables after n rounds. */
  function Rounds(v: Words, w: seq<Word>, n: nat): Words
    requires n <= 64 <= |w|
  {
    if n == 0 then v else Round(Rounds(v, w, n - 1), Constant(n - 1), w[n - 1])
  }

  function AddWords(x: Words, y: Words): Words
  {
    Words(Plus(x.a, y.a), Plus(x.b, y.b), Plus(x.c, y.c), Plus(x.d, y.d),
          Plus(x.e, y.e), Plus(x.f, y.f), Plus(x.g, y.g), Plus(x.h, y.h))
  }

  function Compress(v: Words, block: seq<Byte>): Words
    requires |block| == 64
  {
    AddWords(v, Rounds(v, Schedule(block, 64), 64))
  }

  /** The hash value after all blocks of a padded message, or of a part of it. */
  function HashBlocks(bytes: seq<Byte>): Words
    requires |bytes| % 64 == 0
  {
    if bytes == [] then H0
    else
      var n := |bytes| - 64;
      Compress(HashBlocks(bytes[..n]), bytes[n..])
  }

  function ByteAt(w: Word, shift: nat): Byte
    requires shift < 32
  {
    ((w >> shift) & 0xff) as Byte
  }

  function BytesOf(w: Word): (s: seq<Byte>)
    ensures |s| == 4
  {
    [ByteAt(w, 24), ByteAt(w, 16), ByteAt(w, 8), ByteAt(w, 0)]
  }

  function Output(v: Words): (s: seq<Byte>)
    ensures |s| == 32
  {
    BytesOf(v.a) + BytesOf(v.b) + BytesOf(v.c) + BytesOf(v.d) + BytesOf(v.e) + BytesOf(v.f) + BytesOf(v.g) +
        BytesOf(v.h)
  }

  function Digest(m: seq<Byte>): seq<Byte>
  {
    Output(HashBlocks(Pad(m)))
  }
}
