/**
 The streaming SHA-256 of rcutils: a 64-byte buffer, a bit counter and eight state words that
 are updated in place. The ghost field fed holds everything passed to Update so far.

 Whatever pieces a message is passed in, the state is the hash of all blocks completed so far, the
 buffer holds the bytes behind them, and the bit counter is that of the completed blocks, so that
 padding the buffer ends in the digest of the whole message.
 */
module Sha256 {
  import opened Spec = Sha256Spec

  const BIT_COUNTER := 0x1_0000_0000_0000_0000  // bitlen is a 64-bit counter

  function Concat(chunks: seq<seq<Byte>>): seq<Byte>
  {
    if chunks == [] then [] else Concat(chunks[..|chunks| - 1]) + chunks[|chunks| - 1]
  }

  class Context {
    var data: array<Byte>
    var datalen: nat
    var bitlen: nat
    var state: array<Word>
    ghost var fed: seq<Byte>

    ghost predicate Shape()
      reads this
    {
      data.Length == 64 && state.Length == 8
    }

    ghost function StateWords(): Words
      reads this, state
      requires Shape()
    {
      Words(state[0], state[1], state[2], state[3], state[4], state[5], state[6], state[7])
    }

    ghost predicate Valid()
      reads this, data, state
    {
      && Shape()
      && datalen == |fed| % 64
      && Whole() + data[..datalen] == fed
      && bitlen == 8 * |Whole()| % BIT_COUNTER
      && StateWords() == HashBlocks(Whole())
    }

    /** The complete blocks of what has been fed; the rest is in the buffer. */
    ghost function Whole(): (s: seq<Byte>)
      reads this
      ensures |s| % 64 == 0
    {
      fed[..|fed| - |fed| % 64]
    }

    constructor ()
      ensures Valid() && fed == [] && fresh(data) && fresh(state)
    {
      datalen, bitlen, fed := 0, 0, [];
      data := new Byte[64](_ => 0);
      state := new Word[8] [0x6a09e667, 0xbb67ae85, 0x3c6ef372, 0xa54ff53a, 0x510e527f, 0x9b05688c, 0x1f83d9ab,
          0x5be0cd19];
    }

    /** Works the 64 buffered bytes into the state. */
    method Transform()
      requires Shape()
      modifies state
      ensures StateWords() == Compress(old(StateWords()), data[..])
    {
      hide Plus, Rounds, Schedule;
      var m := Prepare();
      var v := RunRounds(m);
      state[0], state[1] := Plus(state[0], v.a), Plus(state[1], v.b);
      state[2], state[3] := Plus(state[2], v.c), Plus(state[3], v.d);
      state[4], state[5] := Plus(state[4], v.e), Plus(state[5], v.f);
      state[6], state[7] := Plus(state[6], v.g), Plus(state[7], v.h);
    }

    /** The same, behind the blocks worked in before. */
    method TransformAfter(ghost whole: seq<Byte>)
      requires Shape() && |whole| % 64 == 0 && StateWords() == HashBlocks(whole)
      modifies state
      ensures StateWords() == HashBlocks(whole + data[..])
    {
      hide HashBlocks, Compress;
      OneMoreBlock(whole, data[..]);
      Transform();
    }

    method Prepare() returns (m: array<Word>)
      requires Shape()
      ensures fresh(m) && m.Length == 64 && m[..] == Schedule(data[..], 64)
    {
      hide Plus, SmallSigma0, SmallSigma1, WordOf;
      m := new Word[64](_ => 0);
      var i, j := 0, 0;
      while i < 16
        invariant 0 <= i <= 16 && j == 4 * i && m[..i] == Schedule(data[..], i)
      {
        m[i] := WordOf(data[j], data[j + 1], data[j + 2], data[j + 3]);
        assert m[..i + 1] == m[..i] + [m[i]];
        i, j := i + 1, j + 4;
      }
      Expand(m);
      assert m[..64] == m[..];
    }

    method Expand(m: array<Word>)
      requires Shape() && m.Length == 64 && m[..16] == Schedule(data[..], 16)
      modifies m
      ensures m[..64] == Schedule(data[..], 64)
    {
      hide Plus, SmallSigma0, SmallSigma1, WordOf;
      ghost var block := data[..];
      var i := 16;
      while i < 64
        invariant 16 <= i <= 64 && m[..i] == Schedule(block, i)
      {
        assert forall x :: 0 <= x < i ==> m[x] == Schedule(block, i)[x];
        m[i] := Plus(Plus(Plus(SmallSigma1(m[i - 2]), m[i - 7]), SmallSigma0(m[i - 15])), m[i - 16]);
        assert m[..i + 1] == m[..i] + [m[i]];
        i := i + 1;
      }
    }

    method RunRounds(m: array<Word>) returns (v: Words)
      requires Shape() && m.Length == 64
      ensures v == Rounds(StateWords(), m[..], 64)
    {
      hide Plus, BigSigma0, BigSigma1, Ch, Maj, Constant;
      var a, b, c, d := state[0], state[1], state[2], state[3];
      var e, f, g, h := state[4], state[5], state[6], state[7];
      var i := 0;
      while i < 64
        invariant 0 <= i <= 64 && Words(a, b, c, d, e, f, g, h) == Rounds(StateWords(), m[..], i)
      {
        var t1 := Plus(Plus(Plus(Plus(h, BigSigma1(e)), Ch(e, f, g)), Constant(i)), m[i]);
        var t2 := Plus(BigSigma0(a), Maj(a, b, c));
        h := g;
        g := f;
        f := e;
        e := Plus(d, t1);
        d := c;
        c := b;
        b := a;
        a := Plus(t1, t2);
        i := i + 1;
      }
      v := Words(a, b, c, d, e, f, g, h);
    }

    method Update(input: seq<Byte>)
      requires Valid()
      modifies this, data, state
      ensures Valid() && data == old(data) && state == old(state)
      ensures fed == old(fed) + input
    {
      hide HashBlocks, Compress;
      var i := 0;
      while i < |input|
        invariant 0 <= i <= |input| && Valid() && data == old(data) && state == old(state)
        invariant fed == old(fed) + input[..i]
      {
        var remaining := |input| - i;
        var room := 64 - datalen;
        var n := if room < remaining then room else remaining;
        n := if n < 64 then n else 64;
        Absorb(input[i..i + n]);
        i := i + n;
      }
      assert input[..i] == input;
    }

    /** Appends to the buffer what fits there, and works the block in when it is complete. */
    method Absorb(piece: seq<Byte>)
      requires Valid() && 0 < |piece| <= 64 - datalen
      modifies this, data, state
      ensures Valid() && data == old(data) && state == old(state)
      ensures fed == old(fed) + piece
    {
      hide HashBlocks, Compress;
      ghost var whole := Whole();
      ghost var buffered := data[..datalen];
      forall x | 0 <= x < |piece| {
        data[datalen + x] := piece[x];
      }
      fed := fed + piece;
      datalen := datalen + |piece|;
      assert data[..datalen] == buffered + piece;
      assert fed == whole + data[..datalen];
      BlockBoundary(whole, data[..datalen]);
      if datalen >= 64 {
        assert data[..64] == data[..];
        CompleteBlock(whole);
      } else {
        assert Whole() == whole;
      }
    }

    method CompleteBlock(ghost whole: seq<Byte>)
      requires Shape() && |whole| % 64 == 0 && fed == whole + data[..]
      requires bitlen == 8 * |whole| % BIT_COUNTER && StateWords() == HashBlocks(whole)
      modifies state, this`bitlen, this`datalen
      ensures Valid()
    {
      hide HashBlocks, Compress;
      OneMoreBlock(whole, data[..]);
      Transform();
      bitlen := (bitlen + 512) % BIT_COUNTER;
      datalen := 0;
      assert Whole() == fed;
    }

    /** Pads, works in the last one or two blocks and writes out the digest. */
    method Final(output: array<Byte>)
      requires Valid() && output.Length == 32 && output != data
      requires 8 * |fed| < BIT_COUNTER
      modifies this, data, state, output
      ensures output[..] == Digest(fed) && fed == old(fed)
    {
      LastBlocks();
      hide *;
      WriteOutput(output);
      DigestIs(fed);
    }

    /** Pads with the length of the message and works the last one or two blocks in. */
    method LastBlocks()
      requires Valid() && 8 * |fed| < BIT_COUNTER
      modifies this`bitlen, data, state
      ensures Shape() && StateWords() == HashBlocks(Pad(fed))
    {
      hide HashBlocks, Compress, Zeros, BigEndian, Output, Pad;
      ghost var whole := PadBuffer();
      bitlen := (bitlen + datalen * 8) % BIT_COUNTER;
      WriteLength();
      TransformAfter(whole);
      assert whole + data[..] == (whole + data[..56]) + data[56..];
    }

    /** Appends the one bit and the zeros, working in a block when the length no longer fits;
        afterwards whole followed by the first 56 buffered bytes is the padded message up to its length. */
    method PadBuffer() returns (ghost whole: seq<Byte>)
      requires Valid()
      modifies data, state
      ensures |whole| % 64 == 0 && StateWords() == HashBlocks(whole)
      ensures whole + data[..56] + BigEndian(8 * |fed|, 8) == Pad(fed)
    {
      hide HashBlocks, Compress, Zeros, BigEndian, ZeroBytes, Pad;
      ghost var rest := data[..datalen];
      PadInBlocks(Whole(), rest);
      if datalen < 56 {
        whole := Whole();
        AppendOneBit(56);
      } else {
        whole := Whole() + (rest + [0x80] + Zeros(63 - datalen));
        ghost var before := Whole();
        AppendOneBit(64);
        assert data[..64] == data[..];
        TransformAfter(before);
        FillZeros(0, 56);
        ZerosAre(data[..56]);
        ZerosSplit(63 - datalen, 56);
        assert rest + [0x80] + Zeros(63 - datalen) + Zeros(56) == rest + [0x80] + Zeros(119 - datalen);
      }
    }

    /** 0x80 behind the buffered bytes, and zeros from there up to a position. */
    method AppendOneBit(end: nat)
      requires Shape() && datalen < end <= 64
      modifies data
      ensures data[..end] == old(data[..datalen]) + [0x80] + Zeros(end - datalen - 1)
    {
      hide Zeros;
      var i := datalen;
      data[i] := 0x80;
      i := i + 1;
      FillZeros(i, end);
      ZerosAre(data[i..end]);
      assert data[..end] == data[..i] + data[i..end];
    }

    method FillZeros(from: nat, to: nat)
      requires Shape() && from <= to <= 64
      modifies data
      ensures forall x :: from <= x < to ==> data[x] == 0
      ensures forall x :: 0 <= x < 64 && !(from <= x < to) ==> data[x] == old(data[x])
    {
      forall x | from <= x < to {
        data[x] := 0;
      }
    }

    method WriteLength()
      requires Shape() && bitlen < BIT_COUNTER
      modifies data
      ensures data[..56] == old(data[..56]) && data[56..] == BigEndian(bitlen, 8)
    {
      hide BigEndian, CounterByte;
      data[63] := CounterByte(bitlen, 0);
      data[62] := CounterByte(bitlen, 1);
      data[61] := CounterByte(bitlen, 2);
      data[60] := CounterByte(bitlen, 3);
      data[59] := CounterByte(bitlen, 4);
      data[58] := CounterByte(bitlen, 5);
      data[57] := CounterByte(bitlen, 6);
      data[56] := CounterByte(bitlen, 7);
      forall i | 0 <= i < 8 ensures data[56 + i] == BigEndian(bitlen, 8)[i] {
        BigEndianAt(bitlen, 8, i);
      }
    }

    method WriteColumn(output: array<Byte>, i: nat)
      requires Shape() && output.Length == 32 && i < 4
      modifies output
      ensures HasColumn(output[..], StateWords(), i)
      ensures forall x :: 0 <= x < 4 && x != i ==>
                HasColumn(old(output[..]), StateWords(), x) ==> HasColumn(output[..], StateWords(), x)
    {
      hide ByteAt;
      var shift := 24 - i * 8;
      output[i + 0], output[i + 4] := ByteAt(state[0], shift), ByteAt(state[1], shift);
      output[i + 8], output[i + 12] := ByteAt(state[2], shift), ByteAt(state[3], shift);
      output[i + 16], output[i + 20] := ByteAt(state[4], shift), ByteAt(state[5], shift);
      output[i + 24], output[i + 28] := ByteAt(state[6], shift), ByteAt(state[7], shift);
    }

    method WriteOutput(output: array<Byte>)
      requires Shape() && output.Length == 32
      modifies output
      ensures output[..] == Output(StateWords())
    {
      hide ByteAt;
      var i := 0;
      ghost var v := StateWords();
      while i < 4
        invariant 0 <= i <= 4 && forall x :: 0 <= x < i ==> HasColumn(output[..], v, x)
      {
        WriteColumn(output, i);
        i := i + 1;
      }
      AllColumns(output[..], v);
    }
  }

  lemma DigestIs(m: seq<Byte>)
    ensures Digest(m) == Output(HashBlocks(Pad(m)))
  {
  }

  /** Byte x of each of the eight words is in place. */
  ghost predicate HasColumn(s: seq<Byte>, v: Words, x: nat)
    requires |s| == 32 && x < 4
  {
    && s[x] == ByteAt(v.a, 24 - x * 8) && s[x + 4] == ByteAt(v.b, 24 - x * 8)
    && s[x + 8] == ByteAt(v.c, 24 - x * 8) && s[x + 12] == ByteAt(v.d, 24 - x * 8)
    && s[x + 16] == ByteAt(v.e, 24 - x * 8) && s[x + 20] == ByteAt(v.f, 24 - x * 8)
    && s[x + 24] == ByteAt(v.g, 24 - x * 8) && s[x + 28] == ByteAt(v.h, 24 - x * 8)
  }

  /** For every way of cutting a message into calls of Update the digest is that of the message. */
  method HashChunks(chunks: seq<seq<Byte>>) returns (digest: seq<Byte>)
    requires 8 * |Concat(chunks)| < BIT_COUNTER
    ensures digest == Digest(Concat(chunks))
  {
    hide Digest, HashBlocks, Compress;
    var ctx := new Context();
    var i := 0;
    while i < |chunks|
      invariant 0 <= i <= |chunks| && fresh(ctx) && fresh(ctx.data) && fresh(ctx.state)
      invariant ctx.Valid() && ctx.fed == Concat(chunks[..i])
    {
      ctx.Update(chunks[i]);
      assert chunks[..i + 1][..i] == chunks[..i];
      i := i + 1;
    }
    assert chunks[..i] == chunks;
    var output := new Byte[32](_ => 0);
    ctx.Final(output);
    digest := output[..];
  }

  // ---------- lemmas ----------

  lemma BlockBoundary(whole: seq<Byte>, rest: seq<Byte>)
    requires |whole| % 64 == 0 && |rest| <= 64
    ensures |whole + rest| % 64 == if |rest| == 64 then 0 else |rest|
  {
  }

  lemma OneMoreBlock(whole: seq<Byte>, block: seq<Byte>)
    requires |whole| % 64 == 0 && |block| == 64
    ensures |whole + block| % 64 == 0 && HashBlocks(whole + block) == Compress(HashBlocks(whole), block)
  {
    var all := whole + block;
    assert all[..|all| - 64] == whole && all[|all| - 64..] == block;
  }

  lemma PadInBlocks(whole: seq<Byte>, rest: seq<Byte>)
    requires |whole| % 64 == 0 && |rest| < 64
    ensures var k: nat := if |rest| < 56 then 55 - |rest| else 119 - |rest|;
            Pad(whole + rest) == whole + (rest + [0x80] + Zeros(k)) + BigEndian(8 * |whole + rest|, 8)
  {
    hide Zeros, BigEndian, ZeroBytes;
    BlockBoundary(whole, rest);
    ZeroBytesIs(|whole + rest|, |rest|);
    var m := whole + rest;
    var k: nat := if |rest| < 56 then 55 - |rest| else 119 - |rest|;
    assert k == ZeroBytes(|m|);
    assert Pad(m) == m + [0x80] + Zeros(k) + BigEndian(8 * |m|, 8);
    Regroup(whole, rest, [0x80], Zeros(k));
    assert m + [0x80] + Zeros(k) == whole + (rest + [0x80] + Zeros(k));
  }

  lemma Regroup(a: seq<Byte>, b: seq<Byte>, c: seq<Byte>, d: seq<Byte>)
    ensures a + b + c + d == a + (b + c + d)
  {
  }

  lemma ZeroBytesIs(length: nat, rest: nat)
    requires length % 64 == rest
    ensures ZeroBytes(length) == if rest < 56 then 55 - rest else 119 - rest
  {
  }

  lemma {:induction false} ZerosAre(s: seq<Byte>)
    requires forall x :: 0 <= x < |s| ==> s[x] == 0
    ensures s == Zeros(|s|)
  {
    if s != [] {
      ZerosAre(s[..|s| - 1]);
    }
  }

  lemma {:induction false} ZerosSplit(j: nat, k: nat)
    ensures Zeros(j) + Zeros(k) == Zeros(j + k)
  {
    if k > 0 {
      ZerosSplit(j, k - 1);
    }
  }

  /** n shifted right by k bytes. */
  function BytesDropped(n: nat, k: nat): nat
  {
    if k == 0 then n else BytesDropped(n / 256, k - 1)
  }

  function CounterByte(n: nat, k: nat): Byte
  {
    (BytesDropped(n, k) % 256) as Byte
  }

  lemma {:induction false} BigEndianAt(n: nat, k: nat, i: nat)
    requires i < k
    ensures BigEndian(n, k)[i] == CounterByte(n, k - 1 - i)
    decreases k
  {
    if i < k - 1 {
      BigEndianAt(n / 256, k - 1, i);
    }
  }

  lemma FourBytes(s: seq<Byte>, i: nat, w: Word)
    requires i + 4 <= |s|
    requires s[i] == ByteAt(w, 24) && s[i + 1] == ByteAt(w, 16) && s[i + 2] == ByteAt(w, 8) && s[i + 3] == ByteAt(w, 0)
    ensures s[i..i + 4] == BytesOf(w)
  {
    hide ByteAt;
  }

  lemma AllColumns(s: seq<Byte>, v: Words)
    requires |s| == 32 && forall x :: 0 <= x < 4 ==> HasColumn(s, v, x)
    ensures s == Output(v)
  {
    hide ByteAt;
    assert HasColumn(s, v, 0) && HasColumn(s, v, 1) && HasColumn(s, v, 2) && HasColumn(s, v, 3);
    FourBytes(s, 0, v.a);
    FourBytes(s, 4, v.b);
    FourBytes(s, 8, v.c);
    FourBytes(s, 12, v.d);
    FourBytes(s, 16, v.e);
    FourBytes(s, 20, v.f);
    FourBytes(s, 24, v.g);
    FourBytes(s, 28, v.h);
    hide BytesOf;
    EightWords(s);
  }

  lemma EightWords(s: seq<Byte>)
    requires |s| == 32
    ensures s == s[0..4] + s[4..8] + s[8..12] + s[12..16] + s[16..20] + s[20..24] + s[24..28] + s[28..32]
  {
  }
}
