/** The streaming SHA-256 class, in its own shape: a 64-byte buffer filled and padded in place,
    eight chaining words, a byte counter, and a compression step unrolled eight rounds at a time. */
module Sha256Class {
  import opened Sha256Spec

  // Mix function of the first half of a round: the large sigma of e and the choice of f or g, added.
  function F1(e: Word, f: Word, g: Word): Word
  {
    var term1 := RotR(e, 6) ^ RotR(e, 11) ^ RotR(e, 25);
    var term2 := (e & f) ^ (!e & g);
    Plus(term1, term2)
  }

  // Mix function of the second half: the large sigma of a and a rewritten majority, added.
  function F2(a: Word, b: Word, c: Word): Word
  {
    var term1 := RotR(a, 2) ^ RotR(a, 13) ^ RotR(a, 22);
    var term2 := ((a | b) & c) | (a & b);
    Plus(term1, term2)
  }

  // Byte reversal of a word, as loaded by a little-endian machine.
  function Swap(x: Word): Word
  {
    (x >> 24) | ((x >> 8) & 0x0000FF00) | ((x << 8) & 0x00FF0000) | (x << 24)
  }

  // What a little-endian machine reads from four consecutive bytes.
  function LoadWord(b0: Byte, b1: Byte, b2: Byte, b3: Byte): Word
  {
    (b0 as Word) | ((b1 as Word) << 8) | ((b2 as Word) << 16) | ((b3 as Word) << 24)
  }

  lemma SwapOfLoad(b0: Byte, b1: Byte, b2: Byte, b3: Byte)
    ensures Swap(LoadWord(b0, b1, b2, b3)) == WordOf(b0, b1, b2, b3)
  {
  }

  lemma MajorityRewritten(a: Word, b: Word, c: Word)
    ensures ((a | b) & c) | (a & b) == Maj(a, b, c)
  {
  }

  lemma MixTerms(a: Word, e: Word, f: Word, g: Word)
    ensures RotR(a, 2) ^ RotR(a, 13) ^ RotR(a, 22) == BigSigma0(a)
    ensures RotR(e, 6) ^ RotR(e, 11) ^ RotR(e, 25) == BigSigma1(e)
    ensures (e & f) ^ (!e & g) == Ch(e, f, g)
  {
    hide RotR;
  }

  lemma MixFunctions(a: Word, b: Word, c: Word, e: Word, f: Word, g: Word)
    ensures F1(e, f, g) == Plus(BigSigma1(e), Ch(e, f, g))
    ensures F2(a, b, c) == Plus(BigSigma0(a), Maj(a, b, c))
  {
    hide Plus, RotR, BigSigma0, BigSigma1, Ch, Maj;
    MixTerms(a, e, f, g);
    MajorityRewritten(a, b, c);
  }

  lemma PlusAssociates(x: Word, y: Word, z: Word)
    ensures Plus(x, Plus(y, z)) == Plus(Plus(x, y), z)
  {
    assert x + (y + z) == (x + y) + z;
    assert Plus(y, z) == y + z;
    assert Plus(x, y) == x + y;
    assert Plus(x, Plus(y, z)) == Plus(x, y + z) == x + (y + z) == (x + y) + z == Plus(x + y, z);
  }

  /** One line of the unrolled code is one iteration of the standard's loop, with the roles of the
      variables rotated instead of their contents. */
  lemma LineIsRound(a: Word, b: Word, c: Word, d: Word, e: Word, f: Word, g: Word, h: Word, k: Word, w: Word)
    ensures var x := Plus(Plus(Plus(h, F1(e, f, g)), k), w);
            Round(Vars(a, b, c, d, e, f, g, h), k, w)
            == Vars(Plus(x, F2(a, b, c)), a, b, c, Plus(d, x), e, f, g)
  {
    MixFunctions(a, b, c, e, f, g);
    PlusAssociates(h, BigSigma1(e), Ch(e, f, g));
    hide F1, F2, BigSigma0, BigSigma1, Ch, Maj, Plus;
  }

  lemma RowConstants(i: nat)
    requires i < 64 && i % 8 == 0
    ensures i + 8 <= 64
    ensures KRow(i / 8) == [KAt(i), KAt(i + 1), KAt(i + 2), KAt(i + 3), KAt(i + 4), KAt(i + 5), KAt(i + 6), KAt(i + 7)]
  {
    hide KRow;
  }

  method EightRounds(a0: Word, b0: Word, c0: Word, d0: Word, e0: Word, f0: Word, g0: Word, h0: Word,
                     k0: Word, k1: Word, k2: Word, k3: Word, k4: Word, k5: Word, k6: Word, k7: Word,
                     words: array<Word>, i: nat, ghost hash: Vars, ghost block: seq<Byte>)
    returns (a: Word, b: Word, c: Word, d: Word, e: Word, f: Word, g: Word, h: Word)
    requires |block| == BLOCK_SIZE && words.Length == 64 && i < 64 && i % 8 == 0
    requires forall j :: 0 <= j < i + 8 ==> words[j] == Schedule(block, j)
    requires KRow(i / 8) == [k0, k1, k2, k3, k4, k5, k6, k7]
    requires Vars(a0, b0, c0, d0, e0, f0, g0, h0) == Rounds(hash, block, i)
    ensures Vars(a, b, c, d, e, f, g, h) == Rounds(hash, block, i + 8)
  {
    hide F1, F2, Plus, Round, Schedule, KRow, KAt;
    RowConstants(i);
    a, b, c, d, e, f, g, h := a0, b0, c0, d0, e0, f0, g0, h0;
    var x, y;
    LineIsRound(a, b, c, d, e, f, g, h, k0, words[i]);
    x := Plus(Plus(Plus(h, F1(e, f, g)), k0), words[i]); y := F2(a, b, c); d := Plus(d, x); h := Plus(x, y);
    assert Vars(h, a, b, c, d, e, f, g) == Rounds(hash, block, i + 1);
    LineIsRound(h, a, b, c, d, e, f, g, k1, words[i + 1]);
    x := Plus(Plus(Plus(g, F1(d, e, f)), k1), words[i + 1]); y := F2(h, a, b); c := Plus(c, x); g := Plus(x, y);
    assert Vars(g, h, a, b, c, d, e, f) == Rounds(hash, block, i + 2);
    LineIsRound(g, h, a, b, c, d, e, f, k2, words[i + 2]);
    x := Plus(Plus(Plus(f, F1(c, d, e)), k2), words[i + 2]); y := F2(g, h, a); b := Plus(b, x); f := Plus(x, y);
    assert Vars(f, g, h, a, b, c, d, e) == Rounds(hash, block, i + 3);
    LineIsRound(f, g, h, a, b, c, d, e, k3, words[i + 3]);
    x := Plus(Plus(Plus(e, F1(b, c, d)), k3), words[i + 3]); y := F2(f, g, h); a := Plus(a, x); e := Plus(x, y);
    assert Vars(e, f, g, h, a, b, c, d) == Rounds(hash, block, i + 4);
    LineIsRound(e, f, g, h, a, b, c, d, k4, words[i + 4]);
    x := Plus(Plus(Plus(d, F1(a, b, c)), k4), words[i + 4]); y := F2(e, f, g); h := Plus(h, x); d := Plus(x, y);
    assert Vars(d, e, f, g, h, a, b, c) == Rounds(hash, block, i + 5);
    LineIsRound(d, e, f, g, h, a, b, c, k5, words[i + 5]);
    x := Plus(Plus(Plus(c, F1(h, a, b)), k5), words[i + 5]); y := F2(d, e, f); g := Plus(g, x); c := Plus(x, y);
    assert Vars(c, d, e, f, g, h, a, b) == Rounds(hash, block, i + 6);
    LineIsRound(c, d, e, f, g, h, a, b, k6, words[i + 6]);
    x := Plus(Plus(Plus(b, F1(g, h, a)), k6), words[i + 6]); y := F2(c, d, e); f := Plus(f, x); b := Plus(x, y);
    assert Vars(b, c, d, e, f, g, h, a) == Rounds(hash, block, i + 7);
    LineIsRound(b, c, d, e, f, g, h, a, k7, words[i + 7]);
    x := Plus(Plus(Plus(a, F1(f, g, h)), k7), words[i + 7]); y := F2(b, c, d); e := Plus(e, x); a := Plus(x, y);
    assert Vars(a, b, c, d, e, f, g, h) == Rounds(hash, block, i + 8);
  }

  // The first sixteen words are the block's own, byte-reversed after a little-endian load.
  lemma InputWord(block: seq<Byte>, i: nat)
    requires |block| == BLOCK_SIZE && i < 16
    ensures Schedule(block, i) == Swap(LoadWord(block[4 * i], block[4 * i + 1], block[4 * i + 2], block[4 * i + 3]))
  {
    SwapOfLoad(block[4 * i], block[4 * i + 1], block[4 * i + 2], block[4 * i + 3]);
    hide Swap, LoadWord, WordOf;
  }

  method InputWords(data: seq<Byte>) returns (words: array<Word>)
    requires |data| == BLOCK_SIZE
    ensures fresh(words) && words.Length == 64
    ensures forall j :: 0 <= j < 16 ==> words[j] == Schedule(data, j)
  {
    hide Schedule, Swap, LoadWord;
    words := new Word[64];
    for i := 0 to 16
      invariant forall j :: 0 <= j < i ==> words[j] == Schedule(data, j)
    {
      InputWord(data, i);
      words[i] := Swap(LoadWord(data[4 * i], data[4 * i + 1], data[4 * i + 2], data[4 * i + 3]));
    }
  }

  method ExtendSchedule(words: array<Word>, from: nat, to: nat, ghost block: seq<Byte>) returns (i: nat)
    requires |block| == BLOCK_SIZE && words.Length == 64 && 16 <= from <= to <= 64
    requires forall j :: 0 <= j < from ==> words[j] == Schedule(block, j)
    modifies words
    ensures i == to
    ensures forall j :: 0 <= j < to ==> words[j] == Schedule(block, j)
  {
    i := from;
    hide Plus, RotR, Schedule;
    while i < to
      invariant from <= i <= to
      invariant forall j :: 0 <= j < i ==> words[j] == Schedule(block, j)
    {
      var s0 := RotR(words[i - 15], 7) ^ RotR(words[i - 15], 18) ^ (words[i - 15] >> 3);
      var s1 := RotR(words[i - 2], 17) ^ RotR(words[i - 2], 19) ^ (words[i - 2] >> 10);
      ExtensionWord(block, i);
      words[i] := Plus(Plus(Plus(words[i - 16], s0), words[i - 7]), s1);
      i := i + 1;
    }
  }

  // The code adds the four terms of a schedule word in another order than the standard.
  lemma ExtensionWord(block: seq<Byte>, i: nat)
    requires |block| == BLOCK_SIZE && 16 <= i
    ensures var w15, w2 := Schedule(block, i - 15), Schedule(block, i - 2);
            Schedule(block, i)
            == Plus(Plus(Plus(Schedule(block, i - 16), RotR(w15, 7) ^ RotR(w15, 18) ^ (w15 >> 3)),
                       Schedule(block, i - 7)), RotR(w2, 17) ^ RotR(w2, 19) ^ (w2 >> 10))
  {
    hide Plus, RotR;
    var w16, w15, w7, w2 :=
      Schedule(block, i - 16), Schedule(block, i - 15), Schedule(block, i - 7), Schedule(block, i - 2);
    SmallSigmaTerms(w15, w2);
    var s0, s1 := SmallSigma0(w15), SmallSigma1(w2);
    hide SmallSigma0, SmallSigma1;
    PlusAssociates(Plus(w16, s0), w7, s1);
    PlusCommutes(w7, s1);
    PlusCommutes(w16, s0);
    PlusCommutes(Plus(s0, w16), Plus(s1, w7));
    PlusAssociates(Plus(s1, w7), s0, w16);
  }

  lemma SmallSigmaTerms(x: Word, y: Word)
    ensures RotR(x, 7) ^ RotR(x, 18) ^ (x >> 3) == SmallSigma0(x)
    ensures RotR(y, 17) ^ RotR(y, 19) ^ (y >> 10) == SmallSigma1(y)
  {
    hide RotR;
  }

  lemma PlusCommutes(x: Word, y: Word)
    ensures Plus(x, y) == Plus(y, x)
  {
  }

  method FirstHalf(a0: Word, b0: Word, c0: Word, d0: Word, e0: Word, f0: Word, g0: Word, h0: Word,
            words: array<Word>, ghost start: Vars, ghost data: seq<Byte>)
    returns (a: Word, b: Word, c: Word, d: Word, e: Word, f: Word, g: Word, h: Word)
    requires |data| == BLOCK_SIZE && words.Length == 64
    requires forall j :: 0 <= j < 16 ==> words[j] == Schedule(data, j)
    requires Vars(a0, b0, c0, d0, e0, f0, g0, h0) == Rounds(start, data, 0)
    modifies words
    ensures forall j :: 0 <= j < 32 ==> words[j] == Schedule(data, j)
    ensures Vars(a, b, c, d, e, f, g, h) == Rounds(start, data, 32)
  {
    hide Schedule, Plus, Round, Rounds;
    a, b, c, d, e, f, g, h := a0, b0, c0, d0, e0, f0, g0, h0;
    var i := 16;
    a, b, c, d, e, f, g, h := EightRounds(a, b, c, d, e, f, g, h, 0x428a2f98, 0x71374491, 0xb5c0fbcf, 0xe9b5dba5,
      0x3956c25b, 0x59f111f1, 0x923f82a4, 0xab1c5ed5, words, 0, start, data);
    a, b, c, d, e, f, g, h := EightRounds(a, b, c, d, e, f, g, h, 0xd807aa98, 0x12835b01, 0x243185be, 0x550c7dc3,
      0x72be5d74, 0x80deb1fe, 0x9bdc06a7, 0xc19bf174, words, 8, start, data);
    i := ExtendSchedule(words, i, 24, data);
    a, b, c, d, e, f, g, h := EightRounds(a, b, c, d, e, f, g, h, 0xe49b69c1, 0xefbe4786, 0x0fc19dc6, 0x240ca1cc,
      0x2de92c6f, 0x4a7484aa, 0x5cb0a9dc, 0x76f988da, words, 16, start, data);
    i := ExtendSchedule(words, i, 32, data);
    a, b, c, d, e, f, g, h := EightRounds(a, b, c, d, e, f, g, h, 0x983e5152, 0xa831c66d, 0xb00327c8, 0xbf597fc7,
      0xc6e00bf3, 0xd5a79147, 0x06ca6351, 0x14292967, words, 24, start, data);
  }

  method SecondHalf(a0: Word, b0: Word, c0: Word, d0: Word, e0: Word, f0: Word, g0: Word, h0: Word,
            words: array<Word>, ghost start: Vars, ghost data: seq<Byte>)
    returns (a: Word, b: Word, c: Word, d: Word, e: Word, f: Word, g: Word, h: Word)
    requires |data| == BLOCK_SIZE && words.Length == 64
    requires forall j :: 0 <= j < 32 ==> words[j] == Schedule(data, j)
    requires Vars(a0, b0, c0, d0, e0, f0, g0, h0) == Rounds(start, data, 32)
    modifies words
    ensures forall j :: 0 <= j < 64 ==> words[j] == Schedule(data, j)
    ensures Vars(a, b, c, d, e, f, g, h) == Rounds(start, data, 64)
  {
    hide Schedule, Plus, Round, Rounds;
    a, b, c, d, e, f, g, h := a0, b0, c0, d0, e0, f0, g0, h0;
    var i := 32;
    i := ExtendSchedule(words, i, 40, data);
    a, b, c, d, e, f, g, h := EightRounds(a, b, c, d, e, f, g, h, 0x27b70a85, 0x2e1b2138, 0x4d2c6dfc, 0x53380d13,
      0x650a7354, 0x766a0abb, 0x81c2c92e, 0x92722c85, words, 32, start, data);
    i := ExtendSchedule(words, i, 48, data);
    a, b, c, d, e, f, g, h := EightRounds(a, b, c, d, e, f, g, h, 0xa2bfe8a1, 0xa81a664b, 0xc24b8b70, 0xc76c51a3,
      0xd192e819, 0xd6990624, 0xf40e3585, 0x106aa070, words, 40, start, data);
    i := ExtendSchedule(words, i, 56, data);
    a, b, c, d, e, f, g, h := EightRounds(a, b, c, d, e, f, g, h, 0x19a4c116, 0x1e376c08, 0x2748774c, 0x34b0bcb5,
      0x391c0cb3, 0x4ed8aa4a, 0x5b9cca4f, 0x682e6ff3, words, 48, start, data);
    i := ExtendSchedule(words, i, 64, data);
    a, b, c, d, e, f, g, h := EightRounds(a, b, c, d, e, f, g, h, 0x748f82ee, 0x78a5636f, 0x84c87814, 0x8cc70208,
      0x90befffa, 0xa4506ceb, 0xbef9a3f7, 0xc67178f2, words, 56, start, data);
  }

  /** What the fields say about the bytes m added so far: the whole blocks of m are compressed into hash,
      numBytes counts them modulo 2^64, and live holds the rest. */
  ghost predicate Layout(hash: Vars, numBytes: nat, live: seq<Byte>, m: seq<Byte>)
  {
    && |live| <= |m| && |live| <= BLOCK_SIZE
    && (|m| - |live|) % BLOCK_SIZE == 0
    && numBytes == (|m| - |live|) % TWO_64
    && hash == HashBlocks(m[..|m| - |live|])
    && live == m[|m| - |live|..]
  }

  lemma LayoutByte(hash: Vars, numBytes: nat, live: seq<Byte>, m: seq<Byte>, b: Byte)
    requires Layout(hash, numBytes, live, m) && |live| < BLOCK_SIZE
    ensures Layout(hash, numBytes, live + [b], m + [b])
  {
    assert (m + [b])[..|m| - |live|] == m[..|m| - |live|];
  }

  lemma LayoutFull(hash: Vars, numBytes: nat, live: seq<Byte>, m: seq<Byte>)
    requires Layout(hash, numBytes, live, m) && |live| == BLOCK_SIZE
    ensures Layout(Compress(hash, live), (numBytes + BLOCK_SIZE) % TWO_64, [], m)
  {
    hide Compress, HashBlocks;
    var whole := m[..|m| - |live|];
    assert m == whole + live && m[..|m|] == m && m[|m|..] == [];
    BlockAppended(whole, live);
    CounterStep(|whole|);
    OneMoreBlock(|whole|);
  }

  lemma OneMoreBlock(n: nat)
    requires n % BLOCK_SIZE == 0
    ensures (n + BLOCK_SIZE) % BLOCK_SIZE == 0
  {
  }

  lemma LiveSize(hash: Vars, numBytes: nat, live: seq<Byte>, m: seq<Byte>)
    requires Layout(hash, numBytes, live, m) && |live| < BLOCK_SIZE
    ensures |live| == |m| % BLOCK_SIZE
  {
    hide HashBlocks;
  }

  lemma CounterStep(n: nat)
    ensures (n % TWO_64 + BLOCK_SIZE) % TWO_64 == (n + BLOCK_SIZE) % TWO_64
  {
  }

  lemma LayoutBlock(hash: Vars, numBytes: nat, m: seq<Byte>, block: seq<Byte>)
    requires Layout(hash, numBytes, [], m) && |block| == BLOCK_SIZE
    ensures Layout(Compress(hash, block), (numBytes + BLOCK_SIZE) % TWO_64, [], m + block)
  {
    hide Compress;
    assert (m + block)[..|m|] == m == m[..|m|];
    assert Layout(hash, numBytes, block, m + block);
    LayoutFull(hash, numBytes, block, m + block);
  }

  lemma HashOfTail(whole: seq<Byte>, b0: seq<Byte>, b1: seq<Byte>, padded: seq<Byte>)
    requires |whole| % BLOCK_SIZE == 0 && |b0| == BLOCK_SIZE && (b1 == [] || |b1| == BLOCK_SIZE)
    requires |padded| % BLOCK_SIZE == 0 && padded == whole + (b0 + b1)
    ensures var first := Compress(HashBlocks(whole), b0);
            HashBlocks(padded) == if b1 == [] then first else Compress(first, b1)
  {
    hide Compress, HashBlocks;
    BlockAppended(whole, b0);
    if b1 == [] {
      assert padded == whole + b0;
    } else {
      BlockAppended(whole + b0, b1);
      assert padded == whole + b0 + b1;
    }
  }

  lemma AllWords(words: seq<Word>)
    requires |words| == 8
    ensures words == [words[0], words[1], words[2], words[3], words[4], words[5], words[6], words[7]]
  {
  }

  lemma ConcatNothing()
    ensures ConcatWords([]) == []
  {
  }

  lemma ConcatOneMore(words: seq<Word>, i: nat)
    requires i < |words|
    ensures ConcatWords(words[..i + 1]) == ConcatWords(words[..i]) + BytesOf(words[i])
  {
    hide BytesOf;
    assert words[..i + 1][..i] == words[..i];
  }

  lemma BlockAppended(bytes: seq<Byte>, block: seq<Byte>)
    requires |bytes| % BLOCK_SIZE == 0 && |block| == BLOCK_SIZE
    ensures HashBlocks(bytes + block) == Compress(HashBlocks(bytes), block)
  {
    hide Compress;
    assert (bytes + block)[..|bytes + block| - BLOCK_SIZE] == bytes;
    assert (bytes + block)[|bytes + block| - BLOCK_SIZE..] == block;
  }

  // The counter wraps at 2^64 bytes, and the length field at 2^64 bits: the wraps agree.
  lemma MessageBits(m: seq<Byte>, numBytes: nat, live: nat)
    requires live <= |m| && numBytes == (|m| - live) % TWO_64
    ensures 8 * (numBytes + live) % TWO_64 == 8 * |m| % TWO_64
  {
    var q := (|m| - live) / TWO_64;
    assert 8 * |m| == 8 * (numBytes + live) + TWO_64 * (8 * q);
    WholeTurns(8 * (numBytes + live), 8 * q);
  }

  lemma WholeTurns(n: nat, q: nat)
    ensures (n + TWO_64 * q) % TWO_64 == n % TWO_64
  {
  }

  lemma PadZerosOf(m: seq<Byte>, live: nat)
    requires live <= |m| && live < BLOCK_SIZE && (|m| - live) % BLOCK_SIZE == 0
    ensures PadZeros(|m|) == if live < 56 then 55 - live else 119 - live
  {
  }

  // The padded message is its whole blocks followed by the live bytes and what ProcessBuffer appends to them.
  lemma PaddedSplit(hash: Vars, numBytes: nat, live: seq<Byte>, m: seq<Byte>, paddedLength: nat,
                    msgBits: nat)
    requires Layout(hash, numBytes, live, m) && |live| < BLOCK_SIZE
    requires msgBits < TWO_64 && msgBits == 8 * (numBytes + |live|) % TWO_64
    requires paddedLength == if |live| < 56 then 56 else 120
    ensures |live| <= |m| && |m[..|m| - |live|]| % BLOCK_SIZE == 0 && hash == HashBlocks(m[..|m| - |live|])
    ensures Padded(m) == m[..|m| - |live|] + (live + ([0x80] + Zeros(paddedLength - |live| - 1)
                                                      + Bytes64(msgBits)))
  {
    hide HashBlocks, Zeros, Bytes64;
    MessageBits(m, numBytes, |live|);
    PadZerosOf(m, |live|);
    hide PadZeros;
    var pad := [0x80] + Zeros(PadZeros(|m|)) + Bytes64(8 * |m| % TWO_64);
    assert Padded(m) == m + pad;
    Regrouped(m, |m| - |live|, pad);
  }

  lemma Regrouped(m: seq<Byte>, k: nat, pad: seq<Byte>)
    requires k <= |m|
    ensures m + pad == m[..k] + (m[k..] + pad)
  {
    assert m == m[..k] + m[k..];
  }

  function HexDigit(b: Byte): char
    requires b < 16
  {
    "0123456789abcdef"[b as int]
  }

  // Two characters a byte, high half first.
  function Hex(bytes: seq<Byte>): string
  {
    if bytes == [] then ""
    else
      var b := bytes[|bytes| - 1];
      Hex(bytes[..|bytes| - 1]) + HexPair(b)
  }

  function HexPair(b: Byte): string
  {
    [HexDigit(b >> 4), HexDigit(b & 15)]
  }

  class Sha256 {
    var numBytes: nat        // a 64-bit counter: kept modulo 2^64
    var bufferSize: nat
    const buffer: array<Byte>
    const hash: array<Word>
    ghost var message: seq<Byte>   // everything added since the last Reset

    ghost function HashWords(): Vars
      requires hash.Length == 8
      reads hash
    {
      Vars(hash[0], hash[1], hash[2], hash[3], hash[4], hash[5], hash[6], hash[7])
    }

    ghost predicate Holds(m: seq<Byte>)
      reads this, buffer, hash
    {
      && buffer.Length == BLOCK_SIZE && hash.Length == 8 && bufferSize <= BLOCK_SIZE
      && Layout(HashWords(), numBytes, buffer[..bufferSize], m)
    }

    ghost predicate Valid()
      reads this, buffer, hash
    {
      Holds(message) && bufferSize < BLOCK_SIZE
    }

    constructor ()
      ensures Valid() && message == []
      ensures fresh(buffer) && fresh(hash)
    {
      buffer := new Byte[BLOCK_SIZE];
      hash := new Word[8];
      new;
      Reset();
    }

    method Reset()
      requires buffer.Length == BLOCK_SIZE && hash.Length == 8
      modifies this, hash
      ensures Valid() && message == []
    {
      hide Compress;
      numBytes := 0;
      bufferSize := 0;
      hash[0] := 0x6a09e667;
      hash[1] := 0xbb67ae85;
      hash[2] := 0x3c6ef372;
      hash[3] := 0xa54ff53a;
      hash[4] := 0x510e527f;
      hash[5] := 0x9b05688c;
      hash[6] := 0x1f83d9ab;
      hash[7] := 0x5be0cd19;
      message := [];
    }

    method ProcessBlock(data: seq<Byte>)
      requires hash.Length == 8 && |data| == BLOCK_SIZE
      modifies hash
      ensures HashWords() == Compress(old(HashWords()), data)
    {
      hide Schedule, Plus, Round, KAt;
      var a, b, c, d, e, f, g, h := hash[0], hash[1], hash[2], hash[3], hash[4], hash[5], hash[6], hash[7];
      ghost var start := HashWords();
      var words := InputWords(data);
      a, b, c, d, e, f, g, h := FirstHalf(a, b, c, d, e, f, g, h, words, start, data);
      a, b, c, d, e, f, g, h := SecondHalf(a, b, c, d, e, f, g, h, words, start, data);
      AddToHash(Vars(a, b, c, d, e, f, g, h));
    }

    // The working variables are added to the chaining value.
    method AddToHash(v: Vars)
      requires hash.Length == 8
      modifies hash
      ensures HashWords() == AddVars(old(HashWords()), v)
    {
      hide Plus;
      hash[0] := Plus(hash[0], v.a);
      hash[1] := Plus(hash[1], v.b);
      hash[2] := Plus(hash[2], v.c);
      hash[3] := Plus(hash[3], v.d);
      hash[4] := Plus(hash[4], v.e);
      hash[5] := Plus(hash[5], v.f);
      hash[6] := Plus(hash[6], v.g);
      hash[7] := Plus(hash[7], v.h);
    }

    method Add(data: seq<Byte>)
      requires Valid()
      modifies this, buffer, hash
      ensures Valid() && message == old(message) + data
    {
      hide Compress, Layout;
      ghost var m := message;
      assert m + data[..0] == m;
      var current := 0;
      if bufferSize > 0 {
        current := BufferBytes(m, data, 0);
      }
      if bufferSize == BLOCK_SIZE {
        assert buffer[..] == buffer[..bufferSize];
        LayoutFull(HashWords(), numBytes, buffer[..], m + data[..current]);
        ProcessBlock(buffer[..]);
        numBytes := (numBytes + BLOCK_SIZE) % TWO_64;
        bufferSize := 0;
        assert buffer[..bufferSize] == [];
      }
      if current < |data| {
        current := ProcessFullBlocks(m, data, current);
        current := BufferBytes(m, data, current);
      }
      assert data[..current] == data;
      message := m + data;
    }

    // Copies bytes of data into the buffer until either runs out.
    method BufferBytes(ghost m: seq<Byte>, data: seq<Byte>, start: nat) returns (current: nat)
      requires start <= |data| && Holds(m + data[..start])
      modifies this`bufferSize, buffer
      ensures start <= current <= |data| && Holds(m + data[..current])
      ensures bufferSize == old(bufferSize) + current - start
      ensures current == |data| || bufferSize == BLOCK_SIZE
    {
      hide Layout;
      current := start;
      while current < |data| && bufferSize < BLOCK_SIZE
        invariant start <= current <= |data| && Holds(m + data[..current])
        invariant bufferSize == old(bufferSize) + current - start
      {
        LayoutByte(HashWords(), numBytes, buffer[..bufferSize], m + data[..current], data[current]);
        buffer[bufferSize] := data[current];
        bufferSize := bufferSize + 1;
        assert buffer[..bufferSize] == buffer[..bufferSize - 1] + [data[current]];
        assert m + data[..current] + [data[current]] == m + data[..current + 1];
        current := current + 1;
      }
    }

    // Compresses whole blocks straight from data.
    method ProcessFullBlocks(ghost m: seq<Byte>, data: seq<Byte>, start: nat) returns (current: nat)
      requires start <= |data| && bufferSize == 0 && Holds(m + data[..start])
      modifies this`numBytes, hash
      ensures start <= current <= |data| < current + BLOCK_SIZE && Holds(m + data[..current])
    {
      hide Compress, Layout;
      current := start;
      while |data| - current >= BLOCK_SIZE
        invariant start <= current <= |data| && Holds(m + data[..current])
      {
        ghost var block := data[current..current + BLOCK_SIZE];
        assert buffer[..bufferSize] == [];
        LayoutBlock(HashWords(), numBytes, m + data[..current], block);
        assert m + data[..current] + block == m + data[..current + BLOCK_SIZE];
        ProcessBlock(data[current..current + BLOCK_SIZE]);
        current := current + BLOCK_SIZE;
        numBytes := (numBytes + BLOCK_SIZE) % TWO_64;
      }
    }

    // Pads the buffer in place, with a second block where the padding flows over, and compresses it.
    method ProcessBuffer()
      requires Valid()
      modifies buffer, hash
      ensures HashWords() == HashBlocks(Padded(message))
      ensures buffer[..bufferSize] == old(buffer[..bufferSize])
    {
      hide Compress, Layout, Zeros, Bytes64, Padded, HashBlocks;
      var paddedLength := PaddedLength(bufferSize);
      var extra := new Byte[BLOCK_SIZE];
      var msgBits := 8 * (numBytes + bufferSize) % TWO_64;
      PaddedSplit(HashWords(), numBytes, buffer[..bufferSize], message, paddedLength, msgBits);
      ghost var whole := message[..|message| - bufferSize];
      FillPadding(buffer, bufferSize, extra, paddedLength, msgBits);
      HashOfTail(whole, buffer[..], if paddedLength > BLOCK_SIZE then extra[..] else [], Padded(message));
      ProcessBlock(buffer[..]);
      if paddedLength > BLOCK_SIZE {
        ProcessBlock(extra[..]);
      }
    }

    // The bytes before the length field: computed in bits, in code order.
    static method PaddedLength(bufferSize: nat) returns (paddedLength: nat)
      requires bufferSize < BLOCK_SIZE
      ensures paddedLength == if bufferSize < 56 then 56 else 120
    {
      paddedLength := bufferSize * 8;
      paddedLength := paddedLength + 1;
      var lower11Bits := paddedLength % 512;
      assert lower11Bits == paddedLength;
      if lower11Bits <= 448 {
        paddedLength := paddedLength + 448 - lower11Bits;
      } else {
        paddedLength := paddedLength + 512 + 448 - lower11Bits;
      }
      paddedLength := paddedLength / 8;
    }

    // The writes of the padding: the byte 0x80, zeros and the length, over one block or two.
    static method FillPadding(buffer: array<Byte>, bufferSize: nat, extra: array<Byte>, paddedLength: nat, msgBits: nat)
      requires buffer.Length == BLOCK_SIZE && extra.Length == BLOCK_SIZE && buffer != extra
      requires bufferSize < BLOCK_SIZE && msgBits < TWO_64
      requires paddedLength == if bufferSize < 56 then 56 else 120
      modifies buffer, extra
      ensures buffer[..bufferSize] == old(buffer[..bufferSize])
      ensures old(buffer[..bufferSize]) + ([0x80] + Zeros(paddedLength - bufferSize - 1) + Bytes64(msgBits))
           == buffer[..] + (if paddedLength > BLOCK_SIZE then extra[..] else [])
    {
      hide Bytes64;
      buffer[bufferSize] := 128;   // always in range, so the source's other branch is never taken
      var i := bufferSize + 1;
      while i < BLOCK_SIZE
        invariant bufferSize + 1 <= i <= BLOCK_SIZE
        invariant buffer[..bufferSize] == old(buffer[..bufferSize]) && buffer[bufferSize] == 0x80
        invariant forall j :: bufferSize < j < i ==> buffer[j] == 0
      {
        buffer[i] := 0;
        i := i + 1;
      }
      while i < paddedLength
        invariant BLOCK_SIZE <= i && (i <= paddedLength || i == BLOCK_SIZE)
        invariant forall j :: 0 <= j < i - BLOCK_SIZE ==> extra[j] == 0
        modifies extra
      {
        extra[i - BLOCK_SIZE] := 0;
        i := i + 1;
      }
      ghost var pad := [0x80] + Zeros(paddedLength - bufferSize - 1);
      if paddedLength < BLOCK_SIZE {
        assert buffer[..paddedLength] == old(buffer[..bufferSize]) + pad;
        PutLength(buffer, paddedLength, msgBits);
      } else {
        assert buffer[..] + extra[..paddedLength - BLOCK_SIZE] == old(buffer[..bufferSize]) + pad;
        PutLength(extra, paddedLength - BLOCK_SIZE, msgBits);
      }
    }

    // Writes a 64-bit number at target[at..], most significant byte first.
    static method PutLength(target: array<Byte>, at: nat, msgBits: nat)
      requires at + 8 <= target.Length && msgBits < TWO_64
      modifies target
      ensures target[..] == old(target[..at]) + Bytes64(msgBits) + old(target[at + 8..])
    {
      hide ByteOf;
      target[at] := ByteOf((msgBits / 0x100_0000_0000_0000) % 256);
      target[at + 1] := ByteOf((msgBits / 0x1_0000_0000_0000) % 256);
      target[at + 2] := ByteOf((msgBits / 0x100_0000_0000) % 256);
      target[at + 3] := ByteOf((msgBits / 0x1_0000_0000) % 256);
      target[at + 4] := ByteOf((msgBits / 0x100_0000) % 256);
      target[at + 5] := ByteOf((msgBits / 0x1_0000) % 256);
      target[at + 6] := ByteOf((msgBits / 0x100) % 256);
      target[at + 7] := ByteOf(msgBits % 256);
    }

    // The digest of everything added so far; adding may go on afterwards.
    method GetHashBytes(raw: array<Byte>)
      requires Valid() && raw.Length == 32 && raw != buffer
      modifies buffer, hash, raw
      ensures Valid() && HashWords() == old(HashWords())
      ensures buffer[..bufferSize] == old(buffer[..bufferSize])
      ensures raw[..] == Digest(message)
    {
      hide Compress, Padded, HashBlocks, Layout, RawBytes;
      var oldHash := new Word[8];
      for i := 0 to 8
        invariant forall j :: 0 <= j < i ==> oldHash[j] == hash[j]
        modifies oldHash
      {
        oldHash[i] := hash[i];
      }
      ProcessBuffer();
      EmitAndRestore(raw, oldHash);
    }

    // Writes the hash words big-endian and puts the saved ones back.
    method EmitAndRestore(raw: array<Byte>, oldHash: array<Word>)
      requires hash.Length == 8 && raw.Length == 32 && oldHash.Length == 8 && oldHash != hash
      modifies hash, raw
      ensures raw[..] == RawBytes(old(HashWords()))
      ensures hash[..] == oldHash[..]
    {
      hide BytesOf, ConcatWords;
      ghost var words := hash[..];
      ConcatNothing();
      for i := 0 to 8
        invariant forall j :: 0 <= j < 8 ==> hash[j] == if j < i then oldHash[j] else words[j]
        invariant raw[..4 * i] == ConcatWords(words[..i])
      {
        PutWord(raw, 4 * i, hash[i]);
        hash[i] := oldHash[i];
        ConcatOneMore(words, i);
        assert raw[..4 * (i + 1)] == raw[..4 * i] + BytesOf(words[i]);
      }
      assert words[..8] == words;
      AllWords(words);
    }

    static method PutWord(raw: array<Byte>, at: nat, w: Word)
      requires at + 4 <= raw.Length
      modifies raw
      ensures raw[..] == old(raw[..at]) + BytesOf(w) + old(raw[at + 4..])
    {
      raw[at] := ((w >> 24) & 0xFF) as Byte;
      raw[at + 1] := ((w >> 16) & 0xFF) as Byte;
      raw[at + 2] := ((w >> 8) & 0xFF) as Byte;
      raw[at + 3] := (w & 0xFF) as Byte;
    }

    // The digest as 64 hexadecimal characters.
    method GetHash() returns (result: string)
      requires Valid()
      modifies buffer, hash
      ensures Valid() && HashWords() == old(HashWords())
      ensures buffer[..bufferSize] == old(buffer[..bufferSize])
      ensures result == Hex(Digest(message))
    {
      hide Digest, Layout;
      var rawHash := new Byte[32];
      GetHashBytes(rawHash);
      result := ToHex(rawHash);
    }

    static method ToHex(raw: array<Byte>) returns (result: string)
      ensures result == Hex(raw[..])
    {
      hide HexDigit;
      result := "";
      for i := 0 to raw.Length
        invariant result == Hex(raw[..i])
      {
        result := result + [HexDigit(raw[i] >> 4)];
        result := result + [HexDigit(raw[i] & 15)];
        assert raw[..i + 1] == raw[..i] + [raw[i]];
      }
      assert raw[..] == raw[..raw.Length];
    }

    // The function-call operator: hashes one memory block from a fresh start.
    method Of(data: seq<Byte>) returns (result: string)
      requires buffer.Length == BLOCK_SIZE && hash.Length == 8
      modifies this, buffer, hash
      ensures Valid() && message == data
      ensures result == Hex(Digest(data))
    {
      hide Digest, Layout;
      Reset();
      Add(data);
      result := GetHash();
    }
  }
}
