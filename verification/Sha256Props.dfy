/** What the hash is for: the digest depends on the message alone, however it is fed in; the padding is the
    standard's; and two hash strings are equal exactly when the digests are. */
module Sha256Props {
  import opened Sha256Spec
  import opened Sha256Class

  // All live state of two objects agrees as soon as they were given the same bytes.
  lemma StateIsFunctionOfMessage(s: Sha256, t: Sha256)
    requires s.Valid() && t.Valid() && s.message == t.message
    ensures s.HashWords() == t.HashWords() && s.numBytes == t.numBytes && s.bufferSize == t.bufferSize
    ensures s.buffer[..s.bufferSize] == t.buffer[..t.bufferSize]
  {
    LiveSize(s.HashWords(), s.numBytes, s.buffer[..s.bufferSize], s.message);
    LiveSize(t.HashWords(), t.numBytes, t.buffer[..t.bufferSize], t.message);
    hide HashBlocks;
  }

  ghost function Concat(pieces: seq<seq<Byte>>): seq<Byte>
  {
    if pieces == [] then [] else Concat(pieces[..|pieces| - 1]) + pieces[|pieces| - 1]
  }

  /** Feeds s any cutting of a message, asking for the digest after any of the pieces, and feeds t the whole:
      both end in the same state, and every digest asked for is that of the bytes given so far. */
  method FeedPieces(s: Sha256, t: Sha256, pieces: seq<seq<Byte>>, ask: seq<bool>)
    returns (answers: seq<string>)
    requires s != t && s.buffer != t.buffer && s.hash != t.hash
    requires s.Valid() && t.Valid() && s.message == t.message && |ask| == |pieces|
    modifies s, s.buffer, s.hash, t, t.buffer, t.hash
    ensures s.Valid() && t.Valid() && s.message == t.message == old(s.message) + Concat(pieces)
    ensures s.HashWords() == t.HashWords() && s.numBytes == t.numBytes && s.bufferSize == t.bufferSize
    ensures s.buffer[..s.bufferSize] == t.buffer[..t.bufferSize]
    ensures |answers| == |pieces|
    ensures forall i | 0 <= i < |pieces| && ask[i] ::
              answers[i] == Hex(Digest(old(s.message) + Concat(pieces[..i + 1])))
  {
    hide Layout, Digest, Hex;
    var whole: seq<Byte> := [];
    answers := [];
    for i := 0 to |pieces|
      invariant s.Valid() && s.message == old(s.message) + whole
      invariant whole == Concat(pieces[..i]) && |answers| == i
      invariant forall j | 0 <= j < i && ask[j] ::
                  answers[j] == Hex(Digest(old(s.message) + Concat(pieces[..j + 1])))
      modifies s, s.buffer, s.hash
    {
      s.Add(pieces[i]);
      whole := whole + pieces[i];
      assert pieces[..i + 1][..i] == pieces[..i];
      assert s.message == old(s.message) + whole;
      var answer := "";
      if ask[i] {
        answer := s.GetHash();
      }
      answers := answers + [answer];
    }
    assert pieces[..|pieces|] == pieces;
    t.Add(whole);
    StateIsFunctionOfMessage(s, t);
  }

  ghost function Value(b: Byte): nat
  {
    b as nat
  }

  ghost function Number64(bytes: seq<Byte>): nat
    requires |bytes| == 8
  {
    Value(bytes[0]) * 0x100_0000_0000_0000 + Value(bytes[1]) * 0x1_0000_0000_0000
    + Value(bytes[2]) * 0x100_0000_0000 + Value(bytes[3]) * 0x1_0000_0000
    + Value(bytes[4]) * 0x100_0000 + Value(bytes[5]) * 0x1_0000
    + Value(bytes[6]) * 0x100 + Value(bytes[7])
  }

  lemma ByteValue(x: nat)
    requires x < 256
    ensures (x as Byte) as nat == x
  {
    assert x % 256 == x;
  }

  lemma ValueOfByte(x: nat)
    requires x < 256
    ensures Value(ByteOf(x)) == x
  {
    ByteValue(x);
  }

  // A number below 2^64 is the sum of its base-256 digits.
  lemma Digits(n: nat)
    requires n < TWO_64
    ensures n == (n / 0x100_0000_0000_0000) % 256 * 0x100_0000_0000_0000
              + (n / 0x1_0000_0000_0000) % 256 * 0x1_0000_0000_0000
              + (n / 0x100_0000_0000) % 256 * 0x100_0000_0000 + (n / 0x1_0000_0000) % 256 * 0x1_0000_0000
              + (n / 0x100_0000) % 256 * 0x100_0000 + (n / 0x1_0000) % 256 * 0x1_0000
              + (n / 0x100) % 256 * 0x100 + n % 256
  {
    assert n / 0x1_0000 == n / 0x100 / 256;
    assert n / 0x100_0000 == n / 0x1_0000 / 256;
    assert n / 0x1_0000_0000 == n / 0x100_0000 / 256;
    assert n / 0x100_0000_0000 == n / 0x1_0000_0000 / 256;
    assert n / 0x1_0000_0000_0000 == n / 0x100_0000_0000 / 256;
    assert n / 0x100_0000_0000_0000 == n / 0x1_0000_0000_0000 / 256 < 256;
  }

  lemma NumberOfBytes64(n: nat)
    requires n < TWO_64
    ensures Number64(Bytes64(n)) == n
  {
    hide ByteOf, Value;
    Digits(n);
    ValueOfByte((n / 0x100_0000_0000_0000) % 256);
    ValueOfByte((n / 0x1_0000_0000_0000) % 256);
    ValueOfByte((n / 0x100_0000_0000) % 256);
    ValueOfByte((n / 0x1_0000_0000) % 256);
    ValueOfByte((n / 0x100_0000) % 256);
    ValueOfByte((n / 0x1_0000) % 256);
    ValueOfByte((n / 0x100) % 256);
    ValueOfByte(n % 256);
  }

  /** Section 5.1.1: the message, the byte 0x80, fewer than 64 zero bytes up to a whole number of blocks, and eight
      bytes that hold the message's length in bits - the true length exactly when the message is below 2^61 bytes. */
  lemma PaddedForm(m: seq<Byte>)
    ensures |Padded(m)| == |m| + 1 + PadZeros(|m|) + 8
    ensures |Padded(m)| % BLOCK_SIZE == 0 && m <= Padded(m) && Padded(m)[|m|] == 0x80
    ensures forall i :: |m| < i < |Padded(m)| - 8 ==> Padded(m)[i] == 0
    ensures Number64(Padded(m)[|Padded(m)| - 8..]) == 8 * |m| <==> |m| < 0x2000_0000_0000_0000
  {
    hide Bytes64, Number64;
    var bits := 8 * |m| % TWO_64;
    NumberOfBytes64(bits);
    assert Padded(m)[|Padded(m)| - 8..] == Bytes64(bits);
  }

  lemma {:induction false} HexInjective(x: seq<Byte>, y: seq<Byte>)
    ensures Hex(x) == Hex(y) <==> x == y
    decreases |x|
  {
    HexLength(x);
    HexLength(y);
    if Hex(x) == Hex(y) && x != [] {
      hide HexPair;
      var n := |x| - 1;
      var p, q := HexPair(x[n]), HexPair(y[n]);
      assert Hex(x) == Hex(x[..n]) + p && Hex(y) == Hex(y[..n]) + q;
      HexLength(x[..n]);
      HexLength(y[..n]);
      SameEnds(Hex(x[..n]), p, Hex(y[..n]), q);
      HexInjective(x[..n], y[..n]);
      HexPairInjective(x[n], y[n]);
      assert x == x[..n] + [x[n]] && y == y[..n] + [y[n]];
    }
  }

  lemma SameEnds(a: string, p: string, b: string, q: string)
    requires a + p == b + q && |a| == |b|
    ensures a == b && p == q
  {
    assert a == (a + p)[..|a|] && p == (a + p)[|a|..];
  }

  lemma {:induction false} HexLength(x: seq<Byte>)
    ensures |Hex(x)| == 2 * |x|
  {
    if x != [] {
      HexLength(x[..|x| - 1]);
    }
  }

  lemma HexPairInjective(b: Byte, c: Byte)
    requires HexPair(b) == HexPair(c)
    ensures b == c
  {
    assert HexPair(b)[0] == HexPair(c)[0] && HexPair(b)[1] == HexPair(c)[1];
    HexDigitInjective(b >> 4, c >> 4);
    HexDigitInjective(b & 15, c & 15);
    hide HexDigit;
    assert b == ((b >> 4) << 4) | (b & 15);
    assert c == ((c >> 4) << 4) | (c & 15);
  }

  lemma HexDigitInjective(b: Byte, c: Byte)
    requires b < 16 && c < 16 && HexDigit(b) == HexDigit(c)
    ensures b == c
  {
  }
}
