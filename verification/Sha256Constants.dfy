/** The building blocks of SHA-256 by what they mean: the constants by the roots they are taken from, and the
    hexadecimal digits by the numbers they stand for. */
module Sha256Constants {
  import opened Sha256Spec
  import opened Sha256Class

  // The first sixty-four primes, eight to a row.
  function PrimeRow(r: nat): (row: seq<nat>)
    requires r < 8
    ensures |row| == 8
  {
    if r == 0 then [2, 3, 5, 7, 11, 13, 17, 19]
    else if r == 1 then [23, 29, 31, 37, 41, 43, 47, 53]
    else if r == 2 then [59, 61, 67, 71, 73, 79, 83, 89]
    else if r == 3 then [97, 101, 103, 107, 109, 113, 127, 131]
    else if r == 4 then [137, 139, 149, 151, 157, 163, 167, 173]
    else if r == 5 then [179, 181, 191, 193, 197, 199, 211, 223]
    else if r == 6 then [227, 229, 233, 239, 241, 251, 257, 263]
    else [269, 271, 277, 281, 283, 293, 307, 311]
  }

  const WORD_SIZE := 0x1_0000_0000

  // The word holds the first 32 bits of the fraction of the cube root of p, whose integer part is i.
  ghost predicate CubeRootOf(p: nat, i: nat, w: Word)
  {
    var c := i * WORD_SIZE + w as int;
    c * c * c <= p * WORD_SIZE * WORD_SIZE * WORD_SIZE < (c + 1) * (c + 1) * (c + 1)
  }

  ghost predicate CubeRootBits(p: nat, w: Word) { exists i: nat :: CubeRootOf(p, i, w) }

  ghost predicate SquareRootOf(p: nat, i: nat, w: Word)
  {
    var c := i * WORD_SIZE + w as int;
    c * c <= p * WORD_SIZE * WORD_SIZE < (c + 1) * (c + 1)
  }

  ghost predicate SquareRootBits(p: nat, w: Word) { exists i: nat :: SquareRootOf(p, i, w) }

  lemma ConstantsOfRow0(r: nat, j: nat)
    requires r == 0 && j < 8
    ensures CubeRootBits(PrimeRow(r)[j], KRow(r)[j])
  {
    assert CubeRootOf(2, 1, 0x428a2f98);
    assert CubeRootOf(3, 1, 0x71374491);
    assert CubeRootOf(5, 1, 0xb5c0fbcf);
    assert CubeRootOf(7, 1, 0xe9b5dba5);
    assert CubeRootOf(11, 2, 0x3956c25b);
    assert CubeRootOf(13, 2, 0x59f111f1);
    assert CubeRootOf(17, 2, 0x923f82a4);
    assert CubeRootOf(19, 2, 0xab1c5ed5);
    hide CubeRootOf;
  }

  lemma ConstantsOfRow1(r: nat, j: nat)
    requires r == 1 && j < 8
    ensures CubeRootBits(PrimeRow(r)[j], KRow(r)[j])
  {
    assert CubeRootOf(23, 2, 0xd807aa98);
    assert CubeRootOf(29, 3, 0x12835b01);
    assert CubeRootOf(31, 3, 0x243185be);
    assert CubeRootOf(37, 3, 0x550c7dc3);
    assert CubeRootOf(41, 3, 0x72be5d74);
    assert CubeRootOf(43, 3, 0x80deb1fe);
    assert CubeRootOf(47, 3, 0x9bdc06a7);
    assert CubeRootOf(53, 3, 0xc19bf174);
    hide CubeRootOf;
  }

  lemma ConstantsOfRow2(r: nat, j: nat)
    requires r == 2 && j < 8
    ensures CubeRootBits(PrimeRow(r)[j], KRow(r)[j])
  {
    assert CubeRootOf(59, 3, 0xe49b69c1);
    assert CubeRootOf(61, 3, 0xefbe4786);
    assert CubeRootOf(67, 4, 0x0fc19dc6);
    assert CubeRootOf(71, 4, 0x240ca1cc);
    assert CubeRootOf(73, 4, 0x2de92c6f);
    assert CubeRootOf(79, 4, 0x4a7484aa);
    assert CubeRootOf(83, 4, 0x5cb0a9dc);
    assert CubeRootOf(89, 4, 0x76f988da);
    hide CubeRootOf;
  }

  lemma ConstantsOfRow3(r: nat, j: nat)
    requires r == 3 && j < 8
    ensures CubeRootBits(PrimeRow(r)[j], KRow(r)[j])
  {
    assert CubeRootOf(97, 4, 0x983e5152);
    assert CubeRootOf(101, 4, 0xa831c66d);
    assert CubeRootOf(103, 4, 0xb00327c8);
    assert CubeRootOf(107, 4, 0xbf597fc7);
    assert CubeRootOf(109, 4, 0xc6e00bf3);
    assert CubeRootOf(113, 4, 0xd5a79147);
    assert CubeRootOf(127, 5, 0x06ca6351);
    assert CubeRootOf(131, 5, 0x14292967);
    hide CubeRootOf;
  }

  lemma ConstantsOfRow4(r: nat, j: nat)
    requires r == 4 && j < 8
    ensures CubeRootBits(PrimeRow(r)[j], KRow(r)[j])
  {
    assert CubeRootOf(137, 5, 0x27b70a85);
    assert CubeRootOf(139, 5, 0x2e1b2138);
    assert CubeRootOf(149, 5, 0x4d2c6dfc);
    assert CubeRootOf(151, 5, 0x53380d13);
    assert CubeRootOf(157, 5, 0x650a7354);
    assert CubeRootOf(163, 5, 0x766a0abb);
    assert CubeRootOf(167, 5, 0x81c2c92e);
    assert CubeRootOf(173, 5, 0x92722c85);
    hide CubeRootOf;
  }

  lemma ConstantsOfRow5(r: nat, j: nat)
    requires r == 5 && j < 8
    ensures CubeRootBits(PrimeRow(r)[j], KRow(r)[j])
  {
    assert CubeRootOf(179, 5, 0xa2bfe8a1);
    assert CubeRootOf(181, 5, 0xa81a664b);
    assert CubeRootOf(191, 5, 0xc24b8b70);
    assert CubeRootOf(193, 5, 0xc76c51a3);
    assert CubeRootOf(197, 5, 0xd192e819);
    assert CubeRootOf(199, 5, 0xd6990624);
    assert CubeRootOf(211, 5, 0xf40e3585);
    assert CubeRootOf(223, 6, 0x106aa070);
    hide CubeRootOf;
  }

  lemma ConstantsOfRow6(r: nat, j: nat)
    requires r == 6 && j < 8
    ensures CubeRootBits(PrimeRow(r)[j], KRow(r)[j])
  {
    assert CubeRootOf(227, 6, 0x19a4c116);
    assert CubeRootOf(229, 6, 0x1e376c08);
    assert CubeRootOf(233, 6, 0x2748774c);
    assert CubeRootOf(239, 6, 0x34b0bcb5);
    assert CubeRootOf(241, 6, 0x391c0cb3);
    assert CubeRootOf(251, 6, 0x4ed8aa4a);
    assert CubeRootOf(257, 6, 0x5b9cca4f);
    assert CubeRootOf(263, 6, 0x682e6ff3);
    hide CubeRootOf;
  }

  lemma ConstantsOfRow7(r: nat, j: nat)
    requires r == 7 && j < 8
    ensures CubeRootBits(PrimeRow(r)[j], KRow(r)[j])
  {
    assert CubeRootOf(269, 6, 0x748f82ee);
    assert CubeRootOf(271, 6, 0x78a5636f);
    assert CubeRootOf(277, 6, 0x84c87814);
    assert CubeRootOf(281, 6, 0x8cc70208);
    assert CubeRootOf(283, 6, 0x90befffa);
    assert CubeRootOf(293, 6, 0xa4506ceb);
    assert CubeRootOf(307, 6, 0xbef9a3f7);
    assert CubeRootOf(311, 6, 0xc67178f2);
    hide CubeRootOf;
  }

  lemma ConstantsOfRow(r: nat, j: nat)
    requires r < 8 && j < 8
    ensures CubeRootBits(PrimeRow(r)[j], KRow(r)[j])
  {
    hide CubeRootBits, KRow, PrimeRow;
    if r == 0 {
      ConstantsOfRow0(r, j);
    } else if r == 1 {
      ConstantsOfRow1(r, j);
    } else if r == 2 {
      ConstantsOfRow2(r, j);
    } else if r == 3 {
      ConstantsOfRow3(r, j);
    } else if r == 4 {
      ConstantsOfRow4(r, j);
    } else if r == 5 {
      ConstantsOfRow5(r, j);
    } else if r == 6 {
      ConstantsOfRow6(r, j);
    } else {
      ConstantsOfRow7(r, j);
    }
  }

  /** Section 4.2.2: constant t holds the first 32 bits of the fraction of the cube root of the t-th prime. */
  lemma ConstantsAreCubeRoots(t: nat)
    requires t < 64
    ensures CubeRootBits(PrimeRow(t / 8)[t % 8], KAt(t))
  {
    hide CubeRootBits, KRow, PrimeRow;
    ConstantsOfRow(t / 8, t % 8);
  }

  /** Section 5.3.3: the initial hash value holds those of the square roots of the first eight primes. */
  lemma InitialHashIsSquareRoots()
    ensures var h := INITIAL_HASH;
            var words := [h.a, h.b, h.c, h.d, h.e, h.f, h.g, h.h];
            forall j | 0 <= j < 8 :: SquareRootBits(PrimeRow(0)[j], words[j])
  {
    assert SquareRootOf(2, 1, 0x6a09e667);
    assert SquareRootOf(3, 1, 0xbb67ae85);
    assert SquareRootOf(5, 2, 0x3c6ef372);
    assert SquareRootOf(7, 2, 0xa54ff53a);
    assert SquareRootOf(11, 3, 0x510e527f);
    assert SquareRootOf(13, 3, 0x9b05688c);
    assert SquareRootOf(17, 4, 0x1f83d9ab);
    assert SquareRootOf(19, 4, 0x5be0cd19);
    hide SquareRootOf;
  }

  // The number a hexadecimal digit stands for.
  function DigitValue(c: char): nat
  {
    if '0' <= c <= '9' then c as nat - '0' as nat
    else if 'a' <= c <= 'f' then c as nat - 'a' as nat + 10
    else 16
  }

  // Two characters a byte, read back as numbers.
  ghost function ReadHex(s: string): seq<nat>
    requires |s| % 2 == 0
  {
    if s == [] then []
    else ReadHex(s[..|s| - 2]) + [16 * DigitValue(s[|s| - 2]) + DigitValue(s[|s| - 1])]
  }

  lemma DigitReadsBack(b: Byte)
    requires b < 16
    ensures DigitValue(HexDigit(b)) == b as nat
  {
  }

  lemma HalvesOfByte(b: Byte)
    ensures 16 * ((b >> 4) as nat) + ((b & 15) as nat) == b as nat
  {
  }

  ghost function Numbers(bytes: seq<Byte>): seq<nat>
  {
    if bytes == [] then [] else Numbers(bytes[..|bytes| - 1]) + [bytes[|bytes| - 1] as nat]
  }

  lemma PairReadsBack(b: Byte)
    ensures |HexPair(b)| == 2
    ensures 16 * DigitValue(HexPair(b)[0]) + DigitValue(HexPair(b)[1]) == b as nat
  {
    DigitReadsBack(b >> 4);
    DigitReadsBack(b & 15);
    HalvesOfByte(b);
    hide HexDigit, DigitValue;
  }

  lemma HexStep(bytes: seq<Byte>)
    requires bytes != []
    ensures Hex(bytes) == Hex(bytes[..|bytes| - 1]) + HexPair(bytes[|bytes| - 1])
    ensures Numbers(bytes) == Numbers(bytes[..|bytes| - 1]) + [bytes[|bytes| - 1] as nat]
  {
    hide HexPair;
  }

  /** Hexadecimal text reads back as the bytes it was made from. */
  lemma {:induction false} HexReadsBack(bytes: seq<Byte>)
    ensures |Hex(bytes)| % 2 == 0 && ReadHex(Hex(bytes)) == Numbers(bytes)
  {
    if bytes != [] {
      hide HexPair, DigitValue, ReadHex, Hex, Numbers;
      var init, b := bytes[..|bytes| - 1], bytes[|bytes| - 1];
      HexReadsBack(init);
      HexStep(bytes);
      PairReadsBack(b);
      ReadsPair(Hex(init), HexPair(b));
    }
  }

  lemma ReadsPair(s: string, pair: string)
    requires |s| % 2 == 0 && |pair| == 2
    ensures |s + pair| % 2 == 0
    ensures ReadHex(s + pair) == ReadHex(s) + [16 * DigitValue(pair[0]) + DigitValue(pair[1])]
  {
    hide DigitValue;
    assert (s + pair)[..|s + pair| - 2] == s;
  }
}
