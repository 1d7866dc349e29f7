/** The SHA-256 function as FIPS 180-4 defines it, over byte and word sequences.
    Nothing here follows the program text: it is the reference the class Sha256 is proved against. */
module Sha256Spec {

  type Byte = bv8
  type Word = bv32

  const BLOCK_SIZE := 64
  const TWO_64 := 0x1_0000_0000_0000_0000

  // Section 2.2.2: rotate right.
  function RotR(x: Word, n: Word): Word
    requires 0 < n < 32
  {
    (x >> n) | (x << (32 - n))
  }

  // Section 3.2: addition modulo 2^32.
  function Plus(x: Word, y: Word): Word { x + y }

  // Section 4.1.2: the six logical functions.
  function Ch(x: Word, y: Word, z: Word): Word { (x & y) ^ (!x & z) }

  function Maj(x: Word, y: Word, z: Word): Word { (x & y) ^ (x & z) ^ (y & z) }

  function BigSigma0(x: Word): Word { RotR(x, 2) ^ RotR(x, 13) ^ RotR(x, 22) }

  function BigSigma1(x: Word): Word { RotR(x, 6) ^ RotR(x, 11) ^ RotR(x, 25) }

  function SmallSigma0(x: Word): Word { RotR(x, 7) ^ RotR(x, 18) ^ (x >> 3) }

  function SmallSigma1(x: Word): Word { RotR(x, 17) ^ RotR(x, 19) ^ (x >> 10) }

  // Section 4.2.2: the sixty-four constant words, eight to a row.
  function KRow(r: nat): (row: seq<Word>)
    requires r < 8
    ensures |row| == 8
  {
    if r == 0 then
      [0x428a2f98, 0x71374491, 0xb5c0fbcf, 0xe9b5dba5, 0x3956c25b, 0x59f111f1, 0x923f82a4, 0xab1c5ed5]
    else if r == 1 then
      [0xd807aa98, 0x12835b01, 0x243185be, 0x550c7dc3, 0x72be5d74, 0x80deb1fe, 0x9bdc06a7, 0xc19bf174]
    else if r == 2 then
      [0xe49b69c1, 0xefbe4786, 0x0fc19dc6, 0x240ca1cc, 0x2de92c6f, 0x4a7484aa, 0x5cb0a9dc, 0x76f988da]
    else if r == 3 then
      [0x983e5152, 0xa831c66d, 0xb00327c8, 0xbf597fc7, 0xc6e00bf3, 0xd5a79147, 0x06ca6351, 0x14292967]
    else if r == 4 then
      [0x27b70a85, 0x2e1b2138, 0x4d2c6dfc, 0x53380d13, 0x650a7354, 0x766a0abb, 0x81c2c92e, 0x92722c85]
    else if r == 5 then
      [0xa2bfe8a1, 0xa81a664b, 0xc24b8b70, 0xc76c51a3, 0xd192e819, 0xd6990624, 0xf40e3585, 0x106aa070]
    else if r == 6 then
      [0x19a4c116, 0x1e376c08, 0x2748774c, 0x34b0bcb5, 0x391c0cb3, 0x4ed8aa4a, 0x5b9cca4f, 0x682e6ff3]
    else
      [0x748f82ee, 0x78a5636f, 0x84c87814, 0x8cc70208, 0x90befffa, 0xa4506ceb, 0xbef9a3f7, 0xc67178f2]
  }

  function KAt(t: nat): Word
    requires t < 64
  {
    KRow(t / 8)[t % 8]
  }

  // Section 5.3.3: the initial hash value.
  const INITIAL_HASH: Vars := Vars(0x6a09e667, 0xbb67ae85, 0x3c6ef372, 0xa54ff53a,
                                   0x510e527f, 0x9b05688c, 0x1f83d9ab, 0x5be0cd19)

  // The eight working variables; also the eight words of a chaining value.
  datatype Vars = Vars(a: Word, b: Word, c: Word, d: Word, e: Word, f: Word, g: Word, h: Word)

  // Section 3.1: a word holds its bytes most significant first.
  function WordOf(b0: Byte, b1: Byte, b2: Byte, b3: Byte): Word
  {
    ((b0 as Word) << 24) | ((b1 as Word) << 16) | ((b2 as Word) << 8) | (b3 as Word)
  }

  function BytesOf(w: Word): (bytes: seq<Byte>)
    ensures |bytes| == 4
  {
    [((w >> 24) & 0xFF) as Byte, ((w >> 16) & 0xFF) as Byte, ((w >> 8) & 0xFF) as Byte, (w & 0xFF) as Byte]
  }

  // Section 6.2.2, step 1: the message schedule of one block.
  function Schedule(block: seq<Byte>, t: nat): Word
    requires |block| == BLOCK_SIZE
  {
    if t < 16 then
      WordOf(block[(4 * t) % 64], block[(4 * t + 1) % 64], block[(4 * t + 2) % 64], block[(4 * t + 3) % 64])
    else
      Plus(Plus(Plus(SmallSigma1(Schedule(block, t - 2)), Schedule(block, t - 7)),
              SmallSigma0(Schedule(block, t - 15))), Schedule(block, t - 16))
  }

  // Section 6.2.2, step 3: one iteration.
  function Round(v: Vars, k: Word, w: Word): Vars
  {
    var t1 := Plus(Plus(Plus(Plus(v.h, BigSigma1(v.e)), Ch(v.e, v.f, v.g)), k), w);
    var t2 := Plus(BigSigma0(v.a), Maj(v.a, v.b, v.c));
    Vars(Plus(t1, t2), v.a, v.b, v.c, Plus(v.d, t1), v.e, v.f, v.g)
  }

  // Section 6.2.2, step 3: the first t iterations, started from v.
  function Rounds(v: Vars, block: seq<Byte>, t: nat): Vars
    requires |block| == BLOCK_SIZE && t <= 64
  {
    if t == 0 then v else Round(Rounds(v, block, t - 1), KAt(t - 1), Schedule(block, t - 1))
  }

  // Section 6.2.2, step 4.
  function AddVars(u: Vars, v: Vars): Vars
  {
    Vars(Plus(u.a, v.a), Plus(u.b, v.b), Plus(u.c, v.c), Plus(u.d, v.d),
         Plus(u.e, v.e), Plus(u.f, v.f), Plus(u.g, v.g), Plus(u.h, v.h))
  }

  function Compress(hash: Vars, block: seq<Byte>): Vars
    requires |block| == BLOCK_SIZE
  {
    AddVars(hash, Rounds(hash, block, 64))
  }

  // Section 6.2.2: the hash value after all blocks of a whole number of blocks.
  function HashBlocks(bytes: seq<Byte>): Vars
    requires |bytes| % BLOCK_SIZE == 0
  {
    if bytes == [] then INITIAL_HASH
    else Compress(HashBlocks(bytes[..|bytes| - BLOCK_SIZE]), bytes[|bytes| - BLOCK_SIZE..])
  }

  // Section 5.1.1: the number of zero bytes after the byte 0x80.
  function PadZeros(n: nat): (k: nat)
    ensures k < 64 && (n + 1 + k + 8) % 64 == 0
  {
    if n % 64 < 56 then 55 - n % 64 else 119 - n % 64
  }

  function Zeros(n: nat): (zeros: seq<Byte>)
    ensures |zeros| == n
  {
    seq(n, _ => 0)
  }

  function ByteOf(x: nat): Byte
    requires x < 256
  {
    x as Byte
  }

  // The eight big-endian bytes of a number below 2^64.
  function Bytes64(n: nat): (bytes: seq<Byte>)
    requires n < TWO_64
    ensures |bytes| == 8
  {
    [ByteOf((n / 0x100_0000_0000_0000) % 256), ByteOf((n / 0x1_0000_0000_0000) % 256),
     ByteOf((n / 0x100_0000_0000) % 256), ByteOf((n / 0x1_0000_0000) % 256),
     ByteOf((n / 0x100_0000) % 256), ByteOf((n / 0x1_0000) % 256),
     ByteOf((n / 0x100) % 256), ByteOf(n % 256)]
  }

  // Section 5.1.1; the standard defines it for messages below 2^64 bits, where the modulus is the identity.
  function Padded(message: seq<Byte>): (padded: seq<Byte>)
    ensures |padded| % BLOCK_SIZE == 0
    ensures message <= padded
  {
    message + ([0x80] + Zeros(PadZeros(|message|)) + Bytes64(8 * |message| % TWO_64))
  }

  // Section 6.2.2: the concatenation of the final eight words.
  function Digest(message: seq<Byte>): seq<Byte>
  {
    RawBytes(HashBlocks(Padded(message)))
  }

  function RawBytes(v: Vars): (bytes: seq<Byte>)
  {
    ConcatWords([v.a, v.b, v.c, v.d, v.e, v.f, v.g, v.h])
  }

  function ConcatWords(words: seq<Word>): (bytes: seq<Byte>)
    ensures |bytes| == 4 * |words|
  {
    if words == [] then [] else ConcatWords(words[..|words| - 1]) + BytesOf(words[|words| - 1])
  }
}
