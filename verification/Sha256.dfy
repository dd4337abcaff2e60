/** SHA-256 as FIPS 180-4 states it (sections 4.1.2, 5.1.1, 6.2) and the streaming
    implementation of src/sha256.c:31-137. */
module Sha256 {
  type Word = bv32
  type Byte = bv8

  const TWO64: nat := 0x1_0000_0000_0000_0000

  const K: seq<Word> := [
    0x428a2f98, 0x71374491, 0xb5c0fbcf, 0xe9b5dba5, 0x3956c25b,
    0x59f111f1, 0x923f82a4, 0xab1c5ed5, 0xd807aa98, 0x12835b01,
    0x243185be, 0x550c7dc3, 0x72be5d74, 0x80deb1fe, 0x9bdc06a7,
    0xc19bf174, 0xe49b69c1, 0xefbe4786, 0x0fc19dc6, 0x240ca1cc,
    0x2de92c6f, 0x4a7484aa, 0x5cb0a9dc, 0x76f988da, 0x983e5152,
    0xa831c66d, 0xb00327c8, 0xbf597fc7, 0xc6e00bf3, 0xd5a79147,
    0x06ca6351, 0x14292967, 0x27b70a85, 0x2e1b2138, 0x4d2c6dfc,
    0x53380d13, 0x650a7354, 0x766a0abb, 0x81c2c92e, 0x92722c85,
    0xa2bfe8a1, 0xa81a664b, 0xc24b8b70, 0xc76c51a3, 0xd192e819,
    0xd6990624, 0xf40e3585, 0x106aa070, 0x19a4c116, 0x1e376c08,
    0x2748774c, 0x34b0bcb5, 0x391c0cb3, 0x4ed8aa4a, 0x5b9cca4f,
    0x682e6ff3, 0x748f82ee, 0x78a5636f, 0x84c87814, 0x8cc70208,
    0x90befffa, 0xa4506ceb, 0xbef9a3f7, 0xc67178f2]

  function Constant(t: nat): Word
    requires t < 64
  {
    K[t]
  }

  /** The working variables. */
  datatype State = State(a: Word, b: Word, c: Word, d: Word, e: Word, f: Word, g: Word, h: Word)

  const H0: State := State(0x6a09e667, 0xbb67ae85, 0x3c6ef372, 0xa54ff53a, 0x510e527f, 0x9b05688c, 0x1f83d9ab, 0x5be0cd19)

  // ----- The standard's functions -----

  /** Addition modulo 2^32. */
  function Add(x: Word, y: Word): Word { x + y }

  /** Section 3.2: rotation to the right. */
  function Rotr(x: Word, n: nat): Word
    requires n < 32
  {
    x.RotateRight(n)
  }

  function Xor3(x: Word, y: Word, z: Word): Word { x ^ y ^ z }

  function BigSigma0(x: Word): Word { Xor3(Rotr(x, 2), Rotr(x, 13), Rotr(x, 22)) }
  function BigSigma1(x: Word): Word { Xor3(Rotr(x, 6), Rotr(x, 11), Rotr(x, 25)) }
  function Sigma0(x: Word): Word { Xor3(Rotr(x, 7), Rotr(x, 18), x >> 3) }
  function Sigma1(x: Word): Word { Xor3(Rotr(x, 17), Rotr(x, 19), x >> 10) }
  function Ch(x: Word, y: Word, z: Word): Word { (x & y) ^ (!x & z) }
  function Maj(x: Word, y: Word, z: Word): Word { (x & y) ^ (x & z) ^ (y & z) }

  /** Bytes to a word, most significant first. */
  function Join(b0: Byte, b1: Byte, b2: Byte, b3: Byte): Word {
    ((b0 as Word) << 24) | ((b1 as Word) << 16) | ((b2 as Word) << 8) | (b3 as Word)
  }

  /** The message schedule of one block. */
  function Schedule(block: seq<Byte>, t: nat): Word
    requires |block| == 64 && t < 64
  {
    if t < 16 then Join(block[4 * t], block[4 * t + 1], block[4 * t + 2], block[4 * t + 3])
    else
      Add(Add(Add(Schedule(block, t - 16), Sigma0(Schedule(block, t - 15))), Schedule(block, t - 7)),
          Sigma1(Schedule(block, t - 2)))
  }

  function Round(s: State, k: Word, w: Word): State {
    var t1 := Add(Add(Add(Add(s.h, BigSigma1(s.e)), Ch(s.e, s.f, s.g)), k), w);
    var t2 := Add(BigSigma0(s.a), Maj(s.a, s.b, s.c));
    State(Add(t1, t2), s.a, s.b, s.c, Add(s.d, t1), s.e, s.f, s.g)
  }

  function Rounds(s: State, block: seq<Byte>, t: nat): State
    requires |block| == 64 && t <= 64
  {
    if t == 0 then s else Round(Rounds(s, block, t - 1), Constant(t - 1), Schedule(block, t - 1))
  }

  function Plus(x: State, y: State): State {
    State(Add(x.a, y.a), Add(x.b, y.b), Add(x.c, y.c), Add(x.d, y.d),
          Add(x.e, y.e), Add(x.f, y.f), Add(x.g, y.g), Add(x.h, y.h))
  }

  function Compress(s: State, block: seq<Byte>): State
    requires |block| == 64
  {
    Plus(s, Rounds(s, block, 64))
  }

  /** The hash value after whole blocks. */
  function Fold(m: seq<Byte>): State
    requires |m| % 64 == 0
  {
    if m == [] then H0 else Compress(Fold(m[..|m| - 64]), m[|m| - 64..])
  }

  /** Section 5.1.1: a one bit, the least number of zero bits, the length in 64 bits. */
  function Zeros(n: nat): (k: nat)
    ensures k < 64 && (n + 1 + k) % 64 == 56
  {
    (119 - n % 64) % 64
  }

  /** The eight base-256 digits of a 64-bit number, most significant first. */
  function Octets(bits: nat): (r: seq<nat>)
    ensures |r| == 8 && forall i | 0 <= i < 8 :: r[i] < 256
  {
    seq(8, i requires 0 <= i < 8 => Above(bits, 7 - i) % 256)
  }

  /** The number without its n lowest bytes. */
  function Above(bits: nat, n: nat): nat { if n == 0 then bits else Above(bits, n - 1) / 256 }

  function Length64(bits: nat): seq<Byte> { seq(8, i requires 0 <= i < 8 => ByteOf(bits, i)) }

  function ByteOf(bits: nat, i: nat): Byte
    requires i < 8
  {
    Octets(bits)[i] as Byte
  }

  function Value(digits: seq<nat>): nat {
    if digits == [] then 0 else 256 * Value(digits[..|digits| - 1]) + digits[|digits| - 1]
  }

  lemma ValueStep(digits: seq<nat>, k: nat)
    requires 0 < k <= |digits|
    ensures Value(digits[..k]) == 256 * Value(digits[..k - 1]) + digits[k - 1] && Value(digits[..0]) == 0
  {
    assert digits[..k][..k - 1] == digits[..k - 1];
  }

  /** The digits before place k hold the bits above it. */
  lemma {:induction false} LengthPrefix(bits: nat, k: nat)
    requires bits < TWO64 && k <= 8
    ensures Value(Octets(bits)[..k]) == Above(bits, 8 - k)
  {
    hide Value;
    if k == 0 {
      NothingAbove(bits);
      ValueStep(Octets(bits), 1);
    } else {
      LengthPrefix(bits, k - 1);
      ValueStep(Octets(bits), k);
    }
  }

  lemma NothingAbove(bits: nat)
    requires bits < TWO64
    ensures Above(bits, 8) == 0 && Above(bits, 0) == bits
  {
    assert Above(bits, 1) == bits / 256 < 0x100_0000_0000_0000;
    assert Above(bits, 2) == Above(bits, 1) / 256 < 0x1_0000_0000_0000;
    assert Above(bits, 3) == Above(bits, 2) / 256 < 0x100_0000_0000;
    assert Above(bits, 4) == Above(bits, 3) / 256 < 0x1_0000_0000;
    assert Above(bits, 5) == Above(bits, 4) / 256 < 0x100_0000;
    assert Above(bits, 6) == Above(bits, 5) / 256 < 0x1_0000;
    assert Above(bits, 7) == Above(bits, 6) / 256 < 0x100;
  }

  /** The length field says how many bits the message has. */
  lemma LengthValue(bits: nat)
    requires bits < TWO64
    ensures Value(Octets(bits)) == bits
  {
    LengthPrefix(bits, 8);
    NothingAbove(bits);
    assert Octets(bits)[..8] == Octets(bits);
  }

  function Pad(m: seq<Byte>): seq<Byte> {
    m + [0x80] + seq(Zeros(|m|), _ => 0) + Length64(8 * |m| % TWO64)
  }

  function Split(w: Word): seq<Byte> {
    [((w >> 24) & 0xFF) as Byte, ((w >> 16) & 0xFF) as Byte, ((w >> 8) & 0xFF) as Byte, (w & 0xFF) as Byte]
  }

  function Bytes(words: seq<Word>): (r: seq<Byte>)
    ensures |r| == 4 * |words|
  {
    if words == [] then [] else Bytes(words[..|words| - 1]) + Split(words[|words| - 1])
  }

  function Digest(s: State): seq<Byte> { Bytes([s.a, s.b, s.c, s.d, s.e, s.f, s.g, s.h]) }

  lemma PadWhole(m: seq<Byte>)
    ensures |Pad(m)| % 64 == 0
  {
    hide Zeros, Length64;
    Eight(|m| + 1 + Zeros(|m|));
    assert |Length64(8 * |m| % TWO64)| == 8 by { LengthSize(8 * |m| % TWO64); }
  }

  lemma Eight(n: nat)
    requires n % 64 == 56
    ensures (n + 8) % 64 == 0
  {}

  lemma LengthSize(bits: nat)
    ensures |Length64(bits)| == 8
  {}

  function Hash(m: seq<Byte>): (d: seq<Byte>)
    ensures |d| == 32
  {
    PadWhole(m);
    Digest(Fold(Pad(m)))
  }

  lemma FoldBlock(m: seq<Byte>, block: seq<Byte>)
    requires |m| % 64 == 0 && |block| == 64
    ensures |m + block| % 64 == 0 && Fold(m + block) == Compress(Fold(m), block)
  {
    assert (m + block)[..|m|] == m && (m + block)[|m|..] == block;
  }

  /** Joining the bytes of a word gives it back. */
  lemma SplitJoin(w: Word)
    ensures Join(Split(w)[0], Split(w)[1], Split(w)[2], Split(w)[3]) == w
  {}

  lemma SplitInjective(x: Word, y: Word)
    requires Split(x) == Split(y)
    ensures x == y
  {
    SplitJoin(x);
    SplitJoin(y);
    hide Split, Join;
  }

  lemma BytesEnd(a: seq<Word>)
    requires a != []
    ensures var n := |a| - 1; |Bytes(a)| >= 4 * n && Bytes(a)[..4 * n] == Bytes(a[..n]) && Bytes(a)[4 * n..] == Split(a[n])
  {
    hide Split;
  }

  lemma {:induction false} BytesInjective(a: seq<Word>, b: seq<Word>)
    requires |a| == |b| && Bytes(a) == Bytes(b)
    ensures a == b
  {
    if a != [] {
      hide Split, Bytes;
      var n := |a| - 1;
      BytesEnd(a);
      BytesEnd(b);
      BytesInjective(a[..n], b[..n]);
      SplitInjective(a[n], b[n]);
      assert a == a[..n] + [a[n]] && b == b[..n] + [b[n]];
    }
  }

  /** Writing the digest loses nothing: equal digests come from equal final states. */
  lemma DigestNamesState(s: State, t: State)
    requires Digest(s) == Digest(t)
    ensures s == t
  {
    hide Bytes;
    var a, b := [s.a, s.b, s.c, s.d, s.e, s.f, s.g, s.h], [t.a, t.b, t.c, t.d, t.e, t.f, t.g, t.h];
    BytesInjective(a, b);
    assert a[0] == b[0] && a[1] == b[1] && a[2] == b[2] && a[3] == b[3];
    assert a[4] == b[4] && a[5] == b[5] && a[6] == b[6] && a[7] == b[7];
  }
}
