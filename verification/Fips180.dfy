/** SHA-256 as FIPS 180-4 defines it (sections 3.2, 4.1.2, 4.2.2, 5.1.1, 5.3.3 and 6.2.2), and HMAC as
    section 2 of RFC 2104 defines it. */
module Fips180 {
  import opened Bytes
  import opened Words

  const K_FIRST: seq<word> := [
    0x428a2f98, 0x71374491, 0xb5c0fbcf, 0xe9b5dba5, 0x3956c25b, 0x59f111f1, 0x923f82a4, 0xab1c5ed5,
    0xd807aa98, 0x12835b01, 0x243185be, 0x550c7dc3, 0x72be5d74, 0x80deb1fe, 0x9bdc06a7, 0xc19bf174,
    0xe49b69c1, 0xefbe4786, 0x0fc19dc6, 0x240ca1cc, 0x2de92c6f, 0x4a7484aa, 0x5cb0a9dc, 0x76f988da,
    0x983e5152, 0xa831c66d, 0xb00327c8, 0xbf597fc7, 0xc6e00bf3, 0xd5a79147, 0x06ca6351, 0x14292967]

  const K_SECOND: seq<word> := [
    0x27b70a85, 0x2e1b2138, 0x4d2c6dfc, 0x53380d13, 0x650a7354, 0x766a0abb, 0x81c2c92e, 0x92722c85,
    0xa2bfe8a1, 0xa81a664b, 0xc24b8b70, 0xc76c51a3, 0xd192e819, 0xd6990624, 0xf40e3585, 0x106aa070,
    0x19a4c116, 0x1e376c08, 0x2748774c, 0x34b0bcb5, 0x391c0cb3, 0x4ed8aa4a, 0x5b9cca4f, 0x682e6ff3,
    0x748f82ee, 0x78a5636f, 0x84c87814, 0x8cc70208, 0x90befffa, 0xa4506ceb, 0xbef9a3f7, 0xc67178f2]

  const K: seq<word> := K_FIRST + K_SECOND

  datatype Vars = Vars(a: word, b: word, c: word, d: word, e: word, f: word, g: word, h: word)

  const H0 := Vars(0x6a09e667, 0xbb67ae85, 0x3c6ef372, 0xa54ff53a, 0x510e527f, 0x9b05688c, 0x1f83d9ab, 0x5be0cd19)

  function Rotr(x: word, n: nat): word
    requires 0 < n < 32
  {
    Or(Shr(x, n), Shl(x, 32 - n))
  }

  /** A rotation: the n low bits come out on top, the others move down (section 3.2). */
  lemma RotrMeaning(x: word, n: nat)
    requires 0 < n < 32
    ensures Rotr(x, n) == (x % Pow2(n)) * Pow2(32 - n) + x / Pow2(n)
  {
    RotrIs(x, n);
    Pow2Values();
    PowSum(n, 32 - n);
    hide *;
    var p, q := Pow2(n), Pow2(32 - n);
    var low, high := x % p, x / p;
    QuotientRemainder(x, p);
    LowTimes(x, high, low, p, q);
    LowBelow(high, p, q, low);
    BitOrSymmetric(high, low * q);
    OrAdds(low, high, 32 - n);
  }

  lemma RotrIs(x: word, n: nat)
    requires 0 < n < 32
    ensures Rotr(x, n) == BitOr(Shr(x, n), Shl(x, 32 - n))
    ensures Shr(x, n) == x / Pow2(n) && Shl(x, 32 - n) == (x * Pow2(32 - n)) % 0x1_0000_0000
  {
    hide BitOr, Pow2;
  }

  lemma QuotientRemainder(x: nat, p: nat)
    requires p > 0
    ensures x == (x / p) * p + x % p && 0 <= x % p < p && x / p >= 0
  {
    ShrBound(x, p);
  }

  lemma LowTimes(x: nat, high: nat, low: nat, p: nat, q: nat)
    requires p > 0 && q > 0 && p * q == 0x1_0000_0000 && x == high * p + low && low < p
    ensures (x * q) % 0x1_0000_0000 == low * q
  {
    assert x * q == high * (p * q) + low * q;
    assert low * q < p * q by { MulAtLeast(p - low, q); assert (p - low) * q == p * q - low * q; }
    ModUnique(x * q, 0x1_0000_0000, high, low * q);
  }

  lemma LowBelow(high: nat, p: nat, q: nat, low: nat)
    requires p > 0 && p * q == 0x1_0000_0000 && high * p + low < 0x1_0000_0000
    ensures high < q
  {
    assert (high - q) * p == high * p - q * p;
    if high >= q { MulNonNegative(high - q, p); }
  }

  function Ch(x: word, y: word, z: word): word { Xor(And(x, y), And(Not(x), z)) }
  function Maj(x: word, y: word, z: word): word { Xor(Xor(And(x, y), And(x, z)), And(y, z)) }
  function BigSigma0(x: word): word { Xor(Xor(Rotr(x, 2), Rotr(x, 13)), Rotr(x, 22)) }
  function BigSigma1(x: word): word { Xor(Xor(Rotr(x, 6), Rotr(x, 11)), Rotr(x, 25)) }
  function Sigma0(x: word): word { Xor(Xor(Rotr(x, 7), Rotr(x, 18)), Shr(x, 3)) }
  function Sigma1(x: word): word { Xor(Xor(Rotr(x, 17), Rotr(x, 19)), Shr(x, 10)) }

  /** The message schedule. */
  function Schedule(m: seq<word>, t: nat): word
    requires |m| == 16
  {
    if t < 16 then m[t]
    else Add(Add(Add(Sigma1(Schedule(m, t - 2)), Schedule(m, t - 7)), Sigma0(Schedule(m, t - 15))), Schedule(m, t - 16))
  }

  function Round(v: Vars, k: word, w: word): Vars {
    var t1 := Add(Add(Add(Add(v.h, BigSigma1(v.e)), Ch(v.e, v.f, v.g)), k), w);
    var t2 := Add(BigSigma0(v.a), Maj(v.a, v.b, v.c));
    Vars(Add(t1, t2), v.a, v.b, v.c, Add(v.d, t1), v.e, v.f, v.g)
  }

  /** The working variables after t rounds. */
  function Rounds(v: Vars, m: seq<word>, t: nat): Vars
    requires |m| == 16 && t <= 64
  {
    if t == 0 then v else Round(Rounds(v, m, t - 1), K[t - 1], Schedule(m, t - 1))
  }

  function Compress(v: Vars, m: seq<word>): Vars
    requires |m| == 16
  {
    var w := Rounds(v, m, 64);
    Vars(Add(v.a, w.a), Add(v.b, w.b), Add(v.c, w.c), Add(v.d, w.d),
         Add(v.e, w.e), Add(v.f, w.f), Add(v.g, w.g), Add(v.h, w.h))
  }

  // ---------------------------------------------------------------- padding and blocks

  function Zeros(n: nat): (r: seq<byte>)
    ensures |r| == n
  {
    seq(n, _ => 0)
  }

  /** How many whole zero bytes follow the byte 0x80. */
  function ZeroBytes(length: nat): nat { (55 - length) % 64 }

  function Pad(message: seq<byte>): (r: seq<byte>)
    ensures |r| % 64 == 0
  {
    message + [0x80] + Zeros(ZeroBytes(|message|)) + BigEndian(8 * |message|, 8)
  }

  /** The bits after the single 1 are the fewest zeros that leave 64 bits to a multiple of 512. */
  lemma PaddingIsMinimal(length: nat, k: nat)
    ensures var zeros := 7 + 8 * ZeroBytes(length); (8 * length + 1 + zeros) % 512 == 448
    ensures (8 * length + 1 + k) % 512 == 448 ==> k >= 7 + 8 * ZeroBytes(length)
  {
    var z := ZeroBytes(length);
    assert (length + 1 + z) % 64 == 56;
    if (8 * length + 1 + k) % 512 == 448 {
      var j := k / 8;
      assert k == 8 * j + 7;
      assert (length + 1 + j) % 64 == 56;
    }
  }

  /** The big-endian word at a byte position. */
  function WordAt(bytes: seq<byte>, at: nat): word
    requires at + 4 <= |bytes|
  {
    NumberBound(bytes[at..at + 4]);
    assert Pow256(4) == 0x1_0000_0000;
    Number(bytes[at..at + 4])
  }

  function Block(padded: seq<byte>, i: nat): (m: seq<word>)
    requires 64 * i + 64 <= |padded|
    ensures |m| == 16
  {
    seq(16, t requires 0 <= t < 16 => WordAt(padded, 64 * i + 4 * t))
  }

  /** The hash value after i blocks. */
  function HashBlocks(padded: seq<byte>, i: nat): Vars
    requires 64 * i <= |padded|
  {
    if i == 0 then H0 else Compress(HashBlocks(padded, i - 1), Block(padded, i - 1))
  }

  function Output(v: Vars): (r: seq<byte>)
    ensures |r| == 32
  {
    BigEndian(v.a, 4) + BigEndian(v.b, 4) + BigEndian(v.c, 4) + BigEndian(v.d, 4) +
    BigEndian(v.e, 4) + BigEndian(v.f, 4) + BigEndian(v.g, 4) + BigEndian(v.h, 4)
  }

  function Sha256(message: seq<byte>): (r: seq<byte>)
    ensures |r| == 32
  {
    var padded := Pad(message);
    Output(HashBlocks(padded, |padded| / 64))
  }

  // ---------------------------------------------------------------- HMAC

  function XorByte(a: byte, b: byte): byte {
    assert Pow2(8) == 256;
    BitBounds(a as int, b as int, 8);
    BitXor(a as int, b as int) as byte
  }

  function XorAll(key: seq<byte>, b: byte): (r: seq<byte>)
    ensures |r| == |key|
  {
    seq(|key|, i requires 0 <= i < |key| => XorByte(key[i], b))
  }

  /** The key, hashed when longer than a block, filled with zeros to a block. */
  function BlockKey(key: seq<byte>): (r: seq<byte>)
    ensures |r| == 64
  {
    var k := if |key| > 64 then Sha256(key) else key;
    k + Zeros(64 - |k|)
  }

  function Hmac(key: seq<byte>, text: seq<byte>): seq<byte> {
    Sha256(XorAll(BlockKey(key), 0x5c) + Sha256(XorAll(BlockKey(key), 0x36) + text))
  }
}
