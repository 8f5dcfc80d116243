/** The functions of SHA-256 told bit by bit (sections 3.2 and 4.1.2 of FIPS 180-4), and its schedule and its
    rounds told as plain sums modulo 2^32 (section 6.2.2). */
module Fips180Bits {
  import opened Bytes
  import opened Words
  import opened Fips180

  lemma {:induction false} BitIsBit(a: nat, k: nat)
    ensures 0 <= Bit(a, k) <= 1
    decreases k
  {
    if k > 0 { BitIsBit(a / 2, k - 1); }
  }

  /** Two words with the same 32 bits are the same. */
  lemma {:induction false} BitsDecide(a: nat, b: nat, n: nat)
    requires a < Pow2(n) && b < Pow2(n) && forall k: nat :: k < n ==> Bit(a, k) == Bit(b, k)
    ensures a == b
  {
    if n > 0 {
      assert Bit(a, 0) == Bit(b, 0);
      forall k: nat | k < n - 1 ensures Bit(a / 2, k) == Bit(b / 2, k) { assert Bit(a, k + 1) == Bit(b, k + 1); }
      BitsDecide(a / 2, b / 2, n - 1);
    }
  }

  /** The bits of high on top of those of low. */
  lemma {:induction false} BitOfSum(high: nat, low: nat, n: nat, k: nat)
    requires low < Pow2(n)
    ensures Bit(high * Pow2(n) + low, k) == if k < n then Bit(low, k) else Bit(high, k - n)
    decreases n
  {
    if n > 0 {
      var h := high * Pow2(n - 1);
      assert high * Pow2(n) == 2 * h;
      HalfOf(h + low / 2, low % 2);
      if k > 0 { BitOfSum(high, low / 2, n - 1, k - 1); }
    }
  }

  lemma {:induction false} BitOfZero(k: nat)
    ensures Bit(0, k) == 0
  {
    if k > 0 { BitOfZero(k - 1); }
  }

  lemma BitBeyond(a: word, k: nat)
    requires k >= 32
    ensures Bit(a, k) == 0
  {
    Pow2Values();
    BitOfSum(0, a, 32, k);
    BitOfZero(k - 32);
  }

  /** A word is its high bits on top of its low bits, and a rotation has them the other way round. */
  lemma RotrParts(x: word, n: nat)
    requires 0 < n < 32
    ensures var low := x % Pow2(n);
            && x == Shr(x, n) * Pow2(n) + low && low < Pow2(n)
            && Rotr(x, n) == low * Pow2(32 - n) + Shr(x, n) && Shr(x, n) < Pow2(32 - n)
  {
    RotrMeaning(x, n);
    RotrIs(x, n);
    Pow2Values();
    PowSum(n, 32 - n);
    hide *;
    QuotientRemainder(x, Pow2(n));
    LowBelow(Shr(x, n), Pow2(n), Pow2(32 - n), x % Pow2(n));
  }

  /** Bit k of a rotated word is bit k + n, counted around. */
  lemma BitOfRotr(x: word, n: nat, k: nat)
    requires 0 < n < 32 && k < 32
    ensures Bit(Rotr(x, n), k) == Bit(x, (k + n) % 32)
  {
    hide *;
    RotrParts(x, n);
    var low, high, j := x % Pow2(n), Shr(x, n), if k + n < 32 then k + n else k + n - 32;
    assert j == (k + n) % 32;
    BitOfSum(low, high, 32 - n, k);
    BitOfSum(high, low, n, j);
  }

  lemma BitOfShr(x: word, n: nat, k: nat)
    requires 0 < n < 32
    ensures Bit(Shr(x, n), k) == if k + n < 32 then Bit(x, k + n) else 0
  {
    hide *;
    RotrParts(x, n);
    BitOfSum(Shr(x, n), x % Pow2(n), n, k + n);
    if k + n >= 32 { BitBeyond(x, k + n); }
  }

  lemma BitOfNot(x: word, k: nat)
    requires k < 32
    ensures Bit(Not(x), k) == 1 - Bit(x, k)
  {
    Pow2Values();
    BitOfComplement(x, 32, k);
  }

  lemma {:induction false} BitOfComplement(a: nat, n: nat, k: nat)
    requires a < Pow2(n) && k < n
    ensures Bit(Pow2(n) - 1 - a, k) == 1 - Bit(a, k)
    decreases n
  {
    var c := Pow2(n) - 1 - a;
    assert c == 2 * (Pow2(n - 1) - 1 - a / 2) + (1 - a % 2);
    HalfOf(Pow2(n - 1) - 1 - a / 2, 1 - a % 2);
    if k > 0 { BitOfComplement(a / 2, n - 1, k - 1); }
  }

  lemma BitsOfWords(x: word, y: word, k: nat)
    ensures Bit(And(x, y), k) == (if Bit(x, k) == 1 && Bit(y, k) == 1 then 1 else 0)
    ensures Bit(Xor(x, y), k) == (if Bit(x, k) != Bit(y, k) then 1 else 0)
    ensures 0 <= Bit(x, k) <= 1 && 0 <= Bit(y, k) <= 1
  {
    BitMeaning(x, y, k);
    BitIsBit(x, k);
    BitIsBit(y, k);
  }

  /** Ch takes each bit from y or from z as the bit of x says. */
  lemma ChMeaning(x: word, y: word, z: word, k: nat)
    requires k < 32
    ensures Bit(Ch(x, y, z), k) == if Bit(x, k) == 1 then Bit(y, k) else Bit(z, k)
  {
    BitsOfWords(x, y, k);
    BitOfNot(x, k);
    BitsOfWords(Not(x), z, k);
    BitsOfWords(And(x, y), And(Not(x), z), k);
  }

  /** Maj takes each bit that at least two of the three have. */
  lemma MajMeaning(x: word, y: word, z: word, k: nat)
    requires k < 32
    ensures Bit(Maj(x, y, z), k) == if Bit(x, k) + Bit(y, k) + Bit(z, k) >= 2 then 1 else 0
  {
    BitsOfWords(x, y, k);
    BitsOfWords(x, z, k);
    BitsOfWords(y, z, k);
    BitsOfWords(And(x, y), And(x, z), k);
    BitsOfWords(Xor(And(x, y), And(x, z)), And(y, z), k);
  }

  lemma BitOfXor3(x: word, y: word, z: word, k: nat)
    ensures Bit(Xor(Xor(x, y), z), k) == (Bit(x, k) + Bit(y, k) + Bit(z, k)) % 2
  {
    BitsOfWords(x, y, k);
    BitsOfWords(Xor(x, y), z, k);
  }

  /** The four sigma functions: each bit is the parity of three bits of the word. */
  lemma SigmaMeaning(x: word, k: nat)
    requires k < 32
    ensures Bit(BigSigma0(x), k) == (Bit(x, (k + 2) % 32) + Bit(x, (k + 13) % 32) + Bit(x, (k + 22) % 32)) % 2
    ensures Bit(BigSigma1(x), k) == (Bit(x, (k + 6) % 32) + Bit(x, (k + 11) % 32) + Bit(x, (k + 25) % 32)) % 2
    ensures Bit(Sigma0(x), k) ==
              (Bit(x, (k + 7) % 32) + Bit(x, (k + 18) % 32) + (if k < 29 then Bit(x, k + 3) else 0)) % 2
    ensures Bit(Sigma1(x), k) ==
              (Bit(x, (k + 17) % 32) + Bit(x, (k + 19) % 32) + (if k < 22 then Bit(x, k + 10) else 0)) % 2
  {
    hide Bit, Rotr, Shr, Xor;
    BitOfXor3(Rotr(x, 2), Rotr(x, 13), Rotr(x, 22), k);
    BitOfXor3(Rotr(x, 6), Rotr(x, 11), Rotr(x, 25), k);
    BitOfXor3(Rotr(x, 7), Rotr(x, 18), Shr(x, 3), k);
    BitOfXor3(Rotr(x, 17), Rotr(x, 19), Shr(x, 10), k);
    BitOfRotr(x, 2, k);
    BitOfRotr(x, 13, k);
    BitOfRotr(x, 22, k);
    BitOfRotr(x, 6, k);
    BitOfRotr(x, 11, k);
    BitOfRotr(x, 25, k);
    BitOfRotr(x, 7, k);
    BitOfRotr(x, 18, k);
    BitOfRotr(x, 17, k);
    BitOfRotr(x, 19, k);
    BitOfShr(x, 3, k);
    BitOfShr(x, 10, k);
  }

  /** Adding step by step modulo 2^32 is adding once. */
  lemma Sum4(a: word, b: word, c: word, d: word)
    ensures Add(Add(Add(a, b), c), d) == ToUint32(a + b + c + d)
  {
    hide *;
    WordIsItself(a);
    WordIsItself(b);
    WordIsItself(c);
    WordIsItself(d);
    WrappedSum4(a, b, c, d);
  }

  lemma Sum5(a: word, b: word, c: word, d: word, e: word)
    ensures Add(Add(Add(Add(a, b), c), d), e) == ToUint32(a + b + c + d + e)
  {
    hide *;
    Sum4(a, b, c, d);
    WordIsItself(e);
    WrappedSum(a + b + c + d, e);
  }

  lemma SumWith(n: nat, a: word)
    ensures Add(ToUint32(n), a) == Add(a, ToUint32(n)) == ToUint32(a + n)
  {
    hide *;
    WordIsItself(a);
    WrappedSum(n, a);
    WrappedSum(a, n);
  }

  /** The schedule: the sixteen words of the block, then sums of four earlier words. */
  lemma ScheduleMeaning(m: seq<word>, t: nat)
    requires |m| == 16
    ensures t < 16 ==> Schedule(m, t) == m[t]
    ensures t >= 16 ==>
              Schedule(m, t) == ToUint32(Sigma1(Schedule(m, t - 2)) + Schedule(m, t - 7) + Sigma0(Schedule(m, t - 15))
                                         + Schedule(m, t - 16))
  {
    hide Sigma0, Sigma1, Add, ToUint32;
    if t >= 16 {
      Sum4(Sigma1(Schedule(m, t - 2)), Schedule(m, t - 7), Sigma0(Schedule(m, t - 15)), Schedule(m, t - 16));
    }
  }

  lemma RoundMeaning(v: Vars, k: word, w: word)
    ensures IsRound(v, k, w, Round(v, k, w))
  {
    hide Ch, Maj, BigSigma0, BigSigma1, Add, ToUint32;
    var s, c, z, j := BigSigma1(v.e), Ch(v.e, v.f, v.g), BigSigma0(v.a), Maj(v.a, v.b, v.c);
    var n := v.h + s + c + k + w;
    Sum5(v.h, s, c, k, w);
    SumWith(n, v.d);
    WrappedSum(n, z as int + j as int);
    WordIsItself(z);
    WordIsItself(j);
    WrappedSum(z, j);
  }

  /** t follows v by one round: all variables move on by one, two of them with a sum. */
  ghost predicate IsRound(v: Vars, k: word, w: word, t: Vars) {
    && (t.b, t.c, t.d) == (v.a, v.b, v.c) && (t.f, t.g, t.h) == (v.e, v.f, v.g)
    && t.e == ToUint32(v.d + v.h + BigSigma1(v.e) + Ch(v.e, v.f, v.g) + k + w)
    && t.a == ToUint32(v.h + BigSigma1(v.e) + Ch(v.e, v.f, v.g) + k + w + BigSigma0(v.a) + Maj(v.a, v.b, v.c))
  }

  /** w is the message schedule of a block: its sixteen words, then sums of four earlier words. */
  ghost predicate IsSchedule(m: seq<word>, w: seq<word>) {
    && |m| == 16 && |w| == 64 && w[..16] == m
    && forall t :: 16 <= t < 64 ==> IsSum(w, t)
  }

  ghost predicate IsSum(w: seq<word>, t: nat)
    requires 16 <= t < |w|
  {
    w[t] == ToUint32(Sigma1(w[t - 2]) + w[t - 7] + Sigma0(w[t - 15]) + w[t - 16])
  }

  /** What the hash of one block is, told by its trace: the schedule w, and the variables vs before and after
      each of the 64 rounds, the last of which are added to the first. */
  lemma CompressMeaning(v: Vars, m: seq<word>) returns (w: seq<word>, vs: seq<Vars>)
    requires |m| == 16
    ensures IsSchedule(m, w)
    ensures |vs| == 65 && vs[0] == v && forall t :: 0 <= t < 64 ==> IsRound(vs[t], K[t], w[t], vs[t + 1])
    ensures var x, r := vs[64], Compress(v, m);
            && r.a == ToUint32(v.a + x.a) && r.b == ToUint32(v.b + x.b) && r.c == ToUint32(v.c + x.c)
            && r.d == ToUint32(v.d + x.d) && r.e == ToUint32(v.e + x.e) && r.f == ToUint32(v.f + x.f)
            && r.g == ToUint32(v.g + x.g) && r.h == ToUint32(v.h + x.h)
  {
    hide *;
    w := seq(64, t requires 0 <= t < 64 => Schedule(m, t));
    vs := seq(65, t requires 0 <= t < 65 => Rounds(v, m, t));
    ScheduleTraced(m, w);
    SixtyFour();
    forall t | 0 <= t < 64 ensures IsRound(vs[t], K[t], w[t], vs[t + 1]) { RoundAt(v, m, t); }
    RoundAt(v, m, 0);
    AddedBack(v, m, Rounds(v, m, 64));
  }

  lemma SixtyFour()
    ensures |K| == 64
  {
  }

  lemma ScheduleTraced(m: seq<word>, w: seq<word>)
    requires |m| == 16 && |w| == 64 && forall t: nat :: t < 64 ==> w[t] == Schedule(m, t)
    ensures IsSchedule(m, w)
  {
    hide Schedule, IsSum;
    forall t: nat | t < 16 ensures w[t] == m[t] { ScheduleMeaning(m, t); }
    assert w[..16] == m;
    forall t | 16 <= t < 64 ensures IsSum(w, t) { SumAt(m, w, t); }
  }

  lemma SumAt(m: seq<word>, w: seq<word>, t: nat)
    requires |m| == 16 && |w| == 64 && 16 <= t < 64
    requires forall i: nat :: i < 64 ==> w[i] == Schedule(m, i)
    ensures IsSum(w, t)
  {
    hide Schedule, Sigma0, Sigma1, ToUint32;
    ScheduleMeaning(m, t);
    var a, b, c, d := t - 2, t - 7, t - 15, t - 16;
    assert w[a] == Schedule(m, a) && w[b] == Schedule(m, b) && w[c] == Schedule(m, c) && w[d] == Schedule(m, d);
  }

  lemma RoundAt(v: Vars, m: seq<word>, t: nat)
    requires |m| == 16 && t < 64
    ensures Rounds(v, m, 0) == v && IsRound(Rounds(v, m, t), K[t], Schedule(m, t), Rounds(v, m, t + 1))
  {
    hide Round, IsRound, Schedule;
    RoundMeaning(Rounds(v, m, t), K[t], Schedule(m, t));
  }

  lemma AddedBack(v: Vars, m: seq<word>, x: Vars)
    requires |m| == 16 && x == Rounds(v, m, 64)
    ensures var r := Compress(v, m);
            && r.a == ToUint32(v.a + x.a) && r.b == ToUint32(v.b + x.b) && r.c == ToUint32(v.c + x.c)
            && r.d == ToUint32(v.d + x.d) && r.e == ToUint32(v.e + x.e) && r.f == ToUint32(v.f + x.f)
            && r.g == ToUint32(v.g + x.g) && r.h == ToUint32(v.h + x.h)
  {
    hide Rounds, Add, ToUint32;
    SumOf(v.a, x.a);
    SumOf(v.b, x.b);
    SumOf(v.c, x.c);
    SumOf(v.d, x.d);
    SumOf(v.e, x.e);
    SumOf(v.f, x.f);
    SumOf(v.g, x.g);
    SumOf(v.h, x.h);
  }

  lemma SumOf(a: word, b: word)
    ensures Add(a, b) == ToUint32(a + b)
  {
  }

  /** What the digest is, told by its trace: the hash value starts as section 5.3.3 has it and takes in one
      block of 64 bytes after the other; what it ends as, in big-endian bytes, is the digest. */
  lemma HashMeaning(message: seq<byte>) returns (hs: seq<Vars>)
    ensures var p := Pad(message);
            && 64 * (|hs| - 1) == |p| && hs[0] == H0
            && forall i :: 0 <= i < |hs| - 1 ==> 64 * i + 64 <= |p| && hs[i + 1] == Compress(hs[i], Block(p, i))
    ensures var d, x := Sha256(message), hs[|hs| - 1];
            && Number(d[..4]) == x.a && Number(d[4..8]) == x.b && Number(d[8..12]) == x.c && Number(d[12..16]) == x.d
            && Number(d[16..20]) == x.e && Number(d[20..24]) == x.f && Number(d[24..28]) == x.g && Number(d[28..]) == x.h
  {
    hide *;
    var p := Pad(message);
    var n := |p| / 64;
    hs := seq(n + 1, i requires 0 <= i < n + 1 => HashBlocks(p, i));
    forall i | 0 <= i < n
      ensures 64 * i + 64 <= |p| && hs[i + 1] == Compress(hs[i], Block(p, i))
    {
      BlockTaken(p, i);
    }
    DigestOf(message);
    OutputMeaning(hs[n]);
  }

  lemma BlockTaken(p: seq<byte>, i: nat)
    requires 64 * i + 64 <= |p|
    ensures HashBlocks(p, i + 1) == Compress(HashBlocks(p, i), Block(p, i))
  {
    hide Compress, Block;
  }

  /** The words of a block: four bytes each, in big-endian order. */
  lemma BlockMeaning(p: seq<byte>, i: nat, t: nat)
    requires 64 * i + 64 <= |p| && t < 16
    ensures var k := 64 * i + 4 * t;
            Block(p, i)[t] == p[k] as int * 0x100_0000 + p[k + 1] as int * 0x1_0000 + p[k + 2] as int * 0x100 + p[k + 3] as int
  {
    var b := p[64 * i + 4 * t..64 * i + 4 * t + 4];
    assert Block(p, i)[t] == Number(b);
    hide Block;
    assert b[..3][..2] == b[..2] && b[..2][..1] == b[..1] && b[..1][..0] == [];
    assert Number(b[..1]) == b[0] as int;
    assert Number(b[..2]) == Number(b[..1]) * 256 + b[1] as int;
    assert Number(b[..3]) == Number(b[..2]) * 256 + b[2] as int;
    assert Number(b) == Number(b[..3]) * 256 + b[3] as int;
  }

  lemma DigestOf(message: seq<byte>)
    ensures var p := Pad(message); HashBlocks(p, 0) == H0 && Sha256(message) == Output(HashBlocks(p, |p| / 64))
  {
    hide Compress, Output, Pad;
  }

  lemma OutputMeaning(x: Vars)
    ensures var d := Output(x);
            && Number(d[..4]) == x.a && Number(d[4..8]) == x.b && Number(d[8..12]) == x.c && Number(d[12..16]) == x.d
            && Number(d[16..20]) == x.e && Number(d[20..24]) == x.f && Number(d[24..28]) == x.g && Number(d[28..]) == x.h
  {
    var d := Output(x);
    assert Pow256(4) == 0x1_0000_0000;
    hide BigEndian, Pow256, Number;
    assert d[..4] == BigEndian(x.a, 4) && d[4..8] == BigEndian(x.b, 4) && d[8..12] == BigEndian(x.c, 4);
    assert d[12..16] == BigEndian(x.d, 4) && d[16..20] == BigEndian(x.e, 4) && d[20..24] == BigEndian(x.f, 4);
    assert d[24..28] == BigEndian(x.g, 4) && d[28..] == BigEndian(x.h, 4);
    NumberOfBigEndian(x.a, 4);
    NumberOfBigEndian(x.b, 4);
    NumberOfBigEndian(x.c, 4);
    NumberOfBigEndian(x.d, 4);
    NumberOfBigEndian(x.e, 4);
    NumberOfBigEndian(x.f, 4);
    NumberOfBigEndian(x.g, 4);
    NumberOfBigEndian(x.h, 4);
  }

  /** The padded message: the message, one bit, zeros, and its length in bits in the last eight bytes, in as
      few blocks of 64 bytes as hold them (section 5.1.1). */
  lemma PadMeaning(message: seq<byte>)
    ensures var p, n := Pad(message), |message|;
            && n + 9 <= |p| < n + 9 + 64 && |p| % 64 == 0
            && p[..n] == message && p[n] == 0x80
            && (forall i :: n < i < |p| - 8 ==> p[i] == 0)
            && (8 * n < 0x1_0000_0000_0000_0000 ==> Number(p[|p| - 8..]) == 8 * n)
  {
    var p, n, size := Pad(message), |message|, BigEndian(8 * |message|, 8);
    assert p == message + [0x80] + Zeros(ZeroBytes(n)) + size;
    assert p[|p| - 8..] == size;
    PowValues();
    if 8 * n < 0x1_0000_0000_0000_0000 { NumberOfBigEndian(8 * n, 8); }
  }

  /** What HMAC does with a byte of the key: its bits are turned where the other byte has ones. */
  lemma XorByteMeaning(a: byte, b: byte, k: nat)
    ensures Bit(XorByte(a, b) as int, k) == if Bit(a as int, k) != Bit(b as int, k) then 1 else 0
  {
    BitMeaning(a as int, b as int, k);
  }
}
