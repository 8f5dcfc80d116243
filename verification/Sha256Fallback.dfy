/** The login page's own SHA-256 and HMAC (admin/view/login.html): typed arrays and number arithmetic. */
module Sha256Fallback {
  import opened Prelude
  import opened Bytes
  import opened Words
  import opened Fips180

  lemma RotateMeans(x: word, n: nat)
    requires 0 < n < 32
    ensures Rotr(x, n) == Or(Shr(x, n), Shl(x, 32 - n)) && ToUint32(Shr(x, n)) == Shr(x, n)
  {
  }

  function RightRotate(value: int, bits: nat): (r: int)
    requires 0 < bits < 32
    ensures -0x8000_0000 <= r < 0x8000_0000 && ToUint32(r) == Rotr(ToUint32(value), bits)
  {
    hide *;
    RotateMeans(ToUint32(value), bits);
    JsOr(JsShr(value, bits), JsShl(value, 32 - bits))
  }

  /** One byte of a word, by shift and mask. */
  function ByteOf(x: word, shift: nat): (b: byte)
    requires shift < 32
  {
    var r := JsAnd(JsShr(x, shift), 0xff);
    MaskByte(JsShr(x, shift));
    r as byte
  }

  lemma MaskByte(x: word)
    ensures JsAnd(x, 0xff) == x % 256
  {
    hide *;
    MaskWord(x);
    WordIsItself(x);
    WordIsItself(0xff);
    SmallSigned(JsAnd(x, 0xff), x % 256);
  }

  lemma MaskWord(x: word)
    ensures And(x, 0xff) == x % 256
  {
    assert Pow2(8) == 256;
    AndMask(x, 8);
  }

  lemma SmallSigned(r: int, w: word)
    requires -0x8000_0000 <= r < 0x8000_0000 && ToUint32(r) == w && w < 0x8000_0000
    ensures r == w
  {
  }

  lemma ByteOfMeaning(x: word, shift: nat)
    requires shift < 32
    ensures ByteOf(x, shift) as int == (x / Pow2(shift)) % 256
  {
    hide *;
    ByteOfIs(x, shift);
    ShiftIs(x, shift);
    MaskByte(JsShr(x, shift));
  }

  lemma ByteOfIs(x: word, shift: nat)
    requires shift < 32
    ensures ByteOf(x, shift) as int == JsAnd(JsShr(x, shift), 0xff)
  {
    hide JsAnd, JsShr;
  }

  lemma ShiftIs(x: word, shift: nat)
    requires shift < 32
    ensures JsShr(x, shift) == x / Pow2(shift)
  {
    WordIsItself(x);
    hide ToUint32, Pow2;
  }

  lemma BigEndianBytes(x: word)
    ensures BigEndian(x, 4) == [ByteOf(x, 24), ByteOf(x, 16), ByteOf(x, 8), ByteOf(x, 0)]
  {
    hide *;
    Pow2Values();
    ByteOfMeaning(x, 24);
    ByteOfMeaning(x, 16);
    ByteOfMeaning(x, 8);
    ByteOfMeaning(x, 0);
    Pow2Zero();
    LastFour(x, 0);
    assert BigEndian(x / 0x1_0000_0000, 0) == [];
  }

  lemma Pow2Zero()
    ensures Pow2(0) == 1
  {
  }

  // ---------------------------------------------------------------- padding

  /** The length arithmetic of the buffer, with the browser's 32-bit shifts: exact up to 2^31 - 73, and
      beyond that never large enough to hold the input. */
  lemma TotalLength(length: nat)
    ensures var total := JsShl(JsSar(length + 9 + 63, 6), 6);
            if length + 72 < 0x8000_0000 then total == length + 1 + ZeroBytes(length) + 8
            else total < length
  {
    assert Pow2(6) == 64;
    var x := ToInt32(length + 72);
    var q := x / 64;
    assert JsSar(length + 9 + 63, 6) == q;
    assert ToUint32(JsShl(q, 6)) == (ToUint32(q) * 64) % 0x1_0000_0000;
    ShiftBack(q, JsShl(q, 6));
    assert JsShl(q, 6) == 64 * q;
  }

  lemma ShiftBack(q: int, r: int)
    requires -0x8000_0000 <= 64 * q < 0x8000_0000 && -0x8000_0000 <= r < 0x8000_0000
    requires ToUint32(r) == (ToUint32(q) * 64) % 0x1_0000_0000
    ensures r == 64 * q
  {
  }

  /** The eight length bytes at the end of the buffer. */
  method PutLength(buf: array<byte>, total: nat, hi: word, lo: word)
    requires 8 <= total == buf.Length
    modifies buf
    ensures buf[..total - 8] == old(buf[..total - 8]) && buf[total - 8..] == BigEndian(hi, 4) + BigEndian(lo, 4)
  {
    hide *;
    BigEndianBytes(hi);
    BigEndianBytes(lo);
    buf[total - 8] := ByteOf(hi, 24);
    buf[total - 7] := ByteOf(hi, 16);
    buf[total - 6] := ByteOf(hi, 8);
    buf[total - 5] := ByteOf(hi, 0);
    buf[total - 4] := ByteOf(lo, 24);
    buf[total - 3] := ByteOf(lo, 16);
    buf[total - 2] := ByteOf(lo, 8);
    buf[total - 1] := ByteOf(lo, 0);
  }

  /** The padded copy, or None for the RangeError of a length or an offset out of range. */
  method PadMessage(input: seq<byte>) returns (bytes: Option<seq<byte>>)
    ensures bytes == if |input| + 72 < 0x8000_0000 then Some(Pad(input)) else None
  {
    hide *;
    var length := |input|;
    var total := JsShl(JsSar(length + 9 + 63, 6), 6);
    TotalLength(length);
    if total < 0 { return None; }       // new Uint8Array(total)
    if length > total { return None; }  // bytes.set(inputBytes)
    var hi, lo := length * 8 / 0x1_0000_0000, Wrap(length * 8);
    var buf := new byte[total](_ => 0);
    forall i | 0 <= i < length { buf[i] := input[i]; }
    buf[length] := 0x80;
    ghost var zeros := total - 8 - (length + 1);
    assert buf[..total - 8] == input + [0x80] + buf[length + 1..total - 8];
    ZerosAre(buf[length + 1..total - 8]);
    PutLength(buf, total, hi, lo);
    LengthField(8 * length);
    assert buf[..] == buf[..total - 8] + buf[total - 8..];
    PadParts(input);
    bytes := Some(buf[..]);
  }

  lemma ZerosAre(s: seq<byte>)
    requires forall i :: 0 <= i < |s| ==> s[i] == 0
    ensures s == Zeros(|s|)
  {
  }

  lemma PadParts(input: seq<byte>)
    ensures Pad(input) == input + [0x80] + Zeros(ZeroBytes(|input|)) + BigEndian(8 * |input|, 8)
  {
  }

  /** The length, split at 32 bits. */
  lemma LengthField(n: nat)
    ensures BigEndian(n, 8) == BigEndian(n / 0x1_0000_0000, 4) + BigEndian(ToUint32(n), 4)
  {
    hide *;
    LastFour(n, 4);
    LastFour(ToUint32(n), 0);
    Quotient(n);
    LowBytes(n, n / 0x1_0000_0000, ToUint32(n));
    assert BigEndian(ToUint32(n) / 0x1_0000_0000, 0) == [];
  }

  lemma Quotient(n: nat)
    ensures n == n / 0x1_0000_0000 * 0x1_0000_0000 + ToUint32(n)
  {
  }

  lemma LowBytes(n: nat, q: nat, m: word)
    requires n == q * 0x1_0000_0000 + m
    ensures n % 256 == m % 256 && n / 256 % 256 == m / 256 % 256
    ensures n / 0x10000 % 256 == m / 0x10000 % 256 && n / 0x1000000 % 256 == m / 0x1000000 % 256
  {
    DropByte(n, q * 0x1000000, m);
    DropByte(n / 256, q * 0x10000, m / 256);
    DropByte(n / 256 / 256, q * 256, m / 256 / 256);
    DropByte(n / 256 / 256 / 256, q, m / 256 / 256 / 256);
    DropTwice(n);
    DropTwice(m);
  }

  lemma DropByte(n: nat, d: nat, m: nat)
    requires n == d * 256 + m
    ensures n % 256 == m % 256 && n / 256 == d + m / 256
  {
  }

  lemma DropTwice(n: nat)
    ensures n / 256 / 256 == n / 0x10000 && n / 256 / 256 / 256 == n / 0x1000000
  {
  }

  lemma LastFour(n: nat, k: nat)
    ensures BigEndian(n, k + 4) == BigEndian(n / 0x1_0000_0000, k) +
              [(n / 0x1000000 % 256) as byte, (n / 0x10000 % 256) as byte, (n / 256 % 256) as byte, (n % 256) as byte]
  {
    assert BigEndian(n, k + 4) == BigEndian(n / 256, k + 3) + [(n % 256) as byte];
    assert BigEndian(n / 256, k + 3) == BigEndian(n / 0x10000, k + 2) + [(n / 256 % 256) as byte];
    assert BigEndian(n / 0x10000, k + 2) == BigEndian(n / 0x1000000, k + 1) + [(n / 0x10000 % 256) as byte];
    assert BigEndian(n / 0x1000000, k + 1) == BigEndian(n / 0x1_0000_0000, k) + [(n / 0x1000000 % 256) as byte];
  }

  // ---------------------------------------------------------------- one block

  /** Four bytes put together by shifts and ors. */
  function PackWord(b0: byte, b1: byte, b2: byte, b3: byte): (w: word) {
    ToUint32(JsOr(JsOr(JsOr(JsShl(b0 as int, 24), JsShl(b1 as int, 16)), JsShl(b2 as int, 8)), b3 as int))
  }

  lemma PackOr(b0: byte, b1: byte, b2: byte, b3: byte)
    ensures PackWord(b0, b1, b2, b3)
         == Or(Or(Or(Shl(b0 as int, 24), Shl(b1 as int, 16)), Shl(b2 as int, 8)), b3 as int)
  {
    hide Shl, Or;
  }

  lemma OrSum(high: nat, low: nat, n: nat, c: nat, h: word)
    requires Pow2(n) == c && low < c && h == high * c && h + low < TWO32
    ensures Or(h, low) == h + low
  {
    OrAdds(high, low, n);
  }

  lemma ShlByte(b: byte)
    ensures Shl(b as int, 24) == b as int * 0x1000000 && Shl(b as int, 16) == b as int * 0x10000 && Shl(b as int, 8) == b as int * 256
  {
    Pow2Values();
    hide Pow2;
  }

  lemma PackIsBigEndian(bytes: seq<byte>, at: nat)
    requires at + 4 <= |bytes|
    ensures PackWord(bytes[at], bytes[at + 1], bytes[at + 2], bytes[at + 3]) == WordAt(bytes, at)
  {
    var b0, b1, b2, b3 := bytes[at], bytes[at + 1], bytes[at + 2], bytes[at + 3];
    NumberOfFour(bytes, at);
    hide *;
    PackOr(b0, b1, b2, b3);
    ShlByte(b0);
    ShlByte(b1);
    ShlByte(b2);
    Pow2Values();
    var x0, x1, x2, x3: word := b0 as int * 0x1000000, b1 as int * 0x10000, b2 as int * 256, b3 as int;
    OrThree(b0 as int, b1 as int, b2 as int, b3 as int, x0, x1, x2, x3);
  }

  lemma OrThree(b0: nat, b1: nat, b2: nat, b3: nat, x0: word, x1: word, x2: word, x3: word)
    requires b0 < 256 && b1 < 256 && b2 < 256 && b3 < 256
    requires x0 == b0 * 0x1000000 && x1 == b1 * 0x10000 && x2 == b2 * 256 && x3 == b3
    ensures Or(Or(Or(x0, x1), x2), x3) == x0 + x1 + x2 + x3
  {
    hide *;
    Pow2Values();
    TwoTo32();
    OrSum(b0, x1, 24, 0x1000000, x0);
    OrSum(b0 * 256 + b1, x2, 16, 0x10000, x0 + x1);
    OrSum(b0 * 0x10000 + b1 * 256 + b2, x3, 8, 256, x0 + x1 + x2);
  }

  lemma TwoTo32()
    ensures TWO32 == 0x1_0000_0000
  {
  }

  lemma NumberOfFour(bytes: seq<byte>, at: nat)
    requires at + 4 <= |bytes|
    ensures WordAt(bytes, at) ==
      bytes[at] as int * 0x1000000 + bytes[at + 1] as int * 0x10000 + bytes[at + 2] as int * 256 + bytes[at + 3] as int
  {
    var s := bytes[at..at + 4];
    assert Number(s) == Number(s[..3]) * 256 + s[3] as int;
    assert s[..3][..2] == s[..2] && Number(s[..3]) == Number(s[..2]) * 256 + s[2] as int;
    assert s[..2][..1] == s[..1] && Number(s[..2]) == Number(s[..1]) * 256 + s[1] as int;
    assert s[..1][..0] == [] && Number(s[..1]) == s[0] as int;
  }

  /** The small sigma of the schedule, in signed numbers. */
  function JsSigma(x: word, r1: nat, r2: nat, shift: nat): (r: int)
    requires 0 < r1 < 32 && 0 < r2 < 32 && shift < 32
    ensures -0x8000_0000 <= r < 0x8000_0000
    ensures ToUint32(r) == Xor(Xor(Rotr(x, r1), Rotr(x, r2)), Shr(x, shift))
  {
    hide *;
    WordIsItself(x);
    WordIsItself(JsShr(x, shift));
    JsXor(JsXor(RightRotate(x, r1), RightRotate(x, r2)), JsShr(x, shift))
  }

  /** The big sigma of the rounds. */
  function JsBigSigma(x: word, r1: nat, r2: nat, r3: nat): (r: int)
    requires 0 < r1 < 32 && 0 < r2 < 32 && 0 < r3 < 32
    ensures -0x8000_0000 <= r < 0x8000_0000
    ensures ToUint32(r) == Xor(Xor(Rotr(x, r1), Rotr(x, r2)), Rotr(x, r3))
  {
    hide *;
    WordIsItself(x);
    JsXor(JsXor(RightRotate(x, r1), RightRotate(x, r2)), RightRotate(x, r3))
  }

  /** The schedule of one block, filled in place. */
  method FillSchedule(bytes: seq<byte>, i: nat, w: array<word>)
    requires 64 * i + 64 <= |bytes| && w.Length == 64
    modifies w
    ensures forall t :: 0 <= t < 64 ==> w[t] == Schedule(Block(bytes, i), t)
  {
    hide *;
    ghost var m := Block(bytes, i);
    for t := 0 to 16
      invariant forall j :: 0 <= j < t ==> w[j] == Schedule(m, j)
    {
      var index := 64 * i + t * 4;
      PackIsBigEndian(bytes, index);
      ScheduleLoads(bytes, i, t);
      w[t] := PackWord(bytes[index], bytes[index + 1], bytes[index + 2], bytes[index + 3]);
    }
    for t := 16 to 64
      invariant forall j :: 0 <= j < t ==> w[j] == Schedule(m, j)
    {
      var s0 := JsSigma(w[t - 15], 7, 18, 3);
      var s1 := JsSigma(w[t - 2], 17, 19, 10);
      ScheduleExtends(m, t);
      WordIsItself(w[t - 16]);
      WordIsItself(w[t - 7]);
      SigmaMeans(w[t - 15], w[t - 2]);
      WrappedSum4(w[t - 16], s0, w[t - 7], s1);
      assert -0x20_0000_0000_0000 <= w[t - 16] + s0 + w[t - 7] + s1 <= 0x20_0000_0000_0000;  // exact in doubles
      w[t] := Wrap(w[t - 16] + s0 + w[t - 7] + s1);
    }
  }

  lemma SigmaMeans(x: word, y: word)
    ensures Sigma0(x) == Xor(Xor(Rotr(x, 7), Rotr(x, 18)), Shr(x, 3))
    ensures Sigma1(y) == Xor(Xor(Rotr(y, 17), Rotr(y, 19)), Shr(y, 10))
  {
  }

  lemma ScheduleLoads(bytes: seq<byte>, i: nat, t: nat)
    requires 64 * i + 64 <= |bytes| && t < 16
    ensures Schedule(Block(bytes, i), t) == WordAt(bytes, 64 * i + t * 4)
  {
  }

  lemma ScheduleExtends(m: seq<word>, t: nat)
    requires |m| == 16 && 16 <= t
    ensures Schedule(m, t) ==
      Add(Add(Add(Sigma1(Schedule(m, t - 2)), Schedule(m, t - 7)), Sigma0(Schedule(m, t - 15))), Schedule(m, t - 16))
  {
  }

  // ---------------------------------------------------------------- the rounds

  lemma ChoiceMeans(x: word, y: word, z: word)
    ensures ToUint32(x) == x && ToUint32(y) == y && ToUint32(z) == z
    ensures Ch(x, y, z) == Xor(And(x, y), And(Not(x), z))
    ensures Maj(x, y, z) == Xor(Xor(And(x, y), And(x, z)), And(y, z))
  {
  }

  function JsCh(e: word, f: word, g: word): (r: int)
    ensures -0x8000_0000 <= r < 0x8000_0000 && ToUint32(r) == Ch(e, f, g)
  {
    hide *;
    ChoiceMeans(e, f, g);
    JsXor(JsAnd(e, f), JsAnd(JsNot(e), g))
  }

  function JsMaj(a: word, b: word, c: word): (r: int)
    ensures -0x8000_0000 <= r < 0x8000_0000 && ToUint32(r) == Maj(a, b, c)
  {
    hide *;
    ChoiceMeans(a, b, c);
    JsXor(JsXor(JsAnd(a, b), JsAnd(a, c)), JsAnd(b, c))
  }

  lemma RoundMeans(v: Vars, k: word, w: word, t1: word, t2: word)
    requires t1 == Add(Add(Add(Add(v.h, BigSigma1(v.e)), Ch(v.e, v.f, v.g)), k), w)
    requires t2 == Add(BigSigma0(v.a), Maj(v.a, v.b, v.c))
    ensures Round(v, k, w) == Vars(Add(t1, t2), v.a, v.b, v.c, Add(v.d, t1), v.e, v.f, v.g)
  {
  }

  lemma BigSigmaMeans(x: word)
    ensures BigSigma0(x) == Xor(Xor(Rotr(x, 2), Rotr(x, 13)), Rotr(x, 22))
    ensures BigSigma1(x) == Xor(Xor(Rotr(x, 6), Rotr(x, 11)), Rotr(x, 25))
  {
  }

  /** One iteration of the round loop. */
  method DoRound(v: Vars, kt: word, wt: word) returns (r: Vars)
    ensures r == Round(v, kt, wt)
  {
    hide *;
    var s1 := JsBigSigma(v.e, 6, 11, 25);
    var ch := JsCh(v.e, v.f, v.g);
    var temp1: int := Wrap(v.h + s1 + ch + kt + wt);
    var s0 := JsBigSigma(v.a, 2, 13, 22);
    var maj := JsMaj(v.a, v.b, v.c);
    var temp2: int := Wrap(s0 + maj);
    r := Vars(Wrap(temp1 + temp2), v.a, v.b, v.c, Wrap(v.d + temp1), v.e, v.f, v.g);
    BigSigmaMeans(v.e);
    BigSigmaMeans(v.a);
    WrappedSum5(v.h, s1, ch, kt, wt);
    WrappedSum(s0, maj);
    WrappedSum(temp1, temp2);
    WrappedSum(v.d, temp1);
    WordIsItself(v.h);
    WordIsItself(kt);
    WordIsItself(wt);
    WordIsItself(v.d);
    WordIsItself(temp1);
    WordIsItself(temp2);
    RoundMeans(v, kt, wt, temp1, temp2);
  }

  /** The hash array as working variables. */
  function AsVars(h: seq<word>): Vars
    requires |h| == 8
  {
    Vars(h[0], h[1], h[2], h[3], h[4], h[5], h[6], h[7])
  }

  /** One block: 64 rounds on copies of the hash words, added back in place. */
  method CompressBlock(h: array<word>, w: array<word>, m: seq<word>)
    requires h.Length == 8 && w.Length == 64 && |m| == 16 && h != w
    requires forall t :: 0 <= t < 64 ==> w[t] == Schedule(m, t)
    modifies h
    ensures AsVars(h[..]) == Compress(old(AsVars(h[..])), m)
  {
    hide Schedule, Round, Add, ToUint32;
    ghost var start := AsVars(h[..]);
    var v := Vars(h[0], h[1], h[2], h[3], h[4], h[5], h[6], h[7]);
    for t := 0 to 64
      invariant v == Rounds(start, m, t) && h[..] == old(h[..])
    {
      v := DoRound(v, K[t], w[t]);
    }
    AddBack(start, v, m);
    WrappedWords(start, v);
    h[0] := Wrap(h[0] + v.a);
    h[1] := Wrap(h[1] + v.b);
    h[2] := Wrap(h[2] + v.c);
    h[3] := Wrap(h[3] + v.d);
    h[4] := Wrap(h[4] + v.e);
    h[5] := Wrap(h[5] + v.f);
    h[6] := Wrap(h[6] + v.g);
    h[7] := Wrap(h[7] + v.h);
    assert AsVars(h[..]) == Vars(h[0], h[1], h[2], h[3], h[4], h[5], h[6], h[7]);
  }

  lemma WrappedWords(x: Vars, y: Vars)
    ensures ToUint32(x.a + y.a) == Add(x.a, y.a) && ToUint32(x.b + y.b) == Add(x.b, y.b)
    ensures ToUint32(x.c + y.c) == Add(x.c, y.c) && ToUint32(x.d + y.d) == Add(x.d, y.d)
    ensures ToUint32(x.e + y.e) == Add(x.e, y.e) && ToUint32(x.f + y.f) == Add(x.f, y.f)
    ensures ToUint32(x.g + y.g) == Add(x.g, y.g) && ToUint32(x.h + y.h) == Add(x.h, y.h)
  {
  }

  lemma AddBack(v: Vars, w: Vars, m: seq<word>)
    requires |m| == 16 && w == Rounds(v, m, 64)
    ensures Compress(v, m) == Vars(Add(v.a, w.a), Add(v.b, w.b), Add(v.c, w.c), Add(v.d, w.d),
                                   Add(v.e, w.e), Add(v.f, w.f), Add(v.g, w.g), Add(v.h, w.h))
  {
  }

  // ---------------------------------------------------------------- the digest

  /** The hash words as bytes. */
  method WriteDigest(h: array<word>) returns (output: array<byte>)
    requires h.Length == 8
    ensures fresh(output) && output[..] == Output(AsVars(h[..]))
  {
    hide ByteOf, BigEndian;
    output := new byte[32];
    for i := 0 to 8
      invariant output[..4 * i] == WordBytes(h[..i])
    {
      BigEndianBytes(h[i]);
      assert h[..i + 1][..i] == h[..i];
      output[i * 4] := ByteOf(h[i], 24);
      output[i * 4 + 1] := ByteOf(h[i], 16);
      output[i * 4 + 2] := ByteOf(h[i], 8);
      output[i * 4 + 3] := ByteOf(h[i], 0);
      assert output[..4 * i + 4] == output[..4 * i] + [output[4 * i], output[4 * i + 1], output[4 * i + 2], output[4 * i + 3]];
    }
    assert h[..8] == h[..] && output[..32] == output[..];
    OutputIsWordBytes(h[..]);
  }

  function WordBytes(h: seq<word>): seq<byte> {
    if h == [] then [] else WordBytes(h[..|h| - 1]) + BigEndian(h[|h| - 1], 4)
  }

  lemma OutputIsWordBytes(h: seq<word>)
    requires |h| == 8
    ensures WordBytes(h) == Output(AsVars(h))
  {
    hide BigEndian;
    assert h[..7][..6] == h[..6] && h[..6][..5] == h[..5] && h[..5][..4] == h[..4];
    assert h[..4][..3] == h[..3] && h[..3][..2] == h[..2] && h[..2][..1] == h[..1] && h[..1][..0] == [];
    assert WordBytes(h[..1]) == BigEndian(h[0], 4);
    assert WordBytes(h[..2]) == WordBytes(h[..1]) + BigEndian(h[1], 4);
    assert WordBytes(h[..3]) == WordBytes(h[..2]) + BigEndian(h[2], 4);
    assert WordBytes(h[..4]) == WordBytes(h[..3]) + BigEndian(h[3], 4);
    assert WordBytes(h[..5]) == WordBytes(h[..4]) + BigEndian(h[4], 4);
    assert WordBytes(h[..6]) == WordBytes(h[..5]) + BigEndian(h[5], 4);
    assert WordBytes(h[..7]) == WordBytes(h[..6]) + BigEndian(h[6], 4);
    assert WordBytes(h) == WordBytes(h[..7]) + BigEndian(h[7], 4);
  }

  /** The digest of FIPS 180-4 for every message the browser can pad, that is up to 2^31 - 73 bytes;
      beyond that the length arithmetic leaves 32 bits and allocating or filling the buffer throws. */
  method Sha256Js(input: seq<byte>) returns (output: Option<seq<byte>>)
    ensures output == if |input| + 72 < 0x8000_0000 then Some(Sha256(input)) else None
  {
    hide Pad, Compress, Schedule, Output, Block, ZeroBytes;
    var padded := PadMessage(input);
    if padded == None { return None; }
    var bytes := padded.value;
    var h := new word[8];
    h[0], h[1], h[2], h[3] := 0x6a09e667, 0xbb67ae85, 0x3c6ef372, 0xa54ff53a;
    h[4], h[5], h[6], h[7] := 0x510e527f, 0x9b05688c, 0x1f83d9ab, 0x5be0cd19;
    var w := new word[64];
    for i := 0 to |bytes| / 64
      invariant AsVars(h[..]) == HashBlocks(bytes, i)
    {
      FillSchedule(bytes, i, w);
      CompressBlock(h, w, Block(bytes, i));
    }
    var digest := WriteDigest(h);
    output := Some(digest[..]);
  }

  // ---------------------------------------------------------------- HMAC

  lemma XorFits(a: byte, b: byte)
    ensures JsXor(a as int, b as int) == XorByte(a, b) as int
  {
    WordIsItself(a as int);
    WordIsItself(b as int);
    SmallSigned(JsXor(a as int, b as int), XorByte(a, b) as int);
  }

  /** HMAC of RFC 2104 for keys of any length the hash accepts; None when a hash throws. */
  method HmacSha256Js(key: seq<byte>, message: seq<byte>) returns (output: Option<seq<byte>>)
    ensures output == if |key| + 72 < 0x8000_0000 && |message| + 136 < 0x8000_0000 then Some(Hmac(key, message)) else None
    ensures output.Some? ==>
              var k := if |key| > 64 then Sha256(key) else key;
              var block := k + Zeros(64 - |k|);
              output.value == Sha256(XorAll(block, 0x5c) + Sha256(XorAll(block, 0x36) + message))
  {
    hide Sha256, XorByte;
    var normalized := key;
    if |normalized| > 64 {
      var hashed := Sha256Js(normalized);
      if hashed == None { return None; }
      normalized := hashed.value;
    }
    var paddedKey := new byte[64](_ => 0);
    forall i | 0 <= i < |normalized| { paddedKey[i] := normalized[i]; }
    assert paddedKey[..] == BlockKey(key);
    var inner := new byte[64 + |message|];
    var outer := new byte[64 + 32];
    for i := 0 to 64
      invariant paddedKey[..] == BlockKey(key)
      invariant inner[..i] == XorAll(paddedKey[..i], 0x36) && outer[..i] == XorAll(paddedKey[..i], 0x5c)
    {
      XorFits(paddedKey[i], 0x36);
      XorFits(paddedKey[i], 0x5c);
      inner[i] := JsXor(paddedKey[i] as int, 0x36) as byte;
      outer[i] := JsXor(paddedKey[i] as int, 0x5c) as byte;
    }
    assert paddedKey[..64] == paddedKey[..];
    forall i | 0 <= i < |message| { inner[64 + i] := message[i]; }
    assert inner[..64] == XorAll(BlockKey(key), 0x36) && inner[64..] == message;
    assert inner[..] == XorAll(BlockKey(key), 0x36) + message;
    var innerHash := Sha256Js(inner[..]);
    if innerHash == None { return None; }
    forall i | 0 <= i < 32 { outer[64 + i] := innerHash.value[i]; }
    assert outer[..64] == XorAll(BlockKey(key), 0x5c) && outer[64..] == innerHash.value;
    assert outer[..] == XorAll(BlockKey(key), 0x5c) + innerHash.value;
    output := Sha256Js(outer[..]);
  }
}
