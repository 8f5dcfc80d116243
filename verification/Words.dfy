/** 32-bit words as numbers, bit by bit, and the number arithmetic of the browser's bit operators. */
module Words {

  const TWO32: nat := 0x1_0000_0000

  type word = x: int | 0 <= x < 0x1_0000_0000

  function Pow2(n: nat): (r: nat)
    ensures r > 0
  {
    if n == 0 then 1 else 2 * Pow2(n - 1)
  }

  // ---------------------------------------------------------------- bit by bit

  function BitAnd(a: nat, b: nat): nat
    decreases a
  {
    if a == 0 || b == 0 then 0 else 2 * BitAnd(a / 2, b / 2) + (a % 2) * (b % 2)
  }

  function BitOr(a: nat, b: nat): nat
    decreases a + b
  {
    if a == 0 then b else if b == 0 then a
    else 2 * BitOr(a / 2, b / 2) + if a % 2 == 1 || b % 2 == 1 then 1 else 0
  }

  function BitXor(a: nat, b: nat): nat
    decreases a + b
  {
    if a == 0 then b else if b == 0 then a else 2 * BitXor(a / 2, b / 2) + (a + b) % 2
  }

  /** The k-th bit of a number. */
  function Bit(a: nat, k: nat): nat
    decreases k
  {
    if k == 0 then a % 2 else Bit(a / 2, k - 1)
  }

  lemma Halves(a: nat, b: nat)
    ensures BitAnd(a, b) / 2 == BitAnd(a / 2, b / 2)
    ensures BitAnd(a, b) % 2 == (if a % 2 == 1 && b % 2 == 1 then 1 else 0)
    ensures BitOr(a, b) / 2 == BitOr(a / 2, b / 2)
    ensures BitOr(a, b) % 2 == (if a % 2 == 1 || b % 2 == 1 then 1 else 0)
  {
    ParityProduct(a, b);
  }

  lemma ParityProduct(a: nat, b: nat)
    ensures (a % 2) * (b % 2) == if a % 2 == 1 && b % 2 == 1 then 1 else 0
  {
  }

  lemma XorHalves(a: nat, b: nat)
    ensures BitXor(a, b) / 2 == BitXor(a / 2, b / 2)
    ensures BitXor(a, b) % 2 == if a % 2 != b % 2 then 1 else 0
  {
    if a > 0 && b > 0 {
      ParitySum(a, b);
      HalfOf(BitXor(a / 2, b / 2), (a + b) % 2);
    } else {
      assert BitXor(a, b) == a + b && BitXor(a / 2, b / 2) == a / 2 + b / 2;
    }
  }

  lemma ParitySum(a: nat, b: nat)
    ensures (a + b) % 2 == if a % 2 != b % 2 then 1 else 0
  {
  }

  lemma HalfOf(r: nat, b: nat)
    requires b < 2
    ensures (2 * r + b) / 2 == r && (2 * r + b) % 2 == b
  {
  }

  /** The operators work on every bit by itself. */
  lemma {:induction false} BitMeaning(a: nat, b: nat, k: nat)
    ensures Bit(BitAnd(a, b), k) == (if Bit(a, k) == 1 && Bit(b, k) == 1 then 1 else 0)
    ensures Bit(BitOr(a, b), k) == (if Bit(a, k) == 1 || Bit(b, k) == 1 then 1 else 0)
    ensures Bit(BitXor(a, b), k) == (if Bit(a, k) != Bit(b, k) then 1 else 0)
    decreases k
  {
    hide BitAnd, BitOr, BitXor;
    Halves(a, b);
    XorHalves(a, b);
    if k > 0 { BitMeaning(a / 2, b / 2, k - 1); }
  }

  lemma {:induction false} BitOrSymmetric(a: nat, b: nat)
    ensures BitOr(a, b) == BitOr(b, a)
    decreases a + b
  {
    if a > 0 && b > 0 { BitOrSymmetric(a / 2, b / 2); }
  }

  lemma {:induction false} PowSum(m: nat, n: nat)
    ensures Pow2(m) * Pow2(n) == Pow2(m + n)
  {
    if m > 0 { PowSum(m - 1, n); }
  }

  lemma {:induction false} BitBounds(a: nat, b: nat, n: nat)
    requires a < Pow2(n) && b < Pow2(n)
    ensures BitAnd(a, b) < Pow2(n) && BitOr(a, b) < Pow2(n) && BitXor(a, b) < Pow2(n)
  {
    if n > 0 { BitBounds(a / 2, b / 2, n - 1); }
  }

  lemma Pow2Values()
    ensures Pow2(32) == TWO32 && Pow2(24) == 0x1000000 && Pow2(16) == 0x10000 && Pow2(8) == 256
  {
    assert Pow2(8) == 256;
    assert Pow2(12) == 4096 && Pow2(16) == 0x10000;
    assert Pow2(20) == 0x100000 && Pow2(24) == 0x1000000;
    assert Pow2(28) == 0x10000000 && Pow2(32) == TWO32;
  }

  /** Masking with 2^n - 1 is the remainder. */
  lemma {:induction false} AndMask(a: nat, n: nat)
    ensures BitAnd(a, Pow2(n) - 1) == a % Pow2(n)
    decreases n
  {
    if n == 0 {
      assert BitAnd(a, 0) == 0;
    } else {
      var p := Pow2(n - 1);
      AndMask(a / 2, n - 1);
      HalfMod(a, p);
      AndOdd(a, p - 1);
    }
  }

  lemma AndOdd(a: nat, b: nat)
    ensures BitAnd(a, 2 * b + 1) == 2 * BitAnd(a / 2, b) + a % 2
  {
    assert (2 * b + 1) / 2 == b && (2 * b + 1) % 2 == 1;
  }

  lemma HalfMod(a: nat, p: nat)
    requires p > 0
    ensures a % (2 * p) == 2 * ((a / 2) % p) + a % 2
  {
    var q, r := (a / 2) / p, (a / 2) % p;
    assert a / 2 == q * p + r;
    assert a == 2 * (a / 2) + a % 2;
    assert a == q * (2 * p) + (2 * r + a % 2);
    ModUnique(a, 2 * p, q, 2 * r + a % 2);
  }

  lemma ModUnique(a: int, m: nat, q: int, r: int)
    requires m > 0 && a == q * m + r && 0 <= r < m
    ensures a % m == r && a / m == q
  {
    var q', r' := a / m, a % m;
    assert a == q' * m + r';
    assert (q - q') * m == r' - r;
    if q > q' { MulAtLeast(q - q', m); }
    if q < q' { MulAtLeast(q' - q, m); }
  }

  lemma MulAtLeast(k: int, m: nat)
    requires k >= 1
    ensures k * m >= m
  {
    assert k * m == (k - 1) * m + m;
    MulNonNegative(k - 1, m);
  }

  lemma MulNonNegative(a: nat, b: nat)
    ensures a * b >= 0
  {
  }

  lemma OrEven(h: nat, low: nat)
    ensures BitOr(2 * h, low) == 2 * BitOr(h, low / 2) + low % 2
  {
  }

  /** Putting bits into empty low places is addition. */
  lemma {:induction false} OrAdds(high: nat, low: nat, n: nat)
    requires low < Pow2(n)
    ensures BitOr(high * Pow2(n), low) == high * Pow2(n) + low
    decreases n
  {
    if n > 0 {
      var h := high * Pow2(n - 1);
      assert high * Pow2(n) == 2 * h;
      OrAdds(high, low / 2, n - 1);
      hide Pow2;
      OrEven(h, low);
    }
  }

  // ---------------------------------------------------------------- words

  function And(a: word, b: word): word { Pow2Values(); BitBounds(a, b, 32); BitAnd(a, b) }
  function Or(a: word, b: word): word { Pow2Values(); BitBounds(a, b, 32); BitOr(a, b) }
  function Xor(a: word, b: word): word { Pow2Values(); BitBounds(a, b, 32); BitXor(a, b) }
  function Not(a: word): word { 0xffff_ffff - a }

  /** Addition modulo 2^32. */
  function Add(a: word, b: word): word { (a + b) % 0x1_0000_0000 }

  function Shr(a: word, n: nat): word
    requires n <= 32
  {
    ShrBound(a, Pow2(n));
    a / Pow2(n)
  }

  function Shl(a: word, n: nat): word
    requires n <= 32
  {
    (a * Pow2(n)) % 0x1_0000_0000
  }

  lemma ShrBound(a: nat, p: nat)
    requires p > 0
    ensures 0 <= a / p <= a
  {
    var q, r := a / p, a % p;
    assert a == q * p + r;
    if q > a { MulAtLeast(p, q); }
    if q < 0 { MulAtLeast(-q, p); }
  }

  // ---------------------------------------------------------------- the browser's numbers

  function ToUint32(x: int): word { x % 0x1_0000_0000 }

  lemma WordIsItself(x: word)
    ensures ToUint32(x) == x
  {
  }

  /** >>> 0 of a sum: the sum must be exact as a double, that is within 2^53. */
  function Wrap(sum: int): (r: word)
    requires -0x20_0000_0000_0000 <= sum <= 0x20_0000_0000_0000
    ensures r == ToUint32(sum)
  {
    ToUint32(sum)
  }

  function ToInt32(x: int): (r: int)
    ensures -0x8000_0000 <= r < 0x8000_0000 && ToUint32(r) == ToUint32(x)
  {
    var u := ToUint32(x);
    if u < 0x8000_0000 then u else u - 0x1_0000_0000
  }

  /** Adding exactly and wrapping at the end is adding modulo 2^32. */
  lemma WrappedSum(a: int, b: int)
    ensures ToUint32(a + b) == Add(ToUint32(a), ToUint32(b))
  {
  }

  lemma WrappedSum4(a: int, b: int, c: int, d: int)
    ensures ToUint32(a + b + c + d) == Add(Add(Add(ToUint32(a), ToUint32(b)), ToUint32(c)), ToUint32(d))
    ensures ToUint32(a + b + c + d) == Add(Add(Add(ToUint32(d), ToUint32(c)), ToUint32(b)), ToUint32(a))
  {
    hide ToUint32, Add;
    WrappedSum(a, b);
    WrappedSum(a + b, c);
    WrappedSum(a + b + c, d);
    WrappedSum(d, c);
    WrappedSum(d + c, b);
    WrappedSum(d + c + b, a);
    assert d + c + b + a == a + b + c + d;
  }

  lemma WrappedSum5(a: int, b: int, c: int, d: int, e: int)
    ensures ToUint32(a + b + c + d + e) == Add(Add(Add(Add(ToUint32(a), ToUint32(b)), ToUint32(c)), ToUint32(d)), ToUint32(e))
  {
    WrappedSum4(a, b, c, d);
    WrappedSum(a + b + c + d, e);
  }

  function JsXor(a: int, b: int): (r: int)
    ensures -0x8000_0000 <= r < 0x8000_0000 && ToUint32(r) == Xor(ToUint32(a), ToUint32(b))
  {
    ToInt32(Xor(ToUint32(a), ToUint32(b)))
  }

  function JsAnd(a: int, b: int): (r: int)
    ensures -0x8000_0000 <= r < 0x8000_0000 && ToUint32(r) == And(ToUint32(a), ToUint32(b))
  {
    ToInt32(And(ToUint32(a), ToUint32(b)))
  }

  function JsOr(a: int, b: int): (r: int)
    ensures -0x8000_0000 <= r < 0x8000_0000 && ToUint32(r) == Or(ToUint32(a), ToUint32(b))
  {
    ToInt32(Or(ToUint32(a), ToUint32(b)))
  }

  function JsNot(a: int): (r: int)
    ensures -0x8000_0000 <= r < 0x8000_0000 && ToUint32(r) == Not(ToUint32(a))
  {
    -ToInt32(a) - 1
  }

  /** The operator >>>. */
  function JsShr(a: int, n: nat): (r: word)
    requires n < 32
    ensures r == Shr(ToUint32(a), n)
  {
    Shr(ToUint32(a), n)
  }

  /** The operator <<. */
  function JsShl(a: int, n: nat): (r: int)
    requires n < 32
    ensures -0x8000_0000 <= r < 0x8000_0000 && ToUint32(r) == Shl(ToUint32(a), n)
  {
    ToInt32(Shl(ToUint32(a), n))
  }

  /** The operator >>: the sign is kept, the quotient rounds down. */
  function JsSar(a: int, n: nat): int
    requires n < 32
  {
    ToInt32(a) / Pow2(n)
  }
}
