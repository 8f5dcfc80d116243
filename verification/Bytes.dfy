/** Bytes, byte streams and how they end, and big-endian numbers. */
module Bytes {
  import opened Prelude

  newtype byte = x: int | 0 <= x < 256

  const MAX_SEGMENT: nat := 65535

  datatype Error =
    | EOF
    | UnexpectedEOF
    | OpenFailed
    | TooLarge
    | WriteFailed
    | BadFrame
    | BadHandshake

  /** The errors that reading can end in below the frames. */
  predicate ReadError(e: Error) {
    e == EOF || e == UnexpectedEOF || e == OpenFailed
  }

  /** Everything a reader will still deliver, and the error it then reports. */
  datatype Stream = Stream(data: seq<byte>, end: Error)

  /** What io.ReadFull reports when fewer bytes than wanted are left. */
  function ShortRead(s: Stream): Error {
    if s.data != [] && s.end == EOF then UnexpectedEOF else s.end
  }

  /** A read takes some bytes off the front of what remains. */
  ghost predicate Delivers(before: Stream, got: seq<byte>, after: Stream) {
    before.data == got + after.data && before.end == after.end
  }

  lemma DeliversTransitive(a: Stream, x: seq<byte>, b: Stream, y: seq<byte>, c: Stream)
    requires Delivers(a, x, b) && Delivers(b, y, c)
    ensures Delivers(a, x + y, c)
  {
  }

  lemma SplitDelivers(data: seq<byte>, n: nat, rest: Stream)
    requires n <= |data|
    ensures Delivers(Stream(data + rest.data, rest.end), data[..n], Stream(data[n..] + rest.data, rest.end))
  {
    assert data == data[..n] + data[n..];
  }

  /** n as k bytes, most significant first, modulo 256^k. */
  function BigEndian(n: nat, k: nat): (r: seq<byte>)
    ensures |r| == k
  {
    if k == 0 then [] else BigEndian(n / 256, k - 1) + [(n % 256) as byte]
  }

  function Number(s: seq<byte>): nat {
    if s == [] then 0 else Number(s[..|s| - 1]) * 256 + s[|s| - 1] as nat
  }

  function Pow256(k: nat): nat {
    if k == 0 then 1 else 256 * Pow256(k - 1)
  }

  lemma {:induction false} NumberOfBigEndian(n: nat, k: nat)
    requires n < Pow256(k)
    ensures Number(BigEndian(n, k)) == n
  {
    if k > 0 {
      NumberOfBigEndian(n / 256, k - 1);
      assert BigEndian(n, k)[..k - 1] == BigEndian(n / 256, k - 1);
    }
  }

  lemma {:induction false} NumberBound(s: seq<byte>)
    ensures Number(s) < Pow256(|s|)
  {
    if s != [] { NumberBound(s[..|s| - 1]); }
  }

  lemma PowValues()
    ensures Pow256(2) == 65536 && Pow256(8) == 0x1_0000_0000_0000_0000
  {
    assert Pow256(4) == 0x1_0000_0000;
    assert Pow256(5) == 256 * Pow256(4) && Pow256(6) == 256 * Pow256(5);
    assert Pow256(7) == 256 * Pow256(6) && Pow256(8) == 256 * Pow256(7);
  }

  const TWO64: nat := 0x1_0000_0000_0000_0000

  type uint64 = x: int | 0 <= x < 0x1_0000_0000_0000_0000
  type int64 = x: int | -0x8000_0000_0000_0000 <= x < 0x8000_0000_0000_0000

  /** The conversion uint64(x) of a signed number. */
  function Unsigned(x: int64): uint64 { if x < 0 then x + TWO64 else x }

  /** The conversion int64(x) of an unsigned number. */
  function Signed(x: uint64): int64 { if x < 0x8000_0000_0000_0000 then x else x - TWO64 }

  function Put64(x: uint64): (r: seq<byte>)
    ensures |r| == 8
  {
    BigEndian(x, 8)
  }

  function Get64(s: seq<byte>): uint64
    requires |s| == 8
  {
    NumberBound(s);
    PowValues();
    Number(s)
  }

  lemma Get64Put64(x: uint64)
    ensures Get64(Put64(x)) == x
  {
    PowValues();
    NumberOfBigEndian(x, 8);
  }

  function Put16(n: nat): (r: seq<byte>)
    ensures |r| == 2
  {
    BigEndian(n, 2)
  }

  function Get16(s: seq<byte>): (n: nat)
    requires |s| == 2
    ensures n <= MAX_SEGMENT
  {
    NumberBound(s);
    PowValues();
    Number(s)
  }

  lemma Get16Put16(n: nat)
    requires n <= MAX_SEGMENT
    ensures Get16(Put16(n)) == n
  {
    PowValues();
    NumberOfBigEndian(n, 2);
  }

  /** Two bytes, the most significant first. */
  lemma Put16Layout(n: nat)
    requires n <= 65535
    ensures Put16(n) == [(n / 256) as byte, (n % 256) as byte]
  {
    assert BigEndian(n / 256, 1) == BigEndian(n / 256 / 256, 0) + [(n / 256) as byte];
  }

  /** Eight bytes, the most significant first. */
  lemma NumberOfEight(s: seq<byte>)
    requires |s| == 8
    ensures Number(s) == s[0] as int * 0x100_0000_0000_0000 + s[1] as int * 0x1_0000_0000_0000
                       + s[2] as int * 0x100_0000_0000 + s[3] as int * 0x1_0000_0000
                       + s[4] as int * 0x100_0000 + s[5] as int * 0x1_0000 + s[6] as int * 0x100 + s[7] as int
  {
    var a, b, c, d, e, f, g := s[..1], s[..2], s[..3], s[..4], s[..5], s[..6], s[..7];
    assert a[..0] == [] && Number(a) == s[0] as int;
    assert b[..1] == a && Number(b) == Number(a) * 256 + s[1] as int;
    assert c[..2] == b && Number(c) == Number(b) * 256 + s[2] as int;
    assert d[..3] == c && Number(d) == Number(c) * 256 + s[3] as int;
    assert e[..4] == d && Number(e) == Number(d) * 256 + s[4] as int;
    assert f[..5] == e && Number(f) == Number(e) * 256 + s[5] as int;
    assert g[..6] == f && Number(g) == Number(f) * 256 + s[6] as int;
    assert Number(s) == Number(g) * 256 + s[7] as int;
  }

  lemma SliceOfPrefix<T>(s: seq<T>, k: nat, i: nat, j: nat)
    requires i <= j <= k <= |s|
    ensures s[..k][i..j] == s[i..j]
  {
  }

  lemma PlusAssociates<T>(a: seq<T>, b: seq<T>, c: seq<T>)
    ensures a + (b + c) == (a + b) + c
  {
  }

  function Concat(chunks: seq<seq<byte>>): seq<byte> {
    if chunks == [] then [] else Concat(chunks[..|chunks| - 1]) + chunks[|chunks| - 1]
  }

  /** A transport that splits what it delivers as it likes. */
  class Conn {
    var incoming: seq<byte>  // not yet received
    var sent: seq<byte>
    var failed: bool  // some write has failed

    constructor (incoming: seq<byte>)
      ensures this.incoming == incoming && sent == [] && !failed
    {
      this.incoming, sent, failed := incoming, [], false;
    }

    ghost function Remaining(): Stream reads this`incoming { Stream(incoming, EOF) }

    /** Read into b[lo..]: any non-empty prefix of what is to come, the end of the stream being reported
        with the last bytes or after them, as the transport pleases. */
    method Read(b: array<byte>, lo: nat) returns (n: nat, err: Option<Error>)
      requires lo <= b.Length
      modifies this`incoming, b
      ensures n <= b.Length - lo && n <= |old(incoming)|
      ensures incoming == old(incoming)[n..]
      ensures b[..] == old(b[..lo]) + old(incoming)[..n] + old(b[lo + n..])
      ensures err.Some? ==> err == Some(EOF) && incoming == []
      ensures err.None? && n == 0 ==> b.Length == lo
    {
      if incoming == [] {
        return 0, Some(EOF);
      }
      var room := b.Length - lo;
      n := 0;
      if room > 0 {
        assert 1 <= room && 1 <= |incoming|;
        n :| 1 <= n <= room && n <= |incoming|;
      }
      forall k | 0 <= k < n { b[lo + k] := incoming[k]; }
      incoming := incoming[n..];
      err := None;
      var early: bool := *;
      if incoming == [] && early { err := Some(EOF); }
    }

    /** Write all of data, or fail after some of it. */
    method Write(data: seq<byte>) returns (err: Option<Error>)
      modifies this`sent, this`failed
      ensures failed == (old(failed) || err.Some?)
      ensures err.None? ==> sent == old(sent) + data
      ensures err.Some? ==> err == Some(WriteFailed) && old(sent) <= sent <= old(sent) + data
    {
      var fails: bool := *;
      if fails {
        var some :| 0 <= some <= |data|;
        sent, failed := sent + data[..some], true;
        return Some(WriteFailed);
      }
      sent := sent + data;
      err := None;
    }
  }
}
