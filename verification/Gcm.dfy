/** The AEAD record layer (pkg/crypto/gcm.go): one record per write, bytes on the reading side. */
module Gcm {
  import opened Prelude
  import opened Bytes

  /** An AEAD as the two functions the code calls; dst always is the storage of the input or a region
      of its own, so only values matter. */
  datatype Aead = Aead(
    nonceSize: nat,
    overhead: nat,
    seal: (seq<byte>, seq<byte>) -> seq<byte>,
    open: (seq<byte>, seq<byte>) -> Option<seq<byte>>)

  /** Sealing adds the overhead and opening undoes it. */
  ghost predicate Lawful(a: Aead) {
    && (forall n, p :: |a.seal(n, p)| == |p| + a.overhead)
    && (forall n, p :: a.open(n, a.seal(n, p)) == Some(p))
    && (forall n, c :: a.open(n, c).Some? ==> |a.open(n, c).value| + a.overhead == |c|)
  }

  // ---------------------------------------------------------------- the wire format

  /** nonce, sealed size, sealed payload. */
  function RecordBytes(a: Aead, nonce: seq<byte>, payload: seq<byte>): seq<byte> {
    nonce + a.seal(nonce, Put16(|payload|)) + a.seal(nonce, payload)
  }

  datatype Parsed = Record(payload: seq<byte>, used: nat) | Stop(err: Error)

  /** The first record of a wire, or why there is none. */
  function FirstRecord(a: Aead, wire: seq<byte>): (r: Parsed)
    requires Lawful(a)
    ensures r.Record? ==> 0 < r.used <= |wire| && |r.payload| <= MAX_SEGMENT
    ensures r.Stop? ==> ReadError(r.err)
  {
    var head := a.nonceSize + 2 + a.overhead;
    if |wire| < a.nonceSize then Stop(ShortRead(Stream(wire, EOF)))
    else if |wire| < head then Stop(ShortRead(Stream(wire[a.nonceSize..], EOF)))
    else
      var nonce := wire[..a.nonceSize];
      var size := a.open(nonce, wire[a.nonceSize..head]);
      if size == None then Stop(OpenFailed)
      else
        var end := head + Get16(size.value) + a.overhead;
        if |wire| < end then Stop(ShortRead(Stream(wire[head..], EOF)))
        else
          var payload := a.open(nonce, wire[head..end]);
          if payload == None then Stop(OpenFailed) else Parsed.Record(payload.value, end)
  }

  /** Everything a reader delivers from a wire. */
  function Decode(a: Aead, wire: seq<byte>): (r: Stream)
    requires Lawful(a)
    ensures ReadError(r.end)
    decreases |wire|
  {
    match FirstRecord(a, wire)
    case Stop(e) => Stream([], e)
    case Record(payload, used) =>
      var rest := Decode(a, wire[used..]);
      Stream(payload + rest.data, rest.end)
  }

  lemma DecodeFirst(a: Aead, wire: seq<byte>)
    requires Lawful(a)
    ensures var first := FirstRecord(a, wire);
            Decode(a, wire) ==
              if first.Stop? then Stream([], first.err)
              else Stream(first.payload + Decode(a, wire[first.used..]).data, Decode(a, wire[first.used..]).end)
  {
    hide FirstRecord, Lawful;
  }

  /** A record in front of any wire parses back to its payload, and nothing behind it is touched. */
  lemma FirstRecordOfRecord(a: Aead, nonce: seq<byte>, payload: seq<byte>, rest: seq<byte>)
    requires Lawful(a) && |nonce| == a.nonceSize && |payload| <= MAX_SEGMENT
    ensures FirstRecord(a, RecordBytes(a, nonce, payload) + rest) == Parsed.Record(payload, |RecordBytes(a, nonce, payload)|)
  {
    var wire := RecordBytes(a, nonce, payload) + rest;
    var size := a.seal(nonce, Put16(|payload|));
    var head := a.nonceSize + 2 + a.overhead;
    assert wire == nonce + size + a.seal(nonce, payload) + rest;
    assert wire[..a.nonceSize] == nonce;
    assert wire[a.nonceSize..head] == size;
    Get16Put16(|payload|);
    var end := head + |payload| + a.overhead;
    assert wire[head..end] == a.seal(nonce, payload);
  }

  lemma DecodeRecord(a: Aead, nonce: seq<byte>, payload: seq<byte>, rest: seq<byte>)
    requires Lawful(a) && |nonce| == a.nonceSize && |payload| <= MAX_SEGMENT
    ensures Decode(a, RecordBytes(a, nonce, payload) + rest)
         == Stream(payload + Decode(a, rest).data, Decode(a, rest).end)
  {
    FirstRecordOfRecord(a, nonce, payload, rest);
    assert (RecordBytes(a, nonce, payload) + rest)[|RecordBytes(a, nonce, payload)|..] == rest;
  }

  lemma DecodeEmpty(a: Aead)
    requires Lawful(a)
    ensures Decode(a, []) == Stream([], EOF)
  {
  }

  /** Records written after a wire that ends cleanly extend what is delivered. */
  lemma {:induction false} DecodeAppend(a: Aead, wire: seq<byte>, rest: seq<byte>)
    requires Lawful(a) && CleanCut(a, wire)
    ensures Decode(a, wire + rest) == Stream(Decode(a, wire).data + Decode(a, rest).data, Decode(a, rest).end)
    decreases |wire|
  {
    hide FirstRecord, Lawful;
    if wire == [] {
      DecodeEmpty(a);
      assert wire + rest == rest;
    } else {
      var r := FirstRecord(a, wire);
      FirstRecordPrefix(a, wire, rest);
      var tail := wire[r.used..];
      DecodeAppend(a, tail, rest);
      assert (wire + rest)[r.used..] == tail + rest;
      PlusAssociates(r.payload, Decode(a, tail).data, Decode(a, rest).data);
    }
  }

  /** The wire consists of whole records. */
  ghost predicate CleanCut(a: Aead, wire: seq<byte>)
    requires Lawful(a)
    decreases |wire|
  {
    wire == [] || (FirstRecord(a, wire).Record? && CleanCut(a, wire[FirstRecord(a, wire).used..]))
  }

  lemma FirstRecordPrefix(a: Aead, wire: seq<byte>, rest: seq<byte>)
    requires Lawful(a) && FirstRecord(a, wire).Record?
    ensures FirstRecord(a, wire + rest) == FirstRecord(a, wire)
  {
    var head := a.nonceSize + 2 + a.overhead;
    var w := wire + rest;
    assert w[..a.nonceSize] == wire[..a.nonceSize];
    assert w[a.nonceSize..head] == wire[a.nonceSize..head];
    var end := FirstRecord(a, wire).used;
    assert w[head..end] == wire[head..end];
  }

  /** A wire cut inside a record ends in UnexpectedEOF, except at the three places between the reads of
      nonce, size and payload, where the reader cannot tell it from a finished stream. */
  lemma CutRecord(a: Aead, nonce: seq<byte>, payload: seq<byte>, cut: nat)
    requires Lawful(a) && |nonce| == a.nonceSize && |payload| <= MAX_SEGMENT
    requires cut < |RecordBytes(a, nonce, payload)|
    ensures Decode(a, RecordBytes(a, nonce, payload)[..cut])
         == Stream([], if cut in {0, a.nonceSize, a.nonceSize + 2 + a.overhead} then EOF else UnexpectedEOF)
  {
    var wire := RecordBytes(a, nonce, payload)[..cut];
    var size := a.seal(nonce, Put16(|payload|));
    var head := a.nonceSize + 2 + a.overhead;
    if head <= cut {
      var full := RecordBytes(a, nonce, payload);
      assert full == nonce + size + a.seal(nonce, payload);
      assert wire[..a.nonceSize] == full[..a.nonceSize] == nonce;
      assert wire[a.nonceSize..head] == full[a.nonceSize..head] == size;
      Get16Put16(|payload|);
    }
  }

  lemma FirstRecordCut(a: Aead, wire: seq<byte>, k: nat)
    requires Lawful(a) && FirstRecord(a, wire).Record? && k <= |wire|
    ensures if FirstRecord(a, wire).used <= k then FirstRecord(a, wire[..k]) == FirstRecord(a, wire)
            else FirstRecord(a, wire[..k]).Stop?
  {
    var cut := wire[..k];
    assert cut + wire[k..] == wire;
    if FirstRecord(a, wire).used <= k {
      var head := a.nonceSize + 2 + a.overhead;
      var end := FirstRecord(a, wire).used;
      assert cut[..a.nonceSize] == wire[..a.nonceSize];
      SliceOfPrefix(wire, k, a.nonceSize, head);
      SliceOfPrefix(wire, k, head, end);
    } else if FirstRecord(a, cut).Record? {
      FirstRecordPrefix(a, cut, wire[k..]);
    }
  }

  /** Wherever a wire of whole records is cut, what is delivered is a front part of what was sent. */
  lemma {:induction false} CutWire(a: Aead, wire: seq<byte>, k: nat)
    requires Lawful(a) && CleanCut(a, wire) && k <= |wire|
    ensures Decode(a, wire[..k]).data <= Decode(a, wire).data
    decreases |wire|
  {
    hide FirstRecord, Lawful;
    if wire != [] {
      var r := FirstRecord(a, wire);
      FirstRecordCut(a, wire, k);
      if r.used <= k {
        CutWire(a, wire[r.used..], k - r.used);
        assert wire[..k][r.used..] == wire[r.used..][..k - r.used];
      }
    } else {
      assert wire[..k] == wire;
    }
  }

  // ---------------------------------------------------------------- the writer

  /** Seal plain into buf at the given place, as append does when the region is large enough. */
  method SealAt(a: Aead, buf: array<byte>, at: nat, nonce: seq<byte>, plain: seq<byte>)
    requires Lawful(a) && at + |plain| + a.overhead <= buf.Length
    modifies buf
    ensures buf[..] == old(buf[..at]) + a.seal(nonce, plain) + old(buf[at + |plain| + a.overhead..])
  {
    var sealed := a.seal(nonce, plain);
    forall k | 0 <= k < |sealed| { buf[at + k] := sealed[k]; }
  }

  class Writer {
    const conn: Conn
    const aead: Aead
    var nonce: seq<byte>

    constructor (conn: Conn, aead: Aead)
      requires Lawful(aead)
      ensures this.conn == conn && this.aead == aead && Valid()
    {
      this.conn, this.aead := conn, aead;
      nonce := seq(aead.nonceSize, _ => 0);
    }

    ghost predicate Valid() reads this { Lawful(aead) && |nonce| == aead.nonceSize }

    /** Too large a payload is refused before anything is written; otherwise one record, or nothing for
        an empty payload. The count returned is that of the payload even when the transport fails. */
    method Write(b: seq<byte>) returns (n: nat, err: Option<Error>)
      requires Valid()
      modifies this, conn`sent, conn`failed
      ensures Valid()
      ensures conn.failed == (old(conn.failed) || err == Some(WriteFailed))
      ensures |b| > 65535 ==> n == 0 && err == Some(TooLarge) && conn.sent == old(conn.sent)
      ensures b == [] ==> n == 0 && err == None && conn.sent == old(conn.sent)
      ensures 0 < |b| <= 65535 ==>
                n == |b| &&
                (err == None ==> conn.sent == old(conn.sent) + RecordBytes(aead, nonce, b)) &&
                (err != None ==>
                   err == Some(WriteFailed) && old(conn.sent) <= conn.sent <= old(conn.sent) + RecordBytes(aead, nonce, b))
    {
      if |b| > MAX_SEGMENT { return 0, Some(TooLarge); }
      if |b| == 0 { return 0, None; }
      assert |seq<byte>(aead.nonceSize, _ => 0)| == aead.nonceSize;
      var random: seq<byte> :| |random| == aead.nonceSize;
      nonce := random;
      var record := Layout(b);
      err := conn.Write(record[..]);
      n := |b|;
    }

    /** The record is laid out and sealed in one buffer: nonce, then the size sealed over its own two
        bytes, then the payload sealed into the rest; the three regions fill the buffer exactly. */
    method Layout(b: seq<byte>) returns (buf: array<byte>)
      requires Valid() && 0 < |b| <= MAX_SEGMENT
      ensures fresh(buf) && buf[..] == RecordBytes(aead, nonce, b)
      ensures buf[..] == nonce + aead.seal(nonce, [(|b| / 256) as byte, (|b| % 256) as byte]) + aead.seal(nonce, b)
    {
      var size := |b|;
      buf := new byte[size + 2 + aead.overhead + aead.nonceSize + aead.overhead];
      var sizeAt, payloadAt := aead.nonceSize, 2 + aead.overhead + aead.nonceSize;
      var be := Put16(size);
      Put16Layout(size);
      buf[sizeAt], buf[sizeAt + 1] := be[0], be[1];
      forall k | 0 <= k < |nonce| { buf[k] := nonce[k]; }
      assert buf[..sizeAt] == nonce && buf[sizeAt..sizeAt + 2] == be;
      SealAt(aead, buf, sizeAt, nonce, buf[sizeAt..sizeAt + 2]);
      assert buf[..payloadAt] == nonce + aead.seal(nonce, be);
      SealAt(aead, buf, payloadAt, nonce, b);
    }
  }

  // ---------------------------------------------------------------- the reader

  /** io.ReadFull on a transport. */
  method ReadFull(conn: Conn, b: array<byte>) returns (err: Option<Error>)
    modifies conn`incoming, b
    ensures if |old(conn.incoming)| >= b.Length
            then err == None && b[..] == old(conn.incoming)[..b.Length] && conn.incoming == old(conn.incoming)[b.Length..]
            else err == Some(ShortRead(Stream(old(conn.incoming), EOF)))
  {
    var n := 0;
    while n < b.Length
      invariant n <= b.Length && n <= |old(conn.incoming)|
      invariant conn.incoming == old(conn.incoming)[n..] && b[..n] == old(conn.incoming)[..n]
      decreases b.Length - n
    {
      var nn, e := conn.Read(b, n);
      n := n + nn;
      if e.Some? && n < b.Length {
        return if n > 0 && e.value == EOF then Some(UnexpectedEOF) else e;
      }
    }
    return None;
  }

  /** As much of data as there is room for, and the rest. */
  ghost predicate Took(data: seq<byte>, room: nat, got: seq<byte>, rest: seq<byte>) {
    |got| == (if |data| <= room then |data| else room) && data == got + rest
  }

  class Reader {
    const conn: Conn
    const aead: Aead
    var leftover: seq<byte>

    constructor (conn: Conn, aead: Aead)
      requires Lawful(aead)
      ensures this.conn == conn && this.aead == aead && leftover == []
    {
      this.conn, this.aead, leftover := conn, aead, [];
    }

    /** What this reader will deliver: the rest of the current record, then the wire. */
    ghost function Remaining(): Stream
      requires Lawful(aead)
      reads this`leftover, conn`incoming
    {
      var rest := Decode(aead, conn.incoming);
      Stream(leftover + rest.data, rest.end)
    }

    /** One record, and not a byte more of the transport. */
    method ReadRecord() returns (payload: seq<byte>, err: Option<Error>)
      requires Lawful(aead)
      modifies conn`incoming
      ensures match FirstRecord(aead, old(conn.incoming))
              case Stop(e) => err == Some(e)
              case Record(p, used) => err == None && payload == p && conn.incoming == old(conn.incoming)[used..]
    {
      payload := [];
      ghost var wire, head := conn.incoming, aead.nonceSize + 2 + aead.overhead;
      var nonce := new byte[aead.nonceSize];
      err := ReadFull(conn, nonce);
      if err.Some? { return; }
      var buf := new byte[2 + aead.overhead];
      err := ReadFull(conn, buf);
      if err.Some? { return; }
      assert nonce[..] == wire[..aead.nonceSize] && buf[..] == wire[aead.nonceSize..head] && conn.incoming == wire[head..];
      var size := aead.open(nonce[..], buf[..]);
      if size == None { return [], Some(OpenFailed); }
      var n := Get16(size.value);
      if n > MAX_SEGMENT { return [], Some(TooLarge); }
      var body := new byte[n + aead.overhead];
      err := ReadFull(conn, body);
      if err.Some? { return; }
      assert body[..] == wire[head..head + n + aead.overhead];
      var opening := aead.open(nonce[..], body[..]);
      if opening == None { return [], Some(OpenFailed); }
      payload := opening.value;
    }

    /** Read into b[lo..]: the leftover first, else one record whose excess is kept. */
    method Read(b: array<byte>, lo: nat) returns (n: nat, err: Option<Error>)
      requires Lawful(aead) && lo <= b.Length
      modifies this`leftover, conn`incoming, b
      ensures n <= b.Length - lo && b[..lo] == old(b[..lo]) && b[lo + n..] == old(b[lo + n..])
      ensures err == None ==> Delivers(old(Remaining()), b[lo..lo + n], Remaining())
      ensures err != None ==> n == 0 && old(Remaining()) == Stream([], err.value)
      ensures err == None && n == 0 && lo < b.Length ==> |conn.incoming| < |old(conn.incoming)|
      ensures err == None ==> |conn.incoming| <= |old(conn.incoming)|
      ensures old(leftover) != [] ==>
                err == None && conn.incoming == old(conn.incoming) && Took(old(leftover), b.Length - lo, b[lo..lo + n], leftover)
      ensures old(leftover) == [] && err == None ==>
                var first := FirstRecord(aead, old(conn.incoming));
                first.Record? && conn.incoming == old(conn.incoming)[first.used..] &&
                Took(first.payload, b.Length - lo, b[lo..lo + n], leftover)
    {
      hide FirstRecord, Lawful, Decode;
      if |leftover| > 0 {
        n := Copy(b, lo, leftover);
        SplitDelivers(leftover, n, Decode(aead, conn.incoming));
        leftover := leftover[n..];
        return n, None;
      }
      DecodeFirst(aead, conn.incoming);
      NothingBefore(Decode(aead, conn.incoming));
      var data;
      data, err := ReadRecord();
      if err.Some? { return 0, err; }
      n := Copy(b, lo, data);
      SplitDelivers(data, n, Decode(aead, conn.incoming));
      leftover := data[n..];
    }
  }

  lemma NothingBefore(s: Stream)
    ensures Stream([] + s.data, s.end) == s
  {
  }

  // ---------------------------------------------------------------- handing a transport on

  /** Replacing a reader by a fresh one on the same transport is unobservable exactly when nothing of
      the current record is left over. */
  lemma HandOff(current: Reader, replacement: Reader)
    requires Lawful(current.aead) && current.aead == replacement.aead && current.conn == replacement.conn && replacement.leftover == []
    ensures replacement.Remaining() == current.Remaining() <==> current.leftover == []
  {
    var rest := Decode(current.aead, current.conn.incoming);
    assert [] + rest.data == rest.data;
    assert |(current.leftover + rest.data)| == |current.leftover| + |rest.data|;
  }

  /** A message written in one record and read exactly, in pieces of any sizes, leaves the reader
      without leftover and the transport just behind the record. */
  method ReadMessage(r: Reader, k: nat) returns (message: seq<byte>, err: Option<Error>)
    requires Lawful(r.aead) && r.leftover == []
    requires var first := FirstRecord(r.aead, r.conn.incoming); first.Record? && |first.payload| == k > 0
    modifies r`leftover, r.conn`incoming
    ensures var first := FirstRecord(r.aead, old(r.conn.incoming));
            err == None && message == first.payload && r.leftover == [] &&
            r.conn.incoming == old(r.conn.incoming)[first.used..]
  {
    hide FirstRecord, Lawful, Decode;
    message, err := [], None;
    ghost var first := FirstRecord(r.aead, r.conn.incoming);
    while |message| < k
      invariant |message| <= k && err == None
      invariant if message == [] then r.leftover == [] && r.conn.incoming == old(r.conn.incoming)
                else first.payload == message + r.leftover && r.conn.incoming == old(r.conn.incoming)[first.used..]
      decreases k - |message|
    {
      var size :| 1 <= size <= k - |message|;
      var buf := new byte[size];
      if message == [] { FirstRecordDecodes(r.aead, r.conn.incoming); }
      var n, e := r.Read(buf, 0);
      message := message + buf[0..n];
    }
  }

  lemma FirstRecordDecodes(a: Aead, wire: seq<byte>)
    requires Lawful(a) && FirstRecord(a, wire).Record?
    ensures Decode(a, wire).data != [] || FirstRecord(a, wire).payload == []
  {
  }

  /** copy(b[lo:], data). */
  method Copy(b: array<byte>, lo: nat, data: seq<byte>) returns (n: nat)
    requires lo <= b.Length
    modifies b
    ensures n == if |data| <= b.Length - lo then |data| else b.Length - lo
    ensures b[..lo] == old(b[..lo]) && b[lo..lo + n] == data[..n] && b[lo + n..] == old(b[lo + n..])
  {
    n := if |data| <= b.Length - lo then |data| else b.Length - lo;
    forall k | 0 <= k < n { b[lo + k] := data[k]; }
  }
}
