/** CryptoStream (tun/crypto_helper.go, pkg/crypto/crypto.go): a transport as it is, or under GCM. */
module Channel {
  import opened Prelude
  import opened Bytes
  import opened Gcm

  lemma {:induction false} CleanCutAppend(a: Aead, wire: seq<byte>, nonce: seq<byte>, payload: seq<byte>)
    requires Lawful(a) && CleanCut(a, wire) && |nonce| == a.nonceSize && |payload| <= MAX_SEGMENT
    ensures CleanCut(a, wire + RecordBytes(a, nonce, payload))
    decreases |wire|
  {
    hide FirstRecord, Lawful, RecordBytes;
    var record := RecordBytes(a, nonce, payload);
    if wire == [] {
      FirstRecordOfRecord(a, nonce, payload, []);
      assert record + [] == record && wire + record == record;
    } else {
      var r := FirstRecord(a, wire);
      FirstRecordPrefix(a, wire, record);
      CleanCutAppend(a, wire[r.used..], nonce, payload);
      assert (wire + record)[r.used..] == wire[r.used..] + record;
    }
  }

  /** What a written record adds on the far side. */
  lemma RecordExtends(a: Aead, wire: seq<byte>, nonce: seq<byte>, payload: seq<byte>)
    requires Lawful(a) && CleanCut(a, wire) && |nonce| == a.nonceSize && |payload| <= MAX_SEGMENT
    requires Decode(a, wire).end == EOF
    ensures Decode(a, wire + RecordBytes(a, nonce, payload)) == Stream(Decode(a, wire).data + payload, EOF)
  {
    hide FirstRecord, Lawful, RecordBytes, Decode;
    var record := RecordBytes(a, nonce, payload);
    DecodeAppend(a, wire, record);
    DecodeRecord(a, nonce, payload, []);
    DecodeEmpty(a);
    assert record + [] == record && payload + [] == payload;
  }

  class CryptoStream {
    const conn: Conn
    const aead: Aead
    const reader: Reader?  // both null when the mode is None
    const writer: Writer?

    ghost const start: nat      // how much had been sent when this stream was wrapped
    ghost var written: seq<byte>  // everything written through this stream
    ghost var intact: bool        // no transport write has failed
    ghost var wire: seq<byte>     // what would have been sent had the last write been completed

    /** The plain bytes of a wire written in this mode. */
    ghost function Plain(wire: seq<byte>): Stream
      requires Lawful(aead)
    {
      if reader == null then Stream(wire, EOF) else Decode(aead, wire)
    }

    /** How the parts are put together; fixed at construction. */
    ghost predicate Wired() {
      && Lawful(aead)
      && (reader == null <==> writer == null)
      && (reader != null ==> reader.conn == conn && reader.aead == aead)
      && (writer != null ==> writer.conn == conn && writer.aead == aead)
    }

    ghost predicate Valid() reads this, conn`sent, writer {
      && Wired()
      && (writer != null ==> writer.Valid())
      && start <= |conn.sent|
      && (intact ==> wire == conn.sent[start..] && Carries(written))
    }

    /** The wire consists of whole writes, of these bytes. */
    ghost predicate Carries(data: seq<byte>)
      requires Wired()
      reads this`wire
    {
      Plain(wire) == Stream(data, EOF) && (reader != null ==> CleanCut(aead, wire))
    }

    /** The last write may have been cut short: what has been sent is a front part of the wire, and with it
        completed the wire carries these bytes. */
    ghost predicate CutOff(data: seq<byte>)
      requires Wired()
      reads this`wire, conn`sent
    {
      start <= |conn.sent| && conn.sent[start..] <= wire && Carries(data)
    }

    constructor (conn: Conn, aead: Aead, gcm: bool)
      requires Lawful(aead)
      ensures Valid() && this.conn == conn && this.aead == aead && (reader != null <==> gcm)
      ensures start == |conn.sent| && written == [] && intact
      ensures reader != null ==> fresh(reader) && reader.leftover == []
      ensures writer != null ==> fresh(writer)
    {
      var r: Reader? := null;
      var w: Writer? := null;
      if gcm {
        r := new Reader(conn, aead);
        w := new Writer(conn, aead);
      }
      this.conn, this.aead, reader, writer := conn, aead, r, w;
      start, written, intact, wire := |conn.sent|, [], true, [];
      new;
      DecodeEmpty(aead);
      assert conn.sent[start..] == [];
    }

    ghost function Remaining(): Stream
      requires Wired()
      reads conn`incoming, reader
    {
      if reader == null then conn.Remaining() else reader.Remaining()
    }

    method Read(b: array<byte>, lo: nat) returns (n: nat, err: Option<Error>)
      requires Valid() && lo <= b.Length
      modifies conn`incoming, reader, b
      ensures Valid() && n <= b.Length - lo && b[..lo] == old(b[..lo]) && b[lo + n..] == old(b[lo + n..])
      ensures err == None ==> Delivers(old(Remaining()), b[lo..lo + n], Remaining())
      ensures err == None && n == 0 && lo < b.Length ==> |conn.incoming| < |old(conn.incoming)|
      ensures err == None ==> |conn.incoming| <= |old(conn.incoming)|
      ensures err != None ==> old(Remaining()) == Stream(b[lo..lo + n], err.value)
      ensures err != None && n > 0 ==> Remaining() == Stream([], err.value)
    {
      hide FirstRecord, Lawful, Decode, CleanCut;
      if reader != null {
        n, err := reader.Read(b, lo);
      } else {
        n, err := conn.Read(b, lo);
        assert b[lo..lo + n] == old(conn.incoming)[..n];
      }
    }

    /** All of data in one transport write, or an error: under GCM a payload over the limit is refused
        with nothing written. */
    method Write(data: seq<byte>) returns (n: nat, err: Option<Error>)
      requires Valid()
      modifies this`written, this`intact, this`wire, conn`sent, conn`failed, writer
      ensures Valid()
      ensures err == Some(WriteFailed) && old(intact) ==> CutOff(old(written) + data)
      ensures conn.failed == (old(conn.failed) || err == Some(WriteFailed))
      ensures err == Some(TooLarge) <==> reader != null && |data| > MAX_SEGMENT
      ensures err == None ==> n == |data| && written == old(written) + data && intact == old(intact)
      ensures err == Some(TooLarge) ==> conn.sent == old(conn.sent) && written == old(written) && intact == old(intact)
      ensures err == None || err == Some(TooLarge) || (err == Some(WriteFailed) && !intact)
    {
      hide FirstRecord, Lawful, Decode, CleanCut, RecordBytes;
      ghost var before := conn.sent[start..];
      if writer != null {
        n, err := writer.Write(data);
        if data != [] && err != Some(TooLarge) {
          ghost var record := RecordBytes(aead, writer.nonce, data);
          if intact {
            CleanCutAppend(aead, before, writer.nonce, data);
            RecordExtends(aead, before, writer.nonce, data);
          }
          wire := before + record;
          SentSoFar(old(conn.sent), start, conn.sent, record);
        }
      } else {
        err := conn.Write(data);
        n := if err == None then |data| else 0;
        wire := before + data;
        SentSoFar(old(conn.sent), start, conn.sent, data);
      }
      if err == None {
        written := written + data;
        if data == [] { assert old(written) + data == old(written) && before + data == before; }
      } else if err != Some(TooLarge) {
        intact := false;
      }
    }
  }

  /** Some or all of data has been sent on top of what had been. */
  lemma SentSoFar(had: seq<byte>, start: nat, sent: seq<byte>, data: seq<byte>)
    requires start <= |had| && had <= sent <= had + data
    ensures start <= |sent| && sent[start..] <= had[start..] + data
    ensures sent == had + data ==> sent[start..] == had[start..] + data
  {
    assert (had + data)[start..] == had[start..] + data;
    assert sent[start..] == (had + data)[start..][..|sent| - start];
  }

  /** io.ReadFull on a CryptoStream: k bytes of what remains, or the error for having fewer. */
  method ReadFull(s: CryptoStream, k: nat) returns (buf: array<byte>, err: Option<Error>)
    requires s.Valid()
    modifies s.conn`incoming, s.reader
    ensures s.Valid() && fresh(buf)
    ensures if |old(s.Remaining()).data| >= k
            then err == None && buf.Length == k && Delivers(old(s.Remaining()), buf[..], s.Remaining())
            else err == Some(ShortRead(old(s.Remaining())))
  {
    hide FirstRecord, Lawful, Decode, CleanCut, Delivers;
    buf := new byte[k];
    var n := 0;
    ghost var before := s.Remaining();
    DeliversNothing(before);
    assert buf[..0] == [];
    while n < k
      invariant n <= k && s.Valid() && Delivers(before, buf[..n], s.Remaining())
      decreases k - n, |s.conn.incoming|
    {
      ghost var mid, had := s.Remaining(), buf[..n];
      var nn, e := s.Read(buf, n);
      ghost var got := buf[n..n + nn];
      assert buf[..n + nn] == had + got;
      if e.Some? && n + nn < k {
        ShortDelivers(before, had, Stream(got, e.value));
        return buf, if n + nn > 0 && e.value == EOF then Some(UnexpectedEOF) else e;
      }
      if e.Some? { AllDelivered(mid); }
      DeliversTransitive(before, had, mid, got, s.Remaining());
      n := n + nn;
    }
    LongDelivers(before, buf[..n], s.Remaining());
    assert buf[..n] == buf[..];
    return buf, None;
  }

  lemma DeliversNothing(s: Stream)
    ensures Delivers(s, [], s)
  {
  }

  lemma AllDelivered(s: Stream)
    ensures Delivers(s, s.data, Stream([], s.end))
  {
  }

  lemma ShortDelivers(before: Stream, had: seq<byte>, last: Stream)
    requires Delivers(before, had, last)
    ensures |before.data| == |had| + |last.data|
    ensures ShortRead(before) == if |had| + |last.data| > 0 && last.end == EOF then UnexpectedEOF else last.end
  {
  }

  lemma LongDelivers(before: Stream, got: seq<byte>, after: Stream)
    requires Delivers(before, got, after)
    ensures |before.data| >= |got|
  {
  }
}
