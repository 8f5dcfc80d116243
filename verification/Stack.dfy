/** Handshake (tun/stream_handshake.go), the layered stack (tun/crypto_helper.go), and what goes in
    against what comes out. */
module Stack {
  import opened Prelude
  import opened Bytes
  import opened Gcm
  import opened Channel
  import opened Frames
  import opened FrameStream

  const MAGIC: seq<byte> := [0x47, 0x54, 0x48, 0x31]
  const VERSION: byte := 0x01

  function RoleByte(role: Role): byte {
    match role case RoleBusiness => 0x00 case RoleProbe => 0x01 case RoleBandwidth => 0x02
  }

  function Handshake(role: Role): (r: seq<byte>)
    ensures |r| == 6
  {
    MAGIC + [VERSION, RoleByte(role)]
  }

  datatype Opening = Opening(role: Role, rest: Stream) | Refused(err: Error)

  /** The handshake at the front of a stream. */
  function Open(s: Stream): Opening {
    if |s.data| < 6 then Refused(ShortRead(s))
    else if s.data[..4] != MAGIC || s.data[4] != VERSION then Refused(BadHandshake)
    else
      var rest := Stream(s.data[6..], s.end);
      if s.data[5] == 0x00 then Opening.Opening(RoleBusiness, rest)
      else if s.data[5] == 0x01 then Opening.Opening(RoleProbe, rest)
      else if s.data[5] == 0x02 then Opening.Opening(RoleBandwidth, rest)
      else Refused(BadHandshake)
  }

  /** A stream opens with a role exactly when it starts with that role's handshake. */
  lemma OpenMeaning(s: Stream, role: Role)
    ensures (Open(s).Opening? && Open(s).role == role) <==> Handshake(role) <= s.data
    ensures Handshake(role) <= s.data ==> Open(s) == Opening.Opening(role, Stream(s.data[6..], s.end))
    ensures Open(s).Refused? ==> Open(s).err == if |s.data| < 6 then ShortRead(s) else BadHandshake
  {
    var h := Handshake(role);
    if h <= s.data {
      assert s.data[..4] == h[..4] == MAGIC && s.data[4] == h[4] && s.data[5] == h[5];
    }
  }

  /** The handshake: GTH1, the version, and the role in one byte. */
  lemma HandshakeLayout(role: Role)
    ensures Handshake(role) == [0x47, 0x54, 0x48, 0x31, 0x01] +
              (if role == RoleBusiness then [0x00] else if role == RoleProbe then [0x01] else [0x02])
  {
  }

  method WriteStreamHandshake(s: CryptoStream, role: Role) returns (err: Option<Error>)
    requires s.Valid()
    modifies s`written, s`intact, s`wire, s.conn`sent, s.conn`failed, s.writer
    ensures s.Valid() && (err == None || err == Some(WriteFailed))
    ensures s.conn.failed == (old(s.conn.failed) || err == Some(WriteFailed))
    ensures err == None ==> s.written == old(s.written) + Handshake(role) && s.intact == old(s.intact)
    ensures err != None && old(s.intact) ==> s.CutOff(old(s.written) + Handshake(role))
  {
    var n;
    n, err := s.Write(Handshake(role));
  }

  method ReadStreamHandshake(s: CryptoStream) returns (role: Role, err: Option<Error>)
    requires s.Valid()
    modifies s.conn`incoming, s.reader
    ensures s.Valid()
    ensures match Open(old(s.Remaining()))
            case Refused(e) => err == Some(e) && role == RoleBusiness
            case Opening(r, rest) => err == None && role == r && s.Remaining() == rest
  {
    hide FirstRecord, Lawful, Decode, CleanCut;
    ghost var before := s.Remaining();
    var buf;
    role := RoleBusiness;
    buf, err := Channel.ReadFull(s, 6);
    if err.Some? { return; }
    assert before.data[..6] == buf[..] && s.Remaining() == Stream(before.data[6..], before.end);
    assert buf[..4] == before.data[..4];
    if buf[..4] != MAGIC || buf[4] != VERSION {
      return RoleBusiness, Some(BadHandshake);
    }
    if buf[5] == 0x00 { role := RoleBusiness; }
    else if buf[5] == 0x01 { role := RoleProbe; }
    else if buf[5] == 0x02 { role := RoleBandwidth; }
    else { err := Some(BadHandshake); }
  }

  /** wrapDstWithRole with frame headers enabled: crypto, then the handshake, then frames. */
  method WrapDst(conn: Conn, aead: Aead, gcm: bool, role: Role) returns (s: CryptoStream, f: FrameStream?, err: Option<Error>)
    requires Lawful(aead)
    modifies conn`sent, conn`failed
    ensures fresh(s) && (s.reader != null ==> fresh(s.reader)) && (s.writer != null ==> fresh(s.writer))
    ensures err == None <==> f != null
    ensures conn.failed == (old(conn.failed) || f == null)
    ensures f != null ==>
              fresh(f) && f.Valid() && f.stream == s && s.intact && s.conn == conn && s.aead == aead &&
              (s.writer != null <==> gcm) && s.start == |old(conn.sent)| && f.head == Handshake(role) && f.role == role && f.frames == []
    ensures f == null ==>
              s.Wired() && s.conn == conn && s.aead == aead && (s.writer != null <==> gcm) &&
              s.start == |old(conn.sent)| && s.CutOff(Handshake(role))
  {
    s := new CryptoStream(conn, aead, gcm);
    f := null;
    assert [] + Handshake(role) == Handshake(role);
    err := WriteStreamHandshake(s, role);
    if err == None {
      f := new FrameStream(s, role);
    }
  }

  /** What a conn will deliver under a mode. */
  ghost function PlainOf(aead: Aead, gcm: bool, wire: seq<byte>): Stream
    requires Lawful(aead)
  {
    if gcm then Decode(aead, wire) else Stream(wire, EOF)
  }

  /** WrapSrcWithRole with frame headers enabled: the role is the one announced. */
  method WrapSrc(conn: Conn, aead: Aead, gcm: bool) returns (f: FrameStream?, role: Role, err: Option<Error>)
    requires Lawful(aead)
    modifies conn`incoming
    ensures match Open(PlainOf(aead, gcm, old(conn.incoming)))
            case Refused(e) => err == Some(e) && f == null
            case Opening(r, rest) =>
              err == None && role == r && f != null && fresh(f) && fresh(f.stream) &&
              (f.stream.reader != null ==> fresh(f.stream.reader)) && (f.stream.writer != null ==> fresh(f.stream.writer)) &&
              f.Valid() && f.stream.conn == conn && f.stream.aead == aead && (f.stream.reader != null <==> gcm) &&
              f.stream.intact && f.stream.start == |conn.sent| && f.head == [] && f.frames == [] &&
              f.answered == [] && f.replies == [] && f.notified == [] &&
              f.pending == [] && f.role == r && f.stream.Remaining() == rest
  {
    hide FirstRecord, Lawful, Decode, CleanCut;
    var s := new CryptoStream(conn, aead, gcm);
    f := null;
    assert [] + PlainOf(aead, gcm, conn.incoming).data == PlainOf(aead, gcm, conn.incoming).data;
    assert s.Remaining() == PlainOf(aead, gcm, conn.incoming);
    role, err := ReadStreamHandshake(s);
    if err == None {
      f := new FrameStream(s, role);
    }
  }

  /** What a healthy sender has put on the wire, for any frames it has sent. */
  lemma SenderWire(f: FrameStream)
    requires f.Valid() && f.stream.intact && f.stream.start == 0
    requires forall i :: 0 <= i < |f.frames| ==> Regular(f.frames[i])
    requires f.head == Handshake(f.role)
    ensures var s := PlainOf(f.stream.aead, f.stream.reader != null, f.stream.conn.sent);
            Open(s) == Opening.Opening(f.role, Stream(EncodeFrames(f.frames), EOF))
    ensures forall role :: Business(role, Stream(EncodeFrames(f.frames), EOF))
                        == Seen(Payloads(f.frames), Requests(f.frames), Responses(f.frames), EOF)
  {
    hide Decode, FirstRecord, CleanCut, Lawful, EncodeFrames;
    var s := PlainOf(f.stream.aead, f.stream.reader != null, f.stream.conn.sent);
    assert f.stream.conn.sent[0..] == f.stream.conn.sent;
    assert s == Stream(f.head + EncodeFrames(f.frames), EOF);
    OpenMeaning(s, f.role);
    assert s.data[6..] == EncodeFrames(f.frames);
    forall role { InterpretFrames(true, role == RoleBandwidth, f.frames, EOF); }
  }

  // ---------------------------------------------------------------- sending and receiving

  ghost predicate Sendable(writes: seq<seq<byte>>) {
    forall i :: 0 <= i < |writes| ==> 1 <= |writes[i]| <= 65532
  }

  /** Frames the peer may send, small enough for every layer below. */
  ghost predicate Mix(fs: seq<Frame>) {
    forall i :: 0 <= i < |fs| ==> Regular(fs[i]) && |fs[i].payload| <= 65532
  }

  lemma {:induction false} ConcatPrefix(chunks: seq<seq<byte>>, i: nat)
    requires i <= |chunks|
    ensures Concat(chunks[..i]) <= Concat(chunks)
  {
    if i == |chunks| {
      assert chunks[..i] == chunks;
    } else {
      ConcatPrefix(chunks[..|chunks| - 1], i);
      assert chunks[..|chunks| - 1][..i] == chunks[..i];
    }
  }

  ghost predicate BusinessOnly(fs: seq<Frame>) {
    forall j :: 0 <= j < |fs| ==> fs[j].kind == BUSINESS
  }

  /** Write everything through the sending stack, up to the first failure. sending is the frames written,
      the one whose write failed included. */
  method SendAll(f: FrameStream, writes: seq<seq<byte>>) returns (ok: bool, ghost sending: seq<Frame>)
    requires f.Valid() && f.stream.intact && f.frames == [] && Sendable(writes)
    modifies f`frames, f.stream`written, f.stream`intact, f.stream`wire, f.stream.conn`sent, f.stream.conn`failed, f.stream.writer
    ensures f.Valid() && f.stream.conn.failed == (old(f.stream.conn.failed) || !ok)
    ensures Mix(sending) && BusinessOnly(sending) && Payloads(sending) <= Concat(writes)
    ensures f.stream.CutOff(f.head + EncodeFrames(sending))
    ensures ok ==> f.stream.intact && sending == f.frames && Payloads(sending) == Concat(writes)
  {
    hide Decode, FirstRecord, CleanCut, Lawful, EncodeFrames;
    for i := 0 to |writes|
      invariant f.Valid() && f.stream.intact && f.stream.conn.failed == old(f.stream.conn.failed)
      invariant Mix(f.frames) && BusinessOnly(f.frames)
      invariant Payloads(f.frames) == Concat(writes[..i])
    {
      ghost var had := f.frames;
      PayloadsAppend(had, Frame(BUSINESS, writes[i]));
      assert writes[..i + 1][..i] == writes[..i];
      var n, err := f.Write(writes[i]);
      if err != None {
        ConcatPrefix(writes, i + 1);
        return false, had + [Frame(BUSINESS, writes[i])];
      }
    }
    assert writes[..|writes|] == writes;
    return true, f.frames;
  }

  lemma {:induction false} OnlyBusiness(fs: seq<Frame>)
    requires BusinessOnly(fs)
    ensures Requests(fs) == [] && Responses(fs) == []
  {
    if fs != [] { OnlyBusiness(fs[1..]); }
  }

  /** Read until the stream ends, with buffers of any non-empty sizes. The reads together deliver the
      business bytes, answer the requests and hand on the responses there are, each in order and
      nothing else; or the reading breaks off at the first request whose answer cannot be written. */
  method ReceiveAll(f: FrameStream) returns (got: seq<byte>, err: Error)
    requires f.Valid() && f.pending == []
    modifies f`pending, f`frames, f`answered, f`replies, f`notified
    modifies f.stream`written, f.stream`intact, f.stream`wire, f.stream.conn`incoming, f.stream.conn`sent, f.stream.conn`failed, f.stream.reader, f.stream.writer
    ensures f.Valid() && f.stream.conn.failed == (old(f.stream.conn.failed) || err == WriteFailed)
    ensures err != WriteFailed ==> f.stream.intact == old(f.stream.intact)
    ensures old(f.answered) <= f.answered && old(f.replies) <= f.replies && old(f.notified) <= f.notified
    ensures f.frames == old(f.frames) + ReplyFrames(f.replies[|old(f.replies)|..])
    ensures if err == WriteFailed
            then CutShort(old(f.View()), got, f.answered[|old(f.answered)|..], f.notified[|old(f.notified)|..])
            else old(f.View()) == Seen(got, f.answered[|old(f.answered)|..], f.notified[|old(f.notified)|..], err)
  {
    hide Decode, FirstRecord, CleanCut, Lawful, EncodeFrames, Interpret, Echo, ReplyFrames, Consumes, CutShort, Business;
    got := [];
    ghost var before := f.View();
    ConsumesNothing(before);
    ReplyFramesPlus([], []);
    assert f.answered[|f.answered|..] == [] && f.replies[|f.replies|..] == [] && f.notified[|f.notified|..] == [];
    while true
      invariant f.Valid() && f.stream.conn.failed == old(f.stream.conn.failed) && f.stream.intact == old(f.stream.intact)
      invariant old(f.answered) <= f.answered && old(f.replies) <= f.replies && old(f.notified) <= f.notified
      invariant f.frames == old(f.frames) + ReplyFrames(f.replies[|old(f.replies)|..])
      invariant Consumes(before, got, f.answered[|old(f.answered)|..], f.notified[|old(f.notified)|..], f.View())
      decreases |f.View().data|, |f.stream.Remaining().data|
    {
      ghost var v, did, told, said := f.View(), f.answered, f.notified, f.replies;
      var size :| size > 0;
      var buf := new byte[size];
      var n, e := f.Read(buf, 0);
      TailGrows(|old(f.answered)|, did, f.answered);
      TailGrows(|old(f.notified)|, told, f.notified);
      TailGrows(|old(f.replies)|, said, f.replies);
      ReplyFramesPlus(said[|old(f.replies)|..], f.replies[|said|..]);
      if e == Some(WriteFailed) {
        ConsumesThenCut(before, got, did[|old(f.answered)|..], told[|old(f.notified)|..], v,
                        [], f.answered[|did|..], f.notified[|told|..]);
        assert got + [] == got;
        return got, WriteFailed;
      }
      if e.Some? {
        ConsumesAll(before, got, did[|old(f.answered)|..], told[|old(f.notified)|..],
                    f.answered[|did|..], f.notified[|told|..], e.value);
        return got, e.value;
      }
      ConsumesOn(before, got, did[|old(f.answered)|..], told[|old(f.notified)|..], v,
                 buf[0..n], f.answered[|did|..], f.notified[|told|..], f.View());
      ConsumesCounts(v, buf[0..n], f.answered[|did|..], f.notified[|told|..], f.View());
      got := got + buf[0..n];
    }
  }

  // ---------------------------------------------------------------- any mix of frames

  method SendMix(f: FrameStream, fs: seq<Frame>) returns (ok: bool)
    requires f.Valid() && f.stream.intact && f.frames == [] && Mix(fs)
    modifies f`frames, f.stream`written, f.stream`intact, f.stream`wire, f.stream.conn`sent, f.stream.conn`failed, f.stream.writer
    ensures f.Valid() && f.stream.conn.failed == (old(f.stream.conn.failed) || !ok)
    ensures ok ==> f.stream.intact && f.frames == fs
  {
    hide Decode, FirstRecord, CleanCut, Lawful, EncodeFrames;
    for i := 0 to |fs|
      invariant f.Valid() && f.stream.intact && f.stream.conn.failed == old(f.stream.conn.failed)
      invariant f.frames == fs[..i]
    {
      assert fs[..i + 1] == fs[..i] + [fs[i]];
      var err := f.Send(fs[i]);
      if err != None { return false; }
    }
    assert fs[..|fs|] == fs;
    ok := true;
  }

  /** What a peer that answers has put on the wire. */
  lemma AnswererWire(f: FrameStream)
    requires f.Valid() && f.stream.intact && f.head == []
    ensures PlainOf(f.stream.aead, f.stream.reader != null, f.stream.conn.sent[f.stream.start..])
         == Stream(EncodeFrames(f.frames), EOF)
  {
    hide Decode, FirstRecord, CleanCut, Lawful, EncodeFrames;
    assert [] + EncodeFrames(f.frames) == EncodeFrames(f.frames);
  }

  lemma PlainEnd(aead: Aead, gcm: bool, wire: seq<byte>)
    requires Lawful(aead)
    ensures ReadError(PlainOf(aead, gcm, wire).end)
    ensures Open(PlainOf(aead, gcm, wire)).Refused? ==> Open(PlainOf(aead, gcm, wire)).err != WriteFailed
  {
    hide Decode, Lawful;
  }

  lemma NothingPending(v: Seen)
    ensures v.(data := [] + v.data) == v
  {
  }

  /** Accept what comes in and read it to its end, whatever it is. */
  method Accept(here: Conn, aead: Aead, gcm: bool)
    returns (announced: Option<Role>, got: seq<byte>, err: Error,
             ghost answered: seq<ProbeReq>, ghost replies: seq<ProbeResp>, ghost notified: seq<ProbeResp>)
    requires Lawful(aead) && !here.failed
    modifies here
    ensures |old(here.sent)| <= |here.sent| && (here.failed <==> err == WriteFailed) && Echo(answered, replies)
    ensures match Open(PlainOf(aead, gcm, old(here.incoming)))
            case Refused(e) => announced == None && got == [] && err == e && err != WriteFailed
            case Opening(r, rest) =>
              announced == Some(r) &&
              if err == WriteFailed then CutShort(Business(r, rest), got, answered, notified)
              else
                Business(r, rest) == Seen(got, answered, notified, err) &&
                PlainOf(aead, gcm, here.sent[|old(here.sent)|..]) == Stream(EncodeFrames(ReplyFrames(replies)), EOF)
  {
    hide Decode, FirstRecord, CleanCut, Lawful, EncodeFrames, Interpret, Open, ReplyFrames, PlainOf, CutShort;
    announced, got, answered, replies, notified := None, [], [], [], [];
    PlainEnd(aead, gcm, here.incoming);
    var f, role, e := WrapSrc(here, aead, gcm);
    if f == null { return announced, got, e.value, answered, replies, notified; }
    announced := Some(role);
    NothingPending(Business(role, f.stream.Remaining()));
    got, err := ReceiveAll(f);
    answered, replies, notified := f.answered, f.replies, f.notified;
    assert f.answered[0..] == f.answered && f.replies[0..] == f.replies && f.notified[0..] == f.notified;
    if err != WriteFailed {
      assert [] + ReplyFrames(replies) == ReplyFrames(replies);
      AnswererWire(f);
    }
  }

  /** Everything a mix of frames should bring about at the reading side. */
  ghost predicate Answered(aead: Aead, gcm: bool, fs: seq<Frame>, got: seq<byte>, replies: seq<ProbeResp>,
                           notified: seq<ProbeResp>, back: seq<byte>)
    requires Lawful(aead)
  {
    && got == Payloads(fs) && notified == Responses(fs) && Echo(Requests(fs), replies)
    && PlainOf(aead, gcm, back) == Stream(EncodeFrames(ReplyFrames(replies)), EOF)
  }

  /** Probe transparency through the whole stack. For any mix of business frames, requests and responses
      sent, any splitting by the transport and any buffer sizes, what is read is the business payloads,
      what is handed on is the responses, and the wire back carries exactly one response per request,
      in order, echoing number and send time. It fails only by a transport write failing. */
  method MixEndToEnd(there: Conn, here: Conn, aead: Aead, gcm: bool, role: Role, fs: seq<Frame>)
    returns (ok: bool, announced: Option<Role>, got: seq<byte>, err: Error,
             ghost replies: seq<ProbeResp>, ghost notified: seq<ProbeResp>)
    requires Lawful(aead) && Mix(fs) && there != here
    requires there.sent == [] && !there.failed && !here.failed
    modifies there, here
    ensures (ok <==> !there.failed && !here.failed) && (here.failed ==> Requests(fs) != [])
    ensures |old(here.sent)| <= |here.sent|
    ensures ok ==>
              announced == Some(role) && err == EOF &&
              Answered(aead, gcm, fs, got, replies, notified, here.sent[|old(here.sent)|..])
  {
    hide Decode, FirstRecord, CleanCut, Lawful, EncodeFrames, Interpret, Open, ReplyFrames, PlainOf, Echo;
    ok, announced, got, err, replies, notified := false, None, [], EOF, [], [];
    var s, out, e := WrapDst(there, aead, gcm, role);
    if out == null { return; }
    ok := SendMix(out, fs);
    if !ok { return; }
    SenderWire(out);
    here.incoming := there.sent;
    ghost var answered;
    announced, got, err, answered, replies, notified := Accept(here, aead, gcm);
    ok := err != WriteFailed;
  }

  // ---------------------------------------------------------------- end to end

  /** Wherever what has been sent is cut, what can be decoded of it is a front part of what was written. */
  lemma SentFront(s: CryptoStream, data: seq<byte>, k: nat)
    requires s.Wired() && s.start == 0 && s.CutOff(data) && k <= |s.conn.sent|
    ensures PlainOf(s.aead, s.reader != null, s.conn.sent[..k]).data <= data
  {
    hide Decode, FirstRecord, Lawful;
    assert s.conn.sent[0..] == s.conn.sent;
    assert s.conn.sent[..k] == s.wire[..k];
    if s.reader != null { CutWire(s.aead, s.wire, k); }
  }

  /** A front part of a handshake and frames: refused, or opened with the role and read as a front part of
      the payloads, without a request to answer when there is none. */
  lemma FrontOpens(p: Stream, role: Role, fs: seq<Frame>)
    requires Mix(fs) && p.data <= Handshake(role) + EncodeFrames(fs)
    ensures Open(p).Opening? ==>
              Open(p).role == role &&
              var seen := Business(role, Open(p).rest);
              seen.data <= Payloads(fs) && |seen.requests| <= |Requests(fs)|
  {
    hide EncodeFrames, Interpret;
    if Open(p).Opening? {
      var all := Handshake(role) + EncodeFrames(fs);
      assert p.data[..6] == all[..6] == Handshake(role);
      OpenMeaning(p, role);
      var k := |p.data| - 6;
      assert p.data[6..] == EncodeFrames(fs)[..k];
      CutFrames(true, role == RoleBandwidth, Stream(EncodeFrames(fs), EOF), k, p.end);
      InterpretFrames(true, role == RoleBandwidth, fs, EOF);
    }
  }

  /** The sending side: open and write, up to the first failure. Whatever has been sent by then is a front
      part of handshake and frames; all of it when nothing failed. */
  method Offer(there: Conn, aead: Aead, gcm: bool, role: Role, writes: seq<seq<byte>>)
    returns (ok: bool, ghost sending: seq<Frame>)
    requires Lawful(aead) && Sendable(writes) && there.sent == [] && !there.failed
    modifies there
    ensures ok <==> !there.failed
    ensures there.incoming == old(there.incoming)
    ensures Mix(sending) && BusinessOnly(sending) && Payloads(sending) <= Concat(writes)
    ensures forall k :: 0 <= k <= |there.sent| ==>
              PlainOf(aead, gcm, there.sent[..k]).data <= Handshake(role) + EncodeFrames(sending)
    ensures ok ==>
              Payloads(sending) == Concat(writes) &&
              Open(PlainOf(aead, gcm, there.sent)) == Opening.Opening(role, Stream(EncodeFrames(sending), EOF))
  {
    hide Decode, FirstRecord, CleanCut, Lawful, EncodeFrames, Interpret, Open, PlainOf;
    var s, out, e := WrapDst(there, aead, gcm, role);
    ok, sending := false, [];
    if out != null {
      ok, sending := SendAll(out, writes);
      if ok { SenderWire(out); }
    } else {
      NoFrames(Handshake(role));
    }
    forall k | 0 <= k <= |there.sent|
      ensures PlainOf(aead, gcm, there.sent[..k]).data <= Handshake(role) + EncodeFrames(sending)
    {
      SentFront(s, Handshake(role) + EncodeFrames(sending), k);
    }
  }

  /** The whole way: handshake, frames and (or not) GCM on both sides, any transport splitting, any buffer
      sizes. Whatever write fails and wherever the transport is cut, what is read is a front part of what
      was written; when neither happens it is all of it, and then the end. The reading side writes
      nothing. */
  method EndToEnd(there: Conn, here: Conn, aead: Aead, gcm: bool, role: Role, writes: seq<seq<byte>>, cut: nat)
    returns (ok: bool, announced: Option<Role>, got: seq<byte>, err: Error)
    requires Lawful(aead) && Sendable(writes) && there != here
    requires there.sent == [] && !there.failed && !here.failed
    modifies there, here
    ensures (ok <==> !there.failed) && !here.failed
    ensures got <= Concat(writes) && (announced == None || announced == Some(role))
    ensures ok && cut >= |there.sent| ==> announced == Some(role) && got == Concat(writes) && err == EOF
  {
    hide Decode, FirstRecord, CleanCut, Lawful, EncodeFrames, Interpret, Open, PlainOf;
    ghost var sending;
    ok, sending := Offer(there, aead, gcm, role, writes);
    var k := if cut < |there.sent| then cut else |there.sent|;
    here.incoming := there.sent[..k];
    assert k == |there.sent| ==> there.sent[..k] == there.sent;
    FrontOpens(PlainOf(aead, gcm, here.incoming), role, sending);
    OnlyBusiness(sending);
    InterpretFrames(true, role == RoleBandwidth, sending, EOF);
    ghost var answered, replies, notified;
    announced, got, err, answered, replies, notified := Accept(here, aead, gcm);
  }

  lemma NoFrames(data: seq<byte>)
    ensures data + EncodeFrames([]) == data && Payloads([]) == []
  {
  }
}
