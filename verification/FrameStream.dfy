/** The framed stream object (tun/frame_stream.go) over a CryptoStream. */
module FrameStream {
  import opened Prelude
  import opened Bytes
  import opened Gcm
  import opened Channel
  import opened Frames

  method ReadFrame(s: CryptoStream) returns (kind: byte, payload: seq<byte>, err: Option<Error>)
    requires s.Valid()
    modifies s.conn`incoming, s.reader
    ensures s.Valid() && (err.Some? ==> ReadError(err.value))
    ensures match FirstFrame(old(s.Remaining()))
            case Stop(e) => err == Some(e)
            case Got(f, rest) => err == None && Frame(kind, payload) == f && s.Remaining() == rest
  {
    hide FirstRecord, Lawful, Decode, CleanCut;
    kind, payload := 0, [];
    ghost var before := s.Remaining();
    var header;
    header, err := Channel.ReadFull(s, 3);
    if err.Some? { return; }
    var size := Get16(header[1..3]);
    var body;
    assert before.data[..3] == header[..] && s.Remaining() == Stream(before.data[3..], before.end);
    SliceOfPrefix(before.data, 3, 1, 3);
    assert header[1..3] == header[..][1..3];
    ghost var mid := s.Remaining();
    body, err := Channel.ReadFull(s, size);
    if err.Some? { return; }
    assert mid.data[..size] == body[..] && s.Remaining() == Stream(mid.data[size..], mid.end);
    kind, payload := header[0], body[..];
  }

  /** One transport write per frame; a frame over a limit is refused with nothing written. */
  method WriteFrame(s: CryptoStream, f: Frame) returns (err: Option<Error>)
    requires s.Valid()
    modifies s`written, s`intact, s`wire, s.conn`sent, s.conn`failed, s.writer
    ensures s.Valid()
    ensures s.conn.failed == (old(s.conn.failed) || err == Some(WriteFailed))
    ensures err == Some(TooLarge) <==> |f.payload| > 65535 || (s.writer != null && |f.payload| > 65532)
    ensures err == Some(TooLarge) ==> s.conn.sent == old(s.conn.sent) && s.written == old(s.written) && s.intact == old(s.intact)
    ensures err == None ==> s.written == old(s.written) + EncodeFrame(f) && s.intact == old(s.intact)
    ensures err == None || err == Some(TooLarge) || (err == Some(WriteFailed) && !s.intact)
    ensures err == Some(WriteFailed) && old(s.intact) ==> s.CutOff(old(s.written) + EncodeFrame(f))
  {
    if |f.payload| > MAX_SEGMENT { return Some(TooLarge); }
    var buf := new byte[3 + |f.payload|];
    var size := Put16(|f.payload|);
    buf[0], buf[1], buf[2] := f.kind, size[0], size[1];
    forall k | 0 <= k < |f.payload| { buf[3 + k] := f.payload[k]; }
    assert buf[..] == EncodeFrame(f);
    var n;
    n, err := s.Write(buf[..]);
  }

  /** Replies echo the number and send time of the requests they answer, one to one and in order. */
  ghost predicate Echo(requests: seq<ProbeReq>, replies: seq<ProbeResp>) {
    |requests| == |replies| &&
    forall i :: 0 <= i < |requests| ==>
      replies[i].number == requests[i].number && replies[i].sentNano == requests[i].sentNano
  }

  function ReplyFrames(replies: seq<ProbeResp>): seq<Frame> {
    seq(|replies|, i requires 0 <= i < |replies| => Frame(PROBE_RESP, EncodeResp(replies[i])))
  }

  /** One Read: from what was to come (before) to what is (after), having delivered got, answered some
      requests and handed on some responses. */
  ghost predicate Consumes(before: Seen, got: seq<byte>, requests: seq<ProbeReq>, responses: seq<ProbeResp>, after: Seen) {
    && before.data == got + after.data
    && before.requests == requests + after.requests
    && before.responses == responses + after.responses
    && before.end == after.end
  }

  /** The effect of one control frame: a step, or the end with the given error. */
  ghost predicate Handled(before: Seen, requests: seq<ProbeReq>, responses: seq<ProbeResp>, after: Seen, err: Option<Error>) {
    if err == None then Consumes(before, [], requests, responses, after)
    else before == Seen([], requests, responses, err.value)
  }

  /** The reading broke off in answering the next request: what was delivered, answered and handed on is
      a front part of what there was, and some request is left. */
  ghost predicate CutShort(before: Seen, got: seq<byte>, requests: seq<ProbeReq>, responses: seq<ProbeResp>) {
    got <= before.data && requests < before.requests && responses <= before.responses
  }

  lemma ConsumesThenCut(a: Seen, got1: seq<byte>, q1: seq<ProbeReq>, r1: seq<ProbeResp>, b: Seen,
                        got2: seq<byte>, q2: seq<ProbeReq>, r2: seq<ProbeResp>)
    requires Consumes(a, got1, q1, r1, b) && CutShort(b, got2, q2, r2)
    ensures CutShort(a, got1 + got2, q1 + q2, r1 + r2)
  {
    PrefixOfSum(got1, got2, b.data);
    PrefixOfSum(q1, q2, b.requests);
    PrefixOfSum(r1, r2, b.responses);
  }

  lemma PrefixOfSum<T>(a: seq<T>, b: seq<T>, c: seq<T>)
    requires b <= c
    ensures a + b <= a + c
  {
    assert c == b + c[|b|..];
    assert a + c == (a + b) + c[|b|..];
  }

  /** A request that could not be answered is the next one. */
  lemma RequestCut(business: bool, done: bool, s: Stream, payload: seq<byte>, rest: Stream)
    requires FirstFrame(s) == Got(Frame(PROBE_REQ, payload), rest) && DecodeReq(payload).Some?
    ensures CutShort(Interpret(business, done, s), [], [], [])
  {
  }

  lemma ConsumesNothing(v: Seen)
    ensures Consumes(v, [], [], [], v)
  {
  }

  lemma WholeConsumes(data: seq<byte>, v: Seen)
    ensures Consumes(v.(data := data + v.data), data, [], [], v)
  {
  }

  lemma SplitConsumes(data: seq<byte>, n: nat, v: Seen)
    requires n <= |data|
    ensures Consumes(v.(data := data + v.data), data[..n], [], [], v.(data := data[n..] + v.data))
  {
    assert data == data[..n] + data[n..];
  }

  lemma ConsumesMore(a: Seen, q1: seq<ProbeReq>, r1: seq<ProbeResp>, b: Seen,
                     q2: seq<ProbeReq>, r2: seq<ProbeResp>, c: Seen)
    requires Consumes(a, [], q1, r1, b) && Consumes(b, [], q2, r2, c)
    ensures Consumes(a, [], q1 + q2, r1 + r2, c)
  {
  }

  lemma ConsumesBytes(a: Seen, q1: seq<ProbeReq>, r1: seq<ProbeResp>, b: Seen, got: seq<byte>, c: Seen)
    requires Consumes(a, [], q1, r1, b) && Consumes(b, got, [], [], c)
    ensures Consumes(a, got, q1, r1, c)
  {
  }

  lemma ConsumesPart(a: Seen, data: seq<byte>, q: seq<ProbeReq>, r: seq<ProbeResp>, c: Seen, n: nat)
    requires Consumes(a, data, q, r, c) && n <= |data|
    ensures Consumes(a, data[..n], q, r, c.(data := data[n..] + c.data))
  {
    assert data == data[..n] + data[n..];
  }

  lemma ConsumesToEnd(a: Seen, q1: seq<ProbeReq>, r1: seq<ProbeResp>, q2: seq<ProbeReq>, r2: seq<ProbeResp>, e: Error)
    requires Consumes(a, [], q1, r1, Seen([], q2, r2, e))
    ensures a == Seen([], q1 + q2, r1 + r2, e)
  {
  }

  lemma ReplyFramesPlus(a: seq<ProbeResp>, b: seq<ProbeResp>)
    ensures ReplyFrames(a + b) == ReplyFrames(a) + ReplyFrames(b) && ReplyFrames([]) == []
  {
  }

  lemma EncodeFramesLast(fs: seq<Frame>, f: Frame)
    ensures EncodeFrames(fs + [f]) == EncodeFrames(fs) + EncodeFrame(f)
  {
    assert (fs + [f])[..|fs|] == fs;
  }

  lemma FrameShortens(s: Stream)
    ensures FirstFrame(s).Got? ==> |FirstFrame(s).rest.data| < |s.data|
  {
  }

  lemma ConsumesOn(a: Seen, got1: seq<byte>, q1: seq<ProbeReq>, r1: seq<ProbeResp>, b: Seen,
                   got2: seq<byte>, q2: seq<ProbeReq>, r2: seq<ProbeResp>, c: Seen)
    requires Consumes(a, got1, q1, r1, b) && Consumes(b, got2, q2, r2, c)
    ensures Consumes(a, got1 + got2, q1 + q2, r1 + r2, c)
  {
  }

  lemma ConsumesCounts(a: Seen, got: seq<byte>, q: seq<ProbeReq>, r: seq<ProbeResp>, b: Seen)
    requires Consumes(a, got, q, r, b)
    ensures |a.data| == |got| + |b.data|
  {
  }

  lemma ConsumesAll(a: Seen, got: seq<byte>, q1: seq<ProbeReq>, r1: seq<ProbeResp>,
                    q2: seq<ProbeReq>, r2: seq<ProbeResp>, e: Error)
    requires Consumes(a, got, q1, r1, Seen([], q2, r2, e))
    ensures a == Seen(got, q1 + q2, r1 + r2, e)
  {
  }

  /** The part of a log added since it had length n, when it grows again. */
  lemma TailGrows<T>(n: nat, mid: seq<T>, now: seq<T>)
    requires n <= |mid| && mid <= now
    ensures now[n..] == mid[n..] + now[|mid|..]
  {
  }

  class FrameStream {
    const stream: CryptoStream
    const role: Role
    var pending: seq<byte>

    ghost const head: seq<byte>          // written on the stream before the first frame
    ghost var frames: seq<Frame>         // every frame written
    ghost var answered: seq<ProbeReq>    // requests read and answered
    ghost var replies: seq<ProbeResp>    // the answers
    ghost var notified: seq<ProbeResp>   // responses handed to the waiters

    ghost predicate Valid() reads this, stream, stream.conn`sent, stream.writer {
      && stream.Valid()
      && (stream.intact ==> stream.written == head + EncodeFrames(frames))
      && Echo(answered, replies)
    }

    constructor (stream: CryptoStream, role: Role)
      requires stream.Valid()
      ensures Valid() && this.stream == stream && this.role == role && pending == [] && head == stream.written
      ensures frames == [] && answered == [] && replies == [] && notified == []
    {
      this.stream, this.role, pending := stream, role, [];
      head, frames, answered, replies, notified := stream.written, [], [], [], [];
      new;
      assert stream.written == stream.written + [];
    }

    ghost function View(): Seen
      requires stream.Wired()
      reads this`pending, stream.conn`incoming, stream.reader
    {
      var v := Business(role, stream.Remaining());
      v.(data := pending + v.data)
    }

    method Send(f: Frame) returns (err: Option<Error>)
      requires Valid()
      modifies this`frames, stream`written, stream`intact, stream`wire, stream.conn`sent, stream.conn`failed, stream.writer
      ensures Valid()
      ensures stream.conn.failed == (old(stream.conn.failed) || err == Some(WriteFailed))
      ensures err == Some(TooLarge) <==> |f.payload| > 65535 || (stream.writer != null && |f.payload| > 65532)
      ensures err == Some(TooLarge) ==> stream.conn.sent == old(stream.conn.sent)
      ensures err != Some(WriteFailed) ==> stream.intact == old(stream.intact)
      ensures frames == if err == None then old(frames) + [f] else old(frames)
      ensures err == None || err == Some(TooLarge) || err == Some(WriteFailed)
      ensures err == Some(WriteFailed) && old(stream.intact) ==> stream.CutOff(head + EncodeFrames(old(frames) + [f]))
    {
      hide FirstRecord, Lawful, Decode, CleanCut, EncodeFrame;
      err := WriteFrame(stream, f);
      EncodeFramesLast(frames, f);
      PlusAssociates(head, EncodeFrames(frames), EncodeFrame(f));
      if err == None {
        frames := frames + [f];
      }
    }

    /** Business bytes are one frame; more than the layers below can carry is refused before any byte
        is written. */
    method Write(p: seq<byte>) returns (n: nat, err: Option<Error>)
      requires Valid()
      modifies this`frames, stream`written, stream`intact, stream`wire, stream.conn`sent, stream.conn`failed, stream.writer
      ensures Valid()
      ensures p == [] ==> err == None && frames == old(frames) && stream.conn.sent == old(stream.conn.sent)
      ensures stream.conn.failed == (old(stream.conn.failed) || err == Some(WriteFailed))
      ensures err == Some(TooLarge) <==> |p| > 65535 || (stream.writer != null && |p| > 65532)
      ensures err == Some(TooLarge) ==> stream.conn.sent == old(stream.conn.sent)
      ensures err != Some(WriteFailed) ==> stream.intact == old(stream.intact)
      ensures err == None ==> n == |p| && (p != [] ==> frames == old(frames) + [Frame(BUSINESS, p)])
      ensures err != None ==> n == 0 && frames == old(frames)
      ensures err == None || err == Some(TooLarge) || err == Some(WriteFailed)
      ensures err == Some(WriteFailed) && old(stream.intact) ==>
                stream.CutOff(head + EncodeFrames(old(frames) + [Frame(BUSINESS, p)]))
    {
      if |p| == 0 { return 0, None; }
      err := Send(Frame(BUSINESS, p));
      n := if err == None then |p| else 0;
    }

    /** Answer one probe request. */
    method Reply(q: ProbeReq) returns (err: Option<Error>)
      requires Valid()
      modifies this`frames, this`answered, this`replies, stream`written, stream`intact, stream`wire, stream.conn`sent, stream.conn`failed, stream.writer
      ensures Valid() && (err == None || err == Some(WriteFailed))
      ensures stream.conn.failed == (old(stream.conn.failed) || err == Some(WriteFailed))
      ensures err == None ==>
                answered == old(answered) + [q] && |replies| == |old(replies)| + 1 && old(replies) <= replies &&
                frames == old(frames) + [Frame(PROBE_RESP, EncodeResp(replies[|old(replies)|]))]
      ensures err != None ==> answered == old(answered) && replies == old(replies) && frames == old(frames)
      ensures err == None ==> stream.intact == old(stream.intact)
    {
      hide FirstRecord, Lawful, Decode, CleanCut, EncodeResp, EncodeFrames;
      var now: int64 := *;
      var resp := ProbeResp(q.number, q.sentNano, now);
      err := Send(Frame(PROBE_RESP, EncodeResp(resp)));
      if err == None {
        answered, replies := answered + [q], replies + [resp];
      }
    }

    /** Act on one frame that carries no business bytes for this reader; an error ends the reading. */
    method Act(kind: byte, payload: seq<byte>, business: bool, done: bool) returns (err: Option<Error>)
      requires Valid() && (kind == BUSINESS ==> !business)
      modifies this`frames, this`answered, this`replies, this`notified, stream`written, stream`intact, stream`wire, stream.conn`sent, stream.conn`failed, stream.writer
      ensures Valid()
      ensures old(answered) <= answered && old(replies) <= replies && old(notified) <= notified
      ensures frames == old(frames) + ReplyFrames(replies[|old(replies)|..])
      ensures stream.conn.failed == (old(stream.conn.failed) || err == Some(WriteFailed))
      ensures err != Some(WriteFailed) ==> stream.intact == old(stream.intact)
      ensures err == Some(WriteFailed) ||
              forall rest: Stream, s: Stream :: FirstFrame(s) == Got(Frame(kind, payload), rest) ==>
                Handled(Interpret(business, done, s), answered[|old(answered)|..], notified[|old(notified)|..],
                        Interpret(business, done, rest), err)
      ensures err == Some(WriteFailed) ==>
                answered == old(answered) && notified == old(notified) && kind == PROBE_REQ && DecodeReq(payload).Some?
    {
      hide FirstRecord, Lawful, Decode, CleanCut, EncodeResp, DecodeReq, DecodeResp, FirstFrame, EncodeFrames;
      if kind == PROBE_REQ {
        var q := DecodeReq(payload);
        if q == None { return Some(BadFrame); }
        err := Reply(q.value);
      } else if kind == PROBE_RESP {
        var q := DecodeResp(payload);
        if q == None { return Some(BadFrame); }
        notified := notified + [q.value];
        err := None;
      } else if kind == BANDWIDTH_DONE && done {
        err := Some(EOF);
      } else {
        err := Some(BadFrame);
      }
    }

    /** Read one frame and act on it, unless it carries business bytes for this reader. */
    method Turn(business: bool, done: bool) returns (payload: Option<seq<byte>>, err: Option<Error>)
      requires Valid()
      modifies this`frames, this`answered, this`replies, this`notified
      modifies stream`written, stream`intact, stream`wire, stream.conn`incoming, stream.conn`sent, stream.conn`failed, stream.reader, stream.writer
      ensures Valid()
      ensures old(answered) <= answered && old(replies) <= replies && old(notified) <= notified
      ensures frames == old(frames) + ReplyFrames(replies[|old(replies)|..])
      ensures stream.conn.failed == (old(stream.conn.failed) || err == Some(WriteFailed))
      ensures err != Some(WriteFailed) ==> stream.intact == old(stream.intact)
      ensures err == None ==>
                |stream.Remaining().data| < |old(stream.Remaining()).data| &&
                Consumes(old(Interpret(business, done, stream.Remaining())), if payload.Some? then payload.value else [],
                         answered[|old(answered)|..], notified[|old(notified)|..],
                         Interpret(business, done, stream.Remaining()))
      ensures payload.Some? ==> business && err == None && answered == old(answered) && notified == old(notified)
      ensures err == Some(WriteFailed) ==>
                CutShort(old(Interpret(business, done, stream.Remaining())), [],
                         answered[|old(answered)|..], notified[|old(notified)|..])
      ensures err != None && err != Some(WriteFailed) ==>
                old(Interpret(business, done, stream.Remaining()))
                  == Seen([], answered[|old(answered)|..], notified[|old(notified)|..], err.value)
    {
      hide FirstRecord, Lawful, Decode, CleanCut, EncodeResp, DecodeReq, DecodeResp, FirstFrame, EncodeFrames, Consumes,
           CutShort, Interpret, ReplyFrames, Echo;
      ReplyFramesPlus([], []);
      assert answered[|answered|..] == [] && replies[|replies|..] == [] && notified[|notified|..] == [];
      ghost var wire := stream.Remaining();
      payload := None;
      var kind, body;
      kind, body, err := ReadFrame(stream);
      if err.Some? {
        InterpretStop(business, done, wire, err.value);
        return;
      }
      FrameShortens(wire);
      if kind == BUSINESS && business {
        InterpretBusiness(done, wire, body, stream.Remaining());
        WholeConsumes(body, Interpret(business, done, stream.Remaining()));
        return Some(body), None;
      }
      err := Act(kind, body, business, done);
      if err == Some(WriteFailed) {
        RequestCut(business, done, wire, body, stream.Remaining());
        assert answered[|answered|..] == [] && notified[|notified|..] == [];
      }
    }

    /** Serve a probe stream until it ends: every request that arrives is answered, in order. */
    method ServeControlLoop() returns (err: Error)
      requires Valid()
      modifies this`frames, this`answered, this`replies, this`notified
      modifies stream`written, stream`intact, stream`wire, stream.conn`incoming, stream.conn`sent, stream.conn`failed, stream.reader, stream.writer
      ensures Valid()
      ensures old(answered) <= answered && old(replies) <= replies && old(notified) <= notified
      ensures frames == old(frames) + ReplyFrames(replies[|old(replies)|..])
      ensures stream.conn.failed == (old(stream.conn.failed) || err == WriteFailed)
      ensures err != WriteFailed ==> stream.intact == old(stream.intact)
      ensures if err == WriteFailed
              then CutShort(old(Control(stream.Remaining())), [], answered[|old(answered)|..], notified[|old(notified)|..])
              else old(Control(stream.Remaining())) == Seen([], answered[|old(answered)|..], notified[|old(notified)|..], err)
    {
      hide FirstRecord, Lawful, Decode, CleanCut, EncodeResp, DecodeReq, DecodeResp, FirstFrame, EncodeFrames, Consumes,
           CutShort, Interpret, ReplyFrames, Echo;
      ReplyFramesPlus([], []);
      assert answered[|answered|..] == [] && replies[|replies|..] == [] && notified[|notified|..] == [];
      ghost var before := Control(stream.Remaining());
      ConsumesNothing(before);
      while true
        invariant Valid() && stream.conn.failed == old(stream.conn.failed) && stream.intact == old(stream.intact)
        invariant old(answered) <= answered && old(replies) <= replies && old(notified) <= notified
        invariant frames == old(frames) + ReplyFrames(replies[|old(replies)|..])
        invariant Consumes(before, [], answered[|old(answered)|..], notified[|old(notified)|..], Control(stream.Remaining()))
        decreases |stream.Remaining().data|
      {
        ghost var v, did, told, said := Control(stream.Remaining()), answered, notified, replies;
        var _, stop := Turn(false, false);
        TailGrows(|old(answered)|, did, answered);
        TailGrows(|old(notified)|, told, notified);
        TailGrows(|old(replies)|, said, replies);
        ReplyFramesPlus(said[|old(replies)|..], replies[|said|..]);
        if stop == Some(WriteFailed) {
          ConsumesThenCut(before, [], did[|old(answered)|..], told[|old(notified)|..], v,
                          [], answered[|did|..], notified[|told|..]);
          return WriteFailed;
        }
        if stop.Some? {
          ConsumesToEnd(before, did[|old(answered)|..], told[|old(notified)|..], answered[|did|..], notified[|told|..], stop.value);
          return stop.value;
        }
        ConsumesMore(before, did[|old(answered)|..], told[|old(notified)|..], v,
                     answered[|did|..], notified[|told|..], Control(stream.Remaining()));
      }
    }

    /** The loop of Read: frames up to and including the next business frame. */
    method NextBusiness() returns (payload: seq<byte>, err: Option<Error>)
      requires Valid()
      modifies this`frames, this`answered, this`replies, this`notified
      modifies stream`written, stream`intact, stream`wire, stream.conn`incoming, stream.conn`sent, stream.conn`failed, stream.reader, stream.writer
      ensures Valid()
      ensures old(answered) <= answered && old(replies) <= replies && old(notified) <= notified
      ensures frames == old(frames) + ReplyFrames(replies[|old(replies)|..])
      ensures stream.conn.failed == (old(stream.conn.failed) || err == Some(WriteFailed))
      ensures err != Some(WriteFailed) ==> stream.intact == old(stream.intact)
      ensures err == None ==>
                |stream.Remaining().data| < |old(stream.Remaining()).data| &&
                Consumes(old(Business(role, stream.Remaining())), payload,
                         answered[|old(answered)|..], notified[|old(notified)|..], Business(role, stream.Remaining()))
      ensures err == Some(WriteFailed) ==>
                CutShort(old(Business(role, stream.Remaining())), [],
                         answered[|old(answered)|..], notified[|old(notified)|..])
      ensures err != None && err != Some(WriteFailed) ==>
                old(Business(role, stream.Remaining()))
                  == Seen([], answered[|old(answered)|..], notified[|old(notified)|..], err.value)
    {
      hide FirstRecord, Lawful, Decode, CleanCut, EncodeResp, DecodeReq, DecodeResp, FirstFrame, EncodeFrames, Consumes,
           CutShort, Interpret, ReplyFrames, Echo;
      ReplyFramesPlus([], []);
      assert answered[|answered|..] == [] && replies[|replies|..] == [] && notified[|notified|..] == [];
      ghost var before := Business(role, stream.Remaining());
      ConsumesNothing(before);
      while true
        invariant Valid() && stream.conn.failed == old(stream.conn.failed) && stream.intact == old(stream.intact)
        invariant old(answered) <= answered && old(replies) <= replies && old(notified) <= notified
        invariant frames == old(frames) + ReplyFrames(replies[|old(replies)|..])
        invariant Consumes(before, [], answered[|old(answered)|..], notified[|old(notified)|..], Business(role, stream.Remaining()))
        invariant |stream.Remaining().data| <= |old(stream.Remaining()).data|
        decreases |stream.Remaining().data|
      {
        ghost var v, did, told, said := Business(role, stream.Remaining()), answered, notified, replies;
        var found;
        found, err := Turn(true, role == RoleBandwidth);
        TailGrows(|old(answered)|, did, answered);
        TailGrows(|old(notified)|, told, notified);
        TailGrows(|old(replies)|, said, replies);
        ReplyFramesPlus(said[|old(replies)|..], replies[|said|..]);
        if err == Some(WriteFailed) {
          ConsumesThenCut(before, [], did[|old(answered)|..], told[|old(notified)|..], v,
                          [], answered[|did|..], notified[|told|..]);
          return [], err;
        }
        if err.Some? {
          ConsumesToEnd(before, did[|old(answered)|..], told[|old(notified)|..], answered[|did|..], notified[|told|..], err.value);
          return [], err;
        }
        if found.Some? {
          ConsumesBytes(before, did[|old(answered)|..], told[|old(notified)|..], v, found.value, Business(role, stream.Remaining()));
          return found.value, None;
        }
        ConsumesMore(before, did[|old(answered)|..], told[|old(notified)|..], v,
                     answered[|did|..], notified[|told|..], Business(role, stream.Remaining()));
      }
    }

    /** Read into b[lo..]: pending bytes, else the next business frame, whose excess is kept. Every
        request met on the way is answered, every response handed on. */
    method Read(b: array<byte>, lo: nat) returns (n: nat, err: Option<Error>)
      requires Valid() && lo <= b.Length
      modifies this`pending, this`frames, this`answered, this`replies, this`notified
      modifies stream`written, stream`intact, stream`wire, stream.conn`incoming, stream.conn`sent, stream.conn`failed, stream.reader, stream.writer, b
      ensures Valid() && n <= b.Length - lo && b[..lo] == old(b[..lo]) && b[lo + n..] == old(b[lo + n..])
      ensures old(answered) <= answered && old(replies) <= replies && old(notified) <= notified
      ensures frames == old(frames) + ReplyFrames(replies[|old(replies)|..])
      ensures stream.conn.failed == (old(stream.conn.failed) || err == Some(WriteFailed))
      ensures err != Some(WriteFailed) ==> stream.intact == old(stream.intact)
      ensures err == None ==>
                Consumes(old(View()), b[lo..lo + n], answered[|old(answered)|..], notified[|old(notified)|..], View())
      ensures err == None && n == 0 && lo < b.Length ==>
                old(pending) == [] && |stream.Remaining().data| < |old(stream.Remaining()).data|
      ensures err == None ==> |stream.Remaining().data| <= |old(stream.Remaining()).data|
      ensures err != None ==>
                n == 0 && old(pending) == [] &&
                if err == Some(WriteFailed)
                then CutShort(old(View()), [], answered[|old(answered)|..], notified[|old(notified)|..])
                else old(View()) == Seen([], answered[|old(answered)|..], notified[|old(notified)|..], err.value)
    {
      hide FirstRecord, Lawful, Decode, CleanCut, EncodeFrames, Consumes, CutShort, ReplyFrames, Echo, Business;
      ReplyFramesPlus([], []);
      assert answered[|answered|..] == [] && replies[|replies|..] == [] && notified[|notified|..] == [];
      ghost var v := Business(role, stream.Remaining());
      if |pending| > 0 {
        n := Copy(b, lo, pending);
        SplitConsumes(pending, n, v);
        pending := pending[n..];
        return n, None;
      }
      assert View() == v;
      var payload;
      payload, err := NextBusiness();
      if err.Some? { return 0, err; }
      n := Copy(b, lo, payload);
      ghost var rest := Business(role, stream.Remaining());
      ConsumesPart(v, payload, answered[|old(answered)|..], notified[|old(notified)|..], rest, n);
      pending := payload[n..];
    }
  }
}
