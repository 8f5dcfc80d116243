/** Typed, length-prefixed frames and the probe messages they carry (tun/frame_stream.go). */
module Frames {
  import opened Prelude
  import opened Bytes

  const BUSINESS: byte := 0x00
  const PROBE_REQ: byte := 0x01
  const PROBE_RESP: byte := 0x02
  const BANDWIDTH_DONE: byte := 0x03

  datatype Role = RoleBusiness | RoleProbe | RoleBandwidth

  datatype Frame = Frame(kind: byte, payload: seq<byte>)

  datatype ProbeReq = ProbeReq(number: uint64, sentNano: int64)
  datatype ProbeResp = ProbeResp(number: uint64, sentNano: int64, recvNano: int64)

  function EncodeReq(q: ProbeReq): (r: seq<byte>)
    ensures |r| == 16
  {
    Put64(q.number) + Put64(Unsigned(q.sentNano))
  }

  function DecodeReq(s: seq<byte>): Option<ProbeReq> {
    if |s| != 16 then None else Some(ProbeReq(Get64(s[..8]), Signed(Get64(s[8..]))))
  }

  function EncodeResp(q: ProbeResp): (r: seq<byte>)
    ensures |r| == 24
  {
    Put64(q.number) + Put64(Unsigned(q.sentNano)) + Put64(Unsigned(q.recvNano))
  }

  function DecodeResp(s: seq<byte>): Option<ProbeResp> {
    if |s| != 24 then None
    else Some(ProbeResp(Get64(s[..8]), Signed(Get64(s[8..16])), Signed(Get64(s[16..]))))
  }

  lemma ReqRoundTrip(q: ProbeReq)
    ensures DecodeReq(EncodeReq(q)) == Some(q)
  {
    Get64Put64(q.number);
    Get64Put64(Unsigned(q.sentNano));
    assert EncodeReq(q)[..8] == Put64(q.number) && EncodeReq(q)[8..] == Put64(Unsigned(q.sentNano));
  }

  lemma RespRoundTrip(q: ProbeResp)
    ensures DecodeResp(EncodeResp(q)) == Some(q)
  {
    Get64Put64(q.number);
    Get64Put64(Unsigned(q.sentNano));
    Get64Put64(Unsigned(q.recvNano));
    var r := EncodeResp(q);
    assert r[..8] == Put64(q.number) && r[8..16] == Put64(Unsigned(q.sentNano)) && r[16..] == Put64(Unsigned(q.recvNano));
  }

  /** A request is its number and its send time as 64-bit two's complement, most significant byte first. */
  lemma ReqLayout(q: ProbeReq)
    ensures Number(EncodeReq(q)[..8]) == q.number
    ensures Number(EncodeReq(q)[8..]) == if q.sentNano < 0 then q.sentNano + 0x1_0000_0000_0000_0000 else q.sentNano
  {
    var r := EncodeReq(q);
    assert r[..8] == Put64(q.number) && r[8..] == Put64(Unsigned(q.sentNano));
    Get64Put64(q.number);
    Get64Put64(Unsigned(q.sentNano));
  }

  /** A response repeats them and adds the time of receipt. */
  lemma RespLayout(q: ProbeResp)
    ensures EncodeResp(q)[..16] == EncodeReq(ProbeReq(q.number, q.sentNano))
    ensures Number(EncodeResp(q)[16..]) == if q.recvNano < 0 then q.recvNano + 0x1_0000_0000_0000_0000 else q.recvNano
  {
    var r := EncodeResp(q);
    assert r[16..] == Put64(Unsigned(q.recvNano));
    Get64Put64(Unsigned(q.recvNano));
  }

  function EncodeFrame(f: Frame): seq<byte> {
    [f.kind] + Put16(|f.payload|) + f.payload
  }

  /** A frame on the wire: its kind, the size of its payload in two bytes, the payload. */
  lemma FrameLayout(f: Frame)
    requires |f.payload| <= 65535
    ensures EncodeFrame(f) == [f.kind, (|f.payload| / 256) as byte, (|f.payload| % 256) as byte] + f.payload
  {
    Put16Layout(|f.payload|);
  }

  function EncodeFrames(fs: seq<Frame>): seq<byte> {
    if fs == [] then [] else EncodeFrames(fs[..|fs| - 1]) + EncodeFrame(fs[|fs| - 1])
  }

  datatype ParsedFrame = Got(frame: Frame, rest: Stream) | Stop(err: Error)

  /** The first frame of a stream, or the error of the read that found too little. */
  function FirstFrame(s: Stream): (r: ParsedFrame)
    ensures r.Got? ==> |r.rest.data| < |s.data|
  {
    if |s.data| < 3 then Stop(ShortRead(s))
    else
      var size := Get16(s.data[1..3]);
      var body := Stream(s.data[3..], s.end);
      if |body.data| < size then Stop(ShortRead(body))
      else Got(Frame(s.data[0], body.data[..size]), Stream(body.data[size..], s.end))
  }

  lemma FirstFrameOfFrame(f: Frame, rest: Stream)
    requires |f.payload| <= MAX_SEGMENT
    ensures FirstFrame(Stream(EncodeFrame(f) + rest.data, rest.end)) == Got(f, rest)
  {
    var d := EncodeFrame(f) + rest.data;
    Get16Put16(|f.payload|);
    assert d[1..3] == Put16(|f.payload|);
    assert d[3..][..|f.payload|] == f.payload;
    assert d[3..][|f.payload|..] == rest.data;
  }

  /** A frame cut off is reported as an unexpected end, except in front of it and just behind its header,
      where the reader cannot tell it from a finished stream. */
  lemma CutFrame(f: Frame, cut: nat)
    requires |f.payload| <= MAX_SEGMENT && cut < |EncodeFrame(f)|
    ensures FirstFrame(Stream(EncodeFrame(f)[..cut], EOF)) == Stop(if cut in {0, 3} then EOF else UnexpectedEOF)
  {
    var d := EncodeFrame(f)[..cut];
    Get16Put16(|f.payload|);
    if cut >= 3 { assert d[1..3] == Put16(|f.payload|); }
  }

  // ---------------------------------------------------------------- what a reader makes of frames

  /** Business bytes, probe requests to answer, probe responses to hand on, and how it ends. */
  datatype Seen = Seen(data: seq<byte>, requests: seq<ProbeReq>, responses: seq<ProbeResp>, end: Error)

  /** Everything a reader of frames gets out of a stream: whether it takes business frames, and whether
      a done frame is the end for it. */
  function Interpret(business: bool, done: bool, s: Stream): Seen
    decreases |s.data|
  {
    match FirstFrame(s)
    case Stop(e) => Seen([], [], [], e)
    case Got(f, rest) =>
      if f.kind == BUSINESS && business then
        var v := Interpret(business, done, rest);
        v.(data := f.payload + v.data)
      else if f.kind == PROBE_REQ then
        match DecodeReq(f.payload)
        case None => Seen([], [], [], BadFrame)
        case Some(q) => var v := Interpret(business, done, rest); v.(requests := [q] + v.requests)
      else if f.kind == PROBE_RESP then
        match DecodeResp(f.payload)
        case None => Seen([], [], [], BadFrame)
        case Some(q) => var v := Interpret(business, done, rest); v.(responses := [q] + v.responses)
      else if f.kind == BANDWIDTH_DONE && done then Seen([], [], [], EOF)
      else Seen([], [], [], BadFrame)
  }

  lemma InterpretStop(business: bool, done: bool, s: Stream, e: Error)
    requires FirstFrame(s) == Stop(e)
    ensures Interpret(business, done, s) == Seen([], [], [], e)
  {
  }

  lemma InterpretBusiness(done: bool, s: Stream, payload: seq<byte>, rest: Stream)
    requires FirstFrame(s) == Got(Frame(BUSINESS, payload), rest)
    ensures var v := Interpret(true, done, rest); Interpret(true, done, s) == v.(data := payload + v.data)
  {
  }

  /** What successive Reads make of a stream. */
  function Business(role: Role, s: Stream): Seen {
    Interpret(true, role == RoleBandwidth, s)
  }

  /** What the control loop of a probe stream makes of it. */
  function Control(s: Stream): Seen {
    Interpret(false, false, s)
  }

  /** A frame a peer of this program sends to a reader of the given role, other than the done frame. */
  predicate Regular(f: Frame) {
    |f.payload| <= MAX_SEGMENT &&
    (f.kind == BUSINESS || (f.kind == PROBE_REQ && DecodeReq(f.payload).Some?)
     || (f.kind == PROBE_RESP && DecodeResp(f.payload).Some?))
  }

  function Payloads(fs: seq<Frame>): seq<byte> {
    if fs == [] then [] else (if fs[0].kind == BUSINESS then fs[0].payload else []) + Payloads(fs[1..])
  }

  function Requests(fs: seq<Frame>): seq<ProbeReq> {
    if fs == [] then []
    else (if fs[0].kind == PROBE_REQ && DecodeReq(fs[0].payload).Some? then [DecodeReq(fs[0].payload).value] else [])
         + Requests(fs[1..])
  }

  function Responses(fs: seq<Frame>): seq<ProbeResp> {
    if fs == [] then []
    else (if fs[0].kind == PROBE_RESP && DecodeResp(fs[0].payload).Some? then [DecodeResp(fs[0].payload).value] else [])
         + Responses(fs[1..])
  }

  lemma {:induction false} EncodeFramesFirst(fs: seq<Frame>)
    requires fs != []
    ensures EncodeFrames(fs) == EncodeFrame(fs[0]) + EncodeFrames(fs[1..])
  {
    if |fs| == 1 {
      assert fs[..0] == [];
    } else {
      EncodeFramesFirst(fs[..|fs| - 1]);
      assert fs[..|fs| - 1][1..] == fs[1..][..|fs| - 2];
      PlusAssociates(EncodeFrame(fs[0]), EncodeFrames(fs[1..][..|fs| - 2]), EncodeFrame(fs[|fs| - 1]));
    }
  }

  /** Probe transparency on the wire: for any mix of frames, the reader gets exactly the business
      payloads, the requests and the responses, each in order. */
  lemma {:induction false} InterpretFrames(business: bool, done: bool, fs: seq<Frame>, end: Error)
    requires forall i :: 0 <= i < |fs| ==> Regular(fs[i]) && (business || fs[i].kind != BUSINESS)
    ensures Interpret(business, done, Stream(EncodeFrames(fs), end))
         == Seen(Payloads(fs), Requests(fs), Responses(fs), end)
    decreases |fs|
  {
    if fs != [] {
      hide *;
      EncodeFramesFirst(fs);
      InterpretFirst(business, done, fs[0], Stream(EncodeFrames(fs[1..]), end));
      InterpretFrames(business, done, fs[1..], end);
      FirstContributes(fs);
    }
  }

  /** What a frame contributes, by its kind: business bytes, a request to answer, a response to hand on. */
  lemma FrameMeaning(f: Frame)
    ensures Payloads([f]) == (if f.kind == 0x00 then f.payload else [])
    ensures Requests([f]) == (if f.kind == 0x01 && DecodeReq(f.payload).Some? then [DecodeReq(f.payload).value] else [])
    ensures Responses([f]) == (if f.kind == 0x02 && DecodeResp(f.payload).Some? then [DecodeResp(f.payload).value] else [])
    ensures DecodeReq(f.payload).Some? <==> |f.payload| == 16
    ensures DecodeResp(f.payload).Some? <==> |f.payload| == 24
  {
    assert [f][1..] == [];
  }

  lemma FirstContributes(fs: seq<Frame>)
    requires fs != []
    ensures Payloads(fs) == Payloads([fs[0]]) + Payloads(fs[1..])
    ensures Requests(fs) == Requests([fs[0]]) + Requests(fs[1..])
    ensures Responses(fs) == Responses([fs[0]]) + Responses(fs[1..])
  {
    FrameMeaning(fs[0]);
  }

  /** Several frames contribute one after the other. */
  lemma {:induction false} MixMeaning(a: seq<Frame>, b: seq<Frame>)
    ensures Payloads(a + b) == Payloads(a) + Payloads(b)
    ensures Requests(a + b) == Requests(a) + Requests(b)
    ensures Responses(a + b) == Responses(a) + Responses(b)
  {
    if a == [] {
      assert a + b == b;
    } else {
      hide *;
      MixMeaning(a[1..], b);
      assert (a + b)[1..] == a[1..] + b;
      FirstContributes(a);
      FirstContributes(a + b);
      PlusAssociates(Payloads([a[0]]), Payloads(a[1..]), Payloads(b));
      PlusAssociates(Requests([a[0]]), Requests(a[1..]), Requests(b));
      PlusAssociates(Responses([a[0]]), Responses(a[1..]), Responses(b));
    }
  }

  /** A frame the reader takes, in front of anything. */
  lemma InterpretFirst(business: bool, done: bool, f: Frame, rest: Stream)
    requires Regular(f) && (business || f.kind != BUSINESS)
    ensures var v := Interpret(business, done, rest);
            Interpret(business, done, Stream(EncodeFrame(f) + rest.data, rest.end))
              == Seen(Payloads([f]) + v.data, Requests([f]) + v.requests, Responses([f]) + v.responses, v.end)
  {
    hide DecodeReq, DecodeResp, FirstFrame, EncodeFrame;
    FirstFrameOfFrame(f, rest);
    FrameMeaning(f);
  }

  /** A frame it does not take, in front of anything. */
  lemma InterpretLast(business: bool, done: bool, f: Frame, rest: Stream)
    requires |f.payload| <= MAX_SEGMENT && (f.kind == BUSINESS ==> !business)
    requires (f.kind == PROBE_REQ ==> |f.payload| != 16) && (f.kind == PROBE_RESP ==> |f.payload| != 24)
    ensures Interpret(business, done, Stream(EncodeFrame(f) + rest.data, rest.end))
         == Seen([], [], [], if f.kind == BANDWIDTH_DONE && done then EOF else BadFrame)
  {
    hide FirstFrame, EncodeFrame;
    FirstFrameOfFrame(f, rest);
  }

  /** The first frame that a reader does not take, after any it takes: a done frame ends a bandwidth stream
      with EOF; any other such frame, of an unknown kind, a request or response of the wrong size, a
      business frame where none is taken, ends it as a bad frame. What came before is delivered all the
      same, and nothing behind is looked at. */
  lemma {:induction false} EndingFrame(business: bool, done: bool, fs: seq<Frame>, f: Frame, rest: Stream)
    requires forall i :: 0 <= i < |fs| ==> Regular(fs[i]) && (business || fs[i].kind != BUSINESS)
    requires |f.payload| <= 65535 && (f.kind == 0x00 ==> !business)
    requires (f.kind == 0x01 ==> |f.payload| != 16) && (f.kind == 0x02 ==> |f.payload| != 24)
    ensures Interpret(business, done, Stream(EncodeFrames(fs) + (EncodeFrame(f) + rest.data), rest.end))
         == Seen(Payloads(fs), Requests(fs), Responses(fs), if f.kind == 0x03 && done then EOF else BadFrame)
    decreases |fs|
  {
    var tail := EncodeFrame(f) + rest.data;
    if fs == [] {
      assert EncodeFrames(fs) + tail == tail;
      hide Interpret, EncodeFrame;
      InterpretLast(business, done, f, rest);
    } else {
      hide *;
      EncodeFramesFirst(fs);
      PlusAssociates(EncodeFrame(fs[0]), EncodeFrames(fs[1..]), tail);
      InterpretFirst(business, done, fs[0], Stream(EncodeFrames(fs[1..]) + tail, rest.end));
      EndingFrame(business, done, fs[1..], f, rest);
      FirstContributes(fs);
    }
  }

  /** Told by the role of the stream: only a bandwidth stream takes a done frame. */
  lemma DoneFrame(role: Role, fs: seq<Frame>, payload: seq<byte>, rest: Stream)
    requires (forall i :: 0 <= i < |fs| ==> Regular(fs[i])) && |payload| <= 65535
    ensures Business(role, Stream(EncodeFrames(fs) + (EncodeFrame(Frame(0x03, payload)) + rest.data), rest.end))
         == Seen(Payloads(fs), Requests(fs), Responses(fs), if role == RoleBandwidth then EOF else BadFrame)
    ensures OnlyControl(fs) ==>
              Control(Stream(EncodeFrames(fs) + (EncodeFrame(Frame(0x03, payload)) + rest.data), rest.end))
                == Seen([], Requests(fs), Responses(fs), BadFrame)
  {
    EndingFrame(true, role == RoleBandwidth, fs, Frame(0x03, payload), rest);
    if OnlyControl(fs) {
      EndingFrame(false, false, fs, Frame(0x03, payload), rest);
      NoPayloads(fs);
    }
  }

  predicate OnlyControl(fs: seq<Frame>) {
    forall i :: 0 <= i < |fs| ==> fs[i].kind != BUSINESS
  }

  lemma {:induction false} NoPayloads(fs: seq<Frame>)
    requires OnlyControl(fs)
    ensures Payloads(fs) == []
  {
    if fs != [] { NoPayloads(fs[1..]); }
  }

  lemma {:induction false} PayloadsAppend(fs: seq<Frame>, f: Frame)
    ensures Payloads(fs + [f]) == Payloads(fs) + if f.kind == BUSINESS then f.payload else []
  {
    if fs == [] {
      assert [f][1..] == [];
    } else {
      PayloadsAppend(fs[1..], f);
      assert (fs + [f])[1..] == fs[1..] + [f];
    }
  }

  lemma FirstFrameCut(s: Stream, k: nat, end: Error)
    requires k <= |s.data|
    ensures var cut := FirstFrame(Stream(s.data[..k], end));
            match FirstFrame(s)
            case Stop(_) => cut.Stop?
            case Got(f, rest) =>
              var used := |s.data| - |rest.data|;
              if used <= k then cut == Got(f, Stream(rest.data[..k - used], end)) else cut.Stop?
  {
    var data := s.data[..k];
    if |data| >= 3 {
      assert data[1..3] == s.data[1..3];
      var size := Get16(s.data[1..3]);
      if |data| - 3 >= size {
        assert data[3..][..size] == s.data[3..][..size];
        assert data[3..][size..] == s.data[3..][size..][..k - 3 - size];
      }
    }
  }

  /** Wherever a stream is cut, what is read, answered and handed on is a front part of what there was. */
  lemma {:induction false} CutFrames(business: bool, done: bool, s: Stream, k: nat, end: Error)
    requires k <= |s.data|
    ensures var cut, all := Interpret(business, done, Stream(s.data[..k], end)), Interpret(business, done, s);
            cut.data <= all.data && cut.requests <= all.requests && cut.responses <= all.responses
    decreases |s.data|
  {
    hide FirstFrame, DecodeReq, DecodeResp;
    FirstFrameCut(s, k, end);
    var first := FirstFrame(s);
    if first.Got? {
      FrameIsShorter(s);
      var used := |s.data| - |first.rest.data|;
      if used <= k { CutFrames(business, done, first.rest, k - used, end); }
    }
  }

  lemma FrameIsShorter(s: Stream)
    ensures FirstFrame(s).Got? ==> |FirstFrame(s).rest.data| < |s.data|
  {
  }
}
