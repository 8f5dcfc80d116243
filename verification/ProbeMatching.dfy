/**
  Matching probe responses to probes (tun/frame_stream.go, Probe and its waiter map). One probe at a
  time registers a channel under its sequence number; responses are looked up under the lock and
  delivered afterwards, so a delivery may come late, twice, or for a number nobody asked. A run is any
  sequence of events, an impossible one having no effect. Probes are numbered from 0; the k-th one
  owns channel k and carries sequence number k + 1 modulo 2^64.
 */
module ProbeMatching {
  import opened Prelude
  import opened Bytes
  import opened Frames

  datatype Outcome = Success(resp: ProbeResp) | Mismatch | Abandoned

  datatype Delivery = Delivery(resp: ProbeResp, channel: nat)

  datatype State = State(
    started: nat,
    counter: uint64,
    inFlight: Option<(nat, uint64)>,        // channel and sequence number of the running probe
    waiters: map<uint64, nat>,
    buffered: map<nat, ProbeResp>,          // channels hold at most one response
    deliveries: seq<Delivery>,              // looked up, not yet sent on the channel
    found: seq<Delivery>,                   // history: successful lookups
    outcomes: seq<(nat, Outcome)>)          // history: how each probe ended

  datatype Event =
    | Start
    | Lookup(resp: ProbeResp)
    | Deliver(index: nat)
    | Receive
    | GiveUp

  const INIT := State(0, 0, None, map[], map[], [], [], [])

  function NumberOf(k: nat): uint64 { (k + 1) % TWO64 }

  function Step(s: State, e: Event): State {
    match e
    case Start =>
      if s.inFlight.Some? then s
      else
        var number: uint64 := if s.counter + 1 == TWO64 then 0 else s.counter + 1;
        s.(started := s.started + 1, counter := number, inFlight := Some((s.started, number)),
           waiters := s.waiters[number := s.started])
    case Lookup(resp) =>
      if resp.number !in s.waiters then s
      else
        var d := Delivery(resp, s.waiters[resp.number]);
        s.(deliveries := s.deliveries + [d], found := s.found + [d])
    case Deliver(i) =>
      if i >= |s.deliveries| then s
      else
        var d := s.deliveries[i];
        var t := s.(deliveries := s.deliveries[..i] + s.deliveries[i + 1..]);
        if d.channel in s.buffered then t else t.(buffered := s.buffered[d.channel := d.resp])
    case Receive =>
      if s.inFlight.None? || s.inFlight.value.0 !in s.buffered then s
      else
        var (channel, number) := s.inFlight.value;
        var resp := s.buffered[channel];
        End(s.(buffered := s.buffered - {channel}), if resp.number != number then Mismatch else Success(resp))
    case GiveUp => if s.inFlight.None? then s else End(s, Abandoned)
  }

  /** Probe returns: the waiter is unregistered. */
  function End(s: State, outcome: Outcome): State
    requires s.inFlight.Some?
  {
    s.(inFlight := None, waiters := s.waiters - {s.inFlight.value.1},
       outcomes := s.outcomes + [(s.inFlight.value.0, outcome)])
  }

  function Run(evs: seq<Event>): State {
    if evs == [] then INIT else Step(Run(evs[..|evs| - 1]), evs[|evs| - 1])
  }

  ghost predicate Inv(s: State) {
    && s.counter == s.started % TWO64
    && s.waiters == (if s.inFlight.Some? then map[s.inFlight.value.1 := s.inFlight.value.0] else map[])
    && (s.inFlight.Some? ==> s.started == s.inFlight.value.0 + 1 && s.inFlight.value.1 == NumberOf(s.inFlight.value.0))
    && (forall d :: d in s.found ==> d.channel < s.started && d.resp.number == NumberOf(d.channel))
    && (forall d :: d in s.deliveries ==> d in s.found)
    && (forall c :: c in s.buffered ==> Delivery(s.buffered[c], c) in s.found)
    && |s.outcomes| == s.started - (if s.inFlight.Some? then 1 else 0)
    && (forall i :: 0 <= i < |s.outcomes| ==> s.outcomes[i].0 == i && OutcomeOk(s, i, s.outcomes[i].1))
  }

  /** A success is on a response with the probe's own number, found while that probe was waiting. */
  ghost predicate OutcomeOk(s: State, k: nat, o: Outcome) {
    o != Mismatch && (o.Success? ==> o.resp.number == NumberOf(k) && Delivery(o.resp, k) in s.found)
  }

  lemma StartKeepsInv(s: State)
    requires Inv(s)
    ensures Inv(Step(s, Start))
  {
    if s.inFlight.None? { assert (s.started + 1) % TWO64 == (s.started % TWO64 + 1) % TWO64; }
  }

  lemma LookupKeepsInv(s: State, resp: ProbeResp)
    requires Inv(s)
    ensures Inv(Step(s, Lookup(resp)))
  {
  }

  lemma DeliverKeepsInv(s: State, i: nat)
    requires Inv(s)
    ensures Inv(Step(s, Deliver(i)))
  {
    var t := Step(s, Deliver(i));
    if i < |s.deliveries| {
      assert s.deliveries[i] in s.deliveries;
      forall d | d in t.deliveries ensures d in s.found { assert d in s.deliveries; }
    }
  }

  lemma EndKeepsInv(s: State, e: Event)
    requires Inv(s) && (e.Receive? || e.GiveUp?)
    ensures Inv(Step(s, e))
  {
  }

  lemma StepKeepsInv(s: State, e: Event)
    requires Inv(s)
    ensures Inv(Step(s, e))
  {
    hide *;
    match e {
      case Start => StartKeepsInv(s);
      case Lookup(resp) => LookupKeepsInv(s, resp);
      case Deliver(i) => DeliverKeepsInv(s, i);
      case Receive => EndKeepsInv(s, e);
      case GiveUp => EndKeepsInv(s, e);
    }
  }

  /** Over every run: the waiter map holds at most the running probe's number; every probe ends at most
      once, never in a mismatch, and in success only on a response that carries its own number and was
      looked up while it was waiting, so a late response never completes a later probe. */
  lemma {:induction false} ProbesMatch(evs: seq<Event>)
    ensures Inv(Run(evs))
  {
    if evs != [] {
      ProbesMatch(evs[..|evs| - 1]);
      StepKeepsInv(Run(evs[..|evs| - 1]), evs[|evs| - 1]);
    }
  }

  /** A response is found for probe k only between its start and its end. */
  lemma {:induction false} FoundWhileWaiting(evs: seq<Event>, d: Delivery)
    requires d in Run(evs).found
    ensures exists i :: 0 <= i < |evs| && evs[i] == Lookup(d.resp) &&
              Run(evs[..i]).inFlight == Some((d.channel, d.resp.number))
  {
    var n := |evs| - 1;
    var s := Run(evs[..n]);
    ProbesMatch(evs[..n]);
    if d in s.found {
      FoundWhileWaiting(evs[..n], d);
      var i :| 0 <= i < n && evs[..n][i] == Lookup(d.resp) && Run(evs[..n][..i]).inFlight == Some((d.channel, d.resp.number));
      assert evs[..n][..i] == evs[..i];
    } else {
      assert evs[n] == Lookup(d.resp);
    }
  }

  lemma RunStep(evs: seq<Event>, e: Event)
    ensures Run(evs + [e]) == Step(Run(evs), e)
  {
    assert (evs + [e])[..|evs|] == evs;
  }

  lemma Started(s: State)
    requires Inv(s) && s.inFlight.None?
    ensures var t := Step(s, Start);
            && t.inFlight == Some((s.started, (s.started + 1) % 0x1_0000_0000_0000_0000))
            && t.waiters == map[(s.started + 1) % 0x1_0000_0000_0000_0000 := s.started]
            && t.outcomes == s.outcomes && s.started !in t.buffered
  {
    assert (s.started + 1) % TWO64 == (s.started % TWO64 + 1) % TWO64;
    forall c | c in s.buffered ensures c < s.started { assert Delivery(s.buffered[c], c) in s.found; }
  }

  /** Wherever a run has got to, a probe that starts while none is running takes the next channel and the
      next number, and its number alone is waited for. */
  lemma StartTakesNextNumber(evs: seq<Event>)
    requires Run(evs).inFlight.None?
    ensures var s, t := Run(evs), Run(evs + [Start]);
            && t.inFlight == Some((s.started, (s.started + 1) % 0x1_0000_0000_0000_0000))
            && t.waiters == map[(s.started + 1) % 0x1_0000_0000_0000_0000 := s.started]
            && t.outcomes == s.outcomes && s.started !in t.buffered
  {
    hide *;
    ProbesMatch(evs);
    RunStep(evs, Start);
    Started(Run(evs));
  }

  lemma Answered(s: State, k: nat, r: ProbeResp)
    requires Inv(s) && s.inFlight == Some((k, r.number)) && k !in s.buffered
    ensures var t := Step(Step(Step(s, Lookup(r)), Deliver(|s.deliveries|)), Receive);
            t.inFlight == None && t.outcomes == s.outcomes + [(k, Success(r))]
  {
    var looked := Step(s, Lookup(r));
    assert looked == s.(deliveries := s.deliveries + [Delivery(r, k)], found := s.found + [Delivery(r, k)]);
    var delivered := Step(looked, Deliver(|s.deliveries|));
    assert delivered == looked.(deliveries := delivered.deliveries, buffered := s.buffered[k := r]);
  }

  /** Wherever a run has got to, the response to the running probe, once looked up, delivered and
      received, ends that probe in a success on this very response. */
  lemma AnsweredProbeSucceeds(evs: seq<Event>, k: nat, r: ProbeResp)
    requires Run(evs).inFlight == Some((k, r.number)) && k !in Run(evs).buffered
    ensures var n := |Run(evs).deliveries|;
            var t := Run(evs + [Lookup(r)] + [Deliver(n)] + [Receive]);
            t.inFlight == None && t.outcomes == Run(evs).outcomes + [(k, Success(r))]
  {
    hide *;
    var n := |Run(evs).deliveries|;
    ProbesMatch(evs);
    RunStep(evs, Lookup(r));
    RunStep(evs + [Lookup(r)], Deliver(n));
    RunStep(evs + [Lookup(r)] + [Deliver(n)], Receive);
    Answered(Run(evs), k, r);
  }

  lemma Received(s: State, k: nat, number: uint64)
    requires Inv(s) && s.inFlight == Some((k, number))
    ensures var t := Step(s, Receive);
            if k in s.buffered then t.inFlight == None && t.outcomes == s.outcomes + [(k, Success(s.buffered[k]))]
            else t == s
  {
    if k in s.buffered { assert Delivery(s.buffered[k], k) in s.found; }
  }

  /** Wherever a run has got to, what lies in the channel of the running probe is what that probe
      returns; and any response looked up for it and still on its way gets into the channel, whatever
      else is on its way, unless another was there first. */
  lemma ReceivedIsReturned(evs: seq<Event>, k: nat, number: uint64)
    requires Run(evs).inFlight == Some((k, number))
    ensures var s, t := Run(evs), Run(evs + [Receive]);
            if k in s.buffered then t.inFlight == None && t.outcomes == s.outcomes + [(k, Success(s.buffered[k]))]
            else t == s
    ensures var s := Run(evs);
            forall i :: 0 <= i < |s.deliveries| && s.deliveries[i].channel == k ==>
              var t := Run(evs + [Deliver(i)]);
              t.inFlight == s.inFlight && k in t.buffered &&
              t.buffered[k] == if k in s.buffered then s.buffered[k] else s.deliveries[i].resp
  {
    hide *;
    var s := Run(evs);
    ProbesMatch(evs);
    RunStep(evs, Receive);
    Received(s, k, number);
    forall i | 0 <= i < |s.deliveries| && s.deliveries[i].channel == k
      ensures var t := Run(evs + [Deliver(i)]);
              t.inFlight == s.inFlight && k in t.buffered &&
              t.buffered[k] == if k in s.buffered then s.buffered[k] else s.deliveries[i].resp
    {
      RunStep(evs, Deliver(i));
      Delivered(s, i);
    }
  }

  lemma Delivered(s: State, i: nat)
    requires i < |s.deliveries|
    ensures var t := Step(s, Deliver(i));
            var d := s.deliveries[i];
            && t.inFlight == s.inFlight
            && t.buffered == if d.channel in s.buffered then s.buffered else s.buffered[d.channel := d.resp]
  {
  }

  /** Giving up ends the running probe, and nobody waits any more. */
  lemma GivenUpEnds(evs: seq<Event>, k: nat, number: uint64)
    requires Run(evs).inFlight == Some((k, number))
    ensures var t := Run(evs + [GiveUp]);
            t.inFlight == None && t.waiters == map[] && t.outcomes == Run(evs).outcomes + [(k, Abandoned)]
  {
    ProbesMatch(evs);
    RunStep(evs, GiveUp);
    hide Run;
  }

  /** Over every run: a probe ends abandoned only by being given up while it runs, and in a success only
      by receiving, while it runs, the response that lies in its channel. */
  lemma {:induction false} HowProbesEnd(evs: seq<Event>, k: nat, o: Outcome)
    requires (k, o) in Run(evs).outcomes
    ensures exists i :: 0 <= i < |evs| &&
              var s := Run(evs[..i]);
              s.inFlight == Some((k, (k + 1) % 0x1_0000_0000_0000_0000)) &&
              (if o == Abandoned then evs[i] == GiveUp
               else evs[i] == Receive && k in s.buffered && o == Success(s.buffered[k]))
  {
    var n := |evs| - 1;
    var s := Run(evs[..n]);
    ProbesMatch(evs[..n]);
    ProbesMatch(evs);
    if (k, o) in s.outcomes {
      HowProbesEnd(evs[..n], k, o);
      var i :| 0 <= i < n &&
        var s := Run(evs[..n][..i]);
        s.inFlight == Some((k, (k + 1) % 0x1_0000_0000_0000_0000)) &&
        (if o == Abandoned then evs[..n][i] == GiveUp
         else evs[..n][i] == Receive && k in s.buffered && o == Success(s.buffered[k]));
      assert evs[..n][..i] == evs[..i];
    } else {
      assert Run(evs) == Step(s, evs[n]);
      EndedHere(s, evs[n], k, o);
    }
  }

  lemma EndedHere(s: State, e: Event, k: nat, o: Outcome)
    requires Inv(s) && (k, o) in Step(s, e).outcomes && (k, o) !in s.outcomes
    ensures s.inFlight == Some((k, NumberOf(k)))
    ensures if o == Abandoned then e == GiveUp
            else e == Receive && k in s.buffered && o == Success(s.buffered[k])
  {
    if e.Receive? && k in s.buffered { assert Delivery(s.buffered[k], k) in s.found; }
  }
}
