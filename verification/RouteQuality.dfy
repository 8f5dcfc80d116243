/**
  Full-path route selection (tun/route_quality.go): what one probe round, or one question
  about the preferred member, does to the monitor. The class in RouteMonitor.dfy is proved
  equal to these functions; RouteRuns.dfy proves what they mean over whole runs.
 */
module RouteQuality {
  import opened Prelude

  type Name = string

  /** Identity of one Service object; a rebuilt member is a different object. */
  type Instance = nat

  const WINDOW: nat := 20
  const COOLDOWN: int := 60_000_000_000  // nanoseconds

  datatype Policy = Priority | Quality

  datatype ProbeStatus = Normal | Slow | Failed

  datatype ProbeResult = ProbeResult(status: ProbeStatus, durationMs: int, err: string, connectivity: string)

  datatype ShownStatus = Evaluating | Probed(status: ProbeStatus) | CommonFailure

  datatype MemberState = MemberState(
    shown: ShownStatus,
    samples: nat,
    badSamples: nat,
    failures: nat,
    normals: nat,
    durationMs: int,
    err: string,
    connectivity: string,
    probedAt: int,
    window: seq<bool>,
    service: Option<Instance>)

  datatype Reason =
    | NoneRunning
    | ByOrder
    | SkipToReliable
    | Fault(failures: nat, normals: nat)
    | Recovery(normals: nat)
    | BetterQuality(from: nat, to: nat)

  datatype SwitchEvent = SwitchEvent(from: Name, to: Name, reason: Reason)

  /** The monitor's fields; switches is every switch ever made, of which the log keeps the last 20. */
  datatype Monitor = Monitor(
    policy: Policy,
    states: map<Name, MemberState>,
    current: Name,
    lastSwitch: int,
    cancelled: bool,
    switches: seq<SwitchEvent>)

  /** Every name of the list is in the set. */
  predicate Within(names: seq<Name>, keys: set<Name>) {
    forall i :: 0 <= i < |names| ==> names[i] in keys
  }

  function FreshMember(service: Option<Instance>): MemberState {
    MemberState(Evaluating, 0, 0, 0, 0, 0, "", "", 0, [], service)
  }

  function NewMonitor(members: seq<Name>, policy: Policy): Monitor {
    Monitor(policy, map n | n in members :: FreshMember(None), "", 0, false, [])
  }

  // ---------------------------------------------------------------- absorbing results

  /** A common failure: at least two members are running and every one of them failed. */
  predicate AllFailed(results: map<Name, ProbeResult>, available: seq<Name>) {
    |available| > 1 &&
    forall i :: 0 <= i < |available| ==> available[i] in results && results[available[i]].status == Failed
  }

  function Slide(window: seq<bool>, bad: bool): seq<bool> {
    if |window| + 1 > WINDOW then (window + [bad])[1..] else window + [bad]
  }

  /** One member's state after its result of a committed round. */
  function Absorb(s: MemberState, r: ProbeResult, allFailed: bool, now: int): MemberState {
    var failures :=
      if r.status != Failed then 0
      else if allFailed && r.connectivity == "ok" then 0
      else s.failures + 1;
    var normals := if r.status == Normal then s.normals + 1 else 0;
    var t := s.(shown := Probed(r.status), durationMs := r.durationMs, err := r.err,
                connectivity := r.connectivity, probedAt := now, failures := failures, normals := normals);
    if allFailed then t.(shown := CommonFailure)
    else
      var w := Slide(s.window, r.status != Normal);
      t.(window := w, samples := |w|, badSamples := CountTrue(w))
  }

  function AbsorbAll(states: map<Name, MemberState>, results: map<Name, ProbeResult>, allFailed: bool, now: int)
    : map<Name, MemberState>
  {
    map n | n in states :: if n in results then Absorb(states[n], results[n], allFailed, now) else states[n]
  }

  // ---------------------------------------------------------------- choosing a member

  /** The first name of the list that is in the set. */
  function First(names: seq<Name>, wanted: set<Name>): Option<Name> {
    if names == [] then None
    else if names[0] in wanted then Some(names[0])
    else First(names[1..], wanted)
  }

  function Before(names: seq<Name>, name: Name): seq<Name> {
    if names == [] || names[0] == name then [] else [names[0]] + Before(names[1..], name)
  }

  /** Members with at least two normal rounds in a row. */
  function Reliable(states: map<Name, MemberState>): set<Name> {
    set n | n in states && states[n].normals >= 2
  }

  function Choose(q: Monitor, name: Name, reason: Reason, now: int): Monitor {
    if name == q.current then q
    else q.(current := name, lastSwitch := now,
            switches := q.switches + [SwitchEvent(q.current, name, reason)])
  }

  function EnsureCurrent(q: Monitor, available: seq<Name>, now: int): Monitor {
    if q.current in available then q
    else if available == [] then Choose(q, "", NoneRunning, now)
    else
      var reliable := if q.policy == Priority then First(available, Reliable(q.states)) else None;
      match reliable
      case Some(name) => Choose(q, name, SkipToReliable, now)
      case None => Choose(q, available[0], ByOrder, now)
  }

  function FaultTarget(q: Monitor, available: seq<Name>): Option<Name>
    requires q.current in q.states
  {
    if q.states[q.current].failures >= 3 then First(available, Reliable(q.states) - {q.current}) else None
  }

  function ApplyPriority(q: Monitor, available: seq<Name>, now: int): Monitor
    requires q.current in q.states
  {
    FirstInSet(available, Reliable(q.states) - {q.current});
    FirstInSet(Before(available, q.current), Reliable(q.states));
    match FaultTarget(q, available)
    case Some(name) => Choose(q, name, Fault(q.states[q.current].failures, q.states[name].normals), now)
    case None =>
      if now - q.lastSwitch < COOLDOWN then q
      else
        match First(Before(available, q.current), Reliable(q.states))
        case Some(name) => Choose(q, name, Recovery(q.states[name].normals), now)
        case None => q
  }

  predicate Eligible(s: MemberState) {
    s.samples == WINDOW && s.failures == 0
  }

  /** The quality scan: a member replaces the best so far only when it is eligible and strictly better. */
  function Best(names: seq<Name>, states: map<Name, MemberState>, best: Name): (r: Name)
    requires best in states && Within(names, states.Keys)
    ensures r in states
  {
    if names == [] then best
    else
      var s := states[names[0]];
      Best(names[1..], states, if Eligible(s) && s.badSamples < states[best].badSamples then names[0] else best)
  }

  function ApplyQuality(q: Monitor, available: seq<Name>, now: int): Monitor
    requires q.current in q.states && Within(available, q.states.Keys)
  {
    FirstInSet(available, Reliable(q.states) - {q.current});
    var cur := q.states[q.current];
    match FaultTarget(q, available)
    case Some(name) => Choose(q, name, Fault(cur.failures, q.states[name].normals), now)
    case None =>
      if cur.samples < WINDOW || now - q.lastSwitch < COOLDOWN then q
      else
        var best := Best(available, q.states, q.current);
        if best != q.current && cur.badSamples - q.states[best].badSamples >= 3
        then Choose(q, best, BetterQuality(cur.badSamples, q.states[best].badSamples), now)
        else q
  }

  /** A whole committed round. */
  function ApplyRound(q: Monitor, results: map<Name, ProbeResult>, available: seq<Name>, now: int): Monitor
    requires Within(available, q.states.Keys)
  {
    if q.cancelled then q
    else
      var allFailed := AllFailed(results, available);
      var absorbed := q.(states := AbsorbAll(q.states, results, allFailed, now));
      var ensured := EnsureCurrent(absorbed, available, now);
      if ensured.current !in ensured.states || allFailed then ensured
      else if q.policy == Priority then ApplyPriority(ensured, available, now)
      else ApplyQuality(ensured, available, now)
  }

  /** Choosing never touches the members' states. */
  lemma ApplyRoundFrame(q: Monitor, results: map<Name, ProbeResult>, available: seq<Name>, now: int)
    requires Within(available, q.states.Keys)
    ensures var q' := ApplyRound(q, results, available, now);
            q'.policy == q.policy && q'.cancelled == q.cancelled &&
            q'.states == if q.cancelled then q.states
                         else AbsorbAll(q.states, results, AllFailed(results, available), now)
  {
  }

  // ---------------------------------------------------------------- committing a round

  lemma {:induction false} FilterWithin(names: seq<Name>, keep: set<Name>, keys: set<Name>)
    requires Within(names, keys)
    ensures Within(Filter(names, keep), keys * keep)
  {
    if names != [] { FilterWithin(names[..|names| - 1], keep, keys); }
  }

  function Lookup(services: map<Name, Instance>, n: Name): Option<Instance> {
    if n in services then Some(services[n]) else None
  }

  /** How many members, in order, still are the instance that was probed. */
  function Agreeing(members: seq<Name>, captured: map<Name, Option<Instance>>, services: map<Name, Instance>): (p: nat)
    requires Within(members, captured.Keys)
    ensures p <= |members|
  {
    if members == [] || captured[members[0]] != Lookup(services, members[0]) then 0
    else 1 + Agreeing(members[1..], captured, services)
  }

  /** One member's state starts afresh when its service has been rebuilt. */
  function RebindOne(states: map<Name, MemberState>, n: Name, service: Option<Instance>): map<Name, MemberState>
    requires n in states
  {
    if states[n].service != service then states[n := FreshMember(service)] else states
  }

  /** States of the named members start afresh when their service has been rebuilt. */
  function Rebind(states: map<Name, MemberState>, names: set<Name>, services: map<Name, Instance>): map<Name, MemberState> {
    map n | n in states ::
      if n in names && states[n].service != Lookup(services, n) then FreshMember(Lookup(services, n)) else states[n]
  }

  /** The second half of a round: nothing is applied unless every member is the instance probed,
      but members checked before the first disagreement have been rebound by then. */
  function Commit(q: Monitor, members: seq<Name>, captured: map<Name, Option<Instance>>,
                  answers: map<Name, ProbeResult>, services: map<Name, Instance>, running: set<Name>, now: int): Monitor
    requires Within(members, captured.Keys) && Within(members, q.states.Keys)
  {
    var p := Agreeing(members, captured, services);
    var rebound := q.(states := Rebind(q.states, ToSet(members[..p]), services));
    FilterWithin(members, running * services.Keys, q.states.Keys);
    if p < |members| then rebound
    else ApplyRound(rebound, answers, Filter(members, running * services.Keys), now)
  }

  lemma {:induction false} AgreeingMeaning(members: seq<Name>, captured: map<Name, Option<Instance>>,
                                           services: map<Name, Instance>, p: nat)
    requires Within(members, captured.Keys)
    requires p <= |members|
    ensures Agreeing(members, captured, services) == p <==>
              (forall j :: 0 <= j < p ==> captured[members[j]] == Lookup(services, members[j])) &&
              (p < |members| ==> captured[members[p]] != Lookup(services, members[p]))
  {
    if members == [] || captured[members[0]] != Lookup(services, members[0]) {
      if p > 0 { assert members[0] == members[p - p]; }
    } else if p > 0 {
      AgreeingMeaning(members[1..], captured, services, p - 1);
      if (forall j :: 0 <= j < p ==> captured[members[j]] == Lookup(services, members[j])) {
        forall j | 0 <= j < p - 1 ensures captured[members[1..][j]] == Lookup(services, members[1..][j]) {
          assert members[1..][j] == members[j + 1];
        }
      }
      if (forall j :: 0 <= j < p - 1 ==> captured[members[1..][j]] == Lookup(services, members[1..][j])) {
        forall j | 0 <= j < p ensures captured[members[j]] == Lookup(services, members[j]) {
          if j > 0 { assert members[j] == members[1..][j - 1]; }
        }
      }
    }
  }

  // ---------------------------------------------------------------- what the choices mean

  /** y is the first name of the list that is in the set, said without recursion. */
  ghost predicate IsFirst(names: seq<Name>, wanted: set<Name>, y: Name) {
    exists i :: 0 <= i < |names| && names[i] == y && y in wanted &&
                forall j :: 0 <= j < i ==> names[j] !in wanted
  }

  lemma {:induction false} FirstInSet(names: seq<Name>, wanted: set<Name>)
    ensures First(names, wanted).Some? ==> First(names, wanted).value in wanted && First(names, wanted).value in names
  {
    if names != [] { FirstInSet(names[1..], wanted); }
  }

  lemma {:induction false} FirstMeaning(names: seq<Name>, wanted: set<Name>, y: Name)
    ensures First(names, wanted) == Some(y) <==> IsFirst(names, wanted, y)
    ensures First(names, wanted) == None <==> forall n :: n in names ==> n !in wanted
  {
    if names == [] {
    } else if names[0] in wanted {
      if IsFirst(names, wanted, y) {
        var i :| 0 <= i < |names| && names[i] == y && y in wanted && forall j :: 0 <= j < i ==> names[j] !in wanted;
        assert i == 0;
      }
      assert names[0] in names;
    } else {
      FirstMeaning(names[1..], wanted, y);
      if IsFirst(names[1..], wanted, y) {
        var i :| 0 <= i < |names| - 1 && names[1..][i] == y && y in wanted
                 && forall j :: 0 <= j < i ==> names[1..][j] !in wanted;
        forall j | 0 <= j < i + 1 ensures names[j] !in wanted {
          if j > 0 { assert names[1..][j - 1] == names[j]; }
        }
        assert names[i + 1] == y;
      }
      if IsFirst(names, wanted, y) {
        var i :| 0 <= i < |names| && names[i] == y && y in wanted && forall j :: 0 <= j < i ==> names[j] !in wanted;
        assert i > 0;
        forall j | 0 <= j < i - 1 ensures names[1..][j] !in wanted { assert names[j + 1] !in wanted; }
        assert names[1..][i - 1] == y;
      }
      assert names == [names[0]] + names[1..];
    }
  }
}
