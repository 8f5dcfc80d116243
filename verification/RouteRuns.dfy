/**
  Whole runs of route selection. Probes are launched, members are rebuilt, answers arrive and
  rounds commit in any interleaving; a run is any sequence of such events, an event that is not
  possible where it stands having no effect. Alongside the monitor a run keeps a history that the
  monitor never reads: for every member, each committed sample with the instance it was measured
  on, and since when the present state has been collecting.
 */
module RouteRuns {
  import opened Prelude
  import opened RouteQuality

  /** One committed result: of which instance, in a common failure or not, and when. */
  datatype Sample = Sample(instance: Option<Instance>, result: ProbeResult, common: bool, at: int)

  /** A round under way: what was launched, what has come back, and, once the commit has begun, how many
      members it has checked and which of those it saw running. */
  datatype Flight = Flight(captured: map<Name, Option<Instance>>, answers: map<Name, ProbeResult>,
                           checked: nat, running: set<Name>)

  const LAUNCHED := Flight(map[], map[], 0, {})

  datatype World = World(
    members: seq<Name>,
    services: map<Name, Instance>,
    used: set<Instance>,
    mon: Monitor,
    flight: Option<Flight>,
    log: map<Name, seq<Sample>>,
    since: map<Name, nat>)

  /** A commit is one Check per member, each under the monitor's lock, and a final Apply. The manager's
      lock is held throughout, so nothing is registered or removed in between, but the monitor may be
      asked or cancelled. */
  datatype Event =
    | BeginRound
    | Capture(name: Name)
    | Answer(name: Name, result: ProbeResult)
    | Abandon
    | Check(isRunning: bool)
    | Apply(now: int)
    | Register(name: Name, instance: Instance)
    | Unregister(name: Name)
    | Ask(running: set<Name>, now: int)
    | Cancel

  const NOT_RUNNING := ProbeResult(Failed, 0, "member not running or disabled", "failed")

  ghost predicate Wf(w: World) {
    && Distinct(w.members) && "" !in w.members
    && Within(w.members, w.log.Keys)
    && (forall n :: n in w.log ==> n in w.members && n in w.mon.states && n in w.since && w.since[n] <= |w.log[n]|)
    && (w.flight.Some? ==> WfFlight(w, w.flight.value))
  }

  /** The members checked so far are the instances that were probed, and their states are bound to them. */
  ghost predicate WfFlight(w: World, f: Flight) {
    && (forall n :: n in f.answers ==> n in f.captured)
    && f.checked <= |w.members|
    && (if f.checked == 0 then f.running == {} else AllAnswered(w, f))
    && f.running <= w.services.Keys
    && forall i :: 0 <= i < f.checked ==> Current(w, f, w.members[i])
  }

  ghost predicate AllAnswered(w: World, f: Flight) {
    forall n :: n in w.log ==> n in f.answers
  }

  ghost predicate Current(w: World, f: Flight, n: Name) {
    && n in f.captured && f.captured[n] == Lookup(w.services, n)
    && n in w.mon.states && w.mon.states[n].service == Lookup(w.services, n)
  }

  ghost predicate ValidMembers(members: seq<Name>) {
    Distinct(members) && "" !in members
  }

  ghost function Start(members: seq<Name>, policy: Policy, services: map<Name, Instance>): (w: World)
    requires ValidMembers(members)
    ensures Wf(w)
  {
    World(members, services, services.Values, NewMonitor(members, policy), None,
          map n | n in members :: [], map n | n in members :: 0)
  }

  /** A commit has begun. */
  ghost predicate Committing(w: World) {
    w.flight.Some? && w.flight.value.checked > 0
  }

  ghost predicate Enabled(w: World, e: Event)
    requires Wf(w)
  {
    match e
    case BeginRound => w.flight.None?
    case Capture(n) => w.flight.Some? && n in w.log && n !in w.flight.value.captured
    case Answer(n, r) =>
      w.flight.Some? && n in w.flight.value.captured && n !in w.flight.value.answers &&
      (w.flight.value.captured[n].None? ==> r == NOT_RUNNING)
    case Abandon => w.flight.Some? && w.mon.cancelled && !Committing(w)
    case Check(_) => w.flight.Some? && AllAnswered(w, w.flight.value) && w.flight.value.checked < |w.members|
    case Apply(_) => w.flight.Some? && AllAnswered(w, w.flight.value) && w.flight.value.checked == |w.members|
    case Register(_, i) => !Committing(w) && i !in w.used
    case Unregister(_) => !Committing(w)
    case _ => true
  }

  /** The members the commit has seen running, in order. */
  ghost function Available(w: World): seq<Name>
    requires w.flight.Some?
  {
    Filter(w.members, w.flight.value.running)
  }

  /** Whether e applies a round, all of whose members are the instances that were probed. */
  ghost predicate Commits(w: World, e: Event)
    requires Wf(w)
  {
    e.Apply? && Enabled(w, e) && !w.mon.cancelled
  }

  ghost predicate Common(w: World, e: Event)
    requires Wf(w) && Commits(w, e)
  {
    AllFailed(w.flight.value.answers, Available(w))
  }

  ghost function SampleOf(w: World, e: Event, n: Name): Sample
    requires Wf(w) && Commits(w, e) && n in w.log
  {
    Sample(w.flight.value.captured[n], w.flight.value.answers[n], Common(w, e), e.now)
  }

  /** The member e checks. */
  ghost function Checked(w: World, e: Event): Name
    requires Wf(w) && e.Check? && Enabled(w, e)
  {
    w.members[w.flight.value.checked]
  }

  lemma CheckedInLog(w: World, e: Event)
    requires Wf(w) && e.Check? && Enabled(w, e)
    ensures var n := Checked(w, e); n in w.log && n in w.mon.states && n in w.flight.value.captured
  {
  }

  /** e finds the member it checks to be the instance that was probed. */
  ghost predicate Unchanged(w: World, e: Event)
    requires Wf(w) && e.Check? && Enabled(w, e)
  {
    CheckedInLog(w, e);
    w.flight.value.captured[Checked(w, e)] == Lookup(w.services, Checked(w, e))
  }

  /** e starts the state of n afresh. */
  ghost predicate Rebinds(w: World, e: Event, n: Name)
    requires Wf(w)
  {
    e.Check? && Enabled(w, e) && n == Checked(w, e) && Unchanged(w, e) && n in w.mon.states &&
    w.mon.states[n].service != Lookup(w.services, n)
  }

  ghost function CheckStep(w: World, e: Event): World
    requires Wf(w) && e.Check? && Enabled(w, e)
  {
    CheckedInLog(w, e);
    var n := Checked(w, e);
    var f := w.flight.value;
    if !Unchanged(w, e) then w.(flight := None)
    else
      w.(mon := w.mon.(states := RebindOne(w.mon.states, n, Lookup(w.services, n))),
         since := if Rebinds(w, e, n) then w.since[n := |w.log[n]|] else w.since,
         flight := Some(f.(checked := f.checked + 1,
                           running := f.running + if e.isRunning && n in w.services then {n} else {})))
  }

  lemma CheckStepWf(w: World, e: Event)
    requires Wf(w) && e.Check? && Enabled(w, e)
    ensures var w' := CheckStep(w, e); Wf(w') && w'.members == w.members && w'.mon.policy == w.mon.policy
  {
    CheckedInLog(w, e);
    var w' := CheckStep(w, e);
    if Unchanged(w, e) {
      var f := w.flight.value;
      var f' := w'.flight.value;
      forall i | 0 <= i < f'.checked ensures Current(w', f', w.members[i]) {
        if i < f.checked { assert Current(w, f, w.members[i]); }
      }
    }
  }

  lemma AvailableWithin(w: World)
    requires Wf(w) && w.flight.Some?
    ensures Within(Available(w), w.mon.states.Keys) && Within(Available(w), w.log.Keys)
  {
    FilterWithin(w.members, w.flight.value.running, w.log.Keys);
  }

  ghost function ApplyStep(w: World, e: Event): World
    requires Wf(w) && e.Apply? && Enabled(w, e)
  {
    AvailableWithin(w);
    w.(mon := ApplyRound(w.mon, w.flight.value.answers, Available(w), e.now),
       flight := None,
       log := map n | n in w.log :: if Commits(w, e) then w.log[n] + [SampleOf(w, e, n)] else w.log[n])
  }

  lemma ApplyStepWf(w: World, e: Event)
    requires Wf(w) && e.Apply? && Enabled(w, e)
    ensures var w' := ApplyStep(w, e); Wf(w') && w'.members == w.members && w'.mon.policy == w.mon.policy
  {
    hide ApplyRound, AllFailed, Filter;
    AvailableWithin(w);
    ApplyRoundFrame(w.mon, w.flight.value.answers, Available(w), e.now);
  }

  /** Everything but a commit. */
  ghost function OtherStep(w: World, e: Event): World
    requires Wf(w) && !e.Check? && !e.Apply? && Enabled(w, e)
  {
    match e
    case BeginRound => w.(flight := Some(LAUNCHED))
    case Capture(n) =>
      var f := w.flight.value;
      w.(flight := Some(f.(captured := f.captured[n := Lookup(w.services, n)])))
    case Answer(n, r) =>
      var f := w.flight.value;
      w.(flight := Some(f.(answers := f.answers[n := r])))
    case Abandon => w.(flight := None)
    case Register(n, i) => w.(services := w.services[n := i], used := w.used + {i})
    case Unregister(n) => w.(services := w.services - {n})
    case Ask(running, now) => w.(mon := EnsureCurrent(w.mon, Filter(w.members, running), now))
    case Cancel => w.(mon := w.mon.(cancelled := true))
  }

  lemma EnsureFrame(q: Monitor, available: seq<Name>, now: int)
    ensures var q' := EnsureCurrent(q, available, now);
            q'.states == q.states && q'.policy == q.policy && q'.cancelled == q.cancelled
  {
  }

  lemma OtherStepWf(w: World, e: Event)
    requires Wf(w) && !e.Check? && !e.Apply? && Enabled(w, e)
    ensures var w' := OtherStep(w, e); Wf(w') && w'.members == w.members && w'.mon.policy == w.mon.policy
  {
    hide EnsureCurrent, Filter;
    if e.Ask? { EnsureFrame(w.mon, Filter(w.members, e.running), e.now); }
    var w' := OtherStep(w, e);
    if w.flight.Some? && w'.flight.Some? {
      var f, f' := w.flight.value, w'.flight.value;
      forall i | 0 <= i < f'.checked ensures Current(w', f', w.members[i]) {
        assert Current(w, f, w.members[i]);
        assert w.members[i] in w.log;
      }
    }
  }

  ghost function Step(w: World, e: Event): (w': World)
    requires Wf(w)
    ensures Wf(w') && w'.members == w.members && w'.mon.policy == w.mon.policy
  {
    hide Wf, Enabled, CheckStep, ApplyStep, OtherStep;
    if !Enabled(w, e) then w
    else if e.Check? then CheckStepWf(w, e); CheckStep(w, e)
    else if e.Apply? then ApplyStepWf(w, e); ApplyStep(w, e)
    else OtherStepWf(w, e); OtherStep(w, e)
  }

  ghost function Run(w: World, evs: seq<Event>): (w': World)
    requires Wf(w)
    ensures Wf(w') && w'.members == w.members && w'.mon.policy == w.mon.policy
  {
    if evs == [] then w else Step(Run(w, evs[..|evs| - 1]), evs[|evs| - 1])
  }

  lemma {:induction false} RunConcat(w: World, a: seq<Event>, b: seq<Event>)
    requires Wf(w)
    ensures Run(w, a + b) == Run(Run(w, a), b)
  {
    hide Wf, Step;
    if b == [] {
      assert a + b == a;
    } else {
      RunConcat(w, a, b[..|b| - 1]);
      assert (a + b)[..|a + b| - 1] == a + b[..|b| - 1];
    }
  }

  // ---------------------------------------------------------------- state refines history

  /** A failed sample feeds the fault counter unless a common failure had working connectivity. */
  predicate CountedFailure(x: Sample) {
    x.result.status == Failed && !(x.common && x.result.connectivity == "ok")
  }

  /** The samples that enter the quality window: all but common failures. */
  function Scored(h: seq<Sample>): seq<bool> {
    if h == [] then []
    else Scored(h[..|h| - 1]) + (if h[|h| - 1].common then [] else [h[|h| - 1].result.status != Normal])
  }

  function FailureMarks(h: seq<Sample>): seq<bool> {
    seq(|h|, i requires 0 <= i < |h| => CountedFailure(h[i]))
  }

  function NormalMarks(h: seq<Sample>): seq<bool> {
    seq(|h|, i requires 0 <= i < |h| => h[i].result.status == Normal)
  }

  /** A member's incremental state against the samples it stands for. */
  ghost predicate Summarises(s: MemberState, h: seq<Sample>) {
    && s.window == LastN(WINDOW, Scored(h))
    && s.samples == |s.window|
    && s.badSamples == CountTrue(s.window)
    && s.failures == TrailingRun(FailureMarks(h))
    && s.normals == TrailingRun(NormalMarks(h))
    && Shows(s, h)
  }

  /** What is shown of a member is its last sample. */
  ghost predicate Shows(s: MemberState, h: seq<Sample>) {
    if h == [] then
      s.shown == Evaluating && (s.durationMs, s.err, s.connectivity, s.probedAt) == (0, "", "", 0)
    else
      var x := h[|h| - 1];
      && s.shown == (if x.common then CommonFailure else Probed(x.result.status))
      && (s.durationMs, s.err, s.connectivity) == (x.result.durationMs, x.result.err, x.result.connectivity)
      && s.probedAt == x.at
  }

  lemma SlideKeepsLast(scored: seq<bool>, bad: bool)
    ensures Slide(LastN(WINDOW, scored), bad) == LastN(WINDOW, scored + [bad])
  {
    if |scored| >= WINDOW {
      assert (LastN(WINDOW, scored) + [bad])[1..] == (scored + [bad])[|scored| + 1 - WINDOW..];
    }
  }

  lemma AbsorbSummarises(s: MemberState, h: seq<Sample>, r: ProbeResult, common: bool, now: int, instance: Option<Instance>)
    requires Summarises(s, h)
    ensures Summarises(Absorb(s, r, common, now), h + [Sample(instance, r, common, now)])
  {
    var x := Sample(instance, r, common, now);
    assert (h + [x])[..|h|] == h;
    assert FailureMarks(h + [x])[..|h|] == FailureMarks(h);
    assert NormalMarks(h + [x])[..|h|] == NormalMarks(h);
    SlideKeepsLast(Scored(h), r.status != Normal);
  }

  /** The history the member's present state covers. */
  ghost function Covered(w: World, n: Name): seq<Sample>
    requires Wf(w) && n in w.log
  {
    w.log[n][w.since[n]..]
  }

  /** Every covered sample was measured on the instance the state is bound to and, for a real
      instance, no earlier sample was; samples of the registered instance mean the state is on it. */
  ghost predicate Provenance(s: MemberState, log: seq<Sample>, since: nat, service: Option<Instance>, used: set<Instance>) {
    && (forall j :: since <= j < |log| ==> log[j].instance == s.service)
    && (s.service.Some? ==> s.service.value in used && forall j :: 0 <= j < since && j < |log| ==> log[j].instance != s.service)
    && (forall j :: 0 <= j < |log| && log[j].instance.Some? ==> log[j].instance.value in used)
    && (service.Some? && s.service != service ==> forall j :: 0 <= j < |log| ==> log[j].instance != service)
  }

  ghost predicate MemberInv(w: World, n: Name)
    requires Wf(w) && n in w.log
  {
    && Summarises(w.mon.states[n], Covered(w, n))
    && Provenance(w.mon.states[n], w.log[n], w.since[n], Lookup(w.services, n), w.used)
  }

  ghost predicate Inv(w: World)
    requires Wf(w)
  {
    && w.services.Values <= w.used
    && (w.flight.Some? ==> forall n :: n in w.flight.value.captured && w.flight.value.captured[n].Some? ==>
          w.flight.value.captured[n].value in w.used)
    && forall n :: n in w.log ==> MemberInv(w, n)
  }

  /** One more sample, on values. */
  lemma MemberAcrossApply(s: MemberState, log: seq<Sample>, since: nat, service: Option<Instance>, used: set<Instance>,
                          r: ProbeResult, common: bool, now: int)
    requires since <= |log| && Summarises(s, log[since..]) && Provenance(s, log, since, service, used)
    requires s.service == service
    ensures var log' := log + [Sample(service, r, common, now)];
            Summarises(Absorb(s, r, common, now), log'[since..]) &&
            Provenance(Absorb(s, r, common, now), log', since, service, used)
  {
    hide Summarises, Provenance, Absorb;
    var x := Sample(service, r, common, now);
    AbsorbSummarises(s, log[since..], r, common, now, service);
    assert (log + [x])[since..] == log[since..] + [x];
    SampleProvenance(s, log, since, service, used, r, common, now);
  }

  lemma StartsAfresh(s: MemberState, log: seq<Sample>, since: nat, service: Option<Instance>, used: set<Instance>)
    requires since <= |log| && Provenance(s, log, since, service, used) && s.service != service
    requires service.Some? ==> service.value in used
    ensures Summarises(FreshMember(service), log[|log|..]) && Provenance(FreshMember(service), log, |log|, service, used)
  {
  }

  lemma SampleProvenance(s: MemberState, log: seq<Sample>, since: nat, service: Option<Instance>, used: set<Instance>,
                         r: ProbeResult, common: bool, now: int)
    requires since <= |log| && Provenance(s, log, since, service, used) && s.service == service
    ensures var x := Sample(service, r, common, now);
            Provenance(Absorb(s, r, common, now), log + [x], since, service, used)
  {
  }

  /** A round that is applied has found every member to be the instance that was probed. */
  lemma CommitChecksAll(w: World, e: Event, n: Name)
    requires Wf(w) && e.Apply? && Enabled(w, e) && n in w.log
    ensures n in w.flight.value.answers && Current(w, w.flight.value, n)
  {
    assert n in w.members;
    var i :| 0 <= i < |w.members| && w.members[i] == n;
    assert Current(w, w.flight.value, w.members[i]);
  }

  /** Applying a round, member by member. */
  lemma ApplyEffect(w: World, e: Event, n: Name)
    requires Wf(w) && e.Apply? && Enabled(w, e) && n in w.log
    ensures var w' := Step(w, e);
            n in w'.log && n in w'.mon.states && w'.since == w.since &&
            if Commits(w, e)
            then n in w.flight.value.answers && w'.log[n] == w.log[n] + [SampleOf(w, e, n)] &&
                 w'.mon.states[n] == Absorb(w.mon.states[n], w.flight.value.answers[n], Common(w, e), e.now)
            else w'.log[n] == w.log[n] && w'.mon.states[n] == w.mon.states[n]
  {
    hide ApplyRound, AllFailed, Filter, Absorb;
    AvailableWithin(w);
    CommitChecksAll(w, e, n);
    ApplyRoundFrame(w.mon, w.flight.value.answers, Available(w), e.now);
  }

  /** A check, member by member. */
  lemma CheckEffect(w: World, e: Event, n: Name)
    requires Wf(w) && e.Check? && Enabled(w, e) && n in w.log
    ensures var w' := Step(w, e);
            n in w'.log && n in w'.mon.states && n in w'.since && w'.log == w.log &&
            w'.mon == w.mon.(states := w'.mon.states) &&
            w'.mon.states[n] == (if Rebinds(w, e, n) then FreshMember(Lookup(w.services, n)) else w.mon.states[n]) &&
            w'.since[n] == (if Rebinds(w, e, n) then |w.log[n]| else w.since[n])
  {
    CheckedInLog(w, e);
  }

  lemma ApplyKeepsMember(w: World, e: Event, n: Name)
    requires Wf(w) && Inv(w) && e.Apply? && Enabled(w, e) && n in w.log
    ensures n in Step(w, e).log && MemberInv(Step(w, e), n)
  {
    hide Summarises, Provenance, Absorb, Common, ApplyStep;
    assert MemberInv(w, n);
    ApplyEffect(w, e, n);
    CommitChecksAll(w, e, n);
    assert Step(w, e).services == w.services && Step(w, e).used == w.used by { ApplyRest(w, e); }
    if Commits(w, e) {
      MemberAcrossApply(w.mon.states[n], w.log[n], w.since[n], Lookup(w.services, n), w.used,
                        w.flight.value.answers[n], Common(w, e), e.now);
    }
  }

  lemma ApplyRest(w: World, e: Event)
    requires Wf(w) && e.Apply? && Enabled(w, e)
    ensures var w' := Step(w, e); w'.services == w.services && w'.used == w.used && w'.flight == None
  {
    hide ApplyRound;
  }

  lemma CheckKeepsMember(w: World, e: Event, n: Name)
    requires Wf(w) && Inv(w) && e.Check? && Enabled(w, e) && n in w.log
    ensures n in Step(w, e).log && MemberInv(Step(w, e), n)
  {
    hide Summarises, Provenance;
    assert MemberInv(w, n);
    CheckEffect(w, e, n);
    var svc := Lookup(w.services, n);
    if svc.Some? { assert svc.value in w.services.Values; }
    if Rebinds(w, e, n) {
      StartsAfresh(w.mon.states[n], w.log[n], w.since[n], svc, w.used);
    }
  }

  lemma ProvenanceRegistered(s: MemberState, log: seq<Sample>, since: nat, service: Option<Instance>, used: set<Instance>,
                             service': Option<Instance>, used': set<Instance>)
    requires Provenance(s, log, since, service, used) && used <= used'
    requires service' == service || service'.None? || service'.value !in used
    ensures Provenance(s, log, since, service', used')
  {
  }

  /** Events outside a commit leave states and history alone. */
  lemma QuietStep(w: World, e: Event)
    requires Wf(w) && (!(e.Check? || e.Apply?) || !Enabled(w, e))
    ensures var w' := Step(w, e);
            w'.mon.states == w.mon.states && w'.log == w.log && w'.since == w.since
  {
  }

  /** Any step, seen from one member: a sample when a round counts, a fresh start when the member is found
      rebuilt, and nothing else. */
  lemma MemberEffect(w: World, e: Event, n: Name)
    requires Wf(w) && n in w.log
    ensures var w' := Step(w, e);
            n in w'.log && n in w'.mon.states && n in w.mon.states &&
            (Commits(w, e) ==> e.Apply? && w.flight.Some? && n in w.flight.value.answers) &&
            w'.mon.states[n] ==
              if Commits(w, e) then Absorb(w.mon.states[n], w.flight.value.answers[n], Common(w, e), e.now)
              else if Rebinds(w, e, n) then FreshMember(Lookup(w.services, n))
              else w.mon.states[n]
  {
    hide Absorb, Common, ApplyStep, CheckStep, OtherStep;
    if e.Apply? && Enabled(w, e) {
      ApplyEffect(w, e, n);
    } else if e.Check? && Enabled(w, e) {
      CheckEffect(w, e, n);
    } else {
      QuietStep(w, e);
    }
  }

  lemma QuietKeepsInv(w: World, e: Event)
    requires Wf(w) && Inv(w) && (!(e.Check? || e.Apply?) || !Enabled(w, e))
    ensures Inv(Step(w, e))
  {
    hide Summarises, Provenance, EnsureCurrent, CheckStep, ApplyStep, Filter;
    var w' := Step(w, e);
    QuietStep(w, e);
    forall n | n in w'.log ensures MemberInv(w', n) {
      assert MemberInv(w, n);
      ProvenanceRegistered(w.mon.states[n], w.log[n], w.since[n], Lookup(w.services, n), w.used,
                           Lookup(w'.services, n), w'.used);
    }
    assert forall i :: i in w'.services.Values ==> i in w.services.Values || (e.Register? && i == e.instance);
    if w'.flight.Some? && e.Capture? && Enabled(w, e) && e.name in w.services {
      assert w.services[e.name] in w.services.Values;
    }
  }

  lemma StepKeepsInv(w: World, e: Event)
    requires Wf(w) && Inv(w)
    ensures Inv(Step(w, e))
  {
    if e.Apply? && Enabled(w, e) {
      hide ApplyStep;
      ApplyRest(w, e);
      forall n | n in Step(w, e).log ensures MemberInv(Step(w, e), n) { ApplyKeepsMember(w, e, n); }
    } else if e.Check? && Enabled(w, e) {
      forall n | n in Step(w, e).log ensures MemberInv(Step(w, e), n) { CheckKeepsMember(w, e, n); }
    } else {
      QuietKeepsInv(w, e);
    }
  }

  lemma {:induction false} RunKeepsInv(w: World, evs: seq<Event>)
    requires Wf(w) && Inv(w)
    ensures Inv(Run(w, evs))
  {
    if evs != [] {
      RunKeepsInv(w, evs[..|evs| - 1]);
      StepKeepsInv(Run(w, evs[..|evs| - 1]), evs[|evs| - 1]);
    }
  }
}
