/** What route selection guarantees over every run. */
module RouteTheorems {
  import opened Prelude
  import opened RouteQuality
  import opened RouteLegality
  import opened RouteRuns

  // ---------------------------------------------------------------- state refines history

  /** The samples measured on one instance, in order. */
  function OfInstance(log: seq<Sample>, instance: Option<Instance>): seq<Sample> {
    if log == [] then []
    else OfInstance(log[..|log| - 1], instance) + (if log[|log| - 1].instance == instance then [log[|log| - 1]] else [])
  }

  lemma {:induction false} OfInstanceIsSuffix(log: seq<Sample>, since: nat, instance: Option<Instance>)
    requires since <= |log|
    requires forall j :: since <= j < |log| ==> log[j].instance == instance
    requires forall j :: 0 <= j < since ==> log[j].instance != instance
    ensures OfInstance(log, instance) == log[since..]
  {
    if log != [] {
      var k := |log| - 1;
      var init, last := log[..k], log[k];
      assert OfInstance(log, instance) == OfInstance(init, instance) + if last.instance == instance then [last] else [];
      assert forall j :: 0 <= j < k ==> init[j] == log[j];
      hide OfInstance;
      if since == |log| {
        OfInstanceIsSuffix(init, k, instance);
        assert init[k..] == [] && log[since..] == [];
      } else {
        OfInstanceIsSuffix(init, since, instance);
        assert log[since..] == init[since..] + [last];
      }
    }
  }

  lemma ReachableInv(members: seq<Name>, policy: Policy, services: map<Name, Instance>, evs: seq<Event>)
    requires ValidMembers(members)
    ensures Inv(Run(Start(members, policy, services), evs))
  {
    RunKeepsInv(Start(members, policy, services), evs);
  }

  /** In every reachable state a member bound to an instance holds exactly the summary of all samples
      ever committed for that member on that instance. */
  lemma StateRefinesHistory(members: seq<Name>, policy: Policy, services: map<Name, Instance>, evs: seq<Event>, n: Name)
    requires ValidMembers(members) && n in members
    ensures var w := Run(Start(members, policy, services), evs);
            n in w.log &&
            Summarises(w.mon.states[n], Covered(w, n)) &&
            (forall x :: x in Covered(w, n) ==> x.instance == w.mon.states[n].service) &&
            (w.mon.states[n].service.Some? ==> Covered(w, n) == OfInstance(w.log[n], w.mon.states[n].service))
  {
    var w := Run(Start(members, policy, services), evs);
    ReachableInv(members, policy, services, evs);
    var i :| 0 <= i < |members| && members[i] == n;
    assert w.members[i] in w.log;
    assert MemberInv(w, n);
    hide Summarises;
    if w.mon.states[n].service.Some? {
      OfInstanceIsSuffix(w.log[n], w.since[n], w.mon.states[n].service);
    }
  }

  /** The counters in terms of samples: three counted failures at the end, two normal rounds at the
      end, and never both. */
  lemma CountersReadHistory(s: MemberState, h: seq<Sample>)
    requires Summarises(s, h)
    ensures s.failures >= 3 <==> |h| >= 3 && forall j :: |h| - 3 <= j < |h| ==> CountedFailure(h[j])
    ensures s.normals >= 2 <==> |h| >= 2 && forall j :: |h| - 2 <= j < |h| ==> h[j].result.status == Normal
    ensures s.normals > 0 ==> s.failures == 0
    ensures s.samples == 20 <==> |Scored(h)| >= 20
  {
    TrailingRunAtLeast(FailureMarks(h), 3);
    TrailingRunAtLeast(NormalMarks(h), 2);
    TrailingRunAtLeast(NormalMarks(h), 1);
    TrailingRunAtLeast(FailureMarks(h), 1);
    assert forall j :: 0 <= j < |h| ==> FailureMarks(h)[j] == CountedFailure(h[j]);
    assert forall j :: 0 <= j < |h| ==> NormalMarks(h)[j] == (h[j].result.status == Normal);
    if s.normals > 0 { assert NormalMarks(h)[|h| - 1] && !FailureMarks(h)[|h| - 1]; }
  }

  // ---------------------------------------------------------------- switch legality

  /** A step that looks at the running members finds the preferred one among them. */
  ghost predicate SeesCurrent(w: World, e: Event) {
    && (e.Ask? ==> w.mon.current in Filter(w.members, e.running))
    && (e.Apply? && w.flight.Some? ==> w.mon.current in Available(w))
  }

  /** In every run, a step, of whatever kind, takes the preference away from a member that is still
      available only by applying a round that counts and is no common failure, and exactly when the
      switch is justified by the states after it. */
  lemma RunSwitchLegality(w: World, e: Event, y: Name)
    requires Wf(w) && SeesCurrent(w, e) && y != w.mon.current
    ensures var w' := Step(w, e);
            w'.mon.current == y <==>
              Commits(w, e) && !Common(w, e) &&
              w.mon.current in w'.mon.states && Within(Available(w), w'.mon.states.Keys) &&
              Justified(w.mon, w'.mon.states, Available(w), e.now, y)
  {
    hide ApplyRound, Justified, AllFailed, AbsorbAll, Filter;
    if Commits(w, e) {
      CommitIsRound(w, e);
      SwitchLegality(w.mon, w.flight.value.answers, Available(w), e.now, y);
    } else {
      OnlyCommitsSwitch(w, e);
    }
  }

  lemma OnlyCommitsSwitch(w: World, e: Event)
    requires Wf(w) && SeesCurrent(w, e) && !Commits(w, e)
    ensures Step(w, e).mon.current == w.mon.current
  {
    if e.Apply? && Enabled(w, e) { AvailableWithin(w); }
  }

  /** Applying a round that counts is one round of the specification. */
  lemma CommitIsRound(w: World, e: Event)
    requires Wf(w) && Commits(w, e)
    ensures Within(Available(w), w.mon.states.Keys) && !w.mon.cancelled
    ensures Step(w, e).mon == ApplyRound(w.mon, w.flight.value.answers, Available(w), e.now)
    ensures Step(w, e).mon.states == AbsorbAll(w.mon.states, w.flight.value.answers, Common(w, e), e.now)
    ensures Step(w, e).mon.states.Keys == w.mon.states.Keys
  {
    hide ApplyRound, AllFailed, Filter, Absorb;
    AvailableWithin(w);
    ApplyRoundFrame(w.mon, w.flight.value.answers, Available(w), e.now);
  }

  /** A switch away from an available member, told in samples. */
  ghost predicate JustifiedBySamples(hx: seq<Sample>, hy: seq<Sample>, cooled: bool, policy: Policy) {
    var twoNormal := |hy| >= 2 && forall j :: |hy| - 2 <= j < |hy| ==> hy[j].result.status == Normal;
    || (twoNormal && |hx| >= 3 && forall j :: |hx| - 3 <= j < |hx| ==> CountedFailure(hx[j]))
    || (cooled && policy == Priority && twoNormal)
    || (&& cooled && policy == Quality && |Scored(hx)| >= 20 && |Scored(hy)| >= 20
        && CountTrue(LastN(20, Scored(hx))) - CountTrue(LastN(20, Scored(hy))) >= 3
        && (hy != [] ==> !CountedFailure(hy[|hy| - 1])))
  }

  lemma JustifiedReadsSamples(q: Monitor, s: map<Name, MemberState>, available: seq<Name>, now: int, y: Name,
                              hx: seq<Sample>, hy: seq<Sample>)
    requires q.current in s && y in s && Within(available, s.Keys) && Justified(q, s, available, now, y)
    requires Summarises(s[q.current], hx) && Summarises(s[y], hy)
    ensures JustifiedBySamples(hx, hy, now - q.lastSwitch >= 60_000_000_000, q.policy)
  {
    CountersReadHistory(s[q.current], hx);
    CountersReadHistory(s[y], hy);
    if hy != [] { assert FailureMarks(hy)[|hy| - 1] == CountedFailure(hy[|hy| - 1]); }
  }

  /** In every run, a commit that leaves an available x for y is backed by what was measured: three
      counted failures of x and two normal rounds of y last, or a cooled-down switch to a twice normal
      or at least three better member. */
  lemma SwitchReadsSamples(w: World, e: Event)
    requires Wf(w) && Inv(w) && SeesCurrent(w, e) && Step(w, e).mon.current != w.mon.current
    ensures var w', x, y := Step(w, e), w.mon.current, Step(w, e).mon.current;
            e.Apply? && x in w'.log && y in w'.log &&
            JustifiedBySamples(Covered(w', x), Covered(w', y), e.now - w.mon.lastSwitch >= 60_000_000_000, w.mon.policy)
  {
    hide Justified, Summarises, Provenance, ApplyStep, Filter, ApplyRound, AllFailed, AbsorbAll;
    var w', x, y := Step(w, e), w.mon.current, Step(w, e).mon.current;
    StepKeepsInv(w, e);
    RunSwitchLegality(w, e, y);
    FilterMembers(w.members, w.flight.value.running);
    JustifiedTargets(w.mon, w'.mon.states, Available(w), e.now, y);
    assert x in w.members && y in w.members;
    assert x in w'.log && y in w'.log;
    assert MemberInv(w', x) && MemberInv(w', y);
    JustifiedReadsSamples(w.mon, w'.mon.states, Available(w), e.now, y, Covered(w', x), Covered(w', y));
  }

  lemma JustifiedTargets(q: Monitor, s: map<Name, MemberState>, available: seq<Name>, now: int, y: Name)
    requires q.current in s && Within(available, s.Keys) && Justified(q, s, available, now, y)
    ensures y in available
  {
  }

  // ---------------------------------------------------------------- common failures

  lemma WindowStep(s: MemberState, r: ProbeResult, common: bool, now: int)
    requires |s.window| <= 20
    ensures var s' := Absorb(s, r, common, now);
            if common then s'.window == s.window && s'.shown == CommonFailure
            else s'.window == LastN(20, s.window + [r.status != Normal]) && s'.shown == Probed(r.status)
  {
  }

  lemma WindowSize(w: World, n: Name)
    requires Wf(w) && Inv(w) && n in w.log
    ensures |w.mon.states[n].window| <= 20
  {
    assert MemberInv(w, n);
    hide Provenance;
    LastNIsEnd(20, Scored(Covered(w, n)));
  }

  /** A round in which at least two members are available and all of them failed leaves every window as it
      is; any other round enters every member's window, as good exactly when it was measured normal. */
  lemma RoundEntersWindows(w: World, e: Event, n: Name)
    requires Wf(w) && Inv(w) && Commits(w, e) && n in w.log
    ensures var s, s', r := w.mon.states[n], Step(w, e).mon.states[n], w.flight.value.answers[n];
            if |Available(w)| >= 2 &&
               forall a :: a in Available(w) ==>
                 a in w.flight.value.answers && w.flight.value.answers[a].status == Failed
            then s'.window == s.window && s'.shown == CommonFailure
            else s'.window == LastN(20, s.window + [r.status != Normal]) && s'.shown == Probed(r.status)
  {
    WindowSize(w, n);
    AllFailedMeaning(w.flight.value.answers, Available(w));
    MemberEffect(w, e, n);
    hide Absorb, AllFailed, Inv, Step, Filter, LastN;
    WindowStep(w.mon.states[n], w.flight.value.answers[n], Common(w, e), e.now);
  }

  lemma CountsStep(s: MemberState, r: ProbeResult, common: bool, now: int)
    ensures var s' := Absorb(s, r, common, now);
            && s'.failures == (if r.status == Failed && !(common && r.connectivity == "ok") then s.failures + 1 else 0)
            && s'.normals == (if r.status == Normal then s.normals + 1 else 0)
            && (s'.durationMs, s'.err, s'.connectivity, s'.probedAt) == (r.durationMs, r.err, r.connectivity, now)
            && s'.service == s.service
  {
  }

  /** The counters after any round that counts: a failure adds to the failures, unless all failed and this
      member's connectivity was fine; anything else ends them. Only a normal result adds to the normals. */
  lemma RoundCounts(w: World, e: Event, n: Name)
    requires Wf(w) && Inv(w) && Commits(w, e) && n in w.log
    ensures var s, s', r := w.mon.states[n], Step(w, e).mon.states[n], w.flight.value.answers[n];
            var common := |Available(w)| >= 2 &&
                          forall a :: a in Available(w) ==>
                            a in w.flight.value.answers && w.flight.value.answers[a].status == Failed;
            && s'.failures == (if r.status == Failed && !(common && r.connectivity == "ok") then s.failures + 1 else 0)
            && s'.normals == (if r.status == Normal then s.normals + 1 else 0)
            && (s'.durationMs, s'.err, s'.connectivity, s'.probedAt) == (r.durationMs, r.err, r.connectivity, e.now)
            && s'.service == s.service
  {
    AllFailedMeaning(w.flight.value.answers, Available(w));
    MemberEffect(w, e, n);
    hide Absorb, AllFailed, Inv, Step, Filter, LastN;
    CountsStep(w.mon.states[n], w.flight.value.answers[n], Common(w, e), e.now);
  }

  // ---------------------------------------------------------------- who can be preferred

  lemma RoundPrefers(q: Monitor, results: map<Name, ProbeResult>, available: seq<Name>, now: int)
    requires Within(available, q.states.Keys) && !q.cancelled
    ensures var y := ApplyRound(q, results, available, now).current;
            if available == [] then y == "" else y in available
  {
    var s := AbsorbAll(q.states, results, AllFailed(results, available), now);
    var mid := EnsureCurrent(q.(states := s), available, now);
    PreferenceRepaired(q.(states := s), available, now);
    var y := ApplyRound(q, results, available, now).current;
    if available != [] && y != mid.current {
      hide Justified, EnsureCurrent, AbsorbAll, AllFailed;
      PolicyLegality(mid, available, now, y);
      JustifiedTargets(mid, s, available, now, y);
    }
  }

  lemma PreferenceRepaired(q: Monitor, available: seq<Name>, now: int)
    ensures var q' := EnsureCurrent(q, available, now);
            (if available == [] then q'.current == "" else q'.current in available) &&
            q'.states == q.states && q'.cancelled == q.cancelled && q'.policy == q.policy
  {
    FirstInSet(available, Reliable(q.states));
  }

  /** After a round that counts, and after asking, the preferred member is one of those seen running, as long
      as there are any, and nobody otherwise. */
  lemma PreferredIsRunning(w: World, e: Event)
    requires Wf(w) && (Commits(w, e) || e.Ask?)
    ensures var y, running := Step(w, e).mon.current, if e.Ask? then e.running else w.flight.value.running;
            if exists n :: n in w.members && n in running then y in w.members && y in running else y == ""
  {
    var running := if e.Ask? then e.running else w.flight.value.running;
    var available := Filter(w.members, running);
    FilterMembers(w.members, running);
    assert available != [] ==> available[0] in available;
    PreferredIn(w, e, available);
    hide *;
    assert (exists n :: n in w.members && n in running) <==> available != [];
  }

  lemma PreferredIn(w: World, e: Event, available: seq<Name>)
    requires Wf(w) && (Commits(w, e) || e.Ask?)
    requires available == Filter(w.members, if e.Ask? then e.running else w.flight.value.running)
    ensures var y := Step(w, e).mon.current; if available == [] then y == "" else y in available
  {
    hide ApplyRound, AllFailed, AbsorbAll, EnsureCurrent, Filter, Within, Distinct;
    if e.Ask? {
      PreferenceRepaired(w.mon, available, e.now);
    } else {
      CommitIsRound(w, e);
      RoundPrefers(w.mon, w.flight.value.answers, available, e.now);
    }
  }

  /** One check of a commit: the round goes on exactly when the member still is the instance that was probed,
      and a member counts as running exactly when it is said to be and is registered. Its state starts afresh
      exactly when it was bound to another instance. */
  lemma CheckMeaning(w: World, e: Event)
    requires Wf(w) && e.Check? && Enabled(w, e)
    ensures var f, n, w' := w.flight.value, w.members[w.flight.value.checked], Step(w, e);
            && n in f.captured && n in w.mon.states
            && w'.services == w.services && w'.log == w.log
            && if f.captured[n] != Lookup(w.services, n) then w'.flight == None && w'.mon == w.mon
               else
                 && w'.flight.Some? && w'.flight.value.checked == f.checked + 1
                 && w'.flight.value.answers == f.answers && w'.flight.value.captured == f.captured
                 && (forall m :: m in w'.flight.value.running <==>
                       m in f.running || (m == n && e.isRunning && n in w.services))
                 && w'.mon.states[n].service == Lookup(w.services, n)
                 && (w'.mon.states[n] == w.mon.states[n] <==> w.mon.states[n].service == Lookup(w.services, n))
                 && (forall m :: m != n && m in w.mon.states ==> m in w'.mon.states && w'.mon.states[m] == w.mon.states[m])
                 && (w'.mon.current, w'.mon.lastSwitch, w'.mon.switches) == (w.mon.current, w.mon.lastSwitch, w.mon.switches)
  {
    CheckedInLog(w, e);
  }

  /** In such a round nobody is left for another member while still available, whatever the counts. */
  lemma CommonFailureKeepsPreference(w: World, e: Event)
    requires Wf(w) && Commits(w, e) && w.mon.current in Available(w) && |Available(w)| >= 2
    requires forall a :: a in Available(w) ==>
               a in w.flight.value.answers && w.flight.value.answers[a].status == Failed
    ensures Step(w, e).mon.current == w.mon.current
  {
    AllFailedMeaning(w.flight.value.answers, Available(w));
    if Step(w, e).mon.current != w.mon.current { RunSwitchLegality(w, e, Step(w, e).mon.current); }
  }
}
