/** Dwell, failback, hysteresis and the switch history over whole runs. */
module RouteTiming {
  import opened Prelude
  import opened RouteQuality
  import opened RouteLegality
  import opened RouteRuns
  import opened RouteTheorems

  /** Committed rounds of a run. */
  ghost function Rounds(w: World, evs: seq<Event>): nat
    requires Wf(w)
  {
    if evs == [] then 0
    else Rounds(w, evs[..|evs| - 1]) + (if Commits(Run(w, evs[..|evs| - 1]), evs[|evs| - 1]) then 1 else 0)
  }

  // ---------------------------------------------------------------- the switch history

  /** Each switch starts where the previous one ended, none is a self-loop, the first starts from
      nothing, and the last one ends at the current member. */
  ghost predicate Chained(sw: seq<SwitchEvent>, current: Name) {
    && (forall k :: 0 <= k < |sw| ==> sw[k].from != sw[k].to && sw[k].from == if k == 0 then "" else sw[k - 1].to)
    && current == if sw == [] then "" else sw[|sw| - 1].to
  }

  /** How one operation at time now may change the switch bookkeeping. */
  ghost predicate Extends(q: Monitor, q': Monitor, now: int) {
    && |q.switches| <= |q'.switches| && q'.switches[..|q.switches|] == q.switches
    && (if |q.switches| == |q'.switches| then q'.current == q.current && q'.lastSwitch == q.lastSwitch
        else q'.lastSwitch == now)
    && (Chained(q.switches, q.current) ==> Chained(q'.switches, q'.current))
  }

  lemma ChooseExtends(q: Monitor, name: Name, reason: Reason, now: int)
    ensures Extends(q, Choose(q, name, reason, now), now)
  {
    if name == q.current {
      SameExtends(q, q, now);
    } else {
      var q' := Choose(q, name, reason, now);
      var n := |q.switches|;
      assert q'.switches == q.switches + [SwitchEvent(q.current, name, reason)];
      assert q'.switches[..n] == q.switches && q'.switches[n] == SwitchEvent(q.current, name, reason);
      if Chained(q.switches, q.current) {
        assert forall k :: 0 <= k < n ==> q'.switches[k] == q.switches[k];
        assert Chained(q'.switches, q'.current);
      }
    }
  }

  lemma SameExtends(q: Monitor, q': Monitor, now: int)
    requires q.switches == q'.switches && q.current == q'.current && q.lastSwitch == q'.lastSwitch
    ensures Extends(q, q', now)
  {
    assert q.switches[..|q.switches|] == q.switches;
  }

  lemma ExtendsTransitive(a: Monitor, b: Monitor, c: Monitor, now: int)
    requires Extends(a, b, now) && Extends(b, c, now)
    ensures Extends(a, c, now)
  {
    assert c.switches[..|a.switches|] == c.switches[..|b.switches|][..|a.switches|];
  }

  lemma EnsureExtends(q: Monitor, available: seq<Name>, now: int)
    ensures Extends(q, EnsureCurrent(q, available, now), now)
  {
    hide Choose, Extends, First, Reliable;
    SameExtends(q, q, now);
    ChooseExtends(q, "", NoneRunning, now);
    if available != [] {
      ChooseExtends(q, available[0], ByOrder, now);
      var reliable := First(available, Reliable(q.states));
      if reliable.Some? { ChooseExtends(q, reliable.value, SkipToReliable, now); }
    }
  }

  ghost predicate PolicyReason(r: Reason) {
    r.Fault? || r.Recovery? || r.BetterQuality?
  }

  /** What a quality switch from x to y requires of the states. */
  ghost predicate QualityGap(s: map<Name, MemberState>, x: Name, y: Name) {
    x in s && y in s && s[x].samples >= WINDOW && Eligible(s[y]) && s[x].badSamples - s[y].badSamples >= 3
  }

  /** The policies either keep the monitor or choose an available, healthy member for a policy reason. */
  lemma PolicyIsChoice(q: Monitor, available: seq<Name>, now: int) returns (name: Name, reason: Reason)
    requires q.current in q.states && Within(available, q.states.Keys)
    ensures var q' := if q.policy == Priority then ApplyPriority(q, available, now) else ApplyQuality(q, available, now);
            q' == q || q' == Choose(q, name, reason, now)
    ensures name == q.current ||
            (PolicyReason(reason) && name in available && name in q.states &&
             (q.states[name].normals >= 2 || q.states[name].failures == 0))
    ensures var q' := if q.policy == Priority then ApplyPriority(q, available, now) else ApplyQuality(q, available, now);
            q' == q || (reason.BetterQuality? ==> QualityGap(q.states, q.current, name))
  {
    hide Choose;
    name, reason := q.current, NoneRunning;
    var s := q.states;
    FirstInSet(available, Reliable(s) - {q.current});
    var fault := FaultTarget(q, available);
    if fault.Some? {
      name, reason := fault.value, Fault(s[q.current].failures, s[fault.value].normals);
    } else if q.policy == Priority {
      BeforeIsPrefix(available, q.current);
      FirstInSet(Before(available, q.current), Reliable(s));
      var back := First(Before(available, q.current), Reliable(s));
      if back.Some? { name, reason := back.value, Recovery(s[back.value].normals); }
    } else {
      BestMeaning(available, s, q.current);
      var best := Best(available, s, q.current);
      if best != q.current { name, reason := best, BetterQuality(s[q.current].badSamples, s[best].badSamples); }
    }
  }

  /** A committed round: absorb, make sure there is a current member, then perhaps one policy choice. */
  lemma RoundIsChoices(q: Monitor, results: map<Name, ProbeResult>, available: seq<Name>, now: int)
    returns (mid: Monitor, name: Name, reason: Reason)
    requires Within(available, q.states.Keys) && !q.cancelled
    ensures mid == EnsureCurrent(q.(states := AbsorbAll(q.states, results, AllFailed(results, available), now)), available, now)
    ensures var q' := ApplyRound(q, results, available, now); q' == mid || q' == Choose(mid, name, reason, now)
    ensures name == mid.current ||
            (PolicyReason(reason) && name in available && name in mid.states &&
             (mid.states[name].normals >= 2 || mid.states[name].failures == 0))
    ensures ApplyRound(q, results, available, now) == mid ||
            (reason.BetterQuality? ==> QualityGap(mid.states, mid.current, name))
  {
    mid := EnsureCurrent(q.(states := AbsorbAll(q.states, results, AllFailed(results, available), now)), available, now);
    name, reason := mid.current, NoneRunning;
    hide Choose, AllFailed, AbsorbAll, ApplyPriority, ApplyQuality;
    if mid.current in mid.states && !AllFailed(results, available) {
      name, reason := PolicyIsChoice(mid, available, now);
    }
  }

  lemma RoundExtends(q: Monitor, results: map<Name, ProbeResult>, available: seq<Name>, now: int)
    requires Within(available, q.states.Keys)
    ensures Extends(q, ApplyRound(q, results, available, now), now)
  {
    if q.cancelled {
      SameExtends(q, q, now);
    } else {
      hide Choose, EnsureCurrent, ApplyRound, AllFailed, AbsorbAll;
      var mid, name, reason := RoundIsChoices(q, results, available, now);
      var absorbed := q.(states := AbsorbAll(q.states, results, AllFailed(results, available), now));
      EnsureExtends(absorbed, available, now);
      ChooseExtends(mid, name, reason, now);
      SameExtends(mid, mid, now);
      SameExtends(q, absorbed, now);
      ExtendsTransitive(q, absorbed, mid, now);
      ExtendsTransitive(q, mid, ApplyRound(q, results, available, now), now);
    }
  }

  ghost function TimeOf(e: Event): int {
    if e.Apply? || e.Ask? then e.now else 0
  }

  lemma StepExtends(w: World, e: Event)
    requires Wf(w)
    ensures Extends(w.mon, Step(w, e).mon, TimeOf(e))
  {
    hide ApplyRound, EnsureCurrent, Chained, Extends, AllFailed, AbsorbAll, Filter;
    if e.Apply? && Enabled(w, e) {
      AvailableWithin(w);
      RoundExtends(w.mon, w.flight.value.answers, Available(w), e.now);
    } else if e.Ask? {
      EnsureExtends(w.mon, Filter(w.members, e.running), e.now);
    } else {
      SameExtends(w.mon, Step(w, e).mon, TimeOf(e));
    }
  }

  /** The full switch history of every run is a chain; the log shows its last 20 events, newest first
      (RouteMonitor.RouteSwitchLog). */
  lemma {:induction false} SwitchHistoryIsChain(members: seq<Name>, policy: Policy, services: map<Name, Instance>, evs: seq<Event>)
    requires ValidMembers(members)
    ensures var q := Run(Start(members, policy, services), evs).mon; Chained(q.switches, q.current)
  {
    if evs != [] {
      SwitchHistoryIsChain(members, policy, services, evs[..|evs| - 1]);
      StepExtends(Run(Start(members, policy, services), evs[..|evs| - 1]), evs[|evs| - 1]);
    }
  }

  /** Switches only accumulate; with none added, current member and switch time stand still. */
  lemma {:induction false} RunExtends(w: World, evs: seq<Event>)
    requires Wf(w)
    ensures var q, q' := w.mon, Run(w, evs).mon;
            |q.switches| <= |q'.switches| && q'.switches[..|q.switches|] == q.switches &&
            (|q.switches| == |q'.switches| ==> q'.current == q.current && q'.lastSwitch == q.lastSwitch)
  {
    if evs != [] {
      var v := Run(w, evs[..|evs| - 1]);
      RunExtends(w, evs[..|evs| - 1]);
      StepExtends(v, evs[|evs| - 1]);
      assert Run(w, evs).mon.switches[..|w.mon.switches|]
          == Run(w, evs).mon.switches[..|v.mon.switches|][..|w.mon.switches|];
    }
  }

  // ---------------------------------------------------------------- minimum dwell

  lemma AbsorbFailures(s: MemberState, r: ProbeResult, allFailed: bool, now: int)
    ensures Absorb(s, r, allFailed, now).failures <= s.failures + 1
  {
  }

  lemma FailureStep(w: World, e: Event, n: Name)
    requires Wf(w) && n in w.log
    ensures n in Step(w, e).log
    ensures Step(w, e).mon.states[n].failures <= w.mon.states[n].failures + if Commits(w, e) then 1 else 0
  {
    hide Absorb, Common, Step, Commits, Rebinds;
    MemberEffect(w, e, n);
    if Commits(w, e) {
      AbsorbFailures(w.mon.states[n], w.flight.value.answers[n], Common(w, e), e.now);
    }
  }

  /** Consecutive failures grow by at most one per committed round. */
  lemma {:induction false} FailuresGrowSlowly(w: World, evs: seq<Event>, n: Name)
    requires Wf(w) && n in w.log
    ensures n in Run(w, evs).log && Run(w, evs).mon.states[n].failures <= w.mon.states[n].failures + Rounds(w, evs)
  {
    if evs != [] {
      FailuresGrowSlowly(w, evs[..|evs| - 1], n);
      FailureStep(Run(w, evs[..|evs| - 1]), evs[|evs| - 1], n);
    }
  }

  /** The step makes a fault, recovery or quality switch. */
  ghost predicate PolicySwitch(w: World, e: Event)
    requires Wf(w)
  {
    var sw := Step(w, e).mon.switches;
    |sw| > |w.mon.switches| && PolicyReason(sw[|sw| - 1].reason)
  }

  lemma RoundLandsOnHealthy(q: Monitor, results: map<Name, ProbeResult>, available: seq<Name>, now: int)
    requires Within(available, q.states.Keys) && !q.cancelled
    ensures var q' := ApplyRound(q, results, available, now);
            |q'.switches| > |q.switches| && PolicyReason(q'.switches[|q'.switches| - 1].reason) ==>
              q'.current in available && q'.current in q'.states &&
              (q'.states[q'.current].normals >= 2 || q'.states[q'.current].failures == 0)
  {
    hide ApplyRound, AllFailed, AbsorbAll;
    var mid, name, reason := RoundIsChoices(q, results, available, now);
  }

  /** Every policy switch of every run lands on a member without a current failure. */
  lemma PolicySwitchLandsOnHealthy(w: World, e: Event)
    requires Wf(w) && Inv(w) && PolicySwitch(w, e)
    ensures var w' := Step(w, e);
            Commits(w, e) && w'.mon.current in w'.log && w'.mon.states[w'.mon.current].failures == 0
  {
    hide ApplyRound, Filter, AllFailed, Inv, Summarises, Provenance, ApplyStep, Commits;
    var w' := Step(w, e);
    StepKeepsInv(w, e);
    var y := w'.mon.current;
    PolicySwitchCommits(w, e);
    CommitIsRound(w, e);
    RoundLandsOnHealthy(w.mon, w.flight.value.answers, Available(w), e.now);
    AvailableWithin(w);
    ApplyEffect(w, e, y);
    InvAt(w', y);
    CountersReadHistory(w'.mon.states[y], Covered(w', y));
  }

  lemma InvAt(w: World, n: Name)
    requires Wf(w) && Inv(w) && n in w.log
    ensures MemberInv(w, n)
  {
  }

  /** Only a commit that counts makes a policy switch. */
  lemma PolicySwitchCommits(w: World, e: Event)
    requires Wf(w) && PolicySwitch(w, e)
    ensures Commits(w, e) && e.Apply? && Enabled(w, e) && !w.mon.cancelled
  {
    hide Filter, AllFailed;
    if e.Apply? && Enabled(w, e) { AvailableWithin(w); }
  }

  lemma LandingTime(w: World, e: Event)
    requires Wf(w) && PolicySwitch(w, e)
    ensures e.Apply? && Step(w, e).mon.lastSwitch == e.now
  {
    PolicySwitchCommits(w, e);
    StepExtends(w, e);
  }

  /** Minimum dwell. After a policy switch at e0 and no other switch during evs, a switch at e away from
      the still available member is a fault switch that closes at least the third committed round
      since, or else happens at least 60 seconds later. */
  lemma MinimumDwell(w: World, e0: Event, evs: seq<Event>, e: Event)
    requires Wf(w) && Inv(w) && PolicySwitch(w, e0)
    requires var w1 := Step(w, e0);
             var v := Run(w1, evs);
             |v.mon.switches| == |w1.mon.switches| && SeesCurrent(v, e) && Step(v, e).mon.current != v.mon.current
    ensures var w1 := Step(w, e0);
            var v := Run(w1, evs);
            var v' := Step(v, e);
            e0.Apply? && Commits(v, e) && v.mon.current in v'.mon.states &&
            if FaultTo(v'.mon.states, Available(v), v.mon.current, v'.mon.current)
            then Rounds(w1, evs + [e]) >= 3
            else e.now - e0.now >= 60_000_000_000
  {
    hide Inv, ApplyRound, Extends, Summarises, Provenance, ApplyStep, CheckStep, OtherStep, Filter, AllFailed, Common;
    var w1 := Step(w, e0);
    var v := Run(w1, evs);
    PolicySwitchLandsOnHealthy(w, e0);
    LandingTime(w, e0);
    RunExtends(w1, evs);
    FailuresGrowSlowly(w1, evs + [e], v.mon.current);
    assert (evs + [e])[..|evs|] == evs;
    RunSwitchLegality(v, e, Step(v, e).mon.current);
  }

  // ---------------------------------------------------------------- bounded failback

  /** The step leaves member m registered and running, every round that counts has seen it running and
      measured it normal, and nobody cancels. */
  ghost predicate HealthyStep(w: World, e: Event, m: Name)
    requires Wf(w)
  {
    !e.Cancel? && m in w.services &&
    (e.Register? || e.Unregister? ==> e.name != m) &&
    (e.Ask? ==> m in e.running) &&
    (Commits(w, e) ==>
       m in w.flight.value.running &&
       (m in w.flight.value.answers ==> w.flight.value.answers[m].status == Normal))
  }

  ghost predicate HealthyRun(w: World, evs: seq<Event>, m: Name)
    requires Wf(w)
  {
    evs == [] || (HealthyRun(w, evs[..|evs| - 1], m) && HealthyStep(Run(w, evs[..|evs| - 1]), evs[|evs| - 1], m))
  }

  /** A round in which the first member is available and normal keeps it, moves to it, or (only when it
      has not two normal rounds yet, or within the cooldown) changes nothing. */
  lemma FailbackRound(q: Monitor, results: map<Name, ProbeResult>, available: seq<Name>, now: int)
    requires q.policy == Priority && !q.cancelled && available != [] && Within(available, q.states.Keys)
    requires available[0] in results && results[available[0]].status == Normal
    requires q.states[available[0]].normals >= 1
    ensures var q', m := ApplyRound(q, results, available, now), available[0];
            q'.current == m ||
            (q'.current == q.current && q'.lastSwitch == q.lastSwitch && q'.switches == q.switches &&
             now - q.lastSwitch < COOLDOWN)
  {
    var m := available[0];
    var s := AbsorbAll(q.states, results, false, now);
    assert !AllFailed(results, available);
    assert m in Reliable(s);
    hide AbsorbAll, AllFailed;
    assert q.current !in available ==> First(available, Reliable(s)) == Some(m);
    assert q.current != m ==> First(available, Reliable(s) - {q.current}) == Some(m);
    assert q.current != m ==> First(Before(available, q.current), Reliable(s)) == Some(m);
  }

  /** Over a healthy run m's normal count is at least the number of committed rounds, and after the
      first of them m's state is bound to the registered instance. */
  lemma {:induction false} HealthyCounts(w: World, evs: seq<Event>, m: Name)
    requires Wf(w) && m in w.log && HealthyRun(w, evs, m)
    ensures var v := Run(w, evs);
            m in v.log && v.mon.states[m].normals >= Rounds(w, evs) &&
            (Rounds(w, evs) >= 1 ==> v.mon.states[m].service == Lookup(v.services, m)) &&
            (w.mon.cancelled == v.mon.cancelled)
  {
    if evs != [] {
      HealthyCounts(w, evs[..|evs| - 1], m);
      HealthyCount(Run(w, evs[..|evs| - 1]), evs[|evs| - 1], m);
    }
  }

  lemma AbsorbNormal(s: MemberState, r: ProbeResult, allFailed: bool, now: int)
    ensures Absorb(s, r, allFailed, now).service == s.service
    ensures r.status == Normal ==> Absorb(s, r, allFailed, now).normals == s.normals + 1
  {
  }

  lemma HealthyCount(w: World, e: Event, m: Name)
    requires Wf(w) && m in w.log && HealthyStep(w, e, m)
    ensures var v := Step(w, e);
            m in v.log && Lookup(v.services, m) == Lookup(w.services, m) && v.mon.cancelled == w.mon.cancelled &&
            (if Commits(w, e) then v.mon.states[m].normals >= 1 && v.mon.states[m].service == Lookup(v.services, m)
             else w.mon.states[m].service == Lookup(w.services, m) ==> v.mon.states[m] == w.mon.states[m]) &&
            (w.mon.states[m].service == Lookup(w.services, m) && Commits(w, e) ==>
               v.mon.states[m].normals == w.mon.states[m].normals + 1)
  {
    HealthyRest(w, e, m);
    MemberEffect(w, e, m);
    hide AllFailed, Filter, Absorb, Step, Common;
    if Commits(w, e) {
      CommitChecksAll(w, e, m);
      AbsorbNormal(w.mon.states[m], w.flight.value.answers[m], Common(w, e), e.now);
    }
  }

  lemma HealthyRest(w: World, e: Event, m: Name)
    requires Wf(w) && HealthyStep(w, e, m)
    ensures Lookup(Step(w, e).services, m) == Lookup(w.services, m) && Step(w, e).mon.cancelled == w.mon.cancelled
  {
    hide AllFailed, Filter, ApplyRound, EnsureCurrent;
    if e.Ask? { EnsureFrame(w.mon, Filter(w.members, e.running), e.now); }
    if e.Apply? && Enabled(w, e) {
      AvailableWithin(w);
      ApplyRoundFrame(w.mon, w.flight.value.answers, Available(w), e.now);
    }
  }

  /** A counting commit on top of at least one normal round: the preference is m, moves to m, or rests
      within the cooldown. */
  lemma FailbackCommit(w: World, e: Event)
    requires Wf(w) && w.mon.policy == Priority && !w.mon.cancelled && w.members != [] && Commits(w, e)
    requires HealthyStep(w, e, w.members[0]) && w.members[0] in w.log && w.mon.states[w.members[0]].normals >= 1
    ensures var v := Step(w, e);
            v.mon.current == w.members[0] ||
            (v.mon.current == w.mon.current && v.mon.lastSwitch == w.mon.lastSwitch && e.now - w.mon.lastSwitch < COOLDOWN)
  {
    hide ApplyRound, AllFailed;
    CommitIsRound(w, e);
    CommitChecksAll(w, e, w.members[0]);
    FilterKeepsFirst(w.members, w.flight.value.running);
    FailbackRound(w.mon, w.flight.value.answers, Available(w), e.now);
  }

  /** A healthy step with two normal rounds in hand: the preference is m, moves to m, or rests. */
  lemma FailbackStep(w: World, e: Event)
    requires Wf(w) && w.mon.policy == Priority && !w.mon.cancelled && w.members != []
    requires InHand(w, w.members[0]) && HealthyStep(w, e, w.members[0])
    ensures var v := Step(w, e);
            v.mon.current == w.members[0] ||
            (v.mon.current == w.mon.current && v.mon.lastSwitch == w.mon.lastSwitch)
  {
    var m := w.members[0];
    hide ApplyRound, AllFailed;
    if Commits(w, e) {
      FailbackCommit(w, e);
    } else if e.Ask? {
      FilterKeepsFirst(w.members, e.running);
      var available := Filter(w.members, e.running);
      assert m in Reliable(w.mon.states);
      assert First(available, Reliable(w.mon.states)) == Some(m);
    }
  }

  /** m is bound to its registered instance and has two normal rounds in a row. */
  ghost predicate InHand(w: World, m: Name)
    requires Wf(w)
  {
    m in w.log && w.mon.states[m].service == Lookup(w.services, m) && w.mon.states[m].normals >= 2
  }

  lemma {:induction false} StaysInHand(w: World, evs: seq<Event>, m: Name)
    requires Wf(w) && InHand(w, m) && HealthyRun(w, evs, m)
    ensures InHand(Run(w, evs), m) && Run(w, evs).mon.cancelled == w.mon.cancelled
  {
    hide Wf, Step, Commits, HealthyStep;
    if evs != [] {
      StaysInHand(w, evs[..|evs| - 1], m);
      HealthyCount(Run(w, evs[..|evs| - 1]), evs[|evs| - 1], m);
    }
  }

  /** With two normal rounds in hand, every switch of a healthy run is to m. */
  lemma {:induction false} FailbackRun(w: World, evs: seq<Event>)
    requires Wf(w) && w.mon.policy == Priority && !w.mon.cancelled && w.members != []
    requires InHand(w, w.members[0]) && HealthyRun(w, evs, w.members[0])
    ensures var v := Run(w, evs);
            v.mon.current == w.members[0] ||
            (v.mon.current == w.mon.current && v.mon.lastSwitch == w.mon.lastSwitch)
  {
    hide Wf, Step, Commits, HealthyStep;
    if evs != [] {
      FailbackRun(w, evs[..|evs| - 1]);
      StaysInHand(w, evs[..|evs| - 1], w.members[0]);
      FailbackStep(Run(w, evs[..|evs| - 1]), evs[|evs| - 1]);
    }
  }

  /** Bounded failback under the priority policy. From some point on the first member stays registered
      and running and is measured normal: then every round e that counts, is at least the second such
      round and comes at least 60 seconds after the last switch leaves that member preferred, and it
      stays preferred through all that follows. */
  lemma BoundedFailback(w: World, a: seq<Event>, e: Event, b: seq<Event>)
    requires Wf(w) && w.mon.policy == Priority && !w.mon.cancelled && w.members != []
    requires HealthyRun(w, a, w.members[0]) && Rounds(w, a) >= 1
    requires var v := Run(w, a); HealthyStep(v, e, w.members[0]) && Commits(v, e) && e.now - v.mon.lastSwitch >= 60_000_000_000
    requires HealthyRun(Step(Run(w, a), e), b, w.members[0])
    ensures Step(Run(w, a), e).mon.current == w.members[0]
    ensures Run(Step(Run(w, a), e), b).mon.current == w.members[0]
  {
    assert w.members[0] in w.log;
    hide Wf, Step, Commits, HealthyStep;
    var v, m := Run(w, a), w.members[0];
    HealthyCounts(w, a, m);
    HealthyCount(v, e, m);
    FailbackCommit(v, e);
    FailbackRun(Step(v, e), b);
  }

  // ---------------------------------------------------------------- quality hysteresis

  /** Committed rounds that enter the quality windows. */
  ghost function ScoredRounds(w: World, evs: seq<Event>): nat
    requires Wf(w)
  {
    if evs == [] then 0
    else
      var v, e := Run(w, evs[..|evs| - 1]), evs[|evs| - 1];
      ScoredRounds(w, evs[..|evs| - 1]) + (if Commits(v, e) && !Common(v, e) then 1 else 0)
  }

  /** Within k scored rounds the bad count has moved by at most k, or the window holds at most k samples. */
  ghost predicate Near(bad: int, s: MemberState, k: nat) {
    bad - k <= s.badSamples <= bad + k || s.samples <= k
  }

  lemma AbsorbMovesByOne(s: MemberState, r: ProbeResult, common: bool, now: int, bad: int, k: nat)
    requires s.badSamples == CountTrue(s.window) && s.samples == |s.window| && Near(bad, s, k)
    ensures Near(bad, Absorb(s, r, common, now), if common then k else k + 1)
  {
    var w := s.window + [r.status != Normal];
    assert w[..|w| - 1] == s.window;
    CountTrueDropFirst(w);
  }

  lemma NearFresh(bad: int, service: Option<Instance>, k: nat)
    ensures Near(bad, FreshMember(service), k)
  {
  }

  lemma InvCounts(w: World, n: Name)
    requires Wf(w) && Inv(w) && n in w.log
    ensures var s := w.mon.states[n]; s.badSamples == CountTrue(s.window) && s.samples == |s.window|
  {
    assert MemberInv(w, n);
    hide Provenance;
  }

  lemma DriftStep(w: World, e: Event, n: Name, bad: int, k: nat)
    requires Wf(w) && Inv(w) && n in w.log && Near(bad, w.mon.states[n], k)
    ensures n in Step(w, e).log
    ensures Near(bad, Step(w, e).mon.states[n], if Commits(w, e) && !Common(w, e) then k + 1 else k)
  {
    InvCounts(w, n);
    hide *;
    MemberEffect(w, e, n);
    NearFresh(bad, Lookup(w.services, n), k);
    if Commits(w, e) {
      AbsorbMovesByOne(w.mon.states[n], w.flight.value.answers[n], Common(w, e), e.now, bad, k);
    }
  }

  lemma {:induction false} Drift(w: World, evs: seq<Event>, n: Name, bad: int, k: nat)
    requires Wf(w) && Inv(w) && n in w.log && Near(bad, w.mon.states[n], k)
    ensures n in Run(w, evs).log && Near(bad, Run(w, evs).mon.states[n], k + ScoredRounds(w, evs))
  {
    hide Wf, Inv, Step, Near, Commits, Common;
    if evs != [] {
      Drift(w, evs[..|evs| - 1], n, bad, k);
      RunKeepsInv(w, evs[..|evs| - 1]);
      DriftStep(Run(w, evs[..|evs| - 1]), evs[|evs| - 1], n, bad, k + ScoredRounds(w, evs[..|evs| - 1]));
    }
  }

  /** The step makes a quality switch from x to y. */
  ghost predicate QualitySwitch(w: World, e: Event, x: Name, y: Name)
    requires Wf(w)
  {
    var sw := Step(w, e).mon.switches;
    |sw| > |w.mon.switches| && sw[|sw| - 1].from == x && sw[|sw| - 1].to == y && sw[|sw| - 1].reason.BetterQuality?
  }

  lemma RoundQualityGap(q: Monitor, results: map<Name, ProbeResult>, available: seq<Name>, now: int)
    requires Within(available, q.states.Keys) && !q.cancelled
    ensures var q' := ApplyRound(q, results, available, now);
            |q'.switches| > |q.switches| && q'.switches[|q'.switches| - 1].reason.BetterQuality? ==>
              var z := q'.switches[|q'.switches| - 1]; QualityGap(q'.states, z.from, z.to)
  {
    hide ApplyRound, AllFailed, AbsorbAll, QualityGap;
    var mid, name, reason := RoundIsChoices(q, results, available, now);
  }

  lemma QualitySwitchGap(w: World, e: Event, x: Name, y: Name)
    requires Wf(w) && QualitySwitch(w, e, x, y)
    ensures QualityGap(Step(w, e).mon.states, x, y)
  {
    hide ApplyRound, Filter, AllFailed, QualityGap, Commits, ApplyStep;
    PolicySwitchCommits(w, e);
    CommitIsRound(w, e);
    RoundQualityGap(w.mon, w.flight.value.answers, Available(w), e.now);
  }

  /** Hysteresis: a quality switch from x to y is reversed by a quality switch no earlier than the third
      scored round after it. */
  lemma QualityHysteresis(w: World, e1: Event, evs: seq<Event>, e2: Event, x: Name, y: Name)
    requires Wf(w) && Inv(w) && x in w.log && y in w.log && QualitySwitch(w, e1, x, y)
    requires QualitySwitch(Run(Step(w, e1), evs), e2, y, x)
    ensures ScoredRounds(Step(w, e1), evs + [e2]) >= 3
  {
    hide Wf, Inv, QualitySwitch, Step, Commits, Common;
    var w1 := Step(w, e1);
    StepKeepsInv(w, e1);
    QualitySwitchGap(w, e1, x, y);
    assert (evs + [e2])[..|evs|] == evs;
    QualitySwitchGap(Run(w1, evs), e2, y, x);
    StepMembers(w, e1, x);
    StepMembers(w, e1, y);
    Drift(w1, evs + [e2], x, w1.mon.states[x].badSamples, 0);
    Drift(w1, evs + [e2], y, w1.mon.states[y].badSamples, 0);
  }

  lemma StepMembers(w: World, e: Event, n: Name)
    requires Wf(w) && n in w.log
    ensures n in Step(w, e).log
  {
  }

  /** A member with at most k samples takes part in a quality switch, on either side, only when k and the
      scored rounds since, the switching one included, make up a full window. */
  lemma FreshMemberWaitsFullWindow(w: World, evs: seq<Event>, e: Event, x: Name, y: Name, n: Name, k: nat)
    requires Wf(w) && Inv(w) && n in w.log && w.mon.states[n].samples <= k && n in [x, y]
    requires QualitySwitch(Run(w, evs), e, x, y)
    ensures k + ScoredRounds(w, evs + [e]) >= 20
  {
    hide Wf, Inv, QualitySwitch, Step, Commits, Common;
    assert (evs + [e])[..|evs|] == evs;
    QualitySwitchGap(Run(w, evs), e, x, y);
    Drift(w, evs + [e], n, -100, k);
  }

  lemma CheckLeavesNoSample(w: World, e: Event, n: Name)
    requires Wf(w) && n in w.log && Rebinds(w, e, n)
    ensures n in Step(w, e).log && Step(w, e).mon.states[n].samples == 0
  {
    MemberEffect(w, e, n);
  }

  /** A rebuilt member takes part in a quality switch, on either side, only in or after its twentieth
      scored round, the one whose commit finds it rebuilt included. */
  lemma RebuiltMemberWaitsFullWindow(w: World, e1: Event, evs: seq<Event>, e: Event, x: Name, y: Name, n: Name)
    requires Wf(w) && Inv(w) && n in w.log && Rebinds(w, e1, n) && n in [x, y]
    requires QualitySwitch(Run(Step(w, e1), evs), e, x, y)
    ensures ScoredRounds(Step(w, e1), evs + [e]) >= 20
  {
    hide Wf, Inv, QualitySwitch, Step, Commits, Common, Rebinds;
    CheckLeavesNoSample(w, e1, n);
    StepKeepsInv(w, e1);
    FreshMemberWaitsFullWindow(Step(w, e1), evs, e, x, y, n, 0);
  }
}
