/** Rounds and rebuilt, passing and cancelled members: what of a round reaches the monitor. */
module RouteIsolation {
  import opened Prelude
  import opened RouteQuality
  import opened RouteRuns

  /** Some member is no longer the instance whose probe is in flight. */
  ghost predicate Stale(w: World, m: Name)
    requires Wf(w)
  {
    w.flight.Some? && m in w.log && m in w.flight.value.captured && w.flight.value.captured[m].Some? &&
    Lookup(w.services, m) != w.flight.value.captured[m]
  }

  lemma StaleStep(w: World, e: Event, m: Name)
    requires Wf(w) && Inv(w) && Stale(w, m) && !e.BeginRound?
    ensures var w' := Step(w, e);
            w'.flight.None? || (Stale(w', m) && w'.flight.value.captured[m] == w.flight.value.captured[m])
    ensures !Commits(w, e)
  {
    hide Summarises, Provenance, ApplyStep, EnsureCurrent;
    if e.Apply? && Enabled(w, e) { CommitChecksAll(w, e, m); }
  }

  /** Once a probed member has been rebuilt or removed, nothing of that round is ever committed, whatever
      happens until the next round begins. */
  lemma {:induction false} RebuiltMidRoundNeverCommits(w: World, evs: seq<Event>, m: Name, e: Event)
    requires Wf(w) && Inv(w) && Stale(w, m)
    requires forall k :: 0 <= k < |evs| ==> !evs[k].BeginRound?
    ensures var v := Run(w, evs);
            v.flight.None? || (Stale(v, m) && v.flight.value.captured[m] == w.flight.value.captured[m])
    ensures !Commits(Run(w, evs), e)
  {
    hide Wf, Inv, Step, Stale;
    if evs == [] {
      StaleNeverCommits(w, e, m);
    } else {
      var v, last := Run(w, evs[..|evs| - 1]), evs[|evs| - 1];
      RebuiltMidRoundNeverCommits(w, evs[..|evs| - 1], m, e);
      RunKeepsInv(w, evs[..|evs| - 1]);
      if v.flight.Some? {
        StaleStep(v, last, m);
      } else {
        NoRoundStep(v, last);
      }
      if Step(v, last).flight.Some? {
        RunKeepsInv(w, evs);
        StaleNeverCommits(Step(v, last), e, m);
      } else {
        NoRoundNeverCommits(Step(v, last), e);
      }
    }
  }

  lemma StaleNeverCommits(w: World, e: Event, m: Name)
    requires Wf(w) && Inv(w) && Stale(w, m)
    ensures !Commits(w, e)
  {
    if e.Apply? { StaleStep(w, e, m); }
  }

  lemma NoRoundStep(w: World, e: Event)
    requires Wf(w) && w.flight.None? && !e.BeginRound?
    ensures Step(w, e).flight.None?
  {
  }

  lemma NoRoundNeverCommits(w: World, e: Event)
    requires Wf(w) && w.flight.None?
    ensures !Commits(w, e)
  {
  }

  /** The event does not touch the registration of name, does not capture it, and is no part of a commit. */
  predicate LeavesAlone(e: Event, name: Name, i: Instance) {
    && !e.Check? && !e.Apply?
    && (e.Capture? ==> e.name != name)
    && (e.Register? ==> e.name != name && e.instance != i)
    && (e.Unregister? ==> e.name != name)
  }

  ghost function WithService(w: World, name: Name, i: Instance): World {
    w.(services := w.services[name := i], used := w.used + {i})
  }

  lemma BetweenStep(w: World, v: World, e: Event, name: Name, i: Instance)
    requires Wf(w) && Wf(v) && name !in w.services && i !in w.used && v == WithService(w, name, i)
    requires LeavesAlone(e, name, i)
    ensures var w' := Step(w, e);
            Step(v, e) == WithService(w', name, i) && name !in w'.services && i !in w'.used
  {
    hide EnsureCurrent, Filter;
    assert Committing(w) <==> Committing(v);
    assert Enabled(v, e) <==> Enabled(w, e);
    if e.Capture? { assert Lookup(v.services, e.name) == Lookup(w.services, e.name); }
    if e.Register? {
      assert w.services[name := i][e.name := e.instance] == w.services[e.name := e.instance][name := i];
      assert (w.used + {i}) + {e.instance} == (w.used + {e.instance}) + {i};
    }
    if e.Unregister? {
      assert w.services[name := i] - {e.name} == (w.services - {e.name})[name := i];
    }
  }

  lemma {:induction false} BetweenRun(w: World, v: World, evs: seq<Event>, name: Name, i: Instance)
    requires Wf(w) && Wf(v) && name !in w.services && i !in w.used && v == WithService(w, name, i)
    requires forall k :: 0 <= k < |evs| ==> LeavesAlone(evs[k], name, i)
    ensures var w' := Run(w, evs);
            Run(v, evs) == WithService(w', name, i) && name !in w'.services && i !in w'.used
  {
    hide Wf, Step, LeavesAlone;
    if evs != [] {
      BetweenRun(w, v, evs[..|evs| - 1], name, i);
      BetweenStep(Run(w, evs[..|evs| - 1]), Run(v, evs[..|evs| - 1]), evs[|evs| - 1], name, i);
    }
  }

  /** An instance that is used up makes no difference but that it is not registered again. */
  lemma {:induction false} UsedUpIsIdle(w: World, v: World, evs: seq<Event>, i: Instance)
    requires Wf(w) && Wf(v) && v == w.(used := w.used + {i})
    requires forall k :: 0 <= k < |evs| ==> !(evs[k].Register? && evs[k].instance == i)
    ensures Run(v, evs) == Run(w, evs).(used := Run(w, evs).used + {i})
  {
    hide Wf, Step;
    if evs != [] {
      UsedUpIsIdle(w, v, evs[..|evs| - 1], i);
      UsedUpStep(Run(w, evs[..|evs| - 1]), Run(v, evs[..|evs| - 1]), evs[|evs| - 1], i);
    }
  }

  lemma UsedUpStep(w: World, v: World, e: Event, i: Instance)
    requires Wf(w) && Wf(v) && v == w.(used := w.used + {i}) && !(e.Register? && e.instance == i)
    ensures Step(v, e) == Step(w, e).(used := Step(w, e).used + {i})
  {
    hide EnsureCurrent, Filter, ApplyRound, AllFailed, ApplyStep, Distinct, Within;
    assert Enabled(v, e) <==> Enabled(w, e);
    if e.Register? { assert (w.used + {i}) + {e.instance} == (w.used + {e.instance}) + {i}; }
    if e.Apply? && Enabled(w, e) { UsedUpApply(w, v, e, i); }
  }

  lemma UsedUpApply(w: World, v: World, e: Event, i: Instance)
    requires Wf(w) && Wf(v) && v == w.(used := w.used + {i}) && e.Apply? && Enabled(w, e) && Enabled(v, e)
    ensures ApplyStep(v, e) == ApplyStep(w, e).(used := ApplyStep(w, e).used + {i})
  {
    hide Filter, ApplyRound, AllFailed;
    assert Commits(v, e) <==> Commits(w, e);
    forall n | n in w.log && Commits(w, e) ensures SampleOf(v, e, n) == SampleOf(w, e, n) { }
  }

  lemma BetweenIdle(w: World, e: Event, name: Name, i: Instance)
    requires Wf(w) && !Committing(w) && LeavesAlone(e, name, i)
    ensures !Committing(Step(w, e))
  {
  }

  lemma {:induction false} NotCommitting(w: World, evs: seq<Event>, name: Name, i: Instance)
    requires Wf(w) && !Committing(w) && forall k :: 0 <= k < |evs| ==> LeavesAlone(evs[k], name, i)
    ensures !Committing(Run(w, evs))
  {
    hide Wf, Step, LeavesAlone;
    if evs != [] {
      NotCommitting(w, evs[..|evs| - 1], name, i);
      BetweenIdle(Run(w, evs[..|evs| - 1]), evs[|evs| - 1], name, i);
    }
  }

  lemma RunOne(w: World, e: Event)
    requires Wf(w)
    ensures Run(w, [e]) == Step(w, e)
  {
    hide Step;
    assert [e][..0] == [];
    assert Run(w, []) == w;
  }

  lemma ComesStep(w: World, name: Name, i: Instance)
    requires Wf(w) && !Committing(w) && i !in w.used
    ensures Step(w, Register(name, i)) == WithService(w, name, i)
  {
  }

  lemma GoesStep(w: World, v: World, name: Name, i: Instance)
    requires Wf(w) && Wf(v) && !Committing(w) && name !in w.services && v == WithService(w, name, i)
    ensures Step(v, Unregister(name)) == w.(used := w.used + {i})
  {
    assert w.services[name := i] - {name} == w.services;
  }

  /** The exception: a member absent at launch that comes and goes again before the commit, whatever else
      happens meanwhile, leaves no trace: that round and everything after it go on as if it had not. */
  lemma ComingAndGoingIsNotNoticed(w: World, name: Name, i: Instance, evs: seq<Event>, rest: seq<Event>)
    requires Wf(w) && name !in w.services && i !in w.used && !Committing(w)
    requires forall k :: 0 <= k < |evs| ==> LeavesAlone(evs[k], name, i)
    requires forall k :: 0 <= k < |rest| ==> !(rest[k].Register? && rest[k].instance == i)
    ensures var plain := Run(w, evs + rest);
            Run(w, [Register(name, i)] + evs + [Unregister(name)] + rest) == plain.(used := plain.used + {i})
  {
    hide Wf, Step, Run, Committing, LeavesAlone, WithService;
    var come, go := [Register(name, i)], [Unregister(name)];
    RunOne(w, Register(name, i));
    ComesStep(w, name, i);
    var v := Run(w, come);
    BetweenRun(w, v, evs, name, i);
    NotCommitting(w, evs, name, i);
    RunOne(Run(v, evs), Unregister(name));
    GoesStep(Run(w, evs), Run(v, evs), name, i);
    UsedUpIsIdle(Run(w, evs), Run(Run(v, evs), go), rest, i);
    RunConcat(w, come, evs);
    RunConcat(w, come + evs, go);
    RunConcat(w, come + evs + go, rest);
    RunConcat(w, evs, rest);
  }

  /** A cancelled monitor samples nothing and makes no switch of its own. Checking members can still start
      a rebuilt one afresh, and asking can still repair the preference; that is all that can change. */
  lemma CancelledOnlyRebinds(w: World, e: Event, n: Name)
    requires Wf(w) && w.mon.cancelled && n in w.log
    ensures var w' := Step(w, e);
            && n in w'.log && n in w'.mon.states && w'.log[n] == w.log[n]
            && w'.mon.states[n] == (if Rebinds(w, e, n) then FreshMember(Lookup(w.services, n)) else w.mon.states[n])
            && if e.Ask? then w'.mon == EnsureCurrent(w.mon, Filter(w.members, e.running), e.now)
               else w'.mon == w.mon.(states := w'.mon.states)
  {
    hide EnsureCurrent, Filter, Absorb, AllFailed;
    if e.Check? && Enabled(w, e) {
      CheckEffect(w, e, n);
    } else if e.Apply? && Enabled(w, e) {
      ApplyEffect(w, e, n);
    } else {
      QuietStep(w, e);
    }
  }
}
