/** Progress: a round that nobody disturbs counts, is one commit of the specification, and does not put off
    a fault switch. */
module RouteProgress {
  import opened Prelude
  import opened RouteQuality
  import opened RouteLegality
  import opened RouteRuns
  import opened RouteTheorems

  function Captures(names: seq<Name>): seq<Event> {
    if names == [] then [] else Captures(names[..|names| - 1]) + [Capture(names[|names| - 1])]
  }

  function Answers(names: seq<Name>, results: map<Name, ProbeResult>): seq<Event>
    requires Within(names, results.Keys)
  {
    if names == [] then []
    else Answers(names[..|names| - 1], results) + [Answer(names[|names| - 1], results[names[|names| - 1]])]
  }

  /** Launch all probes, then take all answers. */
  function LaunchEvents(members: seq<Name>, results: map<Name, ProbeResult>): seq<Event>
    requires Within(members, results.Keys)
  {
    [BeginRound] + Captures(members) + Answers(members, results)
  }

  /** Check all the named members, some of which are running. */
  function Checks(names: seq<Name>, running: set<Name>): seq<Event> {
    if names == [] then [] else Checks(names[..|names| - 1], running) + [Check(names[|names| - 1] in running)]
  }

  /** A whole round: launch, answers, and the checks of its commit. */
  function RoundEvents(members: seq<Name>, results: map<Name, ProbeResult>, running: set<Name>): seq<Event>
    requires Within(members, results.Keys)
  {
    LaunchEvents(members, results) + Checks(members, running)
  }

  /** Results a round can bring: one for every member, the fixed one for those not registered. */
  ghost predicate Possible(w: World, results: map<Name, ProbeResult>)
    requires Wf(w)
  {
    && results.Keys == ToSet(w.members)
    && forall n :: n in results && n !in w.services ==> results[n] == NOT_RUNNING
  }

  function CapturedOf(names: seq<Name>, services: map<Name, Instance>): map<Name, Option<Instance>> {
    map n | n in names :: Lookup(services, n)
  }

  function Part(names: seq<Name>, results: map<Name, ProbeResult>): map<Name, ProbeResult> {
    map n | n in names && n in results :: results[n]
  }

  lemma RunSnoc(w: World, evs: seq<Event>, e: Event)
    requires Wf(w)
    ensures Run(w, evs + [e]) == Step(Run(w, evs), e)
  {
    assert (evs + [e])[..|evs|] == evs;
    hide Step, Wf;
  }

  lemma MemberAt(w: World, k: nat)
    requires Wf(w) && k < |w.members|
    ensures var n := w.members[k];
            n in w.log && n in w.mon.states && n !in w.members[..k] && w.members[..k + 1] == w.members[..k] + [n]
  {
  }

  lemma PartSnoc(names: seq<Name>, n: Name, services: map<Name, Instance>, results: map<Name, ProbeResult>)
    requires n in results
    ensures CapturedOf(names + [n], services) == CapturedOf(names, services)[n := Lookup(services, n)]
    ensures Part(names + [n], results) == Part(names, results)[n := results[n]]
    ensures n !in names ==> n !in CapturedOf(names, services) && n !in Part(names, results)
  {
  }

  lemma CaptureStep(v: World, k: nat)
    requires Wf(v) && k < |v.members| && v.flight == Some(Flight(CapturedOf(v.members[..k], v.services), map[], 0, {}))
    ensures Step(v, Capture(v.members[k]))
         == v.(flight := Some(Flight(CapturedOf(v.members[..k + 1], v.services), map[], 0, {})))
  {
    hide EnsureCurrent, CheckStep, ApplyStep, Wf, CapturedOf, Filter;
    var n := v.members[k];
    MemberAt(v, k);
    PartSnoc(v.members[..k], n, v.services, map[n := NOT_RUNNING]);
  }

  lemma AnswerStep(v: World, results: map<Name, ProbeResult>, k: nat)
    requires Wf(v) && Possible(v, results) && k < |v.members|
    requires v.flight == Some(Flight(CapturedOf(v.members, v.services), Part(v.members[..k], results), 0, {}))
    ensures v.members[k] in results
    ensures Step(v, Answer(v.members[k], results[v.members[k]]))
         == v.(flight := Some(Flight(CapturedOf(v.members, v.services), Part(v.members[..k + 1], results), 0, {})))
  {
    hide EnsureCurrent, CheckStep, ApplyStep, Wf, Part, Filter;
    var n := v.members[k];
    MemberAt(v, k);
    assert n in v.members;
    PartSnoc(v.members[..k], n, v.services, results);
  }

  lemma CapturesSnoc(names: seq<Name>, k: nat)
    requires k < |names|
    ensures Captures(names[..k + 1]) == Captures(names[..k]) + [Capture(names[k])]
  {
    assert names[..k + 1][..k] == names[..k];
  }

  lemma AnswersSnoc(names: seq<Name>, results: map<Name, ProbeResult>, k: nat)
    requires k < |names| && Within(names, results.Keys)
    ensures Answers(names[..k + 1], results) == Answers(names[..k], results) + [Answer(names[k], results[names[k]])]
  {
    assert names[..k + 1][..k] == names[..k];
  }

  lemma NothingYet(w: World)
    requires Wf(w)
    ensures Run(w, Captures(w.members[..0])) == w && CapturedOf(w.members[..0], w.services) == map[]
  {
  }

  lemma NothingAnswered(w: World, results: map<Name, ProbeResult>)
    requires Wf(w)
    ensures Within(w.members[..0], results.Keys)
    ensures Run(w, Answers(w.members[..0], results)) == w && Part(w.members[..0], results) == map[]
  {
  }

  lemma {:induction false} CapturesRun(w: World, k: nat)
    requires Wf(w) && w.flight == Some(Flight(map[], map[], 0, {})) && k <= |w.members|
    ensures Run(w, Captures(w.members[..k])) == w.(flight := Some(Flight(CapturedOf(w.members[..k], w.services), map[], 0, {})))
  {
    hide *;
    if k == 0 {
      NothingYet(w);
    } else {
      CapturesRun(w, k - 1);
      CapturesSnoc(w.members, k - 1);
      RunSnoc(w, Captures(w.members[..k - 1]), Capture(w.members[k - 1]));
      CaptureStep(Run(w, Captures(w.members[..k - 1])), k - 1);
    }
  }

  lemma {:induction false} AnswersRun(w: World, results: map<Name, ProbeResult>, k: nat)
    requires Wf(w) && Possible(w, results) && Within(w.members, results.Keys) && k <= |w.members|
    requires w.flight == Some(Flight(CapturedOf(w.members, w.services), map[], 0, {}))
    ensures Run(w, Answers(w.members[..k], results))
         == w.(flight := Some(Flight(CapturedOf(w.members, w.services), Part(w.members[..k], results), 0, {})))
  {
    hide Wf, Step, Run, Part, CapturedOf;
    if k == 0 {
      NothingAnswered(w, results);
    } else {
      AnswersRun(w, results, k - 1);
      AnswersSnoc(w.members, results, k - 1);
      RunSnoc(w, Answers(w.members[..k - 1], results), Answer(w.members[k - 1], results[w.members[k - 1]]));
      AnswerStep(Run(w, Answers(w.members[..k - 1], results)), results, k - 1);
    }
  }

  lemma AllMembers(w: World, results: map<Name, ProbeResult>)
    requires Wf(w) && Possible(w, results)
    ensures Within(w.members, results.Keys) && Part(w.members, results) == results && w.members[..|w.members|] == w.members
    ensures w.log.Keys == results.Keys == CapturedOf(w.members, w.services).Keys
  {
  }

  lemma BeginStep(w: World)
    requires Wf(w) && w.flight.None?
    ensures Run(w, [BeginRound]) == w.(flight := Some(Flight(map[], map[], 0, {})))
  {
    assert [BeginRound] == [] + [BeginRound];
    RunSnoc(w, [], BeginRound);
  }

  /** From any state without a round under way: all probes launched, all answers taken. */
  lemma LaunchRun(w: World, results: map<Name, ProbeResult>)
    requires Wf(w) && w.flight.None? && Possible(w, results)
    ensures Within(w.members, results.Keys)
    ensures Run(w, LaunchEvents(w.members, results))
         == w.(flight := Some(Flight(CapturedOf(w.members, w.services), results, 0, {})))
  {
    AllMembers(w, results);
    hide Wf, Step, Run, Captures, Answers, Part, CapturedOf;
    var m := w.members;
    var a := Run(w, [BeginRound]);
    BeginStep(w);
    CapturesRun(a, |m|);
    AnswersRun(Run(a, Captures(m)), results, |m|);
    RunConcat(w, [BeginRound], Captures(m));
    RunConcat(w, [BeginRound] + Captures(m), Answers(m, results));
  }

  // ---------------------------------------------------------------- the checks of a commit

  function RunningOf(names: seq<Name>, running: set<Name>, services: map<Name, Instance>): set<Name> {
    set n | n in names && n in running && n in services
  }

  /** A commit is about to begin. */
  ghost predicate Ready(w: World)
    requires Wf(w)
  {
    w.flight.Some? && w.flight.value.checked == 0 && AllAnswered(w, w.flight.value)
  }

  /** The first k members are the instances that were probed. */
  ghost predicate AgreeUpTo(w: World, k: nat)
    requires Wf(w) && Ready(w)
  {
    k <= |w.members| &&
    forall i :: 0 <= i < k ==>
      w.members[i] in w.flight.value.captured && w.flight.value.captured[w.members[i]] == Lookup(w.services, w.members[i])
  }

  /** What checking the first k members amounts to. */
  ghost predicate AfterChecks(w: World, running: set<Name>, k: nat, v: World)
    requires Wf(w) && Ready(w) && k <= |w.members|
  {
    && v.flight == Some(w.flight.value.(checked := k, running := RunningOf(w.members[..k], running, w.services)))
    && v.mon == w.mon.(states := Rebind(w.mon.states, ToSet(w.members[..k]), w.services))
    && v.members == w.members && v.services == w.services && v.log == w.log && v.used == w.used
  }

  lemma RebindSnoc(states: map<Name, MemberState>, names: seq<Name>, n: Name, services: map<Name, Instance>)
    requires n in states && n !in names
    ensures var before := Rebind(states, ToSet(names), services);
            n in before && Rebind(states, ToSet(names + [n]), services) == RebindOne(before, n, Lookup(services, n))
  {
    assert ToSet(names + [n]) == ToSet(names) + {n};
  }

  lemma RunningSnoc(names: seq<Name>, n: Name, running: set<Name>, services: map<Name, Instance>)
    ensures RunningOf(names + [n], running, services)
         == RunningOf(names, running, services) + if n in running && n in services then {n} else {}
  {
  }

  /** A check of the next member, found to be the instance that was probed. */
  lemma CheckResult(v: World, isRunning: bool)
    requires Wf(v) && Enabled(v, Check(isRunning)) && Unchanged(v, Check(isRunning))
    ensures var n, f, v' := Checked(v, Check(isRunning)), v.flight.value, Step(v, Check(isRunning));
            && n in v.mon.states
            && v'.mon == v.mon.(states := RebindOne(v.mon.states, n, Lookup(v.services, n)))
            && v'.flight == Some(f.(checked := f.checked + 1,
                                    running := f.running + if isRunning && n in v.services then {n} else {}))
            && v'.members == v.members && v'.services == v.services && v'.log == v.log && v'.used == v.used
  {
    CheckedInLog(v, Check(isRunning));
  }

  lemma CheckOne(w: World, running: set<Name>, k: nat, v: World)
    requires Wf(w) && Ready(w) && k < |w.members| && Wf(v) && AfterChecks(w, running, k, v) && AgreeUpTo(w, k + 1)
    ensures AfterChecks(w, running, k + 1, Step(v, Check(w.members[k] in running)))
  {
    hide Step, CheckStep, Rebind, RebindOne, RunningOf, Wf;
    var n, e := w.members[k], Check(w.members[k] in running);
    MemberAt(w, k);
    RebindSnoc(w.mon.states, w.members[..k], n, w.services);
    RunningSnoc(w.members[..k], n, running, w.services);
    assert Enabled(v, e) && Checked(v, e) == n && Unchanged(v, e);
    CheckResult(v, n in running);
  }

  lemma ChecksSnoc(names: seq<Name>, running: set<Name>, k: nat)
    requires k < |names|
    ensures Checks(names[..k + 1], running) == Checks(names[..k], running) + [Check(names[k] in running)]
  {
    assert names[..k + 1][..k] == names[..k];
  }

  lemma NoChecks(w: World, running: set<Name>)
    requires Wf(w) && Ready(w)
    ensures AfterChecks(w, running, 0, Run(w, Checks(w.members[..0], running)))
  {
    assert RunningOf(w.members[..0], running, w.services) == {};
  }

  lemma {:induction false} ChecksRun(w: World, running: set<Name>, k: nat)
    requires Wf(w) && Ready(w) && AgreeUpTo(w, k)
    ensures AfterChecks(w, running, k, Run(w, Checks(w.members[..k], running)))
  {
    hide Wf, Step, Run, AfterChecks, Checks, Ready;
    if k == 0 {
      NoChecks(w, running);
    } else {
      ChecksRun(w, running, k - 1);
      ChecksSnoc(w.members, running, k - 1);
      RunSnoc(w, Checks(w.members[..k - 1], running), Check(w.members[k - 1] in running));
      CheckOne(w, running, k - 1, Run(w, Checks(w.members[..k - 1], running)));
    }
  }

  lemma {:induction false} FilterSame(names: seq<Name>, a: set<Name>, b: set<Name>)
    requires forall i :: 0 <= i < |names| ==> (names[i] in a <==> names[i] in b)
    ensures Filter(names, a) == Filter(names, b)
  {
    if names != [] { FilterSame(names[..|names| - 1], a, b); }
  }

  lemma AvailableAfterChecks(w: World, running: set<Name>, v: World)
    requires Wf(w) && Ready(w) && AfterChecks(w, running, |w.members|, v)
    ensures Available(v) == Filter(w.members, running * w.services.Keys)
  {
    assert w.members[..|w.members|] == w.members;
    FilterSame(w.members, RunningOf(w.members, running, w.services), running * w.services.Keys);
  }

  /** After a check that finds a member changed, the rest of the commit does nothing. */
  lemma {:induction false} NothingLeft(w: World, evs: seq<Event>)
    requires Wf(w) && w.flight.None? && forall k :: 0 <= k < |evs| ==> evs[k].Check? || evs[k].Apply?
    ensures Run(w, evs) == w
  {
    if evs != [] { NothingLeft(w, evs[..|evs| - 1]); }
  }

  lemma {:induction false} ChecksSplit(names: seq<Name>, running: set<Name>, k: nat)
    requires k <= |names|
    ensures |Checks(names, running)| == |names| && Checks(names, running)[..k] == Checks(names[..k], running)
    ensures forall i :: 0 <= i < |names| ==> Checks(names, running)[i] == Check(names[i] in running)
    decreases |names|
  {
    if names != [] {
      var init := names[..|names| - 1];
      if k == |names| {
        assert names[..k] == names;
        ChecksSplit(init, running, 0);
      } else {
        ChecksSplit(init, running, k);
        assert init[..k] == names[..k];
      }
    }
  }

  /** The specification of a commit as the class method makes it is what the steps of a commit come to when
      nothing falls between them: whether all members agree or not. */
  lemma UninterruptedCommit(w: World, running: set<Name>, now: int)
    requires Wf(w) && Ready(w)
    ensures Within(w.members, w.flight.value.captured.Keys) && Within(w.members, w.mon.states.Keys)
    ensures Run(w, Checks(w.members, running) + [Apply(now)]).mon
         == Commit(w.mon, w.members, w.flight.value.captured, w.flight.value.answers, w.services, running, now)
  {
    var p := FirstChanged(w);
    hide Wf, Run, Step, Commit, Checks, Available, Filter, AfterChecks, AgreeUpTo, Agreeing;
    ChecksRun(w, running, p);
    var v := Run(w, Checks(w.members[..p], running));
    if p == |w.members| {
      assert w.members[..p] == w.members;
      AvailableAfterChecks(w, running, v);
      RunSnoc(w, Checks(w.members, running), Apply(now));
      FullCommit(w, running, now, v);
    } else {
      BrokenCommit(w, running, now, p);
    }
  }

  lemma FirstChanged(w: World) returns (p: nat)
    requires Wf(w) && Ready(w)
    ensures Within(w.members, w.flight.value.captured.Keys) && Within(w.members, w.mon.states.Keys)
    ensures p <= |w.members| && p == Agreeing(w.members, w.flight.value.captured, w.services) && AgreeUpTo(w, p)
    ensures p < |w.members| ==> w.flight.value.captured[w.members[p]] != Lookup(w.services, w.members[p])
  {
    p := Agreeing(w.members, w.flight.value.captured, w.services);
    AgreeingMeaning(w.members, w.flight.value.captured, w.services, p);
  }

  lemma FullCommit(w: World, running: set<Name>, now: int, v: World)
    requires Wf(w) && Ready(w) && Wf(v) && AfterChecks(w, running, |w.members|, v)
    requires Available(v) == Filter(w.members, running * w.services.Keys)
    requires Within(w.members, w.flight.value.captured.Keys) && Within(w.members, w.mon.states.Keys)
    requires Agreeing(w.members, w.flight.value.captured, w.services) == |w.members|
    ensures Step(v, Apply(now)).mon
         == Commit(w.mon, w.members, w.flight.value.captured, w.flight.value.answers, w.services, running, now)
  {
    hide ApplyRound, Filter, Rebind;
    AvailableWithin(v);
  }

  lemma BrokenCommit(w: World, running: set<Name>, now: int, p: nat)
    requires Wf(w) && Ready(w) && p < |w.members| && AfterChecks(w, running, p, Run(w, Checks(w.members[..p], running)))
    requires Within(w.members, w.flight.value.captured.Keys) && Within(w.members, w.mon.states.Keys)
    requires Agreeing(w.members, w.flight.value.captured, w.services) == p
    requires w.flight.value.captured[w.members[p]] != Lookup(w.services, w.members[p])
    ensures Run(w, Checks(w.members, running) + [Apply(now)]).mon
         == Commit(w.mon, w.members, w.flight.value.captured, w.flight.value.answers, w.services, running, now)
  {
    var first, e := Checks(w.members[..p], running), Check(w.members[p] in running);
    var rest := RestOfCommit(w.members, running, now, p);
    FailedCheck(w, running, p, Run(w, first));
    DiscardedCommit(w, running, now, p);
    hide Run, Step, Commit, Checks, Wf;
    RunSnoc(w, first, e);
    NothingLeft(Run(w, first + [e]), rest);
    RunConcat(w, first + [e], rest);
  }

  lemma RestOfCommit(names: seq<Name>, running: set<Name>, now: int, p: nat) returns (rest: seq<Event>)
    requires p < |names|
    ensures Checks(names, running) + [Apply(now)] == Checks(names[..p], running) + [Check(names[p] in running)] + rest
    ensures forall k :: 0 <= k < |rest| ==> rest[k].Check? || rest[k].Apply?
  {
    ChecksSplit(names, running, p);
    rest := Checks(names, running)[p + 1..] + [Apply(now)];
    hide Checks;
    assert Checks(names, running)
        == Checks(names, running)[..p] + [Checks(names, running)[p]] + Checks(names, running)[p + 1..];
  }

  lemma FailedCheck(w: World, running: set<Name>, p: nat, v: World)
    requires Wf(w) && Ready(w) && p < |w.members| && Wf(v) && AfterChecks(w, running, p, v)
    requires w.members[p] in w.flight.value.captured
    requires w.flight.value.captured[w.members[p]] != Lookup(w.services, w.members[p])
    ensures Step(v, Check(w.members[p] in running)) == v.(flight := None)
  {
    hide Rebind, RebindOne, RunningOf;
    var e := Check(w.members[p] in running);
    assert Enabled(v, e) && Checked(v, e) == w.members[p] && !Unchanged(v, e);
  }

  lemma DiscardedCommit(w: World, running: set<Name>, now: int, p: nat)
    requires Wf(w) && Ready(w) && p < |w.members|
    requires Within(w.members, w.flight.value.captured.Keys) && Within(w.members, w.mon.states.Keys)
    requires Agreeing(w.members, w.flight.value.captured, w.services) == p
    ensures Commit(w.mon, w.members, w.flight.value.captured, w.flight.value.answers, w.services, running, now)
         == w.mon.(states := Rebind(w.mon.states, ToSet(w.members[..p]), w.services))
  {
    hide Rebind, Filter, ApplyRound;
  }

  // ---------------------------------------------------------------- rounds nobody disturbs

  /** From any state without a round under way, probing all members, taking their answers and checking
      them leads to a commit that counts, with exactly those results. */
  lemma UndisturbedRoundCounts(w: World, results: map<Name, ProbeResult>, running: set<Name>, now: int)
    requires Wf(w) && w.flight.None? && !w.mon.cancelled && Possible(w, results)
    ensures Within(w.members, results.Keys)
    ensures var v := Run(w, RoundEvents(w.members, results, running));
            && Commits(v, Apply(now)) && v.flight.value.answers == results
            && Available(v) == Filter(w.members, running * w.services.Keys)
            && v.mon == w.mon.(states := Rebind(w.mon.states, ToSet(w.members), w.services))
            && v.members == w.members && v.services == w.services && v.log == w.log
  {
    AllMembers(w, results);
    LaunchRun(w, results);
    var a := Run(w, LaunchEvents(w.members, results));
    LaunchedIsReady(w, results, a);
    ChecksRun(a, running, |w.members|);
    RunConcat(w, LaunchEvents(w.members, results), Checks(w.members, running));
    AvailableAfterChecks(a, running, Run(a, Checks(w.members, running)));
  }

  lemma LaunchedIsReady(w: World, results: map<Name, ProbeResult>, a: World)
    requires Wf(w) && Possible(w, results) && Wf(a)
    requires a == w.(flight := Some(Flight(CapturedOf(w.members, w.services), results, 0, {})))
    ensures Ready(a) && AgreeUpTo(a, |w.members|)
  {
  }

  /** The other members, bound to what is registered, whose second normal round in a row, or a later one,
      this is. */
  ghost function Standby(w: World, results: map<Name, ProbeResult>): set<Name>
    requires Wf(w) && Possible(w, results)
  {
    set n | n in w.log && n != w.mon.current && n in results && results[n].status == Normal
            && w.mon.states[n].service == Lookup(w.services, n) && w.mon.states[n].normals >= 1
  }

  lemma SameFirst(names: seq<Name>, a: set<Name>, b: set<Name>, y: Name)
    requires IsFirst(names, a, y) && forall i :: 0 <= i < |names| ==> (names[i] in a <==> names[i] in b)
    ensures IsFirst(names, b, y)
  {
  }

  lemma AbsorbOne(s: MemberState, r: ProbeResult, now: int)
    ensures r.status == Failed ==> Absorb(s, r, false, now).failures == s.failures + 1
    ensures Absorb(s, r, false, now).normals == if r.status == Normal then s.normals + 1 else 0
  {
  }

  /** One member across the commit of an undisturbed round that is no common failure. */
  lemma StandbyMember(w: World, results: map<Name, ProbeResult>, v: World, e: Event, n: Name)
    requires Wf(w) && Possible(w, results) && n in w.log && Wf(v)
    requires Commits(v, e) && !Common(v, e) && v.flight.value.answers == results
    requires v.mon == w.mon.(states := Rebind(w.mon.states, ToSet(w.members), w.services)) && v.log == w.log
    requires var x := w.mon.current;
             x in w.log && results[x].status == Failed && w.mon.states[x].failures >= 2 &&
             w.mon.states[x].service == Lookup(w.services, x)
    ensures var s, x := Step(v, e).mon.states, w.mon.current;
            n in s && (n != x && s[n].normals >= 2 <==> n in Standby(w, results)) && (n == x ==> s[n].failures >= 3)
  {
    hide Absorb, AllFailed, Filter, Commits, Step, Common, Rebinds;
    assert n in results && n in ToSet(w.members);
    MemberEffect(v, e, n);
    AbsorbOne(v.mon.states[n], results[n], e.now);
  }

  lemma InLog(v: World, i: nat)
    requires Wf(v) && v.flight.Some? && i < |Available(v)|
    ensures Available(v)[i] in v.log
  {
    AvailableWithin(v);
  }

  lemma StandbyIsNoCommonFailure(w: World, results: map<Name, ProbeResult>, available: seq<Name>, y: Name)
    requires Wf(w) && Possible(w, results) && IsFirst(available, Standby(w, results), y)
    ensures !AllFailed(results, available)
  {
    AllFailedMeaning(results, available);
    assert y in available && y in results && results[y].status == Normal;
  }

  /** Prompt fault switch: the round that brings the third failure in a row of a current member that is
      still the same instance moves the preference to the first other available member that it measures
      normal for at least the second time, cooldown or not, under either policy. */
  lemma PromptFaultSwitch(w: World, results: map<Name, ProbeResult>, running: set<Name>, now: int, y: Name)
    requires Wf(w) && w.flight.None? && !w.mon.cancelled && Possible(w, results)
    requires var x := w.mon.current;
             x in Filter(w.members, running * w.services.Keys) && x in w.log &&
             w.mon.states[x].service == Lookup(w.services, x) &&
             w.mon.states[x].failures >= 2 && results[x].status == Failed
    requires IsFirst(Filter(w.members, running * w.services.Keys), Standby(w, results), y)
    ensures Within(w.members, results.Keys)
    ensures Step(Run(w, RoundEvents(w.members, results, running)), Apply(now)).mon.current == y
  {
    hide ApplyRound, AllFailed, Filter, Absorb, Run, RoundEvents, Rebind, ApplyStep, Step;
    UndisturbedRoundCounts(w, results, running, now);
    StandbyIsNoCommonFailure(w, results, Filter(w.members, running * w.services.Keys), y);
    var v, e := Run(w, RoundEvents(w.members, results, running)), Apply(now);
    var x, available, s := w.mon.current, Available(v), Step(v, e).mon.states;
    forall n | n in w.log
      ensures n in s && (n != x && s[n].normals >= 2 <==> n in Standby(w, results)) && (n == x ==> s[n].failures >= 3)
    {
      StandbyMember(w, results, v, e, n);
    }
    forall i | 0 <= i < |available| ensures available[i] in w.log { InLog(v, i); }
    var others := set n | n in s && n != x && s[n].normals >= 2;
    SameFirst(available, Standby(w, results), others, y);
    assert FaultTo(s, available, x, y);
    RunSwitchLegality(v, e, y);
  }

  // ---------------------------------------------------------------- cancelled rounds

  /** The commit of a round that was cancelled after its last answer: any member whose state is bound to
      another service than the registered one is started afresh all the same. */
  lemma CancelledCommitRebinds(w: World, results: map<Name, ProbeResult>, running: set<Name>, n: Name)
    requires Wf(w) && w.flight.None? && Possible(w, results)
    requires n in w.log && w.mon.states[n].service != Lookup(w.services, n)
    ensures Within(w.members, results.Keys)
    ensures var c := Run(w, LaunchEvents(w.members, results) + [Cancel]);
            var v := Run(c, Checks(w.members, running));
            c.mon.cancelled && n in c.mon.states && n in v.mon.states &&
            v.mon.states[n] == FreshMember(Lookup(w.services, n)) != c.mon.states[n]
  {
    hide Run, LaunchEvents, Checks;
    AllMembers(w, results);
    LaunchRun(w, results);
    var a := Run(w, LaunchEvents(w.members, results));
    RunSnoc(w, LaunchEvents(w.members, results), Cancel);
    var c := Run(w, LaunchEvents(w.members, results) + [Cancel]);
    assert c == a.(mon := a.mon.(cancelled := true));
    LaunchedIsReady(w, results, a);
    assert Ready(c) && AgreeUpTo(c, |w.members|);
    ChecksRun(c, running, |w.members|);
    assert n in ToSet(w.members);
  }

  /** From the very start: a monitor cancelled in its first round still changes every member that is
      registered. */
  lemma CancelledFirstRound(members: seq<Name>, policy: Policy, services: map<Name, Instance>,
                            results: map<Name, ProbeResult>, running: set<Name>, n: Name)
    requires ValidMembers(members) && n in members && n in services
    requires Possible(Start(members, policy, services), results)
    ensures Within(members, results.Keys)
    ensures var c := Run(Start(members, policy, services), LaunchEvents(members, results) + [Cancel]);
            var v := Run(c, Checks(members, running));
            c.mon.cancelled && n in c.mon.states && n in v.mon.states && v.mon.states[n] != c.mon.states[n]
  {
    hide Step, Run, Possible, LaunchEvents, Checks;
    CancelledCommitRebinds(Start(members, policy, services), results, running, n);
  }

  /** And asking it still moves the preference: with some member running, a monitor that prefers none of
      the running ones prefers one afterwards, cancelled or not. */
  lemma CancelledStillAnswers(w: World, running: set<Name>, now: int)
    requires Wf(w) && w.mon.cancelled && Filter(w.members, running) != []
    requires w.mon.current !in Filter(w.members, running)
    ensures var w' := Step(w, Ask(running, now));
            w'.mon.cancelled && w'.mon.current in Filter(w.members, running) && w'.mon.current != w.mon.current &&
            w'.mon.lastSwitch == now && |w'.mon.switches| == |w.mon.switches| + 1
  {
    var available := Filter(w.members, running);
    FirstInSet(available, Reliable(w.mon.states));
  }
}
