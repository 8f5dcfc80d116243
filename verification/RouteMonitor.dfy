/** The monitor object and its switch log, updated in place, against the functions of RouteQuality. */
module RouteMonitor {
  import opened Prelude
  import opened RouteQuality

  const LOG_MAX: nat := 20

  /** The bounded switch log (tun/route_switch_log.go). */
  class RouteSwitchLog {
    var events: seq<SwitchEvent>
    ghost var all: seq<SwitchEvent>  // every event ever recorded

    ghost predicate Valid() reads this { events == LastN(LOG_MAX, all) }

    constructor ()
      ensures Valid() && all == []
    {
      events, all := [], [];
    }

    method RecordReason(from: Name, to: Name, reason: Reason)
      requires Valid()
      modifies this
      ensures Valid() && all == old(all) + [SwitchEvent(from, to, reason)]
    {
      events := events + [SwitchEvent(from, to, reason)];
      if |events| > LOG_MAX {
        events := events[|events| - LOG_MAX..];
      }
      all := all + [SwitchEvent(from, to, reason)];
    }

    /** A copy of the kept events, newest first. */
    method List() returns (out: seq<SwitchEvent>)
      requires Valid()
      ensures |out| == if |all| < 20 then |all| else 20
      ensures forall k :: 0 <= k < |out| ==> out[k] == all[|all| - 1 - k]
    {
      out := [];
      var i := |events| - 1;
      while i >= 0
        invariant -1 <= i < |events|
        invariant |out| == |events| - 1 - i
        invariant forall k :: 0 <= k < |out| ==> out[k] == events[|events| - 1 - k]
      {
        out := out + [events[i]];
        i := i - 1;
      }
    }
  }

  method CountBad(window: seq<bool>) returns (bad: nat)
    ensures bad == CountTrue(window)
  {
    bad := 0;
    for i := 0 to |window|
      invariant bad == CountTrue(window[..i])
    {
      assert window[..i + 1][..i] == window[..i];
      if window[i] { bad := bad + 1; }
    }
    assert window[..|window|] == window;
  }

  class RouteQualityMonitor {
    const policy: Policy
    const log: RouteSwitchLog
    var states: map<Name, MemberState>
    var current: Name
    var lastSwitch: int
    var cancelled: bool

    ghost predicate Valid() reads this, log { log.Valid() }

    ghost function Abs(): Monitor reads this, log {
      Monitor(policy, states, current, lastSwitch, cancelled, log.all)
    }

    constructor (members: seq<Name>, policy: Policy, log: RouteSwitchLog)
      requires log.Valid() && log.all == []
      ensures Valid() && this.log == log && Abs() == NewMonitor(members, policy)
    {
      this.policy, this.log := policy, log;
      states := map n | n in members :: FreshMember(None);
      current, lastSwitch, cancelled := "", 0, false;
    }

    method ChooseLocked(name: Name, reason: Reason, now: int)
      requires Valid()
      modifies this, log
      ensures Valid() && Abs() == Choose(old(Abs()), name, reason, now)
    {
      if name == current { return; }
      log.RecordReason(current, name, reason);
      current, lastSwitch := name, now;
    }

    method EnsureCurrentLocked(available: seq<Name>, now: int)
      requires Valid()
      modifies this, log
      ensures Valid() && Abs() == EnsureCurrent(old(Abs()), available, now)
    {
      if current in available { return; }
      var name, reason := "", NoneRunning;
      if |available| > 0 {
        name, reason := available[0], ByOrder;
        if policy == Priority {
          var found := FirstIn(available, Reliable(states));
          if found.Some? { name, reason := found.value, SkipToReliable; }
        }
      }
      ChooseLocked(name, reason, now);
    }

    method Preferred(available: seq<Name>, now: int) returns (name: Name)
      requires Valid()
      modifies this, log
      ensures Valid() && Abs() == EnsureCurrent(old(Abs()), available, now) && name == current
    {
      EnsureCurrentLocked(available, now);
      name := current;
    }

    /** Results are visited in no particular order: every order gives the same states. */
    method AbsorbLocked(results: map<Name, ProbeResult>, allFailed: bool, now: int)
      modifies this`states
      ensures states == AbsorbAll(old(states), results, allFailed, now)
    {
      var pending := results.Keys;
      while pending != {}
        invariant pending <= results.Keys
        invariant states == map n | n in old(states) ::
                              if n in results && n !in pending then Absorb(old(states)[n], results[n], allFailed, now)
                              else old(states)[n]
      {
        var name :| name in pending;
        pending := pending - {name};
        if name in states {
          var s := AbsorbResult(states[name], results[name], allFailed, now);
          states := states[name := s];
        }
      }
    }

    /** All results are absorbed before anything is compared. */
    method ApplyRound(results: map<Name, ProbeResult>, available: seq<Name>, now: int)
      requires Valid() && Within(available, states.Keys)
      modifies this, log
      ensures Valid() && Abs() == RouteQuality.ApplyRound(old(Abs()), results, available, now)
    {
      if cancelled { return; }
      var allFailed := |available| > 1;
      for i := 0 to |available|
        invariant allFailed <==>
                    (|available| > 1 &&
                     forall j :: 0 <= j < i ==> available[j] in results && results[available[j]].status == Failed)
      {
        if available[i] !in results || results[available[i]].status != Failed { allFailed := false; }
      }
      AbsorbLocked(results, allFailed, now);
      assert allFailed == AllFailed(results, available);
      EnsureCurrentLocked(available, now);
      if current !in states || allFailed { return; }
      if policy == Priority {
        ApplyPriorityLocked(available, now);
      } else {
        ApplyQualityLocked(available, now);
      }
    }

    method ApplyPriorityLocked(available: seq<Name>, now: int)
      requires Valid() && current in states && Within(available, states.Keys)
      modifies this, log
      ensures Valid() && Abs() == ApplyPriority(old(Abs()), available, now)
    {
      var cur := states[current];
      if cur.failures >= 3 {
        var found := FirstIn(available, Reliable(states) - {current});
        if found.Some? {
          FirstInSet(available, Reliable(states) - {current});
          ChooseLocked(found.value, Fault(cur.failures, states[found.value].normals), now);
          return;
        }
      }
      if now - lastSwitch < COOLDOWN { return; }
      for i := 0 to |available|
        invariant Valid() && Abs() == old(Abs())
        invariant current !in available[..i] && forall j :: 0 <= j < i ==> available[j] !in Reliable(states)
        invariant First(Before(available, current), Reliable(states))
               == First(Before(available[i..], current), Reliable(states))
      {
        if available[i] == current { return; }
        if states[available[i]].normals >= 2 {
          ChooseLocked(available[i], Recovery(states[available[i]].normals), now);
          return;
        }
      }
    }

    method ApplyQualityLocked(available: seq<Name>, now: int)
      requires Valid() && current in states && Within(available, states.Keys)
      modifies this, log
      ensures Valid() && Abs() == ApplyQuality(old(Abs()), available, now)
    {
      var cur := states[current];
      if cur.failures >= 3 {
        var found := FirstIn(available, Reliable(states) - {current});
        if found.Some? {
          FirstInSet(available, Reliable(states) - {current});
          ChooseLocked(found.value, Fault(cur.failures, states[found.value].normals), now);
          return;
        }
      }
      if cur.samples < WINDOW || now - lastSwitch < COOLDOWN { return; }
      var best := current;
      for i := 0 to |available|
        invariant best in states
        invariant Best(available, states, current) == Best(available[i..], states, best)
      {
        var s := states[available[i]];
        if s.samples == WINDOW && s.failures == 0 && s.badSamples < states[best].badSamples {
          best := available[i];
        }
      }
      if best != current && cur.badSamples - states[best].badSamples >= 3 {
        ChooseLocked(best, BetterQuality(cur.badSamples, states[best].badSamples), now);
      }
    }

    /** One member of a commit, under the monitor's lock; the lock is free between two members. */
    method RebindLocked(name: Name, svc: Option<Instance>)
      requires name in states
      modifies this`states
      ensures states == RebindOne(old(states), name, svc)
    {
      if states[name].service != svc {
        states := states[name := FreshMember(svc)];
      }
    }

    /** The checking loop of a round's commit: rebinds members in order until one is not the
        instance that was probed, and collects the running ones. */
    method RebindWhileUnchanged(members: seq<Name>, captured: map<Name, Option<Instance>>,
                                services: map<Name, Instance>, running: set<Name>)
      returns (unchangedAll: bool, available: seq<Name>)
      requires Within(members, captured.Keys) && Within(members, states.Keys)
      modifies this`states
      ensures var p := Agreeing(members, captured, services);
              states == Rebind(old(states), ToSet(members[..p]), services) && unchangedAll == (p == |members|)
      ensures unchangedAll ==> available == Filter(members, running * services.Keys)
    {
      available := [];
      for i := 0 to |members|
        invariant states == Rebind(old(states), ToSet(members[..i]), services)
        invariant forall j :: 0 <= j < i ==> captured[members[j]] == Lookup(services, members[j])
        invariant available == Filter(members[..i], running * services.Keys)
      {
        var name := members[i];
        var svc := Lookup(services, name);
        CommitStep(old(states), members, i, services, running * services.Keys);
        if svc != captured[name] {
          AgreeingMeaning(members, captured, services, i);
          return false, available;
        }
        RebindLocked(name, svc);
        if name in running && svc.Some? {
          available := available + [name];
        }
      }
      AgreeingMeaning(members, captured, services, |members|);
      assert members[..|members|] == members;
      return true, available;
    }

    /** The commit half of a round, under the manager's read lock. */
    method CommitRound(members: seq<Name>, captured: map<Name, Option<Instance>>, answers: map<Name, ProbeResult>,
                       services: map<Name, Instance>, running: set<Name>, now: int)
      requires Valid() && Within(members, captured.Keys) && Within(members, states.Keys)
      modifies this, log
      ensures Valid() && Abs() == Commit(old(Abs()), members, captured, answers, services, running, now)
    {
      var unchangedAll, available := RebindWhileUnchanged(members, captured, services, running);
      if !unchangedAll { return; }
      FilterWithin(members, running * services.Keys, states.Keys);
      ApplyRound(answers, available, now);
    }

    method Cancel()
      requires Valid()
      modifies this`cancelled
      ensures Valid() && Abs() == old(Abs()).(cancelled := true)
    {
      cancelled := true;
    }
  }

  lemma CommitStep(states: map<Name, MemberState>, members: seq<Name>, i: nat, services: map<Name, Instance>, keep: set<Name>)
    requires i < |members| && members[i] in states
    ensures var svc := Lookup(services, members[i]);
            var before := Rebind(states, ToSet(members[..i]), services);
            Rebind(states, ToSet(members[..i + 1]), services) ==
              if before[members[i]].service != svc then before[members[i] := FreshMember(svc)] else before
    ensures Filter(members[..i + 1], keep) ==
              Filter(members[..i], keep) + if members[i] in keep then [members[i]] else []
  {
    assert members[..i + 1][..i] == members[..i];
    assert ToSet(members[..i + 1]) == ToSet(members[..i]) + {members[i]};
  }

  method FirstIn(names: seq<Name>, wanted: set<Name>) returns (r: Option<Name>)
    ensures r == First(names, wanted)
  {
    for i := 0 to |names|
      invariant First(names, wanted) == First(names[i..], wanted)
    {
      if names[i] in wanted { return Some(names[i]); }
    }
    return None;
  }

  /** One iteration of the loop over results. */
  method AbsorbResult(s: MemberState, r: ProbeResult, allFailed: bool, now: int) returns (t: MemberState)
    ensures t == Absorb(s, r, allFailed, now)
  {
    t := s.(shown := Probed(r.status), durationMs := r.durationMs, err := r.err,
            connectivity := r.connectivity, probedAt := now);
    if r.status == Failed {
      t := t.(normals := 0);
      if allFailed && r.connectivity == "ok" {
        t := t.(failures := 0);
      } else {
        t := t.(failures := t.failures + 1);
      }
    } else {
      t := t.(failures := 0);
      if r.status == Normal {
        t := t.(normals := t.normals + 1);
      } else {
        t := t.(normals := 0);
      }
    }
    if allFailed { return t.(shown := CommonFailure); }
    t := t.(window := t.window + [r.status != Normal]);
    if |t.window| > WINDOW {
      t := t.(window := t.window[1..]);
    }
    var bad := CountBad(t.window);
    t := t.(samples := |t.window|, badSamples := bad);
  }
}
