/** When a committed round moves the preferred member, and where to: both directions. */
module RouteLegality {
  import opened Prelude
  import opened RouteQuality

  /** Fault switch: x has failed three times in a row and y is the first other member that was normal at
      least twice in a row. */
  ghost predicate FaultTo(s: map<Name, MemberState>, available: seq<Name>, x: Name, y: Name)
    requires x in s
  {
    s[x].failures >= 3 && IsFirst(available, (set n | n in s && n != x && s[n].normals >= 2), y)
  }

  /** Recovery: y is the first member that was normal at least twice in a row, and stands before x. */
  ghost predicate RecoveryTo(s: map<Name, MemberState>, available: seq<Name>, x: Name, y: Name) {
    exists i :: 0 <= i < |available| && available[i] == y && y in s && s[y].normals >= 2 &&
                forall j :: 0 <= j <= i ==>
                  available[j] != x && (j < i && available[j] in s ==> s[available[j]].normals < 2)
  }

  /** Quality switch: full windows, y has no current failure, is at least three better than x, no other
      member with a full window and no failure is better than y and no earlier one is as good. */
  ghost predicate QualityTo(s: map<Name, MemberState>, available: seq<Name>, x: Name, y: Name)
    requires x in s && Within(available, s.Keys)
  {
    y in available && s[x].samples >= 20 && s[y].samples == 20 && s[y].failures == 0 &&
    s[x].badSamples - s[y].badSamples >= 3 && IsBest(s, available, y)
  }

  ghost predicate IsBest(s: map<Name, MemberState>, available: seq<Name>, y: Name)
    requires Within(available, s.Keys)
  {
    exists i :: 0 <= i < |available| && available[i] == y &&
      forall j :: 0 <= j < |available| && s[available[j]].samples == 20 && s[available[j]].failures == 0 ==>
        s[y].badSamples <= s[available[j]].badSamples && (j < i ==> s[y].badSamples < s[available[j]].badSamples)
  }

  lemma {:induction false} BeforeIsPrefix(names: seq<Name>, x: Name)
    ensures |Before(names, x)| <= |names| && Before(names, x) == names[..|Before(names, x)|]
    ensures x !in Before(names, x)
    ensures |Before(names, x)| < |names| ==> names[|Before(names, x)|] == x
  {
    if names != [] && names[0] != x { BeforeIsPrefix(names[1..], x); }
  }

  lemma RecoveryMeaning(s: map<Name, MemberState>, available: seq<Name>, x: Name, y: Name)
    ensures First(Before(available, x), Reliable(s)) == Some(y) <==> RecoveryTo(s, available, x, y)
  {
    var before := Before(available, x);
    BeforeIsPrefix(available, x);
    FirstMeaning(before, Reliable(s), y);
    hide First, Before;
    if IsFirst(before, Reliable(s), y) {
      var i :| 0 <= i < |before| && before[i] == y && forall j :: 0 <= j < i ==> before[j] !in Reliable(s);
      assert forall j :: 0 <= j <= i ==> available[j] == before[j] && before[j] in before;
    }
    if RecoveryTo(s, available, x, y) {
      var i :| 0 <= i < |available| && available[i] == y && y in s && s[y].normals >= 2 &&
               forall j :: 0 <= j <= i ==>
                 available[j] != x && (j < i && available[j] in s ==> s[available[j]].normals < 2);
      assert i < |before|;
      assert before[i] == y;
      assert forall j :: 0 <= j < i ==> before[j] == available[j];
    }
  }

  /** The scan keeps its start unless something eligible is strictly better; then it ends on the
      first of the best. */
  lemma {:induction false} BestMeaning(names: seq<Name>, s: map<Name, MemberState>, start: Name)
    requires start in s && Within(names, s.Keys)
    ensures var b := Best(names, s, start);
            s[b].badSamples <= s[start].badSamples &&
            (forall j :: 0 <= j < |names| && Eligible(s[names[j]]) ==> s[b].badSamples <= s[names[j]].badSamples) &&
            (b != start ==>
              s[b].badSamples < s[start].badSamples &&
              exists i :: 0 <= i < |names| && names[i] == b && Eligible(s[b]) &&
                          forall j :: 0 <= j < i && Eligible(s[names[j]]) ==> s[b].badSamples < s[names[j]].badSamples)
  {
    if names != [] {
      var c := names[0];
      var next := if Eligible(s[c]) && s[c].badSamples < s[start].badSamples then c else start;
      BestMeaning(names[1..], s, next);
      var b := Best(names, s, start);
      forall j | 0 <= j < |names| && Eligible(s[names[j]]) ensures s[b].badSamples <= s[names[j]].badSamples {
        if j > 0 { assert names[1..][j - 1] == names[j]; }
      }
      if b != start {
        if b == next {
          assert names[0] == b;
        } else {
          var i :| 0 <= i < |names| - 1 && names[1..][i] == b &&
            forall j :: 0 <= j < i && Eligible(s[names[1..][j]]) ==> s[b].badSamples < s[names[1..][j]].badSamples;
          assert names[i + 1] == b;
          forall j | 0 <= j < i + 1 && Eligible(s[names[j]]) ensures s[b].badSamples < s[names[j]].badSamples {
            if j > 0 { assert names[1..][j - 1] == names[j]; }
          }
        }
      }
    }
  }

  lemma QualityMeaning(s: map<Name, MemberState>, available: seq<Name>, x: Name, y: Name)
    requires x in s && x in available && y != x && (Within(available, s.Keys))
    requires s[x].samples >= WINDOW
    ensures Best(available, s, x) == y && s[x].badSamples - s[y].badSamples >= 3 <==> QualityTo(s, available, x, y)
  {
    BestMeaning(available, s, x);
    var b := Best(available, s, x);
    if QualityTo(s, available, x, y) {
      var k :| 0 <= k < |available| && available[k] == y &&
        forall j :: 0 <= j < |available| && Eligible(s[available[j]]) ==>
          s[y].badSamples <= s[available[j]].badSamples && (j < k ==> s[y].badSamples < s[available[j]].badSamples);
      assert b != x;
      var i :| 0 <= i < |available| && available[i] == b && Eligible(s[b]) &&
        forall j :: 0 <= j < i && Eligible(s[available[j]]) ==> s[b].badSamples < s[available[j]].badSamples;
      assert i == k;
    }
  }

  /** What justifies leaving x for y in one committed round; s is the states after absorbing it. */
  ghost predicate Justified(q: Monitor, s: map<Name, MemberState>, available: seq<Name>, now: int, y: Name)
    requires q.current in s && Within(available, s.Keys)
  {
    var x := q.current;
    || FaultTo(s, available, x, y)
    || (&& (forall z :: !FaultTo(s, available, x, z))
        && now - q.lastSwitch >= 60_000_000_000  // nanoseconds
        && if q.policy == Priority then RecoveryTo(s, available, x, y) else QualityTo(s, available, x, y))
  }

  lemma FaultMeaning(q: Monitor, available: seq<Name>, y: Name)
    requires q.current in q.states
    ensures FaultTarget(q, available) == Some(y) <==> FaultTo(q.states, available, q.current, y)
    ensures FaultTarget(q, available) == None <==> forall z :: !FaultTo(q.states, available, q.current, z)
  {
    var s, x := q.states, q.current;
    var others := set n | n in s && n != x && s[n].normals >= 2;
    assert others == Reliable(s) - {x};
    FirstMeaning(available, others, y);
    if s[x].failures >= 3 && First(available, others).Some? {
      FirstMeaning(available, others, First(available, others).value);
      assert FaultTo(s, available, x, First(available, others).value);
    }
    forall z | First(available, others) == None ensures !FaultTo(s, available, x, z) { FirstMeaning(available, others, z); }
  }

  /** The policies, applied to a monitor whose current member is available. */
  lemma PolicyLegality(q: Monitor, available: seq<Name>, now: int, y: Name)
    requires q.current in q.states && q.current in available && Within(available, q.states.Keys) && y != q.current
    ensures var q' := if q.policy == Priority then ApplyPriority(q, available, now) else ApplyQuality(q, available, now);
            q'.current == y <==> Justified(q, q.states, available, now, y)
  {
    var s, x := q.states, q.current;
    FaultMeaning(q, available, y);
    RecoveryMeaning(s, available, x, y);
    if q.policy == Quality && s[x].samples >= WINDOW { QualityMeaning(s, available, x, y); }
    hide FaultTo, RecoveryTo, First, Before, Best, FaultTarget, IsFirst, IsBest, Reliable;
    var fault := FaultTarget(q, available);
    if fault.Some? { FaultFound(q, available); }
  }

  lemma FaultFound(q: Monitor, available: seq<Name>)
    requires q.current in q.states && FaultTarget(q, available).Some?
    ensures FaultTo(q.states, available, q.current, FaultTarget(q, available).value)
    ensures FaultTarget(q, available).value != q.current
  {
    FaultMeaning(q, available, FaultTarget(q, available).value);
    FirstInSet(available, Reliable(q.states) - {q.current});
  }

  /** While the current member is still available, a round leaves it for y exactly when the round is
      committed, not a common failure, and the switch is justified. */
  lemma SwitchLegality(q: Monitor, results: map<Name, ProbeResult>, available: seq<Name>, now: int, y: Name)
    requires Within(available, q.states.Keys)
    requires q.current in available && y != q.current
    ensures var s := AbsorbAll(q.states, results, AllFailed(results, available), now);
            ApplyRound(q, results, available, now).current == y <==>
              !q.cancelled && !AllFailed(results, available) && Justified(q, s, available, now, y)
  {
    var s := AbsorbAll(q.states, results, AllFailed(results, available), now);
    hide FaultTo, RecoveryTo, QualityTo, ApplyPriority, ApplyQuality, Absorb, AllFailed;
    PolicyLegality(q.(states := s), available, now, y);
  }

  /** A round changes the current member and the switch bookkeeping together, or not at all. */
  lemma SwitchBookkeeping(q: Monitor, results: map<Name, ProbeResult>, available: seq<Name>, now: int)
    requires Within(available, q.states.Keys)
    requires q.current in available
    ensures var q' := ApplyRound(q, results, available, now);
            if q'.current == q.current then q'.lastSwitch == q.lastSwitch && q'.switches == q.switches
            else q'.lastSwitch == now && |q'.switches| == |q.switches| + 1 && q.switches == q'.switches[..|q.switches|]
                 && q'.switches[|q.switches|].from == q.current && q'.switches[|q.switches|].to == q'.current
  {
  }

  /** The event of such a switch tells why, with the counts of the moment. */
  lemma SwitchReason(q: Monitor, results: map<Name, ProbeResult>, available: seq<Name>, now: int)
    requires Within(available, q.states.Keys) && q.current in available
    ensures var q', s := ApplyRound(q, results, available, now), AbsorbAll(q.states, results, AllFailed(results, available), now);
            var x, y := q.current, q'.current;
            y != x ==>
              x in s && y in s && |q'.switches| == |q.switches| + 1 &&
              q'.switches[|q.switches|].reason ==
                if FaultTo(s, available, x, y) then Fault(s[x].failures, s[y].normals)
                else if q.policy == Priority then Recovery(s[y].normals)
                else BetterQuality(s[x].badSamples, s[y].badSamples)
  {
    var q', s := ApplyRound(q, results, available, now), AbsorbAll(q.states, results, AllFailed(results, available), now);
    var x, y := q.current, q'.current;
    if y != x {
      SwitchLegality(q, results, available, now, y);
      assert (set n | n in s && n != x && s[n].normals >= 2) == Reliable(s) - {x};
      FirstMeaning(available, Reliable(s) - {x}, y);
      RecoveryMeaning(s, available, x, y);
      hide AbsorbAll, AllFailed, First, Before, Best;
    }
  }

  /** Repairing the preference: while the current member is available nothing happens; otherwise, under the
      priority policy, the first available member that was normal at least twice in a row is preferred, and
      if there is none, or under the other policy, the first available member, and nobody when none is. */
  lemma RepairChoice(q: Monitor, available: seq<Name>, now: int, y: Name)
    ensures q.current in available ==> EnsureCurrent(q, available, now) == q
    ensures q.current !in available ==>
              (EnsureCurrent(q, available, now).current == y <==>
                 if available == [] then y == ""
                 else if q.policy == Priority && exists n :: n in available && n in q.states && q.states[n].normals >= 2
                 then IsFirst(available, (set n | n in q.states && q.states[n].normals >= 2), y)
                 else y == available[0])
  {
    var twice := set n | n in q.states && q.states[n].normals >= 2;
    assert twice == Reliable(q.states);
    FirstMeaning(available, twice, y);
    var first := First(available, twice);
    if first.Some? { FirstMeaning(available, twice, first.value); }
  }

  /** And it is told: a change of preference is one event with the time and a reason of its own. */
  lemma RepairReason(q: Monitor, available: seq<Name>, now: int)
    ensures var q' := EnsureCurrent(q, available, now);
            q'.states == q.states && q'.policy == q.policy && q'.cancelled == q.cancelled &&
            if q'.current == q.current then q' == q
            else
              q'.lastSwitch == now && |q'.switches| == |q.switches| + 1 && q'.switches[..|q.switches|] == q.switches &&
              q'.switches[|q.switches|] == SwitchEvent(q.current, q'.current,
                if available == [] then NoneRunning
                else if q.policy == Priority && q'.current in q.states && q.states[q'.current].normals >= 2
                then SkipToReliable else ByOrder)
  {
    var first := First(available, Reliable(q.states));
    if first.Some? { FirstInSet(available, Reliable(q.states)); }
    if available != [] { FirstMeaning(available, Reliable(q.states), available[0]); }
  }

  /** A round that finds the preferred member gone repairs the preference first, which restarts the cooldown:
      what it prefers in the end is the member the repair chose, unless that one has failed three times in a
      row and the round is no common failure; then it is the fault switch from there. */
  lemma RepairedRound(q: Monitor, results: map<Name, ProbeResult>, available: seq<Name>, now: int, y: Name)
    requires Within(available, q.states.Keys) && !q.cancelled
    requires q.current !in available && available != []
    ensures var s := AbsorbAll(q.states, results, AllFailed(results, available), now);
            var mid := EnsureCurrent(q.(states := s), available, now).current;
            mid in available && mid in s &&
            (y != mid ==>
               (ApplyRound(q, results, available, now).current == y <==>
                  !AllFailed(results, available) && FaultTo(s, available, mid, y)))
  {
    var s := AbsorbAll(q.states, results, AllFailed(results, available), now);
    var mid := EnsureCurrent(q.(states := s), available, now);
    FirstInSet(available, Reliable(s));
    assert mid.states == s && mid.policy == q.policy && mid.lastSwitch == now && mid.current in available;
    hide FaultTo, RecoveryTo, QualityTo, ApplyPriority, ApplyQuality, AbsorbAll, AllFailed, First, Reliable;
    if y != mid.current { PolicyLegality(mid, available, now, y); }
  }

  /** What a common failure is: at least two members are available, and every one of them failed. */
  lemma AllFailedMeaning(results: map<Name, ProbeResult>, available: seq<Name>)
    ensures AllFailed(results, available) <==>
              |available| >= 2 && forall n :: n in available ==> n in results && results[n].status == Failed
  {
    if AllFailed(results, available) {
      forall n | n in available ensures n in results && results[n].status == Failed {
        var i :| 0 <= i < |available| && available[i] == n;
      }
    }
  }
}
