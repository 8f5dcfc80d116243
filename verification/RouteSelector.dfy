/** The shared selector (tun/route_selector.go): which members are tried, and in what order. */
module RouteSelector {
  import opened Prelude
  import opened RouteQuality
  import opened RouteMonitor

  datatype Service = Service(name: Name, disabled: bool, status: string, down: bool)

  predicate MemberRunning(s: Service) {
    !s.disabled && s.status == "running"
  }

  predicate MemberAlive(s: Service) {
    !s.disabled && s.status == "running" && !s.down
  }

  predicate MayBeUsed(s: Service, fullPath: bool) {
    if fullPath then MemberRunning(s) else MemberAlive(s)
  }

  /** Of the services found, those that may be used, in their order. */
  function Usable(found: seq<Option<Service>>, fullPath: bool): (r: seq<Service>)
    ensures forall i :: 0 <= i < |r| ==> Some(r[i]) in found && MayBeUsed(r[i], fullPath)
  {
    if found == [] then []
    else
      var last := found[|found| - 1];
      Usable(found[..|found| - 1], fullPath) + if last.Some? && MayBeUsed(last.value, fullPath) then [last.value] else []
  }

  /** The service is enabled, running and, without full-path probing, not down. */
  ghost predicate Fit(o: Option<Service>, fullPath: bool) {
    o.Some? && !o.value.disabled && o.value.status == "running" && (fullPath || !o.value.down)
  }

  /** r is exactly the fit services found, in their order: idx are their places. */
  ghost predicate Picks(found: seq<Option<Service>>, fullPath: bool, r: seq<Service>, idx: seq<nat>) {
    && |idx| == |r| && Increasing(idx)
    && (forall j :: 0 <= j < |idx| ==> idx[j] < |found| && found[idx[j]] == Some(r[j]))
    && (forall k :: 0 <= k < |found| ==> (k in idx <==> Fit(found[k], fullPath)))
  }

  lemma PicksSnoc(found: seq<Option<Service>>, last: Option<Service>, fullPath: bool, r: seq<Service>, idx: seq<nat>)
    requires Picks(found, fullPath, r, idx)
    ensures if Fit(last, fullPath) then Picks(found + [last], fullPath, r + [last.value], idx + [|found|])
            else Picks(found + [last], fullPath, r, idx)
  {
    assert forall k :: 0 <= k < |found| ==> (found + [last])[k] == found[k];
    assert |found| !in idx;
    if Fit(last, fullPath) {
      var idx' := idx + [|found|];
      assert |found| == idx'[|idx|];
      forall k | 0 <= k < |found| ensures k in idx' <==> Fit(found[k], fullPath) {
        if k in idx { var j :| 0 <= j < |idx| && idx[j] == k; assert idx'[j] == k; }
      }
    }
  }

  lemma {:induction false} UsableIsSubsequence(found: seq<Option<Service>>, fullPath: bool) returns (idx: seq<nat>)
    ensures Picks(found, fullPath, Usable(found, fullPath), idx)
  {
    idx := [];
    if found != [] {
      var n := |found| - 1;
      idx := UsableIsSubsequence(found[..n], fullPath);
      hide Picks;
      PicksSnoc(found[..n], found[n], fullPath, Usable(found[..n], fullPath), idx);
      assert found[..n] + [found[n]] == found;
      if Fit(found[n], fullPath) { idx := idx + [n]; }
    }
  }

  function Names(ss: seq<Service>): (r: seq<Name>)
    ensures |r| == |ss| && forall i :: 0 <= i < |ss| ==> r[i] == ss[i].name
  {
    seq(|ss|, i requires 0 <= i < |ss| => ss[i].name)
  }

  /** ss with its i-th element moved to the front and the order of the others kept. */
  function MovedToFront<T>(ss: seq<T>, i: nat): seq<T>
    requires i < |ss|
  {
    [ss[i]] + ss[..i] + ss[i + 1..]
  }

  /** out is usable with the first service of that name, which exists unless there are none, in front. */
  ghost predicate Promoted(usable: seq<Service>, name: Name, out: seq<Service>) {
    if usable == [] then out == []
    else exists i :: 0 <= i < |usable| && usable[i].name == name && out == MovedToFront(usable, i) &&
                     forall j :: 0 <= j < i ==> usable[j].name != name
  }

  lemma MovedToFrontPermutes<T>(ss: seq<T>, i: nat)
    requires i < |ss|
    ensures multiset(MovedToFront(ss, i)) == multiset(ss)
  {
    assert ss == ss[..i] + [ss[i]] + ss[i + 1..];
  }

  /** The i-th element comes first, and all others keep their order. */
  lemma MovedToFrontKeepsOrder<T>(ss: seq<T>, i: nat)
    requires i < |ss|
    ensures |MovedToFront(ss, i)| == |ss| && MovedToFront(ss, i)[0] == ss[i]
    ensures forall j :: 0 <= j < |ss| && j != i ==> MovedToFront(ss, i)[if j < i then j + 1 else j] == ss[j]
  {
  }

  /** The one in front has the name, and is the first that does; the others follow in their order. */
  lemma PromotedMeaning(usable: seq<Service>, name: Name, out: seq<Service>)
    requires Promoted(usable, name, out) && usable != []
    ensures out != [] && out[0].name == name
    ensures exists i :: 0 <= i < |usable| && usable[i] == out[0] && out[1..] == usable[..i] + usable[i + 1..] &&
                        forall j :: 0 <= j < i ==> usable[j].name != name
  {
    var i :| 0 <= i < |usable| && usable[i].name == name && out == MovedToFront(usable, i) &&
             forall j :: 0 <= j < i ==> usable[j].name != name;
    assert out[1..] == usable[..i] + usable[i + 1..];
  }

  /** The overlapping in-place copy that moves element i to the front. */
  method RotateToFront<T>(a: array<T>, i: nat)
    requires i < a.Length
    modifies a
    ensures a[..] == MovedToFront(old(a[..]), i)
  {
    var chosen := a[i];
    forall k | 1 <= k <= i { a[k] := a[k - 1]; }
    a[0] := chosen;
  }

  /** With some member available the monitor's choice is one of them. */
  lemma PreferredIsAvailable(q: Monitor, available: seq<Name>, now: int)
    requires available != []
    ensures EnsureCurrent(q, available, now).current in available
  {
    FirstInSet(available, Reliable(q.states));
  }

  class RouteSelector {
    const members: seq<Name>
    const quality: RouteQualityMonitor?

    constructor (members: seq<Name>, quality: RouteQualityMonitor?)
      ensures this.members == members && this.quality == quality
    {
      this.members, this.quality := members, quality;
    }

    /** The usable members; under full-path probing the monitor's choice, which is always one of them,
        stands first and the others follow in priority order. Members are looked up one by one, so what
        is found may come from different moments. */
    method Candidates(found: seq<Option<Service>>, now: int) returns (out: array<Service>)
      requires |found| == |members| && (quality != null ==> quality.Valid())
      modifies if quality != null then {quality, quality.log} else {}
      ensures quality == null ==> out[..] == Usable(found, false)
      ensures quality != null ==>
                quality.Valid() &&
                quality.Abs() == EnsureCurrent(old(quality.Abs()), Names(Usable(found, true)), now) &&
                Promoted(Usable(found, true), quality.current, out[..])
      ensures fresh(out)
    {
      var kept: seq<Service> := [];
      for i := 0 to |members|
        invariant kept == Usable(found[..i], quality != null)
      {
        assert found[..i + 1][..i] == found[..i];
        if found[i].Some? && MayBeUsed(found[i].value, quality != null) {
          kept := kept + [found[i].value];
        }
      }
      assert found[..|members|] == found;
      out := new Service[|kept|](i requires 0 <= i < |kept| => kept[i]);
      assert out[..] == kept;
      if quality != null {
        var preferred := quality.Preferred(Names(kept), now);
        if kept != [] { PreferredIsAvailable(old(quality.Abs()), Names(kept), now); }
        var i := 0;
        while i < out.Length
          invariant 0 <= i <= out.Length && out[..] == kept
          invariant forall j :: 0 <= j < i ==> kept[j].name != preferred
        {
          if out[i].name == preferred {
            RotateToFront(out, i);
            return;
          }
          i := i + 1;
        }
      }
    }

    /** Candidates are tried in order until one succeeds; the k-th call of fn is told that it is the k-th.
        Without a success all are tried and the last error any of them gave is returned. */
    method TryForward(found: seq<Option<Service>>, now: int, fn: (nat, Service) -> Attempt)
      returns (err: Option<ForwardError>, ghost candidates: seq<Service>, ghost tried: nat)
      requires |found| == |members| && (quality != null ==> quality.Valid())
      modifies if quality != null then {quality, quality.log} else {}
      ensures quality == null ==> candidates == Usable(found, false)
      ensures quality != null ==>
                quality.Valid() &&
                quality.Abs() == EnsureCurrent(old(quality.Abs()), Names(Usable(found, true)), now) &&
                Promoted(Usable(found, true), quality.current, candidates)
      ensures Forwarded(candidates, fn, tried, err)
    {
      hide Usable, Names, Promoted, EnsureCurrent, Forwarded;
      var out := Candidates(found, now);
      candidates := out[..];
      err, tried := TryEach(out[..], fn);
    }
  }

  method TryEach(candidates: seq<Service>, fn: (nat, Service) -> Attempt)
    returns (err: Option<ForwardError>, ghost tried: nat)
    ensures Forwarded(candidates, fn, tried, err)
  {
    tried := 0;
    if candidates == [] { return Some(NoMember), 0; }
    var last: Option<string> := None;
    for k := 0 to |candidates|
      invariant tried == k
      invariant forall j :: 0 <= j < k ==> !fn(j, candidates[j]).ok
      invariant LastError(candidates, fn, k, last)
    {
      var attempt := fn(k, candidates[k]);
      tried := k + 1;
      if attempt.ok { return None, tried; }
      if attempt.err.Some? { last := attempt.err; }
    }
    err := Some(AllFailed(last));
  }

  datatype Attempt = Attempt(ok: bool, err: Option<string>)

  /** AllFailed wraps the last error; without any it carries a fixed text instead. */
  datatype ForwardError = NoMember | AllFailed(last: Option<string>)

  /** last is the latest error among the first k attempts, None when none of them gave one. */
  ghost predicate LastError(candidates: seq<Service>, fn: (nat, Service) -> Attempt, k: nat, last: Option<string>)
    requires k <= |candidates|
  {
    if last == None then forall j :: 0 <= j < k ==> fn(j, candidates[j]).err == None
    else exists i :: 0 <= i < k && fn(i, candidates[i]).err == last &&
                     forall j :: i < j < k ==> fn(j, candidates[j]).err == None
  }

  /** All attempts before the last one tried failed; the last one succeeded, or there is an error and
      every candidate was tried. */
  ghost predicate Forwarded(candidates: seq<Service>, fn: (nat, Service) -> Attempt, tried: nat, err: Option<ForwardError>) {
    && tried <= |candidates|
    && (forall j :: 0 <= j < tried - 1 ==> !fn(j, candidates[j]).ok)
    && match err
       case None => tried > 0 && fn(tried - 1, candidates[tried - 1]).ok
       case Some(NoMember) => candidates == []
       case Some(AllFailed(last)) =>
         && tried == |candidates| > 0 && !fn(tried - 1, candidates[tried - 1]).ok
         && LastError(candidates, fn, tried, last)
  }
}
