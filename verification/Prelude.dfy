/** Small vocabulary shared by the models: optional values and facts about sequences. */
module Prelude {

  datatype Option<+T> = None | Some(value: T)

  /** The last n elements of s, or all of s when it is shorter. */
  function LastN<T>(n: nat, s: seq<T>): seq<T> {
    if |s| <= n then s else s[|s| - n..]
  }

  function CountTrue(s: seq<bool>): nat {
    if s == [] then 0
    else CountTrue(s[..|s| - 1]) + (if s[|s| - 1] then 1 else 0)
  }

  /** How many elements at the end of s are true without interruption. */
  function TrailingRun(s: seq<bool>): nat {
    if s == [] || !s[|s| - 1] then 0 else 1 + TrailingRun(s[..|s| - 1])
  }

  /** TrailingRun is the length of the longest all-true suffix. */
  lemma {:induction false} TrailingRunIsLongestSuffix(s: seq<bool>)
    ensures TrailingRun(s) <= |s|
    ensures forall j :: |s| - TrailingRun(s) <= j < |s| ==> s[j]
    ensures TrailingRun(s) < |s| ==> !s[|s| - 1 - TrailingRun(s)]
  {
    if s == [] || !s[|s| - 1] {
    } else {
      TrailingRunIsLongestSuffix(s[..|s| - 1]);
    }
  }

  /** A trailing run is at least k long exactly when the last k elements are all true. */
  lemma TrailingRunAtLeast(s: seq<bool>, k: nat)
    ensures TrailingRun(s) >= k <==> k <= |s| && forall j :: |s| - k <= j < |s| ==> s[j]
  {
    TrailingRunIsLongestSuffix(s);
  }

  /** CountTrue is the number of places that are true. */
  lemma {:induction false} CountTrueIsCount(s: seq<bool>)
    ensures CountTrue(s) == |set i | 0 <= i < |s| && s[i]|
  {
    if s != [] {
      var init := s[..|s| - 1];
      CountTrueIsCount(init);
      var before, all := set i | 0 <= i < |init| && init[i], set i | 0 <= i < |s| && s[i];
      assert all == before + if s[|s| - 1] then {|s| - 1} else {};
    }
  }

  /** LastN takes a whole end of the sequence, of the wanted length if there is that much. */
  lemma LastNIsEnd<T>(n: nat, s: seq<T>)
    ensures |LastN(n, s)| == (if |s| < n then |s| else n)
    ensures forall j :: 0 <= j < |LastN(n, s)| ==> LastN(n, s)[j] == s[|s| - |LastN(n, s)| + j]
  {
  }

  lemma {:induction false} CountTrueDropFirst(s: seq<bool>)
    requires s != []
    ensures CountTrue(s) == (if s[0] then 1 else 0) + CountTrue(s[1..])
  {
    if |s| > 1 {
      CountTrueDropFirst(s[..|s| - 1]);
      assert s[..|s| - 1][1..] == s[1..][..|s| - 2];
    }
  }

  function ToSet<T>(s: seq<T>): set<T> {
    set x | x in s
  }

  ghost predicate Distinct<T(!new)>(s: seq<T>) {
    forall i, j :: 0 <= i < j < |s| ==> s[i] != s[j]
  }

  /** The elements of s that belong to keep, in their order. */
  function Filter<T(==)>(s: seq<T>, keep: set<T>): seq<T> {
    if s == [] then []
    else Filter(s[..|s| - 1], keep) + (if s[|s| - 1] in keep then [s[|s| - 1]] else [])
  }

  lemma {:induction false} FilterMembers<T>(s: seq<T>, keep: set<T>)
    ensures forall x :: x in Filter(s, keep) <==> x in s && x in keep
  {
    if s != [] {
      FilterMembers(s[..|s| - 1], keep);
      assert s == s[..|s| - 1] + [s[|s| - 1]];
    }
  }

  /** When the first element is kept it is still first. */
  lemma {:induction false} FilterKeepsFirst<T>(s: seq<T>, keep: set<T>)
    requires s != [] && s[0] in keep
    ensures Filter(s, keep) != [] && Filter(s, keep)[0] == s[0]
  {
    if |s| > 1 { FilterKeepsFirst(s[..|s| - 1], keep); }
  }

  ghost predicate Increasing(idx: seq<nat>) {
    forall i, j :: 0 <= i < j < |idx| ==> idx[i] < idx[j]
  }

  /** Filter takes exactly the elements in keep, each at its place: idx are the places, in order. */
  lemma {:induction false} FilterIsSubsequence<T>(s: seq<T>, keep: set<T>) returns (idx: seq<nat>)
    ensures |idx| == |Filter(s, keep)| && Increasing(idx)
    ensures forall j :: 0 <= j < |idx| ==> idx[j] < |s| && s[idx[j]] == Filter(s, keep)[j]
    ensures forall k :: 0 <= k < |s| ==> (k in idx <==> s[k] in keep)
  {
    idx := [];
    if s != [] {
      var n := |s| - 1;
      var before := FilterIsSubsequence(s[..n], keep);
      idx := before + if s[n] in keep then [n] else [];
      assert forall k :: 0 <= k < n ==> (k in before <==> s[..n][k] in keep);
      forall k | 0 <= k < |s| ensures k in idx <==> s[k] in keep {
        if k < n { assert s[..n][k] == s[k]; } else { assert n !in before; }
      }
    }
  }
}
