/** The login challenges of admin/route/auth.go: a table of single-use tokens that expire. */
module Challenges {
  const TTL := 120

  type Id = string

  datatype Entry = Entry(user: string, expires: int)

  datatype Payload = Payload(id: Id, user: string, issued: int, expires: int)

  /** What a client presents: text of the wrong shape, a body that is no payload, or a payload, with the
      verdict of the signature check. */
  datatype Nonce = Malformed | Unreadable | Nonce(payload: Payload, signed: bool)

  datatype Event =
    | Issue(now: int, id: Id, user: string)
    | Consume(now: int, user: string, nonce: Nonce)
    | Restart(now: int)

  function Prune(t: map<Id, Entry>, now: int): map<Id, Entry> {
    map id | id in t && t[id].expires > now :: t[id]
  }

  function PayloadOf(e: Event): Payload
    requires e.Issue?
  {
    Payload(e.id, e.user, e.now, e.now + TTL)
  }

  /** The checks on the payload alone, in front of the table. */
  predicate Plausible(user: string, nonce: Nonce, now: int) {
    && nonce.Nonce? && nonce.signed
    && nonce.payload.user == user && nonce.payload.issued <= now < nonce.payload.expires && nonce.payload.id != ""
  }

  predicate Accepted(t: map<Id, Entry>, e: Event) {
    && e.Consume? && Plausible(e.user, e.nonce, e.now)
    && e.nonce.payload.id in t && t[e.nonce.payload.id].user == e.user && t[e.nonce.payload.id].expires > e.now
  }

  function Step(t: map<Id, Entry>, e: Event): map<Id, Entry> {
    match e
    case Issue(now, id, user) => Prune(t, now)[id := Entry(user, now + TTL)]
    case Consume(now, user, nonce) =>
      if nonce.Malformed? then t
      else if Plausible(user, nonce, now) then Prune(t, now) - {nonce.payload.id}
      else Prune(t, now)
    case Restart(_) => map[]
  }

  ghost predicate Run(ts: seq<map<Id, Entry>>, es: seq<Event>) {
    && |ts| == |es| + 1
    && ts[0] == map[]
    && forall k :: 0 <= k < |es| ==> ts[k + 1] == Step(ts[k], es[k])
  }

  /** Identifiers are random: never empty, never drawn twice. */
  ghost predicate Fresh(es: seq<Event>) {
    && (forall i :: 0 <= i < |es| && es[i].Issue? ==> es[i].id != "")
    && forall i, j :: 0 <= i < j < |es| && es[i].Issue? && es[j].Issue? ==> es[i].id != es[j].id
  }

  /** Only payloads the manager issued carry a good signature. */
  ghost predicate Honest(es: seq<Event>) {
    forall k :: 0 <= k < |es| && es[k].Consume? && es[k].nonce.Nonce? && es[k].nonce.signed ==>
      exists i :: 0 <= i < k && es[i].Issue? && PayloadOf(es[i]) == es[k].nonce.payload
  }

  ghost predicate Redeems(ts: seq<map<Id, Entry>>, es: seq<Event>, k: nat, id: Id)
    requires Run(ts, es)
  {
    k < |es| && Accepted(ts[k], es[k]) && es[k].nonce.payload.id == id
  }

  lemma {:induction false} UnknownBeforeIssue(ts: seq<map<Id, Entry>>, es: seq<Event>, k: nat, id: Id)
    requires Run(ts, es) && k <= |es|
    requires forall i :: 0 <= i < k && es[i].Issue? ==> es[i].id != id
    ensures id !in ts[k]
  {
    if k > 0 {
      UnknownBeforeIssue(ts, es, k - 1, id);
      assert ts[k] == Step(ts[k - 1], es[k - 1]);
    }
  }

  /** Once gone, an identifier never comes back. */
  lemma {:induction false} GoneForGood(ts: seq<map<Id, Entry>>, es: seq<Event>, i: nat, j: nat, k: nat)
    requires Run(ts, es) && Fresh(es) && i < j <= k <= |es| && es[i].Issue? && es[i].id !in ts[j]
    ensures es[i].id !in ts[k]
    decreases k - j
  {
    if j < k {
      assert ts[j + 1] == Step(ts[j], es[j]);
      GoneForGood(ts, es, i, j + 1, k);
    }
  }

  /** Whatever clients present and whatever the clock does, no challenge is accepted twice. */
  lemma SingleUse(ts: seq<map<Id, Entry>>, es: seq<Event>, j: nat, k: nat, id: Id)
    requires Run(ts, es) && Fresh(es) && j < k && Redeems(ts, es, j, id)
    ensures !Redeems(ts, es, k, id)
  {
    if forall i :: 0 <= i < j && es[i].Issue? ==> es[i].id != id {
      UnknownBeforeIssue(ts, es, j, id);
    } else if k < |es| {
      var i :| 0 <= i < j && es[i].Issue? && es[i].id == id;
      assert ts[j + 1] == Step(ts[j], es[j]);
      GoneForGood(ts, es, i, j + 1, k);
    }
  }

  /** Between issue i and event k: no restart and no redemption. */
  ghost predicate Unspent(ts: seq<map<Id, Entry>>, es: seq<Event>, i: nat, k: nat)
    requires Run(ts, es) && i < k <= |es| && es[i].Issue?
  {
    forall j :: i < j < k ==> !es[j].Restart? && !Redeems(ts, es, j, es[i].id)
  }

  /** While the lifetime lasts, the table holds exactly the unspent challenges. */
  lemma {:induction false} TableTracks(ts: seq<map<Id, Entry>>, es: seq<Event>, i: nat, k: nat)
    requires Run(ts, es) && Fresh(es) && Honest(es) && i < k <= |es| && es[i].Issue?
    requires forall j :: i < j < k ==> es[j].now < es[i].now + 120
    ensures es[i].id in ts[k] <==> Unspent(ts, es, i, k)
    ensures es[i].id in ts[k] ==> ts[k][es[i].id] == Entry(es[i].user, es[i].now + 120)
    decreases k
  {
    var id := es[i].id;
    assert ts[k] == Step(ts[k - 1], es[k - 1]);
    if i < k - 1 {
      TableTracks(ts, es, i, k - 1);
      var e := es[k - 1];
      assert Unspent(ts, es, i, k) <==> Unspent(ts, es, i, k - 1) && !e.Restart? && !Redeems(ts, es, k - 1, id);
      if e.Consume? && Plausible(e.user, e.nonce, e.now) && e.nonce.payload.id == id {
        var o :| 0 <= o < k - 1 && es[o].Issue? && PayloadOf(es[o]) == e.nonce.payload;
        assert o == i;
      }
    }
  }

  /** A challenge is accepted exactly when it is presented with its signature by the user it was issued
      to, within 120 seconds, in the same life of the server, and for the first time; provided the clock has
      not been ahead before. */
  lemma AcceptedExactlyWhen(ts: seq<map<Id, Entry>>, es: seq<Event>, i: nat, k: nat)
    requires Run(ts, es) && Fresh(es) && Honest(es) && i < k < |es|
    requires forall j :: 0 <= j < k ==> es[j].now <= es[k].now
    requires es[i].Issue? && es[k].Consume? && es[k].nonce.Nonce? && es[k].nonce.payload == PayloadOf(es[i])
    ensures Accepted(ts[k], es[k]) <==>
              && es[k].nonce.signed && es[k].user == es[i].user && es[k].now < es[i].now + 120
              && Unspent(ts, es, i, k)
  {
    if es[k].now < es[i].now + TTL {
      TableTracks(ts, es, i, k);
    }
  }

  /** Whatever the clock does, what is accepted is signed, unspent, in time and presented by its user. */
  lemma {:induction false} AcceptedIsUnspent(ts: seq<map<Id, Entry>>, es: seq<Event>, i: nat, k: nat)
    requires Run(ts, es) && Fresh(es) && i < k < |es|
    requires es[i].Issue? && es[k].Consume? && es[k].nonce.Nonce? && es[k].nonce.payload == PayloadOf(es[i])
    requires Accepted(ts[k], es[k])
    ensures es[k].nonce.signed && es[k].user == es[i].user && es[i].now <= es[k].now < es[i].now + 120
    ensures Unspent(ts, es, i, k)
  {
    forall j | i < j < k ensures !es[j].Restart? && !Redeems(ts, es, j, es[i].id) {
      assert ts[j + 1] == Step(ts[j], es[j]);
      if es[j].Restart? || Redeems(ts, es, j, es[i].id) { GoneForGood(ts, es, i, j + 1, k); }
    }
  }

  /** After every call that gets as far as the table, nothing expired is left in it, and nothing but what was
      there before or has just been issued; what a failed attempt takes out besides is at most the entry of
      a payload that is otherwise good. */
  lemma OnlyLiveRemain(ts: seq<map<Id, Entry>>, es: seq<Event>, k: nat, id: Id)
    requires Run(ts, es) && k < |es|
    ensures es[k].Issue? || (es[k].Consume? && !es[k].nonce.Malformed?) ==>
              (id in ts[k + 1] ==> ts[k + 1][id].expires > es[k].now)
    ensures es[k].Issue? ==>
              (id in ts[k + 1] <==> id == es[k].id || (id in ts[k] && ts[k][id].expires > es[k].now))
    ensures es[k].Consume? && !Accepted(ts[k], es[k]) && id in ts[k] && ts[k][id].expires > es[k].now ==>
              (id in ts[k + 1] <==>
                 !(es[k].nonce.Nonce? && es[k].nonce.signed && es[k].nonce.payload.id == id && id != "" &&
                   es[k].nonce.payload.user == es[k].user && ts[k][id].user != es[k].user &&
                   es[k].nonce.payload.issued <= es[k].now < es[k].nonce.payload.expires))
    ensures id in ts[k + 1] && !(es[k].Issue? && id == es[k].id) ==> id in ts[k] && ts[k + 1][id] == ts[k][id]
  {
    assert ts[k + 1] == Step(ts[k], es[k]);
  }

  class AuthManager {
    var challenges: map<Id, Entry>

    constructor ()
      ensures challenges == map[]
    {
      challenges := map[];
    }

    method PruneExpiredChallengesLocked(now: int)
      modifies this
      ensures challenges == Prune(old(challenges), now)
      ensures forall id :: id in challenges <==> id in old(challenges) && old(challenges)[id].expires > now
      ensures forall id :: id in challenges ==> challenges[id] == old(challenges)[id]
    {
      var rest := challenges.Keys;
      while rest != {}
        invariant rest <= challenges.Keys <= old(challenges).Keys
        invariant forall id :: id in challenges ==> challenges[id] == old(challenges)[id]
        invariant forall id :: id in old(challenges) && id !in rest ==>
                    (id in challenges <==> old(challenges)[id].expires > now)
        decreases |rest|
      {
        var id :| id in rest;
        if challenges[id].expires <= now { challenges := challenges - {id}; }
        rest := rest - {id};
      }
    }

    method IssueChallenge(user: string, now: int, id: Id) returns (p: Payload)
      modifies this
      ensures p == Payload(id, user, now, now + 120)
      ensures id in challenges && challenges[id] == Entry(user, now + 120)
      ensures forall other :: other != id ==>
                (other in challenges <==> other in old(challenges) && old(challenges)[other].expires > now)
      ensures forall other :: other != id && other in challenges ==> challenges[other] == old(challenges)[other]
      ensures challenges == Step(old(challenges), Issue(now, id, user))
    {
      p := Payload(id, user, now, now + TTL);
      PruneExpiredChallengesLocked(now);
      challenges := challenges[id := Entry(user, p.expires)];
    }

    method ConsumeChallenge(user: string, nonce: Nonce, now: int) returns (ok: bool)
      modifies this
      ensures ok <==>
                && nonce.Nonce? && nonce.signed && nonce.payload.user == user
                && nonce.payload.issued <= now < nonce.payload.expires && nonce.payload.id != ""
                && nonce.payload.id in old(challenges) && old(challenges)[nonce.payload.id].user == user
                && old(challenges)[nonce.payload.id].expires > now
      ensures ok ==> nonce.payload.id !in challenges
      ensures !nonce.Malformed? ==> forall id :: id in challenges ==> challenges[id].expires > now
      ensures ok == Accepted(old(challenges), Consume(now, user, nonce))
      ensures challenges == Step(old(challenges), Consume(now, user, nonce))
    {
      if nonce.Malformed? { return false; }
      PruneExpiredChallengesLocked(now);
      if nonce.Unreadable? || !nonce.signed { return false; }
      var p := nonce.payload;
      if p.user != user { return false; }
      if p.issued > now || p.expires <= now { return false; }
      if p.id == "" { return false; }
      if p.id !in challenges {
        assert Prune(old(challenges), now) - {p.id} == challenges;
        return false;
      }
      var challenge := challenges[p.id];
      challenges := challenges - {p.id};
      ok := challenge.user == user && challenge.expires > now;
    }

    method LoadState()
      modifies this
      ensures challenges == map[]
    {
      challenges := map[];
    }
  }
}
