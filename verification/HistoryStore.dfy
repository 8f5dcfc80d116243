/**
  The probe-history writer (pkg/probehistory/store.go): a bounded queue, one writer that batches and
  retries, flush requests and shutdown. A run is any interleaving of the callers' and the writer's
  atomic steps, an impossible one having no effect; whether a transaction commits is arbitrary.
 */
module HistoryStore {
  import opened Prelude

  const QUEUE_MAX: nat := 4096
  const BATCH_HOLD: nat := 4096
  const BATCH_COMMIT: nat := 256

  datatype Record = Record(tunnel: string, time: int, kind: string, status: string, detail: string)

  datatype Error = NoTunnel | StoreClosed | QueueFull | GaveUp | InsertFailed | CloseFailed

  const DETAIL_MAX: nat := 2048

  /** The record as it is queued: a missing time is filled in, and a long text is cut and made valid. */
  function Stored(r: Record, now: int, valid: string -> string): Record {
    r.(time := if r.time == 0 then now else r.time,
       detail := if |r.detail| > DETAIL_MAX then valid(r.detail[..DETAIL_MAX]) else r.detail)
  }

  /** As making a text valid never lengthens it, no stored text is longer than the cut. */
  lemma StoredIsBounded(r: Record, now: int, valid: string -> string)
    requires forall s :: |valid(s)| <= |s|
    ensures |Stored(r, now, valid).detail| <= 2048
    ensures |r.detail| <= 2048 ==> Stored(r, now, valid) == r.(time := if r.time == 0 then now else r.time)
  {
  }

  /** A flush request remembers how many records had been accepted when it was queued. */
  datatype Request = Write(record: Record) | Flush(waiter: nat, upTo: nat)

  datatype Answer = Answer(waiter: nat, upTo: nat, err: Option<Error>)

  /** The store; accepted and asked are the histories of accepted records and of flush requests. */
  datatype State = State(
    queue: seq<Request>,
    batch: seq<Record>,
    persisted: seq<Record>,
    closed: bool,
    done: bool,
    closeErr: Option<Error>,
    answers: seq<Answer>,
    accepted: seq<Record>,
    asked: seq<nat>)

  const OPENED := State([], [], [], false, false, None, [], [], [])

  function Records(queue: seq<Request>): seq<Record> {
    if queue == [] then []
    else Records(queue[..|queue| - 1]) +
         (if queue[|queue| - 1].Write? then [queue[|queue| - 1].record] else [])
  }

  /** One answer for every flush request of the queue, in order. */
  function AnswerAll(queue: seq<Request>, err: Option<Error>): seq<Answer> {
    if queue == [] then []
    else
      var r := queue[|queue| - 1];
      AnswerAll(queue[..|queue| - 1], err) + (if r.Flush? then [Answer(r.waiter, r.upTo, err)] else [])
  }

  function Waiters(answers: seq<Answer>): seq<nat> {
    seq(|answers|, i requires 0 <= i < |answers| => answers[i].waiter)
  }

  datatype Event =
    | Put(record: Record)                       // a caller's Record
    | Ask(waiter: nat)                          // a caller's Flush entering the queue
    | Close                                     // a caller's Close
    | Take(commits: bool)                       // the writer takes a request
    | Tick(commits: bool)                       // the writer's timer
    | Finish(commits: bool, dbCloses: bool)     // the writer sees the store stopping

  /** What Record returns. */
  function PutError(s: State, r: Record): Option<Error> {
    if r.tunnel == "" then Some(NoTunnel)
    else if s.closed then Some(StoreClosed)
    else if |s.queue| >= QUEUE_MAX then Some(QueueFull)
    else None
  }

  /** Whether the batch, one transaction or nothing, leaves an error; a failed batch is kept. */
  function CommitError(s: State, commits: bool): Option<Error> {
    if s.batch == [] || commits then None else Some(InsertFailed)
  }

  function Commit(s: State, commits: bool): State {
    if commits then s.(persisted := s.persisted + s.batch, batch := []) else s
  }

  /** Shutdown: drain the queue into the batch, commit it, close the database, answer every waiter. */
  function Finished(s: State, commits: bool, dbCloses: bool): State {
    var drained := s.(batch := s.batch + Records(s.queue), queue := []);
    var err := CommitError(drained, commits);
    var closeErr := if err.Some? then err else if dbCloses then None else Some(CloseFailed);
    Commit(drained, commits).(done := true, closeErr := closeErr, answers := s.answers + AnswerAll(s.queue, closeErr))
  }

  function Taken(s: State, commits: bool): State
    requires s.queue != []
  {
    var rest := s.(queue := s.queue[1..]);
    match s.queue[0]
    case Write(r) =>
      var t := rest.(batch := s.batch + [r]);
      if |t.batch| >= BATCH_COMMIT then Commit(t, commits) else t
    case Flush(w, upTo) =>
      Commit(rest, commits).(answers := s.answers + [Answer(w, upTo, CommitError(rest, commits))])
  }

  function Step(s: State, e: Event): State {
    match e
    case Put(r) =>
      if PutError(s, r).Some? then s else s.(queue := s.queue + [Write(r)], accepted := s.accepted + [r])
    case Ask(w) =>
      if s.closed || |s.queue| >= QUEUE_MAX then s
      else s.(queue := s.queue + [Flush(w, |s.accepted|)], asked := s.asked + [w])
    case Close => s.(closed := true)
    case Take(commits) => if s.done || s.queue == [] || |s.batch| >= BATCH_HOLD then s else Taken(s, commits)
    case Tick(commits) => if s.done then s else Commit(s, commits)
    case Finish(commits, dbCloses) => if s.done || !s.closed then s else Finished(s, commits, dbCloses)
  }

  function Run(s: State, evs: seq<Event>): State {
    if evs == [] then s else Step(Run(s, evs[..|evs| - 1]), evs[|evs| - 1])
  }

  // ---------------------------------------------------------------- the invariant

  /** No accepted record is lost, doubled or reordered, and no flush request either. */
  ghost predicate Conserves(s: State) {
    && s.accepted == s.persisted + (s.batch + Records(s.queue))
    && s.asked == Waiters(s.answers) + Waiters(AnswerAll(s.queue, None))
  }

  ghost predicate Bounded(s: State) {
    |s.queue| <= QUEUE_MAX && |s.batch| <= if s.done then BATCH_HOLD + QUEUE_MAX else BATCH_HOLD
  }

  /** What a queued flush request vouches for stands before it; a nil answer means it is persisted. */
  ghost predicate Vouches(s: State) {
    && (forall i :: 0 <= i < |s.queue| && s.queue[i].Flush? ==>
          s.queue[i].upTo <= |s.persisted| + |s.batch| + |Records(s.queue[..i])|)
    && (forall i :: 0 <= i < |s.answers| && s.answers[i].err == None ==> s.answers[i].upTo <= |s.persisted|)
  }

  ghost predicate Closes(s: State) {
    s.done ==> s.closed && s.queue == [] && (s.closeErr == None ==> s.batch == [])
  }

  ghost predicate Inv(s: State) {
    Conserves(s) && Bounded(s) && Vouches(s) && Closes(s)
  }

  lemma QueueAppend(q: seq<Request>, r: Request)
    ensures Records(q + [r]) == Records(q) + if r.Write? then [r.record] else []
    ensures AnswerAll(q + [r], None) == AnswerAll(q, None) + if r.Flush? then [Answer(r.waiter, r.upTo, None)] else []
  {
    assert (q + [r])[..|q|] == q;
  }

  lemma {:induction false} QueueFirst(q: seq<Request>)
    requires q != []
    ensures Records(q) == (if q[0].Write? then [q[0].record] else []) + Records(q[1..])
    ensures AnswerAll(q, None) == (if q[0].Flush? then [Answer(q[0].waiter, q[0].upTo, None)] else []) + AnswerAll(q[1..], None)
  {
    if |q| > 1 {
      QueueFirst(q[..|q| - 1]);
      assert q[..|q| - 1][1..] == q[1..][..|q| - 2];
    }
  }

  lemma {:induction false} RecordsCount(q: seq<Request>, i: nat)
    requires i <= |q|
    ensures |Records(q[..i])| <= |Records(q)| <= |q|
  {
    if i == |q| {
      assert q[..i] == q;
      if q != [] { RecordsCount(q[..|q| - 1], 0); }
    } else {
      RecordsCount(q[..|q| - 1], i);
      assert q[..|q| - 1][..i] == q[..i];
    }
  }

  /** The answers given are one per flush request, whatever the error. */
  lemma {:induction false} AnswersWaiters(q: seq<Request>, err: Option<Error>)
    ensures Waiters(AnswerAll(q, err)) == Waiters(AnswerAll(q, None))
  {
    if q != [] {
      var r, init := q[|q| - 1], q[..|q| - 1];
      AnswersWaiters(init, err);
      var last: seq<Answer> := if r.Flush? then [Answer(r.waiter, r.upTo, err)] else [];
      var none: seq<Answer> := if r.Flush? then [Answer(r.waiter, r.upTo, None)] else [];
      WaitersPlus(AnswerAll(init, err), last);
      WaitersPlus(AnswerAll(init, None), none);
      assert Waiters(last) == Waiters(none);
    }
  }

  /** Each answer goes back to a request. */
  lemma {:induction false} AnswerComesFrom(q: seq<Request>, err: Option<Error>, k: nat) returns (i: nat)
    requires k < |AnswerAll(q, err)|
    ensures var a := AnswerAll(q, err)[k]; a.err == err && i < |q| && q[i] == Flush(a.waiter, a.upTo)
  {
    var init := q[..|q| - 1];
    if k < |AnswerAll(init, err)| {
      i := AnswerComesFrom(init, err, k);
    } else {
      i := |q| - 1;
    }
  }

  lemma WaitersPlus(a: seq<Answer>, b: seq<Answer>)
    ensures Waiters(a + b) == Waiters(a) + Waiters(b)
  {
  }

  // ---------------------------------------------------------------- every step keeps it

  lemma MoveAcross<T>(p: seq<T>, b: seq<T>, x: seq<T>, q: seq<T>)
    ensures p + (b + (x + q)) == p + ((b + x) + q)
    ensures p + (b + q) == (p + b) + ([] + q)
    ensures (p + (b + q)) + x == p + (b + (q + x))
  {
  }

  lemma CommitConserves(s: State, commits: bool)
    requires Conserves(s)
    ensures Conserves(Commit(s, commits))
  {
    MoveAcross(s.persisted, s.batch, [], Records(s.queue));
  }

  lemma WaitersOne(w: nat, upTo: nat, err: Option<Error>)
    ensures Waiters([Answer(w, upTo, err)]) == [w] == Waiters([Answer(w, upTo, None)])
  {
  }

  lemma CommitAnswers(s: State, commits: bool, answers: seq<Answer>)
    ensures Commit(s.(answers := answers), commits) == Commit(s, commits).(answers := answers)
  {
  }

  lemma TakeConserves(s: State, commits: bool)
    requires Conserves(s) && s.queue != []
    ensures Conserves(Taken(s, commits))
  {
    hide Records, AnswerAll, Commit, Waiters;
    var r, q := s.queue[0], s.queue[1..];
    QueueFirst(s.queue);
    match r {
      case Write(x) =>
        MoveAcross(s.persisted, s.batch, [x], Records(q));
        var t := s.(queue := q, batch := s.batch + [x]);
        assert [] + AnswerAll(q, None) == AnswerAll(q, None);
        CommitConserves(t, commits);
      case Flush(w, upTo) =>
        var err := CommitError(s.(queue := q), commits);
        WaitersPlus([Answer(w, upTo, None)], AnswerAll(q, None));
        WaitersPlus(s.answers, [Answer(w, upTo, err)]);
        WaitersOne(w, upTo, err);
        assert [] + Records(q) == Records(q);
        var t := s.(queue := q, answers := s.answers + [Answer(w, upTo, err)]);
        assert Conserves(t);
        CommitConserves(t, commits);
        CommitAnswers(s.(queue := q), commits, t.answers);
    }
  }

  lemma FinishConserves(s: State, commits: bool, dbCloses: bool)
    requires Conserves(s)
    ensures Conserves(Finished(s, commits, dbCloses))
  {
    var t := Finished(s, commits, dbCloses);
    WaitersPlus(s.answers, AnswerAll(s.queue, t.closeErr));
    AnswersWaiters(s.queue, t.closeErr);
    assert (s.batch + Records(s.queue)) + [] == s.batch + Records(s.queue);
  }

  lemma StepConserves(s: State, e: Event)
    requires Conserves(s)
    ensures Conserves(Step(s, e))
  {
    hide Conserves, Taken, Finished;
    match e {
      case Put(r) => AskConserves(s, Write(r), s.accepted + [r], s.asked);
      case Ask(w) => AskConserves(s, Flush(w, |s.accepted|), s.accepted, s.asked + [w]);
      case Close => CloseConserves(s);
      case Take(commits) => if s.queue != [] { TakeConserves(s, commits); }
      case Tick(commits) => CommitConserves(s, commits);
      case Finish(commits, dbCloses) => FinishConserves(s, commits, dbCloses);
    }
  }

  lemma CloseConserves(s: State)
    requires Conserves(s)
    ensures Conserves(s.(closed := true))
  {
  }

  lemma AskConserves(s: State, r: Request, accepted: seq<Record>, asked: seq<nat>)
    requires Conserves(s)
    requires accepted == s.accepted + (if r.Write? then [r.record] else [])
    requires asked == s.asked + (if r.Flush? then [r.waiter] else [])
    ensures Conserves(s.(queue := s.queue + [r], accepted := accepted, asked := asked))
  {
    QueueAppend(s.queue, r);
    if r.Write? {
      MoveAcross(s.persisted, s.batch, [r.record], Records(s.queue));
    } else {
      WaitersPlus(AnswerAll(s.queue, None), [Answer(r.waiter, r.upTo, None)]);
    }
  }

  lemma StepBounded(s: State, e: Event)
    requires Bounded(s)
    ensures Bounded(Step(s, e))
  {
    RecordsCount(s.queue, 0);
  }

  lemma StepCloses(s: State, e: Event)
    requires Closes(s)
    ensures Closes(Step(s, e))
  {
  }

  lemma QueuedVouches(s: State, r: Request, accepted: seq<Record>, asked: seq<nat>)
    requires Conserves(s) && Vouches(s) && (r.Flush? ==> r.upTo == |s.accepted|)
    ensures Vouches(s.(queue := s.queue + [r], accepted := accepted, asked := asked))
  {
    var q := s.queue + [r];
    assert q[..|s.queue|] == s.queue;
    assert forall i :: 0 <= i < |s.queue| ==> q[..i] == s.queue[..i];
  }

  lemma CommitVouches(s: State, commits: bool)
    requires Vouches(s)
    ensures Vouches(Commit(s, commits))
  {
  }

  lemma PrefixShift(queue: seq<Request>, i: nat)
    requires i < |queue|
    ensures |Records(queue[..i + 1])| == (if queue[0].Write? then 1 else 0) + |Records(queue[1..][..i])|
  {
    QueueFirst(queue[..i + 1]);
    assert queue[..i + 1][1..] == queue[1..][..i];
  }

  /** The first request moves to the batch, or away. */
  lemma ShiftVouches(s: State, t: State)
    requires Vouches(s) && s.queue != []
    requires t == s.(queue := s.queue[1..],
                     batch := if s.queue[0].Write? then s.batch + [s.queue[0].record] else s.batch)
    ensures Vouches(t) && (s.queue[0].Flush? ==> s.queue[0].upTo <= |t.persisted| + |t.batch|)
  {
    assert Records(s.queue[..0]) == [];
    hide Records;
    var q := s.queue[1..];
    forall i | 0 <= i < |q| && q[i].Flush?
      ensures q[i].upTo <= |t.persisted| + |t.batch| + |Records(q[..i])|
    {
      PrefixShift(s.queue, i);
      assert q[i] == s.queue[i + 1];
    }
  }

  lemma AnswerVouches(s: State, a: Answer)
    requires Vouches(s) && (a.err == None ==> a.upTo <= |s.persisted|)
    ensures Vouches(s.(answers := s.answers + [a]))
  {
  }

  lemma TakeVouches(s: State, commits: bool)
    requires Vouches(s) && s.queue != []
    ensures Vouches(Taken(s, commits))
  {
    var r := s.queue[0];
    var t := s.(queue := s.queue[1..], batch := if r.Write? then s.batch + [r.record] else s.batch);
    ShiftVouches(s, t);
    CommitVouches(t, commits);
    var after := Commit(t, commits);
    if r.Flush? {
      assert CommitError(t, commits) == None ==> r.upTo <= |after.persisted|;
      hide Vouches;
      AnswerVouches(after, Answer(r.waiter, r.upTo, CommitError(t, commits)));
    }
  }

  lemma FinishVouches(s: State, commits: bool, dbCloses: bool)
    requires Vouches(s)
    ensures Vouches(Finished(s, commits, dbCloses))
  {
    var t := Finished(s, commits, dbCloses);
    forall i | 0 <= i < |t.answers| && t.answers[i].err == None ensures t.answers[i].upTo <= |t.persisted| {
      if i >= |s.answers| {
        var k := AnswerComesFrom(s.queue, t.closeErr, i - |s.answers|);
        RecordsCount(s.queue, k);
      }
    }
  }

  lemma StepKeepsInv(s: State, e: Event)
    requires Inv(s)
    ensures Inv(Step(s, e))
  {
    StepConserves(s, e);
    StepBounded(s, e);
    StepCloses(s, e);
    hide Conserves, Bounded, Closes, Vouches, Taken, Finished;
    match e {
      case Put(r) => QueuedVouches(s, Write(r), s.accepted + [r], s.asked);
      case Ask(w) => QueuedVouches(s, Flush(w, |s.accepted|), s.accepted, s.asked + [w]);
      case Close => CloseVouches(s);
      case Take(commits) => if s.queue != [] { TakeVouches(s, commits); }
      case Tick(commits) => CommitVouches(s, commits);
      case Finish(commits, dbCloses) => FinishVouches(s, commits, dbCloses);
    }
  }

  lemma CloseVouches(s: State)
    requires Vouches(s)
    ensures Vouches(s.(closed := true))
  {
  }

  lemma {:induction false} RunKeepsInv(s: State, evs: seq<Event>)
    requires Inv(s)
    ensures Inv(Run(s, evs))
  {
    if evs != [] {
      RunKeepsInv(s, evs[..|evs| - 1]);
      StepKeepsInv(Run(s, evs[..|evs| - 1]), evs[|evs| - 1]);
    }
  }

  // ---------------------------------------------------------------- what every run guarantees

  /** Conservation and bounds over every interleaving: what was accepted is what is persisted, then the
      batch, then the queue; a nil answer to a flush means that everything accepted before it was asked
      is persisted; and a store closed without error has persisted everything. */
  lemma Conservation(evs: seq<Event>)
    ensures var s := Run(OPENED, evs);
            && s.accepted == s.persisted + s.batch + Records(s.queue)
            && |s.queue| <= 4096 && |s.batch| <= (if s.done then 8192 else 4096)
            && s.persisted <= s.accepted
            && (forall i :: 0 <= i < |s.answers| && s.answers[i].err == None ==> s.answers[i].upTo <= |s.persisted|)
            && (s.done && s.closeErr == None ==> s.persisted == s.accepted)
  {
    var s := Run(OPENED, evs);
    RunKeepsInv(OPENED, evs);
    assert s.persisted + s.batch + Records(s.queue) == s.persisted + (s.batch + Records(s.queue));
    hide Records;
    if s.done && s.closeErr == None { EmptyRecords(); }
  }

  lemma EmptyRecords()
    ensures Records([]) == []
  {
  }

  /** A refinement of an append-only log: both the accepted and the persisted records only grow at the
      end, and what is answered stays answered. */
  lemma {:induction false} OnlyGrows(s: State, evs: seq<Event>)
    ensures s.accepted <= Run(s, evs).accepted && s.persisted <= Run(s, evs).persisted && s.answers <= Run(s, evs).answers
  {
    if evs != [] {
      OnlyGrows(s, evs[..|evs| - 1]);
      StepGrows(Run(s, evs[..|evs| - 1]), evs[|evs| - 1]);
    }
  }

  lemma StepGrows(s: State, e: Event)
    ensures s.accepted <= Step(s, e).accepted && s.persisted <= Step(s, e).persisted && s.answers <= Step(s, e).answers
  {
  }

  /** Flush requests are answered in the order they came, each once; a finished store has answered all. */
  lemma EveryFlushAnswered(evs: seq<Event>)
    ensures var s := Run(OPENED, evs);
            Waiters(s.answers) <= s.asked && (s.done ==> Waiters(s.answers) == s.asked)
  {
    RunKeepsInv(OPENED, evs);
    var s := Run(OPENED, evs);
    if s.done { assert AnswerAll(s.queue, None) == [] && Waiters([]) == []; }
  }

  /** A failed transaction loses nothing: one successful tick later the whole batch is persisted. */
  lemma RetryPersists(s: State, failures: nat)
    requires !s.done
    ensures var evs := seq(failures, _ => Tick(false)) + [Tick(true)];
            Run(s, evs) == s.(persisted := s.persisted + s.batch, batch := [])
  {
    var evs := seq(failures, _ => Tick(false));
    assert (evs + [Tick(true)])[..failures] == evs;
    FailedTicks(s, failures);
  }

  lemma {:induction false} FailedTicks(s: State, failures: nat)
    ensures Run(s, seq(failures, _ => Tick(false))) == s
  {
    if failures > 0 {
      FailedTicks(s, failures - 1);
      assert seq(failures, _ => Tick(false))[..failures - 1] == seq(failures - 1, _ => Tick(false));
    }
  }

  // ---------------------------------------------------------------- what the steps achieve

  /** A record is accepted exactly when it names its tunnel, the store is open and the queue has room. */
  lemma PutAccepts(s: State, r: Record)
    ensures var t := Step(s, Put(r));
            && t.accepted == (if r.tunnel != "" && !s.closed && |s.queue| < 4096 then s.accepted + [r] else s.accepted)
            && (t == s <==> r.tunnel == "" || s.closed || |s.queue| >= 4096)
            && t.batch == s.batch && t.persisted == s.persisted && t.answers == s.answers
  {
    if PutError(s, r) == None { assert |Step(s, Put(r)).queue| == |s.queue| + 1; }
  }

  /** Taking a request: held back by a batch of 4096; a record fills the batch, which is committed when it
      reaches 256; a flush commits whatever there is, and is answered without error if that succeeds. */
  lemma TakeMeaning(s: State, commits: bool)
    requires !s.done && s.queue != []
    ensures var t := Step(s, Take(commits));
            if |s.batch| >= 4096 then t == s
            else
              && t.queue == s.queue[1..] && t.accepted == s.accepted
              && if s.queue[0].Write? then
                   var grown := s.batch + [s.queue[0].record];
                   && t.answers == s.answers
                   && (if commits && |s.batch| + 1 >= 256 then t.persisted == s.persisted + grown && t.batch == []
                       else t.persisted == s.persisted && t.batch == grown)
                 else
                   && t.answers == s.answers + [Answer(s.queue[0].waiter, s.queue[0].upTo,
                                                       if commits || s.batch == [] then None else Some(InsertFailed))]
                   && (if commits then t.persisted == s.persisted + s.batch && t.batch == []
                       else t.persisted == s.persisted && t.batch == s.batch)
  {
  }

  lemma RunPlus(s: State, evs: seq<Event>, e: Event)
    ensures Run(s, evs + [e]) == Step(Run(s, evs), e)
  {
    assert (evs + [e])[..|evs|] == evs;
  }

  /** What has become of a store after n requests were taken and every transaction committed. */
  ghost predicate TookFirst(s: State, t: State, n: nat)
    requires n <= |s.queue|
  {
    && t.queue == s.queue[n..] && !t.done && |t.batch| < BATCH_HOLD && t.accepted == s.accepted
    && t.persisted + t.batch == s.persisted + s.batch + Records(s.queue[..n])
    && t.answers == s.answers + AnswerAll(s.queue[..n], None)
    && (n > 0 && s.queue[n - 1].Flush? ==> t.batch == [])
  }

  lemma TookNext(s: State, mid: State, n: nat)
    requires n < |s.queue| && TookFirst(s, mid, n)
    ensures TookFirst(s, Step(mid, Take(true)), n + 1)
  {
    var r, t := mid.queue[0], Step(mid, Take(true));
    TakeMeaning(mid, true);
    QueueAppend(s.queue[..n], r);
    hide Step, Records, AnswerAll;
    assert s.queue[..n + 1] == s.queue[..n] + [r];
    assert t.persisted + t.batch == mid.persisted + mid.batch + if r.Write? then [r.record] else [];
  }

  lemma {:induction false} Takes(s: State, evs: seq<Event>, n: nat)
    requires n <= |s.queue| && !s.done && |s.batch| < BATCH_HOLD
    requires evs == seq(n, _ => Take(true))
    ensures TookFirst(s, Run(s, evs), n)
  {
    if n > 0 {
      var front := evs[..n - 1];
      assert front + [Take(true)] == evs;
      Takes(s, front, n - 1);
      RunPlus(s, front, Take(true));
      TookNext(s, Run(s, front), n - 1);
    } else {
      assert s.queue[..0] == [] && Records([]) == [] && AnswerAll([], None) == [];
    }
  }

  /** Wherever a run has got to, while the store is open, its queue has room and its database works: once the
      timer has fired and the queue has been taken, a flush asked now has been answered without error, and so
      has every one before it; all that was accepted is persisted. */
  lemma FlushSucceeds(evs: seq<Event>, waiter: nat, takes: seq<Event>)
    requires !Run(OPENED, evs).closed && |Run(OPENED, evs).queue| < 4096
    requires takes == seq(|Run(OPENED, evs).queue| + 1, _ => Take(true))
    ensures var s := Run(OPENED, evs);
            var t := Run(Step(Step(s, Ask(waiter)), Tick(true)), takes);
            && t.queue == [] && t.batch == [] && t.persisted == s.accepted
            && t.answers == s.answers + AnswerAll(s.queue, None) + [Answer(waiter, |s.accepted|, None)]
  {
    hide Run;
    RunKeepsInv(OPENED, evs);
    FlushFrom(Run(OPENED, evs), waiter, takes);
  }

  lemma FlushFrom(s: State, waiter: nat, takes: seq<Event>)
    requires Inv(s) && !s.closed && |s.queue| < QUEUE_MAX && takes == seq(|s.queue| + 1, _ => Take(true))
    ensures var t := Run(Step(Step(s, Ask(waiter)), Tick(true)), takes);
            && t.queue == [] && t.batch == [] && t.persisted == s.accepted
            && t.answers == s.answers + AnswerAll(s.queue, None) + [Answer(waiter, |s.accepted|, None)]
  {
    hide Run, Records, AnswerAll, Waiters;
    var r := Flush(waiter, |s.accepted|);
    var ticked := Step(Step(s, Ask(waiter)), Tick(true));
    assert ticked.batch == [] && ticked.persisted == s.persisted + s.batch && ticked.queue == s.queue + [r];
    QueueAppend(s.queue, r);
    assert ticked.queue[..|s.queue| + 1] == ticked.queue;
    Takes(ticked, takes, |s.queue| + 1);
    var t := Run(ticked, takes);
    assert t.persisted == t.persisted + t.batch;
    MoveAcross(s.persisted, s.batch, [], Records(s.queue));
  }

  /** The shutdown of an open store ends without error exactly when there is nothing to write or the
      transaction commits, and the database closes; then everything accepted is persisted, and every waiter
      is told what Close returns. */
  lemma ShutdownMeaning(evs: seq<Event>, commits: bool, dbCloses: bool)
    requires !Run(OPENED, evs).done
    ensures var s := Run(OPENED, evs);
            var t := Step(Step(s, Close), Finish(commits, dbCloses));
            && t.done && t.closed && t.queue == [] && t.accepted == s.accepted
            && (t.closeErr == None <==> (commits || s.persisted == s.accepted) && dbCloses)
            && t.persisted == (if commits then s.accepted else s.persisted)
            && t.answers == s.answers + AnswerAll(s.queue, t.closeErr)
  {
    var s := Run(OPENED, evs);
    RunKeepsInv(OPENED, evs);
    var left := s.batch + Records(s.queue);
    assert s.accepted == s.persisted + left;
    assert left == [] <==> s.persisted == s.accepted by { assert |s.accepted| == |s.persisted| + |left|; }
    var closing := Step(s, Close);
    assert closing == s.(closed := true);
    assert Step(closing, Finish(commits, dbCloses)) == Finished(closing, commits, dbCloses);
  }
}
