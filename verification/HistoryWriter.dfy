/** The store object and its writer's select branches, against the steps of HistoryStore. */
module HistoryWriter {
  import opened Prelude
  import opened HistoryStore

  class Store {
    var queue: seq<Request>
    var batch: seq<HistoryStore.Record>
    var persisted: seq<HistoryStore.Record>
    var closed: bool
    var done: bool
    var closeErr: Option<Error>
    var answers: seq<Answer>
    var accepted: seq<HistoryStore.Record>  // accepted and asked are histories; no decision reads them
    var asked: seq<nat>

    ghost function Abs(): State reads this {
      State(queue, batch, persisted, closed, done, closeErr, answers, accepted, asked)
    }

    constructor ()
      ensures Abs() == OPENED
    {
      queue, batch, persisted, closed, done, closeErr, answers := [], [], [], false, false, None, [];
      accepted, asked := [], [];
    }

    method Record(r: HistoryStore.Record, now: int, valid: string -> string) returns (err: Option<Error>)
      modifies this`queue, this`accepted
      ensures err == (if r.tunnel == "" then Some(NoTunnel)
                      else if old(closed) then Some(StoreClosed)
                      else if |old(queue)| >= 4096 then Some(QueueFull)
                      else None)
      ensures err != None ==> queue == old(queue) && accepted == old(accepted)
      ensures err == None ==>
                var kept := r.(time := if r.time == 0 then now else r.time,
                               detail := if |r.detail| > 2048 then valid(r.detail[..2048]) else r.detail);
                queue == old(queue) + [Write(kept)] && accepted == old(accepted) + [kept]
      ensures Abs() == Step(old(Abs()), Put(Stored(r, now, valid)))
    {
      if r.tunnel == "" { return Some(NoTunnel); }
      var record := r;
      if record.time == 0 { record := record.(time := now); }
      if |record.detail| > DETAIL_MAX { record := record.(detail := valid(record.detail[..DETAIL_MAX])); }
      if closed { return Some(StoreClosed); }
      if |queue| >= QUEUE_MAX { return Some(QueueFull); }
      queue, accepted := queue + [Write(record)], accepted + [record];
      err := None;
    }

    /** The enqueueing half of Flush. With a full queue the caller waits, here by not being called, until
        there is room or its context ends (givesUp); a context that has ended may be noticed even when
        there is room. */
    method Ask(waiter: nat, givesUp: bool) returns (err: Option<Error>)
      requires |queue| < QUEUE_MAX || closed || givesUp
      modifies this`queue, this`asked
      ensures (err == Some(StoreClosed) <==> closed) && (err == Some(GaveUp) ==> givesUp && !closed)
      ensures err == None || err == Some(StoreClosed) || err == Some(GaveUp)
      ensures err == None <==> queue == old(queue) + [Flush(waiter, |accepted|)]
      ensures err == None ==> |old(queue)| < 4096
      ensures Abs() == if err == None then Step(old(Abs()), HistoryStore.Ask(waiter)) else old(Abs())
    {
      if closed { return Some(StoreClosed); }
      var noticed: bool := *;
      if givesUp && (noticed || |queue| >= QUEUE_MAX) { return Some(GaveUp); }
      queue, asked := queue + [Flush(waiter, |accepted|)], asked + [waiter];
      err := None;
    }

    method Close()
      modifies this`closed
      ensures Abs() == Step(old(Abs()), HistoryStore.Close)
    {
      closed := true;
    }

    /** One transaction: all of the records or none, as the database decides. */
    method Insert(records: seq<HistoryStore.Record>, commits: bool) returns (err: Option<Error>)
      modifies this`persisted
      ensures err == None <==> commits
      ensures err == None || err == Some(InsertFailed)
      ensures persisted == if commits then old(persisted) + records else old(persisted)
    {
      if !commits { return Some(InsertFailed); }
      persisted := persisted + records;
      err := None;
    }

    method FlushBatch(commits: bool) returns (err: Option<Error>)
      modifies this`persisted, this`batch
      ensures err == if commits || old(batch) == [] then None else Some(InsertFailed)
      ensures if commits then persisted == old(persisted) + old(batch) && batch == []
              else persisted == old(persisted) && batch == old(batch)
      ensures Abs() == Commit(old(Abs()), commits)
    {
      if |batch| == 0 {
        return None;
      }
      err := Insert(batch, commits);
      if err != None { return; }
      batch := [];
    }

    /** The branch that takes a request; it is disabled while the batch is held back. A flush is answered
        nil exactly when there was nothing to write or the transaction commits. */
    method OnRequest(commits: bool)
      requires !done && queue != [] && |batch| < BATCH_HOLD
      modifies this`queue, this`batch, this`persisted, this`answers
      ensures queue == old(queue)[1..]
      ensures answers == if old(queue)[0].Write? then old(answers)
                         else old(answers) + [Answer(old(queue)[0].waiter, old(queue)[0].upTo,
                                                     if commits || old(batch) == [] then None else Some(InsertFailed))]
      ensures var grown := if old(queue)[0].Write? then old(batch) + [old(queue)[0].record] else old(batch);
              if commits && (old(queue)[0].Flush? || |grown| >= 256)
              then persisted == old(persisted) + grown && batch == []
              else persisted == old(persisted) && batch == grown
      ensures Abs() == Step(old(Abs()), Take(commits))
    {
      var req := queue[0];
      queue := queue[1..];
      if req.Write? {
        batch := batch + [req.record];
      }
      if req.Flush? {
        var err := FlushBatch(commits);
        answers := answers + [Answer(req.waiter, req.upTo, err)];
      } else if |batch| >= BATCH_COMMIT {
        var err := FlushBatch(commits);
      }
    }

    method OnTick(commits: bool)
      requires !done
      modifies this`batch, this`persisted
      ensures if commits then persisted == old(persisted) + old(batch) && batch == []
              else persisted == old(persisted) && batch == old(batch)
      ensures Abs() == Step(old(Abs()), Tick(commits))
    {
      var err := FlushBatch(commits);
    }

    /** What is left in the closed queue: records join the batch, waiters are collected. */
    method Drain() returns (waiters: seq<Request>)
      modifies this`queue, this`batch
      ensures queue == [] && batch == old(batch) + Records(old(queue))
      ensures forall i :: 0 <= i < |waiters| ==> waiters[i].Flush?
      ensures forall e :: AnswerAll(waiters, e) == AnswerAll(old(queue), e)
    {
      ghost var all := queue;
      waiters := [];
      ghost var n := 0;
      while queue != []
        invariant n <= |all| && queue == all[n..] && batch == old(batch) + Records(all[..n])
        invariant forall i :: 0 <= i < |waiters| ==> waiters[i].Flush?
        invariant forall e :: AnswerAll(waiters, e) == AnswerAll(all[..n], e)
        decreases |queue|
      {
        var req := queue[0];
        queue := queue[1..];
        assert all[..n + 1][..n] == all[..n];
        if req.Write? { batch := batch + [req.record]; }
        if req.Flush? {
          assert (waiters + [req])[..|waiters|] == waiters;
          waiters := waiters + [req];
        }
        n := n + 1;
      }
      assert all[..n] == all;
    }

    method AnswerWaiters(waiters: seq<Request>, err: Option<Error>)
      requires forall i :: 0 <= i < |waiters| ==> waiters[i].Flush?
      modifies this`answers
      ensures answers == old(answers) + AnswerAll(waiters, err)
    {
      for i := 0 to |waiters|
        invariant answers == old(answers) + AnswerAll(waiters[..i], err)
      {
        assert waiters[..i + 1][..i] == waiters[..i];
        answers := answers + [Answer(waiters[i].waiter, waiters[i].upTo, err)];
      }
      assert waiters[..|waiters|] == waiters;
    }

    /** The stopping branch: drain, commit, close the database, answer the waiters. */
    method OnStopping(commits: bool, dbCloses: bool)
      requires !done && closed
      modifies this`queue, this`batch, this`persisted, this`answers, this`done, this`closeErr
      ensures done && queue == [] && answers == old(answers) + AnswerAll(old(queue), closeErr)
      ensures var left := old(batch) + Records(old(queue));
              && closeErr == (if !commits && left != [] then Some(InsertFailed)
                              else if dbCloses then None else Some(CloseFailed))
              && if commits then persisted == old(persisted) + left && batch == []
                 else persisted == old(persisted) && batch == left
      ensures Abs() == Step(old(Abs()), Finish(commits, dbCloses))
    {
      hide Records, AnswerAll;
      var waiters := Drain();
      var err := FlushBatch(commits);
      closeErr := if err.Some? then err else if dbCloses then None else Some(CloseFailed);
      AnswerWaiters(waiters, closeErr);
      done := true;
    }
  }
}
