/** What a batch means: commits and rollbacks inside one session amount to running the claimed jobs
    one after the other, each keeping exactly its own effective writes; and a single worker drains
    the queue. */
module JobBatches {
  import opened Strings
  import opened Jobs

  // ----- the serial meaning of a batch

  function AllWrites(data: Data, effects: seq<Effect>): Data
    decreases |effects|
  {
    if effects == [] then data
    else AllWrites(if effects[0].Write? then data[effects[0].key := effects[0].value] else data, effects[1..])
  }

  /** The length of the part up to and including the last commit. */
  function LastCommit(effects: seq<Effect>): (n: nat)
    ensures n <= |effects|
  {
    if effects == [] then 0
    else if effects[|effects| - 1].CommitNow? then |effects|
    else LastCommit(effects[..|effects| - 1])
  }

  /** The effects that count: all of them if the handler returned, those it had committed itself if
      it raised. */
  function Kept(run: HandlerRun): seq<Effect> {
    if run.error == "" then run.effects else run.effects[..LastCommit(run.effects)]
  }

  function SerialRound(db: Db, id: nat, handlers: map<string, Handler>, settings: Settings, clock: nat -> real,
          call: nat): (r: Db)
    requires id < |db.jobs|
    ensures |r.jobs| == |db.jobs|
  {
    var claimed := ClaimRow(db.jobs[id], clock(2 * call));
    var run := RunHandler(handlers, claimed, db.data, call);
    Db(db.jobs[id := FinishRow(claimed, run.error, clock(2 * call + 1), settings.retryBackoff)],
        AllWrites(db.data, Kept(run)))
  }

  datatype SerialResult = SerialResult(db: Db, handled: nat)

  function Serial(db: Db, handlers: map<string, Handler>, settings: Settings, limit: nat, clock: nat -> real,
          call: nat): (r: SerialResult)
    ensures |r.db.jobs| == |db.jobs| && r.handled <= limit
    decreases limit
  {
    if limit == 0 then SerialResult(db, 0)
    else
      match NextJob(db.jobs, clock(2 * call), settings.staleAfter, None)
      case None => SerialResult(db, 0)
      case Some(id) =>
        var rest := Serial(SerialRound(db, id, handlers, settings, clock, call), handlers, settings, limit - 1, clock,
            call + 1);
        rest.(handled := rest.handled + 1)
  }

  lemma {:induction false} EffectsOnWorking(s: SessionState, effects: seq<Effect>)
    ensures AfterEffects(s, effects).working == s.working.(data := AllWrites(s.working.data, effects))
    decreases |effects|
  {
    if effects != [] {
      match effects[0]
      case Write(k, v) => EffectsOnWorking(s.(working := s.working.(data := s.working.data[k := v])), effects[1..]);
      case CommitNow => EffectsOnWorking(s.(committed := s.working), effects[1..]);
    }
  }

  lemma {:induction false} EffectsConcat(s: SessionState, a: seq<Effect>, b: seq<Effect>)
    ensures AfterEffects(s, a + b) == AfterEffects(AfterEffects(s, a), b)
    decreases |a|
  {
    if a == [] {
      assert a + b == b;
    } else {
      assert (a + b)[1..] == a[1..] + b;
      match a[0]
      case Write(k, v) => EffectsConcat(s.(working := s.working.(data := s.working.data[k := v])), a[1..], b);
      case CommitNow => EffectsConcat(s.(committed := s.working), a[1..], b);
    }
  }

  /** What a handler has committed is what it wrote up to its last commit. */
  lemma {:induction false} EffectsOnCommitted(s: SessionState, effects: seq<Effect>)
    requires s.committed == s.working
    ensures AfterEffects(s, effects).committed == s.working.(data := AllWrites(s.working.data,
        effects[..LastCommit(effects)]))
    decreases |effects|
  {
    if effects == [] {
    } else {
      var front, last := effects[..|effects| - 1], effects[|effects| - 1];
      assert effects == front + [last];
      EffectsConcat(s, front, [last]);
      assert [last][1..] == [];
      if last.CommitNow? {
        EffectsOnWorking(s, front);
        EffectsOnWorking(s, effects);
        assert effects[..|effects|] == effects;
      } else {
        EffectsOnCommitted(s, front);
        assert effects[..LastCommit(effects)] == front[..LastCommit(front)];
      }
    }
  }

  lemma UpdateTwice(jobs: Table, id: nat, a: Job, b: Job)
    requires id < |jobs|
    ensures jobs[id := a][id := b] == jobs[id := b]
  {
  }

  /** One round, seen from the pending state. */
  lemma RoundIsSerial(s: SessionState, id: nat, handlers: map<string, Handler>, settings: Settings, clock: nat -> real,
          call: nat)
    requires id < |s.working.jobs|
    ensures Round(s, id, handlers, settings, clock, call).working
        == SerialRound(s.working, id, handlers, settings, clock, call)
  {
    hide RunHandler, FinishRow, AfterEffects, AllWrites;
    var c := AfterClaim(s, Some(id), clock(2 * call));
    var run := RunHandler(handlers, c.working.jobs[id], c.working.data, call);
    JobsKept(c, run.effects);
    EffectsOnWorking(c, run.effects);
    EffectsOnCommitted(c, run.effects);
    var row := ClaimRow(s.working.jobs[id], clock(2 * call));
    UpdateTwice(s.working.jobs, id, row, FinishRow(row, run.error, clock(2 * call + 1), settings.retryBackoff));
  }

  /** Rollback isolation: whatever the handlers do and however they end, a batch leaves exactly the
      rows and the data of the serial run - a returned handler's writes and its mark survive every
      later rollback, and a raising handler leaves its job row and what it had committed itself. */
  lemma {:induction false} BatchIsSerial(s: SessionState, handlers: map<string, Handler>, settings: Settings,
          limit: nat, clock: nat -> real, call: nat)
    ensures var b, r := Batch(s, handlers, settings, limit, clock, call),
        Serial(s.working, handlers, settings, limit, clock, call);
            b.state.working == r.db && b.handled == r.handled
    decreases limit
  {
    hide Round, SerialRound, NextJob;
    if limit > 0 {
      var next := NextJob(s.working.jobs, clock(2 * call), settings.staleAfter, None);
      if next.Some? {
        RoundIsSerial(s, next.value, handlers, settings, clock, call);
        BatchIsSerial(Round(s, next.value, handlers, settings, clock, call), handlers, settings, limit - 1, clock, call
            + 1);
      }
    }
  }

  // ----- what one job sees of it

  /** A round touches no other row, counts the attempt, and without a commit of its own a raising
      handler changes no data. */
  lemma RoundTouchesOneJob(db: Db, id: nat, handlers: map<string, Handler>, settings: Settings, clock: nat -> real,
          call: nat)
    requires id < |db.jobs|
    ensures var after := SerialRound(db, id, handlers, settings, clock, call);
            var run := RunHandler(handlers, ClaimRow(db.jobs[id], clock(2 * call)), db.data, call);
            && (forall i | 0 <= i < |db.jobs| && i != id :: after.jobs[i] == db.jobs[i])
            && after.jobs[id].attempts == db.jobs[id].attempts + 1
            && (after.jobs[id].status.Succeeded? <==> run.error == "")
            && (run.error == "" ==> after.data == AllWrites(db.data, run.effects))
            && (run.error != "" && CommitNow !in run.effects ==> after.data == db.data)
  {
    hide RunHandler, AllWrites;
    var run := RunHandler(handlers, ClaimRow(db.jobs[id], clock(2 * call)), db.data, call);
    NoCommit(run.effects);
    NothingWritten(db.data);
    assert run.effects[..0] == [];
  }

  lemma {:induction false} NoCommit(effects: seq<Effect>)
    ensures CommitNow !in effects ==> LastCommit(effects) == 0
  {
    if effects != [] { NoCommit(effects[..|effects| - 1]); }
  }

  lemma NothingWritten(data: Data)
    ensures AllWrites(data, []) == data
  {
  }

  /** A finished job is never touched again. */
  lemma {:induction false} TerminalRowsStay(db: Db, handlers: map<string, Handler>, settings: Settings, limit: nat,
          clock: nat -> real, call: nat, i: nat)
    requires i < |db.jobs| && Terminal(db.jobs[i])
    ensures Serial(db, handlers, settings, limit, clock, call).db.jobs[i] == db.jobs[i]
    decreases limit
  {
    hide NextJob, SerialRound, RunHandler, AllWrites;
    if limit > 0 {
      var next := NextJob(db.jobs, clock(2 * call), settings.staleAfter, None);
      if next.Some? {
        RoundTouchesOneJob(db, next.value, handlers, settings, clock, call);
        TerminalRowsStay(SerialRound(db, next.value, handlers, settings, clock, call), handlers, settings, limit - 1,
            clock, call + 1, i);
      }
    }
  }

  // ----- draining

  /** Claims a job has left. */
  function Left(j: Job): nat {
    var bound := if j.maxAttempts >= 1 then j.maxAttempts else 1;
    if j.attempts < bound then bound - j.attempts else 0
  }

  function Remaining(jobs: Table): nat {
    if jobs == [] then 0 else Remaining(jobs[..|jobs| - 1]) + Left(jobs[|jobs| - 1])
  }

  lemma {:induction false} RemainingUpdate(jobs: Table, id: nat, j: Job)
    requires id < |jobs|
    ensures Remaining(jobs[id := j]) + Left(jobs[id]) == Remaining(jobs) + Left(j)
    decreases |jobs|
  {
    var last, updated := |jobs| - 1, jobs[id := j];
    if id == last {
      assert updated[..last] == jobs[..last];
    } else {
      assert updated[..last] == jobs[..last][id := j];
      RemainingUpdate(jobs[..last], id, j);
    }
  }

  /** A queued job has an attempt left. */
  predicate QueuedHasAttempts(j: Job) { j.status.Queued? ==> j.attempts == 0 || j.attempts < j.maxAttempts }

  /** The only worker, between two rounds: no job is running. */
  predicate Idle(jobs: Table) { forall i | 0 <= i < |jobs| :: !jobs[i].status.Running? && QueuedHasAttempts(jobs[i]) }

  lemma RoundUsesAnAttempt(db: Db, id: nat, handlers: map<string, Handler>, settings: Settings, clock: nat -> real,
          call: nat)
    requires Idle(db.jobs) && id < |db.jobs| && db.jobs[id].status.Queued?
    ensures var after := SerialRound(db, id, handlers, settings, clock, call);
            Idle(after.jobs) && Remaining(after.jobs) < Remaining(db.jobs)
  {
    hide RunHandler, AllWrites, Remaining;
    var after := SerialRound(db, id, handlers, settings, clock, call);
    RemainingUpdate(db.jobs, id, after.jobs[id]);
    assert QueuedHasAttempts(db.jobs[id]);
  }

  /** A single worker handles at most as many jobs as there are attempts left, and a batch that is
      not cut short by its limit leaves nothing runnable. */
  lemma {:induction false} BatchDrains(db: Db, handlers: map<string, Handler>, settings: Settings, limit: nat,
          clock: nat -> real, call: nat)
    requires Idle(db.jobs)
    ensures var r := Serial(db, handlers, settings, limit, clock, call);
            && Idle(r.db.jobs) && r.handled + Remaining(r.db.jobs) <= Remaining(db.jobs)
            && (r.handled < limit ==> Waiting(r.db.jobs, clock(2 * (call + r.handled))))
    decreases limit
  {
    hide NextJob, SerialRound, Idle, Remaining, Waiting;
    if limit > 0 {
      NothingRunnable(db.jobs, clock(2 * call), settings.staleAfter);
      ClaimedIsQueued(db.jobs, clock(2 * call), settings.staleAfter);
      var next := NextJob(db.jobs, clock(2 * call), settings.staleAfter, None);
      if next.Some? {
        RoundUsesAnAttempt(db, next.value, handlers, settings, clock, call);
        var after := SerialRound(db, next.value, handlers, settings, clock, call);
        BatchDrains(after, handlers, settings, limit - 1, clock, call + 1);
        var rest := Serial(after, handlers, settings, limit - 1, clock, call + 1);
        assert Serial(db, handlers, settings, limit, clock, call) == rest.(handled := rest.handled + 1);
        assert call + 1 + rest.handled == call + (rest.handled + 1);
      } else {
        assert call + 0 == call;
      }
    }
  }

  /** Every job is terminal or scheduled after `now`. */
  predicate Waiting(jobs: Table, now: real) {
    forall i | 0 <= i < |jobs| :: Terminal(jobs[i]) || jobs[i].scheduledAt > now
  }

  lemma NothingRunnable(jobs: Table, now: real, staleAfter: real)
    requires Idle(jobs)
    ensures NextJob(jobs, now, staleAfter, None).None? ==> Waiting(jobs, now)
  {
    hide NextJob;
    if NextJob(jobs, now, staleAfter, None).None? {
      forall i | 0 <= i < |jobs| ensures Terminal(jobs[i]) || jobs[i].scheduledAt > now {
        assert !Runnable(jobs[i], now, staleAfter, None);
      }
    }
  }

  lemma ClaimedIsQueued(jobs: Table, now: real, staleAfter: real)
    requires Idle(jobs)
    ensures var next := NextJob(jobs, now, staleAfter, None); next.Some? ==> jobs[next.value].status.Queued?
  {
    hide NextJob;
  }

  /** Every queued job is due. */
  predicate AllDue(jobs: Table, now: real) {
    forall i | 0 <= i < |jobs| && jobs[i].status.Queued? :: jobs[i].scheduledAt <= now
  }

  predicate AllTerminal(jobs: Table) { forall i | 0 <= i < |jobs| :: Terminal(jobs[i]) }

  /** A batch that starts when everything is due makes progress until all jobs are terminal. */
  lemma BatchProgress(db: Db, handlers: map<string, Handler>, settings: Settings, limit: nat, clock: nat -> real,
          call: nat)
    requires Idle(db.jobs) && limit >= 1 && AllDue(db.jobs, clock(2 * call))
    ensures var r := Serial(db, handlers, settings, limit, clock, call);
            Idle(r.db.jobs) && (Remaining(r.db.jobs) < Remaining(db.jobs) || (r.db == db && AllTerminal(db.jobs)))
  {
    BatchDrains(db, handlers, settings, limit, clock, call);
    NothingRunnable(db.jobs, clock(2 * call), settings.staleAfter);
    DueMeansTerminal(db.jobs, clock(2 * call));
    var next := NextJob(db.jobs, clock(2 * call), settings.staleAfter, None);
    if next.Some? {
      ClaimedIsQueued(db.jobs, clock(2 * call), settings.staleAfter);
      RoundUsesAnAttempt(db, next.value, handlers, settings, clock, call);
      BatchDrains(SerialRound(db, next.value, handlers, settings, clock, call), handlers, settings, limit - 1, clock,
          call + 1);
    }
    hide NextJob, SerialRound, Idle, Remaining, AllTerminal;
  }

  lemma DueMeansTerminal(jobs: Table, now: real)
    requires Idle(jobs) && AllDue(jobs, now)
    ensures Waiting(jobs, now) ==> AllTerminal(jobs)
  {
  }

  /** Batches started one after the other, at the given calls. */
  function Drain(db: Db, handlers: map<string, Handler>, settings: Settings, limit: nat, clock: nat -> real,
          starts: seq<nat>): Db
    decreases |starts|
  {
    if starts == [] then db
    else Drain(Serial(db, handlers, settings, limit, clock, starts[0]).db, handlers, settings, limit, clock,
        starts[1..])
  }

  /** Each batch starts when everything queued by then is due. */
  predicate StartsLateEnough(db: Db, handlers: map<string, Handler>, settings: Settings, limit: nat, clock: nat -> real,
          starts: seq<nat>)
    decreases |starts|
  {
    starts != [] ==>
      && AllDue(db.jobs, clock(2 * starts[0]))
      && StartsLateEnough(Serial(db, handlers, settings, limit, clock, starts[0]).db, handlers, settings, limit, clock,
          starts[1..])
  }

  /** One worker finishes every job: with at least as many batches as attempts are left, each
      started after the backoffs of the one before, all jobs end terminal - whatever the handlers
      do. */
  lemma {:induction false} DrainFinishesEveryJob(db: Db, handlers: map<string, Handler>, settings: Settings, limit: nat,
          clock: nat -> real, starts: seq<nat>)
    requires Idle(db.jobs) && limit >= 1 && |starts| > Remaining(db.jobs)
    requires StartsLateEnough(db, handlers, settings, limit, clock, starts)
    ensures AllTerminal(Drain(db, handlers, settings, limit, clock, starts).jobs)
    decreases |starts|
  {
    hide Serial, Idle, Remaining, AllTerminal;
    BatchProgress(db, handlers, settings, limit, clock, starts[0]);
    var after := Serial(db, handlers, settings, limit, clock, starts[0]).db;
    if AllTerminal(db.jobs) && after == db {
      TerminalDrain(db, handlers, settings, limit, clock, starts[1..]);
    } else {
      DrainFinishesEveryJob(after, handlers, settings, limit, clock, starts[1..]);
    }
  }

  lemma {:induction false} TerminalDrain(db: Db, handlers: map<string, Handler>, settings: Settings, limit: nat,
          clock: nat -> real, starts: seq<nat>)
    requires AllTerminal(db.jobs)
    ensures Drain(db, handlers, settings, limit, clock, starts).jobs == db.jobs
    decreases |starts|
  {
    if starts != [] {
      var next := NextJob(db.jobs, clock(2 * starts[0]), settings.staleAfter, None);
      hide NextJob;
      TerminalDrain(db, handlers, settings, limit, clock, starts[1..]);
    }
  }

  // ----- the worker

  datatype Worked = Worked(db: Db, processed: nat)

  /** Batches until `maxJobs` jobs were processed or a batch handled none. */
  function WorkerRuns(db: Db, handlers: map<string, Handler>, settings: Settings, batchSize: nat, clock: nat -> real,
          processed: nat, maxJobs: nat): Worked
    decreases if processed < maxJobs then maxJobs - processed else 0
  {
    var b := Serial(db, handlers, settings, batchSize, clock, processed);
    var total := processed + b.handled;
    if total >= maxJobs || b.handled == 0 then Worked(b.db, total)
    else WorkerRuns(b.db, handlers, settings, batchSize, clock, total, maxJobs)
  }

  /** A worker told to stop after `maxJobs` handles fewer jobs than that only when nothing is runnable
      any more, and never a whole batch more. */
  lemma {:induction false} WorkerStopsInTime(db: Db, handlers: map<string, Handler>, settings: Settings,
          batchSize: nat, clock: nat -> real, processed: nat, maxJobs: nat)
    requires batchSize >= 1 && processed < maxJobs
    ensures var w := WorkerRuns(db, handlers, settings, batchSize, clock, processed, maxJobs);
            && w.processed < maxJobs + batchSize
            && (w.processed < maxJobs ==>
                NextJob(w.db.jobs, clock(2 * w.processed), settings.staleAfter, None).None?)
    decreases maxJobs - processed
  {
    hide NextJob, SerialRound;
    var b := Serial(db, handlers, settings, batchSize, clock, processed);
    var total := processed + b.handled;
    if b.handled == 0 { IdleBatch(db, handlers, settings, batchSize, clock, processed); }
    if total < maxJobs && b.handled > 0 {
      WorkerStopsInTime(b.db, handlers, settings, batchSize, clock, total, maxJobs);
    }
  }

  lemma IdleBatch(db: Db, handlers: map<string, Handler>, settings: Settings, limit: nat, clock: nat -> real,
          call: nat)
    requires limit >= 1 && Serial(db, handlers, settings, limit, clock, call).handled == 0
    ensures Serial(db, handlers, settings, limit, clock, call).db == db
    ensures NextJob(db.jobs, clock(2 * call), settings.staleAfter, None).None?
  {
    hide NextJob, SerialRound;
  }

  class Worker {
    const queue: JobQueue
    const batchSize: nat
    var running: bool
    var processed: nat

    constructor (queue: JobQueue, batchSize: nat)
      ensures this.queue == queue && this.batchSize == batchSize && processed == 0
    {
      this.queue, this.batchSize, running, processed := queue, batchSize, false, 0;
    }

    /** A fresh session per batch on the committed database, committed at the end. */
    method Run(db: Db, maxJobs: nat, clock: nat -> real) returns (final: Db)
      requires processed == 0
      modifies this
      ensures var w := WorkerRuns(db, queue.handlers, queue.settings, batchSize, clock, 0, maxJobs);
              final == w.db && processed == w.processed
    {
      hide Serial, Batch;
      final := db;
      running := true;
      while running
        invariant WorkerRuns(db, queue.handlers, queue.settings, batchSize, clock, 0, maxJobs)
          == if running then WorkerRuns(final, queue.handlers, queue.settings, batchSize, clock, processed, maxJobs)
             else Worked(final, processed)
        decreases running, if processed < maxJobs then maxJobs - processed else 0
      {
        var session := new Session(final);
        ghost var start := session.State();
        var handled := queue.RunPending(session, batchSize, clock, processed);
        BatchIsSerial(start, queue.handlers, queue.settings, batchSize, clock, processed);
        session.Commit();
        final := session.committed;
        processed := processed + handled;
        if processed >= maxJobs || handled == 0 {
          running := false;
        }
      }
    }
  }
}
