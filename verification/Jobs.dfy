/** The job queue on its table: enqueue, claim, finish and cancel as changes of job rows, the
    session with its committed and pending state, and the batch loop of a worker. */
module Jobs {
  import opened Strings

  // ----- rows

  datatype Status = Queued | Running | Succeeded | Failed | Cancelled

  datatype Job = Job(
    kind: string, payload: string, status: Status, attempts: nat, maxAttempts: int,
    scheduledAt: real, startedAt: Option<real>, finishedAt: Option<real>, error: string)

  /** Ids are positions in the table. */
  type Table = seq<Job>

  predicate Terminal(j: Job) { j.status.Succeeded? || j.status.Failed? || j.status.Cancelled? }

  function Pow2(n: nat): (p: nat)
    ensures p >= 1
  {
    if n == 0 then 1 else 2 * Pow2(n - 1)
  }

  // ----- enqueue

  datatype JobSpec = JobSpec(kind: string, payload: string, maxAttempts: int, scheduledAt: Option<real>)

  function NewJob(spec: JobSpec, now: real): Job {
    Job(spec.kind, spec.payload, Queued, 0, spec.maxAttempts,
        if spec.scheduledAt.Some? then spec.scheduledAt.value else now, None, None, "")
  }

  // ----- claim

  /** Settings of a queue. */
  datatype Settings = Settings(staleAfter: real, retryBackoff: real)

  predicate IsStale(j: Job, now: real, staleAfter: real) {
    j.status.Running? && j.startedAt.Some? && j.startedAt.value < now - staleAfter
  }

  /** The WHERE clause of the claim. */
  predicate Runnable(j: Job, now: real, staleAfter: real, kinds: Option<seq<string>>) {
    && (j.status.Queued? || IsStale(j, now, staleAfter))
    && (kinds.Some? && kinds.value != [] ==> j.kind in kinds.value)
    && j.scheduledAt <= now
  }

  /** The runnable row with the least (scheduled_at, id). */
  function NextJob(jobs: Table, now: real, staleAfter: real, kinds: Option<seq<string>>): (r: Option<nat>)
    ensures r.Some? ==> r.value < |jobs| && Runnable(jobs[r.value], now, staleAfter, kinds)
    ensures r.Some? ==> forall i | 0 <= i < |jobs| && Runnable(jobs[i], now, staleAfter, kinds) ::
      jobs[r.value].scheduledAt < jobs[i].scheduledAt || (jobs[r.value].scheduledAt == jobs[i].scheduledAt
          && r.value <= i)
    ensures r.None? ==> forall i | 0 <= i < |jobs| :: !Runnable(jobs[i], now, staleAfter, kinds)
  {
    if jobs == [] then None
    else
      var last := |jobs| - 1;
      var before := NextJob(jobs[..last], now, staleAfter, kinds);
      if !Runnable(jobs[last], now, staleAfter, kinds) then before
      else if before.Some? && jobs[before.value].scheduledAt <= jobs[last].scheduledAt then before
      else Some(last)
  }

  function ClaimRow(j: Job, now: real): Job {
    j.(status := Running, attempts := j.attempts + 1, startedAt := Some(now), error := "")
  }

  // ----- finish and cancel

  function SucceedRow(j: Job, now: real): Job { j.(status := Succeeded, finishedAt := Some(now), error := "") }

  function Delay(backoff: real, attempts: nat): real {
    backoff * Pow2(if attempts >= 1 then attempts - 1 else 0) as real
  }

  /** Failed for good once the attempts are used up, otherwise queued again after a backoff. */
  function FailRow(j: Job, error: string, now: real, backoff: real): Job {
    var e := if |error| <= 2000 then error else error[..2000];
    if j.attempts >= j.maxAttempts then j.(status := Failed, finishedAt := Some(now), error := e)
    else j.(status := Queued, scheduledAt := now + Delay(backoff, j.attempts), error := e)
  }

  function FinishRow(j: Job, error: string, now: real, backoff: real): Job {
    if error == "" then SucceedRow(j, now) else FailRow(j, error, now, backoff)
  }

  function CancelRow(j: Job, now: real): Job { j.(status := Cancelled, finishedAt := Some(now)) }

  // ----- the database and a session on it

  type Data = map<string, string>

  /** The job table and everything the handlers write. */
  datatype Db = Db(jobs: Table, data: Data)

  /** What a handler does with its session: writes, its own commits, and how it ends. */
  datatype Effect = Write(key: string, value: string) | CommitNow

  /** An empty error means that the handler returned. */
  datatype HandlerRun = HandlerRun(effects: seq<Effect>, error: string)

  /** A handler sees the data, the payload, and - for whatever else it depends on - the number of
      the call. */
  type Handler = (Data, string, nat) -> HandlerRun

  /** Committed state and the pending state of the one session of a worker. */
  datatype SessionState = SessionState(committed: Db, working: Db)

  function AfterEffects(s: SessionState, effects: seq<Effect>): SessionState
    decreases |effects|
  {
    if effects == [] then s
    else
      match effects[0]
      case Write(k, v) => AfterEffects(s.(working := s.working.(data := s.working.data[k := v])), effects[1..])
      case CommitNow => AfterEffects(s.(committed := s.working), effects[1..])
  }

  class Session {
    var committed: Db
    var working: Db

    constructor (db: Db)
      ensures committed == working == db
    {
      committed, working := db, db;
    }

    function State(): SessionState
      reads this
    {
      SessionState(committed, working)
    }

    method Commit()
      modifies this
      ensures working == old(working) && committed == old(working)
    {
      committed := working;
    }

    method Rollback()
      modifies this
      ensures committed == old(committed) && working == old(committed)
    {
      working := committed;
    }

    /** Runs a handler's statements on this session. */
    method Apply(effects: seq<Effect>)
      modifies this
      ensures State() == AfterEffects(old(State()), effects)
    {
      for i := 0 to |effects|
        invariant AfterEffects(old(State()), effects) == AfterEffects(State(), effects[i..])
      {
        assert effects[i..][0] == effects[i] && effects[i..][1..] == effects[i + 1..];
        match effects[i]
        case Write(k, v) => working := working.(data := working.data[k := v]);
        case CommitNow => committed := working;
      }
      assert effects[|effects|..] == [];
    }
  }

  datatype EnqueueResult = Enqueued(id: nat) | NoHandler

  class JobQueue {
    const settings: Settings
    const handlers: map<string, Handler>

    /** A queue with the handlers registered for each kind of job. */
    constructor (settings: Settings, handlers: map<string, Handler>)
      ensures this.settings == settings && this.handlers == handlers
    {
      this.settings, this.handlers := settings, handlers;
    }

    /** Adds a row to the pending state. */
    method Enqueue(session: Session, spec: JobSpec, now: real) returns (r: EnqueueResult)
      modifies session
      ensures spec.kind !in handlers ==> r == NoHandler && session.State() == old(session.State())
      ensures spec.kind in handlers ==>
        && r == Enqueued(|old(session.working.jobs)|)
        && session.State() == old(session.State()).(working := old(session.working).(jobs := old(session.working.jobs)
            + [NewJob(spec, now)]))
    {
      if spec.kind !in handlers {
        return NoHandler;
      }
      session.working := session.working.(jobs := session.working.jobs + [NewJob(spec, now)]);
      r := Enqueued(|session.working.jobs| - 1);
    }

    /** Claims the next runnable job and commits everything pending together with the claim. */
    method Claim(session: Session, kinds: Option<seq<string>>, now: real) returns (r: Option<nat>)
      modifies session
      ensures r == NextJob(old(session.working.jobs), now, settings.staleAfter, kinds)
      ensures session.State() == AfterClaim(old(session.State()), r, now)
    {
      r := NextJob(session.working.jobs, now, settings.staleAfter, kinds);
      if r.None? {
        return;
      }
      var id := r.value;
      session.working := session.working.(jobs := session.working.jobs[id := ClaimRow(session.working.jobs[id], now)]);
      session.Commit();
    }

    method Finish(session: Session, id: nat, error: string, now: real) returns (status: Status)
      requires id < |session.working.jobs|
      modifies session
      ensures session.State() == AfterFinish(old(session.State()), id, error, now, settings.retryBackoff)
      ensures status == session.working.jobs[id].status
    {
      var j := FinishRow(session.working.jobs[id], error, now, settings.retryBackoff);
      session.working := session.working.(jobs := session.working.jobs[id := j]);
      status := j.status;
    }

    method Cancel(session: Session, id: nat, now: real)
      requires id < |session.working.jobs|
      modifies session
      ensures session.State() == old(session.State()).(working := old(session.working).(
        jobs := old(session.working.jobs)[id := CancelRow(old(session.working.jobs)[id], now)]))
    {
      session.working := session.working.(jobs := session.working.jobs[id := CancelRow(session.working.jobs[id], now)]);
    }

    /** The body of the batch loop: runs the handler of a claimed job and finishes the job; when
        the handler raises, rolls back first and commits the failure at once. */
    method Serve(session: Session, id: nat, clock: nat -> real, call: nat)
      requires id < |session.working.jobs| && session.committed == session.working
      modifies session
      ensures session.State() == Served(old(session.State()), id, handlers, settings, clock, call)
    {
      hide AfterEffects, FinishRow, RunHandler;
      var run := RunHandler(handlers, session.working.jobs[id], session.working.data, call);
      JobsKept(session.State(), run.effects);
      session.Apply(run.effects);
      if run.error == "" {
        var _ := Finish(session, id, "", clock(2 * call + 1));
      } else {
        session.Rollback();
        var _ := Finish(session, id, run.error, clock(2 * call + 1));
        session.Commit();
      }
    }

    /** The batch loop: claim and serve up to `limit` jobs. The clock is read at every claim and
        every finish. */
    method RunPending(session: Session, limit: int, clock: nat -> real, first: nat) returns (handled: nat)
      modifies session
      ensures var b := Batch(old(session.State()), handlers, settings, if limit >= 0 then limit else 0, clock, first);
              session.State() == b.state && handled == b.handled
    {
      hide Served, AfterClaim, NextJob;
      handled := 0;
      var rounds := if limit >= 0 then limit else 0;
      for i := 0 to rounds
        invariant handled == i
        invariant Batch(old(session.State()), handlers, settings, rounds, clock, first)
          == Counted(Batch(session.State(), handlers, settings, rounds - i, clock, first + i), i)
      {
        var call := first + i;
        ghost var before := session.State();
        var claimed := Claim(session, None, clock(2 * call));
        if claimed.None? {
          assert session.State() == before by { NothingClaimed(before, clock(2 * call)); }
          return;
        }
        ClaimedState(before, claimed.value, clock(2 * call));
        Serve(session, claimed.value, clock, call);
        handled := handled + 1;
      }
    }
  }

  lemma NothingClaimed(s: SessionState, now: real)
    ensures AfterClaim(s, None, now) == s
  {
  }

  lemma ClaimedState(s: SessionState, id: nat, now: real)
    requires id < |s.working.jobs|
    ensures var c := AfterClaim(s, Some(id), now); c.committed == c.working && |c.working.jobs| == |s.working.jobs|
  {
  }

  function AfterClaim(s: SessionState, claimed: Option<nat>, now: real): SessionState {
    if claimed.None? || claimed.value >= |s.working.jobs| then s
    else
      var db := s.working.(jobs := s.working.jobs[claimed.value := ClaimRow(s.working.jobs[claimed.value], now)]);
      SessionState(db, db)
  }

  function AfterFinish(s: SessionState, id: nat, error: string, now: real, backoff: real): SessionState
    requires id < |s.working.jobs|
  {
    s.(working := s.working.(jobs := s.working.jobs[id := FinishRow(s.working.jobs[id], error, now, backoff)]))
  }

  /** A kind without a handler raises before it writes anything. */
  function RunHandler(handlers: map<string, Handler>, job: Job, data: Data, call: nat): HandlerRun {
    if job.kind in handlers then handlers[job.kind](data, job.payload, call)
    else HandlerRun([], "JobError: no handler registered for job kind")
  }

  lemma {:induction false} JobsKept(s: SessionState, effects: seq<Effect>)
    ensures AfterEffects(s, effects).working.jobs == s.working.jobs
    ensures s.committed.jobs == s.working.jobs ==> AfterEffects(s, effects).committed.jobs == s.working.jobs
    decreases |effects|
  {
    if effects != [] {
      match effects[0]
      case Write(k, v) => JobsKept(s.(working := s.working.(data := s.working.data[k := v])), effects[1..]);
      case CommitNow => JobsKept(s.(committed := s.working), effects[1..]);
    }
  }

  datatype BatchResult = BatchResult(state: SessionState, handled: nat)

  function Counted(b: BatchResult, n: nat): BatchResult { b.(handled := b.handled + n) }

  /** What serving a claimed job does. */
  function Served(c: SessionState, id: nat, handlers: map<string, Handler>, settings: Settings, clock: nat -> real,
          call: nat): (r: SessionState)
    requires id < |c.working.jobs| && c.committed == c.working
    ensures |r.working.jobs| == |c.working.jobs|
  {
    var run := RunHandler(handlers, c.working.jobs[id], c.working.data, call);
    JobsKept(c, run.effects);
    var e := AfterEffects(c, run.effects);
    if run.error == "" then AfterFinish(e, id, "", clock(2 * call + 1), settings.retryBackoff)
    else
      var f := AfterFinish(SessionState(e.committed, e.committed), id, run.error, clock(2 * call + 1),
          settings.retryBackoff);
      SessionState(f.working, f.working)
  }

  /** One round of the batch loop. */
  function Round(s: SessionState, id: nat, handlers: map<string, Handler>, settings: Settings, clock: nat -> real,
          call: nat): (r: SessionState)
    requires id < |s.working.jobs|
    ensures |r.working.jobs| == |s.working.jobs|
  {
    ClaimedState(s, id, clock(2 * call));
    Served(AfterClaim(s, Some(id), clock(2 * call)), id, handlers, settings, clock, call)
  }

  function Batch(s: SessionState, handlers: map<string, Handler>, settings: Settings, limit: nat, clock: nat -> real,
          call: nat): BatchResult
    decreases limit
  {
    if limit == 0 then BatchResult(s, 0)
    else
      match NextJob(s.working.jobs, clock(2 * call), settings.staleAfter, None)
      case None => BatchResult(s, 0)
      case Some(id) => Counted(Batch(Round(s, id, handlers, settings, clock, call), handlers, settings, limit - 1,
          clock, call + 1), 1)
  }
}
