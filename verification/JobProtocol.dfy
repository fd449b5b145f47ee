/** The queue as a transition system: any number of workers, cancellations and clock steps in any
    order, with the claims of every job recorded. */
module JobProtocol {
  import opened Strings
  import opened Jobs
  import opened JobBatches

  /** When a job was claimed, and how many of those claims took it from a stale worker. */
  datatype History = History(claims: seq<real>, stale: nat)

  /** `held` are the ids that workers have claimed and not finished yet. */
  datatype System = System(jobs: Table, history: seq<History>, held: multiset<nat>, now: real)

  datatype Step =
    | EnqueueStep(spec: JobSpec)
    | ClaimStep(kinds: Option<seq<string>>)
    | FinishStep(id: nat, error: string)
    | CancelStep(id: nat)
    | Elapse(seconds: real)

  function Claimed(s: System, id: nat, settings: Settings): System
    requires id < |s.jobs| && id < |s.history|
  {
    var j, h := s.jobs[id], s.history[id];
    s.(jobs := s.jobs[id := ClaimRow(j, s.now)],
       history := s.history[id := History(h.claims + [s.now], if j.status.Running? then h.stale + 1 else h.stale)],
       held := s.held + multiset{id})
  }

  /** One atomic step; a step that is not enabled changes nothing. */
  function Next(s: System, step: Step, settings: Settings): System
    requires |s.history| == |s.jobs|
  {
    match step
    case EnqueueStep(spec) => s.(jobs := s.jobs + [NewJob(spec, s.now)], history := s.history + [History([], 0)])
    case ClaimStep(kinds) =>
      (match NextJob(s.jobs, s.now, settings.staleAfter, kinds)
       case None => s
       case Some(id) => Claimed(s, id, settings))
    case FinishStep(id, error) =>
      if id in s.held && id < |s.jobs| then
        s.(jobs := s.jobs[id := FinishRow(s.jobs[id], error, s.now, settings.retryBackoff)],
            held := s.held - multiset{id})
      else s
    case CancelStep(id) => if id < |s.jobs| then s.(jobs := s.jobs[id := CancelRow(s.jobs[id], s.now)]) else s
    case Elapse(seconds) => if seconds > 0.0 then s.(now := s.now + seconds) else s
  }

  function Run(s: System, steps: seq<Step>, settings: Settings): (r: System)
    requires |s.history| == |s.jobs|
    ensures |r.history| == |r.jobs|
    decreases |steps|
  {
    if steps == [] then s else Run(Next(s, steps[0], settings), steps[1..], settings)
  }

  // ----- what every step keeps

  function Bound(j: Job): nat { if j.maxAttempts >= 1 then j.maxAttempts else 1 }

  /** The earliest time of the claim number `n`, counted from 0, when the first one was at `first`. */
  function Earliest(first: real, backoff: real, n: nat): real { first + backoff * (Pow2(n) - 1) as real }

  predicate Spaced(claims: seq<real>, backoff: real) {
    forall n | 0 <= n < |claims| :: claims[n] >= Earliest(claims[0], backoff, n)
  }

  predicate JobInvariant(j: Job, h: History, now: real, backoff: real) {
    && j.attempts == |h.claims|
    && QueuedHasAttempts(j)
    && (j.status.Running? ==> j.attempts >= 1)
    && j.attempts <= Bound(j) + h.stale
    && (h.claims != [] ==> h.claims[|h.claims| - 1] <= now)
    && (h.stale == 0 ==> Spaced(h.claims, backoff))
    && (h.stale == 0 && j.status.Queued? && h.claims != [] ==> j.scheduledAt >= Earliest(h.claims[0], backoff,
        |h.claims|))
  }

  predicate Invariant(s: System, backoff: real) {
    && |s.history| == |s.jobs|
    && (forall i | 0 <= i < |s.jobs| :: JobInvariant(s.jobs[i], s.history[i], s.now, backoff))
    && (forall i | i in s.held :: i < |s.jobs| && s.jobs[i].attempts >= 1)
  }

  lemma ClaimKeeps(j: Job, h: History, now: real, settings: Settings)
    requires JobInvariant(j, h, now, settings.retryBackoff) && Runnable(j, now, settings.staleAfter, None)
    ensures JobInvariant(ClaimRow(j, now), History(h.claims + [now], if j.status.Running? then h.stale + 1
        else h.stale), now, settings.retryBackoff)
  {
    var claims := h.claims + [now];
    if j.status.Queued? && h.stale == 0 {
      assert h.claims == [] ==> Earliest(now, settings.retryBackoff, 0) == now by { assert Pow2(0) == 1; }
      hide Earliest, Pow2;
      forall n | 0 <= n < |claims| ensures claims[n] >= Earliest(claims[0], settings.retryBackoff, n) {
        if n < |h.claims| { assert claims[n] == h.claims[n]; }
      }
    }
  }

  lemma DoubleDelay(first: real, last: real, now: real, backoff: real, n: nat)
    requires n >= 1 && last <= now && last >= Earliest(first, backoff, n - 1)
    ensures now + Delay(backoff, n) >= Earliest(first, backoff, n)
  {
    var p := Pow2(n - 1) as real;
    assert (Pow2(n) - 1) as real == 2.0 * p - 1.0 && (Pow2(n - 1) - 1) as real == p - 1.0;
    hide Pow2;
    assert Earliest(first, backoff, n) == first + backoff * (2.0 * p - 1.0);
    assert Earliest(first, backoff, n - 1) == first + backoff * (p - 1.0);
    assert Delay(backoff, n) == backoff * p;
    assert backoff * (2.0 * p - 1.0) == backoff * (p - 1.0) + backoff * p;
  }

  lemma FinishKeeps(j: Job, h: History, error: string, now: real, backoff: real)
    requires JobInvariant(j, h, now, backoff) && j.attempts >= 1
    ensures JobInvariant(FinishRow(j, error, now, backoff), h, now, backoff)
  {
    hide Earliest, Delay;
    if h.stale == 0 {
      DoubleDelay(h.claims[0], h.claims[|h.claims| - 1], now, backoff, |h.claims|);
    }
  }

  lemma LaterKeeps(j: Job, h: History, now: real, later: real, backoff: real)
    requires JobInvariant(j, h, now, backoff) && now <= later
    ensures JobInvariant(j, h, later, backoff)
  {
    hide Earliest;
  }

  lemma NewJobHolds(spec: JobSpec, now: real, backoff: real)
    ensures JobInvariant(NewJob(spec, now), History([], 0), now, backoff)
  {
  }

  lemma CancelKeeps(j: Job, h: History, now: real, backoff: real)
    requires JobInvariant(j, h, now, backoff)
    ensures JobInvariant(CancelRow(j, now), h, now, backoff)
  {
    hide Earliest;
  }

  lemma StepKeepsInvariant(s: System, step: Step, settings: Settings)
    requires Invariant(s, settings.retryBackoff)
    ensures Invariant(Next(s, step, settings), settings.retryBackoff)
  {
    hide JobInvariant, NewJob, FinishRow, NextJob, ClaimRow, CancelRow, Runnable, Invariant;
    InvariantParts(s, settings.retryBackoff);
    var backoff := settings.retryBackoff;
    match step
    case EnqueueStep(spec) => NewRowKeeps(s, spec, backoff);
    case ClaimStep(kinds) =>
      var next := NextJob(s.jobs, s.now, settings.staleAfter, kinds);
      if next.Some? {
        var id := next.value;
        var j, h := s.jobs[id], s.history[id];
        AnyKind(j, s.now, settings.staleAfter, kinds);
        ClaimKeeps(j, h, s.now, settings);
        AttemptCounted(j, s.now);
        RowUpdateKeeps(s, id, ClaimRow(j, s.now), History(h.claims + [s.now], if j.status.Running? then h.stale + 1
            else h.stale),
                       s.held + multiset{id}, backoff);
      }
    case FinishStep(id, error) =>
      if id in s.held && id < |s.jobs| {
        FinishKeeps(s.jobs[id], s.history[id], error, s.now, backoff);
        AttemptsKept(s.jobs[id], error, s.now, backoff);
        RowUpdateKeeps(s, id, FinishRow(s.jobs[id], error, s.now, backoff), s.history[id], s.held - multiset{id},
            backoff);
        assert s.history[id := s.history[id]] == s.history;
      }
    case CancelStep(id) =>
      if id < |s.jobs| {
        CancelKeeps(s.jobs[id], s.history[id], s.now, backoff);
        AttemptsKept(s.jobs[id], "", s.now, backoff);
        RowUpdateKeeps(s, id, CancelRow(s.jobs[id], s.now), s.history[id], s.held, backoff);
        assert s.history[id := s.history[id]] == s.history;
      }
    case Elapse(seconds) => if seconds > 0.0 { TimeKeeps(s, s.now + seconds, backoff); }
  }

  lemma InvariantParts(s: System, backoff: real)
    requires Invariant(s, backoff)
    ensures |s.history| == |s.jobs|
    ensures forall i | 0 <= i < |s.jobs| :: JobInvariant(s.jobs[i], s.history[i], s.now, backoff)
    ensures forall i | i in s.held :: i < |s.jobs| && s.jobs[i].attempts >= 1
  {
    hide JobInvariant;
  }

  lemma RowUpdateKeeps(s: System, id: nat, j: Job, h: History, held: multiset<nat>, backoff: real)
    requires Invariant(s, backoff) && id < |s.jobs| && JobInvariant(j, h, s.now, backoff)
        && j.attempts >= s.jobs[id].attempts
    requires forall i | i in held :: i in s.held || (i == id && j.attempts >= 1)
    ensures Invariant(s.(jobs := s.jobs[id := j], history := s.history[id := h], held := held), backoff)
  {
    hide JobInvariant;
  }

  lemma NewRowKeeps(s: System, spec: JobSpec, backoff: real)
    requires Invariant(s, backoff)
    ensures Invariant(s.(jobs := s.jobs + [NewJob(spec, s.now)], history := s.history + [History([], 0)]), backoff)
  {
    hide JobInvariant, NewJob;
    NewJobHolds(spec, s.now, backoff);
  }

  lemma TimeKeeps(s: System, later: real, backoff: real)
    requires Invariant(s, backoff) && s.now <= later
    ensures Invariant(s.(now := later), backoff)
  {
    hide JobInvariant;
    forall i | 0 <= i < |s.jobs| ensures JobInvariant(s.jobs[i], s.history[i], later, backoff) {
      LaterKeeps(s.jobs[i], s.history[i], s.now, later, backoff);
    }
  }

  lemma AnyKind(j: Job, now: real, staleAfter: real, kinds: Option<seq<string>>)
    requires Runnable(j, now, staleAfter, kinds)
    ensures Runnable(j, now, staleAfter, None)
  {
  }

  lemma AttemptCounted(j: Job, now: real)
    ensures ClaimRow(j, now).attempts == j.attempts + 1
  {
  }

  lemma AttemptsKept(j: Job, error: string, now: real, backoff: real)
    ensures FinishRow(j, error, now, backoff).attempts == j.attempts
        && FinishRow(j, error, now, backoff).maxAttempts == j.maxAttempts
    ensures CancelRow(j, now).attempts == j.attempts && CancelRow(j, now).maxAttempts == j.maxAttempts
  {
  }

  function Start(now: real): System { System([], [], multiset{}, now) }

  lemma {:induction false} RunKeepsInvariant(s: System, steps: seq<Step>, settings: Settings)
    requires Invariant(s, settings.retryBackoff)
    ensures Invariant(Run(s, steps, settings), settings.retryBackoff)
    decreases |steps|
  {
    hide Next, Invariant;
    assert |s.history| == |s.jobs| by { InvariantLengths(s, settings.retryBackoff); }
    if steps != [] {
      StepKeepsInvariant(s, steps[0], settings);
      InvariantLengths(Next(s, steps[0], settings), settings.retryBackoff);
      RunKeepsInvariant(Next(s, steps[0], settings), steps[1..], settings);
    }
  }

  lemma InvariantLengths(s: System, backoff: real)
    requires Invariant(s, backoff)
    ensures |s.history| == |s.jobs|
  {
  }

  /** Over every interleaving: the attempts count the claims, a queued job still has one, and there
      are at most `max_attempts` (at least one) plus the number of stale reclaims. */
  lemma AttemptsAreBounded(start: real, steps: seq<Step>, settings: Settings, i: nat)
    requires i < |Run(Start(start), steps, settings).jobs|
    ensures var s := Run(Start(start), steps, settings);
            && s.jobs[i].attempts == |s.history[i].claims|
            && (s.jobs[i].status.Queued? && s.jobs[i].maxAttempts >= 1 ==> s.jobs[i].attempts < s.jobs[i].maxAttempts)
            && s.jobs[i].attempts <= Bound(s.jobs[i]) + s.history[i].stale
  {
    hide Run;
    RunKeepsInvariant(Start(start), steps, settings);
    var s := Run(Start(start), steps, settings);
    assert JobInvariant(s.jobs[i], s.history[i], s.now, settings.retryBackoff);
  }

  /** Backoff: without a stale reclaim, the n-th claim of a job comes at least
      backoff * (2^(n-1) - 1) after its first. */
  lemma ClaimsAreSpaced(start: real, steps: seq<Step>, settings: Settings, i: nat, n: nat)
    requires var s := Run(Start(start), steps, settings);
             i < |s.jobs| && s.history[i].stale == 0 && 1 <= n <= |s.history[i].claims|
    ensures var claims := Run(Start(start), steps, settings).history[i].claims;
            claims[n - 1] >= claims[0] + settings.retryBackoff * (Pow2(n - 1) - 1) as real
  {
    hide Run, Pow2;
    RunKeepsInvariant(Start(start), steps, settings);
    var s := Run(Start(start), steps, settings);
    assert JobInvariant(s.jobs[i], s.history[i], s.now, settings.retryBackoff);
  }

  // ----- how many claims a run can make

  predicate IsClaim(s: System, step: Step, settings: Settings) {
    step.ClaimStep? && NextJob(s.jobs, s.now, settings.staleAfter, step.kinds).Some?
  }

  predicate IsStaleClaim(s: System, step: Step, settings: Settings) {
    IsClaim(s, step, settings) && s.jobs[NextJob(s.jobs, s.now, settings.staleAfter, step.kinds).value].status.Running?
  }

  function Claims(s: System, steps: seq<Step>, settings: Settings): nat
    requires |s.history| == |s.jobs|
    decreases |steps|
  {
    if steps == [] then 0
    else (if IsClaim(s, steps[0], settings) then 1 else 0) + Claims(Next(s, steps[0], settings), steps[1..], settings)
  }

  function StaleClaims(s: System, steps: seq<Step>, settings: Settings): nat
    requires |s.history| == |s.jobs|
    decreases |steps|
  {
    if steps == [] then 0
    else
      (if IsStaleClaim(s, steps[0], settings) then 1 else 0)
      + StaleClaims(Next(s, steps[0], settings), steps[1..], settings)
  }

  lemma StepUsesAttempt(s: System, step: Step, settings: Settings)
    requires Invariant(s, settings.retryBackoff) && !step.EnqueueStep?
    ensures Remaining(Next(s, step, settings).jobs) + (if IsClaim(s, step, settings) then 1 else 0)
         <= Remaining(s.jobs) + (if IsStaleClaim(s, step, settings) then 1 else 0)
  {
    hide NextJob, Remaining, FinishRow, CancelRow;
    var t := Next(s, step, settings);
    match step
    case ClaimStep(kinds) =>
      var next := NextJob(s.jobs, s.now, settings.staleAfter, kinds);
      if next.Some? {
        RemainingUpdate(s.jobs, next.value, t.jobs[next.value]);
        assert JobInvariant(s.jobs[next.value], s.history[next.value], s.now, settings.retryBackoff);
      }
    case FinishStep(id, error) =>
      if id in s.held && id < |s.jobs| {
        RemainingUpdate(s.jobs, id, t.jobs[id]);
        AttemptsKept(s.jobs[id], error, s.now, settings.retryBackoff);
      }
    case CancelStep(id) =>
      if id < |s.jobs| {
        RemainingUpdate(s.jobs, id, t.jobs[id]);
        AttemptsKept(s.jobs[id], "", s.now, settings.retryBackoff);
      }
    case Elapse(_) =>
  }

  predicate NoEnqueue(steps: seq<Step>) { forall step | step in steps :: !step.EnqueueStep? }

  /** However the workers interleave, a run without new jobs makes at most as many claims as there
      are attempts left, plus the stale reclaims; each claim that is not a stale one uses up an
      attempt for good. */
  lemma {:induction false} ClaimsUseUpAttempts(s: System, steps: seq<Step>, settings: Settings)
    requires Invariant(s, settings.retryBackoff) && NoEnqueue(steps)
    ensures Claims(s, steps, settings) + Remaining(Run(s, steps, settings).jobs)
         <= Remaining(s.jobs) + StaleClaims(s, steps, settings)
    decreases |steps|
  {
    if steps != [] {
      assert steps[0] in steps && forall step | step in steps[1..] :: step in steps;
      hide Next, Invariant, Remaining, IsClaim, IsStaleClaim;
      StepUsesAttempt(s, steps[0], settings);
      StepKeepsInvariant(s, steps[0], settings);
      InvariantLengths(Next(s, steps[0], settings), settings.retryBackoff);
      ClaimsUseUpAttempts(Next(s, steps[0], settings), steps[1..], settings);
    }
  }

  // ----- stale reclaims are not limited

  /** Enqueue, claim, and `n` times let the claim go stale and take it over. */
  function Reclaims(spec: JobSpec, settings: Settings, n: nat): seq<Step> {
    if n == 0 then [EnqueueStep(spec), ClaimStep(None)]
    else Reclaims(spec, settings, n - 1) + [Elapse(settings.staleAfter + 1.0), ClaimStep(None)]
  }

  lemma {:induction false} RunConcat(s: System, a: seq<Step>, b: seq<Step>, settings: Settings)
    requires |s.history| == |s.jobs|
    ensures Run(s, a + b, settings) == Run(Run(s, a, settings), b, settings)
    decreases |a|
  {
    hide Next;
    if a == [] {
      assert a + b == b;
    } else {
      assert (a + b)[1..] == a[1..] + b;
      NextLengths(s, a[0], settings);
      RunConcat(Next(s, a[0], settings), a[1..], b, settings);
    }
  }

  lemma NextLengths(s: System, step: Step, settings: Settings)
    requires |s.history| == |s.jobs|
    ensures |Next(s, step, settings).history| == |Next(s, step, settings).jobs|
  {
  }

  /** `max_attempts` does not stop stale reclaims: a job that may run once can be claimed any number
      of times. */
  lemma {:induction false} StaleReclaimsIgnoreTheLimit(kind: string, settings: Settings, n: nat)
    requires settings.staleAfter >= 0.0
    ensures var s := Run(Start(0.0), Reclaims(JobSpec(kind, "", 1, None), settings, n), settings);
            && |s.jobs| == 1 && s.jobs[0].maxAttempts == 1 && s.jobs[0].attempts == n + 1
            && s.jobs[0].status.Running? && s.jobs[0].startedAt == Some(s.now) && s.jobs[0].scheduledAt <= s.now
  {
    var spec := JobSpec(kind, "", 1, None);
    if n == 0 {
      FirstClaim(spec, settings);
    } else {
      hide Run, Next, Runnable;
      StaleReclaimsIgnoreTheLimit(kind, settings, n - 1);
      var before := Run(Start(0.0), Reclaims(spec, settings, n - 1), settings);
      OneReclaim(before, settings);
      RunConcat(Start(0.0), Reclaims(spec, settings, n - 1), [Elapse(settings.staleAfter + 1.0), ClaimStep(None)],
          settings);
    }
  }

  lemma FirstClaim(spec: JobSpec, settings: Settings)
    requires spec.scheduledAt.None?
    ensures var s := Run(Start(0.0), [EnqueueStep(spec), ClaimStep(None)], settings);
            && |s.jobs| == 1 && s.jobs[0].maxAttempts == spec.maxAttempts && s.jobs[0].attempts == 1
            && s.jobs[0].status.Running? && s.jobs[0].startedAt == Some(s.now) && s.jobs[0].scheduledAt <= s.now
  {
    var steps := [EnqueueStep(spec), ClaimStep(None)];
    var a := Next(Start(0.0), steps[0], settings);
    assert a.jobs == [NewJob(spec, 0.0)];
    OnlyJob(a.jobs, 0.0, settings.staleAfter);
    hide NextJob;
    assert steps[1..] == [ClaimStep(None)] && [ClaimStep(None)][1..] == [];
    assert Run(a, [ClaimStep(None)], settings) == Next(a, ClaimStep(None), settings);
  }

  lemma OnlyJob(jobs: Table, now: real, staleAfter: real)
    requires |jobs| == 1 && Runnable(jobs[0], now, staleAfter, None)
    ensures NextJob(jobs, now, staleAfter, None) == Some(0)
  {
  }

  lemma OneReclaim(s: System, settings: Settings)
    requires |s.history| == |s.jobs| == 1 && settings.staleAfter >= 0.0
    requires s.jobs[0].status.Running? && s.jobs[0].startedAt == Some(s.now) && s.jobs[0].scheduledAt <= s.now
    ensures var t := Run(s, [Elapse(settings.staleAfter + 1.0), ClaimStep(None)], settings);
            && |t.jobs| == 1 && t.jobs[0].maxAttempts == s.jobs[0].maxAttempts
                && t.jobs[0].attempts == s.jobs[0].attempts + 1
            && t.jobs[0].status.Running? && t.jobs[0].startedAt == Some(t.now) && t.jobs[0].scheduledAt <= t.now
  {
    var steps := [Elapse(settings.staleAfter + 1.0), ClaimStep(None)];
    var a := Next(s, steps[0], settings);
    OnlyJob(a.jobs, a.now, settings.staleAfter);
    hide NextJob;
    assert steps[1..] == [ClaimStep(None)] && [ClaimStep(None)][1..] == [];
    assert Run(a, [ClaimStep(None)], settings) == Next(a, ClaimStep(None), settings);
  }

  // ----- cancellation

  /** A cancelled job that no worker holds stays cancelled, whatever happens. */
  lemma {:induction false} CancelledStaysUnlessHeld(s: System, steps: seq<Step>, settings: Settings, i: nat)
    requires |s.history| == |s.jobs| && i < |s.jobs| && s.jobs[i].status.Cancelled? && i !in s.held
    ensures var t := Run(s, steps, settings); i < |t.jobs| && t.jobs[i].status.Cancelled? && i !in t.held
    decreases |steps|
  {
    if steps != [] {
      CancelledStep(s, steps[0], settings, i);
      hide Next;
      NextLengths(s, steps[0], settings);
      CancelledStaysUnlessHeld(Next(s, steps[0], settings), steps[1..], settings, i);
    }
  }

  lemma CancelledStep(s: System, step: Step, settings: Settings, i: nat)
    requires |s.history| == |s.jobs| && i < |s.jobs| && s.jobs[i].status.Cancelled? && i !in s.held
    ensures var t := Next(s, step, settings); i < |t.jobs| && t.jobs[i].status.Cancelled? && i !in t.held
  {
    hide NextJob, FinishRow;
  }

  /** Cancelling a job that a worker holds does not stick: when the worker fails with an attempt
      left, the job is queued again. */
  lemma HeldCancelDoesNotStick(s: System, settings: Settings, i: nat, error: string)
    requires |s.history| == |s.jobs| && i < |s.jobs| && i in s.held && s.jobs[i].attempts < s.jobs[i].maxAttempts
        && error != ""
    ensures var t := Run(s, [CancelStep(i), FinishStep(i, error)], settings); i < |t.jobs| && t.jobs[i].status.Queued?
  {
    var steps := [CancelStep(i), FinishStep(i, error)];
    assert steps[1..] == [FinishStep(i, error)] && [FinishStep(i, error)][1..] == [];
    var a := Next(s, steps[0], settings);
    assert Run(a, [FinishStep(i, error)], settings) == Next(a, FinishStep(i, error), settings);
  }

  /** The job is cancelled after the cancellation and these further steps. */
  predicate CancelledAfter(s: System, steps: seq<Step>, settings: Settings, i: nat)
    requires |s.history| == |s.jobs| && i < |s.jobs|
  {
    NextLengths(s, CancelStep(i), settings);
    var t := Run(Next(s, CancelStep(i), settings), steps, settings);
    i < |t.jobs| && t.jobs[i].status.Cancelled?
  }

  /** A cancellation sticks, whatever happens afterwards, exactly when no worker holds the job. */
  lemma CancelSticksExactlyWhen(s: System, settings: Settings, i: nat)
    requires |s.history| == |s.jobs| && i < |s.jobs|
    ensures (forall steps :: CancelledAfter(s, steps, settings, i)) <==> i !in s.held
  {
    var t := Next(s, CancelStep(i), settings);
    if i in s.held {
      var steps := [FinishStep(i, "")];
      assert steps[1..] == [] && Run(t, steps, settings) == Next(t, steps[0], settings);
      assert !CancelledAfter(s, steps, settings, i);
    } else {
      hide Run;
      forall steps ensures CancelledAfter(s, steps, settings, i) {
        CancelledStaysUnlessHeld(t, steps, settings, i);
      }
    }
  }

  // ----- the batch loop is a run of the protocol

  /** One round of the batch loop is a claim, some time, and the finish of the claimed job. */
  lemma RoundIsProtocolRun(db: Db, s: System, id: nat, handlers: map<string, Handler>, settings: Settings,
          clock: nat -> real, call: nat)
    requires s.jobs == db.jobs && |s.history| == |s.jobs| && s.now == clock(2 * call)
        && clock(2 * call) <= clock(2 * call + 1)
    requires NextJob(db.jobs, s.now, settings.staleAfter, None) == Some(id)
    ensures var error := RunHandler(handlers, ClaimRow(db.jobs[id], s.now), db.data, call).error;
            var steps := [ClaimStep(None), Elapse(clock(2 * call + 1) - s.now), FinishStep(id, error)];
            Run(s, steps, settings).jobs == SerialRound(db, id, handlers, settings, clock, call).jobs
  {
    hide NextJob, RunHandler, FinishRow, AllWrites;
    var error := RunHandler(handlers, ClaimRow(db.jobs[id], s.now), db.data, call).error;
    var a, b, c := ClaimStep(None), Elapse(clock(2 * call + 1) - s.now), FinishStep(id, error);
    var x := Next(s, a, settings);
    var y := Next(x, b, settings);
    var z := Next(y, c, settings);
    assert y.now == clock(2 * call + 1) && id in y.held;
    assert [a, b, c][1..] == [b, c] && [b, c][1..] == [c] && [c][1..] == [];
    assert Run(y, [c], settings) == z && Run(x, [b, c], settings) == z;
    var row := ClaimRow(s.jobs[id], s.now);
    UpdateTwice(s.jobs, id, row, FinishRow(row, error, y.now, settings.retryBackoff));
  }
}
