/** The life of one row: when each state of it can be claimed next, and what its columns say of how it
    got there, over every interleaving of workers. */
module JobRows {
  import opened Strings
  import opened Jobs
  import opened JobProtocol

  // ----- when a row can be claimed

  /** No kinds, or an empty list, stand for every kind. */
  predicate Wanted(kind: string, kinds: Option<seq<string>>) {
    kinds == None || kinds == Some([]) || kind in kinds.value
  }

  /** A new job can be claimed from the time it is scheduled for, or else from now on. */
  lemma NewJobWaits(spec: JobSpec, now: real, later: real, stale: real, kinds: Option<seq<string>>)
    ensures Runnable(NewJob(spec, now), later, stale, kinds) <==>
            && Wanted(spec.kind, kinds)
            && match spec.scheduledAt
               case None => now <= later
               case Some(at) => at <= later
  {
  }

  /** A claimed job can be claimed again, by whoever asks for its kind, only once it has been running for
      longer than the stale time. */
  lemma ClaimedJobWaits(j: Job, now: real, later: real, stale: real, kinds: Option<seq<string>>)
    requires Runnable(j, now, stale, None) && now <= later
    ensures Runnable(ClaimRow(j, now), later, stale, kinds) <==> Wanted(j.kind, kinds) && later - now > stale
  {
  }

  /** A failed job with attempts left can be claimed again once the backoff, doubled for each attempt
      after the first, has passed; one without is never claimed, nor is one that succeeded or was
      cancelled. */
  lemma FinishedJobWaits(j: Job, error: string, now: real, backoff: real, later: real, stale: real,
          kinds: Option<seq<string>>)
    requires j.attempts >= 1 && error != ""
    ensures Runnable(FinishRow(j, error, now, backoff), later, stale, kinds) <==>
            j.attempts < j.maxAttempts && Wanted(j.kind, kinds)
            && later >= now + backoff * Pow2(j.attempts - 1) as real
    ensures !Runnable(FinishRow(j, "", now, backoff), later, stale, kinds)
    ensures !Runnable(CancelRow(j, now), later, stale, kinds)
  {
  }

  /** The error is kept, up to its first 2000 characters. */
  lemma ErrorIsKept(j: Job, error: string, now: real, backoff: real)
    ensures var kept := FinishRow(j, error, now, backoff).error;
            kept <= error && (|error| <= 2000 ==> |kept| == |error|) && (|error| >= 2000 ==> |kept| == 2000)
  {
  }

  // ----- what the columns of a row say

  /** Only a failure leaves an error: a queued row has one exactly when it has been tried. */
  predicate TellsItsStory(j: Job, now: real) {
    && |j.error| <= 2000
    && match j.status
       case Queued => (j.error == "" <==> j.attempts == 0) && (j.attempts == 0 ==> j.startedAt.None?)
       case Running => j.error == "" && j.attempts >= 1 && j.startedAt.Some? && j.startedAt.value <= now
       case Succeeded => j.error == "" && j.attempts >= 1 && j.finishedAt.Some?
       case Failed => j.error != "" && j.attempts >= 1 && j.attempts >= j.maxAttempts && j.finishedAt.Some?
       case Cancelled => j.finishedAt.Some?
  }

  predicate StoriesHold(s: System) { forall i | 0 <= i < |s.jobs| :: TellsItsStory(s.jobs[i], s.now) }

  lemma FinishTellsIts(j: Job, error: string, now: real, backoff: real)
    requires j.attempts >= 1
    ensures TellsItsStory(FinishRow(j, error, now, backoff), now)
  {
    hide Delay;
  }

  lemma NewRowsTellTheirs(spec: JobSpec, now: real)
    ensures TellsItsStory(NewJob(spec, now), now)
  {
  }

  lemma RowsTellTheirs(j: Job, now: real, later: real)
    requires now <= later
    ensures TellsItsStory(ClaimRow(j, now), now)
    ensures TellsItsStory(j, now) ==> TellsItsStory(CancelRow(j, now), now) && TellsItsStory(j, later)
  {
  }

  lemma StepKeepsStories(s: System, step: Step, settings: Settings)
    requires Invariant(s, settings.retryBackoff) && StoriesHold(s)
    ensures StoriesHold(Next(s, step, settings))
  {
    hide NextJob, NewJob, ClaimRow, FinishRow, CancelRow, JobInvariant, TellsItsStory;
    var later := if step.Elapse? && step.seconds > 0.0 then s.now + step.seconds else s.now;
    forall j
      ensures TellsItsStory(ClaimRow(j, s.now), s.now)
      ensures TellsItsStory(j, s.now) ==> TellsItsStory(CancelRow(j, s.now), s.now) && TellsItsStory(j, later)
    {
      RowsTellTheirs(j, s.now, later);
    }
    match step
    case EnqueueStep(spec) => NewRowsTellTheirs(spec, s.now);
    case ClaimStep(_) =>
    case FinishStep(id, error) =>
      if id in s.held && id < |s.jobs| { FinishTellsIts(s.jobs[id], error, s.now, settings.retryBackoff); }
    case CancelStep(_) =>
    case Elapse(_) =>
  }

  lemma {:induction false} RunKeepsStories(s: System, steps: seq<Step>, settings: Settings)
    requires Invariant(s, settings.retryBackoff) && StoriesHold(s)
    ensures |s.history| == |s.jobs| && StoriesHold(Run(s, steps, settings))
    decreases |steps|
  {
    hide Next, Invariant, StoriesHold;
    InvariantLengths(s, settings.retryBackoff);
    if steps != [] {
      StepKeepsInvariant(s, steps[0], settings);
      StepKeepsStories(s, steps[0], settings);
      InvariantLengths(Next(s, steps[0], settings), settings.retryBackoff);
      RunKeepsStories(Next(s, steps[0], settings), steps[1..], settings);
    }
  }

  /** Over every interleaving of enqueues, claims, finishes, cancellations and time, the columns of
      every row tell how it got there. */
  lemma EveryRowTellsItsStory(start: real, steps: seq<Step>, settings: Settings, i: nat)
    requires i < |Run(Start(start), steps, settings).jobs|
    ensures var s := Run(Start(start), steps, settings); TellsItsStory(s.jobs[i], s.now)
  {
    hide Run, TellsItsStory;
    RunKeepsStories(Start(start), steps, settings);
  }
}
