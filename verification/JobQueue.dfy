/** The queue of synthesis jobs: its three definers, the calls the worker makes
    to them again after transient failures, and the way one claimed job ends
    (crates/episcience-api/src/jobs/worker.rs, migrations/5037). */
module JobQueue {
  import opened Base
  import Lifecycle

  const QUEUE_CALL_TRIES := 4
  const JOB_MAX_AGE := 24 * 60 * 60

  datatype JobState = Queued | Retry | Running | Complete | Failed

  /** A row of the queue; times in seconds, the payload as the synthesis it
      names, or nothing when it does not parse. */
  datatype Job = Job(state: JobState, attempts: nat, maxAttempts: nat, dueAt: int, createdAt: int,
                     isSynthesis: bool, payload: Option<nat>)

  type Jobs = map<nat, Job>

  /** What the worker asks of the queue for a job it ran. */
  datatype Wish = Finish(success: bool) | TryAgain(delay: int)

  /** One database call: it works, it fails transiently before anything is
      done, or it is done and its answer is lost. */
  datatype Fault = Works | FailsBefore | AnswerLost

  datatype Reply = Done | Refused | Lost

  // ── The definers ────────────────────────────────────────────────────────

  predicate Claimable(job: Job, now: int) {
    (job.state == Queued || job.state == Retry) && job.dueAt <= now
  }

  /** The order of claims: earliest due first, ties by identifier. */
  predicate Sooner(jobs: Jobs, a: nat, b: nat)
    requires a in jobs && b in jobs
  {
    jobs[a].dueAt < jobs[b].dueAt || (jobs[a].dueAt == jobs[b].dueAt && a <= b)
  }

  /** What no step of the queue changes. */
  predicate SameRequest(a: Job, b: Job) {
    b.maxAttempts == a.maxAttempts && b.createdAt == a.createdAt && b.isSynthesis == a.isSynthesis && b.payload == a.payload
  }

  function ClaimedJob(job: Job): Job {
    job.(state := Running, attempts := job.attempts + 1)
  }

  predicate Allowed(job: Job, wish: Wish) {
    job.state == Running && (wish.TryAgain? ==> job.attempts < job.maxAttempts)
  }

  function Granted(job: Job, wish: Wish, now: int): Job {
    match wish
    case Finish(success) => job.(state := if success then Complete else Failed)
    case TryAgain(delay) => job.(state := Queued, dueAt := now + delay)
  }

  class Queue {
    var jobs: Jobs

    constructor (jobs: Jobs)
      ensures this.jobs == jobs
    {
      this.jobs := jobs;
    }

    /** The earliest due job, marked running with one more attempt. */
    method Claim(now: int) returns (claimed: Option<nat>)
      modifies this
      ensures claimed.None? ==> jobs == old(jobs) && forall j :: j in jobs ==> !Claimable(jobs[j], now)
      ensures claimed.Some? ==>
        && claimed.value in old(jobs) && Claimable(old(jobs)[claimed.value], now)
        && (forall j :: j in old(jobs) && Claimable(old(jobs)[j], now) ==> Sooner(old(jobs), claimed.value, j))
        && jobs == old(jobs)[claimed.value := ClaimedJob(old(jobs)[claimed.value])]
      // Written out: what was due, who came first, what became of the row.
      ensures claimed.None? <==> forall j :: j in old(jobs) && old(jobs)[j].state in {Queued, Retry} ==> old(jobs)[j].dueAt > now
      ensures claimed.Some? ==>
        var before, after := old(jobs)[claimed.value], jobs[claimed.value];
        && before.state in {Queued, Retry} && before.dueAt <= now
        && after.state == Running && after.attempts == before.attempts + 1 && after.dueAt == before.dueAt && SameRequest(before, after)
        && (forall j :: j in old(jobs) && old(jobs)[j].state in {Queued, Retry} && old(jobs)[j].dueAt <= now ==>
              before.dueAt < old(jobs)[j].dueAt || (before.dueAt == old(jobs)[j].dueAt && claimed.value <= j))
        && jobs.Keys == old(jobs).Keys && forall j :: j in jobs && j != claimed.value ==> jobs[j] == old(jobs)[j]
    {
      var left := set j | j in jobs && Claimable(jobs[j], now);
      if left == {} {
        assert forall j :: j in jobs && Claimable(jobs[j], now) ==> j in left;
        return None;
      }
      var best :| best in left;
      left := left - {best};
      while left != {}
        invariant best in jobs && Claimable(jobs[best], now)
        invariant forall j :: j in left ==> j in jobs
        invariant forall j :: j in jobs && Claimable(jobs[j], now) && j !in left ==> Sooner(jobs, best, j)
        decreases left
      {
        var j :| j in left;
        if jobs[j].dueAt < jobs[best].dueAt || (jobs[j].dueAt == jobs[best].dueAt && j < best) {
          best := j;
        }
        left := left - {j};
      }
      claimed := Some(best);
      jobs := jobs[best := ClaimedJob(jobs[best])];
    }

    /** The finish and retry definers. */
    method Ask(id: nat, wish: Wish, now: int) returns (ok: bool)
      requires id in jobs
      modifies this
      ensures ok <==> Allowed(old(jobs)[id], wish)
      ensures jobs == if ok then old(jobs)[id := Granted(old(jobs)[id], wish, now)] else old(jobs)
      // Written out: who may ask, and what becomes of the row.
      ensures ok <==> old(jobs)[id].state == Running && (wish.TryAgain? ==> old(jobs)[id].attempts < old(jobs)[id].maxAttempts)
      ensures ok ==>
        var before, after := old(jobs)[id], jobs[id];
        && after.attempts == before.attempts && SameRequest(before, after)
        && (wish == Finish(true) ==> after.state == Complete && after.dueAt == before.dueAt)
        && (wish == Finish(false) ==> after.state == Failed && after.dueAt == before.dueAt)
        && (wish.TryAgain? ==> after.state == Queued && after.dueAt == now + wish.delay)
    {
      ok := jobs[id].state == Running && (wish.TryAgain? ==> jobs[id].attempts < jobs[id].maxAttempts);
      if ok {
        jobs := jobs[id := Granted(jobs[id], wish, now)];
      }
    }
  }

  /** A call that failed before anything was done, up to `tries` times, and
      then was answered. */
  ghost predicate AnsweredAfter(faults: nat -> Fault, from: nat, tries: nat) {
    (forall k :: from <= k < from + tries ==> faults(k) == FailsBefore) && faults(from + tries) == Works
  }

  datatype Authority = Authorized | Denied | Unknown

  datatype RunResult = Ran | Stopped | Broke | BadPayload

  datatype Outcome = Idle | Completed(job: nat) | Retried(job: nat) | FailedJob(job: nat) | DatabaseError(job: nat)

  /** The pause before the next attempt grows with the attempts made. */
  function RetryDelay(job: Job, pause: nat): int {
    pause * Max(job.attempts, 1)
  }

  /** What the worker wants for a claimed job, decided before any queue call. */
  function WishFor(id: nat, job: Job, now: int, authority: Authority, run: RunResult, pause: nat): Wish {
    if now - job.createdAt > JOB_MAX_AGE || !job.isSynthesis then Finish(false)
    else match authority
         case Unknown => TryAgain(RetryDelay(job, pause))
         case Denied => Finish(false)
         case Authorized =>
           if job.payload != Some(id) then Finish(false)
           else match run
                case Ran => Finish(true)
                case Stopped => Finish(false)
                case BadPayload => Finish(false)
                case Broke => TryAgain(RetryDelay(job, pause))
  }

  /** A retry of a job without attempts left ends it as failed. */
  function Settled(job: Job, wish: Wish, now: int): Job {
    if wish.TryAgain? && job.attempts >= job.maxAttempts then Granted(job, Finish(false), now) else Granted(job, wish, now)
  }

  // ── The queue in the lifecycle protocol ─────────────────────────────────

  /** What the protocol keeps of a queue row. */
  function InProtocol(job: Job, as': Lifecycle.Job): Lifecycle.Job {
    var state := match job.state
      case Queued => Lifecycle.Queued
      case Retry => Lifecycle.Queued
      case Running => Lifecycle.InProgress
      case Complete => Lifecycle.JobComplete
      case Failed => Lifecycle.JobFailed;
    as'.(state := state, attempts := job.attempts)
  }

  /** How the protocol names the end of an attempt. */
  function EndingOf(run: RunResult): Lifecycle.Ending {
    match run
    case Ran => Lifecycle.Done
    case Stopped => Lifecycle.Stopped
    case BadPayload => Lifecycle.Stopped
    case Broke => Lifecycle.Errored
  }

  /** Settling a job that ran is the protocol's settling of its attempt. */
  lemma SettlingIsTheProtocols(id: nat, job: Job, now: int, run: RunResult, pause: nat, as': Lifecycle.Job)
    requires job.state == Running && job.isSynthesis && job.payload == Some(id) && now - job.createdAt <= JOB_MAX_AGE
    ensures var wish := WishFor(id, job, now, Authorized, run, pause);
      InProtocol(Settled(job, wish, now), as')
      == Lifecycle.SettledJob(InProtocol(job, as'), EndingOf(run), job.maxAttempts)
  {
  }

  // ── A served job, written out ───────────────────────────────────────────

  /** Nothing but the job itself can be what fails it. */
  predicate MayRun(id: nat, job: Job, now: int, authority: Authority) {
    now - job.createdAt <= JOB_MAX_AGE && job.isSynthesis && authority == Authorized && job.payload == Some(id)
  }

  /** Worth another attempt: the authority is not known now, or the run broke. */
  predicate Transient(id: nat, job: Job, now: int, authority: Authority, run: RunResult) {
    && now - job.createdAt <= JOB_MAX_AGE && job.isSynthesis
    && (authority == Unknown || (MayRun(id, job, now, authority) && run == Broke))
  }

  /** What one attempt makes of the row it claims when nothing fails. */
  ghost predicate ServedRow(id: nat, before: Job, after: Job, now: int, authority: Authority, run: RunResult, pause: nat) {
    && before.state in {Queued, Retry} && before.dueAt <= now
    && after.attempts == before.attempts + 1 && SameRequest(before, after)
    && (after.state == Complete <==> MayRun(id, before, now, authority) && run == Ran)
    && (after.state == Queued <==> Transient(id, before, now, authority, run) && after.attempts < before.maxAttempts)
    && after.state in {Complete, Queued, Failed}
    && after.dueAt == if after.state == Queued then now + pause * after.attempts else before.dueAt
  }

  ghost predicate Served(before: Jobs, after: Jobs, now: int, authority: nat -> Authority, run: nat -> RunResult, pause: nat, outcome: Outcome) {
    match outcome
    case Idle => after == before && forall j :: j in before && before[j].state in {Queued, Retry} ==> before[j].dueAt > now
    case DatabaseError(_) => false
    case _ =>
      var id := outcome.job;
      && id in before && id in after && after == before[id := after[id]]
      && ServedRow(id, before[id], after[id], now, authority(id), run(id), pause)
      && (forall j :: j in before && before[j].state in {Queued, Retry} && before[j].dueAt <= now ==>
            before[id].dueAt < before[j].dueAt || (before[id].dueAt == before[j].dueAt && id <= j))
      && (outcome.Completed? <==> after[id].state == Complete) && (outcome.Retried? <==> after[id].state == Queued)
  }

  lemma WishServes(id: nat, before: Job, now: int, authority: Authority, run: RunResult, pause: nat)
    requires Claimable(before, now)
    ensures var job := ClaimedJob(before);
      ServedRow(id, before, Settled(job, WishFor(id, job, now, authority, run, pause), now), now, authority, run, pause)
  {
  }

  lemma NobodyServed(jobs: Jobs, now: int, authority: nat -> Authority, run: nat -> RunResult, pause: nat)
    requires forall j :: j in jobs ==> !Claimable(jobs[j], now)
    ensures Served(jobs, jobs, now, authority, run, pause, Idle)
  {
  }

  lemma OneServed(before: Jobs, after: Jobs, now: int, authority: nat -> Authority, run: nat -> RunResult, pause: nat, outcome: Outcome)
    requires !outcome.Idle? && !outcome.DatabaseError?
    requires var id := outcome.job;
      && id in before && Claimable(before[id], now)
      && (forall j :: j in before && Claimable(before[j], now) ==> Sooner(before, id, j))
      && var job := ClaimedJob(before[id]);
         var wish := WishFor(id, job, now, authority(id), run(id), pause);
         && after == before[id := Settled(job, wish, now)]
         && (outcome.Completed? ==> wish == Finish(true))
         && (outcome.Retried? ==> wish.TryAgain? && job.attempts < job.maxAttempts)
         && (outcome.FailedJob? ==> wish == Finish(false) || (wish.TryAgain? && job.attempts >= job.maxAttempts))
    ensures Served(before, after, now, authority, run, pause, outcome)
  {
    hide SameRequest, ServedRow, WishFor;
    var id := outcome.job;
    WishServes(id, before[id], now, authority(id), run(id), pause);
  }

  // ── One job over many calls ─────────────────────────────────────────────

  /** Calls of the worker, one after the other, none of them failed by the
      database: when each was made, and the queue around each. */
  datatype Calls = Calls(times: seq<int>, outcomes: seq<Outcome>, queues: seq<Jobs>) {
    ghost predicate Valid(authority: nat -> Authority, run: nat -> RunResult, pause: nat) {
      && |queues| == |times| + 1 == |outcomes| + 1
      && forall i :: 0 <= i < |times| ==> Served(queues[i], queues[i + 1], times[i], authority, run, pause, outcomes[i])
    }
  }

  /** How often the worker took the job. */
  function Takings(outcomes: seq<Outcome>, id: nat): nat {
    if outcomes == [] then 0
    else Takings(outcomes[..|outcomes| - 1], id) + if Takes(outcomes[|outcomes| - 1], id) then 1 else 0
  }

  predicate Takes(outcome: Outcome, id: nat) {
    !outcome.Idle? && outcome.job == id
  }

  /** The attempts a waiting job still has: at least the one it waits for. */
  function AttemptsLeft(job: Job): nat {
    Max(job.maxAttempts - job.attempts, 1)
  }

  /** A job that breaks in every attempt, or whose authority is never known, and
      does not expire meanwhile. */
  ghost predicate KeepsBreaking(id: nat, job: Job, c: Calls, authority: nat -> Authority, run: nat -> RunResult) {
    forall i :: 0 <= i < |c.times| ==> Transient(id, job, c.times[i], authority(id), run(id))
  }

  /** The law of retries. In every run of calls a waiting job that keeps
      breaking is taken at most as often as it has attempts left, each time
      counted; it is failed exactly when it has been taken that often, and
      until then it waits in the queue. */
  lemma {:induction false} RetriesRunOut(id: nat, c: Calls, authority: nat -> Authority, run: nat -> RunResult, pause: nat)
    requires c.Valid(authority, run, pause) && id in c.queues[0] && c.queues[0][id].state in {Queued, Retry}
    requires KeepsBreaking(id, c.queues[0][id], c, authority, run)
    ensures var first, taken := c.queues[0][id], Takings(c.outcomes, id);
      && id in c.queues[|c.times|]
      && var last := c.queues[|c.times|][id];
         && last.attempts == first.attempts + taken && SameRequest(first, last)
         && taken <= AttemptsLeft(first)
         && (last.state == Failed <==> taken == AttemptsLeft(first))
         && (last.state != Failed ==> last.state in {Queued, Retry})
    decreases |c.times|
  {
    hide Served, Transient;
    if c.times != [] {
      var n := |c.times| - 1;
      var shorter := Calls(c.times[..n], c.outcomes[..n], c.queues[..n + 1]);
      forall i | 0 <= i < n ensures Served(shorter.queues[i], shorter.queues[i + 1], shorter.times[i], authority, run, pause, shorter.outcomes[i]) {
        assert Served(c.queues[i], c.queues[i + 1], c.times[i], authority, run, pause, c.outcomes[i]);
      }
      assert shorter.Valid(authority, run, pause) && shorter.queues[0] == c.queues[0] && shorter.queues[n] == c.queues[n];
      RetriesRunOut(id, shorter, authority, run, pause);
      assert Transient(id, c.queues[0][id], c.times[n], authority(id), run(id));
      ServedOnce(id, c.queues[0][id], c.queues[n], c.queues[n + 1], c.times[n], authority, run, pause, c.outcomes[n]);
    }
  }

  /** One call, seen by a job that would be retried. */
  lemma ServedOnce(id: nat, first: Job, before: Jobs, after: Jobs, now: int, authority: nat -> Authority, run: nat -> RunResult, pause: nat, outcome: Outcome)
    requires Served(before, after, now, authority, run, pause, outcome) && id in before && SameRequest(first, before[id])
    requires Transient(id, first, now, authority(id), run(id))
    ensures id in after && SameRequest(first, after[id])
    ensures !Takes(outcome, id) ==> after[id] == before[id]
    ensures Takes(outcome, id) ==>
      && before[id].state in {Queued, Retry} && after[id].attempts == before[id].attempts + 1
      && after[id].state == if after[id].attempts < first.maxAttempts then Queued else Failed
  {
  }

  /** Whatever happens to it, a job is taken at most as often as it has
      attempts left when it starts to wait, and never after it ended. */
  lemma {:induction false} TakenWithinAttempts(id: nat, c: Calls, authority: nat -> Authority, run: nat -> RunResult, pause: nat)
    requires c.Valid(authority, run, pause) && id in c.queues[0] && c.queues[0][id].state in {Queued, Retry}
    ensures var first, taken := c.queues[0][id], Takings(c.outcomes, id);
      && taken <= AttemptsLeft(first) && id in c.queues[|c.times|]
      && var last := c.queues[|c.times|][id];
         && last.attempts == first.attempts + taken && last.maxAttempts == first.maxAttempts
         && (last.state in {Queued, Retry} ==> taken < AttemptsLeft(first))
    decreases |c.times|
  {
    hide Served;
    if c.times != [] {
      var n := |c.times| - 1;
      var shorter := Calls(c.times[..n], c.outcomes[..n], c.queues[..n + 1]);
      forall i | 0 <= i < n ensures Served(shorter.queues[i], shorter.queues[i + 1], shorter.times[i], authority, run, pause, shorter.outcomes[i]) {
        assert Served(c.queues[i], c.queues[i + 1], c.times[i], authority, run, pause, c.outcomes[i]);
      }
      assert shorter.Valid(authority, run, pause) && shorter.queues[0] == c.queues[0] && shorter.queues[n] == c.queues[n];
      TakenWithinAttempts(id, shorter, authority, run, pause);
      assert Served(c.queues[n], c.queues[n + 1], c.times[n], authority, run, pause, c.outcomes[n]);
      TakenOnce(id, c.queues[n], c.queues[n + 1], c.times[n], authority, run, pause, c.outcomes[n]);
    }
  }

  lemma TakenOnce(id: nat, before: Jobs, after: Jobs, now: int, authority: nat -> Authority, run: nat -> RunResult, pause: nat, outcome: Outcome)
    requires Served(before, after, now, authority, run, pause, outcome) && id in before
    ensures id in after && after[id].maxAttempts == before[id].maxAttempts
    ensures !Takes(outcome, id) ==> after[id] == before[id]
    ensures Takes(outcome, id) ==>
      && before[id].state in {Queued, Retry} && after[id].attempts == before[id].attempts + 1
      && (after[id].state in {Queued, Retry} ==> after[id].attempts < before[id].maxAttempts)
  {
  }

  /** The claim of a job is the protocol's claim of its synthesis. */
  lemma ClaimIsTheProtocols(s: Lifecycle.State, r: nat, before: Job, after: Job, now: int)
    requires r < |s.slots| && Claimable(before, now) && after == ClaimedJob(before)
    requires s.slots[r].job == InProtocol(before, s.slots[r].job)
    ensures var t := Lifecycle.Step(s, Lifecycle.Claim(r));
      && t.slots == s.slots[r := s.slots[r].(job := InProtocol(after, s.slots[r].job))]
      && |t.attempts| == |s.attempts| + 1 && t.attempts[|s.attempts|].target == r
  {
  }

  lemma Overwrite(jobs: Jobs, id: nat, a: Job, b: Job)
    ensures jobs[id := a][id := b] == jobs[id := b]
  {
  }

  class Worker {
    const queue: Queue

    constructor (queue: Queue)
      ensures this.queue == queue
    {
      this.queue := queue;
    }

    /** Ask until the queue answers, at most `QUEUE_CALL_TRIES` times. Whatever
        is lost on the way, the wish is granted at most once and nothing else
        happens to the job; transient failures before the fourth try are
        absorbed. */
    method QueueCall(id: nat, wish: Wish, now: int, faults: nat -> Fault, from: nat) returns (reply: Reply, next: nat)
      requires id in queue.jobs
      modifies queue
      ensures queue.jobs == old(queue.jobs) || (Allowed(old(queue.jobs)[id], wish)
                && queue.jobs == old(queue.jobs)[id := Granted(old(queue.jobs)[id], wish, now)])
      ensures reply == Done ==> queue.jobs[id] == Granted(old(queue.jobs)[id], wish, now) && Allowed(old(queue.jobs)[id], wish)
      ensures reply == Refused ==> !Allowed(queue.jobs[id], wish)
      ensures reply == Lost ==> forall k :: from <= k < from + QUEUE_CALL_TRIES ==> faults(k) != Works
      ensures forall tries :: 0 <= tries < QUEUE_CALL_TRIES && AnsweredAfter(faults, from, tries) ==>
        next == from + tries + 1 && reply == if Allowed(old(queue.jobs)[id], wish) then Done else Refused
      ensures from < next <= from + QUEUE_CALL_TRIES
    {
      next := from;
      ghost var before := queue.jobs;
      while next < from + QUEUE_CALL_TRIES
        invariant from <= next <= from + QUEUE_CALL_TRIES
        invariant forall k :: from <= k < next ==> faults(k) != Works
        invariant id in queue.jobs
        invariant queue.jobs == before
                  || (Allowed(before[id], wish) && queue.jobs == before[id := Granted(before[id], wish, now)])
        invariant (forall k :: from <= k < next ==> faults(k) == FailsBefore) ==> queue.jobs == before
      {
        var fault := faults(next);
        next := next + 1;
        if fault != FailsBefore {
          var ok := queue.Ask(id, wish, now);
          if fault == Works {
            return if ok then Done else Refused, next;
          }
        }
      }
      reply := Lost;
    }

    /** Back to the queue, or failed when the job has used its attempts. */
    method RetryOrFail(id: nat, pause: nat, now: int, faults: nat -> Fault, from: nat) returns (outcome: Outcome)
      requires id in queue.jobs && queue.jobs[id].state == Running
      modifies queue
      ensures var job := old(queue.jobs)[id];
        && queue.jobs in {old(queue.jobs), old(queue.jobs)[id := Settled(job, TryAgain(RetryDelay(job, pause)), now)]}
        && outcome in {Retried(id), FailedJob(id), DatabaseError(id)}
        && (outcome == Retried(id) ==> queue.jobs[id] == Settled(job, TryAgain(RetryDelay(job, pause)), now) && job.attempts < job.maxAttempts)
        && (outcome == FailedJob(id) ==> queue.jobs[id] == Settled(job, TryAgain(RetryDelay(job, pause)), now) && job.attempts >= job.maxAttempts)
      ensures (forall k :: k >= from ==> faults(k) == Works) ==> outcome != DatabaseError(id)
    {
      ghost var job := queue.jobs[id];
      if forall k :: k >= from ==> faults(k) == Works {
        assert AnsweredAfter(faults, from, 0);
      }
      var reply, next := QueueCall(id, TryAgain(pause * Max(queue.jobs[id].attempts, 1)), now, faults, from);
      match reply {
        case Done => return Retried(id);
        case Lost => return DatabaseError(id);
        case Refused => outcome := Fail(id, now, faults, next);
      }
    }

    method Fail(id: nat, now: int, faults: nat -> Fault, from: nat) returns (outcome: Outcome)
      requires id in queue.jobs
      modifies queue
      ensures queue.jobs == old(queue.jobs) || (old(queue.jobs)[id].state == Running
                && queue.jobs == old(queue.jobs)[id := Granted(old(queue.jobs)[id], Finish(false), now)])
      ensures outcome in {FailedJob(id), DatabaseError(id)}
      ensures outcome == FailedJob(id) ==> old(queue.jobs)[id].state == Running && queue.jobs[id].state == Failed
      ensures (forall k :: k >= from ==> faults(k) == Works) && old(queue.jobs)[id].state == Running ==> outcome == FailedJob(id)
    {
      if forall k :: k >= from ==> faults(k) == Works {
        assert AnsweredAfter(faults, from, 0);
      }
      var reply, next := QueueCall(id, Finish(false), now, faults, from);
      outcome := if reply == Done then FailedJob(id) else DatabaseError(id);
    }

    /** Claim the next due job and run it to one of its ends. Only that job
        changes. It ends in the state its run calls for, or, when the queue
        could not be told, stays running; what is reported is what happened.
        Without faults it always ends. */
    method RunOnce(now: int, authority: nat -> Authority, run: nat -> RunResult, pause: nat, faults: nat -> Fault)
      returns (outcome: Outcome)
      modifies queue
      ensures outcome == Idle ==> queue.jobs == old(queue.jobs) && forall j :: j in queue.jobs ==> !Claimable(queue.jobs[j], now)
      ensures outcome != Idle ==>
        && var id := outcome.job;
        && id in old(queue.jobs) && Claimable(old(queue.jobs)[id], now)
        && (forall j :: j in old(queue.jobs) && Claimable(old(queue.jobs)[j], now) ==> Sooner(old(queue.jobs), id, j))
        && var job := ClaimedJob(old(queue.jobs)[id]);
        && var wish := WishFor(id, job, now, authority(id), run(id), pause);
        && queue.jobs in {old(queue.jobs)[id := job], old(queue.jobs)[id := Settled(job, wish, now)]}
        && (!outcome.DatabaseError? ==> queue.jobs[id] == Settled(job, wish, now))
        && (outcome.Completed? ==> wish == Finish(true))
        && (outcome.Retried? ==> wish.TryAgain? && job.attempts < job.maxAttempts)
        && (outcome.FailedJob? ==> wish == Finish(false) || (wish.TryAgain? && job.attempts >= job.maxAttempts))
        && ((forall k: nat :: faults(k) == Works) ==> !outcome.DatabaseError?)
      ensures (forall k: nat :: faults(k) == Works) ==> Served(old(queue.jobs), queue.jobs, now, authority, run, pause, outcome)
    {
      hide Served, SameRequest, WishFor, Settled, Granted, ClaimedJob;
      ghost var before := queue.jobs;
      var claimed := queue.Claim(now);
      if claimed.None? {
        NobodyServed(before, now, authority, run, pause);
        return Idle;
      }
      var id := claimed.value;
      outcome := RunClaimed(id, now, authority(id), run(id), pause, faults);
      ghost var job := ClaimedJob(before[id]);
      ghost var wish := WishFor(id, job, now, authority(id), run(id), pause);
      Overwrite(before, id, job, Settled(job, wish, now));
      if !outcome.DatabaseError? {
        OneServed(before, queue.jobs, now, authority, run, pause, outcome);
      }
    }

    /** The claimed job: checked, run, and settled with the queue. */
    method RunClaimed(id: nat, now: int, authority: Authority, run: RunResult, pause: nat, faults: nat -> Fault)
      returns (outcome: Outcome)
      requires id in queue.jobs && queue.jobs[id].state == Running
      modifies queue
      ensures var job := old(queue.jobs)[id];
        var wish := WishFor(id, job, now, authority, run, pause);
        && queue.jobs in {old(queue.jobs), old(queue.jobs)[id := Settled(job, wish, now)]}
        && !outcome.Idle? && outcome.job == id
        && (!outcome.DatabaseError? ==> queue.jobs[id] == Settled(job, wish, now))
        && (outcome.Completed? ==> wish == Finish(true))
        && (outcome.Retried? ==> wish.TryAgain? && job.attempts < job.maxAttempts)
        && (outcome.FailedJob? ==> wish == Finish(false) || (wish.TryAgain? && job.attempts >= job.maxAttempts))
      ensures (forall k: nat :: faults(k) == Works) ==> !outcome.DatabaseError?
    {
      hide SameRequest;
      var job := queue.jobs[id];
      if now - job.createdAt > JOB_MAX_AGE {
        outcome := Fail(id, now, faults, 0);
        return;
      }
      if !job.isSynthesis {
        outcome := Fail(id, now, faults, 0);
        return;
      }
      match authority {
        case Authorized =>
        case Unknown =>
          outcome := RetryOrFail(id, pause, now, faults, 0);
          return;
        case Denied =>
          outcome := Fail(id, now, faults, 0);
          return;
      }
      if job.payload != Some(id) {
        outcome := Fail(id, now, faults, 0);
        return;
      }
      match run {
        case Ran =>
          assert faults(0) == Works ==> AnsweredAfter(faults, 0, 0);
          var reply, _ := QueueCall(id, Finish(true), now, faults, 0);
          outcome := if reply == Done then Completed(id) else DatabaseError(id);
        case Stopped =>
          outcome := Fail(id, now, faults, 0);
        case BadPayload =>
          outcome := Fail(id, now, faults, 0);
        case Broke =>
          outcome := RetryOrFail(id, pause, now, faults, 0);
      }
    }
  }
}
