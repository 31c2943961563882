/** The handler of one claimed attempt, as the code runs it: transaction after
    transaction on the row, with early returns, while the user may delete the
    row before any of them. Every execution is proved to be a run of the
    lifecycle protocol (crates/episcience-api/src/jobs/synthesis_job.rs). */
module SynthesisJob {
  import opened Base
  import opened Refinement
  import opened SynthesisRows
  import opened Lifecycle
  import Outbox

  /** What can go wrong with a stage transaction: its opening is refused for
      authority, the database fails and it rolls back (before or after its
      statements), or it commits and the report of it is lost. */
  datatype Fault = NoFault | RefusedAtBegin | FailedEarly | RolledBack | ReportLost

  /** Everything around the attempt; transactions are numbered in order. */
  datatype Env = Env(
    deletedBefore: nat -> bool,
    fault: nat -> Fault,
    stage: nat -> StageWork,
    verifyFails: bool,
    verdict: Verdict,
    embeddingFails: bool,
    edgeRefused: bool,
    noveltyStored: bool,
    commit: Commit)

  /** What becomes of stages 2 to 4: their rows are written, or the stage
      breaks down, or its transaction is refused. */
  datatype StageWork = Wrote | BrokeDown | Denied

  datatype StageResult = Finished | Authority | Failure

  class SynthesisJobHandler {
    const repo: SynthesisRepository
    const id: Uuid
    const childId: Uuid
    const job: Job
    const acting: Uuid
    const env: Env
    var log: seq<Event>
    var children: seq<Slot>
    var childOutbox: map<Outbox.Edge, Outbox.OutRow>
    ghost const start: State
    ghost var system: State
    ghost var script: seq<Action>

    /** `history` is what was committed for the row before the claim. */
    constructor (repo: SynthesisRepository, id: Uuid, childId: Uuid, job: Job, acting: Uuid, env: Env, history: seq<Event>)
      requires repo.Valid() && id in repo.rows
      ensures this.repo == repo && this.id == id && this.childId == childId && this.env == env && this.job == job && this.acting == acting
      ensures start == system == Claimed(repo.rows[id], job, history) && children == [] && childOutbox == map[]
      ensures Matches(Start, None)
    {
      this.repo, this.id, this.childId, this.job, this.acting, this.env := repo, id, childId, job, acting, env;
      log, children, childOutbox, script := history, [], map[], [];
      start, system := Claimed(repo.rows[id], job, history), Claimed(repo.rows[id], job, history);
    }

    /** The protocol has run from the claim by the script, and what it knows of
        this attempt is what the code has: row, log, child. */
    ghost predicate Matches(phase: Phase, open: Option<Tx>)
      reads this, repo
    {
      && repo.Valid() && id in repo.rows
      && MatchesRow(phase, open, repo.rows[id])
    }

    ghost predicate MatchesRow(phase: Phase, open: Option<Tx>, row: Row)
      reads this
    {
      && system == Run(start, script)
      && system.attempts == [Attempt(0, 0, 0, phase, open)]
      && system.slots == [Slot(row, job, None, 0, 0, if open.Some? then Some(0) else None)] + children
      && system.log == log
    }

    /** Nothing fails, is refused or is deleted at the k-th transaction. */
    predicate Calm(k: nat) {
      !env.deletedBefore(k) && env.fault(k) == NoFault
    }

    /** Every other synthesis is as it was. */
    ghost predicate OthersKept(before: map<Uuid, Row>, after: map<Uuid, Row>) {
      && (forall x :: x in before && x != id ==> x in after && after[x] == before[x])
      && (forall x :: x in after && x !in before ==> x == childId)
    }

    lemma OthersKeptOn(a: map<Uuid, Row>, b: map<Uuid, Row>, c: map<Uuid, Row>)
      requires OthersKept(a, b) && OthersKept(b, c)
      ensures OthersKept(a, c)
    {
    }

    /** The row as it was, or deleted meanwhile. */
    ghost predicate OrDeleted(before: map<Uuid, Row>, after: map<Uuid, Row>) {
      after == before || (id in before && after == before[id := before[id].(status := Deleted)])
    }

    ghost method Take(a: Action)
      requires system == Run(start, script)
      modifies this`system, this`script
      ensures system == Step(old(system), a) && system == Run(start, script)
      ensures script == old(script) + [a]
    {
      hide Step;
      system, script := Step(system, a), script + [a];
      assert script[..|script| - 1] == old(script);
    }

    /** The user may delete the row while no transaction of the job is open. */
    method Meanwhile(k: nat, phase: Phase)
      requires Matches(phase, None)
      modifies this`log, this`system, this`script, repo
      ensures Matches(phase, None)
      ensures old(repo.rows[id].status) == Complete ==> repo.rows[id] == old(repo.rows[id])
      ensures OrDeleted(old(repo.rows), repo.rows)
      ensures !env.deletedBefore(k) ==> repo.rows == old(repo.rows) && log == old(log)
    {
      hide Run, Step, SetStatus;
      if env.deletedBefore(k) {
        DeleteIs(system, phase);
        var r := repo.UpdateStatusAs(id, Deleted, true);
        if r == Ok(()) {
          log := log + [UserDeleted(0)];
        }
        Take(Delete(0));
      }
    }

    /** Begin a stage transaction. When nothing went wrong the row is locked,
        or, if it is no longer live, the protocol is past the transaction. */
    method Begin(k: nat, phase: Phase, tx: Tx) returns (begun: StageResult)
      requires Matches(phase, None) && NextTx(phase, env.verdict) == Some(tx)
      modifies this`log, this`system, this`script, repo
      ensures repo.Valid() && id in repo.rows
      ensures begun == Finished ==>
        if IsLive(repo.rows[id]) then Matches(phase, Some(tx))
        else Matches(AfterNotLive(phase, LivenessOf(repo.rows[id].status)), None)
      ensures begun == Authority ==> Matches(AfterRefusal(phase), None)
      ensures begun == Failure ==> Matches(AfterError(phase), None)
      ensures OrDeleted(old(repo.rows), repo.rows)
      ensures Calm(k) ==> begun == Finished && repo.rows == old(repo.rows) && log == old(log)
    {
      hide Run, Step, AfterError, AfterRefusal, AfterNotLive, NextTx;
      Meanwhile(k, phase);
      var fault := env.fault(k);
      if fault == RefusedAtBegin {
        RefuseIs(system, phase);
        Take(Refuse(0));
        return Authority;
      }
      if fault == FailedEarly {
        AbortIs(system, phase, None);
        Take(Abort(0));
        return Failure;
      }
      OpenIs(system, phase, env.verdict);
      Take(Open(0, env.verdict));
      return Finished;
    }

    /** End a stage transaction that turned the locked row `before` into the
        committed one. */
    method End(k: nat, phase: Phase, tx: Tx, before: map<Uuid, Row>, events: seq<Event>, born: seq<Slot>) returns (r: StageResult)
      requires id in before && MatchesRow(phase, Some(tx), before[id])
      requires repo.Valid() && id in repo.rows && repo.rows[id] == CommittedRow(before[id], tx, env.commit)
      requires forall x :: x in before ==> Checked(before[x])
      requires var spawns := tx.RejectAndRefine? && Spawns(system.slots[0]);
        && events == CommitEvents(tx, env.commit, 0, spawns, |system.slots|)
        && born == if spawns then [Child(system.slots[0], 0)] else []
      modifies this, repo
      ensures r == Finished ==> Matches(AfterCommit(tx), None)
      ensures r == Finished ==> repo.rows == old(repo.rows) && children == old(children) + born
      ensures r == Failure ==> Matches(AfterError(phase), None)
      ensures childOutbox == old(childOutbox)
      ensures r != Authority
      ensures || (repo.rows == old(repo.rows) && children == old(children) + born)
              || (repo.rows == before && children == old(children) && r == Failure)
      ensures env.fault(k) == NoFault ==> r == Finished
      ensures r == Finished ==> log == old(log) + events
    {
      hide Run, Step, AfterError, AfterCommit, CommitEvents, CommittedRow, Spawns, Child;
      var fault := env.fault(k);
      if fault == RolledBack {
        repo.rows := before;
        AbortIs(system, phase, Some(tx));
        Take(Abort(0));
        return Failure;
      }
      log, children := log + events, children + born;
      if fault == ReportLost {
        CommitIs(system, tx, phase, env.commit, false);
        Take(CommitUnreported(0, env.commit));
        return Failure;
      }
      CommitIs(system, tx, phase, env.commit, true);
      Take(CommitTx(0, env.commit));
      return Finished;
    }

    /** Stage 1. `already` when the row was complete before this attempt. */
    method MarkRunningStage() returns (r: StageResult, already: bool)
      requires Matches(Start, None)
      modifies this, repo
      ensures children == old(children) && childOutbox == old(childOutbox)
      ensures r == Finished ==> Matches(if already then Ended(Done) else Staging, None)
      ensures r == Finished && already ==> repo.rows[id].status == Complete
      ensures r == Authority ==> Matches(Ended(Stopped), None)
      ensures r == Failure ==> Matches(FailingMark, None)
      ensures OthersKept(old(repo.rows), repo.rows)
      ensures r == Finished && !already ==>
        repo.rows[id] == old(repo.rows[id]).(status := Running) && old(repo.rows[id]).status !in {Complete, Deleted}
      ensures repo.rows.Keys == old(repo.rows).Keys && (Calm(0) ==> r != Failure)
      ensures Calm(0) && old(repo.rows[id].status) !in {Complete, Deleted} ==>
        r == Finished && !already && log == old(log) + [MarkedRunning(0)]
    {
      hide Run, Step, OthersKept, OrDeleted;
      already := false;
      r := Begin(0, Start, MarkRunning);
      OrDeletedKeepsOthers(old(repo.rows));
      LiveUnlessDeleted(old(repo.rows), repo.rows);
      if r == Finished {
        var before := repo.rows;
        var seen := repo.MarkRunning(id);
        if seen == Ok(Live) {
          OneRowChanged(before, repo.rows);
          r := End(0, Start, MarkRunning, before, [MarkedRunning(0)], []);
        } else if seen == Ok(AlreadyComplete) {
          already := true;
        } else {
          r := Authority;
        }
      }
    }

    /** Record the model that ran, after the stages or after their failure;
        not `written` when the row is no longer live. */
    method RecordUsageStage(k: nat, phase: Phase, tx: Tx) returns (r: StageResult, written: bool)
      requires Matches(phase, None)
      requires (phase == Staging && tx == RecordUsage(env.verdict)) || (phase == FailingUsage && tx == RecordFailedUsage)
      modifies this, repo
      ensures children == old(children) && childOutbox == old(childOutbox)
      ensures r == Finished ==> Matches(if written then AfterCommit(tx) else Ended(Stopped), None)
      ensures r == Authority ==> Matches(AfterRefusal(phase), None)
      ensures r == Failure ==> Matches(AfterError(phase), None)
      ensures OthersKept(old(repo.rows), repo.rows) && repo.rows.Keys == old(repo.rows).Keys
      ensures r == Finished && written ==> Recorded(repo.rows[id], old(repo.rows[id]))
      ensures Calm(k) ==> r == Finished
      ensures Calm(k) && old(repo.rows[id].status) !in {Complete, Deleted} ==> written && log == old(log) + [UsageRecorded(0)]
    {
      hide Run, Step, OthersKept, OrDeleted, Recorded, AfterCommit, AfterRefusal, AfterError;
      written := false;
      r := Begin(k, phase, tx);
      OrDeletedKeepsOthers(old(repo.rows));
      LiveUnlessDeleted(old(repo.rows), repo.rows);
      UsageEnds();
      if r == Finished {
        var before := repo.rows;
        var usage := env.commit.usage;
        written := repo.RecordLlmUsage(id, usage.provider, usage.model, usage.calls);
        if written {
          UsedIsRecorded(before[id], repo.rows[id]);
          OneRowChanged(before, repo.rows);
          r := End(k, phase, tx, before, [UsageRecorded(0)], []);
        }
      }
    }

    lemma UsageEnds()
      ensures AfterNotLive(Staging, AlreadyComplete) == AfterNotLive(Staging, AlreadyDeleted) == Ended(Stopped)
      ensures AfterNotLive(FailingUsage, AlreadyComplete) == AfterNotLive(FailingUsage, AlreadyDeleted) == Ended(Stopped)
    {
    }

    /** A row that is live now was not deleted meanwhile. */
    lemma LiveUnlessDeleted(before: map<Uuid, Row>, after: map<Uuid, Row>)
      requires OrDeleted(before, after) && id in before
      ensures id in after && (IsLive(after[id]) ==> after == before)
    {
    }

    lemma OneRowChanged(before: map<Uuid, Row>, after: map<Uuid, Row>)
      requires id in before && id in after && after == before[id := after[id]]
      ensures OthersKept(before, after) && after.Keys == before.Keys
      ensures OthersKept(before, before)
    {
    }

    lemma UsedIsRecorded(before: Row, row: Row)
      requires row == UsedRow(before, env.commit.usage)
      ensures Recorded(row, before)
    {
    }

    /** Only the model's record is new, its count cut at what the column holds. */
    ghost predicate Recorded(row: Row, before: Row) {
      && row == before.(usage := row.usage) && row.usage.Some?
      && row.usage.value == env.commit.usage.(calls := row.usage.value.calls)
      && (env.commit.usage.calls <= 0x7FFF_FFFF ==> row.usage.value.calls == env.commit.usage.calls)
      && (env.commit.usage.calls > 0x7FFF_FFFF ==> row.usage.value.calls == 0x7FFF_FFFF)
    }

    /** A stage transaction after the verdict holds the live row. */
    method BeginLive(k: nat, phase: Phase, tx: Tx) returns (r: StageResult)
      requires Matches(phase, None) && NextTx(phase, env.verdict) == Some(tx)
      requires phase.Judged? || phase in {OutcomeStored, Planned, Embedded}
      modifies this`log, this`system, this`script, repo
      ensures r == Finished ==> Matches(phase, Some(tx)) && IsLive(repo.rows[id]) && repo.rows == old(repo.rows)
      ensures r == Authority ==> Matches(Ended(Stopped), None)
      ensures r == Failure ==> Matches(FailingUsage, None)
      ensures OrDeleted(old(repo.rows), repo.rows)
      ensures Calm(k) && IsLive(old(repo.rows[id])) ==> r == Finished && log == old(log)
    {
      hide Run, Step;
      r := Begin(k, phase, tx);
      if r == Finished {
        var seen := repo.LockLive(id);
        if seen != Ok(Live) {
          r := Authority;
        }
      }
    }

    method StoreOutcomeStage(k: nat) returns (r: StageResult)
      requires Matches(Judged(Accept), None)
      modifies this, repo
      ensures children == old(children) && childOutbox == old(childOutbox)
      ensures r == Finished ==> Matches(OutcomeStored, None)
      ensures r == Authority ==> Matches(Ended(Stopped), None)
      ensures r == Failure ==> Matches(FailingUsage, None)
      ensures OthersKept(old(repo.rows), repo.rows)
      ensures r == Finished ==> repo.rows[id] == old(repo.rows[id]).(verifierAttempts := old(repo.rows[id]).verifierAttempts + 1)
      ensures r == Finished ==> IsLive(repo.rows[id])
      ensures Calm(k) && IsLive(old(repo.rows[id])) ==> r == Finished && log == old(log) + [OutcomeRecorded(0)]
    {
      hide Run, Step;
      r := BeginLive(k, Judged(Accept), StoreOutcome);
      if r == Finished {
        var before := repo.rows;
        repo.rows := before[id := before[id].(verifierAttempts := before[id].verifierAttempts + 1)];
        r := End(k, Judged(Accept), StoreOutcome, before, [OutcomeRecorded(0)], []);
      }
    }

    /** A stage transaction that writes beside the row: the outbox plan, the
        embedding. */
    method BesideRowStage(k: nat, phase: Phase, tx: Tx, event: Event) returns (r: StageResult)
      requires Matches(phase, None)
      requires (phase == OutcomeStored && tx == PlanEdges && event == EdgesPlanned(0))
               || (phase == Planned && tx == StoreEmbedding && event == EmbeddingRecorded(0))
      modifies this, repo
      ensures children == old(children) && childOutbox == old(childOutbox)
      ensures r == Finished ==> Matches(AfterCommit(tx), None)
      ensures r == Authority ==> Matches(Ended(Stopped), None)
      ensures r == Failure ==> Matches(FailingUsage, None)
      ensures OthersKept(old(repo.rows), repo.rows)
      ensures r == Finished ==> repo.rows[id] == old(repo.rows[id])
      ensures Calm(k) && IsLive(old(repo.rows[id])) ==> r == Finished && log == old(log) + [event]
    {
      hide Run, Step;
      r := BeginLive(k, phase, tx);
      if r == Finished {
        r := End(k, phase, tx, repo.rows, [event], []);
      }
    }

    /** Edges, completion and its event in one transaction; a refused edge is
        committed with what was written, and fails the stage. */
    method FinishStage(k: nat) returns (r: StageResult)
      requires Matches(Embedded, None)
      modifies this, repo
      ensures children == old(children) && childOutbox == old(childOutbox)
      ensures r == Finished ==>
        Matches(Scoring, None) && repo.rows[id].status == Complete && repo.rows[id].narrative == Some(env.commit.narrative)
      ensures r == Authority ==> Matches(Ended(Stopped), None)
      ensures r == Failure ==> Matches(FailingUsage, None)
      ensures OthersKept(old(repo.rows), repo.rows)
      ensures r == Finished ==> repo.rows[id] == old(repo.rows[id]).(status := Complete, narrative := Some(env.commit.narrative))
      ensures Calm(k) && IsLive(old(repo.rows[id])) ==>
        if env.edgeRefused then r == Failure && repo.rows == old(repo.rows) && log == old(log) + [EdgesWritten(0)]
        else r == Finished
             && log == old(log) + [EdgesWritten(0)] + (if env.commit.announce then [CompleteAnnounced(0)] else []) + [Completed(0)]
    {
      hide Run, Step, OthersKept, OrDeleted;
      r := BeginLive(k, Embedded, Finish);
      OrDeletedKeepsOthers(old(repo.rows));
      if r == Finished {
        r := FinishHeld(k);
      }
    }

    /** The open transaction of the last stage. */
    method FinishHeld(k: nat) returns (r: StageResult)
      requires Matches(Embedded, Some(Finish)) && IsLive(repo.rows[id])
      modifies this, repo
      ensures children == old(children) && childOutbox == old(childOutbox)
      ensures r == Finished ==>
        Matches(Scoring, None) && repo.rows[id] == old(repo.rows[id]).(status := Complete, narrative := Some(env.commit.narrative))
      ensures r == Failure ==> Matches(FailingUsage, None)
      ensures r != Authority && OthersKept(old(repo.rows), repo.rows)
      ensures env.fault(k) == NoFault ==>
        if env.edgeRefused then r == Failure && repo.rows == old(repo.rows) && log == old(log) + [EdgesWritten(0)]
        else r == Finished
             && log == old(log) + [EdgesWritten(0)] + (if env.commit.announce then [CompleteAnnounced(0)] else []) + [Completed(0)]
    {
      hide Run, Step;
      var before := repo.rows;
      if env.edgeRefused {
        if env.fault(k) == RolledBack {
          AbortIs(system, Embedded, Some(Finish));
          Take(Abort(0));
          return Failure;
        }
        log := log + [EdgesWritten(0)];
        RefusedEdgeIs(system, Embedded);
        Take(CommitRefusedEdge(0));
        return Failure;
      }
      var saved := repo.SaveNarrative(id, env.commit.narrative);
      var events := [EdgesWritten(0)];
      if env.commit.announce {
        events := events + [CompleteAnnounced(0)];
      }
      r := End(k, Embedded, Finish, before, events + [Completed(0)], []);
    }

    /** The reject path: outcome, status and, below the ceiling and with a
        principal, the refinement child with its job and its REFINES outbox
        row, in one transaction. A principal that is not the acting one refuses
        it, and nothing is written. */
    method RejectStage(k: nat) returns (r: StageResult)
      requires Matches(Judged(Reject), None) && children == [] && childOutbox == map[]
      modifies this, repo
      ensures r == Finished ==> Matches(Ended(Done), None) && RejectedOnce(repo.rows[id], old(repo.rows[id]))
      ensures r == Authority ==> Matches(Ended(Stopped), None) && children == []
      ensures r == Failure ==> Matches(FailingUsage, None)
      // Exactly below the ceiling and with a principal there is a child.
      ensures var cold := TemperatureOf(old(repo.rows[id])).depthDelta < 3;
        && (r == Finished && !(cold && job.principal.Some?) ==> children == [])
        && (r == Finished && cold && job.principal.Some? ==>
              job.principal == Some(acting) && |children| == 1 && childId !in old(repo.rows) && childId in repo.rows)
        && (Calm(k) && IsLive(old(repo.rows[id])) && job.principal == Some(acting) && childId !in old(repo.rows) ==>
              r == Finished && log == old(log) + [OutcomeRecorded(0), RejectedRow(0)] + if cold then [ChildInserted(0, 1)] else [])
      // What the child is, and that nothing else changes.
      ensures |children| <= 1 && forall i :: 0 <= i < |children| ==> Refines(children[i], old(repo.rows[id]), repo.rows)
      ensures OthersKept(old(repo.rows), repo.rows) && (childId in repo.rows && childId !in old(repo.rows) <==> children != [])
      ensures childOutbox == if children == [] then map[] else map[RefinesEdge() := Outbox.PLANNED]
    {
      hide Run, Step, OthersKept, OrDeleted, Refines, RejectedOnce, AtCeiling, TemperatureOf;
      r := BeginLive(k, Judged(Reject), RejectAndRefine);
      OrDeletedKeepsOthers(old(repo.rows));
      if r == Finished {
        SameKeepsOthers(old(repo.rows));
        r := RejectHeld(k);
      }
    }

    lemma OrDeletedKeepsOthers(before: map<Uuid, Row>)
      requires OrDeleted(before, repo.rows)
      ensures OthersKept(before, repo.rows) && repo.rows.Keys == before.Keys
    {
    }

    lemma SameUnlessDeleted(before: map<Uuid, Row>, after: map<Uuid, Row>)
      requires OrDeleted(before, after) && id in before
      ensures id in after && after[id] == before[id].(status := after[id].status)
    {
    }

    lemma SameKeepsOthers(before: map<Uuid, Row>)
      requires repo.rows == before
      ensures OthersKept(before, repo.rows)
    {
    }

    /** The open transaction of the reject path. */
    method RejectHeld(k: nat) returns (r: StageResult)
      requires Matches(Judged(Reject), Some(RejectAndRefine)) && IsLive(repo.rows[id]) && children == [] && childOutbox == map[]
      modifies this, repo
      ensures r == Finished ==> Matches(Ended(Done), None) && RejectedOnce(repo.rows[id], old(repo.rows[id]))
      ensures r == Authority ==> Matches(Ended(Stopped), None) && children == []
      ensures r == Failure ==> Matches(FailingUsage, None)
      ensures var cold := TemperatureOf(old(repo.rows[id])).depthDelta < 3;
        && (r == Finished && !(cold && job.principal.Some?) ==> children == [])
        && (r == Finished && cold && job.principal.Some? ==>
              job.principal == Some(acting) && |children| == 1 && childId !in old(repo.rows) && childId in repo.rows)
        && (env.fault(k) == NoFault && job.principal == Some(acting) && childId !in old(repo.rows) ==>
              r == Finished && log == old(log) + [OutcomeRecorded(0), RejectedRow(0)] + if cold then [ChildInserted(0, 1)] else [])
      ensures |children| <= 1 && forall i :: 0 <= i < |children| ==> Refines(children[i], old(repo.rows[id]), repo.rows)
      ensures OthersKept(old(repo.rows), repo.rows) && (childId in repo.rows && childId !in old(repo.rows) <==> children != [])
      ensures childOutbox == if children == [] then map[] else map[RefinesEdge() := Outbox.PLANNED]
    {
      hide Run, Step, Refines;
      var before := repo.rows;
      var row := before[id].(verifierAttempts := before[id].verifierAttempts + 1, status := Rejected);
      var events := [OutcomeRecorded(0), RejectedRow(0)];
      repo.rows := before[id := row];
      if AtCeiling(TemperatureOf(row)) || job.principal.None? {
        r := End(k, Judged(Reject), RejectAndRefine, before, events, []);
        return;
      }
      if job.principal.value != acting {
        repo.rows := before;
        RefuseOpenIs(system, Judged(Reject), RejectAndRefine);
        Take(Refuse(0));
        return Authority;
      }
      if childId in before {
        repo.rows := before;
        AbortIs(system, Judged(Reject), Some(RejectAndRefine));
        Take(Abort(0));
        return Failure;
      }
      r := RefineHeld(k, before);
    }

    /** The child, its job and its outbox row, in the open transaction that
        began on `before` and has rejected the row. */
    method RefineHeld(k: nat, before: map<Uuid, Row>) returns (r: StageResult)
      requires id in before && childId !in before && MatchesRow(Judged(Reject), Some(RejectAndRefine), before[id])
      requires children == [] && childOutbox == map[] && (forall x :: x in before ==> Checked(before[x])) && IsLive(before[id])
      requires repo.rows == before[id := before[id].(status := Rejected, verifierAttempts := before[id].verifierAttempts + 1)]
      requires !AtCeiling(TemperatureOf(before[id])) && job.principal.Some?
      modifies this, repo
      ensures r == Finished ==> Matches(Ended(Done), None) && |children| == 1 && RejectedOnce(repo.rows[id], before[id])
      ensures r == Failure ==> Matches(FailingUsage, None)
      ensures r != Authority
      ensures |children| <= 1 && forall i :: 0 <= i < |children| ==> Refines(children[i], before[id], repo.rows)
      ensures OthersKept(before, repo.rows) && (childId in repo.rows <==> children != [])
      ensures childOutbox == if children == [] then map[] else map[RefinesEdge() := Outbox.PLANNED]
      ensures env.fault(k) == NoFault ==>
        r == Finished && log == old(log) + [OutcomeRecorded(0), RejectedRow(0)] + [ChildInserted(0, 1)]
    {
      hide Run, Step, AtCeiling, OneStepOn, Anneal, OthersKept, Refines;
      var row := repo.rows[id];
      var child := Row(Pending, None, None, None, 0, row.visibility, Some(Anneal(TemperatureOf(row))), row.recipe);
      var born := Slot(child, Job(Queued, 0, job.principal, job.payload), Some(0), 0, 1, None);
      repo.rows := repo.rows[childId := child];
      BornRefines(born, before[id], repo.rows);
      TwoRowsAtMost(before, repo.rows);
      SameRows(before);
      r := End(k, Judged(Reject), RejectAndRefine, before, [OutcomeRecorded(0), RejectedRow(0)] + [ChildInserted(0, 1)], [born]);
      if children != [] {
        childOutbox := map[RefinesEdge() := Outbox.PLANNED];
      }
    }

    lemma BornRefines(born: Slot, parent: Row, rows: map<Uuid, Row>)
      requires childId != id && childId in rows && rows[childId] == born.row
      requires born.row == Row(Pending, None, None, None, 0, parent.visibility, Some(Anneal(TemperatureOf(parent))), parent.recipe)
      requires born.job == Job(Queued, 0, job.principal, job.payload)
      ensures Refines(born, parent, rows)
    {
      hide Anneal, OneStepOn;
      AnnealIsOneStep(parent.temperature);
    }

    lemma TwoRowsAtMost(before: map<Uuid, Row>, after: map<Uuid, Row>)
      requires childId !in before && childId in after && id in before && id in after
      requires after == before[id := after[id]][childId := after[childId]]
      ensures OthersKept(before, after)
    {
    }

    lemma SameRows(rows: map<Uuid, Row>)
      ensures OthersKept(rows, rows)
    {
    }

    predicate RejectedOnce(row: Row, before: Row) {
      row == before.(status := Rejected, verifierAttempts := before.verifierAttempts + 1)
    }

    /** A refinement child of the row: it waits like a new synthesis, keeps the
        recipe and the visibility of its parent, is one anneal step on, and has
        a queued job of its own with the principal and payload of the parent's. */
    ghost predicate Refines(child: Slot, parent: Row, rows: map<Uuid, Row>) {
      && childId != id && childId in rows && child.row == rows[childId]
      && child.row.status == Pending && child.row.narrative.None? && child.row.failureReason.None?
      && child.row.usage.None? && child.row.verifierAttempts == 0
      && child.row.visibility == parent.visibility && child.row.recipe == parent.recipe
      && child.row.temperature.Some? && OneStepOn(child.row.temperature.value, parent.temperature)
      && child.job.state == Queued && child.job.attempts == 0
      && child.job.principal == job.principal && child.job.payload == job.payload
    }

    function RefinesEdge(): Outbox.Edge {
      Outbox.Edge(Outbox.Refines, Outbox.SynthesisTarget, id)
    }

    /** The transaction of stage 2, 3 or 4: it writes the snapshot, the clusters
        or their text whether or not the row is still live. */
    method StagePersist(k: nat) returns (r: StageResult)
      requires Matches(Staging, None)
      modifies this`log, this`system, this`script, repo
      ensures r == Finished ==> Matches(Staging, None) && env.stage(k) == Wrote && log != [] && log[|log| - 1] == StageWritten(0)
      ensures r == Authority ==> Matches(Ended(Stopped), None) && env.stage(k) == Denied
      ensures r == Failure ==> Matches(FailingUsage, None) && env.stage(k) == BrokeDown
      ensures OrDeleted(old(repo.rows), repo.rows)
      ensures !env.deletedBefore(k) ==> repo.rows == old(repo.rows) && (r == Finished ==> log == old(log) + [StageWritten(0)])
      ensures env.stage(k) == Wrote ==> r == Finished
    {
      hide Run;
      Meanwhile(k, Staging);
      match env.stage(k) {
        case Wrote =>
          log := log + [StageWritten(0)];
          Take(StageWrite(0));
          r := Finished;
        case BrokeDown =>
          StagesFailed(Staging);
          r := Failure;
        case Denied =>
          StagesRefused(Staging);
          r := Authority;
      }
    }

    /** The novelty of the completed synthesis, which may fail without harm. */
    method NoveltyStage(k: nat)
      requires Matches(Scoring, None) && repo.rows[id].status == Complete
      modifies this`log, this`system, this`script, repo
      ensures Matches(Ended(Done), None) && repo.rows[id] == old(repo.rows[id])
      ensures OthersKept(old(repo.rows), repo.rows)
      ensures Calm(k) ==> log == old(log) + if env.noveltyStored then [NoveltyStored(0)] else []
    {
      hide Run;
      Meanwhile(k, Scoring);
      log := log + if env.noveltyStored then [NoveltyStored(0)] else [];
      Take(StoreNovelty(0, env.noveltyStored));
    }

    /** Nothing goes wrong in any stage. */
    ghost predicate Smooth() {
      && (forall k :: Calm(k) && env.stage(k) == Wrote)
      && !env.verifyFails && !env.embeddingFails && !env.edgeRefused
    }

    lemma SameKeys(before: map<Uuid, Row>, after: map<Uuid, Row>)
      ensures before.Keys == after.Keys && MayRefine(before) ==> MayRefine(after)
    {
    }

    lemma SmoothIsCalm(k: nat)
      ensures Smooth() ==> Calm(k) && !env.embeddingFails && !env.edgeRefused
    {
    }

    /** The row of a whole attempt: the model's record, one more verification,
        and the end it came to. */
    ghost predicate FilledIn(row: Row, ended: Row) {
      && row == ended.(usage := row.usage, verifierAttempts := ended.verifierAttempts + 1)
      && Recorded(row, row.(usage := None))
    }

    /** The course of an accepted attempt from the stages on. */
    ghost predicate AcceptCourse(row: Row, was: Row, events: seq<Event>, before: seq<Event>) {
      && FilledIn(row, was.(status := Complete, narrative := Some(env.commit.narrative)))
      && events == before + Staged() + [OutcomeRecorded(0), EdgesPlanned(0), EmbeddingRecorded(0)] + FinishedEvents()
    }

    /** The course of a rejected attempt, with its child below the ceiling. */
    ghost predicate RejectCourse(row: Row, was: Row, events: seq<Event>, before: seq<Event>, born: nat) {
      var cold := TemperatureOf(was).depthDelta < 3;
      && FilledIn(row, was.(status := Rejected)) && born == (if cold then 1 else 0)
      && events == before + Staged() + [OutcomeRecorded(0), RejectedRow(0)] + if cold then [ChildInserted(0, 1)] else []
    }

    /** The status before makes no difference to a course. */
    lemma CourseFromRunning(row: Row, running: Row, was: Row, events: seq<Event>, before: seq<Event>, born: nat)
      requires running == was.(status := Running)
      ensures AcceptCourse(row, running, events, before) ==> AcceptCourse(row, was, events, before)
      ensures RejectCourse(row, running, events, before, born) ==> RejectCourse(row, was, events, before, born)
    {
      hide Staged, FinishedEvents, Recorded;
    }

    predicate MayRefine(rows: map<Uuid, Row>) {
      job.principal == Some(acting) && childId !in rows
    }

    /** What is committed up to the verdict. */
    function Staged(): seq<Event> {
      [StageWritten(0), StageWritten(0), StageWritten(0), UsageRecorded(0)]
    }

    function FinishedEvents(): seq<Event> {
      [EdgesWritten(0)] + (if env.commit.announce then [CompleteAnnounced(0)] else []) + [Completed(0)]
      + if env.noveltyStored then [NoveltyStored(0)] else []
    }

    /** Stages 1 to 7 on the pipeline. */
    method RunOnPipeline() returns (r: StageResult)
      requires Matches(Staging, None) && children == [] && childOutbox == map[]
      modifies this, repo
      ensures r == Finished ==> Matches(Ended(Done), None) && repo.rows[id].status in {Complete, Rejected}
      ensures r == Authority ==> Matches(Ended(Stopped), None)
      ensures r == Failure ==> Matches(FailingUsage, None)
      ensures OthersKept(old(repo.rows), repo.rows)
      ensures |children| <= 1 && forall i :: 0 <= i < |children| ==> Refines(children[i], old(repo.rows[id]), repo.rows)
      ensures childOutbox == if children == [] then map[] else map[RefinesEdge() := Outbox.PLANNED]
      ensures Smooth() && IsLive(old(repo.rows[id])) && env.verdict == Accept ==>
        r == Finished && children == [] && AcceptCourse(repo.rows[id], old(repo.rows[id]), log, old(log))
      ensures Smooth() && IsLive(old(repo.rows[id])) && env.verdict == Reject && MayRefine(old(repo.rows)) ==>
        r == Finished && RejectCourse(repo.rows[id], old(repo.rows[id]), log, old(log), |children|)
    {
      hide Run, Step, MatchesRow, AtCeiling, Anneal, OrDeleted, Refines, OthersKept, Recorded, AcceptCourse, RejectCourse, Staged, FinishedEvents;
      r := PersistStages();
      OrDeletedKeepsOthers(old(repo.rows));
      SameUnlessDeleted(old(repo.rows), repo.rows);
      if r != Finished {
        return;
      }
      ghost var staged := repo.rows;
      if env.verifyFails {
        StagesFailed(Staging);
        return Failure;
      }
      var written;
      r, written := RecordUsageStage(4, Staging, RecordUsage(env.verdict));
      OthersKeptOn(old(repo.rows), staged, repo.rows);
      if r != Finished {
        return;
      }
      if !written {
        return Authority;
      }
      ghost var recorded, logged := repo.rows, log;
      StagedIs(old(log), logged);
      RecordedIsLive(recorded[id], staged[id]);
      if env.verdict.Reject? {
        r := RejectStage(5);
        SameParent(recorded[id], old(repo.rows[id]));
        RejectedOnCourse(repo.rows[id], recorded[id], staged[id], log, old(log));
      } else {
        r := AcceptStages();
        AcceptedOnCourse(repo.rows[id], recorded[id], staged[id], log, old(log));
      }
      OthersKeptOn(old(repo.rows), recorded, repo.rows);
    }

    lemma StagedIs(before: seq<Event>, after: seq<Event>)
      ensures after == before + [StageWritten(0), StageWritten(0), StageWritten(0)] + [UsageRecorded(0)] ==> after == before + Staged()
    {
    }

    lemma AcceptedOnCourse(row: Row, recorded: Row, was: Row, events: seq<Event>, before: seq<Event>)
      requires Recorded(recorded, was)
      ensures row == recorded.(status := Complete, narrative := Some(env.commit.narrative), verifierAttempts := recorded.verifierAttempts + 1)
        && events == before + Staged() + [OutcomeRecorded(0), EdgesPlanned(0), EmbeddingRecorded(0)] + FinishedEvents()
        ==> AcceptCourse(row, was, events, before)
    {
      hide Staged, FinishedEvents;
    }

    lemma RejectedOnCourse(row: Row, recorded: Row, was: Row, events: seq<Event>, before: seq<Event>)
      requires Recorded(recorded, was)
      ensures var cold := TemperatureOf(recorded).depthDelta < 3;
        RejectedOnce(row, recorded)
        && events == before + Staged() + [OutcomeRecorded(0), RejectedRow(0)] + (if cold then [ChildInserted(0, 1)] else [])
        ==> RejectCourse(row, was, events, before, if cold then 1 else 0)
    {
      hide Staged;
    }

    lemma SameParent(a: Row, b: Row)
      requires a.visibility == b.visibility && a.recipe == b.recipe && a.temperature == b.temperature
      ensures forall child, rows :: Refines(child, a, rows) ==> Refines(child, b, rows)
    {
    }

    lemma StillRefines(before: map<Uuid, Row>, after: map<Uuid, Row>, parent: Row)
      requires OthersKept(before, after)
      ensures forall child :: Refines(child, parent, before) ==> Refines(child, parent, after)
    {
    }

    lemma RecordedIsLive(row: Row, before: Row)
      requires Recorded(row, before)
      ensures IsLive(row) <==> IsLive(before)
      ensures row == before.(usage := row.usage)
    {
    }

    lemma RecordStays(row: Row, before: Row, later: Row)
      requires Recorded(row, before)
      ensures later.usage == row.usage ==> Recorded(later, later.(usage := None))
    {
    }

    lemma RecordIsKept(before: Row, after: Row)
      requires after.usage == before.usage
      ensures Recorded(before, before.(usage := None)) ==> Recorded(after, after.(usage := None))
    {
    }

    /** Stages 2 to 4. */
    method PersistStages() returns (r: StageResult)
      requires Matches(Staging, None)
      modifies this`log, this`system, this`script, repo
      ensures r == Finished ==> Matches(Staging, None)
      ensures r == Authority ==> Matches(Ended(Stopped), None)
      ensures r == Failure ==> Matches(FailingUsage, None)
      ensures OrDeleted(old(repo.rows), repo.rows)
      ensures Smooth() ==>
        r == Finished && repo.rows == old(repo.rows) && log == old(log) + [StageWritten(0), StageWritten(0), StageWritten(0)]
    {
      hide Run, Step, Matches, MatchesRow;
      for k := 1 to 4
        invariant Matches(Staging, None) && OrDeleted(old(repo.rows), repo.rows)
        invariant Smooth() ==> repo.rows == old(repo.rows) && log == old(log) + seq(k - 1, _ => StageWritten(0))
      {
        r := StagePersist(k);
        if r != Finished {
          return;
        }
      }
      r := Finished;
    }

    /** What follows an accepted verdict. */
    method AcceptStages() returns (r: StageResult)
      requires Matches(Judged(Accept), None)
      modifies this, repo
      ensures children == old(children) && childOutbox == old(childOutbox)
      ensures r == Finished ==> Matches(Ended(Done), None) && repo.rows[id].status == Complete
      ensures r == Authority ==> Matches(Ended(Stopped), None)
      ensures r == Failure ==> Matches(FailingUsage, None)
      ensures OthersKept(old(repo.rows), repo.rows)
      ensures r == Finished ==> repo.rows[id] == old(repo.rows[id])
        .(status := Complete, narrative := Some(env.commit.narrative), verifierAttempts := old(repo.rows[id]).verifierAttempts + 1)
      ensures Smooth() && IsLive(old(repo.rows[id])) ==>
        r == Finished && log == old(log) + [OutcomeRecorded(0), EdgesPlanned(0), EmbeddingRecorded(0)] + FinishedEvents()
    {
      hide Run, Step, MatchesRow, OrDeleted, OthersKept;
      r := PrepareStages();
      ghost var prepared := repo.rows;
      if r != Finished {
        return;
      }
      r := CloseStages();
      OthersKeptOn(old(repo.rows), prepared, repo.rows);
    }

    lemma AfterBeside()
      ensures AfterCommit(PlanEdges) == Planned && AfterCommit(StoreEmbedding) == Embedded && AfterError(Planned) == FailingUsage
    {
    }

    /** The outcome, the outbox and the embedding. */
    method PrepareStages() returns (r: StageResult)
      requires Matches(Judged(Accept), None)
      modifies this, repo
      ensures children == old(children) && childOutbox == old(childOutbox)
      ensures r == Finished ==> Matches(Embedded, None)
      ensures r == Authority ==> Matches(Ended(Stopped), None)
      ensures r == Failure ==> Matches(FailingUsage, None)
      ensures OthersKept(old(repo.rows), repo.rows)
      ensures r == Finished ==> repo.rows[id] == old(repo.rows[id]).(verifierAttempts := old(repo.rows[id]).verifierAttempts + 1)
      ensures Smooth() && IsLive(old(repo.rows[id])) ==>
        r == Finished && log == old(log) + [OutcomeRecorded(0), EdgesPlanned(0), EmbeddingRecorded(0)]
    {
      hide Run, Step, MatchesRow, OrDeleted, OthersKept, Smooth, Calm, IsLive;
      SmoothIsCalm(5);
      r := StoreOutcomeStage(5);
      ghost var judged := repo.rows;
      if r == Finished {
        r := PlanAndEmbed();
        OthersKeptOn(old(repo.rows), judged, repo.rows);
      }
    }

    /** The outbox and the embedding, which leave the row alone. */
    method PlanAndEmbed() returns (r: StageResult)
      requires Matches(OutcomeStored, None)
      modifies this, repo
      ensures children == old(children) && childOutbox == old(childOutbox)
      ensures r == Finished ==> Matches(Embedded, None) && repo.rows[id] == old(repo.rows[id])
      ensures r == Authority ==> Matches(Ended(Stopped), None)
      ensures r == Failure ==> Matches(FailingUsage, None)
      ensures OthersKept(old(repo.rows), repo.rows)
      ensures Smooth() && IsLive(old(repo.rows[id])) ==> r == Finished && log == old(log) + [EdgesPlanned(0), EmbeddingRecorded(0)]
    {
      hide Run, Step, MatchesRow, OrDeleted, OthersKept, Smooth, Calm, IsLive, AfterCommit;
      SmoothIsCalm(6);
      SmoothIsCalm(7);
      AfterBeside();
      r := BesideRowStage(6, OutcomeStored, PlanEdges, EdgesPlanned(0));
      ghost var planned := repo.rows;
      if r != Finished {
        return;
      }
      if env.embeddingFails {
        StagesFailed(Planned);
        return Failure;
      }
      r := BesideRowStage(7, Planned, StoreEmbedding, EmbeddingRecorded(0));
      OthersKeptOn(old(repo.rows), planned, repo.rows);
    }

    /** Completion and novelty. */
    method CloseStages() returns (r: StageResult)
      requires Matches(Embedded, None)
      modifies this, repo
      ensures children == old(children) && childOutbox == old(childOutbox)
      ensures r == Finished ==> Matches(Ended(Done), None)
      ensures r == Authority ==> Matches(Ended(Stopped), None)
      ensures r == Failure ==> Matches(FailingUsage, None)
      ensures OthersKept(old(repo.rows), repo.rows)
      ensures r == Finished ==> repo.rows[id] == old(repo.rows[id]).(status := Complete, narrative := Some(env.commit.narrative))
      ensures Smooth() && IsLive(old(repo.rows[id])) ==> r == Finished && log == old(log) + FinishedEvents()
    {
      hide Run, Step, MatchesRow, OrDeleted, OthersKept, Smooth, Calm, IsLive;
      SmoothIsCalm(8);
      SmoothIsCalm(9);
      r := FinishStage(8);
      ghost var finished := repo.rows;
      if r == Finished {
        NoveltyStage(9);
        OthersKeptOn(old(repo.rows), finished, repo.rows);
      }
    }

    /** The pipeline's own work, between transactions, fails or is refused. */
    method StagesFailed(phase: Phase)
      requires Matches(phase, None)
      modifies this`system, this`script
      ensures Matches(AfterError(phase), None)
    {
      hide Run, Step;
      AbortIs(system, phase, None);
      Take(Abort(0));
    }

    method StagesRefused(phase: Phase)
      requires Matches(phase, None)
      modifies this`system, this`script
      ensures Matches(AfterRefusal(phase), None)
    {
      hide Run, Step;
      RefuseIs(system, phase);
      Take(Refuse(0));
    }

    /** All stages; a failed attempt records its model too, unless the row is
        no longer live, which stops the job. */
    method RunStages() returns (r: StageResult)
      requires Matches(Start, None) && children == [] && childOutbox == map[]
      modifies this, repo
      ensures r == Finished ==> Matches(Ended(Done), None) && repo.rows[id].status in {Complete, Rejected}
      ensures r == Authority ==> Matches(Ended(Stopped), None)
      ensures r == Failure ==> Matches(FailingMark, None)
      ensures OthersKept(old(repo.rows), repo.rows)
      ensures |children| <= 1 && forall i :: 0 <= i < |children| ==> Refines(children[i], old(repo.rows[id]), repo.rows)
      ensures childOutbox == if children == [] then map[] else map[RefinesEdge() := Outbox.PLANNED]
      // Once it runs, a failed attempt records its model on a live row.
      ensures r == Failure && Calm(0) && Calm(10) && IsLive(repo.rows[id]) ==> Recorded(repo.rows[id], repo.rows[id].(usage := None))
      ensures Smooth() && IsLive(old(repo.rows[id])) && env.verdict == Accept ==>
        r == Finished && children == [] && AcceptCourse(repo.rows[id], old(repo.rows[id]), log, old(log) + [MarkedRunning(0)])
      ensures Smooth() && IsLive(old(repo.rows[id])) && env.verdict == Reject && MayRefine(old(repo.rows)) ==>
        r == Finished && RejectCourse(repo.rows[id], old(repo.rows[id]), log, old(log) + [MarkedRunning(0)], |children|)
    {
      hide Run, Step, MatchesRow, OthersKept, OrDeleted, Refines, Recorded, AcceptCourse, RejectCourse, Smooth, Calm, MayRefine;
      SmoothIsCalm(0);
      var already;
      r, already := MarkRunningStage();
      ghost var running := repo.rows;
      assert MayRefine(old(repo.rows)) ==> MayRefine(running) by {
        SameKeys(old(repo.rows), running);
      }
      if r != Finished || already {
        return;
      }
      assert IsLive(running[id]) && IsLive(old(repo.rows[id]));
      r := RunOnPipeline();
      OthersKeptOn(old(repo.rows), running, repo.rows);
      SameParent(running[id], old(repo.rows[id]));
      CourseFromRunning(repo.rows[id], running[id], old(repo.rows[id]), log, old(log) + [MarkedRunning(0)], |children|);
      if r == Failure {
        ghost var failed := repo.rows;
        var recorded, written := RecordUsageStage(10, FailingUsage, RecordFailedUsage);
        OthersKeptOn(old(repo.rows), failed, repo.rows);
        StillRefines(failed, repo.rows, old(repo.rows[id]));
        if recorded == Finished && written {
          RecordStays(repo.rows[id], failed[id], repo.rows[id]);
        }
        if recorded == Finished && !written {
          r := Authority;
        }
      }
    }

    /** Mark the row failed, best effort. */
    method MarkFailedStage(k: nat)
      requires Matches(FailingMark, None)
      modifies this, repo
      ensures Matches(Ended(Errored), None)
      ensures children == old(children) && childOutbox == old(childOutbox)
      ensures OthersKept(old(repo.rows), repo.rows)
      ensures repo.rows[id] == old(repo.rows[id]).(status := repo.rows[id].status, failureReason := repo.rows[id].failureReason)
      ensures IsLive(repo.rows[id]) ==> IsLive(old(repo.rows[id]))
      ensures Calm(k) && IsLive(old(repo.rows[id])) ==>
        && repo.rows[id] == old(repo.rows[id]).(status := Failed, failureReason := Some(env.commit.reason))
        && log == old(log) + [MarkedFailed(0)]
    {
      hide Run, Step;
      var r := Begin(k, FailingMark, MarkFailed);
      if r == Finished {
        var before := repo.rows;
        repo.MarkFailed(id, env.commit.reason);
        if IsLive(before[id]) {
          r := End(k, FailingMark, MarkFailed, before, [MarkedFailed(0)], []);
        }
      }
    }

    /** The whole attempt. Whatever fails, is refused or is deleted on the way,
        it is a run of the protocol from the claim, ended as reported, so the
        protocol's guarantees hold of the row and the log; a row complete or
        deleted at the claim is left as it is; and an attempt that reports
        success leaves the row complete or rejected. */
    method Execute() returns (ending: Ending)
      requires Matches(Start, None) && children == [] && childOutbox == map[] && system == start && Safe(start)
      modifies this, repo
      ensures Matches(Ended(ending), None) && system == Run(start, script) && Safe(system)
      ensures ending == Done ==> repo.rows[id].status in {Complete, Rejected}
      ensures !IsLive(old(repo.rows[id])) ==>
        repo.rows[id].(visibility := old(repo.rows[id].visibility)) == old(repo.rows[id])
      // No other synthesis is touched, and a child is a refinement of the row.
      ensures OthersKept(old(repo.rows), repo.rows)
      ensures |children| <= 1 && forall i :: 0 <= i < |children| ==> Refines(children[i], old(repo.rows[id]), repo.rows)
      ensures childOutbox == if children == [] then map[] else map[RefinesEdge() := Outbox.PLANNED]
      // When nothing goes wrong, what is committed and what becomes of the row.
      ensures Smooth() && IsLive(old(repo.rows[id])) && env.verdict == Accept ==>
        ending == Done && children == [] && AcceptCourse(repo.rows[id], old(repo.rows[id]), log, old(log) + [MarkedRunning(0)])
      ensures Smooth() && IsLive(old(repo.rows[id])) && env.verdict == Reject && MayRefine(old(repo.rows)) ==>
        ending == Done && RejectCourse(repo.rows[id], old(repo.rows[id]), log, old(log) + [MarkedRunning(0)], |children|)
      // When only the closing transactions go well, a failed attempt leaves its
      // reason and its model on a live row.
      ensures ending == Errored && Calm(11) && IsLive(repo.rows[id]) ==>
        && repo.rows[id].status == Failed && repo.rows[id].failureReason == Some(env.commit.reason)
        && (Calm(0) && Calm(10) ==> Recorded(repo.rows[id], repo.rows[id].(usage := None)))
    {
      hide Run, Step, Safe, OthersKept, Refines, Recorded, AcceptCourse, RejectCourse;
      ghost var row := repo.rows[id];
      var r := RunStages();
      match r {
        case Finished => ending := Done;
        case Authority => ending := Stopped;
        case Failure =>
          ghost var failed := repo.rows;
          MarkFailedStage(11);
          OthersKeptOn(old(repo.rows), failed, repo.rows);
          StillRefines(failed, repo.rows, row);
          RecordIsKept(failed[id], repo.rows[id]);
          ending := Errored;
      }
      RunIsSafe(start, script);
      if !IsLive(row) {
        TerminalRowsStay(start, script, 0);
      }
    }
  }

  function Claimed(row: Row, job: Job, history: seq<Event>): State {
    State([Slot(row, job, None, 0, 0, None)], [Attempt(0, 0, 0, Start, None)], history, 1, [])
  }

  /** The one attempt stands at a phase, its transaction open or not. */
  predicate At(s: State, phase: Phase, open: Option<Tx>) {
    && s.attempts == [Attempt(0, 0, 0, phase, open)]
    && s.slots != [] && s.slots[0].holder == if open.Some? then Some(0) else None
  }

  lemma DeleteIs(s: State, phase: Phase)
    requires At(s, phase, None) && Checked(s.slots[0].row)
    ensures var row := SetStatus(s.slots[0].row, Deleted);
      && (row.status == Deleted <==> s.slots[0].row.status != Complete)
      && (row.status != Deleted ==> row == s.slots[0].row)
      && Step(s, Delete(0)) ==
           if row.status != Deleted then s
           else s.(slots := s.slots[0 := s.slots[0].(row := row)], log := s.log + [UserDeleted(0)])
  {
  }

  lemma RefuseIs(s: State, phase: Phase)
    requires At(s, phase, None)
    ensures Step(s, Refuse(0)) == s.(attempts := [Attempt(0, 0, 0, AfterRefusal(phase), None)])
  {
    hide AfterRefusal;
  }

  lemma RefuseOpenIs(s: State, phase: Phase, tx: Tx)
    requires At(s, phase, Some(tx))
    ensures Step(s, Refuse(0)) ==
      s.(attempts := [Attempt(0, 0, 0, AfterRefusal(phase), None)], slots := s.slots[0 := s.slots[0].(holder := None)])
  {
    hide AfterRefusal;
  }

  lemma AbortIs(s: State, phase: Phase, open: Option<Tx>)
    requires At(s, phase, open)
    ensures Step(s, Abort(0)) ==
      s.(attempts := [Attempt(0, 0, 0, AfterError(phase), None)], slots := s.slots[0 := s.slots[0].(holder := None)])
  {
    hide AfterError;
  }

  lemma OpenIs(s: State, phase: Phase, verdict: Verdict)
    requires At(s, phase, None) && NextTx(phase, verdict).Some?
    ensures Step(s, Open(0, verdict)) ==
      if IsLive(s.slots[0].row)
      then s.(slots := s.slots[0 := s.slots[0].(holder := Some(0))], attempts := [Attempt(0, 0, 0, phase, NextTx(phase, verdict))])
      else s.(attempts := [Attempt(0, 0, 0, AfterNotLive(phase, LivenessOf(s.slots[0].row.status)), None)])
  {
    hide NextTx, AfterNotLive;
  }

  lemma RefusedEdgeIs(s: State, phase: Phase)
    requires At(s, phase, Some(Finish))
    ensures Step(s, CommitRefusedEdge(0)) ==
      s.(attempts := [Attempt(0, 0, 0, AfterError(phase), None)], slots := s.slots[0 := s.slots[0].(holder := None)],
         log := s.log + [EdgesWritten(0)])
  {
    hide AfterError;
  }

  lemma CommitIs(s: State, tx: Tx, phase: Phase, c: Commit, reported: bool)
    requires At(s, phase, Some(tx))
    ensures var spawns := tx.RejectAndRefine? && Spawns(s.slots[0]);
      Step(s, if reported then CommitTx(0, c) else CommitUnreported(0, c)) ==
      s.(slots := s.slots[0 := s.slots[0].(row := CommittedRow(s.slots[0].row, tx, c), holder := None)]
                  + (if spawns then [Child(s.slots[0], 0)] else []),
         attempts := [Attempt(0, 0, 0, if reported then AfterCommit(tx) else AfterError(phase), None)],
         log := s.log + CommitEvents(tx, c, 0, spawns, |s.slots|))
  {
    hide AfterCommit, AfterError, CommitEvents, CommittedRow, Spawns, Child;
  }

  // ── Where an attempt starts ─────────────────────────────────────────────

  /** What was committed for one synthesis, as its attempt knows it. */
  function Project(log: seq<Event>, r: nat): seq<Event> {
    if log == [] then []
    else
      var e := log[|log| - 1];
      Project(log[..|log| - 1], r) + if e.of == r then [e.(of := 0)] else []
  }

  lemma {:induction false} ProjectMembers(log: seq<Event>, r: nat)
    ensures forall e :: e in Project(log, r) ==> e.of == 0 && e.(of := r) in log
    ensures forall e :: e in log && e.of == r ==> e.(of := 0) in Project(log, r)
  {
    if log != [] {
      var init, last := log[..|log| - 1], log[|log| - 1];
      ProjectMembers(init, r);
      assert log == init + [last];
    }
  }

  lemma {:induction false} ProjectIsQuiet(log: seq<Event>, r: nat)
    requires QuietAfterTerminal(log)
    ensures QuietAfterTerminal(Project(log, r))
  {
    hide IsTerminal, MayFollow;
    if log != [] {
      var init, last := log[..|log| - 1], log[|log| - 1];
      assert QuietAfterTerminal(init) by {
        assert forall i :: 0 <= i < |init| ==> init[i] == log[i];
      }
      ProjectIsQuiet(init, r);
      ProjectMembers(init, r);
      var before, all := Project(init, r), Project(log, r);
      if last.of == r {
        forall i | 0 <= i < |before| && IsTerminal(before[i]) ensures MayFollow(before[i], last.(of := 0)) {
          assert before[i] in before;
          var k :| 0 <= k < |init| && init[k] == before[i].(of := r);
          assert init[k] == log[k];
          TargetSaysNothing(before[i], last, r);
        }
      }
    }
  }

  lemma TargetSaysNothing(a: Event, b: Event, r: nat)
    ensures IsTerminal(a) == IsTerminal(a.(of := r))
    ensures MayFollow(a, b.(of := 0)) == MayFollow(a.(of := r), b)
  {
  }

  lemma ProjectHas(log: seq<Event>, r: nat, e: Event)
    requires e.of == 0
    ensures e in Project(log, r) <==> e.(of := r) in log
  {
    hide Project;
    ProjectMembers(log, r);
    assert e.(of := r).(of := 0) == e;
  }

  lemma ProjectedLog(s: State, r: nat, job: Job)
    requires LogSound(s) && r < |s.slots|
    ensures LogSound(Claimed(s.slots[r].row, job, Project(s.log, r)))
  {
    hide Project, QuietAfterTerminal;
    ProjectMembers(s.log, r);
    ProjectIsQuiet(s.log, r);
    ProjectHas(s.log, r, UserDeleted(0));
    ProjectHas(s.log, r, Completed(0));
  }

  lemma ProjectedEarned(s: State, r: nat, job: Job)
    requires CompletionEarned(s) && r < |s.slots|
    ensures CompletionEarned(Claimed(s.slots[r].row, job, Project(s.log, r)))
  {
    hide Project;
    ProjectMembers(s.log, r);
    ProjectHas(s.log, r, Completed(0));
    ProjectHas(s.log, r, OutcomeRecorded(0));
    ProjectHas(s.log, r, EdgesPlanned(0));
    ProjectHas(s.log, r, EmbeddingRecorded(0));
    ProjectHas(s.log, r, EdgesWritten(0));
    var t := Claimed(s.slots[r].row, job, Project(s.log, r));
    forall e | e in t.log && e.Completed? ensures e == Completed(0) {
    }
  }

  /** Wherever the protocol can get to, the claim of any of its rows, live,
      retried or already terminal, is a sound start for the handler: its row,
      with what was committed for it so far. */
  lemma ClaimIsSafe(s: State, r: nat, job: Job)
    requires Safe(s) && r < |s.slots|
    ensures Safe(Claimed(s.slots[r].row, job, Project(s.log, r)))
  {
    hide LogSound, CompletionEarned, Project;
    ProjectedLog(s, r, job);
    ProjectedEarned(s, r, job);
  }
}
