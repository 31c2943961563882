/** The synthesis lifecycle as a protocol: any number of job attempts, each a
    chain of stage transactions on one synthesis row, interleaved with user
    deletions, queue retries, lost workers and the worklist's reconciliation
    (crates/episcience-api/src/jobs/synthesis_job.rs, jobs/worker.rs,
    crates/episcience-db/src/repos/synthesis.rs, migrations/5037). */
module Lifecycle {
  import opened Base
  import opened Refinement
  import opened SynthesisRows

  // ── The system state ────────────────────────────────────────────────────

  datatype JobState = Queued | InProgress | JobComplete | JobFailed

  /** The one queue row of a synthesis. */
  datatype Job = Job(state: JobState, attempts: nat, principal: Option<Uuid>, payload: Recipe)

  /** A synthesis: its row, its job, its place in the refinement tree, and the
      attempt whose open transaction holds the row lock. `root` and `depth`
      are bookkeeping over the parent links. */
  datatype Slot = Slot(row: Row, job: Job, parent: Option<nat>, root: nat, depth: nat, holder: Option<nat>)

  datatype Verdict = Accept | Reject

  /** The stage transactions, in the order an attempt makes them. */
  datatype Tx =
    | MarkRunning
    | RecordUsage(verdict: Verdict)
    | StoreOutcome
    | PlanEdges
    | StoreEmbedding
    | Finish
    | RejectAndRefine
    | RecordFailedUsage
    | MarkFailed

  datatype Ending = Done | Stopped | Errored | Lost

  /** How far an attempt has come: the next transaction, or how it ended.
      While staging it also writes the snapshot, the clusters and their text,
      without looking whether the row is still live. */
  datatype Phase =
    | Start
    | Staging
    | Judged(verdict: Verdict)
    | OutcomeStored
    | Planned
    | Embedded
    | Scoring
    | FailingUsage
    | FailingMark
    | Ended(ending: Ending)
    | Settled

  datatype Attempt = Attempt(target: nat, root: nat, depth: nat, phase: Phase, open: Option<Tx>)

  /** Committed effects, in commit order. */
  datatype Event =
    | UserDeleted(of: nat)
    | MarkedRunning(of: nat)
    | UsageRecorded(of: nat)
    | OutcomeRecorded(of: nat)
    | EdgesPlanned(of: nat)
    | EmbeddingRecorded(of: nat)
    | StageWritten(of: nat)
    | NoveltyStored(of: nat)
    | EdgesWritten(of: nat)
    | CompleteAnnounced(of: nat)
    | Completed(of: nat)
    | RejectedRow(of: nat)
    | ChildInserted(of: nat, child: nat)
    | MarkedFailed(of: nat)

  /** `offered` are the syntheses the worklist definer has named, each to be
      reconciled some time later. */
  datatype State = State(slots: seq<Slot>, attempts: seq<Attempt>, log: seq<Event>, maxAttempts: nat, offered: seq<nat>)

  // ── The attempt's program ───────────────────────────────────────────────

  function NextTx(phase: Phase, verdict: Verdict): Option<Tx> {
    match phase
    case Start => Some(MarkRunning)
    case Staging => Some(RecordUsage(verdict))
    case Judged(v) => Some(if v.Accept? then StoreOutcome else RejectAndRefine)
    case OutcomeStored => Some(PlanEdges)
    case Planned => Some(StoreEmbedding)
    case Embedded => Some(Finish)
    case Scoring => None
    case FailingUsage => Some(RecordFailedUsage)
    case FailingMark => Some(MarkFailed)
    case Ended(_) => None
    case Settled => None
  }

  function AfterCommit(tx: Tx): Phase {
    match tx
    case MarkRunning => Staging
    case RecordUsage(v) => Judged(v)
    case StoreOutcome => OutcomeStored
    case PlanEdges => Planned
    case StoreEmbedding => Embedded
    case Finish => Scoring
    case RejectAndRefine => Ended(Done)
    case RecordFailedUsage => FailingMark
    case MarkFailed => Ended(Errored)
  }

  /** Where a failure leads: a stage failure records the usage, then the row
      is marked failed, then the attempt ends. Scoring the novelty of a
      completed synthesis may fail without harm. */
  function AfterError(phase: Phase): Phase {
    match phase
    case Start => FailingMark
    case Scoring => Ended(Done)
    case FailingUsage => FailingMark
    case FailingMark => Ended(Errored)
    case Ended(_) => phase
    case Settled => phase
    case _ => FailingUsage
  }

  /** A refused authority stops the attempt, except while it reports a
      failure already under way. */
  function AfterRefusal(phase: Phase): Phase {
    match phase
    case Scoring => Ended(Done)
    case FailingUsage => FailingMark
    case FailingMark => Ended(Errored)
    case Ended(_) => phase
    case Settled => phase
    case _ => Ended(Stopped)
  }

  /** A row found complete or deleted: nothing is written. */
  function AfterNotLive(phase: Phase, seen: RowLiveness): Phase {
    match phase
    case Start => if seen == AlreadyComplete then Ended(Done) else Ended(Stopped)
    case FailingMark => Ended(Errored)
    case _ => Ended(Stopped)
  }

  // ── The effects of a commit ─────────────────────────────────────────────

  /** What the outside adds to a commit: the narrative, whether the synthesis
      is publishable and events are on, the model's record, a failure's text. */
  datatype Commit = Commit(narrative: string, announce: bool, usage: LlmUsage, reason: string)

  function CommittedRow(row: Row, tx: Tx, c: Commit): Row {
    match tx
    case MarkRunning => RunningRow(row)
    case RecordUsage(_) => UsedRow(row, c.usage)
    case RecordFailedUsage => UsedRow(row, c.usage)
    case StoreOutcome => row.(verifierAttempts := row.verifierAttempts + 1)
    case PlanEdges => row
    case StoreEmbedding => row
    case Finish => CompletedRow(row, c.narrative)
    case RejectAndRefine => row.(verifierAttempts := row.verifierAttempts + 1, status := Rejected)
    case MarkFailed => FailedRow(row, c.reason)
  }

  function TemperatureOf(row: Row): Temperature {
    if row.temperature.Some? then row.temperature.value else COLD
  }

  /** Whether a rejection spawns a refinement child. */
  predicate Spawns(slot: Slot) {
    !AtCeiling(TemperatureOf(slot.row)) && slot.job.principal.Some?
  }

  function CommitEvents(tx: Tx, c: Commit, r: nat, spawns: bool, child: nat): seq<Event> {
    match tx
    case MarkRunning => [MarkedRunning(r)]
    case RecordUsage(_) => [UsageRecorded(r)]
    case RecordFailedUsage => [UsageRecorded(r)]
    case StoreOutcome => [OutcomeRecorded(r)]
    case PlanEdges => [EdgesPlanned(r)]
    case StoreEmbedding => [EmbeddingRecorded(r)]
    case Finish => [EdgesWritten(r)] + (if c.announce then [CompleteAnnounced(r)] else []) + [Completed(r)]
    case RejectAndRefine => [OutcomeRecorded(r), RejectedRow(r)] + if spawns then [ChildInserted(r, child)] else []
    case MarkFailed => [MarkedFailed(r)]
  }

  /** The refinement child: the parent's recipe and pair, one anneal step
      hotter, its own queued job with the parent job's principal and payload. */
  function Child(parent: Slot, at: nat): Slot {
    Slot(Row(Pending, None, None, None, 0, parent.row.visibility,
             Some(Anneal(TemperatureOf(parent.row))), parent.row.recipe),
         Job(Queued, 0, parent.job.principal, parent.job.payload),
         Some(at), parent.root, parent.depth + 1, None)
  }

  function ApplyCommit(s: State, w: nat, c: Commit): State
    requires w < |s.attempts| && s.attempts[w].open.Some? && s.attempts[w].target < |s.slots|
  {
    var r, tx := s.attempts[w].target, s.attempts[w].open.value;
    var slot := s.slots[r];
    var spawns := tx.RejectAndRefine? && Spawns(slot);
    var written := s.slots[r := slot.(row := CommittedRow(slot.row, tx, c), holder := None)];
    s.(slots := written + (if spawns then [Child(slot, r)] else []),
       log := s.log + CommitEvents(tx, c, r, spawns, |s.slots|))
  }

  // ── The steps ───────────────────────────────────────────────────────────

  datatype Action =
    | Create(recipe: Recipe, visibility: Visibility, principal: Option<Uuid>)
    | Claim(r: nat)
    | Open(w: nat, verdict: Verdict)
    | CommitTx(w: nat, commit: Commit)
    | CommitUnreported(w: nat, commit: Commit)
    | CommitRefusedEdge(w: nat)
    | Abort(w: nat)
    | Refuse(w: nat)
    | Crash(w: nat)
    | StageWrite(w: nat)
    | StoreNovelty(w: nat, stored: bool)
    | Offer(r: nat)
    | Reconcile(i: nat)
    | Settle(w: nat, reported: bool)
    | Delete(r: nat)
    | SetVisibility(r: nat, visibility: Visibility)

  predicate HasOpen(s: State, w: nat) {
    w < |s.attempts| && s.attempts[w].open.Some? && s.attempts[w].target < |s.slots|
  }

  predicate Idle(s: State, w: nat) {
    w < |s.attempts| && s.attempts[w].open.None? && s.attempts[w].target < |s.slots|
  }

  function SetAttempt(s: State, w: nat, phase: Phase, open: Option<Tx>): State
    requires w < |s.attempts|
  {
    s.(attempts := s.attempts[w := s.attempts[w].(phase := phase, open := open)])
  }

  function SetSlot(s: State, r: nat, slot: Slot): State
    requires r < |s.slots|
  {
    s.(slots := s.slots[r := slot])
  }

  /** Open the next transaction: take the row lock (waiting while another
      holds it) and read the row under it. */
  function OpenTx(s: State, w: nat, verdict: Verdict): State
    requires Idle(s, w)
  {
    var a := s.attempts[w];
    var slot := s.slots[a.target];
    var tx := NextTx(a.phase, verdict);
    if tx.None? || slot.holder.Some? then s
    else if IsLive(slot.row) then SetSlot(SetAttempt(s, w, a.phase, tx), a.target, slot.(holder := Some(w)))
    else SetAttempt(s, w, AfterNotLive(a.phase, LivenessOf(slot.row.status)), None)
  }

  function Release(s: State, w: nat, phase: Phase): State
    requires w < |s.attempts|
  {
    var a := s.attempts[w];
    var freed := SetAttempt(s, w, phase, None);
    if a.open.Some? && a.target < |s.slots| then SetSlot(freed, a.target, s.slots[a.target].(holder := None)) else freed
  }

  /** The worker reports an ended attempt to the queue: complete, failed, or
      back to the queue while the job has attempts left. A report whose answer
      is lost is made again. */
  function SettledJob(job: Job, ending: Ending, maxAttempts: nat): Job {
    match ending
    case Done => job.(state := JobComplete)
    case Stopped => job.(state := JobFailed)
    case Errored => if job.attempts < maxAttempts then job.(state := Queued) else job.(state := JobFailed)
    case Lost => job
  }

  function Step(s: State, a: Action): State {
    match a
    case Create(recipe, visibility, principal) =>
      s.(slots := s.slots + [Slot(Row(Pending, None, None, None, 0, visibility, None, recipe),
                                  Job(Queued, 0, principal, recipe), None, |s.slots|, 0, None)])
    case Claim(r) =>
      if r < |s.slots| && s.slots[r].job.state == Queued then
        var slot := s.slots[r];
        SetSlot(s, r, slot.(job := slot.job.(state := InProgress, attempts := slot.job.attempts + 1)))
          .(attempts := s.attempts + [Attempt(r, slot.root, slot.depth, Start, None)])
      else s
    case Open(w, verdict) => if Idle(s, w) then OpenTx(s, w, verdict) else s
    case CommitTx(w, c) =>
      if HasOpen(s, w) then SetAttempt(ApplyCommit(s, w, c), w, AfterCommit(s.attempts[w].open.value), None) else s
    case CommitUnreported(w, c) =>
      if HasOpen(s, w) then SetAttempt(ApplyCommit(s, w, c), w, AfterError(s.attempts[w].phase), None) else s
    case CommitRefusedEdge(w) =>
      if HasOpen(s, w) && s.attempts[w].open == Some(Finish) then
        Release(s, w, AfterError(s.attempts[w].phase)).(log := s.log + [EdgesWritten(s.attempts[w].target)])
      else s
    case Abort(w) => if w < |s.attempts| then Release(s, w, AfterError(s.attempts[w].phase)) else s
    case Refuse(w) => if w < |s.attempts| then Release(s, w, AfterRefusal(s.attempts[w].phase)) else s
    case Crash(w) =>
      if w < |s.attempts| && !s.attempts[w].phase.Settled? then Release(s, w, Ended(Lost)) else s
    case StageWrite(w) =>
      if Idle(s, w) && s.attempts[w].phase == Staging then s.(log := s.log + [StageWritten(s.attempts[w].target)]) else s
    case StoreNovelty(w, stored) =>
      if Idle(s, w) && s.attempts[w].phase == Scoring then
        SetAttempt(s, w, Ended(Done), None)
          .(log := s.log + if stored then [NoveltyStored(s.attempts[w].target)] else [])
      else s
    case Offer(r) =>
      if r < |s.slots| && s.slots[r].row.status == Complete && s.slots[r].row.visibility == Public then
        s.(offered := s.offered + [r])
      else s
    case Reconcile(i) =>
      if i < |s.offered| then s.(log := s.log + [EdgesWritten(s.offered[i])]) else s
    case Settle(w, reported) =>
      if Idle(s, w) && s.attempts[w].phase.Ended? && s.slots[s.attempts[w].target].job.state == InProgress then
        var slot := s.slots[s.attempts[w].target];
        SetSlot(SetAttempt(s, w, if reported then Settled else s.attempts[w].phase, None), s.attempts[w].target,
                slot.(job := SettledJob(slot.job, s.attempts[w].phase.ending, s.maxAttempts)))
      else s
    case Delete(r) =>
      if r < |s.slots| && s.slots[r].holder.None? && s.slots[r].row.status != Complete then
        SetSlot(s, r, s.slots[r].(row := SetStatus(s.slots[r].row, Deleted))).(log := s.log + [UserDeleted(r)])
      else s
    case SetVisibility(r, v) =>
      if r < |s.slots| && s.slots[r].holder.None? then
        SetSlot(s, r, s.slots[r].(row := s.slots[r].row.(visibility := v)))
      else s
  }

  function Run(s: State, actions: seq<Action>): State {
    if actions == [] then s else Step(Run(s, actions[..|actions| - 1]), actions[|actions| - 1])
  }

  // ── Invariants ──────────────────────────────────────────────────────────

  /** Locks and open transactions belong to each other, and a row is live
      while a transaction holds it. */
  ghost predicate Locked(s: State) {
    && (forall w :: 0 <= w < |s.attempts| ==> s.attempts[w].target < |s.slots|)
    && (forall w :: 0 <= w < |s.attempts| && s.attempts[w].open.Some? ==>
          && s.slots[s.attempts[w].target].holder == Some(w)
          && IsLive(s.slots[s.attempts[w].target].row))
    && (forall r :: 0 <= r < |s.slots| && s.slots[r].holder.Some? ==>
          && s.slots[r].holder.value < |s.attempts|
          && s.attempts[s.slots[r].holder.value].open.Some?
          && s.attempts[s.slots[r].holder.value].target == r)
  }

  ghost predicate RowsChecked(s: State) {
    forall r :: 0 <= r < |s.slots| ==> Checked(s.slots[r].row)
  }

  lemma CommitKeepsLocks(s: State, w: nat, c: Commit, phase: Phase)
    requires Locked(s) && HasOpen(s, w)
    ensures Locked(SetAttempt(ApplyCommit(s, w, c), w, phase, None))
  {
    hide CommitEvents, Spawns, Child, CommittedRow;
    var after := SetAttempt(ApplyCommit(s, w, c), w, phase, None);
    var r := s.attempts[w].target;
    forall k | 0 <= k < |s.slots| && k != r ensures after.slots[k] == s.slots[k] {
    }
    ChildIsUnlocked(s.slots[r], r);
  }

  lemma ChildIsUnlocked(parent: Slot, at: nat)
    ensures Child(parent, at).holder == None
  {
  }

  /** An attempt without an open transaction changes only its phase. */
  lemma PhaseIsNoLock(s: State, w: nat, phase: Phase)
    requires Locked(s) && w < |s.attempts| && s.attempts[w].open.None?
    ensures Locked(SetAttempt(s, w, phase, None))
  {
  }

  /** An attempt closes its transaction and frees its row. */
  lemma FreeingKeepsLocks(s: State, w: nat, phase: Phase)
    requires Locked(s) && HasOpen(s, w)
    ensures var a := s.attempts[w];
      Locked(SetSlot(SetAttempt(s, w, phase, None), a.target, s.slots[a.target].(holder := None)))
  {
    var r := s.attempts[w].target;
    var t := SetSlot(SetAttempt(s, w, phase, None), r, s.slots[r].(holder := None));
    assert s.slots[r].holder == Some(w);
    forall k | 0 <= k < |s.slots| && k != r ensures t.slots[k] == s.slots[k] {
    }
    forall k | 0 <= k < |s.attempts| && k != w ensures t.attempts[k] == s.attempts[k] {
    }
  }

  lemma ReleaseKeepsLocks(s: State, w: nat, phase: Phase)
    requires Locked(s) && w < |s.attempts|
    ensures Locked(Release(s, w, phase))
  {
    hide Locked;
    if s.attempts[w].open.Some? {
      TargetIsSlot(s, w);
      FreeingKeepsLocks(s, w, phase);
    } else {
      PhaseIsNoLock(s, w, phase);
    }
  }

  lemma TargetIsSlot(s: State, w: nat)
    requires Locked(s) && w < |s.attempts|
    ensures s.attempts[w].target < |s.slots|
  {
  }

  lemma LogIsNoLock(s: State, log: seq<Event>)
    ensures Locked(s) ==> Locked(s.(log := log))
  {
  }

  lemma OpenKeepsLocks(s: State, w: nat, verdict: Verdict)
    requires Locked(s) && Idle(s, w)
    ensures Locked(OpenTx(s, w, verdict))
  {
    hide NextTx, AfterNotLive;
  }

  /** Changing a row no transaction holds keeps the locks. */
  lemma FreeSlotKeepsLocks(s: State, r: nat, slot: Slot, log: seq<Event>)
    requires Locked(s) && r < |s.slots| && slot.holder == s.slots[r].holder
    requires s.slots[r].holder.Some? ==> slot.row == s.slots[r].row
    ensures Locked(SetSlot(s, r, slot).(log := log))
  {
  }

  lemma StepKeepsLocks(s: State, a: Action)
    requires Locked(s)
    ensures Locked(Step(s, a))
  {
    hide ApplyCommit, Release, OpenTx, AfterError, AfterRefusal, AfterNotLive, AfterCommit, SetStatus;
    match a {
      case Create(_, _, _) =>
        var after := Step(s, a);
        forall k | 0 <= k < |s.slots| ensures after.slots[k] == s.slots[k] {
        }
      case Claim(r) =>
        ClaimKeepsLocks(s, r);
      case Open(w, verdict) =>
        if Idle(s, w) {
          OpenKeepsLocks(s, w, verdict);
        }
      case CommitTx(w, c) =>
        if HasOpen(s, w) {
          CommitKeepsLocks(s, w, c, AfterCommit(s.attempts[w].open.value));
        }
      case CommitUnreported(w, c) =>
        if HasOpen(s, w) {
          CommitKeepsLocks(s, w, c, AfterError(s.attempts[w].phase));
        }
      case CommitRefusedEdge(w) =>
        if w < |s.attempts| {
          ReleaseKeepsLocks(s, w, AfterError(s.attempts[w].phase));
          LogIsNoLock(Release(s, w, AfterError(s.attempts[w].phase)), s.log + [EdgesWritten(s.attempts[w].target)]);
        }
      case Abort(w) =>
        if w < |s.attempts| {
          ReleaseKeepsLocks(s, w, AfterError(s.attempts[w].phase));
        }
      case Refuse(w) =>
        if w < |s.attempts| {
          ReleaseKeepsLocks(s, w, AfterRefusal(s.attempts[w].phase));
        }
      case Crash(w) =>
        if w < |s.attempts| {
          ReleaseKeepsLocks(s, w, Ended(Lost));
        }
      case StageWrite(w) => LogIsNoLock(s, Step(s, a).log);
      case StoreNovelty(w, stored) => NoveltyKeepsLocks(s, w, stored);
      case Offer(r) =>
      case Reconcile(i) => LogIsNoLock(s, Step(s, a).log);
      case Settle(w, _) =>
        SettleKeepsLocks(s, w);
      case Delete(r) =>
        if r < |s.slots| && s.slots[r].holder.None? {
          FreeSlotKeepsLocks(s, r, s.slots[r].(row := SetStatus(s.slots[r].row, Deleted)), s.log + [UserDeleted(r)]);
        }
      case SetVisibility(r, v) =>
        if r < |s.slots| && s.slots[r].holder.None? {
          FreeSlotKeepsLocks(s, r, s.slots[r].(row := s.slots[r].row.(visibility := v)), s.log);
        }
    }
  }

  lemma ClaimKeepsLocks(s: State, r: nat)
    requires Locked(s)
    ensures Locked(Step(s, Claim(r)))
  {
    var after := Step(s, Claim(r));
    forall w | 0 <= w < |s.attempts| ensures after.attempts[w] == s.attempts[w] {
    }
  }

  lemma NoveltyKeepsLocks(s: State, w: nat, stored: bool)
    requires Locked(s)
    ensures Locked(Step(s, StoreNovelty(w, stored)))
  {
  }

  lemma SettleKeepsLocks(s: State, w: nat)
    requires Locked(s)
    ensures forall reported :: Locked(Step(s, Settle(w, reported)))
  {
    hide SettledJob;
  }

  lemma StepKeepsChecks(s: State, a: Action)
    requires Locked(s) && RowsChecked(s)
    ensures RowsChecked(Step(s, a))
  {
    hide CommitEvents, AfterError, AfterRefusal, AfterNotLive, AfterCommit, NextTx, SettledJob, Spawns;
  }

  /** Whatever happens next, a complete or deleted row stays as it is: status,
      narrative, verifier record and usage. */
  lemma StepKeepsTerminalRows(s: State, a: Action, r: nat)
    requires Locked(s) && RowsChecked(s) && r < |s.slots| && !IsLive(s.slots[r].row)
    ensures r < |Step(s, a).slots|
    ensures Step(s, a).slots[r].row.(visibility := s.slots[r].row.visibility) == s.slots[r].row
  {
    hide CommitEvents, Child, AfterError, AfterRefusal, AfterNotLive, AfterCommit;
  }

  // ── The program of an attempt, written out ──────────────────────────────

  /** Where one step can take an attempt: on to the next stage, past a row that
      is complete or deleted, through the two reports of a failure, or to its
      end. A completed synthesis is never reported as failed. */
  predicate MayMove(from: Phase, to: Phase) {
    || to == from
    || (to == Ended(Lost) && from != Settled)
    || match from
       case Start => to in {Staging, FailingMark, Ended(Done), Ended(Stopped)}
       case Staging => to in {Judged(Accept), Judged(Reject), FailingUsage, Ended(Stopped)}
       case Judged(Accept) => to in {OutcomeStored, FailingUsage, Ended(Stopped)}
       case Judged(Reject) => to in {Ended(Done), FailingUsage, Ended(Stopped)}
       case OutcomeStored => to in {Planned, FailingUsage, Ended(Stopped)}
       case Planned => to in {Embedded, FailingUsage, Ended(Stopped)}
       case Embedded => to in {Scoring, FailingUsage, Ended(Stopped)}
       case Scoring => to == Ended(Done)
       case FailingUsage => to in {FailingMark, Ended(Stopped)}
       case FailingMark => to == Ended(Errored)
       case Ended(_) => to == Settled
       case Settled => false
  }

  lemma PhasesMove(s: State, a: Action, w: nat)
    requires Locked(s) && w < |s.attempts| && InPhase(s.attempts[w])
    ensures w < |Step(s, a).attempts| && MayMove(s.attempts[w].phase, Step(s, a).attempts[w].phase)
  {
    hide ApplyCommit, Release, OpenTx, SetStatus, SettledJob, MayMove, AfterError, AfterRefusal, AfterCommit, Locked, InPhase;
    var phase := s.attempts[w].phase;
    FailuresMove(phase);
    match a {
      case Open(v, verdict) =>
        if Idle(s, v) {
          OpeningMoves(s, v, verdict, w);
        }
      case CommitTx(v, c) =>
        if HasOpen(s, v) {
          CommitKeepsAttempts(s, v, c);
          CommittingMoves(s.attempts[w]);
        }
      case CommitUnreported(v, c) =>
        if HasOpen(s, v) {
          CommitKeepsAttempts(s, v, c);
        }
      case CommitRefusedEdge(v) =>
        if HasOpen(s, v) {
          ReleaseSetsPhase(s, v, AfterError(s.attempts[v].phase));
        }
      case Abort(v) =>
        if v < |s.attempts| {
          ReleaseSetsPhase(s, v, AfterError(s.attempts[v].phase));
        }
      case Refuse(v) =>
        if v < |s.attempts| {
          ReleaseSetsPhase(s, v, AfterRefusal(s.attempts[v].phase));
        }
      case Crash(v) =>
        if v < |s.attempts| {
          ReleaseSetsPhase(s, v, Ended(Lost));
        }
      case _ =>
    }
  }

  lemma FailuresMove(phase: Phase)
    ensures MayMove(phase, phase) && MayMove(phase, AfterError(phase)) && MayMove(phase, AfterRefusal(phase))
    ensures phase != Settled ==> MayMove(phase, Ended(Lost))
    ensures phase.Ended? ==> MayMove(phase, Settled)
    ensures phase == Scoring ==> MayMove(phase, Ended(Done))
  {
  }

  lemma CommittingMoves(a: Attempt)
    requires InPhase(a)
    ensures a.open.Some? ==> MayMove(a.phase, AfterCommit(a.open.value))
  {
  }

  lemma OpeningMoves(s: State, v: nat, verdict: Verdict, w: nat)
    requires Idle(s, v) && w < |s.attempts|
    ensures var t := OpenTx(s, v, verdict);
      && |t.attempts| == |s.attempts| && MayMove(s.attempts[w].phase, t.attempts[w].phase)
  {
  }

  lemma CommitKeepsAttempts(s: State, v: nat, c: Commit)
    requires HasOpen(s, v)
    ensures ApplyCommit(s, v, c).attempts == s.attempts
  {
    hide CommitEvents, CommittedRow, Child, Spawns;
  }

  lemma ReleaseSetsPhase(s: State, v: nat, phase: Phase)
    requires v < |s.attempts|
    ensures Release(s, v, phase).attempts == s.attempts[v := s.attempts[v].(phase := phase, open := None)]
  {
  }

  /** Which of those moves a commit, a failure and a refusal make. */
  lemma MovesAre(s: State, w: nat, c: Commit)
    requires w < |s.attempts|
    ensures HasOpen(s, w) ==>
      Step(s, CommitTx(w, c)).attempts[w].phase ==
        match s.attempts[w].open.value
        case MarkRunning => Staging
        case RecordUsage(v) => Judged(v)
        case StoreOutcome => OutcomeStored
        case PlanEdges => Planned
        case StoreEmbedding => Embedded
        case Finish => Scoring
        case RejectAndRefine => Ended(Done)
        case RecordFailedUsage => FailingMark
        case MarkFailed => Ended(Errored)
    ensures Step(s, Abort(w)).attempts[w].phase ==
      match s.attempts[w].phase
      case Start => FailingMark
      case FailingUsage => FailingMark
      case FailingMark => Ended(Errored)
      case Scoring => Ended(Done)
      case Ended(e) => Ended(e)
      case Settled => Settled
      case _ => FailingUsage
    ensures Step(s, Refuse(w)).attempts[w].phase ==
      match s.attempts[w].phase
      case FailingUsage => FailingMark
      case FailingMark => Ended(Errored)
      case Scoring => Ended(Done)
      case Ended(e) => Ended(e)
      case Settled => Settled
      case _ => Ended(Stopped)
  {
    hide CommitEvents, CommittedRow, Child, Spawns;
  }

  /** A row found complete ends a new attempt well, any other one and a deleted
      row stop it, and a failure cannot be marked on either. */
  lemma NotLiveMeans(s: State, w: nat, verdict: Verdict)
    requires Idle(s, w) && NextTx(s.attempts[w].phase, verdict).Some?
    requires s.slots[s.attempts[w].target].holder.None? && s.slots[s.attempts[w].target].row.status in {Complete, Deleted}
    ensures var t, phase := Step(s, Open(w, verdict)), s.attempts[w].phase;
      && t.slots == s.slots && t.log == s.log
      && t.attempts[w].phase ==
           if phase == FailingMark then Ended(Errored)
           else if phase == Start && s.slots[s.attempts[w].target].row.status == Complete then Ended(Done)
           else Ended(Stopped)
  {
  }

  /** What each transaction commits: to the row, and to the log. */
  lemma CommitMeans(s: State, w: nat, c: Commit)
    requires HasOpen(s, w) && !s.attempts[w].open.value.RejectAndRefine?
    ensures var t, r, tx := ApplyCommit(s, w, c), s.attempts[w].target, s.attempts[w].open.value;
      var row, new' := s.slots[r].row, t.slots[r].row;
      && |t.slots| == |s.slots| && (forall k :: 0 <= k < |s.slots| && k != r ==> t.slots[k] == s.slots[k])
      && t.slots[r] == s.slots[r].(row := new', holder := None)
      && match tx
         case MarkRunning => new' == row.(status := Running) && t.log == s.log + [MarkedRunning(r)]
         case RecordUsage(_) => new' == row.(usage := Some(c.usage.(calls := CutCalls(c.usage.calls)))) && t.log == s.log + [UsageRecorded(r)]
         case RecordFailedUsage => new' == row.(usage := Some(c.usage.(calls := CutCalls(c.usage.calls)))) && t.log == s.log + [UsageRecorded(r)]
         case StoreOutcome => new' == row.(verifierAttempts := row.verifierAttempts + 1) && t.log == s.log + [OutcomeRecorded(r)]
         case PlanEdges => new' == row && t.log == s.log + [EdgesPlanned(r)]
         case StoreEmbedding => new' == row && t.log == s.log + [EmbeddingRecorded(r)]
         case Finish =>
           && new' == row.(status := Complete, narrative := Some(c.narrative))
           && t.log == s.log + [EdgesWritten(r)] + (if c.announce then [CompleteAnnounced(r)] else []) + [Completed(r)]
         case MarkFailed => new' == row.(status := Failed, failureReason := Some(c.reason)) && t.log == s.log + [MarkedFailed(r)]
  {
  }

  /** The column is a signed 32-bit integer. */
  function CutCalls(calls: nat): nat {
    if calls <= 0x7FFF_FFFF then calls else 0x7FFF_FFFF
  }

  /** Settling: an attempt that ended well completes its job, one that stopped
      fails it, one that erred is queued again while attempts are left. */
  lemma SettleMeans(s: State, w: nat, reported: bool)
    requires Idle(s, w) && s.attempts[w].phase.Ended? && s.slots[s.attempts[w].target].job.state == InProgress
    ensures var job, after := s.slots[s.attempts[w].target].job, Step(s, Settle(w, reported)).slots[s.attempts[w].target].job;
      && after == job.(state := after.state)
      && match s.attempts[w].phase.ending
         case Done => after.state == JobComplete
         case Stopped => after.state == JobFailed
         case Errored => after.state == if job.attempts < s.maxAttempts then Queued else JobFailed
         case Lost => after.state == InProgress
  {
  }

  // ── The log ─────────────────────────────────────────────────────────────

  predicate IsTerminal(e: Event) {
    e.UserDeleted? || e.Completed?
  }

  /** What may still be committed for a synthesis after it was completed: the
      reconciliation of its outbox, its novelty, and what an overlapping
      attempt stages. After it was deleted: repeated deletions and what an
      attempt under way stages, nothing else. */
  predicate MayFollow(terminal: Event, e: Event) {
    if terminal.Completed? then e.EdgesWritten? || e.NoveltyStored? || e.StageWritten?
    else e.UserDeleted? || e.StageWritten?
  }

  ghost predicate QuietAfterTerminal(log: seq<Event>) {
    forall i, j :: 0 <= i < j < |log| && IsTerminal(log[i]) && log[i].of == log[j].of ==> MayFollow(log[i], log[j])
  }

  /** The log tells what the rows are. */
  ghost predicate LogMatchesRows(s: State) {
    && (forall e :: e in s.log ==> e.of < |s.slots|)
    && forall r: nat :: r < |s.slots| ==>
      && (UserDeleted(r) in s.log <==> s.slots[r].row.status == Deleted)
      && (Completed(r) in s.log <==> s.slots[r].row.status == Complete)
  }

  ghost predicate LogSound(s: State) {
    QuietAfterTerminal(s.log) && LogMatchesRows(s)
  }

  lemma CommitEventsShape(tx: Tx, c: Commit, r: nat, spawns: bool, child: nat)
    ensures var es := CommitEvents(tx, c, r, spawns, child);
            && es != []
            && (forall k :: 0 <= k < |es| ==> es[k].of == r && !es[k].UserDeleted? && (k < |es| - 1 ==> !es[k].Completed?))
            && (es[|es| - 1].Completed? <==> tx.Finish?)
  {
  }

  lemma QuietAppend(log: seq<Event>, es: seq<Event>, r: nat)
    requires QuietAfterTerminal(log)
    requires UserDeleted(r) !in log && Completed(r) !in log
    requires forall k :: 0 <= k < |es| ==> es[k].of == r && !es[k].UserDeleted? && (k < |es| - 1 ==> !es[k].Completed?)
    ensures QuietAfterTerminal(log + es)
  {
    forall m | 0 <= m < |log| && IsTerminal(log[m]) ensures log[m].of != r {
      var e := log[m];
      assert e in log;
    }
  }

  lemma CommitKeepsLog(s: State, w: nat, c: Commit, phase: Phase)
    requires Locked(s) && LogSound(s) && HasOpen(s, w)
    ensures LogSound(SetAttempt(ApplyCommit(s, w, c), w, phase, None))
  {
    hide CommitEvents, Spawns, QuietAfterTerminal, Child;
    var r, tx := s.attempts[w].target, s.attempts[w].open.value;
    var spawns := tx.RejectAndRefine? && Spawns(s.slots[r]);
    var es := CommitEvents(tx, c, r, spawns, |s.slots|);
    var after := SetAttempt(ApplyCommit(s, w, c), w, phase, None);
    CommitEventsShape(tx, c, r, spawns, |s.slots|);
    QuietAppend(s.log, es, r);
    assert after.log == s.log + es;
    ChildIsPending(s.slots[r], r);
    forall k: nat | k < |after.slots|
      ensures UserDeleted(k) in after.log <==> after.slots[k].row.status == Deleted
      ensures Completed(k) in after.log <==> after.slots[k].row.status == Complete
    {
      assert UserDeleted(k) !in es;
      if k == r {
        assert es[|es| - 1] in es;
      } else {
        assert Completed(k) !in es;
        if k == |s.slots| {
          assert UserDeleted(k) !in s.log && Completed(k) !in s.log;
        } else {
          assert after.slots[k] == s.slots[k];
        }
      }
    }
  }

  lemma ChildIsPending(parent: Slot, at: nat)
    ensures Child(parent, at).row.status == Pending
  {
  }

  /** A step that adds no terminal event and changes no status. */
  lemma SameStatusesKeepLog(s: State, t: State)
    requires LogSound(s)
    requires t.log == s.log && |t.slots| == |s.slots|
    requires forall k :: 0 <= k < |s.slots| ==> t.slots[k].row.status == s.slots[k].row.status
    ensures LogSound(t)
  {
  }

  lemma StepKeepsLog(s: State, a: Action)
    requires Locked(s) && LogSound(s) && RowsChecked(s) && AfterCompletion(s)
    ensures LogSound(Step(s, a))
  {
    hide ApplyCommit, LogSound, AfterError, AfterRefusal, AfterNotLive, AfterCommit, SetStatus, SettledJob, NextTx;
    hide AfterCompletion;
    match a {
      case CommitTx(w, c) =>
        if HasOpen(s, w) {
          CommitKeepsLog(s, w, c, AfterCommit(s.attempts[w].open.value));
        }
      case CommitUnreported(w, c) =>
        if HasOpen(s, w) {
          CommitKeepsLog(s, w, c, AfterError(s.attempts[w].phase));
        }
      case CommitRefusedEdge(w) => RefusedEdgeKeepsLog(s, w);
      case Delete(r) => DeleteKeepsLog(s, r);
      case Create(_, _, _) => CreateKeepsLog(s, a);
      case StageWrite(w) => StageWriteKeepsLog(s, w);
      case StoreNovelty(w, stored) => NoveltyKeepsLog(s, w, stored);
      case Reconcile(i) => ReconcileKeepsLog(s, i);
      case _ => SameStatusesKeepLog(s, Step(s, a));
    }
  }

  lemma RefusedEdgeKeepsLog(s: State, w: nat)
    requires Locked(s) && LogSound(s)
    ensures LogSound(Step(s, CommitRefusedEdge(w)))
  {
    hide AfterError, QuietAfterTerminal;
    if HasOpen(s, w) && s.attempts[w].open == Some(Finish) {
      QuietAppend(s.log, [EdgesWritten(s.attempts[w].target)], s.attempts[w].target);
    }
  }

  /** One more event that is not terminal and may follow what is there. */
  lemma AllowedAppend(s: State, e: Event)
    requires LogSound(s) && !IsTerminal(e) && e.of < |s.slots|
    requires s.slots[e.of].row.status == Complete || e.StageWritten?
    requires s.slots[e.of].row.status == Complete ==> e.EdgesWritten? || e.NoveltyStored? || e.StageWritten?
    ensures LogSound(s.(log := s.log + [e]))
  {
    var log := s.log + [e];
    forall i, j | 0 <= i < j < |log| && IsTerminal(log[i]) && log[i].of == log[j].of ensures MayFollow(log[i], log[j]) {
      assert log[i] in s.log;
    }
  }

  lemma StageWriteKeepsLog(s: State, w: nat)
    requires LogSound(s)
    ensures LogSound(Step(s, StageWrite(w)))
  {
    hide LogSound;
    if Idle(s, w) && s.attempts[w].phase == Staging {
      AllowedAppend(s, StageWritten(s.attempts[w].target));
    }
  }

  lemma NoveltyKeepsLog(s: State, w: nat, stored: bool)
    requires LogSound(s) && AfterCompletion(s)
    ensures LogSound(Step(s, StoreNovelty(w, stored)))
  {
    hide LogSound;
    if Idle(s, w) && s.attempts[w].phase == Scoring {
      var t := SetAttempt(s, w, Ended(Done), None);
      SameStatusesKeepLog(s, t);
      if stored {
        AllowedAppend(t, NoveltyStored(s.attempts[w].target));
      } else {
        assert s.log + [] == t.log;
      }
    }
  }

  lemma ReconcileKeepsLog(s: State, i: nat)
    requires LogSound(s) && AfterCompletion(s)
    ensures LogSound(Step(s, Reconcile(i)))
  {
    hide LogSound;
    if i < |s.offered| {
      AllowedAppend(s, EdgesWritten(s.offered[i]));
    }
  }

  lemma DeletedStays(row: Row)
    ensures Checked(row) && row.status != Complete ==> SetStatus(row, Deleted) == row.(status := Deleted)
  {
  }

  lemma DeleteKeepsLog(s: State, r: nat)
    requires LogSound(s) && RowsChecked(s)
    ensures LogSound(Step(s, Delete(r)))
  {
    hide SetStatus, Checked;
    if r < |s.slots| && s.slots[r].holder.None? && s.slots[r].row.status != Complete {
      DeletedStays(s.slots[r].row);
      var log := s.log + [UserDeleted(r)];
      forall i, j | 0 <= i < j < |log| && IsTerminal(log[i]) && log[i].of == log[j].of
        ensures MayFollow(log[i], log[j])
      {
        assert log[i] in s.log;
      }
      assert log[|s.log|] in log;
    }
  }

  lemma CreateKeepsLog(s: State, a: Action)
    requires LogSound(s) && a.Create?
    ensures LogSound(Step(s, a))
  {
    hide QuietAfterTerminal;
    var t := Step(s, a);
    forall k: nat | k < |t.slots|
      ensures UserDeleted(k) in t.log <==> t.slots[k].row.status == Deleted
      ensures Completed(k) in t.log <==> t.slots[k].row.status == Complete
    {
      if k == |s.slots| {
        assert UserDeleted(k) !in s.log && Completed(k) !in s.log;
      }
    }
  }

  // ── What comes after completion ─────────────────────────────────────────

  /** What the worklist offered and what is being scored is complete. */
  ghost predicate AfterCompletion(s: State) {
    && (forall i :: 0 <= i < |s.offered| ==> s.offered[i] < |s.slots| && s.slots[s.offered[i]].row.status == Complete)
    && forall w :: 0 <= w < |s.attempts| && s.attempts[w].phase == Scoring ==>
      s.attempts[w].target < |s.slots| && s.slots[s.attempts[w].target].row.status == Complete
  }

  /** Complete rows stay complete. */
  ghost predicate CompleteStays(s: State, t: State) {
    |s.slots| <= |t.slots|
    && forall r :: 0 <= r < |s.slots| && s.slots[r].row.status == Complete ==> t.slots[r].row.status == Complete
  }

  lemma StepKeepsComplete(s: State, a: Action)
    requires Locked(s) && RowsChecked(s)
    ensures CompleteStays(s, Step(s, a))
  {
    hide Step, Locked, RowsChecked;
    StepGrows(s, a);
    forall r: nat | r < |s.slots| && s.slots[r].row.status == Complete ensures Step(s, a).slots[r].row.status == Complete {
      StepKeepsTerminalRows(s, a, r);
    }
  }

  lemma StepGrows(s: State, a: Action)
    ensures |s.slots| <= |Step(s, a).slots|
  {
    hide CommitEvents, CommittedRow, Child, Spawns, AfterError, AfterRefusal, AfterNotLive, AfterCommit, NextTx;
  }

  /** An attempt starts scoring only by completing its synthesis, and an item
      is offered only while complete. */
  lemma StepAfterCompletion(s: State, a: Action)
    requires Locked(s) && RowsChecked(s) && AfterCompletion(s)
    ensures AfterCompletion(Step(s, a))
  {
    hide Locked, RowsChecked, Step, AfterCompletion;
    StepKeepsComplete(s, a);
    OffersAreComplete(s, a);
    ScoringIsNew(s, a);
    StillComplete(s, Step(s, a));
  }

  lemma OffersAreComplete(s: State, a: Action)
    ensures forall i :: 0 <= i < |Step(s, a).offered| ==>
      (i < |s.offered| && Step(s, a).offered[i] == s.offered[i])
      || (Step(s, a).offered[i] < |s.slots| && s.slots[Step(s, a).offered[i]].row.status == Complete)
  {
    hide CommitEvents, CommittedRow, Child, Spawns, AfterError, AfterRefusal, AfterNotLive, AfterCommit, NextTx;
  }

  lemma OnlyFinishingScores(tx: Tx, phase: Phase, seen: RowLiveness)
    ensures AfterCommit(tx) == Scoring ==> tx == Finish
    ensures AfterError(phase) != Scoring && AfterRefusal(phase) != Scoring && AfterNotLive(phase, seen) != Scoring
  {
  }

  ghost predicate NewlyScored(s: State, t: State) {
    forall w :: 0 <= w < |t.attempts| && t.attempts[w].phase == Scoring ==>
      var b := t.attempts[w];
      (w < |s.attempts| && s.attempts[w].phase == Scoring && s.attempts[w].target == b.target)
      || (b.target < |t.slots| && t.slots[b.target].row.status == Complete)
  }

  lemma CommitScores(s: State, w: nat, c: Commit, phase: Phase)
    requires HasOpen(s, w) && (phase == Scoring ==> s.attempts[w].open == Some(Finish))
    ensures NewlyScored(s, SetAttempt(ApplyCommit(s, w, c), w, phase, None))
  {
    hide CommitEvents, Child, Spawns;
    var t := SetAttempt(ApplyCommit(s, w, c), w, phase, None);
    assert t.slots[s.attempts[w].target].row == CommittedRow(s.slots[s.attempts[w].target].row, s.attempts[w].open.value, c);
  }

  lemma ReleaseScoresNothing(s: State, w: nat, phase: Phase, log: seq<Event>)
    requires w < |s.attempts| && phase != Scoring
    ensures NewlyScored(s, Release(s, w, phase).(log := log))
  {
  }

  lemma OpenScoresNothing(s: State, w: nat, verdict: Verdict)
    requires Idle(s, w)
    ensures NewlyScored(s, OpenTx(s, w, verdict))
  {
    hide NextTx, AfterNotLive, IsLive, LivenessOf;
    OnlyFinishingScores(MarkRunning, s.attempts[w].phase, LivenessOf(s.slots[s.attempts[w].target].row.status));
  }

  lemma ScoringIsNew(s: State, a: Action)
    requires Locked(s)
    ensures NewlyScored(s, Step(s, a))
  {
    hide ApplyCommit, Release, OpenTx, AfterError, AfterRefusal, AfterCommit, SetStatus, SettledJob, Locked;
    match a {
      case Open(w, verdict) =>
        if Idle(s, w) {
          OpenScoresNothing(s, w, verdict);
        }
      case CommitTx(w, c) =>
        if HasOpen(s, w) {
          OnlyFinishingScores(s.attempts[w].open.value, Start, Live);
          CommitScores(s, w, c, AfterCommit(s.attempts[w].open.value));
        }
      case CommitUnreported(w, c) =>
        if HasOpen(s, w) {
          OnlyFinishingScores(MarkRunning, s.attempts[w].phase, Live);
          CommitScores(s, w, c, AfterError(s.attempts[w].phase));
        }
      case CommitRefusedEdge(w) =>
        if HasOpen(s, w) {
          OnlyFinishingScores(MarkRunning, s.attempts[w].phase, Live);
          ReleaseScoresNothing(s, w, AfterError(s.attempts[w].phase), s.log + [EdgesWritten(s.attempts[w].target)]);
        }
      case Abort(w) =>
        if w < |s.attempts| {
          OnlyFinishingScores(MarkRunning, s.attempts[w].phase, Live);
          ReleaseScoresNothing(s, w, AfterError(s.attempts[w].phase), s.log);
          LogOfRelease(s, w, AfterError(s.attempts[w].phase));
        }
      case Refuse(w) =>
        if w < |s.attempts| {
          OnlyFinishingScores(MarkRunning, s.attempts[w].phase, Live);
          ReleaseScoresNothing(s, w, AfterRefusal(s.attempts[w].phase), s.log);
          LogOfRelease(s, w, AfterRefusal(s.attempts[w].phase));
        }
      case Crash(w) =>
        if w < |s.attempts| {
          ReleaseScoresNothing(s, w, Ended(Lost), s.log);
          LogOfRelease(s, w, Ended(Lost));
        }
      case _ =>
    }
  }

  lemma LogOfRelease(s: State, w: nat, phase: Phase)
    requires w < |s.attempts|
    ensures Release(s, w, phase).(log := s.log) == Release(s, w, phase)
  {
  }

  lemma StillComplete(s: State, t: State)
    requires AfterCompletion(s) && CompleteStays(s, t)
    requires forall i :: 0 <= i < |t.offered| ==>
      (i < |s.offered| && t.offered[i] == s.offered[i])
      || (t.offered[i] < |s.slots| && s.slots[t.offered[i]].row.status == Complete)
    requires NewlyScored(s, t)
    ensures AfterCompletion(t)
  {
  }

  // ── Completion is earned ────────────────────────────────────────────────

  /** An open transaction is the one its attempt's phase makes next. */
  predicate InPhase(a: Attempt) {
    a.open.Some? ==> a.open == NextTx(a.phase, Accept) || a.open == NextTx(a.phase, Reject)
  }

  /** What an attempt's phase says it has committed. */
  predicate Earned(a: Attempt, log: seq<Event>) {
    && (a.phase in {OutcomeStored, Planned, Embedded} ==> OutcomeRecorded(a.target) in log)
    && (a.phase in {Planned, Embedded} ==> EdgesPlanned(a.target) in log)
    && (a.phase == Embedded ==> EmbeddingRecorded(a.target) in log)
  }

  ghost predicate CompletionEarned(s: State) {
    && (forall w :: 0 <= w < |s.attempts| ==> InPhase(s.attempts[w]) && Earned(s.attempts[w], s.log))
    && forall e :: e in s.log && e.Completed? ==>
      && OutcomeRecorded(e.of) in s.log && EdgesPlanned(e.of) in s.log
      && EmbeddingRecorded(e.of) in s.log && EdgesWritten(e.of) in s.log
  }

  lemma CommitKeepsEarned(s: State, w: nat, c: Commit, reported: bool)
    requires CompletionEarned(s) && HasOpen(s, w)
    ensures var phase := if reported then AfterCommit(s.attempts[w].open.value) else AfterError(s.attempts[w].phase);
            CompletionEarned(SetAttempt(ApplyCommit(s, w, c), w, phase, None))
  {
    hide Spawns, Child, CommittedRow;
    var a, tx := s.attempts[w], s.attempts[w].open.value;
    var phase := if reported then AfterCommit(tx) else AfterError(a.phase);
    var t := SetAttempt(ApplyCommit(s, w, c), w, phase, None);
    var es := CommitEvents(tx, c, a.target, tx.RejectAndRefine? && Spawns(s.slots[a.target]), |s.slots|);
    assert t.log == s.log + es;
    assert es[0] in es;
    assert Earned(t.attempts[w], t.log);
    forall e | e in t.log && e.Completed?
      ensures OutcomeRecorded(e.of) in t.log && EdgesPlanned(e.of) in t.log
      ensures EmbeddingRecorded(e.of) in t.log && EdgesWritten(e.of) in t.log
    {
      assert e in s.log || e in es;
    }
  }

  /** A step that completes nothing, and moves attempts only to phases they
      have earned. */
  lemma NothingCompletedKeepsEarned(s: State, t: State, extra: seq<Event>)
    requires CompletionEarned(s) && t.log == s.log + extra
    requires forall k :: 0 <= k < |extra| ==> !extra[k].Completed?
    requires forall w :: 0 <= w < |t.attempts| ==> InPhase(t.attempts[w]) && Earned(t.attempts[w], s.log)
    ensures CompletionEarned(t)
  {
    forall e | e in t.log && e.Completed? ensures e in s.log {
    }
  }

  lemma StepKeepsEarned(s: State, a: Action)
    requires Locked(s) && CompletionEarned(s)
    ensures CompletionEarned(Step(s, a))
  {
    hide ApplyCommit, SetStatus, SettledJob, LivenessOf, OpenTx, Release, InPhase, Earned, AfterCommit, AfterError;
    match a {
      case CommitTx(w, c) =>
        if HasOpen(s, w) {
          CommitKeepsEarned(s, w, c, true);
        }
      case CommitUnreported(w, c) =>
        if HasOpen(s, w) {
          CommitKeepsEarned(s, w, c, false);
        }
      case Open(w, verdict) =>
        if Idle(s, w) {
          OpenKeepsEarned(s, w, verdict);
        }
      case _ => OtherStepsKeepEarned(s, a);
    }
  }

  /** An attempt as it was, or past every stage that earns something. */
  predicate EarnsNothing(a: Attempt, b: Attempt) {
    b == a || (b.open.None? && b.phase !in {OutcomeStored, Planned, Embedded})
  }

  lemma FailuresEarnNothing(a: Attempt)
    ensures AfterError(a.phase) !in {OutcomeStored, Planned, Embedded} && AfterRefusal(a.phase) !in {OutcomeStored, Planned, Embedded}
  {
  }

  lemma OtherStepsEarnNothing(s: State, a: Action, w: nat)
    requires w < |s.attempts| && !a.CommitTx? && !a.CommitUnreported? && !a.Open?
    ensures w < |Step(s, a).attempts| && EarnsNothing(s.attempts[w], Step(s, a).attempts[w])
  {
    hide ApplyCommit, Release, OpenTx, SetStatus, SettledJob, AfterError, AfterRefusal;
    FailuresEarnNothing(s.attempts[w]);
    match a {
      case CommitRefusedEdge(v) =>
        if HasOpen(s, v) {
          ReleaseSetsPhase(s, v, AfterError(s.attempts[v].phase));
        }
      case Abort(v) =>
        if v < |s.attempts| {
          ReleaseSetsPhase(s, v, AfterError(s.attempts[v].phase));
        }
      case Refuse(v) =>
        if v < |s.attempts| {
          ReleaseSetsPhase(s, v, AfterRefusal(s.attempts[v].phase));
        }
      case Crash(v) =>
        if v < |s.attempts| {
          ReleaseSetsPhase(s, v, Ended(Lost));
        }
      case _ =>
    }
  }

  /** What such a step adds to the log, and that a new attempt is at its start. */
  lemma OtherStepsLog(s: State, a: Action)
    requires Locked(s) && !a.CommitTx? && !a.CommitUnreported? && !a.Open?
    ensures var t := Step(s, a);
      && s.log <= t.log && (forall k :: |s.log| <= k < |t.log| ==> !t.log[k].Completed?)
      && forall w :: |s.attempts| <= w < |t.attempts| ==> t.attempts[w].open.None? && t.attempts[w].phase == Start
  {
    hide ApplyCommit, SetStatus, SettledJob, LivenessOf, OpenTx, AfterError, AfterRefusal;
  }

  lemma OtherStepsKeepEarned(s: State, a: Action)
    requires Locked(s) && CompletionEarned(s) && !a.CommitTx? && !a.CommitUnreported? && !a.Open?
    ensures CompletionEarned(Step(s, a))
  {
    hide Step;
    var t := Step(s, a);
    OtherStepsLog(s, a);
    var extra := t.log[|s.log|..];
    assert t.log == s.log + extra;
    forall w: nat | w < |t.attempts| ensures InPhase(t.attempts[w]) && Earned(t.attempts[w], s.log) {
      if w < |s.attempts| {
        assert InPhase(s.attempts[w]) && Earned(s.attempts[w], s.log);
        OtherStepsEarnNothing(s, a, w);
      }
    }
    NothingCompletedKeepsEarned(s, t, extra);
  }

  lemma OpenKeepsEarned(s: State, w: nat, verdict: Verdict)
    requires CompletionEarned(s) && Idle(s, w)
    ensures CompletionEarned(OpenTx(s, w, verdict))
  {
    var t := OpenTx(s, w, verdict);
    assert verdict == Accept || verdict == Reject;
    assert InPhase(s.attempts[w]) && Earned(s.attempts[w], s.log);
  }

  // ── Runs ────────────────────────────────────────────────────────────────

  ghost predicate Safe(s: State) {
    Locked(s) && RowsChecked(s) && LogSound(s) && AfterCompletion(s) && CompletionEarned(s)
  }

  function Fresh(maxAttempts: nat): State {
    State([], [], [], maxAttempts, [])
  }

  /** Some run from the empty system ends here. */
  ghost predicate Reachable(s: State, maxAttempts: nat) {
    exists actions :: s == Run(Fresh(maxAttempts), actions)
  }

  lemma {:induction false} RunIsSafe(s: State, actions: seq<Action>)
    requires Safe(s)
    ensures Safe(Run(s, actions))
  {
    hide Step, Locked, RowsChecked, LogSound, AfterCompletion, CompletionEarned;
    if actions != [] {
      var n := |actions| - 1;
      var before := Run(s, actions[..n]);
      RunIsSafe(s, actions[..n]);
      StepKeepsLocks(before, actions[n]);
      StepKeepsChecks(before, actions[n]);
      StepKeepsLog(before, actions[n]);
      StepAfterCompletion(before, actions[n]);
      StepKeepsEarned(before, actions[n]);
    }
  }

  /** Lifecycle safety. In every interleaving of stage transactions, retries,
      lost workers, worklist passes and deletions: a row is complete exactly
      when it has a narrative; it is completed at most once, and only after its
      verifier outcome, outbox, embedding and edges. After its deletion
      committed, no verifier outcome, outbox row, embedding, edge, usage,
      event, status change or refinement child is committed for it, only
      repeated deletions and what an attempt under way still stages. After its
      completion only its outbox is reconciled, its novelty stored, and what an
      overlapping attempt stages. */
  lemma LifecycleSafety(s: State, maxAttempts: nat)
    requires Reachable(s, maxAttempts)
    ensures forall r :: 0 <= r < |s.slots| ==> Checked(s.slots[r].row)
    ensures forall r: nat :: r < |s.slots| ==> (Completed(r) in s.log <==> s.slots[r].row.status == Complete)
    ensures forall r: nat :: r < |s.slots| ==> (UserDeleted(r) in s.log <==> s.slots[r].row.status == Deleted)
    ensures QuietAfterTerminal(s.log)
    ensures forall e :: e in s.log && e.Completed? ==>
      && OutcomeRecorded(e.of) in s.log && EdgesPlanned(e.of) in s.log
      && EmbeddingRecorded(e.of) in s.log && EdgesWritten(e.of) in s.log
  {
    hide Run;
    var actions :| s == Run(Fresh(maxAttempts), actions);
    RunIsSafe(Fresh(maxAttempts), actions);
  }

  /** `complete` and `deleted` are absorbing over every continuation. */
  lemma {:induction false} TerminalRowsStay(s: State, actions: seq<Action>, r: nat)
    requires Safe(s) && r < |s.slots| && !IsLive(s.slots[r].row)
    ensures r < |Run(s, actions).slots|
    ensures Run(s, actions).slots[r].row.(visibility := s.slots[r].row.visibility) == s.slots[r].row
  {
    hide Step, Locked, RowsChecked, LogSound, AfterCompletion, CompletionEarned;
    if actions != [] {
      var n := |actions| - 1;
      TerminalRowsStay(s, actions[..n], r);
      RunIsSafe(s, actions[..n]);
      StepKeepsTerminalRows(Run(s, actions[..n]), actions[n], r);
    }
  }
}
