/** What a root synthesis can cause: the refinement tree below it, and the
    number of pipeline runs the whole tree can ever make
    (crates/episcience-api/src/jobs/synthesis_job.rs, jobs/worker.rs,
    migrations/5037). */
module RefinementChains {
  import opened Base
  import opened Refinement
  import opened SynthesisRows
  import opened Lifecycle

  // ── What no step changes ────────────────────────────────────────────────

  ghost predicate SameIdentity(a: Slot, b: Slot) {
    && a.row.recipe == b.row.recipe && a.row.temperature == b.row.temperature
    && a.job.payload == b.job.payload && a.job.principal == b.job.principal
    && a.parent == b.parent && a.root == b.root && a.depth == b.depth
  }

  /** A step adds at most one synthesis: a new root, or the child of one that
      is not at the ceiling. */
  ghost predicate AddsSoundly(s: State, t: State) {
    || |t.slots| == |s.slots|
    || (|t.slots| == |s.slots| + 1
        && var new' := t.slots[|s.slots|];
           || (new'.parent == None && new'.root == |s.slots| && new'.depth == 0 && new'.row.temperature == None
               && new'.job.payload == new'.row.recipe && new'.job.attempts == 0)
           || exists p: nat :: p < |s.slots| && Spawns(s.slots[p]) && new' == Child(s.slots[p], p))
  }

  ghost predicate KeepsIdentities(s: State, t: State) {
    && |s.slots| <= |t.slots| && |s.attempts| <= |t.attempts|
    && (forall r :: 0 <= r < |s.slots| ==> SameIdentity(s.slots[r], t.slots[r]))
    && (forall w :: 0 <= w < |s.attempts| ==>
          t.attempts[w].target == s.attempts[w].target
          && t.attempts[w].root == s.attempts[w].root && t.attempts[w].depth == s.attempts[w].depth)
    && t.maxAttempts == s.maxAttempts
  }

  lemma CommitIdentity(s: State, w: nat, c: Commit, phase: Phase)
    requires HasOpen(s, w)
    ensures var t := SetAttempt(ApplyCommit(s, w, c), w, phase, None);
            KeepsIdentities(s, t) && AddsSoundly(s, t)
  {
    hide CommitEvents, Spawns, Child;
    var r := s.attempts[w].target;
    var t := SetAttempt(ApplyCommit(s, w, c), w, phase, None);
    var committed := s.slots[r].(row := CommittedRow(s.slots[r].row, s.attempts[w].open.value, c), holder := None);
    assert t.slots[..|s.slots|] == s.slots[r := committed];
    forall k | 0 <= k < |s.slots| ensures SameIdentity(s.slots[k], t.slots[k]) {
      assert t.slots[k] == t.slots[..|s.slots|][k];
    }
    if |t.slots| > |s.slots| {
      assert t.slots[|s.slots|] == Child(s.slots[r], r);
    }
  }

  lemma ReleaseIdentity(s: State, w: nat, phase: Phase)
    requires Locked(s) && w < |s.attempts|
    ensures KeepsIdentities(s, Release(s, w, phase)) && |Release(s, w, phase).slots| == |s.slots|
  {
    hide Locked;
    TargetIsSlot(s, w);
  }

  lemma OpenIdentity(s: State, w: nat, verdict: Verdict)
    requires Idle(s, w)
    ensures KeepsIdentities(s, OpenTx(s, w, verdict)) && |OpenTx(s, w, verdict).slots| == |s.slots|
  {
    hide NextTx, AfterNotLive;
  }

  lemma CreateIdentity(s: State, a: Action)
    requires a.Create?
    ensures KeepsIdentities(s, Step(s, a)) && AddsSoundly(s, Step(s, a))
  {
    var t := Step(s, a);
    forall k | 0 <= k < |s.slots| ensures t.slots[k] == s.slots[k] {
    }
    assert t.slots[|s.slots|].parent == None;
  }

  lemma ClaimIdentity(s: State, r: nat)
    ensures KeepsIdentities(s, Step(s, Claim(r))) && |Step(s, Claim(r)).slots| == |s.slots|
  {
    var t := Step(s, Claim(r));
    forall k | 0 <= k < |s.attempts| ensures t.attempts[k] == s.attempts[k] {
    }
  }

  lemma SettleIdentity(s: State, w: nat, reported: bool)
    ensures KeepsIdentities(s, Step(s, Settle(w, reported))) && |Step(s, Settle(w, reported)).slots| == |s.slots|
  {
    hide Spawns;
  }

  /** The steps that change at most a status, a visibility, the log, the
      offers or a phase. */
  lemma PlainIdentity(s: State, a: Action)
    requires a.Delete? || a.SetVisibility? || a.StageWrite? || a.StoreNovelty? || a.Offer? || a.Reconcile?
    ensures KeepsIdentities(s, Step(s, a)) && |Step(s, a).slots| == |s.slots|
  {
    hide Spawns, IsLive;
  }

  lemma StepIdentity(s: State, a: Action)
    requires Locked(s)
    ensures KeepsIdentities(s, Step(s, a)) && AddsSoundly(s, Step(s, a))
  {
    hide ApplyCommit, Release, OpenTx, Spawns, Child, AfterError, AfterRefusal, AfterNotLive, AfterCommit, NextTx;
    hide KeepsIdentities, Locked;
    NothingChanged(s);
    match a {
      case Create(_, _, _) => CreateIdentity(s, a);
      case Claim(r) => ClaimIdentity(s, r);
      case Open(w, verdict) =>
        if Idle(s, w) {
          OpenIdentity(s, w, verdict);
        }
      case CommitRefusedEdge(w) =>
        if w < |s.attempts| {
          ReleaseIdentity(s, w, AfterError(s.attempts[w].phase));
          LogIsNoIdentity(s, Release(s, w, AfterError(s.attempts[w].phase)), s.log + [EdgesWritten(s.attempts[w].target)]);
        }
      case Abort(w) =>
        if w < |s.attempts| {
          ReleaseIdentity(s, w, AfterError(s.attempts[w].phase));
        }
      case Refuse(w) =>
        if w < |s.attempts| {
          ReleaseIdentity(s, w, AfterRefusal(s.attempts[w].phase));
        }
      case Crash(w) =>
        if w < |s.attempts| {
          ReleaseIdentity(s, w, Ended(Lost));
        }
      case CommitTx(w, c) =>
        if HasOpen(s, w) {
          CommitIdentity(s, w, c, AfterCommit(s.attempts[w].open.value));
        }
      case CommitUnreported(w, c) =>
        if HasOpen(s, w) {
          CommitIdentity(s, w, c, AfterError(s.attempts[w].phase));
        }
      case Settle(w, reported) => SettleIdentity(s, w, reported);
      case _ => PlainIdentity(s, a);
    }
  }

  lemma NothingChanged(s: State)
    ensures KeepsIdentities(s, s)
  {
  }

  lemma LogIsNoIdentity(s: State, t: State, log: seq<Event>)
    ensures KeepsIdentities(s, t) ==> KeepsIdentities(s, t.(log := log))
  {
  }

  // ── The refinement tree ─────────────────────────────────────────────────

  /** Where a synthesis stands: a root, or one refinement below its parent,
      with the parent's recipe, payload and principal, one anneal step on. */
  ghost predicate Grown(slots: seq<Slot>, r: nat)
    requires r < |slots|
  {
    var it := slots[r];
    && it.job.payload == it.row.recipe
    && TemperatureOf(it.row).depthDelta == it.depth <= MAX_DEPTH
    && match it.parent
       case None => it.root == r && it.depth == 0
       case Some(p) =>
         && p < r
         && it.root == slots[p].root && it.depth == slots[p].depth + 1
         && it.row.recipe == slots[p].row.recipe && it.job.principal == slots[p].job.principal
         && it.row.temperature == Some(Anneal(TemperatureOf(slots[p].row)))
  }

  ghost predicate Tree(s: State) {
    && (forall r :: 0 <= r < |s.slots| ==> Grown(s.slots, r))
    && forall w :: 0 <= w < |s.attempts| ==>
      && s.attempts[w].target < |s.slots|
      && s.attempts[w].root == s.slots[s.attempts[w].target].root
      && s.attempts[w].depth == s.slots[s.attempts[w].target].depth
  }

  lemma NewcomerGrown(s: State, t: State)
    requires Tree(s) && KeepsIdentities(s, t) && AddsSoundly(s, t) && |t.slots| > |s.slots|
    ensures Grown(t.slots, |s.slots|)
  {
    var new' := t.slots[|s.slots|];
    if new'.parent.Some? {
      var p: nat :| p < |s.slots| && Spawns(s.slots[p]) && new' == Child(s.slots[p], p);
      assert Grown(s.slots, p);
      assert SameIdentity(s.slots[p], t.slots[p]);
    }
  }

  lemma StepKeepsTree(s: State, a: Action)
    requires Locked(s) && Tree(s)
    ensures Tree(Step(s, a))
  {
    hide Step, Spawns, Child;
    var t := Step(s, a);
    StepIdentity(s, a);
    forall r: nat | r < |t.slots| ensures Grown(t.slots, r) {
      if r < |s.slots| {
        assert Grown(s.slots, r);
        assert SameIdentity(s.slots[r], t.slots[r]);
        if s.slots[r].parent.Some? {
          assert SameIdentity(s.slots[s.slots[r].parent.value], t.slots[s.slots[r].parent.value]);
        }
      } else {
        NewcomerGrown(s, t);
      }
    }
    NewAttemptFits(s, a);
  }

  lemma NewAttemptFits(s: State, a: Action)
    requires Locked(s) && Tree(s)
    ensures forall w :: 0 <= w < |Step(s, a).attempts| ==>
      var b := Step(s, a).attempts[w];
      b.target < |Step(s, a).slots| && b.root == Step(s, a).slots[b.target].root && b.depth == Step(s, a).slots[b.target].depth
  {
    hide Step, KeepsIdentities, SameIdentity, Tree, AddsSoundly;
    var t := Step(s, a);
    StepIdentity(s, a);
    OnlyAClaimAttempts(s, a);
    if |t.attempts| > |s.attempts| {
      ClaimOpensAttempt(s, a.r);
    }
    forall w: nat | w < |t.attempts|
      ensures t.attempts[w].target < |t.slots|
      ensures t.attempts[w].root == t.slots[t.attempts[w].target].root
      ensures t.attempts[w].depth == t.slots[t.attempts[w].target].depth
    {
      if w < |s.attempts| {
        StillFits(s, t, w);
      }
    }
  }

  lemma StillFits(s: State, t: State, w: nat)
    requires Tree(s) && KeepsIdentities(s, t) && w < |s.attempts|
    ensures |s.attempts| <= |t.attempts|
    ensures var b := t.attempts[w];
      b.target < |t.slots| && b.root == t.slots[b.target].root && b.depth == t.slots[b.target].depth
  {
    hide Grown;
    assert SameIdentity(s.slots[s.attempts[w].target], t.slots[s.attempts[w].target]);
  }

  lemma OnlyAClaimAttempts(s: State, a: Action)
    ensures |Step(s, a).attempts| > |s.attempts| ==>
      a.Claim? && a.r < |s.slots| && s.slots[a.r].job.state == Queued
    ensures |Step(s, a).attempts| >= |s.attempts|
  {
    hide CommitEvents, Spawns, Child, SettledJob, NextTx, SetStatus;
  }

  lemma ClaimOpensAttempt(s: State, r: nat)
    requires r < |s.slots| && s.slots[r].job.state == Queued
    ensures var t := Step(s, Claim(r));
      && |t.attempts| == |s.attempts| + 1
      && var b := t.attempts[|s.attempts|];
         b.target < |t.slots| && b.root == t.slots[b.target].root && b.depth == t.slots[b.target].depth
  {
  }

  /** Everything below a root is what the root is: same recipe (query, owner
      group, skill, page key, seed theme, prerequisites), same principal; at
      most three generations down. */
  lemma {:induction false} DescendantsAgreeWithRoot(s: State, r: nat)
    requires Tree(s) && r < |s.slots|
    ensures var it := s.slots[r];
      && it.root <= r && s.slots[it.root].parent == None
      && it.row.recipe == s.slots[it.root].row.recipe == it.job.payload
      && it.job.principal == s.slots[it.root].job.principal
      && it.depth <= MAX_DEPTH && TemperatureOf(it.row).depthDelta == it.depth
  {
    assert Grown(s.slots, r);
    if s.slots[r].parent.Some? {
      DescendantsAgreeWithRoot(s, s.slots[r].parent.value);
    } else {
      assert Grown(s.slots, s.slots[r].root);
    }
  }

  // ── How a child is born ─────────────────────────────────────────────────

  /** A child as its parent stands at that moment: it waits like a new
      synthesis, with the parent's recipe and visibility, one anneal step on,
      and a queued job of its own with the principal and payload of the
      parent's. */
  ghost predicate BornOf(child: Slot, parent: Slot, at: nat) {
    && child.row.status == Pending && child.row.narrative.None? && child.row.failureReason.None?
    && child.row.usage.None? && child.row.verifierAttempts == 0
    && child.row.visibility == parent.row.visibility && child.row.recipe == parent.row.recipe
    && child.row.temperature.Some? && OneStepOn(child.row.temperature.value, parent.row.temperature)
    && child.job.state == Queued && child.job.attempts == 0
    && child.job.principal == parent.job.principal && child.job.payload == parent.job.payload
    && child.parent == Some(at) && child.root == parent.root && child.depth == parent.depth + 1 && child.holder.None?
  }

  /** The commit of a rejection adds a child exactly below the ceiling and with
      a principal; no other row appears, and no other changes. */
  lemma RejectionBears(s: State, w: nat, c: Commit)
    requires HasOpen(s, w) && s.attempts[w].open == Some(RejectAndRefine)
    ensures var t, p := ApplyCommit(s, w, c), s.attempts[w].target;
      var parent := s.slots[p];
      && |t.slots| == (if TemperatureOf(parent.row).depthDelta < 3 && parent.job.principal.Some? then |s.slots| + 1 else |s.slots|)
      && (|t.slots| > |s.slots| ==> BornOf(t.slots[|s.slots|], parent, p))
      && (forall k :: 0 <= k < |s.slots| && k != p ==> t.slots[k] == s.slots[k])
      && t.slots[p].row == parent.row.(status := Rejected, verifierAttempts := parent.row.verifierAttempts + 1)
      && t.log == s.log + [OutcomeRecorded(p), RejectedRow(p)] + if |t.slots| > |s.slots| then [ChildInserted(p, |s.slots|)] else []
  {
    hide OneStepOn, Anneal;
    AnnealIsOneStep(s.slots[s.attempts[w].target].row.temperature);
  }

  /** In every run every child was born of its parent as the parent was then. */
  ghost predicate BornIn(actions: seq<Action>, m: nat, r: nat, k: nat) {
    && k < |actions|
    && var before, after := Run(Fresh(m), actions[..k]), Run(Fresh(m), actions[..k + 1]);
       && |before.slots| == r < |after.slots| && after.slots[r].parent.Some?
       && after.slots[r].parent.value < r && BornOf(after.slots[r], before.slots[after.slots[r].parent.value], after.slots[r].parent.value)
  }

  lemma StepBears(s: State, a: Action)
    requires Locked(s)
    ensures var t := Step(s, a);
      |t.slots| > |s.slots| && t.slots[|s.slots|].parent.Some? ==>
        && |t.slots| == |s.slots| + 1 && t.slots[|s.slots|].parent.value < |s.slots|
        && BornOf(t.slots[|s.slots|], s.slots[t.slots[|s.slots|].parent.value], t.slots[|s.slots|].parent.value)
  {
    hide Step, Locked, OneStepOn, Anneal, Spawns, KeepsIdentities;
    var t := Step(s, a);
    StepIdentity(s, a);
    if |t.slots| > |s.slots| && t.slots[|s.slots|].parent.Some? {
      var p: nat :| p < |s.slots| && Spawns(s.slots[p]) && t.slots[|s.slots|] == Child(s.slots[p], p);
      AnnealIsOneStep(s.slots[p].row.temperature);
    }
  }

  lemma {:induction false} EveryChildWasBorn(actions: seq<Action>, m: nat, r: nat)
    requires r < |Run(Fresh(m), actions).slots| && Run(Fresh(m), actions).slots[r].parent.Some?
    ensures exists k: nat :: BornIn(actions, m, r, k)
  {
    hide Step, Locked, BornOf, RowsChecked, LogSound, AfterCompletion, CompletionEarned;
    if actions != [] {
      var n := |actions| - 1;
      var before := Run(Fresh(m), actions[..n]);
      FreshIsSafe(m);
      RunIsSafe(Fresh(m), actions[..n]);
      StepIdentity(before, actions[n]);
      StepBears(before, actions[n]);
      assert actions[..n + 1] == actions;
      if r < |before.slots| {
        KeepsParent(before, Step(before, actions[n]), r);
        EveryChildWasBorn(actions[..n], m, r);
        var k: nat :| BornIn(actions[..n], m, r, k);
        assert actions[..n][..k] == actions[..k] && actions[..n][..k + 1] == actions[..k + 1];
        assert BornIn(actions, m, r, k);
      } else {
        assert BornIn(actions, m, r, n);
      }
    }
  }

  lemma KeepsParent(s: State, t: State, r: nat)
    requires KeepsIdentities(s, t) && r < |s.slots|
    ensures r < |t.slots| && t.slots[r].parent == s.slots[r].parent
  {
    assert SameIdentity(s.slots[r], t.slots[r]);
  }

  lemma FreshIsSafe(m: nat)
    ensures Safe(Fresh(m))
  {
  }

  // ── Counting pipeline runs ──────────────────────────────────────────────

  /** The runs one queued attempt at a depth can cause, itself included, when
      every job is attempted at most `max` times. */
  function RunsBelow(max: nat, depth: nat): nat
    decreases MAX_DEPTH - depth
  {
    if depth >= MAX_DEPTH then 1 else 1 + max * RunsBelow(max, depth + 1)
  }

  /** An attempt that may still commit a refinement child. */
  predicate MaySpawn(phase: Phase) {
    phase == Start || phase == Staging || phase == Judged(Reject)
  }

  function JobShare(slot: Slot, root: nat, max: nat): int {
    if slot.root == root then (max - slot.job.attempts) * RunsBelow(max, slot.depth) else 0
  }

  function AttemptShare(a: Attempt, root: nat, max: nat): int {
    if a.root != root then 0 else if MaySpawn(a.phase) then RunsBelow(max, a.depth) else 1
  }

  function JobShares(slots: seq<Slot>, root: nat, max: nat): int {
    if slots == [] then 0 else JobShares(slots[..|slots| - 1], root, max) + JobShare(slots[|slots| - 1], root, max)
  }

  function AttemptShares(attempts: seq<Attempt>, root: nat, max: nat): int {
    if attempts == [] then 0
    else AttemptShares(attempts[..|attempts| - 1], root, max) + AttemptShare(attempts[|attempts| - 1], root, max)
  }

  /** The pipeline runs the tree below `root` has made and can still make. */
  function Budget(s: State, root: nat): int {
    JobShares(s.slots, root, s.maxAttempts) + AttemptShares(s.attempts, root, s.maxAttempts)
  }

  /** The attempts made so far for the tree below `root`. */
  function RunsOf(attempts: seq<Attempt>, root: nat): nat {
    if attempts == [] then 0
    else RunsOf(attempts[..|attempts| - 1], root) + if attempts[|attempts| - 1].root == root then 1 else 0
  }

  lemma {:induction false} JobSharesUpdate(slots: seq<Slot>, r: nat, slot: Slot, root: nat, max: nat)
    requires r < |slots|
    ensures JobShares(slots[r := slot], root, max)
         == JobShares(slots, root, max) - JobShare(slots[r], root, max) + JobShare(slot, root, max)
  {
    hide JobShare;
    var n := |slots| - 1;
    if r == n {
      assert slots[r := slot][..n] == slots[..n];
    } else {
      assert slots[r := slot][..n] == slots[..n][r := slot];
      JobSharesUpdate(slots[..n], r, slot, root, max);
    }
  }

  lemma {:induction false} AttemptSharesUpdate(attempts: seq<Attempt>, w: nat, a: Attempt, root: nat, max: nat)
    requires w < |attempts|
    ensures AttemptShares(attempts[w := a], root, max)
         == AttemptShares(attempts, root, max) - AttemptShare(attempts[w], root, max) + AttemptShare(a, root, max)
  {
    hide AttemptShare;
    var n := |attempts| - 1;
    if w == n {
      assert attempts[w := a][..n] == attempts[..n];
    } else {
      assert attempts[w := a][..n] == attempts[..n][w := a];
      AttemptSharesUpdate(attempts[..n], w, a, root, max);
    }
  }

  lemma JobSharesAppend(slots: seq<Slot>, slot: Slot, root: nat, max: nat)
    ensures JobShares(slots + [slot], root, max) == JobShares(slots, root, max) + JobShare(slot, root, max)
  {
    assert (slots + [slot])[..|slots|] == slots;
  }

  lemma AttemptSharesAppend(attempts: seq<Attempt>, a: Attempt, root: nat, max: nat)
    ensures AttemptShares(attempts + [a], root, max)
         == AttemptShares(attempts, root, max) + AttemptShare(a, root, max)
  {
    assert (attempts + [a])[..|attempts|] == attempts;
  }

  /** The queue never lets a job be attempted more often than it may. */
  ghost predicate QueueBounded(s: State) {
    && s.maxAttempts >= 1
    && forall r :: 0 <= r < |s.slots| ==>
      && s.slots[r].job.attempts <= s.maxAttempts
      && (s.slots[r].job.state == Queued ==> s.slots[r].job.attempts < s.maxAttempts)
  }

  lemma StepKeepsQueueBounded(s: State, a: Action)
    requires Locked(s) && QueueBounded(s)
    ensures QueueBounded(Step(s, a))
  {
    hide CommitEvents, Spawns, CommittedRow, AfterError, AfterRefusal, AfterNotLive, AfterCommit, NextTx, SetStatus;
  }

  // ── The budget never grows ──────────────────────────────────────────────

  ghost predicate SameShare(a: Slot, b: Slot) {
    a.root == b.root && a.depth == b.depth && a.job.attempts == b.job.attempts
  }

  ghost predicate NoGreaterShare(a: Attempt, b: Attempt) {
    b.root == a.root && b.depth == a.depth && (MaySpawn(b.phase) ==> MaySpawn(a.phase))
  }

  lemma {:induction false} RunsBelowPositive(max: nat, depth: nat)
    ensures RunsBelow(max, depth) >= 1
    decreases MAX_DEPTH - depth
  {
    if depth < MAX_DEPTH {
      RunsBelowPositive(max, depth + 1);
      assert max * RunsBelow(max, depth + 1) >= 0;
    }
  }

  lemma {:induction false} JobSharesSame(a: seq<Slot>, b: seq<Slot>, root: nat, max: nat)
    requires |a| == |b| && forall r :: 0 <= r < |a| ==> SameShare(a[r], b[r])
    ensures JobShares(a, root, max) == JobShares(b, root, max)
  {
    if a != [] {
      var n := |a| - 1;
      JobSharesSame(a[..n], b[..n], root, max);
      assert SameShare(a[n], b[n]);
    }
  }

  lemma {:induction false} AttemptSharesLess(a: seq<Attempt>, b: seq<Attempt>, root: nat, max: nat)
    requires |a| == |b| && forall w :: 0 <= w < |a| ==> NoGreaterShare(a[w], b[w])
    ensures AttemptShares(b, root, max) <= AttemptShares(a, root, max)
  {
    if a != [] {
      var n := |a| - 1;
      AttemptSharesLess(a[..n], b[..n], root, max);
      assert NoGreaterShare(a[n], b[n]);
      RunsBelowPositive(max, a[n].depth);
    }
  }

  /** A step that neither claims nor creates nor spawns. */
  ghost predicate Quiet(s: State, t: State) {
    && |t.slots| == |s.slots| && |t.attempts| == |s.attempts| && t.maxAttempts == s.maxAttempts
    && (forall r :: 0 <= r < |s.slots| ==> SameShare(s.slots[r], t.slots[r]))
    && (forall w :: 0 <= w < |s.attempts| ==> NoGreaterShare(s.attempts[w], t.attempts[w]))
  }

  lemma QuietBudget(s: State, t: State, root: nat)
    requires Quiet(s, t)
    ensures Budget(t, root) <= Budget(s, root)
  {
    JobSharesSame(s.slots, t.slots, root, s.maxAttempts);
    AttemptSharesLess(s.attempts, t.attempts, root, s.maxAttempts);
  }

  lemma PhasesOnlyLoseSpawning(phase: Phase, tx: Tx, seen: RowLiveness)
    ensures MaySpawn(AfterError(phase)) ==> MaySpawn(phase)
    ensures MaySpawn(AfterRefusal(phase)) ==> MaySpawn(phase)
    ensures MaySpawn(AfterNotLive(phase, seen)) ==> MaySpawn(phase)
    ensures (Some(tx) == NextTx(phase, Accept) || Some(tx) == NextTx(phase, Reject)) && MaySpawn(AfterCommit(tx)) ==> MaySpawn(phase)
    ensures tx == RejectAndRefine ==> !MaySpawn(AfterCommit(tx))
    ensures !MaySpawn(AfterError(phase))
  {
  }

  lemma CommitBudget(s: State, w: nat, c: Commit, phase: Phase, root: nat)
    requires Locked(s) && Tree(s) && HasOpen(s, w) && InPhase(s.attempts[w])
    requires MaySpawn(phase) ==> MaySpawn(s.attempts[w].phase)
    requires s.attempts[w].open == Some(RejectAndRefine) ==> !MaySpawn(phase)
    ensures Budget(SetAttempt(ApplyCommit(s, w, c), w, phase, None), root) <= Budget(s, root)
  {
    hide CommitEvents, CommittedRow, Spawns;
    var a := s.attempts[w];
    var r, max := a.target, s.maxAttempts;
    var t := SetAttempt(ApplyCommit(s, w, c), w, phase, None);
    if a.open == Some(RejectAndRefine) && Spawns(s.slots[r]) {
      var kept := t.slots[..|s.slots|];
      assert t.slots == kept + [Child(s.slots[r], r)];
      JobSharesSame(s.slots, kept, root, max);
      JobSharesAppend(kept, Child(s.slots[r], r), root, max);
      AttemptSharesUpdate(s.attempts, w, t.attempts[w], root, max);
      SpawnIsPaidFor(s, w);
    } else {
      assert Quiet(s, t);
      QuietBudget(s, t, root);
    }
  }

  /** The spawning attempt gives up exactly what its child's job may use. */
  lemma SpawnIsPaidFor(s: State, w: nat)
    requires Tree(s) && HasOpen(s, w) && InPhase(s.attempts[w])
    requires s.attempts[w].open == Some(RejectAndRefine) && Spawns(s.slots[s.attempts[w].target])
    ensures var a, max := s.attempts[w], s.maxAttempts;
      && MaySpawn(a.phase)
      && a.root == Child(s.slots[a.target], a.target).root
      && RunsBelow(max, a.depth) == 1 + (max - 0) * RunsBelow(max, Child(s.slots[a.target], a.target).depth)
  {
    var a := s.attempts[w];
    assert Grown(s.slots, a.target);
    assert a.depth < MAX_DEPTH;
  }

  lemma ClaimBudget(s: State, r: nat, root: nat)
    requires QueueBounded(s)
    ensures Budget(Step(s, Claim(r)), root) <= Budget(s, root)
  {
    if r < |s.slots| && s.slots[r].job.state == Queued {
      var slot, max := s.slots[r], s.maxAttempts;
      var claimed := slot.(job := slot.job.(state := InProgress, attempts := slot.job.attempts + 1));
      JobSharesUpdate(s.slots, r, claimed, root, max);
      AttemptSharesAppend(s.attempts, Attempt(r, slot.root, slot.depth, Start, None), root, max);
      OneLess(max - slot.job.attempts, RunsBelow(max, slot.depth));
    }
  }

  lemma OneLess(n: int, x: int)
    ensures (n - 1) * x == n * x - x
  {
  }

  lemma ReleaseIsQuiet(s: State, w: nat, phase: Phase, log: seq<Event>)
    requires Locked(s) && w < |s.attempts|
    requires MaySpawn(phase) ==> MaySpawn(s.attempts[w].phase)
    ensures Quiet(s, Release(s, w, phase).(log := log))
  {
    hide MaySpawn;
  }

  lemma OpenIsQuiet(s: State, w: nat, verdict: Verdict)
    requires Idle(s, w)
    ensures Quiet(s, OpenTx(s, w, verdict))
  {
    hide MaySpawn, NextTx, AfterNotLive, IsLive, LivenessOf;
    var a := s.attempts[w];
    PhasesOnlyLoseSpawning(a.phase, MarkRunning, LivenessOf(s.slots[a.target].row.status));
  }

  /** Every step but a new root, a claim and a commit. */
  lemma StepIsQuiet(s: State, a: Action)
    requires Locked(s)
    requires !a.Create? && !a.Claim? && !a.CommitTx? && !a.CommitUnreported?
    ensures Quiet(s, Step(s, a))
  {
    hide Release, OpenTx, SetStatus, AfterError, AfterRefusal, SettledJob, MaySpawn;
    match a {
      case Open(w, verdict) =>
        if Idle(s, w) {
          OpenIsQuiet(s, w, verdict);
        }
      case CommitRefusedEdge(w) =>
        if HasOpen(s, w) {
          PhasesOnlyLoseSpawning(s.attempts[w].phase, MarkRunning, Live);
          ReleaseIsQuiet(s, w, AfterError(s.attempts[w].phase), s.log + [EdgesWritten(s.attempts[w].target)]);
        }
      case Abort(w) =>
        if w < |s.attempts| {
          PhasesOnlyLoseSpawning(s.attempts[w].phase, MarkRunning, Live);
          ReleaseIsQuiet(s, w, AfterError(s.attempts[w].phase), s.log);
          LogOfRelease(s, w, AfterError(s.attempts[w].phase));
        }
      case Refuse(w) =>
        if w < |s.attempts| {
          PhasesOnlyLoseSpawning(s.attempts[w].phase, MarkRunning, Live);
          ReleaseIsQuiet(s, w, AfterRefusal(s.attempts[w].phase), s.log);
          LogOfRelease(s, w, AfterRefusal(s.attempts[w].phase));
        }
      case Crash(w) =>
        if w < |s.attempts| {
          NeverSpawnsAgain(Lost);
          ReleaseIsQuiet(s, w, Ended(Lost), s.log);
          LogOfRelease(s, w, Ended(Lost));
        }
      case StoreNovelty(w, _) => NeverSpawnsAgain(Done);
      case Settle(w, _) =>
        NeverSpawnsAgain(Lost);
        if Idle(s, w) {
          SettledKeepsAttempts(s.slots[s.attempts[w].target].job, s.attempts[w].phase, s.maxAttempts);
        }
      case _ =>
    }
  }

  lemma SettledKeepsAttempts(job: Job, phase: Phase, max: nat)
    ensures phase.Ended? ==> SettledJob(job, phase.ending, max).attempts == job.attempts
  {
  }

  lemma NeverSpawnsAgain(e: Ending)
    ensures !MaySpawn(Settled) && !MaySpawn(Ended(e))
  {
  }

  lemma StepBudget(s: State, a: Action, root: nat)
    requires Safe(s) && Tree(s) && QueueBounded(s) && root < |s.slots|
    ensures Budget(Step(s, a), root) <= Budget(s, root)
  {
    hide ApplyCommit, Budget;
    match a {
      case Create(_, _, _) => CreateBudget(s, a, root);
      case Claim(r) => ClaimBudget(s, r, root);
      case CommitTx(w, c) =>
        if HasOpen(s, w) {
          PhasesOnlyLoseSpawning(s.attempts[w].phase, s.attempts[w].open.value, Live);
          CommitBudget(s, w, c, AfterCommit(s.attempts[w].open.value), root);
        }
      case CommitUnreported(w, c) =>
        if HasOpen(s, w) {
          PhasesOnlyLoseSpawning(s.attempts[w].phase, s.attempts[w].open.value, Live);
          CommitBudget(s, w, c, AfterError(s.attempts[w].phase), root);
        }
      case _ =>
        StepIsQuiet(s, a);
        QuietBudget(s, Step(s, a), root);
    }
  }

  lemma CreateBudget(s: State, a: Action, root: nat)
    requires a.Create? && root < |s.slots|
    ensures Budget(Step(s, a), root) <= Budget(s, root)
  {
    var t := Step(s, a);
    JobSharesAppend(s.slots, t.slots[|s.slots|], root, s.maxAttempts);
  }

  // ── Over whole runs ─────────────────────────────────────────────────────

  /** No share belongs to a root that does not exist yet. */
  lemma {:induction false} NoJobShares(slots: seq<Slot>, root: nat, max: nat)
    requires forall r :: 0 <= r < |slots| ==> slots[r].root != root
    ensures JobShares(slots, root, max) == 0
  {
    if slots != [] {
      NoJobShares(slots[..|slots| - 1], root, max);
    }
  }

  lemma {:induction false} NoAttemptShares(attempts: seq<Attempt>, root: nat, max: nat)
    requires forall w :: 0 <= w < |attempts| ==> attempts[w].root != root
    ensures AttemptShares(attempts, root, max) == 0
  {
    if attempts != [] {
      NoAttemptShares(attempts[..|attempts| - 1], root, max);
    }
  }

  /** What a root synthesis may cost in all. */
  function TreeCost(max: nat): int {
    max * RunsBelow(max, 0)
  }

  lemma NewRootBudget(s: State, a: Action)
    requires Tree(s) && a.Create?
    ensures Budget(Step(s, a), |s.slots|) == TreeCost(s.maxAttempts)
  {
    hide Grown;
    var t, root := Step(s, a), |s.slots|;
    forall r | 0 <= r < |s.slots| ensures s.slots[r].root != root {
      DescendantsAgreeWithRoot(s, r);
    }
    NoJobShares(s.slots, root, s.maxAttempts);
    NoAttemptShares(s.attempts, root, s.maxAttempts);
    JobSharesAppend(s.slots, t.slots[root], root, s.maxAttempts);
  }

  ghost predicate Costed(s: State) {
    forall root: nat :: root < |s.slots| && s.slots[root].parent == None ==> Budget(s, root) <= TreeCost(s.maxAttempts)
  }

  ghost predicate Accounted(s: State) {
    Safe(s) && Tree(s) && QueueBounded(s) && Costed(s)
  }

  lemma StepKeepsCosted(s: State, a: Action)
    requires Accounted(s)
    ensures Costed(Step(s, a))
  {
    hide Step, Budget, TreeCost, Safe, Tree, QueueBounded;
    var t := Step(s, a);
    StepOfAccounted(s, a);
    forall root: nat | root < |t.slots| && t.slots[root].parent == None
      ensures Budget(t, root) <= TreeCost(t.maxAttempts)
    {
      if root < |s.slots| {
        assert SameIdentity(s.slots[root], t.slots[root]);
        StepBudget(s, a, root);
      } else {
        NewcomerIsCreated(s, a);
        NewRootBudget(s, a);
      }
    }
  }

  lemma StepOfAccounted(s: State, a: Action)
    requires Accounted(s)
    ensures Locked(s) && KeepsIdentities(s, Step(s, a)) && AddsSoundly(s, Step(s, a))
  {
    hide Step, Tree, QueueBounded, Costed, KeepsIdentities, AddsSoundly;
    StepIdentity(s, a);
  }

  /** A synthesis without a parent is made only by a request. */
  lemma NewcomerIsCreated(s: State, a: Action)
    requires Locked(s)
    requires |Step(s, a).slots| > |s.slots| && Step(s, a).slots[|s.slots|].parent == None
    ensures a.Create? && |Step(s, a).slots| == |s.slots| + 1
  {
    hide CommitEvents, CommittedRow, AfterError, AfterRefusal, AfterNotLive, AfterCommit, NextTx, Spawns;
  }

  lemma {:induction false} RunIsAccounted(s: State, actions: seq<Action>)
    requires Accounted(s)
    ensures Accounted(Run(s, actions)) && Run(s, actions).maxAttempts == s.maxAttempts
  {
    hide Step, Safe, Tree, QueueBounded, Costed;
    if actions != [] {
      var n := |actions| - 1;
      var before := Run(s, actions[..n]);
      RunIsAccounted(s, actions[..n]);
      AccountedStep(before, actions[n]);
    }
  }

  lemma AccountedStep(s: State, a: Action)
    requires Accounted(s)
    ensures Accounted(Step(s, a)) && Step(s, a).maxAttempts == s.maxAttempts
  {
    hide Step, Tree, QueueBounded, Costed, Locked, RowsChecked, LogSound, AfterCompletion, CompletionEarned;
    StepKeepsLocks(s, a);
    StepKeepsChecks(s, a);
    StepKeepsLog(s, a);
    StepAfterCompletion(s, a);
    StepKeepsEarned(s, a);
    StepKeepsTree(s, a);
    StepKeepsQueueBounded(s, a);
    StepKeepsCosted(s, a);
    StepOfAccounted(s, a);
  }

  lemma ProductNotNegative(n: nat, x: nat)
    ensures n * x >= 0
  {
  }

  lemma {:induction false} JobSharesNotNegative(slots: seq<Slot>, root: nat, max: nat)
    requires forall r :: 0 <= r < |slots| ==> slots[r].job.attempts <= max
    ensures JobShares(slots, root, max) >= 0
  {
    hide RunsBelow;
    if slots != [] {
      var slot := slots[|slots| - 1];
      JobSharesNotNegative(slots[..|slots| - 1], root, max);
      RunsBelowPositive(max, slot.depth);
      ProductNotNegative(max - slot.job.attempts, RunsBelow(max, slot.depth));
    }
  }

  lemma {:induction false} RunsAreCharged(attempts: seq<Attempt>, root: nat, max: nat)
    ensures RunsOf(attempts, root) <= AttemptShares(attempts, root, max)
  {
    if attempts != [] {
      RunsAreCharged(attempts[..|attempts| - 1], root, max);
      RunsBelowPositive(max, attempts[|attempts| - 1].depth);
    }
  }

  /** Termination of a whole refinement tree. However transactions, retries,
      lost commits and deletions interleave, the syntheses a root leads to make
      at most A + A^2 + A^3 + A^4 pipeline runs together, A being the attempts
      the queue allows each job; with the three it allows by default, 120. */
  lemma PipelineRunsBounded(s: State, m: nat, root: nat)
    requires m >= 1 && Reachable(s, m) && root < |s.slots| && s.slots[root].parent == None
    ensures RunsOf(s.attempts, root) <= TreeCost(m)
    ensures m == 3 ==> RunsOf(s.attempts, root) <= 120
  {
    hide Safe, Tree, Reachable, TreeCost;
    ReachableIsAccounted(s, m);
    JobSharesNotNegative(s.slots, root, m);
    RunsAreCharged(s.attempts, root, m);
    TreeCostIs(m);
  }

  lemma ReachableIsAccounted(s: State, m: nat)
    requires m >= 1 && Reachable(s, m)
    ensures Accounted(s) && s.maxAttempts == m
  {
    hide Accounted, Run;
    var actions :| s == Run(Fresh(m), actions);
    FreshIsAccounted(m);
    RunIsAccounted(Fresh(m), actions);
  }

  lemma FreshIsAccounted(max: nat)
    requires max >= 1
    ensures Accounted(Fresh(max))
  {
  }

  lemma TreeCostIs(m: nat)
    ensures TreeCost(m) == m + m * m + m * m * m + m * m * m * m
  {
    var below2 := 1 + m * 1;
    assert RunsBelow(m, 3) == 1;
    assert RunsBelow(m, 2) == below2;
    assert RunsBelow(m, 1) == 1 + m * below2 == 1 + m + m * m;
    assert RunsBelow(m, 0) == 1 + m * (1 + m + m * m);
  }

  /** In every run, every synthesis below a root is at most three generations
      down, one level of relaxation per generation, and asks what its root
      asks, for the same owners and under the same principal. */
  lemma ReachableDescendants(s: State, m: nat, r: nat)
    requires m >= 1 && Reachable(s, m) && r < |s.slots|
    ensures var it := s.slots[r];
      && it.root <= r && s.slots[it.root].parent == None
      && it.row.recipe == s.slots[it.root].row.recipe == it.job.payload
      && it.job.principal == s.slots[it.root].job.principal
      && it.depth <= MAX_DEPTH && TemperatureOf(it.row).depthDelta == it.depth
      && (it.parent.Some? ==> it.parent.value < r && it.depth == s.slots[it.parent.value].depth + 1)
  {
    hide Safe, QueueBounded, Costed, Reachable;
    ReachableIsAccounted(s, m);
    DescendantsAgreeWithRoot(s, r);
    assert Grown(s.slots, r);
  }
}
