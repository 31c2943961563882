/** The worst a root synthesis can cost: the bound on the pipeline runs of its
    refinement tree is reached, for every number of attempts the queue allows
    (crates/episcience-api/src/jobs/worker.rs, jobs/synthesis_job.rs). */
module RefinementWorst {
  import opened Base
  import opened Refinement
  import opened SynthesisRows
  import opened Lifecycle
  import opened RefinementChains

  // ── Runs, one after the other ───────────────────────────────────────────

  lemma {:induction false} RunOfRun(s: State, a: seq<Action>, b: seq<Action>)
    ensures Run(s, a + b) == Run(Run(s, a), b)
    decreases |b|
  {
    hide Step;
    if b == [] {
      assert a + b == a;
    } else {
      var n := |b| - 1;
      assert (a + b)[..|a + b| - 1] == a + b[..n];
      RunOfRun(s, a, b[..n]);
    }
  }

  lemma OneMore(s: State, actions: seq<Action>, a: Action)
    ensures Run(s, actions + [a]) == Step(Run(s, actions), a)
  {
    hide Step;
    assert (actions + [a])[..|actions|] == actions;
  }

  // ── One attempt that loses the report of its last commit ────────────────

  const PLAIN := Commit("", false, LlmUsage("", "", 0), "")

  /** The attempt at `r`, begun in `s`, has come to `phase`; `slot` is what it
      has made of the synthesis so far and `born` what it has inserted. */
  ghost predicate Under(t: State, s: State, r: nat, slot: Slot, born: seq<Slot>, phase: Phase, open: Option<Tx>)
    requires r < |s.slots|
  {
    && t.slots == s.slots[r := slot] + born
    && t.attempts == s.attempts + [Attempt(r, s.slots[r].root, s.slots[r].depth, phase, open)]
    && t.maxAttempts == s.maxAttempts
  }

  lemma Claims(s: State, r: nat)
    requires r < |s.slots| && s.slots[r].job.state == Queued
    ensures var slot := s.slots[r];
      Under(Step(s, Claim(r)), s, r, slot.(job := slot.job.(state := InProgress, attempts := slot.job.attempts + 1)), [], Start, None)
  {
  }

  lemma Opens(t: State, s: State, r: nat, slot: Slot, born: seq<Slot>, phase: Phase, tx: Tx)
    requires r < |s.slots| && Under(t, s, r, slot, born, phase, None)
    requires slot.holder.None? && IsLive(slot.row) && NextTx(phase, Reject) == Some(tx)
    ensures Under(Step(t, Open(|s.attempts|, Reject)), s, r, slot.(holder := Some(|s.attempts|)), born, phase, Some(tx))
  {
    hide NextTx, IsLive, AfterNotLive;
    Replaced(s.slots, r, slot, slot.(holder := Some(|s.attempts|)), born);
    LastReplaced(s.attempts, Attempt(r, s.slots[r].root, s.slots[r].depth, phase, None), Attempt(r, s.slots[r].root, s.slots[r].depth, phase, Some(tx)));
  }

  lemma Replaced(slots: seq<Slot>, r: nat, a: Slot, b: Slot, born: seq<Slot>)
    requires r < |slots|
    ensures (slots[r := a] + born)[r] == a
    ensures (slots[r := a] + born)[r := b] == slots[r := b] + born
  {
  }

  lemma LastReplaced(attempts: seq<Attempt>, a: Attempt, b: Attempt)
    ensures (attempts + [a])[|attempts|] == a
    ensures (attempts + [a])[|attempts| := b] == attempts + [b]
  {
  }

  lemma Commits(t: State, s: State, r: nat, slot: Slot, born: seq<Slot>, phase: Phase, tx: Tx)
    requires r < |s.slots| && Under(t, s, r, slot, born, phase, Some(tx)) && tx != RejectAndRefine
    ensures Under(Step(t, CommitTx(|s.attempts|, PLAIN)), s, r,
                  slot.(row := CommittedRow(slot.row, tx, PLAIN), holder := None), born, AfterCommit(tx), None)
  {
    hide CommittedRow, AfterCommit, CommitEvents, Child, Spawns;
    Replaced(s.slots, r, slot, slot.(row := CommittedRow(slot.row, tx, PLAIN), holder := None), born);
    LastReplaced(s.attempts, Attempt(r, s.slots[r].root, s.slots[r].depth, phase, Some(tx)),
                 Attempt(r, s.slots[r].root, s.slots[r].depth, AfterCommit(tx), None));
  }

  /** The rejection commits, child included, but its report is lost. */
  lemma LosesReport(t: State, s: State, r: nat, slot: Slot)
    requires r < |s.slots| && Under(t, s, r, slot, [], Judged(Reject), Some(RejectAndRefine))
    ensures Under(Step(t, CommitUnreported(|s.attempts|, PLAIN)), s, r,
                  slot.(row := CommittedRow(slot.row, RejectAndRefine, PLAIN), holder := None),
                  if Spawns(slot) then [Child(slot, r)] else [], FailingUsage, None)
  {
    hide CommittedRow, CommitEvents, Child, Spawns;
    Replaced(s.slots, r, slot, slot.(row := CommittedRow(slot.row, RejectAndRefine, PLAIN), holder := None), []);
    LastReplaced(s.attempts, Attempt(r, s.slots[r].root, s.slots[r].depth, Judged(Reject), Some(RejectAndRefine)),
                 Attempt(r, s.slots[r].root, s.slots[r].depth, FailingUsage, None));
  }

  lemma Settles(t: State, s: State, r: nat, slot: Slot, born: seq<Slot>)
    requires r < |s.slots| && Under(t, s, r, slot, born, Ended(Errored), None) && slot.job.state == InProgress
    ensures Under(Step(t, Settle(|s.attempts|, true)), s, r,
                  slot.(job := SettledJob(slot.job, Errored, s.maxAttempts)), born, Settled, None)
  {
    hide SettledJob;
    Replaced(s.slots, r, slot, slot.(job := SettledJob(slot.job, Errored, s.maxAttempts)), born);
    LastReplaced(s.attempts, Attempt(r, s.slots[r].root, s.slots[r].depth, Ended(Errored), None),
                 Attempt(r, s.slots[r].root, s.slots[r].depth, Settled, None));
  }

  /** Waiting in the queue, with `left` attempts to go, at its depth. */
  predicate Waiting(s: State, r: nat, left: nat) {
    r < |s.slots| && left >= 1 && WaitingSlot(s.slots[r], left, s.maxAttempts)
  }

  predicate WaitingSlot(slot: Slot, left: nat, max: nat) {
    && slot.holder.None? && IsLive(slot.row) && slot.job.state == Queued
    && slot.job.attempts + left == max && slot.job.principal.Some?
    && TemperatureOf(slot.row).depthDelta == slot.depth <= MAX_DEPTH
  }

  /** Two transactions of a stage: open, then commit. */
  lemma OpenAndCommit(t: State, s: State, r: nat, slot: Slot, born: seq<Slot>, phase: Phase, tx: Tx)
    returns (u: State, after: Slot)
    requires r < |s.slots| && Under(t, s, r, slot, born, phase, None)
    requires slot.holder.None? && IsLive(slot.row) && NextTx(phase, Reject) == Some(tx)
    requires tx != RejectAndRefine && tx != Finish
    ensures u == Run(t, [Open(|s.attempts|, Reject), CommitTx(|s.attempts|, PLAIN)])
    ensures Under(u, s, r, after, born, AfterCommit(tx), None) && SameButRow(slot, after)
  {
    hide Step, Under, NextTx, AfterCommit;
    var w := |s.attempts|;
    Opens(t, s, r, slot, born, phase, tx);
    Commits(Step(t, Open(w, Reject)), s, r, slot.(holder := Some(w)), born, phase, tx);
    after := slot.(row := CommittedRow(slot.row, tx, PLAIN), holder := None);
    OneMore(t, [], Open(w, Reject));
    OneMore(t, [] + [Open(w, Reject)], CommitTx(w, PLAIN));
    u := Step(Step(t, Open(w, Reject)), CommitTx(w, PLAIN));
  }

  /** Only the row differs, and it is live at the same temperature. */
  predicate SameButRow(a: Slot, b: Slot) {
    b == a.(row := b.row, holder := None) && b.row.temperature == a.row.temperature && IsLive(b.row)
  }

  /** One attempt from the queue and back: it rejects, refines, loses the report
      of that commit, records its failure and is retried if it may. */
  lemma OnePass(s: State, r: nat, left: nat) returns (actions: seq<Action>, t: State)
    requires Waiting(s, r, left)
    ensures t == Run(s, actions) && t.maxAttempts == s.maxAttempts
    ensures t.attempts == s.attempts + [Attempt(r, s.slots[r].root, s.slots[r].depth, Settled, None)]
    ensures r < |s.slots| <= |t.slots| && t.slots[r].root == s.slots[r].root && t.slots[r].depth == s.slots[r].depth
    ensures forall k :: 0 <= k < |s.slots| && k != r ==> t.slots[k] == s.slots[k]
    ensures left > 1 ==> Waiting(t, r, left - 1)
    ensures s.slots[r].depth < MAX_DEPTH ==>
      && Waiting(t, |s.slots|, s.maxAttempts)
      && t.slots[|s.slots|].root == s.slots[r].root && t.slots[|s.slots|].depth == s.slots[r].depth + 1
  {
    hide Step, Under, Child, Run, TemperatureOf;
    var w, slot := |s.attempts|, s.slots[r];
    Claims(s, r);
    var one := Step(s, Claim(r));
    var claimed := slot.(job := slot.job.(state := InProgress, attempts := slot.job.attempts + 1));
    var two, running := OpenAndCommit(one, s, r, claimed, [], Start, MarkRunning);
    var three, judged := OpenAndCommit(two, s, r, running, [], Staging, RecordUsage(Reject));
    Opens(three, s, r, judged, [], Judged(Reject), RejectAndRefine);
    var held := judged.(holder := Some(w));
    var four := Step(three, Open(w, Reject));
    LosesReport(four, s, r, held);
    var five := Step(four, CommitUnreported(w, PLAIN));
    var rejected := held.(row := CommittedRow(held.row, RejectAndRefine, PLAIN), holder := None);
    var born := if Spawns(held) then [Child(held, r)] else [];
    var six, counted := OpenAndCommit(five, s, r, rejected, born, FailingUsage, RecordFailedUsage);
    var seven, failed := OpenAndCommit(six, s, r, counted, born, FailingMark, MarkFailed);
    Settles(seven, s, r, failed, born);
    t := Step(seven, Settle(w, true));
    var pair := [Open(w, Reject), CommitTx(w, PLAIN)];
    actions := [] + [Claim(r)] + pair + pair + [Open(w, Reject)] + [CommitUnreported(w, PLAIN)] + pair + pair + [Settle(w, true)];
    PassIsRun(s, r, w, [] + [Claim(r)], pair, actions);
    var back := failed.(job := SettledJob(failed.job, Errored, s.maxAttempts));
    ComesBack(slot, back, left, s.maxAttempts);
    WhereItStands(t, s, r, back, born);
    if slot.depth < MAX_DEPTH {
      ChildWaits(slot, held, r, s.maxAttempts);
    }
  }

  lemma PassIsRun(s: State, r: nat, w: nat, claim: seq<Action>, pair: seq<Action>, actions: seq<Action>)
    requires claim == [] + [Claim(r)]
    requires actions == claim + pair + pair + [Open(w, Reject)] + [CommitUnreported(w, PLAIN)] + pair + pair + [Settle(w, true)]
    ensures Run(s, actions)
         == Step(Run(Run(Step(Step(Run(Run(Step(s, Claim(r)), pair), pair), Open(w, Reject)), CommitUnreported(w, PLAIN)), pair), pair), Settle(w, true))
  {
    hide Step, Run;
    RunNothing(s);
    OneMore(s, [], Claim(r));
    RunOfRun(s, claim, pair);
    RunOfRun(s, claim + pair, pair);
    OneMore(s, claim + pair + pair, Open(w, Reject));
    OneMore(s, claim + pair + pair + [Open(w, Reject)], CommitUnreported(w, PLAIN));
    RunOfRun(s, claim + pair + pair + [Open(w, Reject)] + [CommitUnreported(w, PLAIN)], pair);
    RunOfRun(s, claim + pair + pair + [Open(w, Reject)] + [CommitUnreported(w, PLAIN)] + pair, pair);
    OneMore(s, claim + pair + pair + [Open(w, Reject)] + [CommitUnreported(w, PLAIN)] + pair + pair, Settle(w, true));
  }

  lemma RunNothing(s: State)
    ensures Run(s, []) == s
  {
  }

  lemma WhereItStands(t: State, s: State, r: nat, slot: Slot, born: seq<Slot>)
    requires r < |s.slots| && Under(t, s, r, slot, born, Settled, None)
    ensures t.maxAttempts == s.maxAttempts && |t.slots| == |s.slots| + |born| && t.slots[r] == slot
    ensures t.attempts == s.attempts + [Attempt(r, s.slots[r].root, s.slots[r].depth, Settled, None)]
    ensures forall k :: 0 <= k < |s.slots| && k != r ==> t.slots[k] == s.slots[k]
    ensures born != [] ==> t.slots[|s.slots|] == born[0]
  {
  }

  lemma ComesBack(before: Slot, after: Slot, left: nat, max: nat)
    requires WaitingSlot(before, left, max) && left >= 1
    requires after.row.temperature == before.row.temperature && IsLive(after.row) && after.holder.None?
    requires after.depth == before.depth
    requires after.job == SettledJob(before.job.(state := InProgress, attempts := before.job.attempts + 1), Errored, max)
    ensures left > 1 ==> WaitingSlot(after, left - 1, max)
  {
  }

  lemma ChildWaits(slot: Slot, held: Slot, r: nat, max: nat)
    requires slot.depth < MAX_DEPTH && TemperatureOf(slot.row).depthDelta == slot.depth && slot.job.principal.Some?
    requires held.row.temperature == slot.row.temperature && held.depth == slot.depth && held.root == slot.root
    requires held.job.principal == slot.job.principal
    ensures Spawns(held) && WaitingSlot(Child(held, r), max, max)
    ensures Child(held, r).root == slot.root && Child(held, r).depth == slot.depth + 1
  {
  }

  // ── The whole tree ──────────────────────────────────────────────────────

  lemma RunsOfAppend(attempts: seq<Attempt>, a: Attempt, root: nat)
    ensures RunsOf(attempts + [a], root) == RunsOf(attempts, root) + if a.root == root then 1 else 0
  {
    assert (attempts + [a])[..|attempts|] == attempts;
  }

  /** From a queued job with `left` attempts: every attempt leaves one child,
      whose whole tree runs before the next attempt. */
  lemma {:induction false} SpendAll(s: State, r: nat, left: nat, depth: nat) returns (actions: seq<Action>)
    requires Waiting(s, r, left) && depth == s.slots[r].depth
    ensures var t, root := Run(s, actions), s.slots[r].root;
      && t.maxAttempts == s.maxAttempts && |s.slots| <= |t.slots|
      && (forall k :: 0 <= k < |s.slots| && k != r ==> t.slots[k] == s.slots[k])
      && RunsOf(t.attempts, root) == RunsOf(s.attempts, root) + left * RunsBelow(s.maxAttempts, depth)
    decreases MAX_DEPTH - depth, left
  {
    hide Step, Waiting, RunsOf, RunsBelow, Run;
    WaitingMeans(s, r, left);
    var root, max := s.slots[r].root, s.maxAttempts;
    var pass, t := OnePass(s, r, left);
    RunsOfAppend(s.attempts, Attempt(r, root, depth, Settled, None), root);
    var below: seq<Action> := [];
    RunNothing(t);
    if depth < MAX_DEPTH {
      below := SpendAll(t, |s.slots|, max, depth + 1);
    }
    var u := Run(t, below);
    RunOfRun(s, pass, below);
    RunsBelowIs(max, depth);
    assert RunsOf(u.attempts, root) == RunsOf(s.attempts, root) + RunsBelow(max, depth);
    var rest: seq<Action> := [];
    RunNothing(u);
    if left > 1 {
      StillWaits(t, u, r, left - 1);
      rest := SpendAll(u, r, left - 1, depth);
    }
    RunOfRun(s, pass + below, rest);
    OneLess(left, RunsBelow(max, depth));
    actions := pass + below + rest;
  }

  lemma WaitingMeans(s: State, r: nat, left: nat)
    requires Waiting(s, r, left)
    ensures r < |s.slots| && left >= 1 && s.slots[r].depth <= MAX_DEPTH
  {
  }

  lemma StillWaits(t: State, u: State, r: nat, left: nat)
    requires Waiting(t, r, left) && r < |u.slots| && u.slots[r] == t.slots[r] && u.maxAttempts == t.maxAttempts
    ensures Waiting(u, r, left)
  {
  }

  lemma RunsBelowIs(max: nat, depth: nat)
    requires depth <= MAX_DEPTH
    ensures RunsBelow(max, depth) == if depth == MAX_DEPTH then 1 else 1 + max * RunsBelow(max, depth + 1)
  {
  }

  /** The bound is exact: for every number of attempts the queue allows there
      is a run whose first synthesis leads to exactly `TreeCost(m)` pipeline
      runs, when each attempt loses the report of its last commit. */
  lemma TreeCostIsReached(m: nat, recipe: Recipe, principal: Uuid) returns (actions: seq<Action>)
    requires m >= 1
    ensures RunsOf(Run(Fresh(m), actions).attempts, 0) == TreeCost(m)
  {
    hide Step, RunsBelow;
    var start := [] + [Create(recipe, Group, Some(principal))];
    var s := Run(Fresh(m), start);
    OneMore(Fresh(m), [], Create(recipe, Group, Some(principal)));
    CreatedWaits(m, recipe, principal);
    var rest := SpendAll(s, 0, m, 0);
    RunOfRun(Fresh(m), start, rest);
    actions := start + rest;
  }

  lemma CreatedWaits(m: nat, recipe: Recipe, principal: Uuid)
    requires m >= 1
    ensures var s := Step(Fresh(m), Create(recipe, Group, Some(principal)));
      Waiting(s, 0, m) && s.slots[0].root == 0 && s.slots[0].depth == 0 && s.attempts == [] && s.maxAttempts == m
  {
  }

  /** `n` is the most pipeline runs any root leads to in any run. */
  ghost predicate IsWorstCost(m: nat, n: int) {
    && (forall s, root: nat :: Reachable(s, m) && root < |s.slots| && s.slots[root].parent == None ==> RunsOf(s.attempts, root) <= n)
    && exists s: State, root: nat :: Reachable(s, m) && root < |s.slots| && s.slots[root].parent == None && RunsOf(s.attempts, root) == n
  }

  /** A root synthesis costs at most A + A^2 + A^3 + A^4 pipeline runs, and
      that is the least such bound: 120 for the default three attempts. */
  lemma WorstCostIs(m: nat, n: int)
    requires m >= 1
    ensures IsWorstCost(m, n) <==> n == m + m * m + m * m * m + m * m * m * m
  {
    hide Step, RunsBelow, Reachable, TreeCost, RunsOf, Run;
    TreeCostIs(m);
    forall s, root: nat | Reachable(s, m) && root < |s.slots| && s.slots[root].parent == None
      ensures RunsOf(s.attempts, root) <= TreeCost(m)
    {
      PipelineRunsBounded(s, m, root);
    }
    var s := WorstRun(m);
    assert IsWorstCost(m, TreeCost(m));
  }

  lemma WorstRun(m: nat) returns (s: State)
    requires m >= 1
    ensures Reachable(s, m) && 0 < |s.slots| && s.slots[0].parent == None && RunsOf(s.attempts, 0) == TreeCost(m)
  {
    hide Step, RunsBelow, TreeCost, RunsOf, Tree, Run;
    var nobody := Uuid([0, 0, 0, 0, 0, 0, 0, 0, 0, 0, 0, 0, 0, 0, 0, 0]);
    var actions := TreeCostIsReached(m, Recipe("", nobody, "", None, None, []), nobody);
    s := Run(Fresh(m), actions);
    RootIsThere(s, m);
  }

  lemma RootIsThere(s: State, m: nat)
    requires m >= 1 && Reachable(s, m) && RunsOf(s.attempts, 0) == TreeCost(m)
    ensures 0 < |s.slots| && s.slots[0].parent == None
  {
    hide Reachable, Run;
    ReachableIsAccounted(s, m);
    TreeCostIs(m);
    NoRunsWithoutRoot(s);
    if |s.slots| > 0 {
      assert Grown(s.slots, 0);
    }
  }

  lemma NoRunsWithoutRoot(s: State)
    requires Tree(s)
    ensures |s.slots| == 0 ==> RunsOf(s.attempts, 0) == 0
  {
  }
}
