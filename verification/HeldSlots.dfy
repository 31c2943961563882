/** What held items do to the slots once they fill the definer's bound
    (crates/episcience-api/src/jobs/worker.rs): a period may attempt nothing
    while un-held items are due, and in the long run every third one does. */
module HeldSlots {
  import opened Base
  import opened Worklist
  import opened WorklistRuns

  // ── One period, whatever the records ────────────────────────────────────

  lemma {:induction false} AllHeldLeavesNone(s: seq<Uuid>, held: set<Uuid>)
    requires forall y :: y in s ==> y in held
    ensures Unheld(s, held) == []
  {
    if s != [] {
      assert s[|s| - 1] in s;
      AllHeldLeavesNone(s[..|s| - 1], held);
    }
  }

  lemma {:induction false} NoneHeldLeavesAll(s: seq<Uuid>, held: set<Uuid>)
    requires forall y :: y in s ==> y !in held
    ensures Unheld(s, held) == s
  {
    if s != [] {
      assert s[|s| - 1] in s;
      NoneHeldLeavesAll(s[..|s| - 1], held);
    }
  }

  /** A stretch of held items at the head of the order is fetched along with
      the slots behind it, as far as the bound goes. */
  lemma HeldAreFetched(order: seq<Uuid>, held: set<Uuid>, want: nat, m: nat)
    requires Distinct(order) && m <= |order| && forall k :: 0 <= k < m ==> order[k] in held
    ensures |Fetch(order, held, want)| >= Min(|order|, Min(want + m, WORKLIST_DEFINER_MAX))
  {
    DistinctWithin(order[..m], held);
  }

  /** The slots go to the first `want` items of an un-held stretch that starts
      where the held ones end, if the bound leaves room for it. */
  lemma StretchIsSlotted(order: seq<Uuid>, held: set<Uuid>, want: nat, m: nat)
    requires Distinct(order) && m + want <= |order| && m + want <= WORKLIST_DEFINER_MAX
    requires forall k :: 0 <= k < m ==> order[k] in held
    requires forall k :: m <= k < m + want ==> order[k] !in held
    ensures Slots(Fetch(order, held, want), held, want) == order[m..m + want]
  {
    hide Unheld, Fetch;
    var fetched := Fetch(order, held, want);
    HeldAreFetched(order, held, want, m);
    FetchedIsPrefix(order, held, want, m + want);
    AllHeldLeavesNone(order[..m], held);
    NoneHeldLeavesAll(order[m..m + want], held);
    UnheldConcat(order[..m], order[m..m + want], held);
    SlicesJoin(order, m, m + want);
    UnheldPrefix(fetched, m + want, held);
  }

  lemma FetchedIsPrefix(order: seq<Uuid>, held: set<Uuid>, want: nat, k: nat)
    requires k <= |Fetch(order, held, want)|
    ensures |Fetch(order, held, want)| <= |order| && Fetch(order, held, want)[..k] == order[..k]
  {
  }

  lemma SlicesJoin(s: seq<Uuid>, m: nat, n: nat)
    requires m <= n <= |s|
    ensures s[..m] + s[m..n] == s[..n]
  {
  }

  predicate HeadHeld(order: seq<Uuid>, held: set<Uuid>) {
    forall k :: 0 <= k < |order| && k < WORKLIST_DEFINER_MAX ==> order[k] in held
  }

  /** A period attempts nothing exactly when the first thousand items of the
      order are all held, however many un-held ones follow. */
  lemma NothingAttemptedIff(holds: map<Uuid, Hold>, now: nat, want: nat, order: seq<Uuid>)
    requires Distinct(order) && want >= 1
    ensures Attempts(holds, now, want, order) == [] <==> HeadHeld(order, HeldIds(holds, now))
  {
    hide Unheld;
    var held := HeldIds(holds, now);
    var fetched := Fetch(order, held, want);
    if HeadHeld(order, held) {
      AllHeldLeavesNone(fetched, held);
    } else {
      var m := FirstUnheld(order, held);
      HeldAreFetched(order, held, want, m);
      UnheldMeaning(fetched, held);
      assert fetched[m] == order[m] && order[m] in fetched;
    }
  }

  lemma FirstUnheld(order: seq<Uuid>, held: set<Uuid>) returns (m: nat)
    requires !HeadHeld(order, held)
    ensures m < |order| && m < WORKLIST_DEFINER_MAX && order[m] !in held
    ensures forall k :: 0 <= k < m ==> order[k] in held
  {
    m := 0;
    while order[m] in held
      invariant m < |order| && m < WORKLIST_DEFINER_MAX
      invariant forall k :: 0 <= k < m ==> order[k] in held
      decreases |order| - m
    {
      m := m + 1;
      if m == |order| || m == WORKLIST_DEFINER_MAX {
        assert false;
      }
    }
  }

  // ── Items that fail together stay together ──────────────────────────────

  /** Where the fifty of the k-th item start. */
  function Leader(k: nat): (first: nat)
    ensures first <= k < first + WORKLIST_LIMIT && first % WORKLIST_LIMIT == 0
  {
    k - k % WORKLIST_LIMIT
  }

  /** Each fifty of the thousand items have one record. */
  ghost predicate Alike(holds: map<Uuid, Hold>, items: seq<Uuid>) {
    forall k :: 0 <= k < |items| ==> Lookup(holds, items[k]) == Lookup(holds, items[Leader(k)])
  }

  /** A fifty of the items, or nothing. */
  ghost predicate AFiftyOrNothing(tried: seq<Uuid>, items: seq<Uuid>) {
    tried == [] || exists m :: 0 <= m <= |items| - WORKLIST_LIMIT && m % WORKLIST_LIMIT == 0 && tried == items[m..m + WORKLIST_LIMIT]
  }

  lemma AlikeAfterPruning(holds: map<Uuid, Hold>, items: seq<Uuid>, now: nat)
    requires Alike(holds, items)
    ensures Alike(Prune(holds, now), items)
  {
    forall k | 0 <= k < |items| ensures Lookup(Prune(holds, now), items[k]) == Lookup(Prune(holds, now), items[Leader(k)]) {
      assert Lookup(holds, items[k]) == Lookup(holds, items[Leader(k)]);
    }
  }

  lemma FiftiesAreAttempted(holds: map<Uuid, Hold>, now: nat, items: seq<Uuid>, behind: seq<Uuid>)
    requires |items| == WORKLIST_DEFINER_MAX && Distinct(items + behind) && Alike(holds, items)
    ensures AFiftyOrNothing(Attempts(holds, now, WORKLIST_LIMIT, items + behind), items)
  {
    hide Prune, Unheld;
    var order, held := items + behind, HeldIds(holds, now);
    NothingAttemptedIff(holds, now, WORKLIST_LIMIT, order);
    if !HeadHeld(order, held) {
      var m := FirstUnheld(order, held);
      assert order[m] == items[m] && order[Leader(m)] == items[Leader(m)];
      SameHold(holds, now, items, m);
      FiftyFits(m);
      forall k | m <= k < m + WORKLIST_LIMIT ensures order[k] !in held {
        LeaderOf(m, k);
        SameHold(holds, now, items, k);
      }
      StretchIsSlotted(order, held, WORKLIST_LIMIT, m);
      assert order[m..m + WORKLIST_LIMIT] == items[m..m + WORKLIST_LIMIT];
    }
  }

  lemma SameHold(holds: map<Uuid, Hold>, now: nat, items: seq<Uuid>, k: nat)
    requires k < |items| && Alike(holds, items)
    ensures items[k] in HeldIds(holds, now) <==> items[Leader(k)] in HeldIds(holds, now)
  {
    assert Lookup(holds, items[k]) == Lookup(holds, items[Leader(k)]);
  }

  lemma FiftyFits(m: nat)
    requires m < WORKLIST_DEFINER_MAX
    ensures Leader(m) + WORKLIST_LIMIT <= WORKLIST_DEFINER_MAX
  {
  }

  lemma LeaderOf(m: nat, k: nat)
    requires Leader(m) == m && m <= k < m + WORKLIST_LIMIT
    ensures Leader(k) == m
  {
  }

  lemma AlikeAfterPeriod(holds: map<Uuid, Hold>, now: nat, items: seq<Uuid>, behind: seq<Uuid>, ok: Uuid -> bool)
    requires |items| == WORKLIST_DEFINER_MAX && Distinct(items + behind) && Alike(holds, items)
    requires forall y :: y in items ==> !ok(y)
    ensures Alike(KindPeriod(holds, now, WORKLIST_LIMIT, items + behind, ok), items)
  {
    hide KindPeriod, Attempts, Prune;
    var after := KindPeriod(holds, now, WORKLIST_LIMIT, items + behind, ok);
    var tried := Attempts(Prune(holds, now), now, WORKLIST_LIMIT, items + behind);
    AlikeAfterPruning(holds, items, now);
    FiftiesAreAttempted(Prune(holds, now), now, items, behind);
    forall k: nat | k < |items| ensures Lookup(after, items[k]) == Lookup(after, items[Leader(k)]) {
      PeriodLookup(holds, now, WORKLIST_LIMIT, items + behind, ok, items[k]);
      PeriodLookup(holds, now, WORKLIST_LIMIT, items + behind, ok, items[Leader(k)]);
      TriedTogether(tried, items, behind, k);
      assert Lookup(holds, items[k]) == Lookup(holds, items[Leader(k)]);
    }
  }

  lemma TriedTogether(tried: seq<Uuid>, items: seq<Uuid>, behind: seq<Uuid>, k: nat)
    requires k < |items| && Distinct(items + behind) && AFiftyOrNothing(tried, items)
    ensures items[k] in tried <==> items[Leader(k)] in tried
  {
    if tried != [] {
      var m :| 0 <= m <= |items| - WORKLIST_LIMIT && m % WORKLIST_LIMIT == 0 && tried == items[m..m + WORKLIST_LIMIT];
      InStretch(items, behind, m, k);
      InStretch(items, behind, m, Leader(k));
      LeaderInStretch(m, k);
    }
  }

  lemma LeaderInStretch(m: nat, k: nat)
    requires m % WORKLIST_LIMIT == 0
    ensures m <= k < m + WORKLIST_LIMIT <==> m <= Leader(k) < m + WORKLIST_LIMIT
  {
  }

  lemma InStretch(items: seq<Uuid>, behind: seq<Uuid>, m: nat, k: nat)
    requires k < |items| && Distinct(items + behind) && m + WORKLIST_LIMIT <= |items|
    ensures items[k] in items[m..m + WORKLIST_LIMIT] <==> m <= k < m + WORKLIST_LIMIT
  {
    ItemsAreDistinct(items, behind);
    if m <= k < m + WORKLIST_LIMIT {
      assert items[m..m + WORKLIST_LIMIT][k - m] == items[k];
    }
  }

  // ── The run ─────────────────────────────────────────────────────────────

  /** From empty records, a thousand items that always fail head the order in
      every period; `behind` follows them. */
  ghost predicate Blocked(run: Run, items: seq<Uuid>, behind: seq<Uuid>) {
    && run.Valid() && run.want == WORKLIST_LIMIT && run.states[0] == map[]
    && |items| == WORKLIST_DEFINER_MAX && Distinct(items + behind)
    && (forall i :: 0 <= i < |run.tried| ==> run.orders[i] == items + behind)
    && forall y :: y in items ==> AlwaysFails(run, y)
  }

  lemma {:induction false} StaysAlike(run: Run, items: seq<Uuid>, behind: seq<Uuid>, i: nat)
    requires Blocked(run, items, behind) && i <= |run.tried|
    ensures Alike(run.states[i], items)
  {
    hide KindPeriod, Attempts, Prune;
    if i > 0 {
      StaysAlike(run, items, behind, i - 1);
      assert run.StepAt(i - 1);
      AlikeAfterPeriod(run.states[i - 1], run.base + i, items, behind, run.ok[i - 1]);
    }
  }

  /** Every period attempts fifty of the items or nothing at all. */
  lemma FiftyOrNothing(run: Run, items: seq<Uuid>, behind: seq<Uuid>, i: nat)
    requires Blocked(run, items, behind) && i < |run.tried|
    ensures AFiftyOrNothing(run.tried[i], items)
  {
    hide KindPeriod, Attempts, Prune, Alike, AFiftyOrNothing;
    assert run.StepAt(i);
    StaysAlike(run, items, behind, i);
    AlikeAfterPruning(run.states[i], items, run.base + i + 1);
    FiftiesAreAttempted(Prune(run.states[i], run.base + i + 1), run.base + i + 1, items, behind);
  }

  /** How many of the first n periods attempted nothing. */
  function Idle(run: Run, n: nat): nat
    requires n <= |run.tried|
  {
    if n == 0 then 0 else Idle(run, n - 1) + if run.tried[n - 1] == [] then 1 else 0
  }

  lemma {:induction false} TriesOfAll(run: Run, items: seq<Uuid>, behind: seq<Uuid>, n: nat)
    requires Blocked(run, items, behind) && n <= |run.tried|
    ensures TotalTries(run, items, n) == WORKLIST_LIMIT * (n - Idle(run, n))
  {
    hide TotalTries, CountIn, Alike;
    if n == 0 {
      NoTriesYet(run, items);
    } else {
      TriesOfAll(run, items, behind, n - 1);
      TriesAddUp(run, items, n - 1);
      FiftyOrNothing(run, items, behind, n - 1);
      FiftyCounts(run.tried[n - 1], items, behind);
    }
  }

  lemma ItemsAreDistinct(items: seq<Uuid>, behind: seq<Uuid>)
    requires Distinct(items + behind)
    ensures Distinct(items)
  {
    forall i, j | 0 <= i < j < |items| ensures items[i] != items[j] {
      assert (items + behind)[i] != (items + behind)[j];
    }
  }

  lemma FiftyCounts(tried: seq<Uuid>, items: seq<Uuid>, behind: seq<Uuid>)
    requires Distinct(items + behind) && AFiftyOrNothing(tried, items)
    ensures CountIn(items, Elements(tried)) == if tried == [] then 0 else WORKLIST_LIMIT
  {
    ItemsAreDistinct(items, behind);
    assert forall y :: y in tried ==> y in items;
    DistinctCardinality(tried);
    CountInAll(items, Elements(tried));
  }

  /** What follows the thousand is un-held, and in an idle period due all the
      slots there are. */
  ghost predicate DueButIdle(run: Run, behind: seq<Uuid>, i: nat)
    requires i < |run.tried| && |run.orders| == |run.tried| == |run.states| - 1
  {
    var now := run.base + i + 1;
    var held := HeldIds(Prune(run.states[i], now), now);
    && run.tried[i] == []
    && (forall y :: y in behind ==> y !in held)
    && Slots(run.orders[i], held, WORKLIST_LIMIT) == behind[..Min(WORKLIST_LIMIT, |behind|)]
  }

  lemma BehindIsFree(run: Run, items: seq<Uuid>, behind: seq<Uuid>, y: Uuid, i: nat)
    requires Blocked(run, items, behind) && y in behind && i < |run.tried|
    ensures y !in HeldIds(Prune(run.states[i], run.base + i + 1), run.base + i + 1)
  {
    hide Attempts, KindPeriod, Alike;
    var b :| 0 <= b < |behind| && behind[b] == y;
    assert (items + behind)[|items| + b] == y;
    StarvedBeyondTheBound(run, y);
    ItemIsValid(run, y);
    UntriedStaysFree(run.Item(y), i);
    assert run.Item(y).records[i] == Lookup(run.states[i], y);
  }

  lemma IdleIsDue(run: Run, items: seq<Uuid>, behind: seq<Uuid>, i: nat)
    requires Blocked(run, items, behind) && i < |run.tried| && run.tried[i] == []
    ensures DueButIdle(run, behind, i)
  {
    hide Attempts, KindPeriod, Unheld, HeldIds, Prune, Alike;
    var now := run.base + i + 1;
    var held := HeldIds(Prune(run.states[i], now), now);
    assert run.StepAt(i);
    NothingAttemptedIff(Prune(run.states[i], now), now, WORKLIST_LIMIT, items + behind);
    forall y | y in behind ensures y !in held {
      BehindIsFree(run, items, behind, y, i);
    }
    forall y | y in items ensures y in held {
      var k :| 0 <= k < |items| && items[k] == y;
      assert (items + behind)[k] == y;
    }
    UnheldConcat(items, behind, held);
    AllHeldLeavesNone(items, held);
    NoneHeldLeavesAll(behind, held);
  }

  /** Held items do take slots. Behind a thousand items that keep failing,
      nothing else is ever attempted, and of n periods at least (n - 286) / 3
      attempt nothing at all, though everything behind is un-held and due. */
  lemma HeldItemsTakeSlots(run: Run, items: seq<Uuid>, behind: seq<Uuid>)
    requires Blocked(run, items, behind)
    ensures 3 * Idle(run, |run.tried|) >= |run.tried| - 286
    ensures forall i :: 0 <= i < |run.tried| && run.tried[i] == [] ==> DueButIdle(run, behind, i)
  {
    hide DueButIdle, TotalTries, TotalWins;
    forall i | 0 <= i < |run.tried| && run.tried[i] == [] ensures DueButIdle(run, behind, i) {
      IdleIsDue(run, items, behind, i);
    }
    if |run.tried| > 0 {
      TriesOfAll(run, items, behind, |run.tried|);
      TotalBudget(run, items);
      NoWins(run, items);
    }
  }

  /** Such runs of any length start from empty records, so the worker meets a
      period that attempts nothing within its first 287. */
  lemma AnIdlePeriod(items: seq<Uuid>, behind: seq<Uuid>) returns (run: Run, i: nat)
    requires |items| == WORKLIST_DEFINER_MAX && Distinct(items + behind) && behind != []
    ensures Blocked(run, items, behind) && i < |run.tried| == 287 && DueButIdle(run, behind, i)
  {
    hide DueButIdle;
    run := RunExists(0, WORKLIST_LIMIT, map[], seq(287, _ => items + behind), seq(287, _ => (y: Uuid) => false));
    HeldItemsTakeSlots(run, items, behind);
    i := IdleAt(run, 287);
  }

  lemma {:induction false} IdleAt(run: Run, n: nat) returns (i: nat)
    requires n <= |run.tried| && Idle(run, n) > 0
    ensures i < n && run.tried[i] == []
  {
    if run.tried[n - 1] == [] {
      i := n - 1;
    } else {
      i := IdleAt(run, n - 1);
    }
  }
}
