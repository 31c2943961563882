/** What the worklist backoff guarantees over whole runs of periods
    (crates/episcience-api/src/jobs/worker.rs): the slots of a period, the hold
    pattern of an item, and freedom from starvation. */
module WorklistRuns {
  import opened Base
  import opened Worklist

  // ── One period ──────────────────────────────────────────────────────────

  lemma {:induction false} UnheldMeaning(s: seq<Uuid>, held: set<Uuid>)
    ensures forall x :: x in Unheld(s, held) <==> x in s && x !in held
    ensures Distinct(s) ==> Distinct(Unheld(s, held))
  {
    if s != [] {
      var n := |s| - 1;
      assert s == s[..n] + [s[n]];
      UnheldMeaning(s[..n], held);
    }
  }

  /** A duplicate-free stretch loses at most |held| items to the filter. */
  lemma {:induction false} UnheldLength(s: seq<Uuid>, held: set<Uuid>)
    requires Distinct(s)
    ensures |Unheld(s, held)| >= |s| - |held|
    decreases |s|
  {
    if s != [] {
      var n := |s| - 1;
      var last := s[n];
      if last in held {
        UnheldWithout(s[..n], held, last);
        UnheldLength(s[..n], held - {last});
      } else {
        UnheldLength(s[..n], held);
      }
    }
  }

  lemma {:induction false} UnheldWithout(s: seq<Uuid>, held: set<Uuid>, x: Uuid)
    requires x !in s
    ensures Unheld(s, held) == Unheld(s, held - {x})
  {
    if s != [] {
      var n := |s| - 1;
      assert s == s[..n] + [s[n]];
      UnheldWithout(s[..n], held, x);
    }
  }

  /** Held items never take a slot: whenever the slots and the held items
      together fit the definer's bound, a period attempts exactly the first
      `want` un-held items of the definer's whole order. */
  lemma SlotsGoToTheFirstUnheld(holds: map<Uuid, Hold>, now: nat, want: nat, order: seq<Uuid>)
    requires Distinct(order)
    requires want + |HeldIds(holds, now)| <= WORKLIST_DEFINER_MAX
    ensures Attempts(holds, now, want, order) == Slots(order, HeldIds(holds, now), want)
  {
    var held := HeldIds(holds, now);
    var fetched := Fetch(order, held, want);
    if |order| <= want + |held| {
      assert fetched == order;
    } else {
      UnheldLength(fetched, held);
      UnheldPrefix(order, |fetched|, held);
    }
  }

  /** Past the bound the same holds exactly when the fetched stretch has
      enough un-held items, or nothing un-held lies beyond it. */
  lemma SlotsPastTheBound(holds: map<Uuid, Hold>, now: nat, want: nat, order: seq<Uuid>)
    ensures var held := HeldIds(holds, now);
            var fetched := Fetch(order, held, want);
            Attempts(holds, now, want, order) == Slots(order, held, want)
            <==> |Unheld(fetched, held)| >= want || Unheld(order[|fetched|..], held) == []
  {
    var held := HeldIds(holds, now);
    var fetched := Fetch(order, held, want);
    assert order == fetched + order[|fetched|..];
    UnheldConcat(fetched, order[|fetched|..], held);
  }

  lemma {:induction false} UnheldConcat(a: seq<Uuid>, b: seq<Uuid>, held: set<Uuid>)
    ensures Unheld(a + b, held) == Unheld(a, held) + Unheld(b, held)
    decreases |b|
  {
    if b == [] {
      assert a + b == a;
    } else {
      var n := |b| - 1;
      assert (a + b)[..|a + b| - 1] == a + b[..n];
      UnheldConcat(a, b[..n], held);
    }
  }

  lemma AttemptsAreFreeAndDistinct(holds: map<Uuid, Hold>, now: nat, want: nat, order: seq<Uuid>)
    requires Distinct(order)
    ensures var tried := Attempts(holds, now, want, order);
            Distinct(tried) && |tried| <= want
            && forall y :: y in tried ==> y in order && y !in HeldIds(holds, now)
  {
    var held := HeldIds(holds, now);
    var fetched := Fetch(order, held, want);
    var u := Unheld(fetched, held);
    UnheldMeaning(fetched, held);
    forall y | y in u[..Min(want, |u|)] ensures y in order && y !in held {
      assert y in u;
      assert y in fetched;
    }
  }

  /** What a period does to one item's record. */
  function StepHold(r: Option<Hold>, tried: bool, ok: bool, now: nat): Option<Hold> {
    var kept := if r.Some? && r.value.eligibleAt + 2 * WORKLIST_MAX_HOLD_PERIODS > now then r else None;
    if !tried then kept
    else if ok then None
    else
      var n: SkipCount := if kept.Some? then Min(kept.value.skips + 1, U32_MAX) else 1;
      Some(Hold(n, now + 1 + HoldPeriods(n)))
  }

  function Lookup(holds: map<Uuid, Hold>, y: Uuid): Option<Hold> {
    if y in holds then Some(holds[y]) else None
  }

  lemma ItemLookup(holds: map<Uuid, Hold>, id: Uuid, ok: bool, now: nat, y: Uuid)
    requires y != id
    ensures Lookup(SettleItem(holds, id, ok, now), y) == Lookup(holds, y)
  {
  }

  /** What an attempt makes of an item's record depends on nothing else. */
  lemma ItemLookupSame(a: map<Uuid, Hold>, b: map<Uuid, Hold>, y: Uuid, ok: bool, now: nat)
    requires Lookup(a, y) == Lookup(b, y)
    ensures Lookup(SettleItem(a, y, ok, now), y) == Lookup(SettleItem(b, y, ok, now), y)
  {
  }

  lemma {:induction false} SettleLookup(holds: map<Uuid, Hold>, tried: seq<Uuid>, ok: Uuid -> bool, now: nat, y: Uuid)
    requires Distinct(tried)
    ensures Lookup(Settle(holds, tried, ok, now), y)
         == if y in tried then Lookup(SettleItem(holds, y, ok(y), now), y) else Lookup(holds, y)
  {
    hide RecordSkip, RecordSuccess;
    if tried != [] {
      var n := |tried| - 1;
      var before := Settle(holds, tried[..n], ok, now);
      assert tried == tried[..n] + [tried[n]];
      SettleLookup(holds, tried[..n], ok, now, y);
      if y == tried[n] {
        ItemLookupSame(before, holds, y, ok(y), now);
      } else {
        ItemLookup(before, tried[n], ok(tried[n]), now, y);
      }
    }
  }

  lemma PeriodLookup(holds: map<Uuid, Hold>, now: nat, want: nat, order: seq<Uuid>, ok: Uuid -> bool, y: Uuid)
    requires Distinct(order)
    ensures Lookup(KindPeriod(holds, now, want, order, ok), y)
         == StepHold(Lookup(holds, y), y in Attempts(Prune(holds, now), now, want, order), ok(y), now)
  {
    var kept := Prune(holds, now);
    var tried := Attempts(kept, now, want, order);
    AttemptsAreFreeAndDistinct(kept, now, want, order);
    SettleLookup(kept, tried, ok, now, y);
  }

  // ── One item over a run ─────────────────────────────────────────────────

  /** What a run does to one item: its record before and after each period,
      whether it was attempted, whether the attempt would succeed. */
  datatype ItemTrace = ItemTrace(base: nat, records: seq<Option<Hold>>, tried: seq<bool>, ok: seq<bool>) {

    ghost predicate Valid() {
      && |records| == |tried| + 1 == |ok| + 1
      && forall i :: 0 <= i < |tried| ==> StepAt(i)
    }

    ghost predicate StepAt(i: nat)
      requires |records| == |tried| + 1 == |ok| + 1 && i < |tried|
    {
      && records[i + 1] == StepHold(records[i], tried[i], ok[i], base + i + 1)
      && (tried[i] ==> !HeldIn(i))
    }

    /** Held back in the i-th period, whose number is base+i+1. */
    predicate HeldIn(i: nat)
      requires i < |records|
    {
      records[i].Some? && records[i].value.eligibleAt > base + i + 1
    }
  }

  /** The hold pattern. An item skipped in a period, its k-th counted skip, is
      held in exactly the next min(2^(k-1), 64) periods until it is attempted
      again; pruning never changes when it is held, and drops its record
      exactly 128 periods after the hold. */
  lemma {:induction false} HoldPattern(t: ItemTrace, i: nat, j: nat)
    requires t.Valid() && i < j < |t.records|
    requires t.tried[i] && !t.ok[i]
    requires forall m :: i < m < j && !t.HeldIn(m) ==> !t.tried[m]
    ensures t.records[i + 1].Some?
    ensures var k := t.records[i + 1].value.skips;
            && (t.HeldIn(j) <==> j - i <= Min(Pow2(k - 1), WORKLIST_MAX_HOLD_PERIODS))
            && t.records[j] == if j - i <= HoldPeriods(k) + 129 then t.records[i + 1] else None
    decreases j
  {
    assert t.StepAt(i);
    HoldDoublesUpToTheCap(t.records[i + 1].value.skips);
    if j > i + 1 {
      HoldPattern(t, i, j - 1);
      assert t.StepAt(j - 1);
    }
  }

  /** The count goes on from skip to skip, except that an item left alone for
      128 periods past its hold starts again at one. */
  lemma SkipCountContinues(t: ItemTrace, i: nat, j: nat)
    requires t.Valid() && i < j < |t.tried|
    requires t.tried[i] && !t.ok[i] && t.tried[j] && !t.ok[j]
    requires forall m :: i < m < j && !t.HeldIn(m) ==> !t.tried[m]
    ensures t.records[i + 1].Some? && t.records[j + 1].Some?
    ensures var k := t.records[i + 1].value.skips;
            t.records[j + 1].value.skips == if j - i <= HoldPeriods(k) + 128 then Min(k + 1, U32_MAX) else 1
  {
    HoldPattern(t, i, j);
    assert t.StepAt(i);
    assert t.StepAt(j);
  }

  /** The attempts, times 30, an item may be ahead of the clock by after its
      k-th counted skip. */
  function Credit(k: SkipCount): nat {
    if k == 1 then 30 else if k == 2 then 58 else if k == 3 then 85
    else if k == 4 then 110 else if k == 5 then 131 else 144
  }

  ghost predicate WithinBudget(r: Option<Hold>, spent: int, elapsed: nat, base: nat) {
    match r
    case None => spent <= elapsed
    case Some(h) =>
      || spent <= 0
      || (var last := h.eligibleAt - 1 - HoldPeriods(h.skips) - base;
          last <= elapsed && spent <= last - 1 + Credit(h.skips))
  }

  lemma HoldTable(k: SkipCount)
    ensures HoldPeriods(k) == if k == 1 then 1 else if k == 2 then 2 else if k == 3 then 4
                              else if k == 4 then 8 else if k == 5 then 16 else if k == 6 then 32 else 64
  {
    SmallPowers();
  }

  lemma BudgetStep(r: Option<Hold>, spent: int, elapsed: nat, base: nat, tried: bool, ok: bool)
    requires WithinBudget(r, spent, elapsed, base)
    requires tried && r.Some? ==> r.value.eligibleAt <= base + elapsed + 1
    ensures WithinBudget(StepHold(r, tried, ok, base + elapsed + 1),
                         spent + (if tried then 30 else 0) - (if tried && ok then 174 else 0),
                         elapsed + 1, base)
  {
    HoldTable(1);
    if r.Some? {
      HoldTable(r.value.skips);
      HoldTable(Min(r.value.skips + 1, U32_MAX));
    }
  }

  function Count(bits: seq<bool>, n: nat): nat
    requires n <= |bits|
  {
    if n == 0 then 0 else Count(bits, n - 1) + if bits[n - 1] then 1 else 0
  }

  function CountBoth(a: seq<bool>, b: seq<bool>, n: nat): nat
    requires n <= |a| == |b|
  {
    if n == 0 then 0 else CountBoth(a, b, n - 1) + if a[n - 1] && b[n - 1] then 1 else 0
  }

  lemma {:induction false} ItemBudget(t: ItemTrace, n: nat)
    requires t.Valid() && n <= |t.tried|
    ensures WithinBudget(t.records[n], 30 * Count(t.tried, n) - 174 * CountBoth(t.tried, t.ok, n), n, t.base)
  {
    if n > 0 {
      ItemBudget(t, n - 1);
      assert t.StepAt(n - 1);
      BudgetStep(t.records[n - 1], 30 * Count(t.tried, n - 1) - 174 * CountBoth(t.tried, t.ok, n - 1),
                 n - 1, t.base, t.tried[n - 1], t.ok[n - 1]);
    }
  }

  /** In n periods an item that keeps failing uses fewer than 5 + n/30 slots,
      whatever its record was at the start and however often pruning resets
      it; every success buys it fewer than six more. */
  lemma SlotsPerItem(t: ItemTrace)
    requires t.Valid() && |t.tried| > 0
    ensures 30 * Count(t.tried, |t.tried|) <= |t.tried| + 143 + 174 * CountBoth(t.tried, t.ok, |t.tried|)
  {
    ItemBudget(t, |t.tried|);
  }

  // ── Runs of all the items of a kind ─────────────────────────────────────

  /** A run of one kind: the definer's order and the outcomes each period
      meets, the records around each period, and what each attempts. */
  datatype Run = Run(base: nat, want: nat, orders: seq<seq<Uuid>>, ok: seq<Uuid -> bool>,
                     states: seq<map<Uuid, Hold>>, tried: seq<seq<Uuid>>) {

    ghost predicate Valid() {
      && |orders| == |ok| == |tried| == |states| - 1
      && forall i :: 0 <= i < |tried| ==> StepAt(i)
    }

    ghost predicate StepAt(i: nat)
      requires |orders| == |ok| == |tried| == |states| - 1 && i < |tried|
    {
      && Distinct(orders[i])
      && tried[i] == Attempts(Prune(states[i], base + i + 1), base + i + 1, want, orders[i])
      && states[i + 1] == KindPeriod(states[i], base + i + 1, want, orders[i], ok[i])
    }

    function Item(y: Uuid): ItemTrace
      requires |tried| == |ok|
    {
      ItemTrace(base, seq(|states|, i requires 0 <= i < |states| => Lookup(states[i], y)),
                seq(|tried|, i requires 0 <= i < |tried| => y in tried[i]),
                seq(|tried|, i requires 0 <= i < |tried| => ok[i](y)))
    }
  }

  /** Every start, order and outcome has its run: nothing below is vacuous. */
  lemma {:induction false} RunExists(base: nat, want: nat, start: map<Uuid, Hold>, orders: seq<seq<Uuid>>, ok: seq<Uuid -> bool>)
    returns (run: Run)
    requires |orders| == |ok| && forall i :: 0 <= i < |orders| ==> Distinct(orders[i])
    ensures run.Valid() && run.base == base && run.want == want && run.orders == orders && run.ok == ok
    ensures run.states[0] == start
  {
    hide KindPeriod, Attempts, Prune, Distinct;
    if orders == [] {
      run := Run(base, want, orders, ok, [start], []);
    } else {
      var n := |orders| - 1;
      var before := RunExists(base, want, start, orders[..n], ok[..n]);
      var last := before.states[n];
      run := Run(base, want, orders, ok,
                 before.states + [KindPeriod(last, base + n + 1, want, orders[n], ok[n])],
                 before.tried + [Attempts(Prune(last, base + n + 1), base + n + 1, want, orders[n])]);
      RunGrows(before, run);
    }
  }

  lemma RunGrows(before: Run, run: Run)
    requires before.Valid() && run.base == before.base && run.want == before.want
    requires |run.orders| == |run.ok| == |run.tried| == |run.states| - 1 == |before.tried| + 1
    requires before.orders == run.orders[..|before.tried|] && before.ok == run.ok[..|before.tried|]
    requires before.tried == run.tried[..|before.tried|] && before.states == run.states[..|before.tried| + 1]
    requires run.StepAt(|before.tried|)
    ensures run.Valid()
  {
    hide KindPeriod, Attempts, Prune, Distinct;
    forall i: nat | i < |run.tried| ensures run.StepAt(i) {
      if i < |before.tried| {
        assert before.StepAt(i);
      }
    }
  }

  lemma ItemStep(run: Run, y: Uuid, i: nat)
    requires run.Valid() && i < |run.tried|
    ensures var t := run.Item(y);
            t.records[i + 1] == StepHold(t.records[i], t.tried[i], t.ok[i], run.base + i + 1)
            && (t.tried[i] ==> !t.HeldIn(i))
  {
    assert run.StepAt(i);
    PeriodLookup(run.states[i], run.base + i + 1, run.want, run.orders[i], run.ok[i], y);
    AttemptsAreFreeAndDistinct(Prune(run.states[i], run.base + i + 1), run.base + i + 1, run.want, run.orders[i]);
  }

  /** Every item of every run follows the one-item rules above. */
  lemma ItemIsValid(run: Run, y: Uuid)
    requires run.Valid()
    ensures run.Item(y).Valid()
  {
    forall i | 0 <= i < |run.tried| ensures run.Item(y).StepAt(i) {
      ItemStep(run, y, i);
    }
  }

  // ── Starvation ──────────────────────────────────────────────────────────

  /** How often each of `ys` was attempted, and how often it succeeded. */
  function TotalTries(run: Run, ys: seq<Uuid>, n: nat): nat
    requires n <= |run.tried| == |run.ok|
  {
    if ys == [] then 0 else Count(run.Item(ys[0]).tried, n) + TotalTries(run, ys[1..], n)
  }

  function TotalWins(run: Run, ys: seq<Uuid>): nat
    requires |run.tried| == |run.ok|
  {
    if ys == [] then 0
    else CountBoth(run.Item(ys[0]).tried, run.Item(ys[0]).ok, |run.tried|) + TotalWins(run, ys[1..])
  }

  lemma {:induction false} TotalBudget(run: Run, ys: seq<Uuid>)
    requires run.Valid() && |run.tried| > 0
    ensures 30 * TotalTries(run, ys, |run.tried|) <= |ys| * (|run.tried| + 143) + 174 * TotalWins(run, ys)
  {
    if ys != [] {
      TotalBudget(run, ys[1..]);
      ItemIsValid(run, ys[0]);
      SlotsPerItem(run.Item(ys[0]));
      MulStep(|ys| - 1, |run.tried| + 143);
    }
  }

  lemma MulStep(a: int, b: int)
    ensures (a + 1) * b == a * b + b
  {
  }

  /** Everything the definer puts before x comes from `ahead`. */
  ghost predicate OfferedBehind(order: seq<Uuid>, x: Uuid, ahead: seq<Uuid>) {
    exists at :: 0 <= at < |order| && order[at] == x && forall m :: 0 <= m < at ==> order[m] in ahead
  }

  /** x waits through the whole run: offered in every period behind items of
      `ahead` only, not held at the start, never attempted. */
  ghost predicate Waits(run: Run, x: Uuid, ahead: seq<Uuid>) {
    && run.Valid()
    && Distinct(ahead)
    && !run.Item(x).HeldIn(0)
    && forall i :: 0 <= i < |run.tried| ==> x !in run.tried[i] && OfferedBehind(run.orders[i], x, ahead)
  }

  lemma {:induction false} UntriedStaysFree(t: ItemTrace, i: nat)
    requires t.Valid() && i < |t.tried| && !t.HeldIn(0)
    requires forall m :: 0 <= m < |t.tried| ==> !t.tried[m]
    ensures !t.HeldIn(i)
  {
    if i > 0 {
      UntriedStaysFree(t, i - 1);
      assert t.StepAt(i - 1);
    }
  }

  /** Whatever the loop reaches un-held with a slot left is slotted. */
  lemma ReachedIsSlotted(fetched: seq<Uuid>, held: set<Uuid>, want: nat, at: nat)
    requires at < |fetched| && fetched[at] !in held
    requires |Unheld(fetched[..at], held)| < want
    ensures fetched[at] in Slots(fetched, held, want)
  {
    var before := Unheld(fetched[..at], held);
    UnheldStep(fetched, at, held);
    UnheldPrefix(fetched, at + 1, held);
    assert Slots(fetched, held, want)[|before|] == fetched[at];
  }

  /** Of a duplicate-free stretch of the order that holds an un-held x, not
      slotted, everything slotted lies before x. */
  lemma SlotsBefore(fetched: seq<Uuid>, held: set<Uuid>, want: nat, at: nat)
    requires at < |fetched| && fetched[at] !in held
    requires fetched[at] !in Slots(fetched, held, want)
    ensures |Slots(fetched, held, want)| == want
    ensures Slots(fetched, held, want) <= Unheld(fetched[..at], held)
  {
    if |Unheld(fetched[..at], held)| < want {
      ReachedIsSlotted(fetched, held, want, at);
    }
    UnheldPrefix(fetched, at, held);
  }

  /** An un-held item that is offered but not attempted leaves no slot unused:
      all of them went to items before it. */
  lemma PassedOver(holds: map<Uuid, Hold>, now: nat, want: nat, order: seq<Uuid>, x: Uuid, ahead: seq<Uuid>)
    requires Distinct(order) && Distinct(ahead) && OfferedBehind(order, x, ahead)
    requires x !in HeldIds(holds, now) && |ahead| < WORKLIST_DEFINER_MAX
    requires x !in Attempts(holds, now, want, order)
    ensures |Attempts(holds, now, want, order)| == want
    ensures forall y :: y in Attempts(holds, now, want, order) ==> y in ahead
  {
    var at :| 0 <= at < |order| && order[at] == x && forall m :: 0 <= m < at ==> order[m] in ahead;
    var held := HeldIds(holds, now);
    var fetched := Fetch(order, held, want);
    DistinctCardinality(ahead);
    assert |order[..at]| <= |Elements(ahead)| by {
      DistinctWithin(order[..at], Elements(ahead));
    }
    if at < |fetched| {
      SlotsBefore(fetched, held, want, at);
      SlottedIn(fetched[..at], held, want, order, ahead);
    } else {
      assert |fetched| == want + |held|;
      UnheldLength(fetched, held);
      SlottedIn(fetched, held, want, order, ahead);
    }
  }

  lemma SlottedIn(stretch: seq<Uuid>, held: set<Uuid>, want: nat, order: seq<Uuid>, ahead: seq<Uuid>)
    requires stretch <= order && forall m :: 0 <= m < |stretch| ==> order[m] in ahead
    ensures forall y :: y in Unheld(stretch, held) ==> y in ahead
  {
    UnheldMeaning(stretch, held);
    forall y | y in Unheld(stretch, held) ensures y in ahead {
      var m :| 0 <= m < |stretch| && stretch[m] == y;
      assert order[m] == y;
    }
  }

  function CountIn(ys: seq<Uuid>, tried: set<Uuid>): nat {
    if ys == [] then 0 else (if ys[0] in tried then 1 else 0) + CountIn(ys[1..], tried)
  }

  lemma {:induction false} CountInAll(ys: seq<Uuid>, tried: set<Uuid>)
    requires Distinct(ys) && forall y :: y in tried ==> y in ys
    ensures CountIn(ys, tried) == |tried|
  {
    if ys == [] {
      assert tried == {};
    } else {
      CountInWithout(ys[1..], tried, ys[0]);
      CountInAll(ys[1..], tried - {ys[0]});
    }
  }

  lemma {:induction false} CountInWithout(ys: seq<Uuid>, tried: set<Uuid>, x: Uuid)
    requires x !in ys
    ensures CountIn(ys, tried) == CountIn(ys, tried - {x})
  {
    if ys != [] {
      CountInWithout(ys[1..], tried, x);
    }
  }

  lemma {:induction false} TriesAddUp(run: Run, ys: seq<Uuid>, i: nat)
    requires |run.tried| == |run.ok| && i < |run.tried|
    ensures TotalTries(run, ys, i + 1) == TotalTries(run, ys, i) + CountIn(ys, Elements(run.tried[i]))
  {
    if ys != [] {
      TriesAddUp(run, ys[1..], i);
      var mine := run.Item(ys[0]).tried;
      assert mine[i] == (ys[0] in run.tried[i]);
      assert Count(mine, i + 1) == Count(mine, i) + if mine[i] then 1 else 0;
    }
  }

  lemma {:induction false} NoTriesYet(run: Run, ys: seq<Uuid>)
    requires |run.tried| == |run.ok|
    ensures TotalTries(run, ys, 0) == 0
  {
    if ys != [] {
      NoTriesYet(run, ys[1..]);
    }
  }

  lemma WaiterIsFree(run: Run, x: Uuid, ahead: seq<Uuid>, i: nat)
    requires Waits(run, x, ahead) && i < |run.tried|
    ensures x !in HeldIds(Prune(run.states[i], run.base + i + 1), run.base + i + 1)
  {
    ItemIsValid(run, x);
    UntriedStaysFree(run.Item(x), i);
    assert run.Item(x).records[i] == Lookup(run.states[i], x);
  }

  /** While x waits, every period spends all its slots on items ahead of it. */
  lemma SlotsSpentAhead(run: Run, x: Uuid, ahead: seq<Uuid>, i: nat)
    requires Waits(run, x, ahead) && |ahead| < WORKLIST_DEFINER_MAX && i < |run.tried|
    ensures CountIn(ahead, Elements(run.tried[i])) == run.want
  {
    hide KindPeriod, Attempts, CountIn, HeldIds, OfferedBehind, Prune;
    var now := run.base + i + 1;
    var kept := Prune(run.states[i], now);
    assert run.StepAt(i);
    WaiterIsFree(run, x, ahead, i);
    PassedOver(kept, now, run.want, run.orders[i], x, ahead);
    AttemptsAreFreeAndDistinct(kept, now, run.want, run.orders[i]);
    DistinctCardinality(run.tried[i]);
    CountInAll(ahead, Elements(run.tried[i]));
  }

  lemma OnePeriodOfWaiting(run: Run, x: Uuid, ahead: seq<Uuid>, i: nat)
    requires Waits(run, x, ahead) && |ahead| < WORKLIST_DEFINER_MAX && i < |run.tried|
    ensures TotalTries(run, ahead, i + 1) == TotalTries(run, ahead, i) + run.want
  {
    SlotsSpentAhead(run, x, ahead, i);
    TriesAddUp(run, ahead, i);
  }

  lemma {:induction false} AllSlotsSpentAhead(run: Run, x: Uuid, ahead: seq<Uuid>, n: nat)
    requires Waits(run, x, ahead) && |ahead| < WORKLIST_DEFINER_MAX && n <= |run.tried|
    ensures TotalTries(run, ahead, n) == n * run.want
  {
    if n == 0 {
      NoTriesYet(run, ahead);
    } else {
      AllSlotsSpentAhead(run, x, ahead, n - 1);
      OnePeriodOfWaiting(run, x, ahead, n - 1);
      MulStep(n - 1, run.want);
    }
  }

  /** Starvation freedom, in general: the time an offered, un-held item waits
      is paid for by the items ahead of it, each of which can pay only for
      about 1/30 of it, and by their successes. */
  lemma WaitingIsPaidFor(run: Run, x: Uuid, ahead: seq<Uuid>)
    requires Waits(run, x, ahead) && |ahead| < WORKLIST_DEFINER_MAX && |run.tried| > 0
    ensures 30 * (|run.tried| * run.want) <= |ahead| * (|run.tried| + 143) + 174 * TotalWins(run, ahead)
  {
    AllSlotsSpentAhead(run, x, ahead, |run.tried|);
    TotalBudget(run, ahead);
  }

  ghost predicate AlwaysFails(run: Run, y: Uuid) {
    forall i :: 0 <= i < |run.ok| ==> !run.ok[i](y)
  }

  lemma {:induction false} NoWins(run: Run, ys: seq<Uuid>)
    requires |run.tried| == |run.ok| && forall y :: y in ys ==> AlwaysFails(run, y)
    ensures TotalWins(run, ys) == 0
  {
    if ys != [] {
      assert ys[0] in ys;
      NoWinsOf(run.Item(ys[0]), |run.tried|);
      forall y | y in ys[1..] ensures AlwaysFails(run, y) {
        assert y in ys;
      }
      NoWins(run, ys[1..]);
    }
  }

  lemma {:induction false} NoWinsOf(t: ItemTrace, n: nat)
    requires n <= |t.tried| == |t.ok| && forall i :: 0 <= i < |t.ok| ==> !t.ok[i]
    ensures CountBoth(t.tried, t.ok, n) == 0
  {
    if n > 0 {
      NoWinsOf(t, n - 1);
    }
  }

  /** Starvation freedom with the shipped constants: behind at most 999 items
      that all fail whenever they are attempted, an offered, un-held item waits
      at most 285 periods; behind at most 949, at most 246. */
  lemma NoStarvation(run: Run, x: Uuid, ahead: seq<Uuid>)
    requires run.want == WORKLIST_LIMIT
    requires Waits(run, x, ahead) && |ahead| < WORKLIST_DEFINER_MAX
    requires forall y :: y in ahead ==> AlwaysFails(run, y)
    ensures |run.tried| <= 285
    ensures |ahead| <= 949 ==> |run.tried| <= 246
  {
    var n := |run.tried|;
    if n > 0 {
      WaitingIsPaidFor(run, x, ahead);
      NoWins(run, ahead);
      MulMono(|ahead|, 999, n + 143);
      if |ahead| <= 949 {
        MulMono(|ahead|, 949, n + 143);
      }
    }
  }

  // ── Past the definer's bound ────────────────────────────────────────────

  /** What lies a thousand places down the definer's order is never fetched. */
  lemma NeverFetched(holds: map<Uuid, Hold>, now: nat, want: nat, order: seq<Uuid>, at: nat)
    requires Distinct(order) && WORKLIST_DEFINER_MAX <= at < |order|
    ensures order[at] !in Attempts(holds, now, want, order)
  {
    var held := HeldIds(holds, now);
    var fetched := Fetch(order, held, want);
    UnheldMeaning(fetched, held);
    assert forall k :: 0 <= k < |fetched| ==> fetched[k] != order[at];
    assert order[at] !in Unheld(fetched, held);
  }

  ghost predicate FarDown(order: seq<Uuid>, x: Uuid) {
    exists at :: WORKLIST_DEFINER_MAX <= at < |order| && order[at] == x
  }

  /** An item that stays a thousand places down is never attempted, however
      long the run, whatever the items ahead of it do. */
  lemma StarvedBeyondTheBound(run: Run, x: Uuid)
    requires run.Valid()
    requires forall i :: 0 <= i < |run.tried| ==> FarDown(run.orders[i], x)
    ensures forall i :: 0 <= i < |run.tried| ==> x !in run.tried[i]
  {
    forall i | 0 <= i < |run.tried| ensures x !in run.tried[i] {
      assert run.StepAt(i);
      var at :| WORKLIST_DEFINER_MAX <= at < |run.orders[i]| && run.orders[i][at] == x;
      NeverFetched(Prune(run.states[i], run.base + i + 1), run.base + i + 1, run.want, run.orders[i], at);
    }
  }

  /** Behind a thousand items that all keep failing an item can wait for any
      number of periods. */
  lemma StarvationForEver(ahead: seq<Uuid>, x: Uuid, n: nat) returns (run: Run)
    requires Distinct(ahead) && x !in ahead && |ahead| >= WORKLIST_DEFINER_MAX
    ensures run.want == WORKLIST_LIMIT && |run.tried| == n && Waits(run, x, ahead)
    ensures forall y :: y in ahead ==> AlwaysFails(run, y)
  {
    var order := ahead + [x];
    assert Distinct(order);
    var orders := seq(n, i => order);
    var ok := seq(n, i => (y: Uuid) => false);
    run := RunExists(0, WORKLIST_LIMIT, map[], orders, ok);
    forall i | 0 <= i < |run.tried| ensures FarDown(run.orders[i], x) && OfferedBehind(run.orders[i], x, ahead) {
      assert order[|ahead|] == x;
    }
    StarvedBeyondTheBound(run, x);
  }

  ghost predicate WaitsAtMost(ahead: seq<Uuid>, x: Uuid, bound: nat) {
    forall run: Run :: run.want == WORKLIST_LIMIT && Waits(run, x, ahead) && (forall y :: y in ahead ==> AlwaysFails(run, y))
      ==> |run.tried| <= bound
  }

  /** The exact condition of starvation freedom: behind items that keep failing
      the wait of an un-held item is bounded if and only if fewer than the
      definer's thousand are ahead of it. */
  lemma StarvationFreeIff(ahead: seq<Uuid>, x: Uuid)
    requires Distinct(ahead) && x !in ahead
    ensures (exists bound :: WaitsAtMost(ahead, x, bound)) <==> |ahead| < WORKLIST_DEFINER_MAX
  {
    hide Waits, AlwaysFails;
    if |ahead| < WORKLIST_DEFINER_MAX {
      forall run: Run | run.want == WORKLIST_LIMIT && Waits(run, x, ahead) && (forall y :: y in ahead ==> AlwaysFails(run, y))
        ensures |run.tried| <= 285
      {
        NoStarvation(run, x, ahead);
      }
      assert WaitsAtMost(ahead, x, 285);
    } else {
      forall bound: nat ensures !WaitsAtMost(ahead, x, bound) {
        var run := StarvationForEver(ahead, x, bound + 1);
      }
    }
  }

  lemma MulMono(a: nat, b: nat, c: nat)
    requires a <= b
    ensures a * c <= b * c
  {
  }
}
