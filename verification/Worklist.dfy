/** The worker's owner worklist (crates/episcience-api/src/jobs/worker.rs): the
    per-item backoff, one worklist period, and what they guarantee over runs. */
module Worklist {
  import opened Base

  const WORKLIST_LIMIT := 50
  const WORKLIST_DEFINER_MAX := 1000
  const WORKLIST_MAX_HOLD_PERIODS := 64
  const U32_MAX := 0xFFFF_FFFF

  datatype WorklistKind = Stage6Pending | StalenessCheck

  function Other(kind: WorklistKind): WorklistKind {
    match kind
    case Stage6Pending => StalenessCheck
    case StalenessCheck => Stage6Pending
  }

  datatype Key = Key(kind: WorklistKind, id: Uuid)

  type SkipCount = n: int | 1 <= n <= U32_MAX witness 1

  datatype Hold = Hold(skips: SkipCount, eligibleAt: nat)

  /** What attempting one item came to. */
  datatype ItemOutcome = Advanced(stale: bool, deferred: nat) | Refused

  datatype WorklistReport = WorklistReport(
    edgesWritten: nat, edgesDeferred: nat, rechecked: nat,
    markedStale: nat, skipped: nat, heldBack: nat)

  const EMPTY_REPORT := WorklistReport(0, 0, 0, 0, 0, 0)

  // ── The backoff, as functions on its record map ─────────────────────────

  function Pow2(e: nat): (p: nat)
    ensures p >= 1
  {
    if e == 0 then 1 else 2 * Pow2(e - 1)
  }

  /** The shift the code computes: exponent cut at 6, result cut at the cap. */
  function HoldPeriods(skips: SkipCount): nat {
    Min(Pow2(Min(skips - 1, 6)), WORKLIST_MAX_HOLD_PERIODS)
  }

  /** Cutting the exponent loses nothing: the hold is the doubling sequence
      2^(skips-1), capped. */
  lemma HoldDoublesUpToTheCap(skips: SkipCount)
    ensures HoldPeriods(skips) == Min(Pow2(skips - 1), WORKLIST_MAX_HOLD_PERIODS)
    ensures 1 <= HoldPeriods(skips) <= WORKLIST_MAX_HOLD_PERIODS
  {
    SmallPowers();
    if skips > 7 {
      PowGrows(6, skips - 1);
    }
  }

  lemma SmallPowers()
    ensures Pow2(0) == 1 && Pow2(1) == 2 && Pow2(2) == 4 && Pow2(3) == 8
    ensures Pow2(4) == 16 && Pow2(5) == 32 && Pow2(6) == 64
  {
    assert Pow2(3) == 8;
    assert Pow2(5) == 32;
  }

  lemma {:induction false} PowGrows(a: nat, b: nat)
    requires a <= b
    ensures Pow2(a) <= Pow2(b)
  {
    if a < b {
      PowGrows(a, b - 1);
    }
  }

  function Prune<K>(holds: map<K, Hold>, now: nat): map<K, Hold> {
    map k | k in holds && holds[k].eligibleAt + 2 * WORKLIST_MAX_HOLD_PERIODS > now :: holds[k]
  }

  function NextCount<K>(holds: map<K, Hold>, k: K): SkipCount {
    if k in holds then Min(holds[k].skips + 1, U32_MAX) else 1
  }

  function RecordSkip<K>(holds: map<K, Hold>, k: K, period: nat): map<K, Hold> {
    var n := NextCount(holds, k);
    holds[k := Hold(n, period + 1 + HoldPeriods(n))]
  }

  function RecordSuccess<K>(holds: map<K, Hold>, k: K): map<K, Hold> {
    holds - {k}
  }

  function HeldIds(holds: map<Uuid, Hold>, period: nat): set<Uuid> {
    set id | id in holds && holds[id].eligibleAt > period
  }

  /** The records of one kind. */
  function OfKind(holds: map<Key, Hold>, kind: WorklistKind): map<Uuid, Hold> {
    map id | id in (set k | k in holds && k.kind == kind :: k.id) :: holds[Key(kind, id)]
  }

  lemma OfKindLookup(holds: map<Key, Hold>, kind: WorklistKind, id: Uuid)
    ensures id in OfKind(holds, kind) <==> Key(kind, id) in holds
    ensures id in OfKind(holds, kind) ==> OfKind(holds, kind)[id] == holds[Key(kind, id)]
  {
    if Key(kind, id) in holds {
      assert Key(kind, id).id in (set k | k in holds && k.kind == kind :: k.id);
    }
  }

  // ── One kind's share of a period, as functions ──────────────────────────

  function Unheld(s: seq<Uuid>, held: set<Uuid>): seq<Uuid> {
    if s == [] then []
    else
      var rest := Unheld(s[..|s| - 1], held);
      if s[|s| - 1] in held then rest else rest + [s[|s| - 1]]
  }

  /** The items that get a slot: the first `want` that are not held. */
  function Slots(offered: seq<Uuid>, held: set<Uuid>, want: nat): seq<Uuid> {
    var u := Unheld(offered, held);
    u[..Min(want, |u|)]
  }

  /** How much of the definer's order is fetched. */
  function Fetch(order: seq<Uuid>, held: set<Uuid>, want: nat): seq<Uuid> {
    order[..Min(|order|, Min(want + |held|, WORKLIST_DEFINER_MAX))]
  }

  function SettleItem(holds: map<Uuid, Hold>, id: Uuid, ok: bool, period: nat): map<Uuid, Hold> {
    if ok then RecordSuccess(holds, id) else RecordSkip(holds, id, period)
  }

  /** The records after the items of `tried` were attempted, in order. */
  function Settle(holds: map<Uuid, Hold>, tried: seq<Uuid>, ok: Uuid -> bool, period: nat): map<Uuid, Hold> {
    if tried == [] then holds
    else
      var id := tried[|tried| - 1];
      SettleItem(Settle(holds, tried[..|tried| - 1], ok, period), id, ok(id), period)
  }

  /** What is attempted in a period that starts, already pruned, in `holds`. */
  function Attempts(holds: map<Uuid, Hold>, now: nat, want: nat, order: seq<Uuid>): seq<Uuid> {
    var held := HeldIds(holds, now);
    Slots(Fetch(order, held, want), held, want)
  }

  /** One kind's records across one whole period. */
  function KindPeriod(holds: map<Uuid, Hold>, now: nat, want: nat, order: seq<Uuid>, ok: Uuid -> bool): map<Uuid, Hold> {
    var kept := Prune(holds, now);
    Settle(kept, Attempts(kept, now, want, order), ok, now)
  }

  /** A period of one kind, the definer call included: when it fails only the
      pruning happened. */
  function PeriodOf(holds: map<Uuid, Hold>, now: nat, want: nat, order: Option<seq<Uuid>>, ok: Uuid -> bool): map<Uuid, Hold> {
    match order
    case None => Prune(holds, now)
    case Some(order) => KindPeriod(holds, now, want, order, ok)
  }

  function TallyItem(report: WorklistReport, kind: WorklistKind, outcome: ItemOutcome): WorklistReport {
    match outcome
    case Refused => report.(skipped := report.skipped + 1)
    case Advanced(stale, deferred) =>
      match kind
      case Stage6Pending =>
        report.(edgesWritten := report.edgesWritten + 1, edgesDeferred := report.edgesDeferred + deferred)
      case StalenessCheck =>
        report.(rechecked := report.rechecked + 1,
                markedStale := report.markedStale + if stale then 1 else 0)
  }

  function Tally(report: WorklistReport, kind: WorklistKind, tried: seq<Uuid>, outcome: (WorklistKind, Uuid) -> ItemOutcome): WorklistReport {
    if tried == [] then report
    else TallyItem(Tally(report, kind, tried[..|tried| - 1], outcome), kind, outcome(kind, tried[|tried| - 1]))
  }

  /** The held items met before the loop stops: at the end, or at the first
      un-held item once the slots are used up. */
  function HeldSeen(offered: seq<Uuid>, from: nat, held: set<Uuid>, want: nat): nat
    decreases |offered| - from
  {
    if from >= |offered| then 0
    else if offered[from] in held then 1 + HeldSeen(offered, from + 1, held, want)
    else if want == 0 then 0
    else HeldSeen(offered, from + 1, held, want - 1)
  }

  function AddHeldBack(report: WorklistReport, n: nat): WorklistReport {
    report.(heldBack := report.heldBack + n)
  }

  function KindReport(start: WorklistReport, kind: WorklistKind, holds: map<Uuid, Hold>, now: nat, want: nat,
                      order: seq<Uuid>, outcome: (WorklistKind, Uuid) -> ItemOutcome): WorklistReport {
    var held := HeldIds(holds, now);
    AddHeldBack(Tally(start, kind, Attempts(holds, now, want, order), outcome),
                HeldSeen(Fetch(order, held, want), 0, held, want))
  }

  // ── The imperative worker ───────────────────────────────────────────────

  class WorklistBackoff {
    var period: nat
    var holds: map<Key, Hold>

    constructor ()
      ensures period == 0 && holds == map[]
    {
      period, holds := 0, map[];
    }

    method BeginPeriod() returns (now: nat)
      modifies this
      ensures now == period == old(period) + 1
      ensures holds == Prune(old(holds), now)
    {
      period := period + 1;
      now := period;
      holds := map k | k in holds && holds[k].eligibleAt + 2 * WORKLIST_MAX_HOLD_PERIODS > now :: holds[k];
    }

    method Held(kind: WorklistKind, now: nat) returns (held: set<Uuid>)
      ensures held == HeldIds(OfKind(holds, kind), now)
    {
      held := set k | k in holds && k.kind == kind && holds[k].eligibleAt > now :: k.id;
      forall id ensures id in held <==> id in HeldIds(OfKind(holds, kind), now) {
        OfKindLookup(holds, kind, id);
        if Key(kind, id) in holds && holds[Key(kind, id)].eligibleAt > now {
          assert Key(kind, id).id in held;
        }
      }
    }

    method Skipped(kind: WorklistKind, id: Uuid, now: nat) returns (skips: SkipCount)
      modifies this`holds
      ensures holds == RecordSkip(old(holds), Key(kind, id), now)
      ensures skips == holds[Key(kind, id)].skips
    {
      var key := Key(kind, id);
      skips := 1;
      if key in holds {
        skips := if holds[key].skips < U32_MAX then holds[key].skips + 1 else U32_MAX;
      }
      holds := holds[key := Hold(skips, now + 1 + HoldPeriods(skips))];
    }

    method Succeeded(kind: WorklistKind, id: Uuid)
      modifies this`holds
      ensures holds == RecordSuccess(old(holds), Key(kind, id))
    {
      holds := map k | k in holds && k != Key(kind, id) :: holds[k];
    }
  }

  lemma OfKindAfterSkip(holds: map<Key, Hold>, kind: WorklistKind, id: Uuid, now: nat, k: WorklistKind)
    ensures OfKind(RecordSkip(holds, Key(kind, id), now), k)
         == if k == kind then RecordSkip(OfKind(holds, k), id, now) else OfKind(holds, k)
  {
    var after := RecordSkip(holds, Key(kind, id), now);
    OfKindLookup(holds, kind, id);
    forall i ensures i in OfKind(after, k) <==> Key(k, i) in after
             ensures i in OfKind(holds, k) <==> Key(k, i) in holds {
      OfKindLookup(after, k, i);
      OfKindLookup(holds, k, i);
    }
  }

  lemma OfKindAfterSuccess(holds: map<Key, Hold>, kind: WorklistKind, id: Uuid, k: WorklistKind)
    ensures OfKind(RecordSuccess(holds, Key(kind, id)), k)
         == if k == kind then RecordSuccess(OfKind(holds, k), id) else OfKind(holds, k)
  {
    var after := RecordSuccess(holds, Key(kind, id));
    forall i ensures i in OfKind(after, k) <==> Key(k, i) in after
             ensures i in OfKind(holds, k) <==> Key(k, i) in holds {
      OfKindLookup(after, k, i);
      OfKindLookup(holds, k, i);
    }
  }

  lemma OfKindAfterPrune(holds: map<Key, Hold>, now: nat, k: WorklistKind)
    ensures OfKind(Prune(holds, now), k) == Prune(OfKind(holds, k), now)
  {
    forall i ensures i in OfKind(Prune(holds, now), k) <==> Key(k, i) in Prune(holds, now)
             ensures i in OfKind(holds, k) <==> Key(k, i) in holds {
      OfKindLookup(Prune(holds, now), k, i);
      OfKindLookup(holds, k, i);
    }
  }

  function Ok(outcome: (WorklistKind, Uuid) -> ItemOutcome, kind: WorklistKind): Uuid -> bool {
    (id: Uuid) => outcome(kind, id).Advanced?
  }

  class Worker {
    const backoff: WorklistBackoff

    constructor (backoff: WorklistBackoff)
      ensures this.backoff == backoff
    {
      this.backoff := backoff;
    }

    /** One slot: attempt the item and record how it went. The other kind's
        records are not touched. */
    method Attempt(kind: WorklistKind, id: Uuid, now: nat, outcome: ItemOutcome)
      modifies backoff`holds
      ensures OfKind(backoff.holds, kind) == SettleItem(old(OfKind(backoff.holds, kind)), id, outcome.Advanced?, now)
      ensures OfKind(backoff.holds, Other(kind)) == old(OfKind(backoff.holds, Other(kind)))
    {
      ghost var was := backoff.holds;
      match outcome {
        case Advanced(_, _) =>
          backoff.Succeeded(kind, id);
          OfKindAfterSuccess(was, kind, id, kind);
          OfKindAfterSuccess(was, kind, id, Other(kind));
        case Refused =>
          var _ := backoff.Skipped(kind, id, now);
          OfKindAfterSkip(was, kind, id, now, kind);
          OfKindAfterSkip(was, kind, id, now, Other(kind));
      }
    }

    /** The slot loop of one kind over the items the definer offered. */
    method RunKind(kind: WorklistKind, offered: seq<Uuid>, held: set<Uuid>, want: nat, now: nat,
                   outcome: (WorklistKind, Uuid) -> ItemOutcome, start: WorklistReport)
      returns (report: WorklistReport)
      modifies backoff`holds
      ensures OfKind(backoff.holds, kind)
           == Settle(old(OfKind(backoff.holds, kind)), Slots(offered, held, want), Ok(outcome, kind), now)
      ensures OfKind(backoff.holds, Other(kind)) == old(OfKind(backoff.holds, Other(kind)))
      ensures report == AddHeldBack(Tally(start, kind, Slots(offered, held, want), outcome), HeldSeen(offered, 0, held, want))
    {
      hide Settle, SettleItem, Tally, TallyItem, OfKind, HeldSeen;
      var tally, heldBack := start, 0;
      var attempted, i := 0, 0;
      ghost var done: seq<Uuid> := [];
      ghost var mine, others := OfKind(backoff.holds, kind), OfKind(backoff.holds, Other(kind));
      NothingSettledYet(mine, start, kind, outcome, now);
      while i < |offered|
        invariant 0 <= i <= |offered|
        invariant done == Unheld(offered[..i], held)
        invariant attempted == |done| <= want
        invariant tally == Tally(start, kind, done, outcome)
        invariant heldBack == i - attempted
        invariant OfKind(backoff.holds, kind) == Settle(mine, done, Ok(outcome, kind), now)
        invariant OfKind(backoff.holds, Other(kind)) == others
      {
        var id := offered[i];
        UnheldStep(offered, i, held);
        if id in held {
          heldBack := heldBack + 1;
        } else {
          if attempted == want {
            break;
          }
          attempted := attempted + 1;
          Attempt(kind, id, now, outcome(kind, id));
          tally := TallyItem(tally, kind, outcome(kind, id));
          SettleStep(mine, done, id, Ok(outcome, kind), now);
          TallyStep(start, kind, done, id, outcome);
          done := done + [id];
        }
        i := i + 1;
      }
      LoopStopsFull(offered, i, held, want);
      report := AddHeldBack(tally, heldBack);
    }

    /** Ask the definer for one kind's items and give out the slots. */
    method ServeKind(kind: WorklistKind, want: nat, now: nat, order: seq<Uuid>,
                     outcome: (WorklistKind, Uuid) -> ItemOutcome, start: WorklistReport)
      returns (report: WorklistReport)
      modifies backoff`holds
      ensures OfKind(backoff.holds, kind)
           == Settle(old(OfKind(backoff.holds, kind)), Attempts(old(OfKind(backoff.holds, kind)), now, want, order), Ok(outcome, kind), now)
      ensures OfKind(backoff.holds, Other(kind)) == old(OfKind(backoff.holds, Other(kind)))
      ensures report == KindReport(start, kind, old(OfKind(backoff.holds, kind)), now, want, order, outcome)
    {
      var held := backoff.Held(kind, now);
      var offered := order[..Min(|order|, Min(want + |held|, WORKLIST_DEFINER_MAX))];
      report := RunKind(kind, offered, held, want, now, outcome, start);
    }

    /** One worklist period. `queue(kind)` is the order the definer would
        return for the kind, or None when the call fails, which ends the
        period there. */
    method RunWorklist(limit: int, queue: WorklistKind -> Option<seq<Uuid>>,
                       outcome: (WorklistKind, Uuid) -> ItemOutcome)
      returns (report: Option<WorklistReport>)
      modifies backoff
      ensures backoff.period == old(backoff.period) + 1
      ensures report.Some? <==> queue(Stage6Pending).Some? && queue(StalenessCheck).Some?
      ensures report.Some? ==> report.value == KindReport(
        KindReport(EMPTY_REPORT, Stage6Pending, Prune(old(OfKind(backoff.holds, Stage6Pending)), backoff.period),
                   backoff.period, Max(limit, 1), queue(Stage6Pending).value, outcome),
        StalenessCheck, Prune(old(OfKind(backoff.holds, StalenessCheck)), backoff.period),
        backoff.period, Max(limit, 1), queue(StalenessCheck).value, outcome)
      ensures OfKind(backoff.holds, Stage6Pending)
           == PeriodOf(old(OfKind(backoff.holds, Stage6Pending)), backoff.period, Max(limit, 1),
                       queue(Stage6Pending), Ok(outcome, Stage6Pending))
      ensures OfKind(backoff.holds, StalenessCheck)
           == PeriodOf(old(OfKind(backoff.holds, StalenessCheck)), backoff.period, Max(limit, 1),
                       if queue(Stage6Pending).Some? then queue(StalenessCheck) else None, Ok(outcome, StalenessCheck))
    {
      ghost var start := backoff.holds;
      var now := backoff.BeginPeriod();
      OfKindAfterPrune(start, now, Stage6Pending);
      OfKindAfterPrune(start, now, StalenessCheck);
      var want := Max(limit, 1);
      var tally := EMPTY_REPORT;
      match queue(Stage6Pending) {
        case None => return None;
        case Some(order) => tally := ServeKind(Stage6Pending, want, now, order, outcome, tally);
      }
      match queue(StalenessCheck) {
        case None => return None;
        case Some(order) => tally := ServeKind(StalenessCheck, want, now, order, outcome, tally);
      }
      report := Some(tally);
    }
  }

  // ── Facts about the slots ───────────────────────────────────────────────

  /** Filtering a prefix gives a prefix of the filtered sequence. */
  lemma {:induction false} UnheldPrefix(s: seq<Uuid>, i: nat, held: set<Uuid>)
    requires i <= |s|
    ensures Unheld(s[..i], held) <= Unheld(s, held)
    decreases |s|
  {
    if i == |s| {
      assert s[..i] == s;
    } else {
      var n := |s| - 1;
      assert s[..n][..i] == s[..i];
      UnheldPrefix(s[..n], i, held);
    }
  }

  lemma UnheldStep(s: seq<Uuid>, i: nat, held: set<Uuid>)
    requires i < |s|
    ensures Unheld(s[..i + 1], held)
         == if s[i] in held then Unheld(s[..i], held) else Unheld(s[..i], held) + [s[i]]
  {
    assert s[..i + 1][..i] == s[..i];
  }

  lemma {:induction false} HeldSeenSoFar(offered: seq<Uuid>, i: nat, held: set<Uuid>, want: nat)
    requires i <= |offered| && |Unheld(offered[..i], held)| <= want
    ensures HeldSeen(offered, 0, held, want)
         == i - |Unheld(offered[..i], held)| + HeldSeen(offered, i, held, want - |Unheld(offered[..i], held)|)
  {
    if i > 0 {
      UnheldStep(offered, i - 1, held);
      HeldSeenSoFar(offered, i - 1, held, want);
    }
  }

  /** Where the slot loop stops, the slots are given out. */
  lemma LoopStopsFull(offered: seq<Uuid>, i: nat, held: set<Uuid>, want: nat)
    requires i <= |offered| && |Unheld(offered[..i], held)| <= want
    requires i < |offered| ==> offered[i] !in held && |Unheld(offered[..i], held)| == want
    ensures Slots(offered, held, want) == Unheld(offered[..i], held)
    ensures HeldSeen(offered, 0, held, want) == i - |Unheld(offered[..i], held)|
  {
    HeldSeenSoFar(offered, i, held, want);
    UnheldPrefix(offered, i, held);
    if i == |offered| {
      assert offered[..i] == offered;
    }
  }

  lemma NothingSettledYet(holds: map<Uuid, Hold>, start: WorklistReport, kind: WorklistKind,
                          outcome: (WorklistKind, Uuid) -> ItemOutcome, now: nat)
    ensures Settle(holds, [], Ok(outcome, kind), now) == holds
    ensures Tally(start, kind, [], outcome) == start
  {
  }

  lemma SettleStep(holds: map<Uuid, Hold>, tried: seq<Uuid>, id: Uuid, ok: Uuid -> bool, now: nat)
    ensures Settle(holds, tried + [id], ok, now) == SettleItem(Settle(holds, tried, ok, now), id, ok(id), now)
  {
    assert (tried + [id])[..|tried|] == tried;
  }

  lemma TallyStep(start: WorklistReport, kind: WorklistKind, tried: seq<Uuid>, id: Uuid,
                  outcome: (WorklistKind, Uuid) -> ItemOutcome)
    ensures Tally(start, kind, tried + [id], outcome)
         == TallyItem(Tally(start, kind, tried, outcome), kind, outcome(kind, id))
  {
    assert (tried + [id])[..|tried|] == tried;
  }

  // ── What the report counts ──────────────────────────────────────────────

  function Number(items: seq<Uuid>, p: Uuid -> bool): nat {
    if items == [] then 0 else Number(items[..|items| - 1], p) + if p(items[|items| - 1]) then 1 else 0
  }

  function Total(items: seq<Uuid>, f: Uuid -> nat): nat {
    if items == [] then 0 else Total(items[..|items| - 1], f) + f(items[|items| - 1])
  }

  /** The report counts, of the items attempted, the refused ones of both
      kinds, and of those that went on: of the first kind how many and the
      edges they deferred, of the second how many and which turned stale. */
  lemma {:induction false} TallyMeans(start: WorklistReport, kind: WorklistKind, tried: seq<Uuid>, outcome: (WorklistKind, Uuid) -> ItemOutcome)
    ensures var r := Tally(start, kind, tried, outcome);
      var advanced := (id: Uuid) => outcome(kind, id).Advanced?;
      && r.heldBack == start.heldBack
      && r.skipped == start.skipped + Number(tried, (id: Uuid) => outcome(kind, id).Refused?)
      && r.edgesWritten == start.edgesWritten + (if kind == Stage6Pending then Number(tried, advanced) else 0)
      && r.edgesDeferred == start.edgesDeferred
           + (if kind == Stage6Pending then Total(tried, (id: Uuid) => if outcome(kind, id).Advanced? then outcome(kind, id).deferred else 0) else 0)
      && r.rechecked == start.rechecked + (if kind == StalenessCheck then Number(tried, advanced) else 0)
      && r.markedStale == start.markedStale
           + (if kind == StalenessCheck then Number(tried, (id: Uuid) => outcome(kind, id).Advanced? && outcome(kind, id).stale) else 0)
  {
    if tried != [] {
      TallyMeans(start, kind, tried[..|tried| - 1], outcome);
    }
  }

  /** The slot loop stops at the end of the offer, or at the first un-held item
      with all slots used. */
  predicate StopsAt(offered: seq<Uuid>, held: set<Uuid>, want: nat, stop: nat) {
    && stop <= |offered| && |Unheld(offered[..stop], held)| <= want
    && (stop < |offered| ==> offered[stop] !in held && |Unheld(offered[..stop], held)| == want)
  }

  /** What is reported as held back are the items the loop met and did not
      attempt. */
  lemma HeldBackMeans(start: WorklistReport, kind: WorklistKind, holds: map<Uuid, Hold>, now: nat, want: nat,
                      order: seq<Uuid>, outcome: (WorklistKind, Uuid) -> ItemOutcome)
    ensures exists stop: nat ::
      StopsAt(Fetch(order, HeldIds(holds, now), want), HeldIds(holds, now), want, stop)
      && KindReport(start, kind, holds, now, want, order, outcome).heldBack
         == start.heldBack + stop - |Attempts(holds, now, want, order)|
    ensures var report := KindReport(start, kind, holds, now, want, order, outcome);
      report == Tally(start, kind, Attempts(holds, now, want, order), outcome).(heldBack := report.heldBack)
  {
    var held := HeldIds(holds, now);
    var offered := Fetch(order, held, want);
    var stop := FindStop(offered, held, want);
    LoopStopsFull(offered, stop, held, want);
    TallyMeans(start, kind, Attempts(holds, now, want, order), outcome);
  }

  lemma FindStop(offered: seq<Uuid>, held: set<Uuid>, want: nat) returns (stop: nat)
    ensures StopsAt(offered, held, want, stop)
  {
    stop := 0;
    while stop < |offered| && (offered[stop] in held || |Unheld(offered[..stop], held)| < want)
      invariant stop <= |offered| && |Unheld(offered[..stop], held)| <= want
    {
      UnheldStep(offered, stop, held);
      stop := stop + 1;
    }
  }
}
