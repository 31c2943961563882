/** What every run of outbox transactions keeps, and when a written claim edge
    is cited (crates/episcience-db/src/repos/synthesis_provo_edges.rs,
    crates/episcience-db/src/synthesis/publish.rs). */
module OutboxRuns {
  import opened Base
  import opened Outbox

  // ── Runs ────────────────────────────────────────────────────────────────

  datatype Tx =
    | Plan(cited: seq<Uuid>, parent: Option<Uuid>, prereqs: seq<Uuid>, owner: Uuid, workflow: Option<Uuid>,
           seen: nat -> set<Uuid>)
    | Write(writer: Writer, order: seq<Edge>)
    | Widen(visible: set<Uuid>)

  ghost predicate Listing(b: Book, w: Writer, order: seq<Edge>) {
    Lists(order, PendingSeen(WithoutUncited(b.rows, w.cited, w.seen(0)), w.seen(2)))
  }

  ghost function Apply(b: Book, tx: Tx): Book {
    match tx
    case Plan(cited, parent, prereqs, owner, workflow, seen) =>
      PlanTx(b, PlanOf(cited, parent, prereqs, owner, workflow), seen)
    case Write(w, order) => if w.publishable && !Listing(b, w, order) then b else WriteTx(b, w, order).0
    case Widen(visible) => b.(rows := Released(b.rows, visible))
  }

  ghost function Run(b: Book, txs: seq<Tx>): Book {
    if txs == [] then b else Apply(Run(b, txs[..|txs| - 1]), txs[|txs| - 1])
  }

  // ── The invariant ───────────────────────────────────────────────────────

  predicate InKernel(kernel: seq<KernelEdge>, e: Edge) {
    exists i :: 0 <= i < |kernel| && kernel[i].edge == e
  }

  /** A written row is not deferred; the kernel edges are exactly the written
      rows, one each, under the recorded id; every row has one of the five
      PROV shapes. */
  ghost predicate Sound(b: Book) {
    && (forall e :: e in b.rows ==> IsShape(e) && (b.rows[e].edgeId.Some? ==> b.rows[e].deferred.None? && InKernel(b.kernel, e)))
    && (forall i, j :: 0 <= i < j < |b.kernel| ==> b.kernel[i].edge != b.kernel[j].edge)
    && (forall i :: 0 <= i < |b.kernel| ==>
          b.kernel[i].edge in b.rows && b.rows[b.kernel[i].edge].edgeId == Some(b.kernel[i].id))
  }

  /** Rows change without touching the written ones, and none appears but in
      a PROV shape. */
  lemma UnwrittenChangesKeepSound(b: Book, rows: map<Edge, OutRow>)
    requires Sound(b)
    requires forall e :: e in b.rows && b.rows[e].edgeId.Some? ==> e in rows && rows[e] == b.rows[e]
    requires forall e :: e in rows ==> IsShape(e) && (rows[e].edgeId.Some? ==> e in b.rows && b.rows[e].edgeId.Some?)
    ensures Sound(b.(rows := rows))
  {
  }

  lemma PlansAreShapes(cited: seq<Uuid>, parent: Option<Uuid>, prereqs: seq<Uuid>, owner: Uuid, workflow: Option<Uuid>)
    ensures forall e :: e in PlanOf(cited, parent, prereqs, owner, workflow) ==> IsShape(e)
  {
  }

  lemma PlanKeepsSound(b: Book, edges: seq<Edge>, seen: nat -> set<Uuid>)
    requires Sound(b) && forall e :: e in edges ==> IsShape(e)
    ensures Sound(PlanTx(b, edges, seen))
    ensures KeepsWritten(b, PlanTx(b, edges, seen))
  {
    hide InKernel, IsShape, Sees;
    UnwrittenChangesKeepSound(b, PlanTx(b, edges, seen).rows);
  }

  /** Writing listed rows: every new kernel edge is of a row not yet written. */
  lemma LoopKeepsSound(b: Book, kept: map<Edge, OutRow>, order: seq<Edge>, n: nat, w: Writer)
    requires Sound(b.(rows := kept)) && n <= |order| && Distinct(order)
    requires forall e :: e in order ==> e in kept && Pending(kept[e])
    ensures Sound(Book(AfterLoop(kept, order, n, w), b.kernel + Logged(order, n, w.cited, w.newId)))
  {
    hide IsShape, Uncited, ErrorFor;
    var t := AfterLoop(kept, order, n, w);
    var kernel := b.kernel + Logged(order, n, w.cited, w.newId);
    forall e | e in t ensures IsShape(e) && (t[e].edgeId.Some? ==> t[e].deferred.None? && InKernel(kernel, e)) {
      if e in order[..n] {
        var i :| 0 <= i < n && order[i] == e;
        assert kernel[|b.kernel| + i].edge == e;
      } else if t[e].edgeId.Some? {
        var i :| 0 <= i < |b.kernel| && b.kernel[i].edge == e;
        assert kernel[i].edge == e;
      }
    }
    LoopKeepsKernel(b, kept, order, n, w);
  }

  lemma LoopKeepsKernel(b: Book, kept: map<Edge, OutRow>, order: seq<Edge>, n: nat, w: Writer)
    requires Sound(b.(rows := kept)) && n <= |order| && Distinct(order)
    requires forall e :: e in order ==> e in kept && Pending(kept[e])
    ensures var t, kernel := AfterLoop(kept, order, n, w), b.kernel + Logged(order, n, w.cited, w.newId);
      forall i :: 0 <= i < |kernel| ==> kernel[i].edge in t && t[kernel[i].edge].edgeId == Some(kernel[i].id)
  {
    hide IsShape, Uncited, ErrorFor, InKernel;
    var t := AfterLoop(kept, order, n, w);
    var kernel := b.kernel + Logged(order, n, w.cited, w.newId);
    forall i | 0 <= i < |kernel| ensures kernel[i].edge in t && t[kernel[i].edge].edgeId == Some(kernel[i].id) {
      if i >= |b.kernel| {
        assert order[i - |b.kernel|] in order[..n];
        LoopEdge(kept, order, n, i - |b.kernel|, w);
      } else {
        assert kernel[i] == b.kernel[i];
        assert kernel[i].edge !in order;
      }
    }
  }

  lemma LoopEdge(kept: map<Edge, OutRow>, order: seq<Edge>, n: nat, i: nat, w: Writer)
    requires i < n <= |order| && Distinct(order) && forall e :: e in order ==> e in kept
    ensures order[i] in AfterLoop(kept, order, n, w)
    ensures AfterLoop(kept, order, n, w)[order[i]].edgeId == Some(w.newId(order[i]))
  {
    assert order[i] in order[..n];
  }

  ghost predicate KeepsWritten(b: Book, t: Book) {
    && b.kernel <= t.kernel
    && forall e :: e in b.rows && b.rows[e].edgeId.Some? ==> e in t.rows && t.rows[e] == b.rows[e]
  }

  lemma DiscardKeepsSound(b: Book, cited: set<Uuid>, seen: set<Uuid>)
    requires Sound(b)
    ensures Sound(b.(rows := WithoutUncited(b.rows, cited, seen)))
    ensures KeepsWritten(b, b.(rows := WithoutUncited(b.rows, cited, seen)))
  {
    hide InKernel, IsShape, Sees, Uncited;
    UnwrittenChangesKeepSound(b, WithoutUncited(b.rows, cited, seen));
  }

  lemma DeferKeepsSound(b: Book, reason: string, seen: set<Uuid>)
    requires Sound(b)
    ensures Sound(b.(rows := Deferred(b.rows, reason, seen)))
    ensures KeepsWritten(b, b.(rows := Deferred(b.rows, reason, seen)))
  {
    hide InKernel, IsShape, Sees;
    UnwrittenChangesKeepSound(b, Deferred(b.rows, reason, seen));
  }

  lemma WidenKeepsSound(b: Book, seen: set<Uuid>)
    requires Sound(b)
    ensures Sound(b.(rows := Released(b.rows, seen)))
    ensures KeepsWritten(b, b.(rows := Released(b.rows, seen)))
  {
    hide InKernel, IsShape, Sees;
    UnwrittenChangesKeepSound(b, Released(b.rows, seen));
  }

  lemma LoopKeepsWritten(b: Book, kept: map<Edge, OutRow>, order: seq<Edge>, n: nat, w: Writer)
    requires KeepsWritten(b, b.(rows := kept)) && n <= |order|
    requires forall e :: e in order ==> e in kept && Pending(kept[e])
    ensures KeepsWritten(b, Book(AfterLoop(kept, order, n, w), b.kernel + Logged(order, n, w.cited, w.newId)))
  {
    hide Logged, ErrorFor;
  }

  lemma PublishedKeepsSound(b: Book, w: Writer, order: seq<Edge>)
    requires Sound(b) && w.publishable && Listing(b, w, order)
    ensures Sound(WriteTx(b, w, order).0)
    ensures KeepsWritten(b, WriteTx(b, w, order).0)
  {
    hide Sound, KeepsWritten, AfterLoop, Leading, Logged, Ids, WithoutUncited, PendingSeen, ErrorFor, Sees;
    var kept := WithoutUncited(b.rows, w.cited, w.seen(0));
    var n := Leading(order, 0, w);
    DiscardKeepsSound(b, w.cited, w.seen(0));
    ListedAreKept(kept, w.seen(2), order);
    LoopKeepsSound(b, kept, order, n, w);
    LoopKeepsWritten(b, kept, order, n, w);
    NothingKeepsWritten(b);
  }

  lemma NothingKeepsWritten(b: Book)
    ensures KeepsWritten(b, b)
  {
  }

  lemma KeepsWrittenThenKeeps(a: Book, b: Book, c: Book)
    requires KeepsWritten(a, b) && KeepsWritten(b, c)
    ensures KeepsWritten(a, c)
  {
  }

  lemma WithheldKeepsSound(b: Book, w: Writer, order: seq<Edge>)
    requires Sound(b) && !w.publishable
    ensures Sound(WriteTx(b, w, order).0)
    ensures KeepsWritten(b, WriteTx(b, w, order).0)
  {
    hide Sound, KeepsWritten, WithoutUncited, PendingSeen, Deferred, Sees;
    var kept := WithoutUncited(b.rows, w.cited, w.seen(0));
    DiscardKeepsSound(b, w.cited, w.seen(0));
    DeferKeepsSound(b.(rows := kept), "private", w.seen(2));
    KeepsWrittenThenKeeps(b, b.(rows := kept), WriteTx(b, w, order).0);
  }

  lemma ApplyKeepsSound(b: Book, tx: Tx)
    requires Sound(b)
    ensures Sound(Apply(b, tx)) && KeepsWritten(b, Apply(b, tx))
  {
    hide Sound, PlanTx, WriteTx, Released, PlanOf, Listing;
    match tx {
      case Plan(cited, parent, prereqs, owner, workflow, seen) =>
        PlansAreShapes(cited, parent, prereqs, owner, workflow);
        PlanKeepsSound(b, PlanOf(cited, parent, prereqs, owner, workflow), seen);
      case Write(w, order) =>
        if !w.publishable {
          WithheldKeepsSound(b, w, order);
        } else if Listing(b, w, order) {
          PublishedKeepsSound(b, w, order);
        }
      case Widen(visible) => WidenKeepsSound(b, visible);
    }
  }

  /** In every run of replans, writes and widenings, whatever each statement
      sees and the kernel answers: written, pending and deferred partition the
      rows; a written row is never removed nor changed; and the kernel holds
      exactly one edge, under the recorded id, for each written row and none
      else, so no PROV edge is ever written twice. */
  lemma {:induction false} OutboxIsSound(b: Book, txs: seq<Tx>)
    requires Sound(b)
    ensures Sound(Run(b, txs)) && KeepsWritten(b, Run(b, txs))
  {
    hide Sound, Apply;
    if txs != [] {
      var n := |txs| - 1;
      OutboxIsSound(b, txs[..n]);
      ApplyKeepsSound(Run(b, txs[..n]), txs[n]);
    }
  }

  // ── The replan ──────────────────────────────────────────────────────────

  /** After a replan the unwritten rows are the planned ones and those the
      DELETE could not see; a planned row starts afresh unless it was written
      or hidden. */
  lemma ReplanLeavesOnlyHidden(b: Book, edges: seq<Edge>, seen: nat -> set<Uuid>, e: Edge)
    requires forall i :: 0 <= i < |edges| ==> Sees(seen(i + 1), edges[i])
    ensures var rows := PlanTx(b, edges, seen).rows;
      && (e in rows <==> e in edges || (e in b.rows && (b.rows[e].edgeId.Some? || !Sees(seen(0), e))))
      && (e in rows ==> rows[e] == if e in b.rows && (b.rows[e].edgeId.Some? || !Sees(seen(0), e)) then b.rows[e] else PLANNED)
  {
  }

  function DeferralLeft(rows: map<Edge, OutRow>, seen: set<Uuid>, later: set<Uuid>, e: Edge): Option<string>
    requires e in rows
  {
    if e in PendingSeen(rows, seen) && !Sees(later, e) then Some("private") else rows[e].deferred
  }

  /** Deferring under one view and widening under another leaves deferred
      exactly the rows that were pending in the first view and are hidden from
      the second; rows deferred for another reason stay as they are. So the
      widening undoes the deferral if and only if it sees every row that was
      deferred. */
  lemma WideningUndoesDeferral(rows: map<Edge, OutRow>, seen: set<Uuid>, later: set<Uuid>)
    requires forall e :: e in rows ==> rows[e].deferred != Some("private")
    ensures var back := Released(Deferred(rows, "private", seen), later);
      && back.Keys == rows.Keys
      && (forall e :: e in rows ==> back[e] == rows[e].(deferred := DeferralLeft(rows, seen, later, e)))
      && (back == rows <==> forall e :: e in PendingSeen(rows, seen) ==> Sees(later, e))
  {
    hide Sees;
    var back := Released(Deferred(rows, "private", seen), later);
    assert back.Keys == rows.Keys;
    forall e | e in rows
      ensures back[e] == rows[e].(deferred := DeferralLeft(rows, seen, later, e))
    {
    }
    if back == rows {
      forall e | e in PendingSeen(rows, seen) ensures Sees(later, e) {
        assert back[e] == rows[e];
      }
    }
  }

  // ── Only cited claims ───────────────────────────────────────────────────

  ghost predicate OnlyCitedFrom(kernel: seq<KernelEdge>, from: nat) {
    forall i :: from <= i < |kernel| ==> kernel[i].cited
  }

  /** A pending row whose claim is uncited but was out of sight when the
      transaction discarded, and in sight when it listed. */
  predicate LateArrival(b: Book, w: Writer, e: Edge) {
    e in b.rows && Pending(b.rows[e]) && Uncited(e, w.cited) && !Sees(w.seen(0), e) && Sees(w.seen(2), e)
  }

  /** Whatever survived earlier replans unseen: an uncited claim edge can only
      be written for a row that came into sight between the discard and the
      listing of one transaction. */
  lemma UncitedOnlyByLateArrival(b: Book, w: Writer, order: seq<Edge>, i: nat)
    requires Listing(b, w, order) && w.publishable
    requires |b.kernel| <= i < |WriteTx(b, w, order).0.kernel|
    requires !WriteTx(b, w, order).0.kernel[i].cited
    ensures LateArrival(b, w, WriteTx(b, w, order).0.kernel[i].edge)
  {
    hide AfterLoop, Leading, ErrorFor;
    var kept := WithoutUncited(b.rows, w.cited, w.seen(0));
    ListedAreKept(kept, w.seen(2), order);
    assert order[i - |b.kernel|] in order;
  }

  /** Nothing comes into sight between discard and listing. */
  predicate Steady(w: Writer) {
    w.seen(2) <= w.seen(0)
  }

  lemma SteadyWritesOnlyCited(b: Book, w: Writer, order: seq<Edge>)
    requires Steady(w) && Listing(b, w, order) && w.publishable
    ensures OnlyCitedFrom(WriteTx(b, w, order).0.kernel, |b.kernel|)
  {
    hide WriteTx, Listing;
    var t := WriteTx(b, w, order).0;
    forall i | |b.kernel| <= i < |t.kernel| ensures t.kernel[i].cited {
      if !t.kernel[i].cited {
        UncitedOnlyByLateArrival(b, w, order, i);
      }
    }
  }

  /** Over whole runs: as long as no claim comes into sight between the
      discard and the listing of one write transaction, every kernel edge
      naming a claim was cited by the clusters when it was written, although
      the replans may have missed any hidden row. */
  lemma {:induction false} RunsWriteOnlyCited(b: Book, txs: seq<Tx>)
    requires Sound(b)
    requires forall k :: 0 <= k < |txs| && txs[k].Write? ==> Steady(txs[k].writer)
    ensures OnlyCitedFrom(Run(b, txs).kernel, |b.kernel|)
  {
    hide Sound, PlanTx, WriteTx, Released, PlanOf, Listing, Steady;
    if txs != [] {
      var n := |txs| - 1;
      var before := Run(b, txs[..n]);
      RunsWriteOnlyCited(b, txs[..n]);
      OutboxIsSound(b, txs[..n]);
      ApplyKeepsSound(before, txs[n]);
      if txs[n].Write? && txs[n].writer.publishable && Listing(before, txs[n].writer, txs[n].order) {
        SteadyWritesOnlyCited(before, txs[n].writer, txs[n].order);
      } else {
        OtherTxsWriteNothing(before, txs[n]);
      }
    }
  }

  lemma OtherTxsWriteNothing(b: Book, tx: Tx)
    requires !(tx.Write? && tx.writer.publishable && Listing(b, tx.writer, tx.order))
    ensures Apply(b, tx).kernel == b.kernel
  {
    hide Listing, PlanOf;
  }

  ghost predicate WritesUncited(b: Book, cited: set<Uuid>, seen: set<Uuid>, w: Writer, order: seq<Edge>) {
    && w.publishable && w.cited == cited && w.seen(0) == seen && Listing(b, w, order)
    && !OnlyCitedFrom(WriteTx(b, w, order).0.kernel, |b.kernel|)
  }

  ghost predicate MayWriteUncited(b: Book, cited: set<Uuid>, seen: set<Uuid>) {
    exists w, order :: WritesUncited(b, cited, seen, w, order)
  }

  predicate HiddenUncited(b: Book, cited: set<Uuid>, seen: set<Uuid>, e: Edge) {
    e in b.rows && Pending(b.rows[e]) && e.pred == WasDerivedFrom && Uncited(e, cited) && !Sees(seen, e)
  }

  lemma {:induction false} ListingFrom(edges: set<Edge>, first: Edge) returns (order: seq<Edge>)
    requires first in edges
    ensures Lists(order, edges) && order != [] && order[0] == first
  {
    var others := edges - {first};
    if others == {} {
      order := [first];
      assert edges == others + {first};
      assert Elements(order) == {first};
    } else {
      var e :| e in others;
      var rest := ListingFrom(edges - {e}, first);
      order := rest + [e];
      assert Elements(order) == Elements(rest) + {e};
      assert forall i :: 0 <= i < |rest| ==> rest[i] in Elements(rest);
    }
  }

  /** The exact condition. What a write transaction can do to uncited claims
      is settled when it discards: it may write one, for some later sight of
      its statements and some answers of the kernel, exactly if it leaves a
      hidden pending row naming one. */
  lemma UncitedIff(b: Book, cited: set<Uuid>, seen: set<Uuid>)
    requires Sound(b)
    ensures MayWriteUncited(b, cited, seen) <==> exists e :: HiddenUncited(b, cited, seen, e)
  {
    hide WriteTx, Listing;
    if MayWriteUncited(b, cited, seen) {
      var w, order :| WritesUncited(b, cited, seen, w, order);
      var t := WriteTx(b, w, order).0;
      var i :| |b.kernel| <= i < |t.kernel| && !t.kernel[i].cited;
      UncitedOnlyByLateArrival(b, w, order, i);
      assert HiddenUncited(b, cited, seen, t.kernel[i].edge);
    }
    if e :| HiddenUncited(b, cited, seen, e) {
      HiddenRowLeaks(b, cited, seen, e);
    }
  }

  lemma HiddenRowLeaks(b: Book, cited: set<Uuid>, seen: set<Uuid>, e: Edge)
    requires HiddenUncited(b, cited, seen, e)
    ensures MayWriteUncited(b, cited, seen)
  {
    hide AfterLoop, Lists, Uncited, Ids, WriteTx;
    var everything := set x | x in b.rows :: x.target;
    var w := Writer(cited, true, (i: nat) => if i == 0 then seen else everything, x => None, x => e.target);
    var kept := WithoutUncited(b.rows, cited, seen);
    var order := ListingFrom(PendingSeen(kept, everything), e);
    ListedAreKept(kept, everything, order);
    FirstIsWritten(b, w, order);
    assert !OnlyCitedFrom(WriteTx(b, w, order).0.kernel, |b.kernel|);
    assert WritesUncited(b, cited, seen, w, order);
  }

  lemma FirstIsWritten(b: Book, w: Writer, order: seq<Edge>)
    requires w.publishable && order != [] && ErrorFor(order[0], w).None?
    requires forall k :: 0 <= k < |order| ==> Sees(w.seen(k + 3), order[k])
    ensures var kernel := WriteTx(b, w, order).0.kernel;
      |kernel| > |b.kernel| && kernel[|b.kernel|] == KernelEdge(order[0], w.newId(order[0]), !Uncited(order[0], w.cited))
  {
    hide AfterLoop, Sees, ErrorFor, IsShape, Uncited, Ids, PendingSeen, WithoutUncited;
    var n := Leading(order, 0, w);
    assert n == Leading(order, 1, w);
    assert WriteTx(b, w, order).0.kernel == b.kernel + Logged(order, n, w.cited, w.newId);
  }

  const EMPTY := Book(map[], [])

  function Derived(claim: Uuid): Edge {
    Edge(WasDerivedFrom, ClaimTarget, claim)
  }

  /** Two cited claims are planned; the replan, which no longer cites the
      first, runs while that claim is hidden; the write citing the second alone
      runs while the first comes back into sight after the discard. */
  function LeakingRun(claim: Uuid, other: Uuid, owner: Uuid, order: seq<Edge>): seq<Tx> {
    [Plan([claim, other], None, [], owner, None, (i: nat) => {claim, other}),
     Plan([other], None, [], owner, None, (i: nat) => {other}),
     Write(LeakingWriter(claim, other), order)]
  }

  function LeakingWriter(claim: Uuid, other: Uuid): Writer {
    Writer({other}, true, (i: nat) => if i == 0 then {other} else {claim, other}, (e: Edge) => None, (e: Edge) => e.target)
  }

  function LeakingEdges(claim: Uuid, other: Uuid, owner: Uuid): set<Edge> {
    {Derived(claim), Derived(other), Edge(AttributedTo, AgentTarget, owner)}
  }

  function LeakingRows(claim: Uuid, other: Uuid, owner: Uuid): map<Edge, OutRow> {
    map e | e in LeakingEdges(claim, other, owner) :: PLANNED
  }

  lemma FirstPlan(claim: Uuid, other: Uuid, owner: Uuid)
    ensures PlanTx(EMPTY, PlanOf([claim, other], None, [], owner, None), (i: nat) => {claim, other})
         == Book(LeakingRows(claim, other, owner), [])
  {
    var plan := PlanOf([claim, other], None, [], owner, None);
    assert plan == [Derived(claim), Derived(other), Edge(AttributedTo, AgentTarget, owner)];
    assert Planned(map[], plan) == LeakingRows(claim, other, owner);
  }

  lemma SecondPlan(claim: Uuid, other: Uuid, owner: Uuid)
    requires claim != other
    ensures PlanTx(Book(LeakingRows(claim, other, owner), []), PlanOf([other], None, [], owner, None), (i: nat) => {other})
         == Book(LeakingRows(claim, other, owner), [])
  {
    var plan := PlanOf([other], None, [], owner, None);
    assert plan == [Derived(other), Edge(AttributedTo, AgentTarget, owner)];
    assert Planned(WithoutUnwritten(LeakingRows(claim, other, owner), {other}), plan) == LeakingRows(claim, other, owner);
  }

  lemma PlannedTwice(claim: Uuid, other: Uuid, owner: Uuid, order: seq<Edge>)
    requires claim != other
    ensures Run(EMPTY, LeakingRun(claim, other, owner, order)[..2]) == Book(LeakingRows(claim, other, owner), [])
  {
    hide PlanTx, LeakingRows, PlanOf;
    var txs := LeakingRun(claim, other, owner, order);
    assert txs[..2][..1] == txs[..1] && txs[..1][..0] == [];
    assert Run(EMPTY, []) == EMPTY;
    FirstPlan(claim, other, owner);
    SecondPlan(claim, other, owner);
    assert Run(EMPTY, txs[..1]) == Apply(EMPTY, txs[0]);
  }

  lemma LeakingListing(claim: Uuid, other: Uuid, owner: Uuid, order: seq<Edge>)
    requires claim != other && Lists(order, LeakingEdges(claim, other, owner))
    ensures Listing(Book(LeakingRows(claim, other, owner), []), LeakingWriter(claim, other), order)
  {
    var rows := LeakingRows(claim, other, owner);
    assert WithoutUncited(rows, {other}, {other}) == rows;
    assert PendingSeen(WithoutUncited(rows, {other}, {other}), {claim, other}) == LeakingEdges(claim, other, owner);
  }

  /** A listing without refusals, all in sight, is written to its end. */
  lemma AllIsWritten(b: Book, w: Writer, order: seq<Edge>)
    requires w.publishable && forall k :: 0 <= k < |order| ==> ErrorFor(order[k], w).None? && Sees(w.seen(k + 3), order[k])
    ensures WriteTx(b, w, order).0.kernel == b.kernel + Logged(order, |order|, w.cited, w.newId)
  {
    hide AfterLoop, Sees, ErrorFor, Uncited, Ids, PendingSeen, WithoutUncited;
    assert Leading(order, 0, w) == |order|;
  }

  /** So the comment's "never" fails in a run of three transactions from the
      empty outbox, whatever the order of the listing: a kernel edge names a
      claim no cluster cites. */
  lemma AHiddenRowLeaks(claim: Uuid, other: Uuid, owner: Uuid, order: seq<Edge>)
    requires claim != other && Lists(order, LeakingEdges(claim, other, owner))
    ensures var kernel := Run(EMPTY, LeakingRun(claim, other, owner, order)).kernel;
      exists i :: 0 <= i < |kernel| && kernel[i].edge == Derived(claim) && !kernel[i].cited
  {
    hide WriteTx, LeakingRows, Lists, Listing;
    var txs, w := LeakingRun(claim, other, owner, order), LeakingWriter(claim, other);
    var b := Book(LeakingRows(claim, other, owner), []);
    PlannedTwice(claim, other, owner, order);
    LeakingListing(claim, other, owner, order);
    ListedAre(order, LeakingEdges(claim, other, owner));
    forall k | 0 <= k < |order| ensures ErrorFor(order[k], w).None? && Sees(w.seen(k + 3), order[k]) {
      assert order[k] in order;
    }
    AllIsWritten(b, w, order);
    assert Run(EMPTY, txs) == Apply(b, txs[2]);
    var i :| 0 <= i < |order| && order[i] == Derived(claim);
    assert WriteTx(b, w, order).0.kernel[i] == KernelEdge(Derived(claim), claim, false);
  }

  lemma ListedAre(order: seq<Edge>, edges: set<Edge>)
    requires Lists(order, edges)
    ensures forall e :: e in order <==> e in edges
  {
    assert forall e :: e in order <==> e in Elements(order);
  }

  // ── Completion ──────────────────────────────────────────────────────────

  /** A write transaction that reports no failure has left nothing pending
      that its own last statement could see, so the completion check that
      follows refuses only for a claim that came into sight in between. */
  lemma NoFailureNothingPending(b: Book, w: Writer, order: seq<Edge>, seen: set<Uuid>)
    requires w.publishable ==> Listing(b, w, order)
    requires WriteTx(b, w, order).1.Some? && WriteTx(b, w, order).1.value.failure.None?
    requires seen <= if w.publishable then w.seen(|order| + 3) else w.seen(2)
    ensures PendingSeen(WriteTx(b, w, order).0.rows, seen) == {}
  {
    hide AfterLoop, Leading, Logged, Ids, WithoutUncited, ErrorFor, PendingSeen, Deferred, Lists;
    var t := WriteTx(b, w, order).0.rows;
    if w.publishable {
      SeeingLess(t, seen, w.seen(|order| + 3));
    } else {
      SeeingLess(t, seen, w.seen(2));
      DeferredLeavesNone(WithoutUncited(b.rows, w.cited, w.seen(0)), "private", w.seen(2));
    }
  }

  lemma SeeingLess(rows: map<Edge, OutRow>, less: set<Uuid>, more: set<Uuid>)
    requires less <= more
    ensures PendingSeen(rows, less) <= PendingSeen(rows, more)
  {
  }

  lemma DeferredLeavesNone(rows: map<Edge, OutRow>, reason: string, seen: set<Uuid>)
    ensures PendingSeen(Deferred(rows, reason, seen), seen) == {}
  {
    hide Sees;
  }

  /** Under one steady view, a write transaction of a worklist item reports no
      progress exactly when the session sees no pending row and nothing to
      discard. */
  lemma NoProgressIff(b: Book, w: Writer, order: seq<Edge>, seen: set<Uuid>)
    requires w.publishable ==> Listing(b, w, order)
    requires forall i: nat :: w.seen(i) == seen
    ensures WriteTx(b, w, order).1 == Some(WriteOutcome([], 0, 0, None))
       <==> PendingSeen(b.rows, seen) == {} && WithoutUncited(b.rows, w.cited, seen) == b.rows
  {
    hide WriteTx, WithoutUncited, PendingSeen;
    NothingDiscardedIff(b.rows, w.cited, seen);
    if w.publishable {
      PublishedOutcome(b, w, order, seen);
    } else {
      WithheldOutcome(b, w, order, seen);
    }
  }

  lemma WithheldOutcome(b: Book, w: Writer, order: seq<Edge>, seen: set<Uuid>)
    requires !w.publishable && forall i: nat :: w.seen(i) == seen
    ensures var kept := WithoutUncited(b.rows, w.cited, seen);
      WriteTx(b, w, order).1 == Some(WriteOutcome([], 0, 0, None))
      <==> PendingSeen(kept, seen) == {} && |b.rows.Keys - kept.Keys| == 0
  {
    hide WithoutUncited, PendingSeen, Deferred;
    assert w.seen(0) == seen && w.seen(2) == seen;
  }

  lemma PublishedOutcome(b: Book, w: Writer, order: seq<Edge>, seen: set<Uuid>)
    requires w.publishable && Listing(b, w, order) && forall i: nat :: w.seen(i) == seen
    ensures var kept := WithoutUncited(b.rows, w.cited, seen);
      WriteTx(b, w, order).1 == Some(WriteOutcome([], 0, 0, None))
      <==> PendingSeen(kept, seen) == {} && |b.rows.Keys - kept.Keys| == 0
  {
    hide AfterLoop, Logged, ErrorFor, WithoutUncited, PendingSeen;
    var kept := WithoutUncited(b.rows, w.cited, seen);
    assert w.seen(0) == seen && w.seen(2) == seen && w.seen(3) == seen;
    var n := Leading(order, 0, w);
    if order == [] {
      assert Elements(order) == {};
      EmptyLoop(kept, w);
      NothingWritten(kept, order, w);
      assert n == 0;
    } else {
      assert order[0] in Elements(order);
      assert |Ids(order, n, w.newId)| == n;
    }
  }

  lemma NothingDiscardedIff(rows: map<Edge, OutRow>, cited: set<Uuid>, seen: set<Uuid>)
    ensures var kept := WithoutUncited(rows, cited, seen);
      (|rows.Keys - kept.Keys| == 0 <==> kept == rows) && PendingSeen(kept, seen) <= PendingSeen(rows, seen)
  {
    var kept := WithoutUncited(rows, cited, seen);
    if |rows.Keys - kept.Keys| == 0 {
      assert rows.Keys - kept.Keys == {};
      forall e | e in rows ensures e in kept {
        assert e !in rows.Keys - kept.Keys;
      }
      assert kept == rows;
    }
  }

  lemma EmptyLoop(rows: map<Edge, OutRow>, w: Writer)
    ensures AfterLoop(rows, [], 0, w) == rows
  {
  }
}
