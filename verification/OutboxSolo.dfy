/** A write transaction on its own, statement by statement, does what it does
    when transactions follow one another
    (crates/episcience-db/src/synthesis/publish.rs). */
module OutboxSolo {
  import opened Base
  import opened Outbox
  import opened OutboxOverlap

  // ── A transaction on its own ────────────────────────────────────────────

  lemma {:induction false} RunOfRun(w: World, a: seq<Action>, b: seq<Action>)
    ensures Run(w, a + b) == Run(Run(w, a), b)
    decreases |b|
  {
    hide Step;
    if b == [] {
      assert a + b == a;
    } else {
      assert (a + b)[..|a + b| - 1] == a + b[..|b| - 1];
      RunOfRun(w, a, b[..|b| - 1]);
    }
  }

  /** Nobody is at work. */
  predicate AtRest(w: World) {
    forall t :: 0 <= t < |w.txns| ==> w.txns[t].changes == map[]
  }

  /** One transaction at work, everything else as it was in `w`. */
  function Joined(w: World, x: Txn, made: seq<Made>): World {
    w.(txns := w.txns + [x], made := w.made + made)
  }

  function Asked(order: seq<Edge>): set<Edge> {
    set e | e in order
  }

  function Deletes(t: nat, gone: seq<Edge>): seq<Action> {
    seq(|gone|, i requires 0 <= i < |gone| => Change(t, gone[i], None))
  }

  function Writes(t: nat, order: seq<Edge>, n: nat, newId: Edge -> Uuid): seq<Action>
    requires n <= |order|
  {
    seq(n, i requires 0 <= i < n => Write(t, order[i], newId(order[i])))
  }

  function MadeOf(t: nat, order: seq<Edge>, n: nat, newId: Edge -> Uuid): seq<Made>
    requires n <= |order|
  {
    seq(n, i requires 0 <= i < n => Made(order[i], newId(order[i]), t))
  }

  function Deletion(gone: seq<Edge>): map<Edge, Option<OutRow>> {
    map e | e in gone :: None
  }

  /** The write transaction of one caller, statement by statement. */
  function Script(rows: map<Edge, OutRow>, t: nat, wr: Writer, gone: seq<Edge>, order: seq<Edge>): seq<Action> {
    var n := Leading(order, 0, wr);
    [Begin] + Deletes(t, gone) + [List(t, Asked(order))] + Writes(t, order, n, wr.newId) +
    if n == |order| then [Commit(t)]
    else if ErrorFor(order[n], wr).Some? && Sees(wr.seen(n + 3), order[n]) && order[n] in rows then
      [Change(t, order[n], Some(Refused(rows[order[n]], ErrorFor(order[n], wr)))), Commit(t)]
    else [Abort(t)]
  }

  function Refused(row: OutRow, error: Option<EdgeError>): OutRow {
    row.(attempts := row.attempts + 1, lastError := error)
  }

  lemma NothingHeld(w: World, x: Txn, made: seq<Made>, e: Edge)
    requires AtRest(w)
    ensures !Held(Joined(w, x, made), |w.txns|, e) && Joined(w, x, made).txns[|w.txns|] == x
  {
  }

  lemma JoinedAgain(w: World, x: Txn, y: Txn, made: seq<Made>, more: seq<Made>)
    ensures SetTxn(Joined(w, x, made), |w.txns|, y) == Joined(w, y, made)
    ensures SetTxn(Joined(w, x, made), |w.txns|, y).(made := Joined(w, x, made).made + more) == Joined(w, y, made + more)
  {
  }

  lemma {:induction false} SoloDeletes(w: World, gone: seq<Edge>)
    requires AtRest(w) && Distinct(gone)
    requires forall e :: e in gone ==> e in w.rows && w.rows[e].edgeId.None?
    ensures Run(Joined(w, OPENED, []), Deletes(|w.txns|, gone)) == Joined(w, OPENED.(changes := Deletion(gone)), [])
  {
    hide Step;
    if gone == [] {
      assert Deletion(gone) == map[];
    } else {
      var n := |gone| - 1;
      var x := OPENED.(changes := Deletion(gone[..n]));
      SoloDeletes(w, gone[..n]);
      assert Deletes(|w.txns|, gone)[..n] == Deletes(|w.txns|, gone[..n]);
      SoloDelete(w, x, gone[n]);
      assert Deletion(gone) == Deletion(gone[..n])[gone[n] := None];
    }
  }

  lemma SoloDelete(w: World, x: Txn, e: Edge)
    requires AtRest(w) && x.stage == Working && e in w.rows && w.rows[e].edgeId.None? && e !in x.changes
    ensures Step(Joined(w, x, []), Change(|w.txns|, e, None)) == Joined(w, x.(changes := x.changes[e := None]), [])
  {
    NothingHeld(w, x, [], e);
    JoinedAgain(w, x, x.(changes := x.changes[e := None]), [], []);
  }

  /** What the transaction has written of its listing. */
  function Marked(rows: map<Edge, OutRow>, order: seq<Edge>, n: nat, newId: Edge -> Uuid): map<Edge, Option<OutRow>>
    requires n <= |order|
  {
    map e | e in order[..n] && e in rows :: Some(rows[e].(edgeId := Some(newId(e))))
  }

  function IdsOf(order: seq<Edge>, n: nat, newId: Edge -> Uuid): map<Edge, Uuid>
    requires n <= |order|
  {
    map e | e in order[..n] :: newId(e)
  }

  lemma {:induction false} SoloWrites(w: World, x: Txn, order: seq<Edge>, n: nat, newId: Edge -> Uuid)
    requires AtRest(w) && Distinct(order) && n <= |order| && x.stage == Working && x.done == map[]
    requires forall e :: e in order ==> e in x.listed && e in w.rows && e !in x.changes
    ensures Run(Joined(w, x, []), Writes(|w.txns|, order, n, newId))
         == Joined(w, x.(changes := x.changes + Marked(w.rows, order, n, newId), done := IdsOf(order, n, newId)), MadeOf(|w.txns|, order, n, newId))
  {
    hide Step;
    if n == 0 {
      assert x.changes + Marked(w.rows, order, 0, newId) == x.changes;
      assert IdsOf(order, 0, newId) == map[];
    } else {
      var m := n - 1;
      SoloWrites(w, x, order, m, newId);
      assert Writes(|w.txns|, order, n, newId)[..m] == Writes(|w.txns|, order, m, newId);
      SoloWrite(w, x, order, m, newId);
    }
  }

  lemma SoloWrite(w: World, x: Txn, order: seq<Edge>, m: nat, newId: Edge -> Uuid)
    requires AtRest(w) && Distinct(order) && m < |order| && x.stage == Working
    requires forall e :: e in order ==> e in x.listed && e in w.rows && e !in x.changes
    ensures Step(Joined(w, x.(changes := x.changes + Marked(w.rows, order, m, newId), done := IdsOf(order, m, newId)), MadeOf(|w.txns|, order, m, newId)),
                 Write(|w.txns|, order[m], newId(order[m])))
         == Joined(w, x.(changes := x.changes + Marked(w.rows, order, m + 1, newId), done := IdsOf(order, m + 1, newId)), MadeOf(|w.txns|, order, m + 1, newId))
  {
    hide Step, Asked, Marked, IdsOf, Held, Joined, Version;
    var e, made, t := order[m], MadeOf(|w.txns|, order, m, newId), |w.txns|;
    var y := x.(changes := x.changes + Marked(w.rows, order, m, newId), done := IdsOf(order, m, newId));
    var row := w.rows[e].(edgeId := Some(newId(e)));
    assert e in order;
    MarkedMore(w.rows, x.changes, order, m, newId);
    assert made + [Made(e, newId(e), t)] == MadeOf(t, order, m + 1, newId);
    SoloMarks(w, y, made, e, newId(e));
  }

  lemma SoloMarks(w: World, y: Txn, made: seq<Made>, e: Edge, id: Uuid)
    requires AtRest(w) && y.stage == Working && e in w.rows && e !in y.changes && e !in y.done && e in y.listed
    ensures Step(Joined(w, y, made), Write(|w.txns|, e, id))
         == Joined(w, y.(changes := y.changes[e := Some(w.rows[e].(edgeId := Some(id)))], done := y.done[e := id]), made + [Made(e, id, |w.txns|)])
  {
    NothingHeld(w, y, made, e);
    JoinedAgain(w, y, y.(changes := y.changes[e := Some(w.rows[e].(edgeId := Some(id)))], done := y.done[e := id]), made, [Made(e, id, |w.txns|)]);
  }

  lemma MarkedMore(rows: map<Edge, OutRow>, changes: map<Edge, Option<OutRow>>, order: seq<Edge>, m: nat, newId: Edge -> Uuid)
    requires Distinct(order) && m < |order| && order[m] in rows && order[m] !in changes
    ensures var e, marked := order[m], changes + Marked(rows, order, m, newId);
      && e !in marked && e !in IdsOf(order, m, newId)
      && marked[e := Some(rows[e].(edgeId := Some(newId(e))))] == changes + Marked(rows, order, m + 1, newId)
      && IdsOf(order, m, newId)[e := newId(e)] == IdsOf(order, m + 1, newId)
  {
    hide Marked, IdsOf;
    MarkedOneMore(rows, order, m, newId);
    IdsOneMore(order, m, newId);
    AddedLast(changes, Marked(rows, order, m, newId), order[m], Some(rows[order[m]].(edgeId := Some(newId(order[m])))));
  }

  lemma AddedLast(a: map<Edge, Option<OutRow>>, b: map<Edge, Option<OutRow>>, e: Edge, row: Option<OutRow>)
    ensures (a + b)[e := row] == a + b[e := row]
  {
  }

  lemma MarkedOneMore(rows: map<Edge, OutRow>, order: seq<Edge>, m: nat, newId: Edge -> Uuid)
    requires Distinct(order) && m < |order| && order[m] in rows
    ensures var e, marked := order[m], Marked(rows, order, m, newId);
      e !in marked && marked[e := Some(rows[e].(edgeId := Some(newId(e))))] == Marked(rows, order, m + 1, newId)
  {
    OneMoreIn(order, m);
    var e, marked := order[m], Marked(rows, order, m, newId);
    assert marked[e := Some(rows[e].(edgeId := Some(newId(e))))].Keys == Marked(rows, order, m + 1, newId).Keys;
  }

  lemma IdsOneMore(order: seq<Edge>, m: nat, newId: Edge -> Uuid)
    requires Distinct(order) && m < |order|
    ensures order[m] !in IdsOf(order, m, newId)
    ensures IdsOf(order, m, newId)[order[m] := newId(order[m])] == IdsOf(order, m + 1, newId)
  {
    OneMoreIn(order, m);
    assert IdsOf(order, m, newId)[order[m] := newId(order[m])].Keys == IdsOf(order, m + 1, newId).Keys;
  }

  lemma OneMoreIn(order: seq<Edge>, m: nat)
    requires Distinct(order) && m < |order|
    ensures order[m] !in order[..m] && forall e :: e in order[..m + 1] <==> e == order[m] || e in order[..m]
  {
    assert order[..m + 1] == order[..m] + [order[m]];
  }

  /** On its own a write transaction does here what it does when transactions
      follow one another: the same rows, and the same edges created. */
  lemma AloneIsWriteTx(w: World, kernel: seq<KernelEdge>, wr: Writer, gone: seq<Edge>, order: seq<Edge>)
    requires AtRest(w) && wr.publishable
    requires Lists(gone, w.rows.Keys - WithoutUncited(w.rows, wr.cited, wr.seen(0)).Keys)
    requires Lists(order, PendingSeen(WithoutUncited(w.rows, wr.cited, wr.seen(0)), wr.seen(2)))
    ensures var after := Run(w, Script(w.rows, |w.txns|, wr, gone, order));
      var (b, outcome) := WriteTx(Book(w.rows, kernel), wr, order);
      && after.rows == b.rows && |after.txns| == |w.txns| + 1
      && (outcome.Some? <==> after.txns[|w.txns|].stage.Committed?)
      && after.made == w.made + MadeOf(|w.txns|, order, Leading(order, 0, wr), wr.newId)
  {
    hide Step, Lists, WriteTx, Leading, ErrorFor, Sees, PendingSeen, WithoutUncited, Marked, Deletion;
    var t, n := |w.txns|, Leading(order, 0, wr);
    var kept := WithoutUncited(w.rows, wr.cited, wr.seen(0));
    Discarded(w.rows, wr, gone, order);
    var start, dels, listing, writes := [Begin], Deletes(t, gone), [List(t, Asked(order))], Writes(t, order, n, wr.newId);
    var x := OPENED.(changes := Deletion(gone), listed := Asked(order), listedAt := Some(w.commits));
    RunStart(w);
    RunOfRun(w, start, dels);
    SoloDeletes(w, gone);
    RunOfRun(w, start + dels, listing);
    SoloLists(w, gone, order);
    RunOfRun(w, start + dels + listing, writes);
    SoloWrites(w, x, order, n, wr.newId);
    var y := x.(changes := x.changes + Marked(w.rows, order, n, wr.newId), done := IdsOf(order, n, wr.newId));
    var made := MadeOf(t, order, n, wr.newId);
    assert Run(w, start + dels + listing + writes) == Joined(w, y, made);
    var last := Script(w.rows, t, wr, gone, order)[|gone| + n + 2..];
    assert Script(w.rows, t, wr, gone, order) == start + dels + listing + writes + last;
    RunOfRun(w, start + dels + listing + writes, last);
    SoloEnds(w, kernel, wr, gone, order, y, made, last);
  }

  lemma RunStart(w: World)
    ensures Run(w, [Begin]) == Joined(w, OPENED, [])
  {
    assert Run(w, []) == w && [Begin][..0] == [];
  }

  lemma RunOne(w: World, a: Action)
    ensures Run(w, [a]) == Step(w, a)
  {
    hide Step;
    assert Run(w, []) == w && [a][..0] == [];
  }

  lemma RunTwo(w: World, a: Action, b: Action)
    ensures Run(w, [a, b]) == Step(Step(w, a), b)
  {
    hide Step;
    RunOne(w, a);
    assert [a, b][..1] == [a];
  }

  /** What the discard removes, and that none of it is listed. */
  lemma Discarded(rows: map<Edge, OutRow>, wr: Writer, gone: seq<Edge>, order: seq<Edge>)
    requires Lists(gone, rows.Keys - WithoutUncited(rows, wr.cited, wr.seen(0)).Keys)
    requires Lists(order, PendingSeen(WithoutUncited(rows, wr.cited, wr.seen(0)), wr.seen(2)))
    ensures Distinct(gone) && Distinct(order)
    ensures forall e :: e in gone <==> e in rows && e !in WithoutUncited(rows, wr.cited, wr.seen(0))
    ensures forall e :: e in gone ==> rows[e].edgeId.None?
    ensures forall e :: e in order ==> e in rows && e !in gone && Pending(rows[e]) && e !in Deletion(gone)
  {
    hide Sees, Uncited;
    assert forall e :: e in gone <==> e in Elements(gone);
    assert forall e :: e in order <==> e in Elements(order);
  }

  lemma SoloLists(w: World, gone: seq<Edge>, order: seq<Edge>)
    requires AtRest(w) && forall e :: e in order ==> e in w.rows && Pending(w.rows[e]) && e !in Deletion(gone)
    ensures var x := OPENED.(changes := Deletion(gone));
      Run(Joined(w, x, []), [List(|w.txns|, Asked(order))])
      == Joined(w, x.(listed := Asked(order), listedAt := Some(w.commits)), [])
  {
    hide Deletion;
    var x := OPENED.(changes := Deletion(gone));
    var edges := Asked(order);
    RunOne(Joined(w, x, []), List(|w.txns|, edges));
    assert PendingIn(Joined(w, x, []), |w.txns|, edges);
    JoinedAgain(w, x, x.(listed := edges, listedAt := Some(w.commits)), [], []);
  }

  /** The rows once the transaction commits. */
  lemma OverlaidIsWritten(rows: map<Edge, OutRow>, wr: Writer, gone: seq<Edge>, order: seq<Edge>, n: nat)
    requires n <= |order|
    requires forall e :: e in gone <==> e in rows && e !in WithoutUncited(rows, wr.cited, wr.seen(0))
    requires forall e :: e in order ==> e in rows && e !in gone
    ensures Overlaid(rows, Deletion(gone) + Marked(rows, order, n, wr.newId))
         == Written(WithoutUncited(rows, wr.cited, wr.seen(0)), order, n, wr.newId)
  {
    hide Sees, Uncited;
    var changes := Deletion(gone) + Marked(rows, order, n, wr.newId);
    var kept := WithoutUncited(rows, wr.cited, wr.seen(0));
    forall e | e in order[..n] ensures e in order {
    }
    forall e ensures e in Overlaid(rows, changes) <==> e in kept {
    }
    assert Overlaid(rows, changes).Keys == kept.Keys;
  }

  lemma SoloEnds(w: World, kernel: seq<KernelEdge>, wr: Writer, gone: seq<Edge>, order: seq<Edge>, y: Txn, made: seq<Made>, last: seq<Action>)
    requires AtRest(w) && wr.publishable && y.stage == Working
    requires forall e :: e in gone <==> e in w.rows && e !in WithoutUncited(w.rows, wr.cited, wr.seen(0))
    requires forall e :: e in order ==> e in w.rows && e !in gone && Pending(w.rows[e])
    requires Distinct(order)
    requires var n := Leading(order, 0, wr);
      && y.changes == Deletion(gone) + Marked(w.rows, order, n, wr.newId)
      && last == if n == |order| then [Commit(|w.txns|)]
                 else if ErrorFor(order[n], wr).Some? && Sees(wr.seen(n + 3), order[n]) && order[n] in w.rows then
                   [Change(|w.txns|, order[n], Some(Refused(w.rows[order[n]], ErrorFor(order[n], wr)))), Commit(|w.txns|)]
                 else [Abort(|w.txns|)]
    ensures var after := Run(Joined(w, y, made), last);
      var (b, outcome) := WriteTx(Book(w.rows, kernel), wr, order);
      && after.rows == b.rows && |after.txns| == |w.txns| + 1
      && (outcome.Some? <==> after.txns[|w.txns|].stage.Committed?)
      && after.made == w.made + made
  {
    hide Step, Run, WriteTx, Leading, ErrorFor, Sees, WithoutUncited, Overlaid, Marked, Written, AfterLoop, Joined, Deletion, Pending, AtRest;
    WriteTxEnds(w.rows, kernel, wr, order);
    var t, n := |w.txns|, Leading(order, 0, wr);
    OverlaidIsWritten(w.rows, wr, gone, order, n);
    var v := Joined(w, y, made);
    if n == |order| {
      RunOne(v, Commit(t));
      Commits(w, y, made);
    } else if ErrorFor(order[n], wr).Some? && Sees(wr.seen(n + 3), order[n]) {
      var e := order[n];
      var row := Refused(w.rows[e], ErrorFor(e, wr));
      var z := y.(changes := y.changes[e := Some(row)]);
      assert e in order;
      RunTwo(v, Change(t, e, Some(row)), Commit(t));
      NotYetMarked(w.rows, gone, order, n, wr.newId);
      SoloRefuses(w, y, made, e, row);
      Commits(w, z, made);
      OverlaidOnce(w.rows, y.changes, e, row);
      RefusedIsLast(w.rows, wr, order, n);
    } else {
      RunOne(v, Abort(t));
      Aborts(w, y, made);
    }
  }

  /** How a write transaction ends: written through, refused, or undone. */
  lemma WriteTxEnds(rows: map<Edge, OutRow>, kernel: seq<KernelEdge>, wr: Writer, order: seq<Edge>)
    requires wr.publishable
    ensures var (b, outcome) := WriteTx(Book(rows, kernel), wr, order);
      var kept, n := WithoutUncited(rows, wr.cited, wr.seen(0)), Leading(order, 0, wr);
      if n == |order| then b.rows == Written(kept, order, n, wr.newId) && outcome.Some?
      else if ErrorFor(order[n], wr).Some? && Sees(wr.seen(n + 3), order[n]) then b.rows == AfterLoop(kept, order, n, wr) && outcome.Some?
      else b.rows == rows && outcome.None?
  {
    hide Leading, ErrorFor, Sees, WithoutUncited, PendingSeen, Written, Ids, Logged;
  }

  lemma NotYetMarked(rows: map<Edge, OutRow>, gone: seq<Edge>, order: seq<Edge>, n: nat, newId: Edge -> Uuid)
    requires n < |order| && Distinct(order) && order[n] !in gone
    ensures order[n] !in Deletion(gone) + Marked(rows, order, n, newId)
  {
  }

  lemma SoloRefuses(w: World, y: Txn, made: seq<Made>, e: Edge, row: OutRow)
    requires AtRest(w) && y.stage == Working && e in w.rows && e !in y.changes && row.edgeId == w.rows[e].edgeId
    ensures Step(Joined(w, y, made), Change(|w.txns|, e, Some(row))) == Joined(w, y.(changes := y.changes[e := Some(row)]), made)
  {
    NothingHeld(w, y, made, e);
    JoinedAgain(w, y, y.(changes := y.changes[e := Some(row)]), made, []);
  }

  lemma Commits(w: World, y: Txn, made: seq<Made>)
    requires y.stage == Working
    ensures var after := Step(Joined(w, y, made), Commit(|w.txns|));
      && after.rows == Overlaid(w.rows, y.changes) && after.made == w.made + made
      && |after.txns| == |w.txns| + 1 && after.txns[|w.txns|].stage.Committed?
  {
    hide Overlaid;
  }

  lemma Aborts(w: World, y: Txn, made: seq<Made>)
    requires y.stage == Working
    ensures var after := Step(Joined(w, y, made), Abort(|w.txns|));
      && after.rows == w.rows && after.made == w.made + made
      && |after.txns| == |w.txns| + 1 && after.txns[|w.txns|].stage == RolledBack
  {
  }

  lemma OverlaidOnce(rows: map<Edge, OutRow>, changes: map<Edge, Option<OutRow>>, e: Edge, row: OutRow)
    requires e in rows && e !in changes
    ensures Overlaid(rows, changes[e := Some(row)]) == Overlaid(rows, changes)[e := row]
  {
  }

  lemma RefusedIsLast(rows: map<Edge, OutRow>, wr: Writer, order: seq<Edge>, n: nat)
    requires n < |order| && Distinct(order) && ErrorFor(order[n], wr).Some?
    requires order[n] in rows && order[n] in WithoutUncited(rows, wr.cited, wr.seen(0))
    ensures var kept := WithoutUncited(rows, wr.cited, wr.seen(0));
      Written(kept, order, n, wr.newId)[order[n] := Refused(rows[order[n]], ErrorFor(order[n], wr))] == AfterLoop(kept, order, n, wr)
  {
    hide ErrorFor, Sees, Uncited;
    assert order[n] !in order[..n];
  }
}
