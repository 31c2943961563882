/** Transactions on the outbox of one synthesis that overlap statement by
    statement: exactly when an edge is created twice
    (crates/episcience-db/src/synthesis/publish.rs,
    crates/episcience-db/src/repos/synthesis_provo_edges.rs). */
module OutboxOverlap {
  import opened Base
  import opened Outbox

  // ── Transactions under way ──────────────────────────────────────────────

  datatype Stage = Working | Committed(at: nat) | RolledBack

  /** A transaction: the row versions it has written and so holds (None: it
      deleted the row), what it listed and after how many commits, the edges it
      has created and marked, and how it ended. Commits are numbered. */
  datatype Txn = Txn(changes: map<Edge, Option<OutRow>>, listed: set<Edge>, listedAt: Option<nat>,
                     done: map<Edge, Uuid>, stage: Stage)

  /** An edge the kernel created for a transaction; it stays when that
      transaction commits. */
  datatype Made = Made(edge: Edge, id: Uuid, maker: nat)

  datatype World = World(rows: map<Edge, OutRow>, made: seq<Made>, txns: seq<Txn>, commits: nat)

  const NOTHING := World(map[], [], [], 0)

  const OPENED := Txn(map[], {}, None, map[], Working)

  datatype Action =
    | Begin
    | Change(t: nat, e: Edge, row: Option<OutRow>)
    | List(t: nat, edges: set<Edge>)
    | Write(t: nat, e: Edge, id: Uuid)
    | Commit(t: nat)
    | Abort(t: nat)

  function Stored(rows: map<Edge, OutRow>, e: Edge): Option<OutRow> {
    if e in rows then Some(rows[e]) else None
  }

  /** The version a transaction reads: its own, or the one committed last. */
  function Version(rows: map<Edge, OutRow>, x: Txn, e: Edge): Option<OutRow> {
    if e in x.changes then x.changes[e] else Stored(rows, e)
  }

  function IdOf(row: Option<OutRow>): Option<Uuid> {
    if row.Some? then row.value.edgeId else None
  }

  predicate Held(w: World, t: nat, e: Edge) {
    exists u :: 0 <= u < |w.txns| && u != t && e in w.txns[u].changes
  }

  predicate Works(w: World, t: nat) {
    t < |w.txns| && w.txns[t].stage == Working
  }

  /** What a statement other than the marking may make of a row: insert it as
      planned, delete it unwritten, or update it, the written id aside. */
  predicate Allowed(before: Option<OutRow>, after: Option<OutRow>) {
    match (before, after)
    case (None, None) => false
    case (None, Some(row)) => row == PLANNED
    case (Some(row), None) => row.edgeId.None?
    case (Some(row), Some(changed)) => changed.edgeId == row.edgeId
  }

  function SetTxn(w: World, t: nat, x: Txn): World
    requires t < |w.txns|
  {
    w.(txns := w.txns[t := x])
  }

  /** The rows once the changes are committed. */
  function Overlaid(rows: map<Edge, OutRow>, changes: map<Edge, Option<OutRow>>): map<Edge, OutRow> {
    map e | e in rows.Keys + changes.Keys && (e in changes ==> changes[e].Some?) ::
      if e in changes then changes[e].value else rows[e]
  }

  /** One statement of one transaction. A statement on a row another one holds
      waits, so it is a step only when the row is free, and it then finds the
      version committed last. The listing may miss rows, hidden ones say. The
      marking asks neither whether the row is still pending nor who wrote it. */
  function Step(w: World, a: Action): World {
    match a
    case Begin => w.(txns := w.txns + [OPENED])
    case Change(t, e, row) =>
      if Works(w, t) && !Held(w, t, e) && Allowed(Version(w.rows, w.txns[t], e), row) then
        SetTxn(w, t, w.txns[t].(changes := w.txns[t].changes[e := row]))
      else w
    case List(t, edges) =>
      if Works(w, t) && w.txns[t].listedAt.None? && PendingIn(w, t, edges) then
        SetTxn(w, t, w.txns[t].(listed := edges, listedAt := Some(w.commits)))
      else w
    case Write(t, e, id) =>
      if Works(w, t) && !Held(w, t, e) && e in w.txns[t].listed && e !in w.txns[t].done
         && Version(w.rows, w.txns[t], e).Some? then
        var x := w.txns[t];
        var row := Version(w.rows, x, e).value.(edgeId := Some(id));
        SetTxn(w, t, x.(changes := x.changes[e := Some(row)], done := x.done[e := id])).(made := w.made + [Made(e, id, t)])
      else w
    case Commit(t) =>
      if Works(w, t) then
        SetTxn(w, t, w.txns[t].(changes := map[], stage := Committed(w.commits)))
          .(rows := Overlaid(w.rows, w.txns[t].changes), commits := w.commits + 1)
      else w
    case Abort(t) => if Works(w, t) then SetTxn(w, t, w.txns[t].(changes := map[], stage := RolledBack)) else w
  }

  predicate PendingIn(w: World, t: nat, edges: set<Edge>)
    requires t < |w.txns|
  {
    forall e :: e in edges ==> PendingVersion(Version(w.rows, w.txns[t], e))
  }

  predicate PendingVersion(row: Option<OutRow>) {
    row.Some? && Pending(row.value)
  }

  function Run(w: World, actions: seq<Action>): World {
    if actions == [] then w else Step(Run(w, actions[..|actions| - 1]), actions[|actions| - 1])
  }

  // ── What every run keeps ────────────────────────────────────────────────

  /** An uncommitted version carries the id the transaction gave the row, or
      the committed one. */
  ghost predicate ChangeOk(rows: map<Edge, OutRow>, x: Txn, e: Edge)
    requires e in x.changes
  {
    IdOf(x.changes[e]) == if e in x.done then Some(x.done[e]) else IdOf(Stored(rows, e))
  }

  ghost predicate TxnOk(rows: map<Edge, OutRow>, commits: nat, x: Txn) {
    && (x.stage != Working ==> x.changes == map[])
    && x.done.Keys <= x.listed && (x.listedAt.None? ==> x.listed == {})
    && (x.listedAt.Some? ==> x.listedAt.value <= commits)
    && (x.stage == Working ==> x.done.Keys <= x.changes.Keys && forall e :: e in x.changes ==> ChangeOk(rows, x, e))
    && (x.stage.Committed? ==>
          && x.stage.at < commits && (x.listedAt.Some? ==> x.listedAt.value <= x.stage.at)
          && forall e :: e in x.done ==> IdOf(Stored(rows, e)).Some?)
  }

  /** Two transactions hold different rows, commit at different times, and a
      listing after the other's commit has none of the edges it created. */
  ghost predicate PairOk(x: Txn, y: Txn) {
    && x.changes.Keys !! y.changes.Keys
    && (x.stage.Committed? && y.stage.Committed? ==> x.stage.at != y.stage.at)
    && (y.stage.Committed? ==> forall e :: e in y.done && e in x.listed ==> ListedBefore(x, y.stage.at))
  }

  predicate ListedBefore(x: Txn, at: nat) {
    x.listedAt.Some? && x.listedAt.value <= at
  }

  /** The last committed creator of the row's edge, whose id the row has. */
  ghost predicate LastCreator(w: World, t: nat, e: Edge) {
    && t < |w.txns| && Created(w.txns[t], e)
    && IdOf(Stored(w.rows, e)) == Some(w.txns[t].done[e])
    && forall u :: 0 <= u < |w.txns| && Created(w.txns[u], e) ==> w.txns[u].stage.at <= w.txns[t].stage.at
  }

  /** The transaction committed with the edge created. */
  predicate Created(x: Txn, e: Edge) {
    x.stage.Committed? && e in x.done
  }

  ghost predicate HasCreator(w: World, e: Edge) {
    exists t :: LastCreator(w, t, e)
  }

  ghost predicate MadeOk(w: World) {
    && (forall i :: 0 <= i < |w.made| ==> w.made[i].maker < |w.txns| && MadeFor(w.txns[w.made[i].maker], w.made[i]))
    && (forall i, j :: 0 <= i < j < |w.made| ==> w.made[i].maker != w.made[j].maker || w.made[i].edge != w.made[j].edge)
    && forall t: nat, e :: t < |w.txns| && e in w.txns[t].done ==> Made(e, w.txns[t].done[e], t) in w.made
  }

  predicate MadeFor(x: Txn, m: Made) {
    m.edge in x.done && x.done[m.edge] == m.id
  }

  ghost predicate Inv(w: World) {
    && (forall t :: 0 <= t < |w.txns| ==> TxnOk(w.rows, w.commits, w.txns[t]))
    && (forall t, u :: 0 <= t < |w.txns| && 0 <= u < |w.txns| && t != u ==> PairOk(w.txns[t], w.txns[u]))
    && (forall e :: e in w.rows && w.rows[e].edgeId.Some? ==> HasCreator(w, e))
    && MadeOk(w)
  }

  /** A transaction still under way changes: its own conditions, its pairs and
      its created edges are all there is to look at. */
  lemma UnderWay(w: World, t: nat, x: Txn, made: seq<Made>)
    requires Inv(w) && Works(w, t) && x.stage == Working
    requires TxnOk(w.rows, w.commits, x)
    requires forall u :: 0 <= u < |w.txns| && u != t ==> PairOk(x, w.txns[u]) && PairOk(w.txns[u], x)
    requires MadeOk(SetTxn(w, t, x).(made := made))
    ensures Inv(SetTxn(w, t, x).(made := made))
  {
    hide TxnOk, PairOk, MadeOk, Stored, IdOf;
    var after := SetTxn(w, t, x).(made := made);
    forall e | e in w.rows && w.rows[e].edgeId.Some? ensures HasCreator(after, e) {
      assert HasCreator(w, e);
      var c :| LastCreator(w, c, e);
      assert LastCreator(after, c, e);
    }
  }

  lemma SameMade(w: World, t: nat, x: Txn)
    requires MadeOk(w) && t < |w.txns| && x.done == w.txns[t].done
    ensures MadeOk(SetTxn(w, t, x))
  {
    var after := SetTxn(w, t, x);
    forall i | 0 <= i < |w.made| ensures after.made[i].maker < |after.txns| && MadeFor(after.txns[after.made[i].maker], after.made[i]) {
      assert MadeFor(w.txns[w.made[i].maker], w.made[i]);
    }
  }

  lemma BeginKeeps(w: World)
    requires Inv(w)
    ensures Inv(Step(w, Begin))
  {
    hide TxnOk, PairOk, MadeOk, Stored, IdOf;
    var after := Step(w, Begin);
    OpenedIsOk(w);
    forall e | e in w.rows && w.rows[e].edgeId.Some? ensures HasCreator(after, e) {
      assert HasCreator(w, e);
      var c :| LastCreator(w, c, e);
      assert LastCreator(after, c, e);
    }
  }

  lemma OpenedIsOk(w: World)
    requires MadeOk(w)
    ensures TxnOk(w.rows, w.commits, OPENED) && MadeOk(Step(w, Begin))
    ensures forall x :: x in w.txns ==> PairOk(x, OPENED) && PairOk(OPENED, x)
  {
    var after := Step(w, Begin);
    forall i | 0 <= i < |w.made| ensures after.made[i].maker < |after.txns| && MadeFor(after.txns[after.made[i].maker], after.made[i]) {
      assert MadeFor(w.txns[w.made[i].maker], w.made[i]);
    }
  }

  lemma ChangeKeeps(w: World, t: nat, e: Edge, row: Option<OutRow>)
    requires Inv(w)
    ensures Inv(Step(w, Change(t, e, row)))
  {
    hide Inv;
    if Works(w, t) && !Held(w, t, e) && Allowed(Version(w.rows, w.txns[t], e), row) {
      var x := w.txns[t];
      var y := x.(changes := x.changes[e := row]);
      assert TxnOk(w.rows, w.commits, x) && MadeOk(w) by {
        TxnOf(w, t);
      }
      forall u | 0 <= u < |w.txns| && u != t ensures PairOk(y, w.txns[u]) && PairOk(w.txns[u], y) {
        PairOf(w, t, u);
        assert e !in w.txns[u].changes;
      }
      SameMade(w, t, y);
      UnderWay(w, t, y, w.made);
    }
  }

  lemma TxnOf(w: World, t: nat)
    requires Inv(w) && t < |w.txns|
    ensures TxnOk(w.rows, w.commits, w.txns[t]) && MadeOk(w)
  {
    hide TxnOk, PairOk, MadeOk;
  }

  lemma PairOf(w: World, t: nat, u: nat)
    requires Inv(w) && t < |w.txns| && u < |w.txns| && t != u
    ensures PairOk(w.txns[t], w.txns[u]) && PairOk(w.txns[u], w.txns[t])
  {
    hide TxnOk, PairOk, MadeOk;
  }

  lemma ListKeeps(w: World, t: nat, edges: set<Edge>)
    requires Inv(w)
    ensures Inv(Step(w, List(t, edges)))
  {
    hide Inv;
    if Works(w, t) && w.txns[t].listedAt.None? && PendingIn(w, t, edges) {
      var x := w.txns[t];
      var y := x.(listed := edges, listedAt := Some(w.commits));
      TxnOf(w, t);
      forall u | 0 <= u < |w.txns| && u != t ensures PairOk(y, w.txns[u]) && PairOk(w.txns[u], y) {
        PairOf(w, t, u);
        TxnOf(w, u);
        NothingCreatedIsPending(w, t, u, edges);
      }
      SameMade(w, t, y);
      UnderWay(w, t, y, w.made);
    }
  }

  /** What a committed transaction created is pending in no version. */
  lemma NothingCreatedIsPending(w: World, t: nat, u: nat, edges: set<Edge>)
    requires Works(w, t) && u < |w.txns| && w.txns[t].listedAt.None? && PendingIn(w, t, edges)
    requires TxnOk(w.rows, w.commits, w.txns[t]) && TxnOk(w.rows, w.commits, w.txns[u])
    ensures forall e :: e in edges ==> !Created(w.txns[u], e)
  {
    forall e | e in edges ensures !Created(w.txns[u], e) {
      assert PendingVersion(Version(w.rows, w.txns[t], e));
      assert e in w.txns[t].changes ==> ChangeOk(w.rows, w.txns[t], e);
    }
  }

  lemma WriteKeeps(w: World, t: nat, e: Edge, id: Uuid)
    requires Inv(w)
    ensures Inv(Step(w, Write(t, e, id)))
  {
    hide Inv;
    if Works(w, t) && !Held(w, t, e) && e in w.txns[t].listed && e !in w.txns[t].done
       && Version(w.rows, w.txns[t], e).Some? {
      var x := w.txns[t];
      var row := Version(w.rows, x, e).value.(edgeId := Some(id));
      var y := x.(changes := x.changes[e := Some(row)], done := x.done[e := id]);
      TxnOf(w, t);
      forall u | 0 <= u < |w.txns| && u != t ensures PairOk(y, w.txns[u]) && PairOk(w.txns[u], y) {
        PairOf(w, t, u);
        assert e !in w.txns[u].changes;
      }
      assert forall f :: f in x.changes ==> ChangeOk(w.rows, x, f);
      assert forall f :: f in y.changes ==> ChangeOk(w.rows, y, f);
      MakesOne(w, t, e, id, y);
      UnderWay(w, t, y, w.made + [Made(e, id, t)]);
    }
  }

  lemma MakesOne(w: World, t: nat, e: Edge, id: Uuid, y: Txn)
    requires MadeOk(w) && t < |w.txns| && e !in w.txns[t].done && y.done == w.txns[t].done[e := id]
    ensures MadeOk(SetTxn(w, t, y).(made := w.made + [Made(e, id, t)]))
  {
    var after := SetTxn(w, t, y).(made := w.made + [Made(e, id, t)]);
    forall i | 0 <= i < |after.made| ensures after.made[i].maker < |after.txns| && MadeFor(after.txns[after.made[i].maker], after.made[i]) {
      if i < |w.made| {
        assert MadeFor(w.txns[w.made[i].maker], w.made[i]);
      }
    }
    forall i, j | 0 <= i < j < |after.made| ensures after.made[i].maker != after.made[j].maker || after.made[i].edge != after.made[j].edge {
      assert MadeFor(w.txns[w.made[i].maker], w.made[i]);
    }
    forall u: nat, f | u < |after.txns| && f in after.txns[u].done ensures Made(f, after.txns[u].done[f], u) in after.made {
      if u != t || f != e {
        assert Made(f, w.txns[u].done[f], u) in w.made;
      }
    }
  }

  lemma AbortKeeps(w: World, t: nat)
    requires Inv(w)
    ensures Inv(Step(w, Abort(t)))
  {
    hide TxnOk, PairOk, MadeOk, Stored, IdOf;
    if Works(w, t) {
      var y := w.txns[t].(changes := map[], stage := RolledBack);
      var after := SetTxn(w, t, y);
      RolledBackIsOk(w, t);
      SameMade(w, t, y);
      forall e | e in w.rows && w.rows[e].edgeId.Some? ensures HasCreator(after, e) {
        assert HasCreator(w, e);
        var c :| LastCreator(w, c, e);
        assert LastCreator(after, c, e);
      }
    }
  }

  lemma RolledBackIsOk(w: World, t: nat)
    requires Inv(w) && Works(w, t)
    ensures var y := w.txns[t].(changes := map[], stage := RolledBack);
      TxnOk(w.rows, w.commits, y) && forall u :: 0 <= u < |w.txns| && u != t ==> PairOk(y, w.txns[u]) && PairOk(w.txns[u], y)
  {
    hide Inv;
    TxnOf(w, t);
    var y := w.txns[t].(changes := map[], stage := RolledBack);
    forall u | 0 <= u < |w.txns| && u != t ensures PairOk(y, w.txns[u]) && PairOk(w.txns[u], y) {
      PairOf(w, t, u);
    }
  }

  // ── The commit ──────────────────────────────────────────────────────────

  /** After a commit a row has the id its changes gave it. */
  lemma OverlaidIds(rows: map<Edge, OutRow>, x: Txn, e: Edge)
    requires x.stage == Working && forall f :: f in x.changes ==> ChangeOk(rows, x, f)
    requires x.done.Keys <= x.changes.Keys
    ensures IdOf(Stored(Overlaid(rows, x.changes), e)) == if e in x.done then Some(x.done[e]) else IdOf(Stored(rows, e))
  {
    assert e in x.changes ==> ChangeOk(rows, x, e);
  }

  lemma CommitKeeps(w: World, t: nat)
    requires Inv(w)
    ensures Inv(Step(w, Commit(t)))
  {
    hide Inv, TxnOk, PairOk, MadeOk, HasCreator, Overlaid;
    if Works(w, t) {
      var x := w.txns[t];
      var y := x.(changes := map[], stage := Committed(w.commits));
      var after := Step(w, Commit(t));
      TxnOf(w, t);
      SameMade(w, t, y);
      MadeAlone(SetTxn(w, t, y), after);
      forall u | 0 <= u < |w.txns| ensures TxnOk(after.rows, after.commits, after.txns[u]) {
        TxnOf(w, u);
        if u != t {
          PairOf(w, t, u);
        }
        TxnAcrossCommit(w, t, u);
      }
      forall u, v | 0 <= u < |w.txns| && 0 <= v < |w.txns| && u != v ensures PairOk(after.txns[u], after.txns[v]) {
        PairOf(w, u, v);
        TxnOf(w, u);
        TxnOf(w, v);
        PairAcrossCommit(w, t, u, v);
      }
      forall e | e in after.rows && after.rows[e].edgeId.Some? ensures HasCreator(after, e) {
        CreatorAcrossCommit(w, t, e);
      }
      InvIs(after);
    }
  }

  lemma InvIs(w: World)
    requires forall t :: 0 <= t < |w.txns| ==> TxnOk(w.rows, w.commits, w.txns[t])
    requires forall t, u :: 0 <= t < |w.txns| && 0 <= u < |w.txns| && t != u ==> PairOk(w.txns[t], w.txns[u])
    requires forall e :: e in w.rows && w.rows[e].edgeId.Some? ==> HasCreator(w, e)
    requires MadeOk(w)
    ensures Inv(w)
  {
    hide TxnOk, PairOk, MadeOk, HasCreator;
  }

  lemma MadeAlone(w: World, v: World)
    requires MadeOk(w) && v.made == w.made && v.txns == w.txns
    ensures MadeOk(v)
  {
  }

  lemma TxnAcrossCommit(w: World, t: nat, u: nat)
    requires Works(w, t) && u < |w.txns|
    requires TxnOk(w.rows, w.commits, w.txns[t]) && TxnOk(w.rows, w.commits, w.txns[u])
    requires u != t ==> PairOk(w.txns[t], w.txns[u])
    ensures TxnOk(Step(w, Commit(t)).rows, w.commits + 1, Step(w, Commit(t)).txns[u])
  {
    hide IdOf, Stored, Overlaid;
    var x, y := w.txns[t], w.txns[u];
    var rows := Overlaid(w.rows, x.changes);
    forall e ensures IdOf(Stored(rows, e)) == if e in x.done then Some(x.done[e]) else IdOf(Stored(w.rows, e)) {
      OverlaidIds(w.rows, x, e);
    }
    if u != t {
      forall e | e in y.changes && y.stage == Working ensures ChangeOk(rows, y, e) {
        assert ChangeOk(w.rows, y, e) && e !in x.changes;
      }
    }
  }

  lemma PairAcrossCommit(w: World, t: nat, u: nat, v: nat)
    requires Works(w, t) && u < |w.txns| && v < |w.txns| && u != v && PairOk(w.txns[u], w.txns[v])
    requires TxnOk(w.rows, w.commits, w.txns[u]) && TxnOk(w.rows, w.commits, w.txns[v])
    ensures PairOk(Step(w, Commit(t)).txns[u], Step(w, Commit(t)).txns[v])
  {
    hide Overlaid, Stored, IdOf, ChangeOk;
  }

  lemma CreatorAcrossCommit(w: World, t: nat, e: Edge)
    requires Inv(w) && Works(w, t)
    ensures IdOf(Stored(Step(w, Commit(t)).rows, e)).Some? ==> HasCreator(Step(w, Commit(t)), e)
  {
    hide Inv, MadeOk, PairOk, Overlaid;
    var after, x := Step(w, Commit(t)), w.txns[t];
    TxnOf(w, t);
    OverlaidIds(w.rows, x, e);
    if e in x.done {
      forall u | 0 <= u < |w.txns| && Created(after.txns[u], e) ensures after.txns[u].stage.at <= w.commits {
        TxnOf(w, u);
      }
      assert LastCreator(after, t, e);
    } else if IdOf(Stored(w.rows, e)).Some? {
      var c := CreatorOf(w, e);
      assert LastCreator(after, c, e);
    }
  }

  lemma CreatorOf(w: World, e: Edge) returns (c: nat)
    requires Inv(w) && IdOf(Stored(w.rows, e)).Some?
    ensures LastCreator(w, c, e)
  {
    hide TxnOk, PairOk, MadeOk, LastCreator;
    assert HasCreator(w, e);
    c :| LastCreator(w, c, e);
  }

  lemma StepKeeps(w: World, a: Action)
    requires Inv(w)
    ensures Inv(Step(w, a))
  {
    hide Inv, Step;
    match a {
      case Begin => BeginKeeps(w);
      case Change(t, e, row) => ChangeKeeps(w, t, e, row);
      case List(t, edges) => ListKeeps(w, t, edges);
      case Write(t, e, id) => WriteKeeps(w, t, e, id);
      case Commit(t) => CommitKeeps(w, t);
      case Abort(t) => AbortKeeps(w, t);
    }
  }

  lemma {:induction false} RunKeeps(actions: seq<Action>)
    ensures Inv(Run(NOTHING, actions))
  {
    hide Inv, Step;
    if actions == [] {
      NothingIsOk();
    } else {
      RunKeeps(actions[..|actions| - 1]);
      StepKeeps(Run(NOTHING, actions[..|actions| - 1]), actions[|actions| - 1]);
    }
  }

  lemma NothingIsOk()
    ensures Inv(NOTHING)
  {
  }

  // ── Created twice ───────────────────────────────────────────────────────

  /** The i-th created edge is there to be seen. */
  predicate Seen(w: World, i: nat) {
    i < |w.made| && w.made[i].maker < |w.txns| && w.txns[w.made[i].maker].stage.Committed?
  }

  ghost predicate CreatedTwice(w: World, e: Edge) {
    exists i, j :: 0 <= i < j && Seen(w, i) && Seen(w, j) && w.made[i].edge == e && w.made[j].edge == e
  }

  /** Both committed, and each listed before the other's commit. */
  predicate Overlapped(x: Txn, y: Txn) {
    x.stage.Committed? && y.stage.Committed? && ListedBefore(x, y.stage.at) && ListedBefore(y, x.stage.at)
  }

  ghost predicate CreatedByOverlap(w: World, e: Edge) {
    exists t, u :: 0 <= t < |w.txns| && 0 <= u < |w.txns| && t != u
      && e in w.txns[t].done && e in w.txns[u].done && Overlapped(w.txns[t], w.txns[u])
  }

  /** The exact condition, in every run of any number of transactions: an edge
      is in the kernel twice if and only if two transactions that created it
      committed and overlapped, each having listed before the other's commit. */
  lemma CreatedTwiceIff(actions: seq<Action>, e: Edge)
    ensures var w := Run(NOTHING, actions);
      CreatedTwice(w, e) <==> CreatedByOverlap(w, e)
  {
    hide Inv, Run, Overlapped;
    var w := Run(NOTHING, actions);
    RunKeeps(actions);
    if CreatedTwice(w, e) {
      var i, j :| 0 <= i < j && Seen(w, i) && Seen(w, j) && w.made[i].edge == e && w.made[j].edge == e;
      TwoMadeOverlap(w, i, j);
    }
    if CreatedByOverlap(w, e) {
      var t, u :| 0 <= t < |w.txns| && 0 <= u < |w.txns| && t != u
        && e in w.txns[t].done && e in w.txns[u].done && Overlapped(w.txns[t], w.txns[u]);
      OverlapMadeTwo(w, e, t, u);
    }
  }

  lemma TwoMadeOverlap(w: World, i: nat, j: nat)
    requires Inv(w) && i < j && Seen(w, i) && Seen(w, j) && w.made[i].edge == w.made[j].edge
    ensures var t, u, e := w.made[i].maker, w.made[j].maker, w.made[i].edge;
      t != u && e in w.txns[t].done && e in w.txns[u].done && Overlapped(w.txns[t], w.txns[u])
  {
    hide Inv;
    var t, u := w.made[i].maker, w.made[j].maker;
    TxnOf(w, t);
    TxnOf(w, u);
    assert MadeFor(w.txns[t], w.made[i]) && MadeFor(w.txns[u], w.made[j]);
    PairOf(w, t, u);
  }

  lemma OverlapMadeTwo(w: World, e: Edge, t: nat, u: nat)
    requires Inv(w) && t < |w.txns| && u < |w.txns| && t != u && e in w.txns[t].done && e in w.txns[u].done
    requires Overlapped(w.txns[t], w.txns[u])
    ensures CreatedTwice(w, e)
  {
    hide Inv, TxnOk, MadeOk, ListedBefore, Created;
    TxnOf(w, t);
    var i := MadeAt(w, t, e);
    var j := MadeAt(w, u, e);
    assert Seen(w, i) && Seen(w, j);
    assert i < j || j < i;
  }

  lemma MadeAt(w: World, t: nat, e: Edge) returns (i: nat)
    requires MadeOk(w) && t < |w.txns| && e in w.txns[t].done
    ensures i < |w.made| && w.made[i].edge == e && w.made[i].maker == t
  {
    hide MadeFor;
    i :| 0 <= i < |w.made| && w.made[i] == Made(e, w.txns[t].done[e], t);
  }

  /** Only the last creator's edge is named by the outbox: the row of a created
      edge is there, written, with the id of the transaction that committed
      last of those that created it. */
  lemma RowNamesLastCreator(actions: seq<Action>, e: Edge, t: nat)
    requires t < |Run(NOTHING, actions).txns| && Created(Run(NOTHING, actions).txns[t], e)
    ensures exists c :: LastCreator(Run(NOTHING, actions), c, e)
  {
    hide Inv, Run, LastCreator;
    var w := Run(NOTHING, actions);
    RunKeeps(actions);
    TxnOf(w, t);
    var c := CreatorOf(w, e);
  }

  // ── When transactions take turns ────────────────────────────────────────

  /** No other transaction has listed and is still under way. */
  predicate Alone(w: World, t: nat) {
    forall u :: 0 <= u < |w.txns| && u != t && w.txns[u].listedAt.Some? ==> w.txns[u].stage != Working
  }

  /** Every transaction lists while no other one that has listed is under way,
      as it would holding a lock on the synthesis from its listing on. */
  ghost predicate TakeTurns(actions: seq<Action>) {
    forall k :: 0 <= k < |actions| && actions[k].List? ==> Alone(Run(NOTHING, actions[..k]), actions[k].t)
  }

  /** At most one that has listed is under way, and of two that ended one
      listed after the other's commit. */
  ghost predicate Turns(w: World) {
    forall t, u :: 0 <= t < |w.txns| && 0 <= u < |w.txns| && t != u ==> Turn(w.txns[t], w.txns[u])
  }

  predicate Turn(x: Txn, y: Txn) {
    && (x.listedAt.Some? && y.listedAt.Some? ==> x.stage != Working || y.stage != Working)
    && (x.stage == Working && x.listedAt.Some? && y.stage.Committed? && y.listedAt.Some? ==> y.stage.at < x.listedAt.value)
    && !Overlapped(x, y)
  }

  lemma TurnsUpdated(w: World, t: nat, y: Txn, after: World)
    requires Turns(w) && t < |w.txns| && after.txns == w.txns[t := y]
    requires forall u :: 0 <= u < |w.txns| && u != t ==> Turn(y, w.txns[u]) && Turn(w.txns[u], y)
    ensures Turns(after)
  {
    hide Turn;
  }

  lemma TurnOf(w: World, t: nat, u: nat)
    requires Turns(w) && t < |w.txns| && u < |w.txns| && t != u
    ensures Turn(w.txns[t], w.txns[u]) && Turn(w.txns[u], w.txns[t])
  {
    hide Turn;
  }

  lemma ListingTakesTurn(w: World, t: nat, edges: set<Edge>)
    requires Inv(w) && Turns(w) && Alone(w, t) && Works(w, t)
    ensures var y := w.txns[t].(listed := edges, listedAt := Some(w.commits));
      forall u :: 0 <= u < |w.txns| && u != t ==> Turn(y, w.txns[u]) && Turn(w.txns[u], y)
  {
    hide Inv, Turns;
    var y := w.txns[t].(listed := edges, listedAt := Some(w.commits));
    forall u | 0 <= u < |w.txns| && u != t ensures Turn(y, w.txns[u]) && Turn(w.txns[u], y) {
      TurnOf(w, t, u);
      TxnOf(w, u);
    }
  }

  /** Ending leaves the turns as they were. */
  lemma EndingTakesNoTurn(w: World, t: nat, stage: Stage)
    requires Turns(w) && Works(w, t) && stage != Working
    ensures var y := w.txns[t].(changes := map[], stage := stage);
      forall u :: 0 <= u < |w.txns| && u != t ==> Turn(y, w.txns[u]) && Turn(w.txns[u], y)
  {
    hide Turns;
    var y := w.txns[t].(changes := map[], stage := stage);
    forall u | 0 <= u < |w.txns| && u != t ensures Turn(y, w.txns[u]) && Turn(w.txns[u], y) {
      TurnOf(w, t, u);
    }
  }

  lemma WorkingTakesNoTurn(w: World, t: nat, y: Txn)
    requires Turns(w) && t < |w.txns| && y.stage == w.txns[t].stage && y.listedAt == w.txns[t].listedAt
    ensures forall u :: 0 <= u < |w.txns| && u != t ==> Turn(y, w.txns[u]) && Turn(w.txns[u], y)
  {
    hide Turns;
    forall u | 0 <= u < |w.txns| && u != t ensures Turn(y, w.txns[u]) && Turn(w.txns[u], y) {
      TurnOf(w, t, u);
    }
  }

  lemma BeginTakesNoTurn(w: World)
    requires Turns(w)
    ensures Turns(Step(w, Begin))
  {
    hide Overlapped;
    forall x: Txn ensures Turn(x, OPENED) && Turn(OPENED, x) {
      NotOverlapped(x);
    }
  }

  lemma NotOverlapped(x: Txn)
    ensures !Overlapped(x, OPENED) && !Overlapped(OPENED, x)
  {
  }

  lemma StepKeepsTurns(w: World, a: Action)
    requires Inv(w) && Turns(w) && (a.List? ==> Alone(w, a.t))
    ensures Turns(Step(w, a))
  {
    hide Inv, Turns, Turn, Alone, Held, Allowed, Version, PendingIn, Overlaid;
    var after := Step(w, a);
    match a {
      case Begin => BeginTakesNoTurn(w);
      case List(t, edges) =>
        if after != w {
          ListingTakesTurn(w, t, edges);
          TurnsUpdated(w, t, after.txns[t], after);
        }
      case Commit(t) =>
        if after != w {
          EndingTakesNoTurn(w, t, Committed(w.commits));
          TurnsUpdated(w, t, after.txns[t], after);
        }
      case Abort(t) =>
        if after != w {
          EndingTakesNoTurn(w, t, RolledBack);
          TurnsUpdated(w, t, after.txns[t], after);
        }
      case _ =>
        if after != w {
          WorkingTakesNoTurn(w, a.t, after.txns[a.t]);
          TurnsUpdated(w, a.t, after.txns[a.t], after);
        }
    }
  }

  /** Then, and this is what the outbox promises, every edge is created once
      and its row has its id. */
  lemma {:induction false} TakingTurnsCreatesOnce(actions: seq<Action>)
    requires TakeTurns(actions)
    ensures Turns(Run(NOTHING, actions))
    ensures forall e :: !CreatedTwice(Run(NOTHING, actions), e)
  {
    hide Inv, Step, Turns, CreatedTwice, CreatedByOverlap, Alone;
    var w := Run(NOTHING, actions);
    if actions == [] {
      NothingIsOk();
      NothingTurns();
    } else {
      var n := |actions| - 1;
      forall k | 0 <= k < n && actions[..n][k].List? ensures Alone(Run(NOTHING, actions[..n][..k]), actions[..n][k].t) {
        assert actions[..n][..k] == actions[..k];
      }
      TakingTurnsCreatesOnce(actions[..n]);
      RunKeeps(actions[..n]);
      StepKeepsTurns(Run(NOTHING, actions[..n]), actions[n]);
    }
    forall e ensures !CreatedTwice(w, e) {
      CreatedTwiceIff(actions, e);
      TurnsDoNotOverlap(w, e);
    }
  }

  lemma NothingTurns()
    ensures Turns(NOTHING)
  {
  }

  lemma TurnsDoNotOverlap(w: World, e: Edge)
    requires Turns(w)
    ensures !CreatedByOverlap(w, e)
  {
    hide Overlapped;
  }

  /** Nothing in the code makes them take turns: two workers reconciling one
      complete synthesis create its edge twice, and the outbox names only the
      second one. */
  function TwoWorkers(e: Edge, first: Uuid, second: Uuid): seq<Action> {
    [Begin, Change(0, e, Some(PLANNED)), Commit(0), Begin, Begin, List(1, {e}), List(2, {e}),
     Write(1, e, first), Commit(1), Write(2, e, second), Commit(2)]
  }

  /** The plan is committed and both workers have listed it. */
  function BothListed(e: Edge): World {
    World(map[e := PLANNED], [],
          [Txn(map[], {}, None, map[], Committed(0)),
           Txn(map[], {e}, Some(1), map[], Working), Txn(map[], {e}, Some(1), map[], Working)], 1)
  }

  /** The first worker has committed the edge it created. */
  function FirstCommitted(e: Edge, first: Uuid): World {
    World(map[e := PLANNED.(edgeId := Some(first))], [Made(e, first, 1)],
          [Txn(map[], {}, None, map[], Committed(0)),
           Txn(map[], {e}, Some(1), map[e := first], Committed(1)), Txn(map[], {e}, Some(1), map[], Working)], 2)
  }

  lemma Planted(e: Edge)
    ensures Step(Step(Step(NOTHING, Begin), Change(0, e, Some(PLANNED))), Commit(0))
         == World(map[e := PLANNED], [], [Txn(map[], {}, None, map[], Committed(0))], 1)
  {
    var w1 := Step(NOTHING, Begin);
    assert w1 == World(map[], [], [OPENED], 0);
    var w2 := Step(w1, Change(0, e, Some(PLANNED)));
    assert w2 == World(map[], [], [OPENED.(changes := map[e := Some(PLANNED)])], 0);
    assert Overlaid(map[], map[e := Some(PLANNED)]) == map[e := PLANNED];
  }

  lemma BothList(e: Edge)
    ensures Step(Step(Step(Step(World(map[e := PLANNED], [], [Txn(map[], {}, None, map[], Committed(0))], 1),
                                Begin), Begin), List(1, {e})), List(2, {e}))
         == BothListed(e)
  {
  }

  lemma FirstCommits(e: Edge, first: Uuid)
    ensures Step(Step(BothListed(e), Write(1, e, first)), Commit(1)) == FirstCommitted(e, first)
  {
    var row := PLANNED.(edgeId := Some(first));
    var w := BothListed(e);
    assert Step(w, Write(1, e, first)) == SetTxn(w, 1, Txn(map[e := Some(row)], {e}, Some(1), map[e := first], Working)).(made := [Made(e, first, 1)]);
    assert Overlaid(map[e := PLANNED], map[e := Some(row)]) == map[e := row];
  }

  lemma SecondCommits(e: Edge, first: Uuid, second: Uuid)
    ensures var w := Step(Step(FirstCommitted(e, first), Write(2, e, second)), Commit(2));
      && w.made == [Made(e, first, 1), Made(e, second, 2)] && w.rows == map[e := PLANNED.(edgeId := Some(second))]
      && |w.txns| == 3 && w.txns[1].stage == Committed(1) && w.txns[2].stage == Committed(2)
  {
    var row := PLANNED.(edgeId := Some(second));
    var w := FirstCommitted(e, first);
    assert Step(w, Write(2, e, second))
        == SetTxn(w, 2, Txn(map[e := Some(row)], {e}, Some(1), map[e := second], Working)).(made := w.made + [Made(e, second, 2)]);
    assert Overlaid(w.rows, map[e := Some(row)]) == map[e := row];
  }

  lemma Next(actions: seq<Action>, k: nat)
    requires k < |actions|
    ensures Run(NOTHING, actions[..k + 1]) == Step(Run(NOTHING, actions[..k]), actions[k])
  {
    hide Step;
    assert actions[..k + 1][..k] == actions[..k];
  }

  lemma RunOfTwoWorkers(e: Edge, first: Uuid, second: Uuid)
    ensures Run(NOTHING, TwoWorkers(e, first, second)) == Step(Step(FirstCommitted(e, first), Write(2, e, second)), Commit(2))
  {
    hide Step;
    var a := TwoWorkers(e, first, second);
    assert Run(NOTHING, a[..0]) == NOTHING;
    Next(a, 0);
    Next(a, 1);
    Next(a, 2);
    Planted(e);
    Next(a, 3);
    Next(a, 4);
    Next(a, 5);
    Next(a, 6);
    BothList(e);
    Next(a, 7);
    Next(a, 8);
    FirstCommits(e, first);
    Next(a, 9);
    Next(a, 10);
    assert a[..11] == a;
  }

  lemma TwoWorkersCreateTwice(e: Edge, first: Uuid, second: Uuid)
    ensures var w := Run(NOTHING, TwoWorkers(e, first, second));
      && CreatedTwice(w, e)
      && w.made == [Made(e, first, 1), Made(e, second, 2)] && w.rows == map[e := PLANNED.(edgeId := Some(second))]
  {
    hide Step, Run;
    RunOfTwoWorkers(e, first, second);
    SecondCommits(e, first, second);
    var w := Run(NOTHING, TwoWorkers(e, first, second));
    assert Seen(w, 0) && Seen(w, 1);
  }
}
