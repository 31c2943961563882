/** The synthesis rows and the statements that change them
    (crates/episcience-db/src/repos/synthesis.rs). */
module SynthesisRows {
  import opened Base
  import opened Refinement

  const I32_MAX := 0x7FFF_FFFF

  datatype Status = Pending | Running | Verifying | Complete | Failed | Deleted | Rejected

  datatype RowLiveness = Live | AlreadyComplete | AlreadyDeleted

  datatype Visibility = Public | Group

  datatype LlmUsage = LlmUsage(provider: string, model: string, calls: nat)

  /** What a refinement child inherits and nothing later changes. */
  datatype Recipe = Recipe(
    query: string, ownerGroup: Uuid, skill: string,
    wikiKey: Option<string>, seedTheme: Option<Uuid>, prereqs: seq<Uuid>)

  datatype Row = Row(
    status: Status, narrative: Option<string>, failureReason: Option<string>, usage: Option<LlmUsage>,
    verifierAttempts: nat, visibility: Visibility, temperature: Option<Temperature>, recipe: Recipe)

  datatype DbError = NotFound | Constraint

  datatype Result<+T> = Ok(value: T) | Err(error: DbError)

  function LivenessOf(status: Status): RowLiveness {
    match status
    case Complete => AlreadyComplete
    case Deleted => AlreadyDeleted
    case _ => Live
  }

  predicate IsLive(row: Row) {
    LivenessOf(row.status) == Live
  }

  /** The table's CHECK: complete exactly when there is a narrative. */
  predicate Checked(row: Row) {
    row.status == Complete <==> row.narrative.Some?
  }

  // ── What each statement makes of the row it reaches ─────────────────────

  function RunningRow(row: Row): Row {
    row.(status := Running)
  }

  function CompletedRow(row: Row, narrative: string): Row {
    row.(status := Complete, narrative := Some(narrative))
  }

  function FailedRow(row: Row, reason: string): Row {
    row.(status := Failed, failureReason := Some(reason))
  }

  function UsedRow(row: Row, usage: LlmUsage): Row {
    row.(usage := Some(usage.(calls := Min(usage.calls, I32_MAX))))
  }

  /** A statement of the worker: written only on a live row. */
  function WriteIfLive(row: Row, written: Row): Row {
    if IsLive(row) then written else row
  }

  /** The soft delete (any status update by a user): refused by the CHECK on a
      row that has its narrative. */
  function SetStatus(row: Row, status: Status): Row {
    if Checked(row.(status := status)) then row.(status := status) else row
  }

  /** The statements of the worker and the soft delete, in any order. */
  datatype Statement =
    | ToRunning
    | Completing(narrative: string)
    | Failing(reason: string)
    | Recording(usage: LlmUsage)
    | Deleting

  function Exec(row: Row, s: Statement): Row {
    match s
    case ToRunning => WriteIfLive(row, RunningRow(row))
    case Completing(narrative) => WriteIfLive(row, CompletedRow(row, narrative))
    case Failing(reason) => WriteIfLive(row, FailedRow(row, reason))
    case Recording(usage) => WriteIfLive(row, UsedRow(row, usage))
    case Deleting => SetStatus(row, Deleted)
  }

  function ExecAll(row: Row, ss: seq<Statement>): Row {
    if ss == [] then row else Exec(ExecAll(row, ss[..|ss| - 1]), ss[|ss| - 1])
  }

  /** The statement that ends a live row's life: the first completion or
      deletion. */
  ghost predicate Ends(ss: seq<Statement>, k: nat) {
    k < |ss| && (ss[k].Completing? || ss[k].Deleting?) && forall i :: 0 <= i < k ==> !ss[i].Completing? && !ss[i].Deleting?
  }

  /** Whatever statements follow one another on a live row, the first
      completion or deletion decides it for good: the narrative is that of the
      first completion, nothing after it changes the row, and without either
      the row stays live. The table's CHECK holds throughout. */
  lemma {:induction false} FirstEndingDecides(row: Row, ss: seq<Statement>)
    requires Checked(row) && IsLive(row)
    ensures Checked(ExecAll(row, ss))
    ensures IsLive(ExecAll(row, ss)) <==> forall k :: 0 <= k < |ss| ==> !ss[k].Completing? && !ss[k].Deleting?
    ensures forall k: nat :: Ends(ss, k) ==>
      && ExecAll(row, ss) == ExecAll(row, ss[..k + 1])
      && (ss[k].Completing? ==> ExecAll(row, ss).status == Complete && ExecAll(row, ss).narrative == Some(ss[k].narrative))
      && (ss[k].Deleting? ==> ExecAll(row, ss).status == Deleted && ExecAll(row, ss).narrative.None?)
  {
    hide Exec, IsLive, Checked;
    if ss != [] {
      var init, last := ss[..|ss| - 1], ss[|ss| - 1];
      FirstEndingDecides(row, init);
      OnLiveRow(ExecAll(row, init), last);
      StatementsKeepTerminal(ExecAll(row, init), last);
      forall k: nat | Ends(ss, k)
        ensures ExecAll(row, ss) == ExecAll(row, ss[..k + 1])
        ensures ss[k].Completing? ==> ExecAll(row, ss).status == Complete && ExecAll(row, ss).narrative == Some(ss[k].narrative)
        ensures ss[k].Deleting? ==> ExecAll(row, ss).status == Deleted && ExecAll(row, ss).narrative.None?
      {
        if k < |init| {
          assert Ends(init, k) && ss[..k + 1] == init[..k + 1];
        } else {
          assert ss[..k + 1] == ss;
          assert IsLive(ExecAll(row, init));
        }
      }
    }
  }

  lemma OnLiveRow(row: Row, s: Statement)
    requires Checked(row)
    ensures IsLive(row) ==> (IsLive(Exec(row, s)) <==> !s.Completing? && !s.Deleting?)
    ensures IsLive(row) && s.Completing? ==> Exec(row, s).status == Complete && Exec(row, s).narrative == Some(s.narrative)
    ensures IsLive(row) && s.Deleting? ==> Exec(row, s).status == Deleted && Exec(row, s).narrative.None?
  {
  }

  /** Complete and deleted are absorbing under every statement, and every one
      keeps the CHECK. */
  lemma StatementsKeepTerminal(row: Row, s: Statement)
    requires Checked(row)
    ensures Checked(Exec(row, s))
    ensures !IsLive(row) ==> Exec(row, s) == row
  {
  }

  class SynthesisRepository {
    var rows: map<Uuid, Row>

    ghost predicate Valid()
      reads this
    {
      forall id :: id in rows ==> Checked(rows[id])
    }

    constructor ()
      ensures Valid() && rows == map[]
    {
      rows := map[];
    }

    /** Stage 1: to `running`, unless complete or deleted. */
    method MarkRunning(id: Uuid) returns (r: Result<RowLiveness>)
      requires Valid()
      modifies this
      ensures Valid()
      ensures id !in old(rows) ==> r == Err(NotFound) && rows == old(rows)
      ensures id in old(rows) ==>
        && r == Ok(LivenessOf(old(rows)[id].status))
        && rows == old(rows)[id := WriteIfLive(old(rows)[id], RunningRow(old(rows)[id]))]
      ensures id in old(rows) ==>
        && (r == Ok(AlreadyComplete) <==> old(rows)[id].status == Complete)
        && (r == Ok(AlreadyDeleted) <==> old(rows)[id].status == Deleted)
        && (r == Ok(Live) <==> old(rows)[id].status !in {Complete, Deleted})
        && rows == if r == Ok(Live) then old(rows)[id := old(rows)[id].(status := Running)] else old(rows)
    {
      if id in rows && rows[id].status !in {Complete, Deleted} {
        rows := rows[id := RunningRow(rows[id])];
        return Ok(Live);
      }
      if id !in rows {
        return Err(NotFound);
      }
      if LivenessOf(rows[id].status) == Live {
        return Err(Constraint);
      }
      r := Ok(LivenessOf(rows[id].status));
    }

    /** The row's liveness, read under the row lock. */
    method LockLive(id: Uuid) returns (r: Result<RowLiveness>)
      ensures r == if id in rows then Ok(LivenessOf(rows[id].status)) else Err(NotFound)
      ensures r == Ok(Live) <==> id in rows && rows[id].status in {Pending, Running, Verifying, Failed, Rejected}
    {
      if id !in rows {
        return Err(NotFound);
      }
      r := Ok(LivenessOf(rows[id].status));
    }

    method SaveNarrative(id: Uuid, narrative: string) returns (r: Result<()>)
      requires Valid()
      modifies this
      ensures Valid()
      ensures r.Ok? <==> id in old(rows) && old(rows)[id].status !in {Complete, Deleted}
      ensures r.Ok? ==> rows == old(rows)[id := old(rows)[id].(status := Complete, narrative := Some(narrative))]
      ensures r.Err? ==> r.error == NotFound && rows == old(rows)
    {
      if id in rows && rows[id].status !in {Complete, Deleted} {
        rows := rows[id := rows[id].(status := Complete, narrative := Some(narrative))];
        return Ok(());
      }
      r := Err(NotFound);
    }

    /** Whether the row was written; false tells the worker the row is no
        longer its to finish. */
    method RecordLlmUsage(id: Uuid, provider: string, model: string, callCount: nat) returns (written: bool)
      requires Valid()
      modifies this
      ensures Valid()
      ensures written <==> id in old(rows) && old(rows)[id].status !in {Complete, Deleted}
      ensures written ==>
        && id in rows && rows[id].usage.Some?
        && var usage := rows[id].usage.value;
           && usage.provider == provider && usage.model == model
           && (callCount <= 0x7FFF_FFFF ==> usage.calls == callCount) && (callCount > 0x7FFF_FFFF ==> usage.calls == 0x7FFF_FFFF)
           && rows == old(rows)[id := old(rows)[id].(usage := Some(usage))]
      ensures rows == if written then old(rows)[id := UsedRow(old(rows)[id], LlmUsage(provider, model, callCount))]
                      else old(rows)
    {
      var calls := if callCount <= I32_MAX then callCount else I32_MAX;
      written := id in rows && rows[id].status !in {Complete, Deleted};
      if written {
        rows := rows[id := rows[id].(usage := Some(LlmUsage(provider, model, calls)))];
      }
    }

    method MarkFailed(id: Uuid, reason: string)
      requires Valid()
      modifies this
      ensures Valid()
      ensures rows == if id in old(rows) && old(rows)[id].status !in {Complete, Deleted}
                      then old(rows)[id := old(rows)[id].(status := Failed, failureReason := Some(reason))] else old(rows)
    {
      if id in rows && rows[id].status !in {Complete, Deleted} {
        rows := rows[id := rows[id].(status := Failed, failureReason := Some(reason))];
      }
    }

    /** A user's status update: `NotFound` also when the row is not theirs to
        edit; a CHECK violation changes nothing. */
    method UpdateStatusAs(id: Uuid, status: Status, writable: bool) returns (r: Result<()>)
      requires Valid()
      modifies this
      ensures Valid()
      ensures !(id in old(rows) && writable) ==> r == Err(NotFound) && rows == old(rows)
      ensures id in old(rows) && writable ==>
        && rows == old(rows)[id := SetStatus(old(rows)[id], status)]
        && (r.Ok? <==> (status == Complete <==> old(rows)[id].narrative.Some?))
        && rows == (if r.Ok? then old(rows)[id := old(rows)[id].(status := status)] else old(rows))
        && (r == Ok(()) <==> rows[id].status == status)
        && (r.Err? ==> r.error == Constraint)
    {
      if id !in rows || !writable {
        return Err(NotFound);
      }
      var changed := rows[id].(status := status);
      if (changed.status == Complete) != changed.narrative.Some? {
        assert rows == rows[id := rows[id]];
        return Err(Constraint);
      }
      rows := rows[id := changed];
      r := Ok(());
    }
  }
}
