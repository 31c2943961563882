/** Countersignatures: the per-claim hash chain, the check of its links and the
    backfill of missing link hashes
    (crates/episcience-db/src/repos/countersign.rs,
    crates/episcience-db/src/countersign_links.rs, migrations/5037). */
module Countersign {
  import opened Base

  type Bytes = seq<Octet>

  datatype Ownership = Ownership(group: Uuid, public: bool)

  /** What the calling session may read. */
  datatype Reader = Reader(bypass: bool, groups: set<Uuid>)

  /** `id` is the identifier as a number, in the database's order. */
  datatype Row = Row(id: nat, claim: Uuid, signer: Uuid, meaning: string, signature: Bytes, prev: Option<Bytes>,
                     at: int, recorder: Option<Uuid>, owner: Ownership, stored: Option<Bytes>)

  datatype Request = Request(claim: Uuid, signer: Uuid, recorder: Uuid, meaning: string, signature: Bytes,
                             owner: Ownership, reader: Reader, id: nat, at: int)

  datatype Refusal = ClaimNotVisible | HeadNotVisible | Duplicate

  datatype Outcome = Recorded(row: Row) | Refused(why: Refusal)

  predicate MayRead(reader: Reader, owner: Ownership) {
    reader.bypass || owner.public || owner.group in reader.groups
  }

  /** The order of the chain head: latest first, ties by identifier. */
  predicate Later(a: Row, b: Row) {
    a.at > b.at || (a.at == b.at && a.id > b.id)
  }

  function Head(rows: seq<Row>, claim: Uuid): Option<Row> {
    if rows == [] then None
    else
      var head, row := Head(rows[..|rows| - 1], claim), rows[|rows| - 1];
      if row.claim == claim && (head.None? || Later(row, head.value)) then Some(row) else head
  }

  predicate Clashes(rows: seq<Row>, q: Request) {
    exists i :: 0 <= i < |rows| &&
      (rows[i].id == q.id
       || (rows[i].claim == q.claim && rows[i].signer == q.signer && rows[i].meaning == q.meaning
           && rows[i].recorder == Some(q.recorder)))
  }

  function NewRow(hash: Bytes -> Bytes, q: Request, prev: Option<Bytes>): Row {
    Row(q.id, q.claim, q.signer, q.meaning, q.signature, prev, q.at, Some(q.recorder), q.owner, Some(hash(q.signature)))
  }

  /** The link to the head: its stored hash, or the hash of its signature. */
  function LinkTo(hash: Bytes -> Bytes, head: Option<Row>): Option<Bytes> {
    match head
    case None => None
    case Some(row) => Some(if row.stored.Some? then row.stored.value else hash(row.signature))
  }

  function Recording(hash: Bytes -> Bytes, claims: map<Uuid, Ownership>, rows: seq<Row>, q: Request): Outcome {
    var head := Head(rows, q.claim);
    if q.claim !in claims || !MayRead(q.reader, claims[q.claim]) then Refused(ClaimNotVisible)
    else if head.Some? && head.value.stored.None? && !MayRead(q.reader, head.value.owner) then Refused(HeadNotVisible)
    else if Clashes(rows, q) then Refused(Duplicate)
    else Recorded(NewRow(hash, q, LinkTo(hash, head)))
  }

  function After(rows: seq<Row>, outcome: Outcome): seq<Row> {
    if outcome.Recorded? then rows + [outcome.row] else rows
  }

  // ── The link check ──────────────────────────────────────────────────────

  datatype Finding = MissingHashes(count: nat) | WrongHash(id: nat) | DanglingLink(id: nat)

  function MissingIn(rows: seq<Row>): nat {
    if rows == [] then 0
    else MissingIn(rows[..|rows| - 1]) + if rows[|rows| - 1].stored.None? then 1 else 0
  }

  predicate Carries(hash: Bytes -> Bytes, rows: seq<Row>, claim: Uuid, h: Bytes) {
    exists i :: 0 <= i < |rows| && rows[i].claim == claim && hash(rows[i].signature) == h
  }

  predicate HashRight(hash: Bytes -> Bytes, row: Row) {
    row.stored.Some? ==> row.stored.value == hash(row.signature)
  }

  predicate LinkRight(hash: Bytes -> Bytes, rows: seq<Row>, row: Row) {
    row.prev.Some? ==> Carries(hash, rows, row.claim, row.prev.value)
  }

  predicate Knows(hashes: map<Uuid, set<Bytes>>, claim: Uuid, h: Bytes) {
    claim in hashes && h in hashes[claim]
  }

  function Learn(hashes: map<Uuid, set<Bytes>>, claim: Uuid, h: Bytes): (more: map<Uuid, set<Bytes>>)
    ensures forall c, x :: Knows(more, c, x) <==> Knows(hashes, c, x) || (c == claim && x == h)
  {
    hashes[claim := (if claim in hashes then hashes[claim] else {}) + {h}]
  }

  function RowFindings(hash: Bytes -> Bytes, all: seq<Row>, row: Row): seq<Finding> {
    (if HashRight(hash, row) then [] else [WrongHash(row.id)])
    + (if LinkRight(hash, all, row) then [] else [DanglingLink(row.id)])
  }

  function LineFindings(hash: Bytes -> Bytes, all: seq<Row>, rows: seq<Row>): seq<Finding> {
    if rows == [] then []
    else LineFindings(hash, all, rows[..|rows| - 1]) + RowFindings(hash, all, rows[|rows| - 1])
  }

  function FindingsOf(hash: Bytes -> Bytes, rows: seq<Row>): seq<Finding> {
    (if MissingIn(rows) > 0 then [MissingHashes(MissingIn(rows))] else []) + LineFindings(hash, rows, rows)
  }

  // ── The backfill ────────────────────────────────────────────────────────

  function FilledRow(hash: Bytes -> Bytes, row: Row): Row {
    if row.stored.None? then row.(stored := Some(hash(row.signature))) else row
  }

  function Filled(hash: Bytes -> Bytes, rows: seq<Row>): seq<Row> {
    seq(|rows|, i requires 0 <= i < |rows| => FilledRow(hash, rows[i]))
  }

  // ── The repository ──────────────────────────────────────────────────────

  class Countersignatures {
    const hash: Bytes -> Bytes
    var claims: map<Uuid, Ownership>
    var rows: seq<Row>

    constructor (hash: Bytes -> Bytes, claims: map<Uuid, Ownership>, rows: seq<Row>)
      ensures this.hash == hash && this.claims == claims && this.rows == rows
    {
      this.hash, this.claims, this.rows := hash, claims, rows;
    }

    /** The claim's latest countersignature, whoever wrote it. */
    method ChainHead(claim: Uuid) returns (head: Option<Row>)
      ensures head == Head(rows, claim)
      ensures head.None? <==> forall i :: 0 <= i < |rows| ==> rows[i].claim != claim
      ensures head.Some? ==> head.value in rows && head.value.claim == claim
      ensures head.Some? ==> forall i :: 0 <= i < |rows| && rows[i].claim == claim ==> !Later(rows[i], head.value)
    {
      head := None;
      for k := 0 to |rows|
        invariant head == Head(rows[..k], claim)
        invariant head.None? <==> forall i :: 0 <= i < k ==> rows[i].claim != claim
        invariant head.Some? ==> head.value in rows && head.value.claim == claim
        invariant head.Some? ==> forall i :: 0 <= i < k && rows[i].claim == claim ==> !Later(rows[i], head.value)
      {
        assert rows[..k + 1][..k] == rows[..k];
        if rows[k].claim == claim && (head.None? || Later(rows[k], head.value)) {
          head := Some(rows[k]);
        }
      }
      assert rows[..|rows|] == rows;
    }

    /** Append a countersignature under the claim's lock. */
    method Create(q: Request) returns (outcome: Outcome)
      modifies this`rows
      ensures outcome == Recording(hash, claims, old(rows), q)
      ensures rows == After(old(rows), outcome)
    {
      if q.claim !in claims || !MayRead(q.reader, claims[q.claim]) {
        return Refused(ClaimNotVisible);
      }
      var head := ChainHead(q.claim);
      var prev := None;
      if head.Some? {
        if head.value.stored.Some? {
          prev := head.value.stored;
        } else if MayRead(q.reader, head.value.owner) {
          prev := Some(hash(head.value.signature));
        } else {
          return Refused(HeadNotVisible);
        }
      }
      if Clashes(rows, q) {
        return Refused(Duplicate);
      }
      var row := NewRow(hash, q, prev);
      rows := rows + [row];
      outcome := Recorded(row);
    }

    /** Every problem with the stored links, in the order of the rows. */
    method Findings() returns (out: seq<Finding>)
      ensures out == FindingsOf(hash, rows)
    {
      hide Carries, Knows;
      var hashes: map<Uuid, set<Bytes>> := map[];
      NothingKnown(hash);
      for k := 0 to |rows|
        invariant forall claim, h :: Knows(hashes, claim, h) <==> Carries(hash, rows[..k], claim, h)
      {
        var row := rows[k];
        CarriesStep(hash, rows, k);
        hashes := Learn(hashes, row.claim, hash(row.signature));
      }
      assert rows[..|rows|] == rows;
      out := [];
      var missing := 0;
      for k := 0 to |rows|
        invariant missing == MissingIn(rows[..k])
        invariant out == LineFindings(hash, rows, rows[..k])
      {
        var row := rows[k];
        assert rows[..k + 1][..k] == rows[..k];
        if row.stored.None? {
          missing := missing + 1;
        } else if row.stored.value != hash(row.signature) {
          out := out + [WrongHash(row.id)];
        }
        if row.prev.Some? && !Knows(hashes, row.claim, row.prev.value) {
          out := out + [DanglingLink(row.id)];
        }
      }
      if missing > 0 {
        out := [MissingHashes(missing)] + out;
      }
    }

    /** Fill the link hash of every row that has none. */
    method Backfill() returns (filled: nat)
      modifies this`rows
      ensures rows == Filled(hash, old(rows))
      ensures filled == MissingIn(old(rows))
    {
      filled := 0;
      for k := 0 to |rows|
        invariant |rows| == |old(rows)|
        invariant forall i :: 0 <= i < k ==> rows[i] == FilledRow(hash, old(rows)[i])
        invariant forall i :: k <= i < |rows| ==> rows[i] == old(rows)[i]
        invariant filled == MissingIn(old(rows)[..k])
      {
        assert old(rows)[..k + 1][..k] == old(rows)[..k];
        if rows[k].stored.None? {
          rows := rows[k := rows[k].(stored := Some(hash(rows[k].signature)))];
          filled := filled + 1;
        }
      }
      assert old(rows)[..|rows|] == old(rows);
    }
  }

  lemma NothingKnown(hash: Bytes -> Bytes)
    ensures forall claim, h :: !Knows(map[], claim, h) && !Carries(hash, [], claim, h)
  {
  }

  lemma CarriesStep(hash: Bytes -> Bytes, rows: seq<Row>, k: nat)
    requires k < |rows|
    ensures forall claim, h :: Carries(hash, rows[..k + 1], claim, h) <==>
      Carries(hash, rows[..k], claim, h) || (rows[k].claim == claim && hash(rows[k].signature) == h)
  {
    forall claim, h
      ensures Carries(hash, rows[..k + 1], claim, h) <==>
        Carries(hash, rows[..k], claim, h) || (rows[k].claim == claim && hash(rows[k].signature) == h)
    {
      if Carries(hash, rows[..k], claim, h) {
        var i :| 0 <= i < k && rows[..k][i].claim == claim && hash(rows[..k][i].signature) == h;
        assert rows[..k + 1][i] == rows[..k][i];
      }
      if rows[k].claim == claim && hash(rows[k].signature) == h {
        assert rows[..k + 1][k] == rows[k];
      }
      if Carries(hash, rows[..k + 1], claim, h) {
        var i :| 0 <= i < k + 1 && rows[..k + 1][i].claim == claim && hash(rows[..k + 1][i].signature) == h;
        assert i < k ==> rows[..k][i] == rows[..k + 1][i];
      }
    }
  }

  // ── What the check and the backfill are worth ───────────────────────────

  lemma {:induction false} NothingMissingIff(rows: seq<Row>)
    ensures MissingIn(rows) == 0 <==> forall i :: 0 <= i < |rows| ==> rows[i].stored.Some?
  {
    if rows != [] {
      NothingMissingIff(rows[..|rows| - 1]);
      assert forall i :: 0 <= i < |rows| - 1 ==> rows[..|rows| - 1][i] == rows[i];
    }
  }

  lemma {:induction false} NoLinesIff(hash: Bytes -> Bytes, all: seq<Row>, rows: seq<Row>)
    ensures LineFindings(hash, all, rows) == [] <==>
      forall i :: 0 <= i < |rows| ==> HashRight(hash, rows[i]) && LinkRight(hash, all, rows[i])
  {
    hide HashRight, LinkRight;
    if rows != [] {
      NoLinesIff(hash, all, rows[..|rows| - 1]);
      assert forall i :: 0 <= i < |rows| - 1 ==> rows[..|rows| - 1][i] == rows[i];
    }
  }

  /** The check is silent exactly when every row stores the hash of its own
      signature and every link is the hash of some signature of its claim. */
  lemma FindingsEmptyIff(hash: Bytes -> Bytes, rows: seq<Row>)
    ensures FindingsOf(hash, rows) == [] <==>
      forall i :: 0 <= i < |rows| ==> rows[i].stored == Some(hash(rows[i].signature)) && LinkRight(hash, rows, rows[i])
  {
    hide LinkRight;
    NothingMissingIff(rows);
    NoLinesIff(hash, rows, rows);
  }

  lemma FilledCarries(hash: Bytes -> Bytes, rows: seq<Row>, row: Row)
    ensures LinkRight(hash, Filled(hash, rows), FilledRow(hash, row)) <==> LinkRight(hash, rows, row)
  {
    var filled := Filled(hash, rows);
    assert forall i :: 0 <= i < |rows| ==> filled[i].claim == rows[i].claim && filled[i].signature == rows[i].signature;
  }

  /** What one backfill leaves to find: exactly the hashes that were stored
      wrong and the links no row of the claim carries. A second backfill finds
      nothing to fill and changes nothing. */
  lemma BackfillRepairs(hash: Bytes -> Bytes, rows: seq<Row>)
    ensures FindingsOf(hash, Filled(hash, rows)) == [] <==>
      forall i :: 0 <= i < |rows| ==> HashRight(hash, rows[i]) && LinkRight(hash, rows, rows[i])
    ensures MissingIn(Filled(hash, rows)) == 0
    ensures Filled(hash, Filled(hash, rows)) == Filled(hash, rows)
  {
    hide LinkRight;
    var filled := Filled(hash, rows);
    FindingsEmptyIff(hash, filled);
    NothingMissingIff(filled);
    forall i | 0 <= i < |rows|
      ensures LinkRight(hash, filled, filled[i]) <==> LinkRight(hash, rows, rows[i])
    {
      FilledCarries(hash, rows, rows[i]);
    }
  }

  // ── The operations, written out ─────────────────────────────────────────

  predicate Readable(reader: Reader, owner: Ownership) {
    reader.bypass || owner.public || owner.group in reader.groups
  }

  /** A row of the claim that no other one follows: the latest stamp, and of
      those the greatest identifier. */
  ghost predicate IsLatest(rows: seq<Row>, claim: Uuid, h: Row) {
    && h in rows && h.claim == claim
    && forall r :: r in rows && r.claim == claim ==> r.at < h.at || (r.at == h.at && r.id <= h.id)
  }

  ghost predicate IsRepeated(rows: seq<Row>, q: Request) {
    exists r :: r in rows && (r.id == q.id
      || (r.claim == q.claim && r.signer == q.signer && r.meaning == q.meaning && r.recorder == Some(q.recorder)))
  }

  lemma {:induction false} HeadIsLatest(rows: seq<Row>, claim: Uuid)
    ensures Head(rows, claim).None? <==> forall r :: r in rows ==> r.claim != claim
    ensures Head(rows, claim).Some? ==> IsLatest(rows, claim, Head(rows, claim).value)
  {
    if rows != [] {
      var init, last := rows[..|rows| - 1], rows[|rows| - 1];
      HeadIsLatest(init, claim);
      assert rows == init + [last];
    }
  }

  /** An append, outright: who is refused and why, and otherwise the row, linked
      to the hash the claim's latest row carries or would carry. */
  lemma RecordingMeans(hash: Bytes -> Bytes, claims: map<Uuid, Ownership>, rows: seq<Row>, q: Request)
    ensures var outcome, head := Recording(hash, claims, rows, q), Head(rows, q.claim);
      var visible := q.claim in claims && Readable(q.reader, claims[q.claim]);
      var stuck := head.Some? && head.value.stored.None? && !Readable(q.reader, head.value.owner);
      && (head.None? <==> forall r :: r in rows ==> r.claim != q.claim) && (head.Some? ==> IsLatest(rows, q.claim, head.value))
      && (outcome == Refused(ClaimNotVisible) <==> !visible)
      && (outcome == Refused(HeadNotVisible) <==> visible && stuck)
      && (outcome == Refused(Duplicate) <==> visible && !stuck && IsRepeated(rows, q))
      && (outcome.Recorded? <==> visible && !stuck && !IsRepeated(rows, q))
      && (outcome.Recorded? ==>
            var row := outcome.row;
            && row.id == q.id && row.claim == q.claim && row.signer == q.signer && row.meaning == q.meaning
            && row.signature == q.signature && row.at == q.at && row.recorder == Some(q.recorder) && row.owner == q.owner
            && row.stored == Some(hash(q.signature))
            && (row.prev.None? <==> head.None?)
            && (head.Some? && head.value.stored.Some? ==> row.prev == head.value.stored)
            && (head.Some? && head.value.stored.None? ==> row.prev == Some(hash(head.value.signature))))
      && After(rows, outcome) == if outcome.Recorded? then rows + [outcome.row] else rows
  {
    HeadIsLatest(rows, q.claim);
    RepeatedIsClash(rows, q);
  }

  lemma RepeatedIsClash(rows: seq<Row>, q: Request)
    ensures IsRepeated(rows, q) <==> Clashes(rows, q)
  {
    if r :| r in rows && (r.id == q.id || (r.claim == q.claim && r.signer == q.signer && r.meaning == q.meaning && r.recorder == Some(q.recorder))) {
      var i :| 0 <= i < |rows| && rows[i] == r;
    }
  }

  /** How many rows have no hash. */
  lemma {:induction false} MissingMeans(rows: seq<Row>)
    ensures MissingIn(rows) == |set i | 0 <= i < |rows| && rows[i].stored.None?|
  {
    if rows != [] {
      var n := |rows| - 1;
      MissingMeans(rows[..n]);
      var before := set i | 0 <= i < n && rows[..n][i].stored.None?;
      assert (set i | 0 <= i < |rows| && rows[i].stored.None?) == before + if rows[n].stored.None? then {n} else {};
    }
  }

  /** What the check reports: once how many hashes are missing, first of all;
      every row whose stored hash is not that of its signature; every row whose
      link is the hash of no signature of its claim; nothing else. */
  lemma FindingsMean(hash: Bytes -> Bytes, rows: seq<Row>)
    ensures var out, missing := FindingsOf(hash, rows), |set i | 0 <= i < |rows| && rows[i].stored.None?|;
      && (forall n: nat :: MissingHashes(n) in out <==> n == missing && missing > 0)
      && (missing > 0 ==> out != [] && out[0] == MissingHashes(missing))
      && (forall id: nat :: WrongHash(id) in out <==>
            exists i :: 0 <= i < |rows| && rows[i].id == id && rows[i].stored.Some? && rows[i].stored.value != hash(rows[i].signature))
      && (forall id: nat :: DanglingLink(id) in out <==> exists i :: 0 <= i < |rows| && rows[i].id == id && IsDangling(hash, rows, i))
  {
    hide LineFindings, MissingIn, LinkRight, IsDangling;
    MissingMeans(rows);
    LinesMean(hash, rows, rows);
    forall i | 0 <= i < |rows| ensures IsDangling(hash, rows, i) <==> !LinkRight(hash, rows, rows[i]) {
      DanglingIs(hash, rows, i);
    }
  }

  lemma DanglingIs(hash: Bytes -> Bytes, rows: seq<Row>, i: nat)
    requires i < |rows|
    ensures IsDangling(hash, rows, i) <==> !LinkRight(hash, rows, rows[i])
  {
  }

  ghost predicate IsDangling(hash: Bytes -> Bytes, rows: seq<Row>, i: nat)
    requires i < |rows|
  {
    rows[i].prev.Some? && forall j :: 0 <= j < |rows| && rows[j].claim == rows[i].claim ==> hash(rows[j].signature) != rows[i].prev.value
  }

  ghost predicate SomeWrong(hash: Bytes -> Bytes, rows: seq<Row>, id: nat) {
    exists i :: 0 <= i < |rows| && rows[i].id == id && !HashRight(hash, rows[i])
  }

  ghost predicate SomeDangling(hash: Bytes -> Bytes, all: seq<Row>, rows: seq<Row>, id: nat) {
    exists i :: 0 <= i < |rows| && rows[i].id == id && !LinkRight(hash, all, rows[i])
  }

  lemma {:induction false} LinesMean(hash: Bytes -> Bytes, all: seq<Row>, rows: seq<Row>)
    ensures forall f :: f in LineFindings(hash, all, rows) <==>
      (f.WrongHash? && SomeWrong(hash, rows, f.id)) || (f.DanglingLink? && SomeDangling(hash, all, rows, f.id))
  {
    hide HashRight, LinkRight, SomeWrong, SomeDangling;
    if rows == [] {
      NoRowsNoLines(hash, all);
    } else {
      var n := |rows| - 1;
      LinesMean(hash, all, rows[..n]);
      forall id: nat {
        OneMoreRow(hash, all, rows, id);
      }
    }
  }

  lemma NoRowsNoLines(hash: Bytes -> Bytes, all: seq<Row>)
    ensures forall id: nat :: !SomeWrong(hash, [], id) && !SomeDangling(hash, all, [], id)
  {
  }

  lemma OneMoreRow(hash: Bytes -> Bytes, all: seq<Row>, rows: seq<Row>, id: nat)
    requires rows != []
    ensures var init, last := rows[..|rows| - 1], rows[|rows| - 1];
      && (SomeWrong(hash, rows, id) <==> SomeWrong(hash, init, id) || (last.id == id && !HashRight(hash, last)))
      && (SomeDangling(hash, all, rows, id) <==> SomeDangling(hash, all, init, id) || (last.id == id && !LinkRight(hash, all, last)))
  {
    hide HashRight, LinkRight;
    var init := rows[..|rows| - 1];
    assert forall i :: 0 <= i < |init| ==> init[i] == rows[i];
  }

  /** The backfill stores the missing hashes and touches nothing else. */
  lemma FilledMeans(hash: Bytes -> Bytes, rows: seq<Row>)
    ensures |Filled(hash, rows)| == |rows|
    ensures forall i :: 0 <= i < |rows| ==>
      Filled(hash, rows)[i] == if rows[i].stored.None? then rows[i].(stored := Some(hash(rows[i].signature))) else rows[i]
  {
  }
}
