/** The countersignature chain over whole runs of appends
    (crates/episcience-db/src/repos/countersign.rs). */
module CountersignRuns {
  import opened Base
  import opened Countersign

  function Run(hash: Bytes -> Bytes, claims: map<Uuid, Ownership>, rows: seq<Row>, qs: seq<Request>): seq<Row> {
    if qs == [] then rows
    else
      var before := Run(hash, claims, rows, qs[..|qs| - 1]);
      After(before, Recording(hash, claims, before, qs[|qs| - 1]))
  }

  /** The rows of a claim in the order the claim's lock let them through. */
  function OfClaim(rows: seq<Row>, claim: Uuid): seq<Row> {
    if rows == [] then []
    else OfClaim(rows[..|rows| - 1], claim) + if rows[|rows| - 1].claim == claim then [rows[|rows| - 1]] else []
  }

  /** One unforked chain: each row links to the signature of the row before
      it, the first to nothing. */
  ghost predicate Chained(hash: Bytes -> Bytes, chain: seq<Row>) {
    forall i :: 0 <= i < |chain| ==> LinkedAt(hash, chain, i)
  }

  predicate LinkedAt(hash: Bytes -> Bytes, chain: seq<Row>, i: nat)
    requires i < |chain|
  {
    chain[i].prev == Before(hash, chain, i)
  }

  function Before(hash: Bytes -> Bytes, chain: seq<Row>, i: nat): Option<Bytes>
    requires i <= |chain|
  {
    if i == 0 then None else Some(hash(chain[i - 1].signature))
  }

  ghost predicate Ordered(chain: seq<Row>) {
    forall i :: 0 < i < |chain| ==> LaterAt(chain, i)
  }

  predicate LaterAt(chain: seq<Row>, i: nat)
    requires 0 < i < |chain|
  {
    Later(chain[i], chain[i - 1])
  }

  ghost predicate Whole(hash: Bytes -> Bytes, rows: seq<Row>) {
    && (forall i :: 0 <= i < |rows| ==> HashRight(hash, rows[i]))
    && forall claim :: Chained(hash, OfClaim(rows, claim)) && Ordered(OfClaim(rows, claim))
  }

  /** The append's time stamp is later than that of the claim's head. */
  predicate Timely(rows: seq<Row>, q: Request) {
    var head := Head(rows, q.claim);
    head.Some? ==> q.at > head.value.at || (q.at == head.value.at && q.id > head.value.id)
  }

  ghost predicate TimelyRun(hash: Bytes -> Bytes, claims: map<Uuid, Ownership>, rows: seq<Row>, qs: seq<Request>) {
    forall k :: 0 <= k < |qs| ==> Timely(Run(hash, claims, rows, qs[..k]), qs[k])
  }

  lemma {:induction false} OfClaimMembers(rows: seq<Row>, claim: Uuid)
    ensures forall i :: 0 <= i < |OfClaim(rows, claim)| ==> OfClaim(rows, claim)[i].claim == claim
    ensures forall i :: 0 <= i < |OfClaim(rows, claim)| ==> OfClaim(rows, claim)[i] in rows
  {
    if rows != [] {
      OfClaimMembers(rows[..|rows| - 1], claim);
      assert forall r :: r in rows[..|rows| - 1] ==> r in rows;
    }
  }

  lemma OfClaimAppend(rows: seq<Row>, row: Row, claim: Uuid)
    ensures OfClaim(rows + [row], claim) == OfClaim(rows, claim) + if row.claim == claim then [row] else []
  {
    assert (rows + [row])[..|rows|] == rows;
  }

  lemma HeadAppend(rows: seq<Row>, row: Row, claim: Uuid)
    ensures Head(rows + [row], claim)
         == if row.claim == claim && (Head(rows, claim).None? || Later(row, Head(rows, claim).value)) then Some(row) else Head(rows, claim)
  {
    assert (rows + [row])[..|rows|] == rows;
  }

  /** In an ordered chain the head is the row appended last. */
  lemma {:induction false} HeadIsLast(rows: seq<Row>, claim: Uuid)
    requires Ordered(OfClaim(rows, claim))
    ensures var chain := OfClaim(rows, claim);
      Head(rows, claim) == if chain == [] then None else Some(chain[|chain| - 1])
  {
    if rows != [] {
      var init, row := rows[..|rows| - 1], rows[|rows| - 1];
      var chain, shorter := OfClaim(rows, claim), OfClaim(init, claim);
      if row.claim == claim {
        OrderedAppend(shorter, row);
      } else {
        assert chain == shorter;
      }
      HeadIsLast(init, claim);
    }
  }

  lemma ChainedAppend(hash: Bytes -> Bytes, chain: seq<Row>, row: Row)
    ensures Chained(hash, chain + [row])
      <==> Chained(hash, chain) && row.prev == Before(hash, chain, |chain|)
  {
    var longer := chain + [row];
    forall i | 0 <= i < |chain| ensures LinkedAt(hash, longer, i) <==> LinkedAt(hash, chain, i) {
    }
    assert LinkedAt(hash, longer, |chain|) <==> row.prev == Before(hash, chain, |chain|);
  }

  lemma OrderedAppend(chain: seq<Row>, row: Row)
    ensures Ordered(chain + [row]) <==> Ordered(chain) && (chain != [] ==> Later(row, chain[|chain| - 1]))
  {
    var longer := chain + [row];
    forall i | 0 < i < |chain| ensures LaterAt(longer, i) <==> LaterAt(chain, i) {
    }
    assert chain != [] ==> (LaterAt(longer, |chain|) <==> Later(row, chain[|chain| - 1]));
  }

  lemma AppendKeepsWhole(hash: Bytes -> Bytes, claims: map<Uuid, Ownership>, rows: seq<Row>, q: Request)
    requires Whole(hash, rows) && Timely(rows, q)
    ensures Whole(hash, After(rows, Recording(hash, claims, rows, q)))
  {
    hide Clashes, MayRead, Chained, Ordered, OfClaim, Head;
    var outcome := Recording(hash, claims, rows, q);
    if outcome.Recorded? {
      HeadIsLast(rows, q.claim);
      LastStored(hash, rows, q.claim);
      forall claim ensures Chained(hash, OfClaim(rows + [outcome.row], claim)) && Ordered(OfClaim(rows + [outcome.row], claim)) {
        OfClaimAppend(rows, outcome.row, claim);
        assert Chained(hash, OfClaim(rows, claim)) && Ordered(OfClaim(rows, claim));
        ChainedAppend(hash, OfClaim(rows, claim), outcome.row);
        OrderedAppend(OfClaim(rows, claim), outcome.row);
        assert outcome.row.claim != claim ==> OfClaim(rows + [outcome.row], claim) == OfClaim(rows, claim);
      }
    }
  }

  /** The link to the head is the hash of the head's signature. */
  lemma LastStored(hash: Bytes -> Bytes, rows: seq<Row>, claim: Uuid)
    requires Whole(hash, rows)
    ensures var head := Head(rows, claim);
      LinkTo(hash, head) == if head.None? then None else Some(hash(head.value.signature))
  {
    assert Ordered(OfClaim(rows, claim));
    HeadIsLast(rows, claim);
    OfClaimMembers(rows, claim);
    if Head(rows, claim).Some? {
      var i :| 0 <= i < |rows| && rows[i] == Head(rows, claim).value;
      assert HashRight(hash, rows[i]);
    }
  }

  /** In every run of appends over any claims, by any writers, refused or not,
      in which each time stamp is later than its claim's head: each claim's
      rows are one unforked chain in append order, every row linked to the one
      before it. Rows of an older writer may still lack their stored hash. */
  lemma {:induction false} RunKeepsChains(hash: Bytes -> Bytes, claims: map<Uuid, Ownership>, rows: seq<Row>, qs: seq<Request>)
    requires Whole(hash, rows) && TimelyRun(hash, claims, rows, qs)
    ensures Whole(hash, Run(hash, claims, rows, qs))
  {
    hide Whole, Recording, Timely, After;
    if qs != [] {
      var n := |qs| - 1;
      forall k | 0 <= k < n ensures Timely(Run(hash, claims, rows, qs[..n][..k]), qs[..n][k]) {
        assert qs[..n][..k] == qs[..k];
      }
      RunKeepsChains(hash, claims, rows, qs[..n]);
      AppendKeepsWhole(hash, claims, Run(hash, claims, rows, qs[..n]), qs[n]);
    }
  }

  /** The exact condition, seen at the next append to the same claim: the
      chain goes on unforked if and only if the time stamp was later than the
      head's (or the two signatures hash alike). */
  lemma ChainContinuesIff(hash: Bytes -> Bytes, claims: map<Uuid, Ownership>, rows: seq<Row>, q: Request, next: Request)
    requires Whole(hash, rows) && next.claim == q.claim
    requires Recording(hash, claims, rows, q).Recorded?
    requires Recording(hash, claims, rows + [Recording(hash, claims, rows, q).row], next).Recorded?
    ensures var row := Recording(hash, claims, rows, q).row;
      var row2 := Recording(hash, claims, rows + [row], next).row;
      Chained(hash, OfClaim(rows + [row] + [row2], q.claim))
      <==> Timely(rows, q) || hash(Head(rows, q.claim).value.signature) == hash(q.signature)
  {
    hide Clashes, MayRead, Chained, Ordered, OfClaim, Head;
    var row := Recording(hash, claims, rows, q).row;
    var row2 := Recording(hash, claims, rows + [row], next).row;
    var chain := OfClaim(rows, q.claim);
    assert Chained(hash, chain) && Ordered(chain);
    HeadIsLast(rows, q.claim);
    LastStored(hash, rows, q.claim);
    HeadAppend(rows, row, q.claim);
    OfClaimAppend(rows, row, q.claim);
    OfClaimAppend(rows + [row], row2, q.claim);
    ChainedAppend(hash, chain, row);
    ChainedAppend(hash, chain + [row], row2);
    assert row2.prev == if Timely(rows, q) then Some(hash(q.signature)) else LinkTo(hash, Head(rows, q.claim));
  }

  // ── Over whole runs, whatever the clock does ────────────────────────────

  /** Every row links to what was its claim's head when it was appended. */
  ghost predicate LinkedToHeads(hash: Bytes -> Bytes, chain: seq<Row>, claim: Uuid) {
    forall i :: 0 <= i < |chain| ==> chain[i].prev == HeadHash(hash, chain[..i], claim)
  }

  function HeadHash(hash: Bytes -> Bytes, rows: seq<Row>, claim: Uuid): Option<Bytes> {
    match Head(rows, claim)
    case None => None
    case Some(row) => Some(hash(row.signature))
  }

  ghost predicate HeadLinked(hash: Bytes -> Bytes, rows: seq<Row>) {
    && (forall i :: 0 <= i < |rows| ==> HashRight(hash, rows[i]))
    && forall claim :: LinkedToHeads(hash, OfClaim(rows, claim), claim)
  }

  lemma {:induction false} HeadOfClaim(rows: seq<Row>, claim: Uuid)
    ensures Head(OfClaim(rows, claim), claim) == Head(rows, claim)
  {
    if rows != [] {
      var init, row := rows[..|rows| - 1], rows[|rows| - 1];
      HeadOfClaim(init, claim);
      if row.claim == claim {
        HeadAppend(OfClaim(init, claim), row, claim);
      } else {
        assert OfClaim(rows, claim) == OfClaim(init, claim);
      }
    }
  }

  lemma LinkedAppend(hash: Bytes -> Bytes, chain: seq<Row>, row: Row, claim: Uuid)
    requires LinkedToHeads(hash, chain, claim) && row.prev == HeadHash(hash, chain, claim)
    ensures LinkedToHeads(hash, chain + [row], claim)
  {
    hide HeadHash;
    var longer := chain + [row];
    forall i | 0 <= i < |longer| ensures longer[i].prev == HeadHash(hash, longer[..i], claim) {
      assert longer[..i] == chain[..i];
      assert chain[..|chain|] == chain;
    }
  }

  lemma AppendKeepsHeadLinked(hash: Bytes -> Bytes, claims: map<Uuid, Ownership>, rows: seq<Row>, q: Request)
    requires HeadLinked(hash, rows)
    ensures HeadLinked(hash, After(rows, Recording(hash, claims, rows, q)))
  {
    hide Clashes, MayRead, LinkedToHeads, OfClaim, Head;
    var outcome := Recording(hash, claims, rows, q);
    if outcome.Recorded? {
      StoredHead(hash, rows, q.claim);
      HeadOfClaim(rows, q.claim);
      forall claim ensures LinkedToHeads(hash, OfClaim(rows + [outcome.row], claim), claim) {
        OfClaimAppend(rows, outcome.row, claim);
        if claim == q.claim {
          LinkedAppend(hash, OfClaim(rows, claim), outcome.row, claim);
        } else {
          assert OfClaim(rows + [outcome.row], claim) == OfClaim(rows, claim);
        }
      }
    }
  }

  lemma StoredHead(hash: Bytes -> Bytes, rows: seq<Row>, claim: Uuid)
    requires forall i :: 0 <= i < |rows| ==> HashRight(hash, rows[i])
    ensures LinkTo(hash, Head(rows, claim)) == HeadHash(hash, rows, claim)
  {
    hide Head;
    HeadIsMember(rows, claim);
    if Head(rows, claim).Some? {
      var i :| 0 <= i < |rows| && rows[i] == Head(rows, claim).value;
      assert HashRight(hash, rows[i]);
    }
  }

  lemma {:induction false} RunIsHeadLinked(hash: Bytes -> Bytes, claims: map<Uuid, Ownership>, rows: seq<Row>, qs: seq<Request>)
    requires HeadLinked(hash, rows)
    ensures HeadLinked(hash, Run(hash, claims, rows, qs))
  {
    hide HeadLinked, Recording, After;
    if qs != [] {
      var n := |qs| - 1;
      RunIsHeadLinked(hash, claims, rows, qs[..n]);
      AppendKeepsHeadLinked(hash, claims, Run(hash, claims, rows, qs[..n]), qs[n]);
    }
  }

  /** The k-th row of a claim was appended with a time stamp later than the
      head's. */
  predicate TimelyRow(chain: seq<Row>, claim: Uuid, k: nat)
    requires k < |chain|
  {
    var head := Head(chain[..k], claim);
    head.Some? ==> Later(chain[k], head.value)
  }

  ghost predicate DistinctHashes(hash: Bytes -> Bytes, chain: seq<Row>) {
    forall i, j :: 0 <= i < j < |chain| ==> hash(chain[i].signature) != hash(chain[j].signature)
  }

  /** A row links to the one before it exactly when that one was timely. */
  lemma LinkedAtIff(hash: Bytes -> Bytes, chain: seq<Row>, claim: Uuid, i: nat)
    requires LinkedToHeads(hash, chain, claim) && DistinctHashes(hash, chain)
    requires (forall k :: 0 <= k < |chain| ==> chain[k].claim == claim) && i < |chain|
    ensures LinkedAt(hash, chain, i) <==> i == 0 || TimelyRow(chain, claim, i - 1)
  {
    assert chain[i].prev == HeadHash(hash, chain[..i], claim);
    if i > 0 {
      assert chain[..i] == chain[..i - 1] + [chain[i - 1]];
      HeadAppend(chain[..i - 1], chain[i - 1], claim);
      HeadIsMember(chain[..i - 1], claim);
      if !TimelyRow(chain, claim, i - 1) {
        var j :| 0 <= j < i - 1 && chain[..i - 1][j] == Head(chain[..i - 1], claim).value;
        assert hash(chain[j].signature) != hash(chain[i - 1].signature);
      }
    }
  }

  /** The exact condition over whole runs. While the signatures of a claim hash
      apart, its rows are one unforked chain if and only if every one of them
      but the last was appended with a time stamp later than the head's; so a
      fork is never mended. */
  lemma UnforkedIffTimely(hash: Bytes -> Bytes, claims: map<Uuid, Ownership>, rows: seq<Row>, qs: seq<Request>, claim: Uuid)
    requires Whole(hash, rows) && DistinctHashes(hash, OfClaim(Run(hash, claims, rows, qs), claim))
    ensures var chain := OfClaim(Run(hash, claims, rows, qs), claim);
      Chained(hash, chain) <==> forall k :: 0 <= k < |chain| - 1 ==> TimelyRow(chain, claim, k)
  {
    hide Run, OfClaim, LinkedToHeads, DistinctHashes, TimelyRow, LinkedAt, Whole, HeadHash, Head;
    WholeIsHeadLinked(hash, rows);
    RunIsHeadLinked(hash, claims, rows, qs);
    var chain := OfClaim(Run(hash, claims, rows, qs), claim);
    OfClaimMembers(Run(hash, claims, rows, qs), claim);
    forall i: nat | i < |chain| ensures LinkedAt(hash, chain, i) <==> i == 0 || TimelyRow(chain, claim, i - 1) {
      LinkedAtIff(hash, chain, claim, i);
    }
    forall k: nat | k < |chain| - 1 ensures TimelyRow(chain, claim, k) <==> LinkedAt(hash, chain, k + 1) {
    }
  }

  lemma WholeIsHeadLinked(hash: Bytes -> Bytes, rows: seq<Row>)
    requires Whole(hash, rows)
    ensures HeadLinked(hash, rows)
  {
    hide OfClaim, LinkedToHeads, Ordered, Chained;
    forall claim ensures LinkedToHeads(hash, OfClaim(rows, claim), claim) {
      OfClaimMembers(rows, claim);
      ChainIsLinked(hash, OfClaim(rows, claim), claim);
    }
  }

  lemma ChainIsLinked(hash: Bytes -> Bytes, chain: seq<Row>, claim: Uuid)
    requires Chained(hash, chain) && Ordered(chain) && forall i :: 0 <= i < |chain| ==> chain[i].claim == claim
    ensures LinkedToHeads(hash, chain, claim)
  {
    forall i | 0 <= i < |chain| ensures chain[i].prev == HeadHash(hash, chain[..i], claim) {
      assert LinkedAt(hash, chain, i);
      HeadOfOrdered(chain, claim, i);
    }
  }

  lemma {:induction false} HeadOfOrdered(chain: seq<Row>, claim: Uuid, i: nat)
    requires i <= |chain| && Ordered(chain) && forall k :: 0 <= k < |chain| ==> chain[k].claim == claim
    ensures Head(chain[..i], claim) == if i == 0 then None else Some(chain[i - 1])
  {
    if i > 0 {
      HeadOfOrdered(chain, claim, i - 1);
      assert chain[..i] == chain[..i - 1] + [chain[i - 1]];
      HeadAppend(chain[..i - 1], chain[i - 1], claim);
      assert i > 1 ==> LaterAt(chain, i - 1);
    }
  }

  /** A clock that steps back forks the chain: stamps 5, 4, 6. */
  lemma ASteppedClockForks(claim: Uuid, a: Uuid, b: Uuid, c: Uuid, owner: Ownership)
    requires a != b && b != c && a != c
    ensures var reader := Reader(true, {});
      var qs := [Request(claim, a, a, "reviewed", [1], owner, reader, 1, 5),
                 Request(claim, b, b, "reviewed", [2], owner, reader, 2, 4),
                 Request(claim, c, c, "reviewed", [3], owner, reader, 3, 6)];
      !Chained((s: Bytes) => s, OfClaim(Run((s: Bytes) => s, map[claim := owner], [], qs), claim))
  {
    hide Run, OfClaim, Head, Chained;
    var hash, reader, claims := (s: Bytes) => s, Reader(true, {}), map[claim := owner];
    var qs := [Request(claim, a, a, "reviewed", [1], owner, reader, 1, 5),
               Request(claim, b, b, "reviewed", [2], owner, reader, 2, 4),
               Request(claim, c, c, "reviewed", [3], owner, reader, 3, 6)];
    var row0, row1, row2 := NewRow(hash, qs[0], None), NewRow(hash, qs[1], Some([1])), NewRow(hash, qs[2], Some([1]));
    assert [] + [row0] == [row0] && [row0] + [row1] == [row0, row1] && [row0, row1] + [row2] == [row0, row1, row2];
    assert qs == [] + [qs[0]] + [qs[1]] + [qs[2]];
    EmptyTable(claim);
    HeadAppend([], row0, claim);
    HeadAppend([row0], row1, claim);
    RunAppend(hash, claims, [], [], qs[0], row0);
    RunAppend(hash, claims, [], [] + [qs[0]], qs[1], row1);
    RunAppend(hash, claims, [], [] + [qs[0]] + [qs[1]], qs[2], row2);
    OfClaimAppend([], row0, claim);
    OfClaimAppend([row0], row1, claim);
    OfClaimAppend([row0, row1], row2, claim);
    ChainedAppend(hash, [row0, row1], row2);
  }

  lemma EmptyTable(claim: Uuid)
    ensures Head([], claim) == None && OfClaim([], claim) == []
    ensures forall hash, claims :: Run(hash, claims, [], []) == []
  {
  }

  lemma RunAppend(hash: Bytes -> Bytes, claims: map<Uuid, Ownership>, rows: seq<Row>, qs: seq<Request>, q: Request, row: Row)
    requires Recording(hash, claims, Run(hash, claims, rows, qs), q) == Recorded(row)
    ensures Run(hash, claims, rows, qs + [q]) == Run(hash, claims, rows, qs) + [row]
  {
    hide Recording;
    assert (qs + [q])[..|qs|] == qs;
  }

  // ── The check and the backfill over runs ────────────────────────────────

  /** After legacy rows without stored hashes, any timely run of appends and
      one backfill, the check is silent; and a chain without such rows passes
      as it is. */
  lemma WholeChainsPass(hash: Bytes -> Bytes, rows: seq<Row>)
    requires Whole(hash, rows)
    ensures FindingsOf(hash, Filled(hash, rows)) == []
    ensures FindingsOf(hash, rows) == [] <==> MissingIn(rows) == 0
  {
    hide Chained, Ordered, HashRight, FindingsOf, Filled;
    BackfillRepairs(hash, rows);
    FindingsEmptyIff(hash, rows);
    NothingMissingIff(rows);
    forall i | 0 <= i < |rows| ensures LinkRight(hash, rows, rows[i]) {
      LinksExist(hash, rows, i);
    }
    forall i | 0 <= i < |rows| ensures HashRight(hash, rows[i]) {
    }
    StoredMeansRight(hash, rows);
  }

  lemma StoredMeansRight(hash: Bytes -> Bytes, rows: seq<Row>)
    requires forall i :: 0 <= i < |rows| ==> HashRight(hash, rows[i])
    ensures forall i :: 0 <= i < |rows| ==> (rows[i].stored == Some(hash(rows[i].signature)) <==> rows[i].stored.Some?)
  {
  }

  lemma {:induction false} OfClaimHas(rows: seq<Row>, i: nat)
    requires i < |rows|
    ensures rows[i] in OfClaim(rows, rows[i].claim)
  {
    if i < |rows| - 1 {
      OfClaimHas(rows[..|rows| - 1], i);
    }
  }

  lemma LinksExist(hash: Bytes -> Bytes, rows: seq<Row>, i: nat)
    requires Whole(hash, rows) && i < |rows|
    ensures LinkRight(hash, rows, rows[i])
  {
    var claim := rows[i].claim;
    var chain := OfClaim(rows, claim);
    OfClaimHas(rows, i);
    OfClaimMembers(rows, claim);
    assert Chained(hash, chain);
    var k :| 0 <= k < |chain| && chain[k] == rows[i];
    if rows[i].prev.Some? {
      assert LinkedAt(hash, chain, k);
      assert chain[k - 1] in rows;
      var j :| 0 <= j < |rows| && rows[j] == chain[k - 1];
      assert Carries(hash, rows, claim, rows[i].prev.value);
    }
  }

  /** The check looks for links that exist, not for a fork: whatever the time
      stamps, appending to rows that pass gives rows that pass. */
  lemma AppendsKeepPassing(hash: Bytes -> Bytes, claims: map<Uuid, Ownership>, rows: seq<Row>, q: Request)
    requires FindingsOf(hash, rows) == []
    ensures FindingsOf(hash, After(rows, Recording(hash, claims, rows, q))) == []
  {
    hide FindingsOf, Clashes, MayRead, Head;
    var outcome := Recording(hash, claims, rows, q);
    if outcome.Recorded? {
      var more := rows + [outcome.row];
      FindingsEmptyIff(hash, rows);
      FindingsEmptyIff(hash, more);
      forall i | 0 <= i < |more| ensures LinkRight(hash, more, more[i]) {
        if i < |rows| {
          CarriesMore(hash, rows, outcome.row, more[i]);
        } else if outcome.row.prev.Some? {
          HeadIsMember(rows, q.claim);
          var j :| 0 <= j < |rows| && rows[j] == Head(rows, q.claim).value;
          assert more[j] == rows[j];
        }
      }
    }
  }

  lemma CarriesMore(hash: Bytes -> Bytes, rows: seq<Row>, extra: Row, row: Row)
    requires LinkRight(hash, rows, row)
    ensures LinkRight(hash, rows + [extra], row)
  {
    if row.prev.Some? {
      var i :| 0 <= i < |rows| && rows[i].claim == row.claim && hash(rows[i].signature) == row.prev.value;
      assert (rows + [extra])[i] == rows[i];
    }
  }

  lemma {:induction false} HeadIsMember(rows: seq<Row>, claim: Uuid)
    ensures Head(rows, claim).Some? ==> Head(rows, claim).value in rows && Head(rows, claim).value.claim == claim
  {
    if rows != [] {
      HeadIsMember(rows[..|rows| - 1], claim);
      assert forall r :: r in rows[..|rows| - 1] ==> r in rows;
    }
  }

  /** Once every hash is filled, no writer who can read the claim is refused
      for a head it cannot read. */
  lemma FilledNeverRefusesHead(hash: Bytes -> Bytes, claims: map<Uuid, Ownership>, rows: seq<Row>, q: Request)
    requires MissingIn(rows) == 0
    ensures Recording(hash, claims, rows, q) != Refused(HeadNotVisible)
  {
    NothingMissingIff(rows);
    HeadIsMember(rows, q.claim);
  }
}
