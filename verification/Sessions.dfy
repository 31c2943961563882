/** The table of session owners, bounded by evicting the oldest bindings, and
    the request step that consults it
    (crates/episcience-api/src/mcp/http.rs). */
module Sessions {
  import opened Base

  const MAX_BOUND_SESSIONS := 10_000

  /** How many of the oldest bindings an overflow drops. */
  const DROPPED := MAX_BOUND_SESSIONS / 10 + 1

  datatype Owner = Owner(client: Uuid, agent: Option<Uuid>)

  datatype Binding = Binding(owner: Owner, number: nat)

  type Table = map<string, Binding>

  datatype Aged = Aged(number: nat, session: string)

  ghost predicate DistinctSeqs(table: Table) {
    forall a, b :: a in table && b in table && a != b ==> table[a].number != table[b].number
  }

  function OlderThan(table: Table, number: nat): set<string> {
    set j | j in table && table[j].number < number
  }

  /** The `n` oldest bindings: those with fewer than `n` older ones. */
  function Oldest(table: Table, n: nat): set<string> {
    set k | k in table && |OlderThan(table, table[k].number)| < n
  }

  /** Who a table says opened a session. */
  function OwnerIn(table: Table, session: string): Option<Owner> {
    if session in table then Some(table[session].owner) else None
  }

  function Bound(table: Table, next: nat, session: string, owner: Owner): Table {
    (if |table| >= MAX_BOUND_SESSIONS then table - Oldest(table, DROPPED) else table)[session := Binding(owner, next)]
  }

  // ── The table ───────────────────────────────────────────────────────────

  ghost predicate SortedByAge(entries: seq<Aged>) {
    forall i, j :: 0 <= i < j < |entries| ==> entries[i].number < entries[j].number
  }

  /** The entries of the sessions in `keys`, one each. */
  ghost predicate EntriesOf(entries: seq<Aged>, table: Table, keys: set<string>) {
    && (forall i :: 0 <= i < |entries| ==>
          entries[i].session in keys && entries[i].session in table && entries[i].number == table[entries[i].session].number)
    && (forall k :: k in keys ==> k in table && Aged(table[k].number, k) in entries)
  }

  class SessionOwners {
    var byId: Table
    var nextSeq: nat

    ghost predicate Valid()
      reads this
    {
      && |byId| <= MAX_BOUND_SESSIONS
      && DistinctSeqs(byId)
      && forall k :: k in byId ==> byId[k].number < nextSeq
    }

    constructor ()
      ensures Valid() && byId == map[] && nextSeq == 0
    {
      byId, nextSeq := map[], 0;
    }

    method OwnerOf(session: string) returns (owner: Option<Owner>)
      ensures owner == OwnerIn(byId, session)
    {
      owner := if session in byId then Some(byId[session].owner) else None;
    }

    method Forget(session: string)
      requires Valid()
      modifies this`byId
      ensures Valid() && byId == old(byId) - {session}
    {
      byId := byId - {session};
      assert byId.Keys <= old(byId).Keys;
      SubsetCardinality(byId.Keys, old(byId).Keys);
    }

    /** The bindings as a list, oldest first. */
    method ByAge() returns (entries: seq<Aged>)
      requires Valid()
      ensures SortedByAge(entries) && EntriesOf(entries, byId, byId.Keys)
    {
      entries := [];
      var left := byId.Keys;
      while left != {}
        invariant left <= byId.Keys
        invariant SortedByAge(entries) && EntriesOf(entries, byId, byId.Keys - left)
        decreases left
      {
        var k :| k in left;
        assert forall e :: e in entries ==> e.number != byId[k].number;
        InsertKeepsSorted(entries, Aged(byId[k].number, k));
        InsertKeepsEntries(entries, byId, byId.Keys - left, k);
        entries := Insert(entries, Aged(byId[k].number, k));
        left := left - {k};
        assert byId.Keys - left == byId.Keys - (left + {k}) + {k};
      }
    }

    /** Remove the first `DROPPED` entries of the list. */
    method DropFirst(entries: seq<Aged>)
      modifies this`byId
      ensures byId == old(byId) - FirstSessions(entries, Min(DROPPED, |entries|))
    {
      hide FirstSessions;
      var i := 0;
      NoFirstSessions(entries);
      while i < |entries| && i < DROPPED
        invariant 0 <= i <= |entries| && i <= DROPPED
        invariant byId == old(byId) - FirstSessions(entries, i)
      {
        FirstSessionsStep(entries, i);
        MinusOneMore(old(byId), FirstSessions(entries, i), entries[i].session);
        byId := byId - {entries[i].session};
        i := i + 1;
      }
    }

    /** Drop the oldest bindings of a full table. */
    method DropOldest()
      requires Valid() && |byId| > 0
      modifies this`byId
      ensures Valid() && |byId| < MAX_BOUND_SESSIONS
      ensures byId == old(byId) - Oldest(old(byId), DROPPED)
    {
      hide SortedByAge, EntriesOf, Oldest, OlderThan, FirstSessions, DistinctSeqs;
      var entries := ByAge();
      OldestAreFirst(byId, entries, Min(DROPPED, |entries|));
      RoomWasMade(byId, Min(DROPPED, |entries|), entries);
      FewerStayDistinct(byId, FirstSessions(entries, Min(DROPPED, |entries|)), nextSeq);
      DropFirst(entries);
    }

    /** Bind a session to the caller that opened it, dropping the oldest
        bindings first when the table is full. */
    method Bind(session: string, owner: Owner)
      requires Valid()
      modifies this
      ensures Valid()
      ensures byId == Bound(old(byId), old(nextSeq), session, owner)
      ensures nextSeq == old(nextSeq) + 1
    {
      hide Oldest, DistinctSeqs;
      if |byId| >= MAX_BOUND_SESSIONS {
        DropOldest();
      }
      BindingFits(byId, nextSeq, session, owner);
      byId := byId[session := Binding(owner, nextSeq)];
      nextSeq := nextSeq + 1;
    }
  }

  function Insert(entries: seq<Aged>, e: Aged): seq<Aged> {
    if entries == [] || e.number < entries[0].number then [e] + entries else [entries[0]] + Insert(entries[1..], e)
  }

  lemma {:induction false} InsertMembers(entries: seq<Aged>, e: Aged)
    ensures forall x :: x in Insert(entries, e) <==> x in entries || x == e
  {
    if entries != [] && entries[0].number <= e.number {
      InsertMembers(entries[1..], e);
      assert entries == [entries[0]] + entries[1..];
    }
  }

  lemma {:induction false} InsertKeepsSorted(entries: seq<Aged>, e: Aged)
    requires SortedByAge(entries)
    requires forall x :: x in entries ==> x.number != e.number
    ensures SortedByAge(Insert(entries, e))
  {
    if entries != [] && entries[0].number <= e.number {
      InsertKeepsSorted(entries[1..], e);
      InsertMembers(entries[1..], e);
      var rest := Insert(entries[1..], e);
      forall j | 0 <= j < |rest| ensures entries[0].number < rest[j].number {
        assert rest[j] in rest;
      }
    }
  }

  lemma InsertKeepsEntries(entries: seq<Aged>, table: Table, keys: set<string>, k: string)
    requires EntriesOf(entries, table, keys) && k in table
    ensures EntriesOf(Insert(entries, Aged(table[k].number, k)), table, keys + {k})
  {
    var e := Aged(table[k].number, k);
    var more := Insert(entries, e);
    InsertMembers(entries, e);
    forall i | 0 <= i < |more|
      ensures more[i].session in keys + {k} && more[i].session in table && more[i].number == table[more[i].session].number
    {
      assert more[i] in more;
    }
  }

  function FirstSessions(entries: seq<Aged>, n: nat): set<string>
    requires n <= |entries|
  {
    set i | 0 <= i < n :: entries[i].session
  }

  lemma MinusOneMore(table: Table, gone: set<string>, session: string)
    ensures (table - gone) - {session} == table - (gone + {session})
  {
  }

  lemma NoFirstSessions(entries: seq<Aged>)
    ensures FirstSessions(entries, 0) == {}
  {
  }

  lemma FewerStayDistinct(table: Table, gone: set<string>, next: nat)
    requires DistinctSeqs(table) && forall k :: k in table ==> table[k].number < next
    ensures DistinctSeqs(table - gone) && forall k :: k in table - gone ==> (table - gone)[k].number < next
  {
  }

  lemma FirstSessionsStep(entries: seq<Aged>, n: nat)
    requires n < |entries|
    ensures FirstSessions(entries, n + 1) == FirstSessions(entries, n) + {entries[n].session}
  {
  }

  lemma SessionsDiffer(table: Table, entries: seq<Aged>, n: nat)
    requires SortedByAge(entries) && EntriesOf(entries, table, table.Keys) && n < |entries|
    ensures entries[n].session !in FirstSessions(entries, n)
  {
    forall i | 0 <= i < n ensures entries[i].session != entries[n].session {
      assert entries[i].number < entries[n].number;
    }
  }

  lemma OlderAreFirst(table: Table, entries: seq<Aged>, n: nat)
    requires SortedByAge(entries) && EntriesOf(entries, table, table.Keys) && n < |entries|
    ensures OlderThan(table, entries[n].number) == FirstSessions(entries, n)
  {
    forall j | j in OlderThan(table, entries[n].number) ensures j in FirstSessions(entries, n) {
      var k :| 0 <= k < |entries| && entries[k] == Aged(table[j].number, j);
    }
    forall j | j in FirstSessions(entries, n) ensures j in OlderThan(table, entries[n].number) {
      var k :| 0 <= k < n && entries[k].session == j;
      assert entries[k].number < entries[n].number;
    }
  }

  lemma {:induction false} FirstSessionsCount(table: Table, entries: seq<Aged>, n: nat)
    requires SortedByAge(entries) && EntriesOf(entries, table, table.Keys) && n <= |entries|
    ensures |FirstSessions(entries, n)| == n
  {
    hide SortedByAge, EntriesOf;
    if n > 0 {
      FirstSessionsCount(table, entries, n - 1);
      FirstSessionsStep(entries, n - 1);
      SessionsDiffer(table, entries, n - 1);
    }
  }

  /** In age order the i-th binding has exactly i older ones, so the first
      `DROPPED` entries are the oldest bindings. */
  lemma OldestAreFirst(table: Table, entries: seq<Aged>, n: nat)
    requires SortedByAge(entries) && EntriesOf(entries, table, table.Keys)
    requires n == Min(DROPPED, |entries|)
    ensures FirstSessions(entries, n) == Oldest(table, DROPPED)
  {
    forall k | k in table ensures k in FirstSessions(entries, n) <==> k in Oldest(table, DROPPED) {
      var i :| 0 <= i < |entries| && entries[i] == Aged(table[k].number, k);
      OlderAreFirst(table, entries, i);
      FirstSessionsCount(table, entries, i);
      if k in FirstSessions(entries, n) {
        var j :| 0 <= j < n && entries[j].session == k;
        assert entries[j].number == table[k].number;
      }
    }
  }

  lemma RoomWasMade(table: Table, n: nat, entries: seq<Aged>)
    requires SortedByAge(entries) && EntriesOf(entries, table, table.Keys)
    requires n == Min(DROPPED, |entries|) && 0 < |table| <= MAX_BOUND_SESSIONS
    ensures |table - FirstSessions(entries, n)| < MAX_BOUND_SESSIONS
  {
    var left := table - FirstSessions(entries, n);
    var some :| some in table;
    assert Aged(table[some].number, some) in entries;
    assert entries[0].session in FirstSessions(entries, n);
    assert left.Keys <= table.Keys - {entries[0].session};
    SubsetCardinality(left.Keys, table.Keys - {entries[0].session});
  }

  lemma BindingFits(table: Table, next: nat, session: string, owner: Owner)
    requires |table| < MAX_BOUND_SESSIONS && DistinctSeqs(table) && forall k :: k in table ==> table[k].number < next
    ensures var t := table[session := Binding(owner, next)];
      |t| <= MAX_BOUND_SESSIONS && DistinctSeqs(t) && forall k :: k in t ==> t[k].number < next + 1
  {
    var t := table[session := Binding(owner, next)];
    assert t.Keys == table.Keys + {session};
  }
}
