/** The bounded session table against an unbounded one, over every run, and
    what that means for a request naming another caller's session
    (crates/episcience-api/src/mcp/http.rs). */
module SessionRuns {
  import opened Base
  import opened Sessions

  // ── Runs of the table, bounded and unbounded ────────────────────────────

  datatype Op = Bind(session: string, owner: Owner) | Forget(session: string)

  datatype State = State(table: Table, next: nat)

  function Apply(s: State, op: Op): State {
    match op
    case Bind(session, owner) => State(Bound(s.table, s.next, session, owner), s.next + 1)
    case Forget(session) => State(s.table - {session}, s.next)
  }

  function Run(ops: seq<Op>): State {
    if ops == [] then State(map[], 0) else Apply(Run(ops[..|ops| - 1]), ops[|ops| - 1])
  }

  /** The table without a bound: every session not forgotten, with its latest
      owner. */
  function Unbounded(ops: seq<Op>): State {
    if ops == [] then State(map[], 0)
    else
      var before := Unbounded(ops[..|ops| - 1]);
      match ops[|ops| - 1]
      case Bind(session, owner) => State(before.table[session := Binding(owner, before.next)], before.next + 1)
      case Forget(session) => State(before.table - {session}, before.next)
  }

  /** Bindings made since the session's own. */
  function BoundSince(s: State, session: string): int
    requires session in s.table
  {
    s.next - 1 - s.table[session].number
  }

  ghost predicate Sized(s: State) {
    && |s.table| <= MAX_BOUND_SESSIONS
    && DistinctSeqs(s.table)
    && forall k :: k in s.table ==> s.table[k].number < s.next
  }

  /** What is present is what the unbounded table says; what is missing was
      bound at least `MAX_BOUND_SESSIONS - DROPPED` bindings ago. */
  ghost predicate Agrees(s: State, all: State) {
    && s.next == all.next
    && (forall k :: k in s.table ==> k in all.table && s.table[k] == all.table[k])
    && forall k :: k in all.table && k !in s.table ==> BoundSince(all, k) > MAX_BOUND_SESSIONS - DROPPED
  }

  // ── An eviction drops only old bindings ─────────────────────────────────

  function NewerThan(table: Table, number: nat): set<string> {
    set j | j in table && table[j].number > number
  }

  lemma OlderAndNewer(table: Table, session: string)
    requires DistinctSeqs(table) && session in table
    ensures |OlderThan(table, table[session].number)| + 1 + |NewerThan(table, table[session].number)| == |table|
  {
    var older, newer := OlderThan(table, table[session].number), NewerThan(table, table[session].number);
    assert table.Keys == older + {session} + newer;
    assert |older + {session}| == |older| + 1;
    assert |older + {session} + newer| == |older + {session}| + |newer|;
  }

  lemma {:induction false} DistinctNumbers(table: Table, keys: set<string>, lo: int, hi: int)
    requires DistinctSeqs(table) && forall k :: k in keys ==> k in table && lo < table[k].number < hi
    ensures |keys| <= Max(hi - lo - 1, 0)
    decreases |keys|
  {
    if keys != {} {
      var k :| k in keys;
      var below := set j | j in keys && table[j].number < table[k].number;
      var above := set j | j in keys && table[j].number > table[k].number;
      assert keys == below + {k} + above;
      assert k !in below && k !in above;
      ThreeParts(keys, below, k, above);
      DistinctNumbers(table, below, lo, table[k].number);
      DistinctNumbers(table, above, table[k].number, hi);
    }
  }

  lemma ThreeParts(keys: set<string>, below: set<string>, k: string, above: set<string>)
    requires keys == below + {k} + above && k !in below && k !in above && below !! above
    ensures |keys| == |below| + 1 + |above|
  {
    assert |below + {k}| == |below| + 1;
    assert |below + {k} + above| == |below + {k}| + |above|;
  }

  /** A binding is dropped only from a full table, and only while at least
      `MAX_BOUND_SESSIONS - DROPPED` bindings in it are newer. */
  lemma DroppedWasOld(s: State, session: string)
    requires Sized(s) && |s.table| >= MAX_BOUND_SESSIONS && session in Oldest(s.table, DROPPED)
    ensures |NewerThan(s.table, s.table[session].number)| >= MAX_BOUND_SESSIONS - DROPPED
    ensures BoundSince(s, session) >= MAX_BOUND_SESSIONS - DROPPED
  {
    OlderAndNewer(s.table, session);
    DistinctNumbers(s.table, NewerThan(s.table, s.table[session].number), s.table[session].number, s.next);
  }

  lemma ApplyKeepsSized(s: State, op: Op)
    requires Sized(s)
    ensures Sized(Apply(s, op))
  {
    hide Oldest, DistinctSeqs;
    match op {
      case Bind(session, owner) =>
        if |s.table| >= MAX_BOUND_SESSIONS {
          EvictionMakesRoom(s);
        }
        BindingFits(if |s.table| >= MAX_BOUND_SESSIONS then s.table - Oldest(s.table, DROPPED) else s.table, s.next, session, owner);
      case Forget(session) =>
        FewerStayDistinct(s.table, {session}, s.next);
        SubsetCardinality((s.table - {session}).Keys, s.table.Keys);
    }
  }

  /** A non-empty table has an oldest binding. */
  lemma {:induction false} SomeOldest(table: Table, keys: set<string>) returns (k: string)
    requires keys != {} && forall j :: j in keys ==> j in table
    ensures k in keys && forall j :: j in keys ==> table[k].number <= table[j].number
  {
    k :| k in keys;
    var rest := keys - {k};
    if rest != {} {
      var other := SomeOldest(table, rest);
      if table[other].number < table[k].number {
        k := other;
      }
    }
  }

  lemma EvictionMakesRoom(s: State)
    requires Sized(s) && |s.table| >= MAX_BOUND_SESSIONS
    ensures var left := s.table - Oldest(s.table, DROPPED);
      |left| < MAX_BOUND_SESSIONS && DistinctSeqs(left) && forall k :: k in left ==> left[k].number < s.next
  {
    hide DistinctSeqs;
    var left := s.table - Oldest(s.table, DROPPED);
    assert s.table.Keys != {};
    var k := SomeOldest(s.table, s.table.Keys);
    assert OlderThan(s.table, s.table[k].number) == {};
    assert k in Oldest(s.table, DROPPED);
    SubsetCardinality(left.Keys, s.table.Keys - {k});
    FewerStayDistinct(s.table, Oldest(s.table, DROPPED), s.next);
  }

  /** Exactly n bindings are the n oldest, and each is older than every other. */
  lemma {:induction false} OldestCount(table: Table, n: nat)
    requires DistinctSeqs(table) && n <= |table|
    ensures |Oldest(table, n)| == n
    ensures forall k, j :: k in Oldest(table, n) && j in table && j !in Oldest(table, n) ==> table[k].number < table[j].number
  {
    hide OlderThan, DistinctSeqs;
    if n == 0 {
      assert Oldest(table, 0) == {};
    } else {
      var before := Oldest(table, n - 1);
      OldestCount(table, n - 1);
      var rest := table.Keys - before;
      SomethingIsLeft(table.Keys, before);
      var k := SomeOldest(table, rest);
      OldestGrows(table, n, k);
    }
  }

  lemma SomethingIsLeft(all: set<string>, some: set<string>)
    requires |some| < |all|
    ensures all - some != {}
  {
    if all <= some {
      SubsetCardinality(all, some);
    }
    var x :| x in all && x !in some;
    assert x in all - some;
  }

  lemma OldestGrows(table: Table, n: nat, k: string)
    requires DistinctSeqs(table) && 0 < n <= |table| && |Oldest(table, n - 1)| == n - 1
    requires forall j, i :: j in Oldest(table, n - 1) && i in table && i !in Oldest(table, n - 1) ==> table[j].number < table[i].number
    requires k in table && k !in Oldest(table, n - 1)
    requires forall j :: j in table && j !in Oldest(table, n - 1) ==> table[k].number <= table[j].number
    ensures Oldest(table, n) == Oldest(table, n - 1) + {k} && |Oldest(table, n)| == n
    ensures forall j, i :: j in Oldest(table, n) && i in table && i !in Oldest(table, n) ==> table[j].number < table[i].number
  {
    var before := Oldest(table, n - 1);
    assert OlderThan(table, table[k].number) == before;
    forall j | j in table && j !in before && j != k ensures j !in Oldest(table, n) && table[k].number < table[j].number {
      assert before + {k} <= OlderThan(table, table[j].number);
      SubsetCardinality(before + {k}, OlderThan(table, table[j].number));
    }
    assert Oldest(table, n) == before + {k};
  }

  /** A full table gives up exactly 1,001 bindings, each older than every one
      that stays, before the new one goes in. */
  lemma FullTableDrops(s: State, session: string, owner: Owner)
    requires Sized(s)
    ensures var kept := Bound(s.table, s.next, session, owner);
      && kept[session := Binding(owner, s.next)] == kept
      && (|s.table| < 10_000 ==> kept == s.table[session := Binding(owner, s.next)])
      && (|s.table| == 10_000 ==>
            exists gone: set<string> :: |gone| == 1_001 && gone <= s.table.Keys && kept == (s.table - gone)[session := Binding(owner, s.next)]
              && forall k, j :: k in gone && j in s.table && j !in gone ==> s.table[k].number < s.table[j].number)
  {
    hide Oldest, DistinctSeqs;
    if |s.table| == 10_000 {
      OldestCount(s.table, 1_001);
      OldestInTable(s.table, 1_001);
    }
  }

  lemma OldestInTable(table: Table, n: nat)
    ensures Oldest(table, n) <= table.Keys
  {
  }

  lemma ApplyKeepsAgreement(s: State, ops: seq<Op>, op: Op)
    requires Sized(s) && Agrees(s, Unbounded(ops))
    ensures Agrees(Apply(s, op), Unbounded(ops + [op]))
  {
    hide Oldest, Sized, Unbounded;
    var all := Unbounded(ops);
    UnboundedStep(ops, op);
    var t, more := Apply(s, op), Unbounded(ops + [op]);
    forall k | k in more.table && k !in t.table ensures BoundSince(more, k) > MAX_BOUND_SESSIONS - DROPPED {
      if k in s.table {
        DroppedWasOld(s, k);
      }
    }
  }

  lemma UnboundedStep(ops: seq<Op>, op: Op)
    ensures Unbounded(ops + [op]) == match op
      case Bind(session, owner) => State(Unbounded(ops).table[session := Binding(owner, Unbounded(ops).next)], Unbounded(ops).next + 1)
      case Forget(session) => State(Unbounded(ops).table - {session}, Unbounded(ops).next)
  {
    assert (ops + [op])[..|ops|] == ops;
  }

  /** In every run of binds and forgets the table keeps within its bound, its
      sequence numbers are distinct, a present binding is the session's latest
      owner, and a session bound and not forgotten is missing only if more
      than 8,999 bindings were made since its own. */
  lemma {:induction false} TableAgrees(ops: seq<Op>)
    ensures Sized(Run(ops)) && Agrees(Run(ops), Unbounded(ops))
  {
    hide Sized, Agrees, Apply;
    if ops == [] {
      NothingBound();
    } else {
      var n := |ops| - 1;
      TableAgrees(ops[..n]);
      ApplyKeepsSized(Run(ops[..n]), ops[n]);
      ApplyKeepsAgreement(Run(ops[..n]), ops[..n], ops[n]);
      assert ops == ops[..n] + [ops[n]];
    }
  }

  /** What a lookup means: it answers with the session's latest opener or not
      at all, and it answers whenever the session was opened, not closed, and
      at most 8,999 sessions were opened since. */
  lemma LookupIsLatest(ops: seq<Op>, session: string)
    ensures var found, all := OwnerIn(Run(ops).table, session), Unbounded(ops);
      && (found.Some? ==> found == OwnerIn(all.table, session))
      && (session in all.table && BoundSince(all, session) <= MAX_BOUND_SESSIONS - DROPPED ==> found.Some?)
  {
    hide Sized, Run, Unbounded;
    TableAgrees(ops);
  }

  lemma NothingBound()
    ensures Sized(State(map[], 0)) && Agrees(State(map[], 0), State(map[], 0))
  {
  }

  // ── Requests ────────────────────────────────────────────────────────────

  datatype Method = Post | Get | Delete | OtherMethod

  datatype Call = Call(meth: Method, session: Option<string>, caller: Option<Owner>)

  /** What the session service answers when a request reaches it. */
  datatype Reply = Reply(success: bool, created: Option<string>)

  datatype Verdict = NoCaller | UnknownSession(meth: Method) | Reaches

  /** The check before the service is asked. */
  function Admit(table: Table, call: Call): Verdict {
    if call.caller.None? then NoCaller
    else if call.session.Some? && !call.meth.OtherMethod?
         && call.session.value in table && table[call.session.value].owner != call.caller.value
    then UnknownSession(call.meth)
    else Reaches
  }

  /** What an answered request does to the table. */
  function Consequence(call: Call, reply: Reply): Option<Op> {
    if call.caller.None? || !reply.success then None
    else match call.session
         case Some(session) => if call.meth.Delete? then Some(Forget(session)) else None
         case None => if reply.created.Some? then Some(Bind(reply.created.value, call.caller.value)) else None
  }

  function ApplyAll(s: State, ops: seq<Op>): State {
    if ops == [] then s else Apply(ApplyAll(s, ops[..|ops| - 1]), ops[|ops| - 1])
  }

  /** What other requests do to the table while one is with the service. */
  method Others(owners: SessionOwners, ops: seq<Op>)
    requires owners.Valid()
    modifies owners
    ensures owners.Valid()
    ensures State(owners.byId, owners.nextSeq) == ApplyAll(State(old(owners.byId), old(owners.nextSeq)), ops)
  {
    hide Oldest, DistinctSeqs;
    ghost var before := State(owners.byId, owners.nextSeq);
    for i := 0 to |ops|
      invariant owners.Valid()
      invariant State(owners.byId, owners.nextSeq) == ApplyAll(before, ops[..i])
    {
      assert ops[..i + 1][..i] == ops[..i];
      match ops[i] {
        case Bind(session, owner) => owners.Bind(session, owner);
        case Forget(session) => owners.Forget(session);
      }
    }
    assert ops[..|ops|] == ops;
  }

  /** The request step over the table object: the check, the service while
      other requests come and go, and the binding or forgetting that follows
      its answer. */
  method Serve(owners: SessionOwners, call: Call, service: Call -> Reply, meanwhile: seq<Op>) returns (verdict: Verdict)
    requires owners.Valid()
    modifies owners
    ensures owners.Valid()
    ensures verdict == Admit(old(owners.byId), call)
    ensures var before, after := State(old(owners.byId), old(owners.nextSeq)), State(owners.byId, owners.nextSeq);
      && (verdict != Reaches ==> after == before)
      && (verdict == Reaches ==> after == ApplyAll(before, meanwhile + OpsOf(Consequence(call, service(call)))))
    // Written out: who is turned away, and what an answer does.
    ensures verdict == NoCaller <==> call.caller.None?
    ensures verdict == UnknownSession(call.meth) <==>
      && call.caller.Some? && call.session.Some? && call.meth in {Post, Get, Delete}
      && call.session.value in old(owners.byId) && old(owners.byId)[call.session.value].owner != call.caller.value
    ensures verdict in {NoCaller, UnknownSession(call.meth), Reaches}
    ensures verdict == Reaches ==>
      var others, reply := ApplyAll(State(old(owners.byId), old(owners.nextSeq)), meanwhile), service(call);
      if reply.success && call.session.None? && reply.created.Some? then
        && reply.created.value in owners.byId && owners.byId[reply.created.value].owner == call.caller.value
        && owners.byId[reply.created.value].number == others.next == owners.nextSeq - 1
      else if reply.success && call.session.Some? && call.meth == Delete then
        owners.byId == others.table - {call.session.value} && owners.nextSeq == others.next
      else State(owners.byId, owners.nextSeq) == others
  {
    hide Oldest, DistinctSeqs;
    if call.caller.None? {
      return NoCaller;
    }
    if call.session.Some? && !call.meth.OtherMethod? {
      var bound := owners.OwnerOf(call.session.value);
      if bound.Some? && bound.value != call.caller.value {
        return UnknownSession(call.meth);
      }
    }
    ghost var before := State(owners.byId, owners.nextSeq);
    Others(owners, meanwhile);
    var reply := service(call);
    AnswerIsLast(before, meanwhile, Consequence(call, reply));
    if reply.success {
      if call.session.Some? {
        if call.meth.Delete? {
          owners.Forget(call.session.value);
        }
      } else if reply.created.Some? {
        owners.Bind(reply.created.value, call.caller.value);
      }
    }
    return Reaches;
  }

  function OpsOf(op: Option<Op>): seq<Op> {
    if op.Some? then [op.value] else []
  }

  lemma AnswerIsLast(s: State, meanwhile: seq<Op>, op: Option<Op>)
    ensures ApplyAll(s, meanwhile + OpsOf(op))
         == if op.Some? then Apply(ApplyAll(s, meanwhile), op.value) else ApplyAll(s, meanwhile)
  {
    if op.Some? {
      assert (meanwhile + [op.value])[..|meanwhile|] == meanwhile;
    } else {
      assert meanwhile + [] == meanwhile;
    }
  }

  // ── Requests in flight ──────────────────────────────────────────────────

  /** A request arrives and is checked, or the k-th admitted one is answered. */
  datatype Event = Arrive(call: Call) | Answer(k: nat, reply: Reply)

  /** The table, the operations that made it, the admitted requests. */
  datatype Flight = Flight(state: State, ops: seq<Op>, admitted: seq<Call>, answered: set<nat>)

  function Advance(f: Flight, e: Event): Flight {
    match e
    case Arrive(call) => if Admit(f.state.table, call) == Reaches then f.(admitted := f.admitted + [call]) else f
    case Answer(k, reply) =>
      if k < |f.admitted| && k !in f.answered then
        var ops := OpsOf(Consequence(f.admitted[k], reply));
        f.(state := ApplyAll(f.state, ops), ops := f.ops + ops, answered := f.answered + {k})
      else f
  }

  function Flown(events: seq<Event>): Flight {
    if events == [] then Flight(State(map[], 0), [], [], {}) else Advance(Flown(events[..|events| - 1]), events[|events| - 1])
  }

  lemma {:induction false} FlightIsRun(events: seq<Event>)
    ensures Flown(events).state == Run(Flown(events).ops)
  {
    hide Apply, Consequence;
    if events != [] {
      var n := |events| - 1;
      var f, e := Flown(events[..n]), events[n];
      FlightIsRun(events[..n]);
      if e.Answer? && e.k < |f.admitted| && e.k !in f.answered {
        var op := Consequence(f.admitted[e.k], e.reply);
        RunGoesOn(f.ops, op);
        AnswerIsLast(f.state, [], op);
        assert [] + OpsOf(op) == OpsOf(op);
      }
    }
  }

  lemma RunGoesOn(ops: seq<Op>, op: Option<Op>)
    ensures Run(ops + OpsOf(op)) == if op.Some? then Apply(Run(ops), op.value) else Run(ops)
  {
    if op.Some? {
      assert (ops + [op.value])[..|ops|] == ops;
    } else {
      assert ops + [] == ops;
    }
  }

  /** However requests overlap, each is checked against a table that some run
      of the operations so far has made, so the guarantee for foreign calls
      holds at every arrival. */
  lemma OverlappingForeignCallsAreRefused(events: seq<Event>, call: Call)
    requires call.caller.Some? && call.session.Some? && !call.meth.OtherMethod?
    ensures var f := Flown(events);
      var all := Unbounded(f.ops);
      call.session.value in all.table ==>
        && (all.table[call.session.value].owner == call.caller.value ==> Admit(f.state.table, call) == Reaches)
        && (all.table[call.session.value].owner != call.caller.value
            && BoundSince(all, call.session.value) <= MAX_BOUND_SESSIONS - DROPPED
            ==> Admit(f.state.table, call) == UnknownSession(call.meth))
  {
    hide Flown, Unbounded, Admit, Run;
    FlightIsRun(events);
    var f := Flown(events);
    if call.session.value in Unbounded(f.ops).table {
      ForeignCallsAreRefused(f.ops, call);
    }
  }

  /** The answer binds a session: it succeeded, and it created one for a request
      that named none. */
  predicate Opens(f: Flight, e: Event) {
    && e.Answer? && e.k < |f.admitted| && e.k !in f.answered
    && e.reply.success && e.reply.created.Some? && f.admitted[e.k].session.None?
  }

  /** The answer ends a session: a DELETE naming it succeeded. */
  predicate Closes(f: Flight, e: Event, session: string) {
    && e.Answer? && e.k < |f.admitted| && e.k !in f.answered
    && e.reply.success && f.admitted[e.k].session == Some(session) && f.admitted[e.k].meth == Delete
  }

  /** How many sessions the events after the first n opened. */
  function OpenedAfter(events: seq<Event>, n: nat): nat
    requires n <= |events|
  {
    if n == |events| then 0
    else
      var m := |events| - 1;
      OpenedAfter(events[..m], n) + if Opens(Flown(events[..m]), events[m]) then 1 else 0
  }

  /** The i-th event opened the session for its caller, and after it nobody
      opened it again or closed it. */
  ghost predicate OpenSince(events: seq<Event>, i: nat, session: string, caller: Owner) {
    && i < |events|
    && Opens(Flown(events[..i]), events[i]) && events[i].reply.created == Some(session)
    && Flown(events[..i]).admitted[events[i].k].caller == Some(caller)
    && forall j :: i < j < |events| ==> LeavesAlone(events, j, session)
  }

  ghost predicate LeavesAlone(events: seq<Event>, j: nat, session: string)
    requires j < |events|
  {
    && !(Opens(Flown(events[..j]), events[j]) && events[j].reply.created == Some(session))
    && !Closes(Flown(events[..j]), events[j], session)
  }

  /** A request is answered once: a second answer to it does nothing. */
  lemma AnsweredOnce(f: Flight, k: nat, first: Reply, second: Reply)
    ensures Advance(Advance(f, Answer(k, first)), Answer(k, second)) == Advance(f, Answer(k, first))
  {
  }

  /** Every admitted request has a caller. */
  lemma {:induction false} AdmittedHaveCallers(events: seq<Event>)
    ensures forall k :: 0 <= k < |Flown(events).admitted| ==> Flown(events).admitted[k].caller.Some?
  {
    if events != [] {
      AdmittedHaveCallers(events[..|events| - 1]);
    }
  }

  lemma {:induction false} OpenStays(events: seq<Event>, i: nat, session: string, caller: Owner)
    requires OpenSince(events, i, session, caller)
    ensures var all := Unbounded(Flown(events).ops);
      && session in all.table && all.table[session].owner == caller
      && BoundSince(all, session) == OpenedAfter(events, i + 1)
    decreases |events|
  {
    hide Unbounded, Apply, ApplyAll;
    var m := |events| - 1;
    var f, e := Flown(events[..m]), events[m];
    AdmittedHaveCallers(events[..m]);
    if e.Answer? && e.k < |f.admitted| && e.k !in f.answered {
      FlownAnswer(f, e);
      UnboundedGoesOn(f.ops, Consequence(f.admitted[e.k], e.reply));
    }
    if i == m {
      assert events[..m] == events[..i];
    } else {
      forall j | i < j < m ensures LeavesAlone(events[..m], j, session) {
        assert LeavesAlone(events, j, session);
        assert events[..m][..j] == events[..j];
      }
      assert events[..m][..i] == events[..i];
      OpenStays(events[..m], i, session, caller);
      assert LeavesAlone(events, m, session);
    }
  }

  lemma FlownAnswer(f: Flight, e: Event)
    requires e.Answer? && e.k < |f.admitted| && e.k !in f.answered
    ensures Advance(f, e).ops == f.ops + OpsOf(Consequence(f.admitted[e.k], e.reply))
  {
  }

  lemma UnboundedGoesOn(ops: seq<Op>, op: Option<Op>)
    ensures Unbounded(ops + OpsOf(op)) ==
      if op.None? then Unbounded(ops)
      else match op.value
           case Bind(session, owner) => State(Unbounded(ops).table[session := Binding(owner, Unbounded(ops).next)], Unbounded(ops).next + 1)
           case Forget(session) => State(Unbounded(ops).table - {session}, Unbounded(ops).next)
  {
    if op.Some? {
      UnboundedStep(ops, op.value);
    } else {
      assert ops + [] == ops;
    }
  }

  /** What the layer is for. Once the request that created a session is
      answered, and while nobody opens it again or closes it, a POST, GET or
      DELETE of anybody else naming it is answered as for an unknown session,
      unless more than 8,999 sessions were opened since; its opener gets
      through. Requests may overlap in any way. */
  lemma AnOpenSessionIsGuarded(events: seq<Event>, i: nat, session: string, opener: Owner, call: Call)
    requires OpenSince(events, i, session, opener)
    requires call.caller.Some? && call.session == Some(session) && call.meth in {Post, Get, Delete}
    ensures call.caller.value == opener ==> Admit(Flown(events).state.table, call) == Reaches
    ensures call.caller.value != opener && OpenedAfter(events, i + 1) <= 8_999 ==>
      Admit(Flown(events).state.table, call) == UnknownSession(call.meth)
  {
    hide Flown, Unbounded, OpenSince, Admit;
    OpenStays(events, i, session, opener);
    OverlappingForeignCallsAreRefused(events, call);
  }

  /** End to end, for every run of bindings and forgettings, interleaved in any
      way: a POST, GET or DELETE naming a session that another caller opened,
      and nobody closed, is answered as for an unknown session, unless more
      than 8,999 sessions were opened since. The opener itself always gets
      through. */
  lemma ForeignCallsAreRefused(ops: seq<Op>, call: Call)
    requires call.caller.Some? && call.session.Some? && !call.meth.OtherMethod?
    requires call.session.value in Unbounded(ops).table
    ensures Unbounded(ops).table[call.session.value].owner == call.caller.value ==> Admit(Run(ops).table, call) == Reaches
    ensures Unbounded(ops).table[call.session.value].owner != call.caller.value
            && BoundSince(Unbounded(ops), call.session.value) <= MAX_BOUND_SESSIONS - DROPPED
            ==> Admit(Run(ops).table, call) == UnknownSession(call.meth)
  {
    hide Sized, Run, Unbounded;
    TableAgrees(ops);
  }
}
