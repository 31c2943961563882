/** The internal novelty score: cosine and member overlap against prior
    syntheses, the five nearest kept
    (crates/episcience-db/src/synthesis/novelty_backend_internal.rs). */
module Novelty {
  import opened Base
  import opened Vectors

  const KEPT := 5

  datatype Prior = Prior(id: Uuid, embedding: Vector, members: seq<Uuid>)

  datatype Neighbour = Neighbour(id: Uuid, similarity: real, overlap: real)

  datatype Candidate = Candidate(embedding: Vector, members: seq<Uuid>)

  datatype Score = Score(score: real, neighbours: seq<Neighbour>)

  function MemberSet(members: seq<Uuid>): set<Uuid> {
    set m | m in members
  }

  /** Shared members over all members; nothing shared when there are none. */
  function Jaccard(a: seq<Uuid>, b: seq<Uuid>): real {
    var sa, sb := MemberSet(a), MemberSet(b);
    if |sa + sb| == 0 then 0.0 else |sa * sb| as real / |sa + sb| as real
  }

  /** Vectors that cannot be compared count as orthogonal. */
  function CosineOrZero(root: real -> real, a: Vector, b: Vector): real
    requires IsRoot(root)
  {
    match Cosine(root, a, b)
    case Some(c) => c
    case None => 0.0
  }

  function NeighbourOf(root: real -> real, c: Candidate, p: Prior): Neighbour
    requires IsRoot(root)
  {
    var overlap := Jaccard(p.members, c.members);
    Neighbour(p.id, 0.5 * CosineOrZero(root, c.embedding, p.embedding) + 0.5 * overlap, overlap)
  }

  function NeighboursOf(root: real -> real, c: Candidate, priors: seq<Prior>): seq<Neighbour>
    requires IsRoot(root)
  {
    seq(|priors|, i requires 0 <= i < |priors| => NeighbourOf(root, c, priors[i]))
  }

  // ── Sorting ─────────────────────────────────────────────────────────────

  /** `sorted` is `s` by falling similarity, ties in the order of `s`; `pos` are
      the positions in `s`. */
  ghost predicate Ranked(s: seq<Neighbour>, pos: seq<nat>, sorted: seq<Neighbour>) {
    && |pos| == |sorted| == |s| && Distinct(pos)
    && (forall i :: 0 <= i < |pos| ==> pos[i] < |s| && sorted[i] == s[pos[i]])
    && forall i, j :: 0 <= i < j < |pos| ==> RanksBefore(s, pos[i], pos[j])
  }

  predicate RanksBefore(s: seq<Neighbour>, a: nat, b: nat) {
    a < |s| && b < |s| && (s[a].similarity > s[b].similarity || (s[a].similarity == s[b].similarity && a < b))
  }

  /** A stable sort by falling similarity. */
  method SortBySimilarity(s: seq<Neighbour>) returns (sorted: seq<Neighbour>, ghost pos: seq<nat>)
    ensures Ranked(s, pos, sorted)
  {
    sorted, pos := [], [];
    for i := 0 to |s|
      invariant Ranked(s[..i], pos, sorted)
    {
      var k := 0;
      while k < |sorted| && sorted[k].similarity >= s[i].similarity
        invariant 0 <= k <= |sorted|
        invariant forall j :: 0 <= j < k ==> sorted[j].similarity >= s[i].similarity
      {
        k := k + 1;
      }
      InsertKeepsRanked(s, i, pos, sorted, k);
      sorted, pos := sorted[..k] + [s[i]] + sorted[k..], pos[..k] + [i] + pos[k..];
    }
    assert s[..|s|] == s;
  }

  lemma InsertKeepsRanked(s: seq<Neighbour>, i: nat, pos: seq<nat>, sorted: seq<Neighbour>, k: nat)
    requires i < |s| && Ranked(s[..i], pos, sorted) && k <= |sorted|
    requires forall j :: 0 <= j < k ==> sorted[j].similarity >= s[i].similarity
    requires k < |sorted| ==> sorted[k].similarity < s[i].similarity
    ensures Ranked(s[..i + 1], pos[..k] + [i] + pos[k..], sorted[..k] + [s[i]] + sorted[k..])
  {
    var longer := s[..i + 1];
    var pos', sorted' := pos[..k] + [i] + pos[k..], sorted[..k] + [s[i]] + sorted[k..];
    forall a | 0 <= a < |pos'|
      ensures pos'[a] < |longer| && sorted'[a] == longer[pos'[a]]
    {
      assert a < k ==> pos'[a] == pos[a] && sorted'[a] == sorted[a];
      assert a > k ==> pos'[a] == pos[a - 1] && sorted'[a] == sorted[a - 1];
    }
    forall a, b | 0 <= a < b < |pos'| ensures RanksBefore(longer, pos'[a], pos'[b]) {
      RankedAround(s, i, pos, sorted, k, a, b);
    }
    forall a, b | 0 <= a < b < |pos'| ensures pos'[a] != pos'[b] {
      assert RanksBefore(longer, pos'[a], pos'[b]);
    }
  }

  lemma RankedAround(s: seq<Neighbour>, i: nat, pos: seq<nat>, sorted: seq<Neighbour>, k: nat, a: nat, b: nat)
    requires i < |s| && Ranked(s[..i], pos, sorted) && k <= |sorted| && a < b <= |pos|
    requires forall j :: 0 <= j < k ==> sorted[j].similarity >= s[i].similarity
    requires k < |sorted| ==> sorted[k].similarity < s[i].similarity
    ensures var pos' := pos[..k] + [i] + pos[k..]; RanksBefore(s[..i + 1], pos'[a], pos'[b])
  {
    var before := s[..i];
    if b < k {
      assert RanksBefore(before, pos[a], pos[b]);
    } else if b == k {
      assert sorted[a] == before[pos[a]];
    } else if a < k {
      assert RanksBefore(before, pos[a], pos[b - 1]);
    } else if a == k {
      assert sorted[b - 1] == before[pos[b - 1]];
      assert b - 1 > k ==> RanksBefore(before, pos[k], pos[b - 1]);
    } else {
      assert RanksBefore(before, pos[a - 1], pos[b - 1]);
    }
  }

  // ── The score ───────────────────────────────────────────────────────────

  function Clamp(x: real): real {
    if x < 0.0 then 0.0 else if x > 1.0 then 1.0 else x
  }

  method CosineScore(root: real -> real, a: Vector, b: Vector) returns (c: real)
    requires IsRoot(root)
    ensures c == CosineOrZero(root, a, b)
  {
    var cos := CosineOf(root, a, b);
    c := if cos.Some? then cos.value else 0.0;
  }

  /** `kept` are the five first of `all` by falling similarity, ties in the
      order of `all` (all of them when there are no more). */
  ghost predicate Nearest(all: seq<Neighbour>, kept: seq<Neighbour>) {
    exists pos, sorted :: Ranked(all, pos, sorted) && kept == sorted[..Min(5, |all|)]
  }

  method InternalScore(root: real -> real, c: Candidate, priors: seq<Prior>) returns (score: Score)
    requires IsRoot(root)
    ensures Nearest(NeighboursOf(root, c, priors), score.neighbours)
    ensures score.score == if priors == [] then 1.0 else Clamp(1.0 - score.neighbours[0].similarity)
  {
    if priors == [] {
      assert NeighboursOf(root, c, priors) == [];
      assert Ranked(NeighboursOf(root, c, priors), [], []);
      return Score(1.0, []);
    }
    var scored: seq<Neighbour> := [];
    for i := 0 to |priors|
      invariant scored == NeighboursOf(root, c, priors[..i])
    {
      var overlap := Jaccard(priors[i].members, c.members);
      var cos := CosineScore(root, c.embedding, priors[i].embedding);
      scored := scored + [Neighbour(priors[i].id, 0.5 * cos + 0.5 * overlap, overlap)];
    }
    assert priors[..|priors|] == priors;
    var sorted, pos := SortBySimilarity(scored);
    var kept := if |sorted| > KEPT then sorted[..KEPT] else sorted;
    assert Ranked(scored, pos, sorted) && kept == sorted[..Min(5, |scored|)];
    score := Score(Clamp(1.0 - kept[0].similarity), kept);
  }

  /** There is only one such ranking, so the five are determined. */
  lemma {:induction false} RankingIsUnique(s: seq<Neighbour>, p: seq<nat>, a: seq<Neighbour>, q: seq<nat>, b: seq<Neighbour>, n: nat)
    requires Ranked(s, p, a) && Ranked(s, q, b) && n <= |s|
    ensures p[..n] == q[..n]
  {
    if n > 0 {
      RankingIsUnique(s, p, a, q, b, n - 1);
      FirstOfTheRest(s, p, a, q, b, n - 1);
      FirstOfTheRest(s, q, b, p, a, n - 1);
      assert p[..n] == p[..n - 1] + [p[n - 1]] && q[..n] == q[..n - 1] + [q[n - 1]];
    }
  }

  lemma FirstOfTheRest(s: seq<Neighbour>, p: seq<nat>, a: seq<Neighbour>, q: seq<nat>, b: seq<Neighbour>, n: nat)
    requires Ranked(s, p, a) && Ranked(s, q, b) && n < |s| && p[..n] == q[..n]
    ensures p[n] == q[n] || RanksBefore(s, p[n], q[n])
  {
    var k := PositionIn(s, p, a, q[n]);
    if k < n {
      SamePrefix(p, q, n, k);
    }
  }

  lemma SamePrefix(p: seq<nat>, q: seq<nat>, n: nat, k: nat)
    requires k < n <= |p| && n <= |q| && p[..n] == q[..n]
    ensures p[k] == q[k]
  {
    assert p[..n][k] == q[..n][k];
  }

  /** A ranking names every position. */
  lemma PositionIn(s: seq<Neighbour>, p: seq<nat>, a: seq<Neighbour>, x: nat) returns (k: nat)
    requires Ranked(s, p, a) && x < |s|
    ensures k < |p| && p[k] == x
  {
    if x !in p {
      BelowHas(|s|);
      DistinctWithin(p, Below(|s|) - {x});
    }
    k :| 0 <= k < |p| && p[k] == x;
  }

  function Below(n: nat): set<nat> {
    if n == 0 then {} else Below(n - 1) + {n - 1}
  }

  lemma {:induction false} BelowHas(n: nat)
    ensures |Below(n)| == n && forall i: nat :: i in Below(n) <==> i < n
  {
    if n > 0 {
      BelowHas(n - 1);
    }
  }

  // ── What the numbers mean ───────────────────────────────────────────────

  lemma FractionOf(part: nat, whole: nat)
    requires part <= whole && whole > 0
    ensures 0.0 <= part as real / whole as real <= 1.0
    ensures part as real / whole as real == 1.0 <==> part == whole
  {
    var p, w := part as real, whole as real;
    assert w > 0.0 && 0.0 <= p <= w;
    if part == whole {
      assert p / w == 1.0;
    } else {
      assert p / w < 1.0 by {
        assert p < w;
      }
    }
  }

  /** The member overlap lies in [0, 1] and is 1 exactly for equal, non-empty
      member sets. */
  lemma JaccardIs(a: seq<Uuid>, b: seq<Uuid>)
    ensures 0.0 <= Jaccard(a, b) <= 1.0
    ensures Jaccard(a, b) == 1.0 <==> MemberSet(a) == MemberSet(b) && MemberSet(a) != {}
    ensures Jaccard(a, b) == 0.0 <==> MemberSet(a) !! MemberSet(b)
  {
    var sa, sb := MemberSet(a), MemberSet(b);
    SubsetCardinality(sa * sb, sa + sb);
    if |sa + sb| > 0 {
      FractionOf(|sa * sb|, |sa + sb|);
      FractionZero(|sa * sb|, |sa + sb|);
      EqualBySize(sa * sb, sa + sb);
      MeetIsJoin(sa, sb);
      DisjointBySize(sa, sb);
    } else {
      assert sa + sb == {};
      assert sa == {};
    }
  }

  lemma MeetIsJoin<T(!new)>(a: set<T>, b: set<T>)
    ensures a * b == a + b <==> a == b
  {
    if a * b == a + b {
      forall x | x in a || x in b ensures x in a && x in b {
        assert x in a + b;
      }
    }
  }

  lemma DisjointBySize<T(!new)>(a: set<T>, b: set<T>)
    ensures |a * b| == 0 <==> a !! b
  {
    assert a !! b <==> a * b == {} by {
      assert forall x :: x in a * b <==> x in a && x in b;
    }
  }

  lemma FractionZero(part: nat, whole: nat)
    requires whole > 0
    ensures part as real / whole as real == 0.0 <==> part == 0
  {
    if part > 0 {
      assert part as real / whole as real > 0.0;
    }
  }

  lemma EqualBySize<T(!new)>(a: set<T>, b: set<T>)
    requires a <= b
    ensures |a| == |b| <==> a == b
  {
    if a != b {
      var x :| x in b && x !in a;
      assert a <= b - {x};
      SubsetCardinality(a, b - {x});
    }
  }

  lemma SimilarityIs(root: real -> real, c: Candidate, p: Prior)
    requires IsRoot(root)
    ensures -0.5 <= NeighbourOf(root, c, p).similarity <= 1.0
    ensures NeighbourOf(root, c, p).similarity == 1.0 <==>
      && Usable(c.embedding) && SameDirection(c.embedding, p.embedding)
      && MemberSet(p.members) == MemberSet(c.members) && MemberSet(c.members) != {}
  {
    hide Cosine, Jaccard, MemberSet, Usable, SameDirection;
    CosineOneIff(root, c.embedding, p.embedding);
    CosineIsCosine(root, c.embedding, p.embedding);
    JaccardIs(p.members, c.members);
  }

  /** What the score of a pair is made of: the sum of the cosine (0 without
      one) and the shared part of the members, halved. */
  lemma NeighbourMeans(root: real -> real, c: Candidate, p: Prior)
    requires IsRoot(root)
    ensures var n := NeighbourOf(root, c, p);
      var cos := Cosine(root, c.embedding, p.embedding);
      && n.id == p.id
      && 2.0 * n.similarity == (if cos.Some? then cos.value else 0.0) + n.overlap
      && n.overlap * |MemberSet(p.members) + MemberSet(c.members)| as real == |MemberSet(p.members) * MemberSet(c.members)| as real
      && (MemberSet(p.members) + MemberSet(c.members) == {} ==> n.overlap == 0.0)
  {
    hide Cosine;
    var sa, sb := MemberSet(p.members), MemberSet(c.members);
    if |sa + sb| > 0 {
      FractionTimes(|sa * sb| as real, |sa + sb| as real);
    } else {
      assert sa + sb == {};
      assert sa * sb == {};
    }
  }

  lemma FractionTimes(part: real, whole: real)
    requires whole > 0.0
    ensures part / whole * whole == part
  {
  }

  /** The score is one minus the greatest similarity to any prior, between 0
      and 1; it is 0 exactly when some prior points the same way and has the
      same members, and 1 exactly when no prior has a positive similarity. */
  lemma ScoreIsDistanceToNearest(root: real -> real, c: Candidate, priors: seq<Prior>, score: Score)
    requires IsRoot(root) && priors != []
    requires Nearest(NeighboursOf(root, c, priors), score.neighbours)
    requires score.score == Clamp(1.0 - score.neighbours[0].similarity)
    ensures exists i :: 0 <= i < |priors| && score.neighbours[0] == NeighbourOf(root, c, priors[i])
    ensures forall i :: 0 <= i < |priors| ==> NeighbourOf(root, c, priors[i]).similarity <= score.neighbours[0].similarity
    ensures 0.0 <= score.score <= 1.0
    ensures score.neighbours[0].similarity >= 0.0 ==> score.score == 1.0 - score.neighbours[0].similarity
    ensures score.neighbours[0].similarity < 0.0 ==> score.score == 1.0
    ensures score.score == 0.0 <==> exists i :: 0 <= i < |priors| && NeighbourOf(root, c, priors[i]).similarity == 1.0
    ensures score.score == 1.0 <==> forall i :: 0 <= i < |priors| ==> NeighbourOf(root, c, priors[i]).similarity <= 0.0
  {
    hide NeighbourOf;
    var all := NeighboursOf(root, c, priors);
    var pos, sorted :| Ranked(all, pos, sorted) && score.neighbours == sorted[..Min(5, |all|)];
    var best := TopOfRanking(all, pos, sorted);
    SimilarityIs(root, c, priors[best]);
    forall i | 0 <= i < |priors| ensures NeighbourOf(root, c, priors[i]).similarity <= all[best].similarity {
      assert all[i].similarity <= all[best].similarity;
    }
  }

  lemma TopOfRanking(all: seq<Neighbour>, pos: seq<nat>, sorted: seq<Neighbour>) returns (best: nat)
    requires Ranked(all, pos, sorted) && all != []
    ensures |sorted| == |all| && best < |all| && sorted[0] == all[best]
    ensures forall i :: 0 <= i < |all| ==> all[i].similarity <= all[best].similarity
  {
    best := pos[0];
    forall i: nat | i < |all| ensures all[i].similarity <= all[best].similarity {
      var k := PositionIn(all, pos, sorted, i);
      assert k > 0 ==> RanksBefore(all, pos[0], pos[k]);
    }
  }

  /** Of the kept, each is some prior's; they fall in similarity, ties in the
      order of the priors; and a prior that is not kept ranks behind all five. */
  lemma KeptAreTheFirstFive(all: seq<Neighbour>, kept: seq<Neighbour>)
    requires Nearest(all, kept)
    ensures |kept| == if |all| < 5 then |all| else 5
    ensures exists pos: seq<nat> :: KeptAt(all, kept, pos)
  {
    var pos, sorted :| Ranked(all, pos, sorted) && kept == sorted[..Min(5, |all|)];
    RankedKeeps(all, pos, sorted);
    assert KeptAt(all, kept, pos[..Min(5, |all|)]);
  }

  ghost predicate KeptAt(all: seq<Neighbour>, kept: seq<Neighbour>, pos: seq<nat>) {
    && |pos| == |kept| && (forall i :: 0 <= i < |pos| ==> pos[i] < |all| && kept[i] == all[pos[i]])
    && (forall i, j :: 0 <= i < j < |pos| ==> RanksBefore(all, pos[i], pos[j]))
    && forall i, p: nat :: 0 <= i < |pos| && p < |all| && p !in pos ==> RanksBefore(all, pos[i], p)
  }

  lemma RankedKeeps(all: seq<Neighbour>, pos: seq<nat>, sorted: seq<Neighbour>)
    requires Ranked(all, pos, sorted)
    ensures |sorted| == |pos| == |all| && KeptAt(all, sorted[..Min(5, |all|)], pos[..Min(5, |all|)])
  {
    var n := Min(5, |all|);
    forall j | 0 <= j < n ensures pos[j] in pos[..n] {
      assert pos[..n][j] == pos[j];
    }
    forall i, p: nat | 0 <= i < n && p < |all| && p !in pos[..n] ensures RanksBefore(all, pos[i], p) {
      var k := PositionIn(all, pos, sorted, p);
    }
  }
}
