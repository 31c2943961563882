/** Maximal-marginal-relevance selection of article seeds, with suppression of
    near duplicates (crates/episcience-core/src/wiki/seed.rs). */
module SeedSelection {
  import opened Base
  import opened Vectors

  datatype SeedCandidate = SeedCandidate(id: Uuid, relevance: real, embedding: Vector)

  datatype Setup = Setup(cands: seq<SeedCandidate>, dupCosine: real, lambda: real, root: real -> real)

  // ── What a selection is ─────────────────────────────────────────────────

  /** The dimension all picks share: that of the first usable embedding. */
  function Dim(cands: seq<SeedCandidate>): Option<nat> {
    if cands == [] then None
    else if Usable(cands[0].embedding) then Some(|cands[0].embedding|)
    else Dim(cands[1..])
  }

  predicate Eligible(s: Setup, c: nat) {
    c < |s.cands| && Some(|s.cands[c].embedding|) == Dim(s.cands) && Usable(s.cands[c].embedding)
  }

  function Similarity(s: Setup, c: nat, p: nat): Option<real>
    requires IsRoot(s.root) && c < |s.cands| && p < |s.cands|
  {
    Cosine(s.root, s.cands[c].embedding, s.cands[p].embedding)
  }

  predicate Near(s: Setup, c: nat, p: nat)
    requires IsRoot(s.root) && c < |s.cands| && p < |s.cands|
  {
    Similarity(s, c, p).Some? && Similarity(s, c, p).value >= s.dupCosine
  }

  ghost predicate Positions(s: Setup, picks: seq<nat>) {
    forall i :: 0 <= i < |picks| ==> picks[i] < |s.cands|
  }

  function Redundancy(s: Setup, c: nat, picks: seq<nat>): real
    requires IsRoot(s.root) && c < |s.cands| && Positions(s, picks)
  {
    if picks == [] then 0.0
    else
      var before := Redundancy(s, c, picks[..|picks| - 1]);
      match Similarity(s, c, picks[|picks| - 1])
      case None => before
      case Some(x) => if before < x then x else before
  }

  function Score(s: Setup, c: nat, picks: seq<nat>): real
    requires IsRoot(s.root) && c < |s.cands| && Positions(s, picks)
  {
    s.lambda * s.cands[c].relevance - (1.0 - s.lambda) * Redundancy(s, c, picks)
  }

  /** A candidate still in the running: usable, not picked, and no near
      duplicate of a pick. */
  ghost predicate Alive(s: Setup, c: nat, picks: seq<nat>)
    requires IsRoot(s.root) && Positions(s, picks)
  {
    Eligible(s, c) && c !in picks && forall i :: 0 <= i < |picks| ==> !Near(s, c, picks[i])
  }

  /** `a` is preferred to `b`: better score, or as good and earlier. */
  predicate Preferred(s: Setup, a: nat, b: nat, picks: seq<nat>)
    requires IsRoot(s.root) && a < |s.cands| && b < |s.cands| && Positions(s, picks)
  {
    Score(s, b, picks) < Score(s, a, picks) || (Score(s, b, picks) == Score(s, a, picks) && a <= b)
  }

  ghost predicate BestNext(s: Setup, x: nat, picks: seq<nat>)
    requires IsRoot(s.root) && Positions(s, picks)
  {
    Alive(s, x, picks) && forall c :: Alive(s, c, picks) ==> Preferred(s, x, c, picks)
  }

  /** Every pick was the best candidate alive in its round, and the picking
      stopped only when the budget was used or nothing was alive. */
  ghost predicate IsMmr(s: Setup, picks: seq<nat>, budget: nat)
    requires IsRoot(s.root)
  {
    && Positions(s, picks) && |picks| <= budget
    && (forall r :: 0 <= r < |picks| ==> BestNext(s, picks[r], picks[..r]))
    && (|picks| < budget ==> forall c :: !Alive(s, c, picks))
  }

  function IdsOf(s: Setup, picks: seq<nat>): seq<Uuid>
    requires forall i :: 0 <= i < |picks| ==> picks[i] < |s.cands|
  {
    seq(|picks|, i requires 0 <= i < |picks| => s.cands[picks[i]].id)
  }

  // ── The algorithm ───────────────────────────────────────────────────────

  ghost predicate Increasing(pool: seq<nat>) {
    forall i, j :: 0 <= i < j < |pool| ==> pool[i] < pool[j]
  }

  /** The pool holds exactly the candidates alive, in input order. */
  ghost predicate PoolIs(s: Setup, pool: seq<nat>, picks: seq<nat>)
    requires IsRoot(s.root) && Positions(s, picks)
  {
    Increasing(pool) && forall c: nat :: c in pool <==> Alive(s, c, picks)
  }

  method FindDim(cands: seq<SeedCandidate>) returns (dim: Option<nat>)
    ensures dim == Dim(cands)
  {
    for i := 0 to |cands|
      invariant Dim(cands) == Dim(cands[i..])
    {
      if Usable(cands[i].embedding) {
        return Some(|cands[i].embedding|);
      }
      assert cands[i..][1..] == cands[i + 1..];
    }
    dim := None;
  }

  method InitialPool(s: Setup) returns (pool: seq<nat>)
    requires IsRoot(s.root)
    ensures PoolIs(s, pool, [])
  {
    hide Dim, Usable;
    var dim := FindDim(s.cands);
    pool := [];
    for i := 0 to |s.cands|
      invariant Increasing(pool) && (forall j :: 0 <= j < |pool| ==> pool[j] < i)
      invariant forall c: nat :: c in pool <==> c < i && Eligible(s, c)
    {
      if Some(|s.cands[i].embedding|) == dim && Usable(s.cands[i].embedding) {
        pool := pool + [i];
      }
    }
  }

  method ScoreOf(s: Setup, c: nat, picks: seq<nat>) returns (score: real)
    requires IsRoot(s.root) && c < |s.cands| && Positions(s, picks)
    ensures score == Score(s, c, picks)
  {
    var redundancy := 0.0;
    for i := 0 to |picks|
      invariant redundancy == Redundancy(s, c, picks[..i])
    {
      assert picks[..i + 1][..i] == picks[..i];
      var cos := CosineOf(s.root, s.cands[c].embedding, s.cands[picks[i]].embedding);
      if cos.Some? && redundancy < cos.value {
        redundancy := cos.value;
      }
    }
    assert picks[..|picks|] == picks;
    score := s.lambda * s.cands[c].relevance - (1.0 - s.lambda) * redundancy;
  }

  /** The round's scan: the first position in the pool with the best score. */
  method BestInPool(s: Setup, pool: seq<nat>, picks: seq<nat>) returns (best: nat)
    requires IsRoot(s.root) && Positions(s, picks) && Positions(s, pool) && Increasing(pool) && pool != []
    ensures best < |pool|
    ensures forall j :: 0 <= j < |pool| ==> Preferred(s, pool[best], pool[j], picks)
  {
    hide Score;
    best := 0;
    var bestScore := ScoreOf(s, pool[0], picks);
    for i := 1 to |pool|
      invariant best < i && bestScore == Score(s, pool[best], picks)
      invariant forall j :: 0 <= j < i ==> Preferred(s, pool[best], pool[j], picks)
    {
      var score := ScoreOf(s, pool[i], picks);
      if score > bestScore {
        best, bestScore := i, score;
      }
    }
  }

  /** Drop the chosen candidate and its near duplicates. */
  method Retain(s: Setup, pool: seq<nat>, best: nat) returns (rest: seq<nat>)
    requires IsRoot(s.root) && Positions(s, pool) && Increasing(pool) && best < |pool|
    ensures Increasing(rest) && |rest| < |pool|
    ensures forall c: nat :: c in rest <==> c in pool && c != pool[best] && !Near(s, c, pool[best])
  {
    hide Cosine;
    var others := pool[..best] + pool[best + 1..];
    rest := [];
    for i := 0 to |others|
      invariant |rest| <= i && Increasing(rest)
      invariant forall j :: 0 <= j < |rest| ==> rest[j] in others[..i]
      invariant forall c: nat :: c in rest <==> c in others[..i] && !Near(s, c, pool[best])
    {
      var cos := CosineOf(s.root, s.cands[others[i]].embedding, s.cands[pool[best]].embedding);
      assert others[..i + 1] == others[..i] + [others[i]];
      assert forall c :: c in others[..i] ==> c < others[i];
      if cos.None? || cos.value < s.dupCosine {
        rest := rest + [others[i]];
      }
    }
    assert others[..|others|] == others;
    WithoutBest(pool, best);
  }

  lemma WithoutBest(pool: seq<nat>, best: nat)
    requires Increasing(pool) && best < |pool|
    ensures forall c :: c in pool[..best] + pool[best + 1..] <==> c in pool && c != pool[best]
  {
    forall c | c in pool && c != pool[best] ensures c in pool[..best] + pool[best + 1..] {
      var i :| 0 <= i < |pool| && pool[i] == c;
      assert i < best ==> pool[..best][i] == c;
      assert i > best ==> pool[best + 1..][i - best - 1] == c;
    }
  }

  /** Picking the best of the pool keeps the pool exactly the candidates
      alive. */
  lemma PickKeepsPool(s: Setup, pool: seq<nat>, picks: seq<nat>, best: nat, rest: seq<nat>)
    requires IsRoot(s.root) && Positions(s, picks) && PoolIs(s, pool, picks) && best < |pool| && Positions(s, pool)
    requires Increasing(rest)
    requires forall c: nat :: c in rest <==> c in pool && c != pool[best] && !Near(s, c, pool[best])
    ensures PoolIs(s, rest, picks + [pool[best]])
  {
    hide Near, Eligible;
    var more := picks + [pool[best]];
    forall c: nat ensures c in rest <==> Alive(s, c, more) {
      EligibleIsPosition(s, c);
      if Alive(s, c, more) {
        assert more[|picks|] == pool[best];
        forall i | 0 <= i < |picks| ensures !Near(s, c, picks[i]) {
          assert more[i] == picks[i];
        }
        assert Alive(s, c, picks);
      }
      if c in rest {
        assert Alive(s, c, picks);
      }
    }
  }

  lemma EligibleIsPosition(s: Setup, c: nat)
    ensures Eligible(s, c) ==> c < |s.cands|
  {
  }

  method SelectPositions(s: Setup, budget: nat) returns (picked: seq<nat>)
    requires IsRoot(s.root)
    ensures IsMmr(s, picked, budget)
  {
    hide Eligible, Near, Score;
    var pool := InitialPool(s);
    picked := [];
    while |picked| < budget && pool != []
      invariant Positions(s, picked) && |picked| <= budget
      invariant PoolIs(s, pool, picked)
      invariant forall r :: 0 <= r < |picked| ==> BestNext(s, picked[r], picked[..r])
      decreases |pool|
    {
      PoolPositions(s, pool, picked);
      var best := BestInPool(s, pool, picked);
      var rest := Retain(s, pool, best);
      PickKeepsPool(s, pool, picked, best, rest);
      PickIsBest(s, pool, picked, best);
      assert forall r :: 0 <= r < |picked| ==> (picked + [pool[best]])[..r] == picked[..r];
      assert (picked + [pool[best]])[..|picked|] == picked;
      pool, picked := rest, picked + [pool[best]];
    }
  }

  lemma PoolPositions(s: Setup, pool: seq<nat>, picks: seq<nat>)
    requires IsRoot(s.root) && Positions(s, picks) && PoolIs(s, pool, picks)
    ensures Positions(s, pool)
  {
    forall i | 0 <= i < |pool| ensures pool[i] < |s.cands| {
      assert pool[i] in pool;
    }
  }

  lemma PickIsBest(s: Setup, pool: seq<nat>, picks: seq<nat>, best: nat)
    requires IsRoot(s.root) && Positions(s, picks) && PoolIs(s, pool, picks) && Positions(s, pool) && best < |pool|
    requires forall j :: 0 <= j < |pool| ==> Preferred(s, pool[best], pool[j], picks)
    ensures BestNext(s, pool[best], picks)
  {
    hide Preferred, Near;
    assert pool[best] in pool;
    forall c: nat | Alive(s, c, picks) ensures c < |s.cands| && Preferred(s, pool[best], c, picks) {
      assert c in pool;
    }
  }

  method SelectArticleSeeds(s: Setup, budget: nat) returns (ids: seq<Uuid>)
    requires IsRoot(s.root)
    ensures exists picked :: IsMmr(s, picked, budget) && ids == IdsOf(s, picked)
  {
    hide BestNext, Alive;
    var picked := SelectPositions(s, budget);
    ids := IdsOf(s, picked);
  }

  /** The redundancy is the greatest cosine to a pick, and at least 0. */
  lemma {:induction false} RedundancyIsMax(s: Setup, c: nat, picks: seq<nat>)
    requires IsRoot(s.root) && c < |s.cands| && Positions(s, picks)
    ensures Redundancy(s, c, picks) >= 0.0
    ensures forall i :: 0 <= i < |picks| && Similarity(s, c, picks[i]).Some? ==>
      Similarity(s, c, picks[i]).value <= Redundancy(s, c, picks)
    ensures Redundancy(s, c, picks) > 0.0 ==>
      exists i :: 0 <= i < |picks| && Similarity(s, c, picks[i]) == Some(Redundancy(s, c, picks))
  {
    hide Similarity;
    if picks != [] {
      var n := |picks| - 1;
      var shorter := picks[..n];
      RedundancyIsMax(s, c, shorter);
      if Redundancy(s, c, picks) == Redundancy(s, c, shorter) > 0.0 {
        var i :| 0 <= i < n && Similarity(s, c, shorter[i]) == Some(Redundancy(s, c, shorter));
        assert picks[i] == shorter[i];
      }
      assert forall i :: 0 <= i < n ==> picks[i] == shorter[i];
    }
  }

  // ── What a selection guarantees ─────────────────────────────────────────

  /** The picks are distinct usable candidates within the budget, no two of
      them near duplicates, and if the budget is not used up every usable
      candidate is picked or is a near duplicate of a pick. */
  lemma SelectionIsMaximal(s: Setup, picks: seq<nat>, budget: nat)
    requires IsRoot(s.root) && IsMmr(s, picks, budget)
    ensures |picks| <= budget && Distinct(picks)
    ensures forall i :: 0 <= i < |picks| ==> Eligible(s, picks[i])
    ensures forall i, j :: 0 <= i < |picks| && 0 <= j < |picks| && i != j ==> !Near(s, picks[i], picks[j])
    ensures |picks| < budget ==>
      forall c: nat :: Eligible(s, c) ==> c in picks || exists i :: 0 <= i < |picks| && Near(s, c, picks[i])
  {
    hide Eligible, Preferred, Near, Similarity;
    forall i, j | 0 <= i < j < |picks|
      ensures picks[i] != picks[j] && !Near(s, picks[j], picks[i]) && !Near(s, picks[i], picks[j])
    {
      assert BestNext(s, picks[j], picks[..j]);
      assert picks[..j][i] == picks[i];
      NearIsSymmetric(s, picks[i], picks[j]);
    }
    forall i | 0 <= i < |picks| ensures Eligible(s, picks[i]) {
      assert BestNext(s, picks[i], picks[..i]);
    }
    if |picks| < budget {
      forall c: nat | Eligible(s, c) ensures c in picks || exists i :: 0 <= i < |picks| && c < |s.cands| && Near(s, c, picks[i]) {
        assert !Alive(s, c, picks);
        EligibleIsPosition(s, c);
      }
    }
  }

  lemma NearIsSymmetric(s: Setup, a: nat, b: nat)
    requires IsRoot(s.root) && a < |s.cands| && b < |s.cands|
    ensures Near(s, a, b) <==> Near(s, b, a)
  {
    hide Cosine;
    CosineIsCosine(s.root, s.cands[a].embedding, s.cands[b].embedding);
  }

  /** Selections with any two budgets agree as long as both go on. */
  lemma {:induction false} SelectionsAgree(s: Setup, a: seq<nat>, b: seq<nat>, small: nat, large: nat, r: nat)
    requires IsRoot(s.root) && IsMmr(s, a, small) && IsMmr(s, b, large)
    requires r <= |a| && r <= |b|
    ensures a[..r] == b[..r]
  {
    hide Score, Alive;
    if r > 0 {
      SelectionsAgree(s, a, b, small, large, r - 1);
      assert BestNext(s, a[r - 1], a[..r - 1]) && BestNext(s, b[r - 1], b[..r - 1]);
      assert a[r - 1] == b[r - 1];
      assert a[..r] == a[..r - 1] + [a[r - 1]] && b[..r] == b[..r - 1] + [b[r - 1]];
    }
  }

  /** A larger budget only continues the selection: the result for a budget is
      a prefix of the result for any larger one, and for one budget there is
      only one. */
  lemma LargerBudgetContinues(s: Setup, a: seq<nat>, b: seq<nat>, small: nat, large: nat)
    requires IsRoot(s.root) && IsMmr(s, a, small) && IsMmr(s, b, large) && small <= large
    ensures a <= b
    ensures small == large ==> a == b
  {
    hide Alive, Preferred;
    var r := Min(|a|, |b|);
    SelectionsAgree(s, a, b, small, large, r);
    assert a[..|a|] == a && b[..|b|] == b;
    AliveBeyond(s, a, small, r);
    AliveBeyond(s, b, large, r);
  }

  lemma AliveBeyond(s: Setup, picks: seq<nat>, budget: nat, r: nat)
    requires IsRoot(s.root) && IsMmr(s, picks, budget) && r <= |picks|
    ensures r < |picks| ==> Alive(s, picks[r], picks[..r])
  {
    hide Alive, Preferred;
    if r < |picks| {
      assert BestNext(s, picks[r], picks[..r]);
    }
  }

  // ── The choice of a round, written out ──────────────────────────────────

  /** The greatest cosine of c to the picks, and at least 0. */
  ghost predicate IsGreatestCosine(s: Setup, c: nat, picks: seq<nat>, x: real)
    requires IsRoot(s.root) && c < |s.cands| && Positions(s, picks)
  {
    && x >= 0.0
    && (forall i :: 0 <= i < |picks| && Similarity(s, c, picks[i]).Some? ==> Similarity(s, c, picks[i]).value <= x)
    && (x > 0.0 ==> exists i :: 0 <= i < |picks| && Similarity(s, c, picks[i]) == Some(x))
  }

  lemma GreatestIsRedundancy(s: Setup, c: nat, picks: seq<nat>, x: real)
    requires IsRoot(s.root) && c < |s.cands| && Positions(s, picks) && IsGreatestCosine(s, c, picks, x)
    ensures x == Redundancy(s, c, picks)
  {
    hide Similarity;
    RedundancyIsMax(s, c, picks);
  }

  /** Which candidates may be picked at all: those with some coordinate, of the
      dimension of the first such one in the input. */
  lemma EligibleMeans(s: Setup, c: nat)
    ensures Eligible(s, c) <==>
      c < |s.cands| && HasCoordinate(s.cands[c]) && exists f: nat :: FirstUsable(s.cands, f) && |s.cands[c].embedding| == |s.cands[f].embedding|
  {
    hide Usable;
    if c < |s.cands| {
      UsableMeans(s.cands[c].embedding);
      DimMeans(s.cands);
      if Usable(s.cands[c].embedding) && Dim(s.cands).Some? {
        var f: nat :| FirstUsable(s.cands, f) && Dim(s.cands) == Some(|s.cands[f].embedding|);
        forall g: nat | FirstUsable(s.cands, g) ensures g == f {
          OnlyOneIsFirst(s.cands, f, g);
        }
      }
    }
  }

  ghost predicate HasCoordinate(c: SeedCandidate) {
    exists i :: 0 <= i < |c.embedding| && c.embedding[i] != 0.0
  }

  ghost predicate FirstUsable(cands: seq<SeedCandidate>, f: nat) {
    f < |cands| && HasCoordinate(cands[f]) && forall g :: 0 <= g < f ==> !HasCoordinate(cands[g])
  }

  lemma OnlyOneIsFirst(cands: seq<SeedCandidate>, f: nat, g: nat)
    requires FirstUsable(cands, f) && FirstUsable(cands, g)
    ensures f == g
  {
  }

  lemma {:induction false} DimMeans(cands: seq<SeedCandidate>)
    ensures Dim(cands).None? ==> forall g :: 0 <= g < |cands| ==> !HasCoordinate(cands[g])
    ensures Dim(cands).Some? ==> exists f: nat :: FirstUsable(cands, f) && Dim(cands) == Some(|cands[f].embedding|)
  {
    hide Usable;
    if cands != [] {
      UsableMeans(cands[0].embedding);
      if Usable(cands[0].embedding) {
        assert FirstUsable(cands, 0);
      } else {
        DimMeans(cands[1..]);
        if Dim(cands).Some? {
          var f: nat :| FirstUsable(cands[1..], f) && Dim(cands) == Some(|cands[1..][f].embedding|);
          forall g | 0 <= g < f + 1 ensures !HasCoordinate(cands[g]) {
            assert g > 0 ==> cands[g] == cands[1..][g - 1];
          }
          assert FirstUsable(cands, f + 1);
        } else {
          assert forall g :: 0 < g < |cands| ==> cands[g] == cands[1..][g - 1];
        }
      }
    }
  }

  /** May still be picked after the first r picks: eligible, not picked, and not
      as near as the threshold to any pick. */
  ghost predicate Open(s: Setup, c: nat, picks: seq<nat>)
    requires IsRoot(s.root) && Positions(s, picks)
  {
    Eligible(s, c) && c !in picks
    && forall i :: 0 <= i < |picks| && Similarity(s, c, picks[i]).Some? ==> Similarity(s, c, picks[i]).value < s.dupCosine
  }

  lemma OpenIsAlive(s: Setup, c: nat, picks: seq<nat>)
    requires IsRoot(s.root) && Positions(s, picks)
    ensures Open(s, c, picks) <==> Alive(s, c, picks)
  {
    hide Similarity;
    if Open(s, c, picks) {
      forall i | 0 <= i < |picks| ensures !Near(s, c, picks[i]) {
      }
    }
  }

  /** What a pick is: in its round, of all candidates still open, none has more
      of lambda times its relevance less (1 - lambda) times its greatest cosine
      to the picks so far, and those with as much come later in the input. */
  lemma PicksMaximizeTheTradeoff(s: Setup, picks: seq<nat>, budget: nat, r: nat, c: nat, x: real, y: real)
    requires IsRoot(s.root) && IsMmr(s, picks, budget) && r < |picks|
    requires Positions(s, picks[..r]) && Open(s, c, picks[..r])
    requires c < |s.cands| && IsGreatestCosine(s, picks[r], picks[..r], x) && IsGreatestCosine(s, c, picks[..r], y)
    ensures s.lambda * s.cands[picks[r]].relevance - (1.0 - s.lambda) * x >= s.lambda * s.cands[c].relevance - (1.0 - s.lambda) * y
    ensures c < picks[r] ==>
      s.lambda * s.cands[picks[r]].relevance - (1.0 - s.lambda) * x > s.lambda * s.cands[c].relevance - (1.0 - s.lambda) * y
  {
    hide Open, Alive, IsGreatestCosine, Redundancy;
    OpenIsAlive(s, c, picks[..r]);
    GreatestIsRedundancy(s, picks[r], picks[..r], x);
    GreatestIsRedundancy(s, c, picks[..r], y);
    assert BestNext(s, picks[r], picks[..r]);
    assert Preferred(s, picks[r], c, picks[..r]);
  }

  /** Picks are open in their rounds, and unless the budget is used none is
      left open. */
  lemma PicksAreOpen(s: Setup, picks: seq<nat>, budget: nat)
    requires IsRoot(s.root) && IsMmr(s, picks, budget)
    ensures |picks| <= budget
    ensures forall r :: 0 <= r < |picks| ==> Positions(s, picks[..r]) && Open(s, picks[r], picks[..r])
    ensures |picks| < budget ==> forall c :: !Open(s, c, picks)
  {
    hide Open, Alive;
    forall r | 0 <= r < |picks| ensures Positions(s, picks[..r]) && Open(s, picks[r], picks[..r]) {
      assert BestNext(s, picks[r], picks[..r]);
      OpenIsAlive(s, picks[r], picks[..r]);
    }
    if |picks| < budget {
      forall c: nat ensures !Open(s, c, picks) {
        OpenIsAlive(s, c, picks);
      }
    }
  }
}
