/** The bounded breadth-first claim traversal
    (crates/episcience-core/src/synthesis/traversal.rs). */
module Traversal {
  import opened Base

  datatype EdgeType = Supports | Contradicts | Supersedes | Methodology | Corroborates

  type HopCount = n: int | 0 <= n < 256

  datatype TraversalConfig = TraversalConfig(
    maxHops: HopCount, edgeTypes: seq<EdgeType>, relevancePrune: real, maxSubgraphSize: nat)

  /** What the traversal explores: neighbour lists per claim and requested
      edge types, and a relevance score per claim. The claims may be
      infinitely many. */
  datatype Graph = Graph(
    neighbors: (Uuid, seq<EdgeType>) -> seq<(Uuid, EdgeType)>,
    relevance: Uuid -> real)

  /** One admissible step: n is a listed neighbour of c and relevant enough. */
  ghost predicate Admits(g: Graph, cfg: TraversalConfig, c: Uuid, n: Uuid) {
    && g.relevance(n) >= cfg.relevancePrune
    && exists i :: 0 <= i < |g.neighbors(c, cfg.edgeTypes)| && g.neighbors(c, cfg.edgeTypes)[i].0 == n
  }

  /** A path from a seed on which every later claim was admissible. */
  ghost predicate IsPath(g: Graph, cfg: TraversalConfig, seeds: seq<Uuid>, path: seq<Uuid>) {
    && path != [] && path[0] in seeds
    && forall i :: 0 < i < |path| ==> Admits(g, cfg, path[i - 1], path[i])
  }

  /** n can be reached from a seed over at most k admissible edges. */
  ghost predicate Within(g: Graph, cfg: TraversalConfig, seeds: seq<Uuid>, n: Uuid, k: int) {
    exists path :: IsPath(g, cfg, seeds, path) && path[|path| - 1] == n && |path| - 1 <= k
  }

  /** Written out: a chain of claims from a seed, at most k links long, each
      later one listed as a neighbour of the one before for the requested edge
      types, and at least as relevant as the threshold. */
  ghost predicate IsChain(g: Graph, cfg: TraversalConfig, seeds: seq<Uuid>, n: Uuid, k: int, chain: seq<Uuid>) {
    && chain != [] && chain[0] in seeds && chain[|chain| - 1] == n && |chain| <= k + 1
    && (forall i :: 0 < i < |chain| ==> !(g.relevance(chain[i]) < cfg.relevancePrune))
    && forall i :: 0 < i < |chain| ==> IsListed(chain[i], g.neighbors(chain[i - 1], cfg.edgeTypes))
  }

  predicate IsListed(n: Uuid, neighbors: seq<(Uuid, EdgeType)>) {
    exists t :: (n, t) in neighbors
  }

  lemma WithinMeans(g: Graph, cfg: TraversalConfig, seeds: seq<Uuid>, n: Uuid, k: int)
    ensures Within(g, cfg, seeds, n, k) <==> exists chain :: IsChain(g, cfg, seeds, n, k, chain)
  {
    forall c, m ensures Admits(g, cfg, c, m) <==> !(g.relevance(m) < cfg.relevancePrune) && IsListed(m, g.neighbors(c, cfg.edgeTypes)) {
      if IsListed(m, g.neighbors(c, cfg.edgeTypes)) {
        var t :| (m, t) in g.neighbors(c, cfg.edgeTypes);
        var i :| 0 <= i < |g.neighbors(c, cfg.edgeTypes)| && g.neighbors(c, cfg.edgeTypes)[i] == (m, t);
      }
      if i :| 0 <= i < |g.neighbors(c, cfg.edgeTypes)| && g.neighbors(c, cfg.edgeTypes)[i].0 == m {
        assert (m, g.neighbors(c, cfg.edgeTypes)[i].1) in g.neighbors(c, cfg.edgeTypes);
      }
    }
    if Within(g, cfg, seeds, n, k) {
      var path :| IsPath(g, cfg, seeds, path) && path[|path| - 1] == n && |path| - 1 <= k;
      forall i | 0 < i < |path|
        ensures !(g.relevance(path[i]) < cfg.relevancePrune) && IsListed(path[i], g.neighbors(path[i - 1], cfg.edgeTypes))
      {
        assert Admits(g, cfg, path[i - 1], path[i]);
      }
      assert IsChain(g, cfg, seeds, n, k, path);
    }
    if chain :| IsChain(g, cfg, seeds, n, k, chain) {
      assert IsPath(g, cfg, seeds, chain) && chain[|chain| - 1] == n && |chain| - 1 <= k;
    }
  }

  lemma SeedWithin(g: Graph, cfg: TraversalConfig, seeds: seq<Uuid>, n: Uuid)
    requires n in seeds
    ensures Within(g, cfg, seeds, n, 0)
  {
    assert IsPath(g, cfg, seeds, [n]) && [n][|[n]| - 1] == n;
  }

  lemma StepWithin(g: Graph, cfg: TraversalConfig, seeds: seq<Uuid>, c: Uuid, n: Uuid, k: int)
    requires Within(g, cfg, seeds, c, k) && Admits(g, cfg, c, n)
    ensures Within(g, cfg, seeds, n, k + 1)
  {
    var path :| IsPath(g, cfg, seeds, path) && path[|path| - 1] == c && |path| - 1 <= k;
    var longer := path + [n];
    forall i | 0 < i < |longer| ensures Admits(g, cfg, longer[i - 1], longer[i]) {
      if i < |path| {
        assert Admits(g, cfg, path[i - 1], path[i]);
      }
    }
    assert IsPath(g, cfg, seeds, longer) && longer[|longer| - 1] == n;
  }

  /** A claim within k edges is a seed, or one admissible step from a claim
      within k - 1. */
  lemma LastStep(g: Graph, cfg: TraversalConfig, seeds: seq<Uuid>, n: Uuid, k: int) returns (c: Uuid)
    requires Within(g, cfg, seeds, n, k) && n !in seeds
    ensures Within(g, cfg, seeds, c, k - 1) && Admits(g, cfg, c, n)
  {
    var path :| IsPath(g, cfg, seeds, path) && path[|path| - 1] == n && |path| - 1 <= k;
    var shorter := path[..|path| - 1];
    c := shorter[|shorter| - 1];
    assert IsPath(g, cfg, seeds, shorter);
    assert Admits(g, cfg, path[|path| - 2], path[|path| - 1]);
  }

  // ── What the loop keeps ─────────────────────────────────────────────────

  /** Every visited claim is listed at its shortest admissible distance. */
  ghost predicate Exact(g: Graph, cfg: TraversalConfig, seeds: seq<Uuid>, dist: map<Uuid, int>) {
    && (forall n :: n in seeds ==> n in dist && dist[n] == 0)
    && forall n :: n in dist ==>
      && Within(g, cfg, seeds, n, dist[n])
      && !Within(g, cfg, seeds, n, dist[n] - 1)
  }

  /** All admissible neighbours of c are visited, one step further at most. */
  ghost predicate Closed(g: Graph, cfg: TraversalConfig, dist: map<Uuid, int>, c: Uuid)
    requires c in dist
  {
    forall n :: Admits(g, cfg, c, n) ==> n in dist && dist[n] <= dist[c] + 1
  }

  ghost predicate ClosedBelow(g: Graph, cfg: TraversalConfig, dist: map<Uuid, int>, level: int) {
    forall c :: c in dist && dist[c] < level ==> Closed(g, cfg, dist, c)
  }

  /** Once every visited claim below `level` is closed, everything reachable
      within `level` edges is visited. */
  lemma {:induction false} ClosedMeansComplete(
    g: Graph, cfg: TraversalConfig, seeds: seq<Uuid>, dist: map<Uuid, int>, level: int, n: Uuid, k: nat)
    requires forall s :: s in seeds ==> s in dist && dist[s] == 0
    requires ClosedBelow(g, cfg, dist, level)
    requires k <= level && Within(g, cfg, seeds, n, k)
    ensures n in dist && dist[n] <= k
    decreases k
  {
    if n !in seeds {
      var c := LastStep(g, cfg, seeds, n, k);
      if k == 0 {
        NothingWithinNegative(g, cfg, seeds, c);
      } else {
        ClosedMeansComplete(g, cfg, seeds, dist, level, c, k - 1);
        assert Closed(g, cfg, dist, c);
      }
    }
  }

  lemma NothingWithinNegative(g: Graph, cfg: TraversalConfig, seeds: seq<Uuid>, n: Uuid)
    ensures !Within(g, cfg, seeds, n, -1)
  {
  }

  /** Complete up to a level: nothing within that distance is missing. */
  ghost predicate HoldsAllWithin(g: Graph, cfg: TraversalConfig, seeds: seq<Uuid>, visited: set<Uuid>, k: int) {
    forall n :: Within(g, cfg, seeds, n, k) ==> n in visited
  }

  /** A claim first met beyond a level everything of which is visited is
      exactly one step further. */
  lemma FirstMeetingIsShortest(g: Graph, cfg: TraversalConfig, seeds: seq<Uuid>, dist: map<Uuid, int>, c: Uuid, n: Uuid)
    requires Exact(g, cfg, seeds, dist) && c in dist && n !in dist
    requires HoldsAllWithin(g, cfg, seeds, dist.Keys, dist[c]) && Admits(g, cfg, c, n)
    ensures Exact(g, cfg, seeds, dist[n := dist[c] + 1])
  {
    hide Within, Admits;
    StepWithin(g, cfg, seeds, c, n, dist[c]);
    assert !Within(g, cfg, seeds, n, dist[c]);
  }

  // ── The queue ───────────────────────────────────────────────────────────

  type Queue = seq<(Uuid, HopCount)>

  /** Hops never fall along the queue, and rise by one at most. */
  ghost predicate Ordered(queue: Queue) {
    forall i, j :: 0 <= i <= j < |queue| ==> queue[i].1 <= queue[j].1 <= queue[0].1 as int + 1
  }

  ghost predicate Listed(dist: map<Uuid, int>, queue: Queue) {
    forall i :: 0 <= i < |queue| ==> queue[i].0 in dist && dist[queue[i].0] == queue[i].1
  }

  ghost predicate Waiting(queue: Queue, c: Uuid) {
    exists i :: 0 <= i < |queue| && queue[i].0 == c
  }

  /** A visited claim below the hop bound that left the queue is closed. */
  ghost predicate Expanded(g: Graph, cfg: TraversalConfig, dist: map<Uuid, int>, queue: Queue) {
    forall c :: c in dist && dist[c] < cfg.maxHops && !Waiting(queue, c) ==> Closed(g, cfg, dist, c)
  }

  /** A claim at distance k+1 is held only with everything within k. */
  ghost predicate LevelByLevel(g: Graph, cfg: TraversalConfig, seeds: seq<Uuid>, dist: map<Uuid, int>) {
    forall n :: n in dist ==> HoldsAllWithin(g, cfg, seeds, dist.Keys, dist[n] - 1)
  }

  ghost predicate Sound(g: Graph, cfg: TraversalConfig, seeds: seq<Uuid>, dist: map<Uuid, int>) {
    && Exact(g, cfg, seeds, dist)
    && LevelByLevel(g, cfg, seeds, dist)
    && forall n :: n in dist ==> 0 <= dist[n] <= cfg.maxHops
  }

  ghost predicate Inv(g: Graph, cfg: TraversalConfig, seeds: seq<Uuid>, dist: map<Uuid, int>, queue: Queue) {
    Sound(g, cfg, seeds, dist) && Ordered(queue) && Listed(dist, queue) && Expanded(g, cfg, dist, queue)
  }

  lemma SeedsInv(g: Graph, cfg: TraversalConfig, seeds: seq<Uuid>, dist: map<Uuid, int>, queue: Queue)
    requires dist.Keys == Elements(seeds) && forall n :: n in dist ==> dist[n] == 0
    requires |queue| == |seeds| && forall i :: 0 <= i < |seeds| ==> queue[i] == (seeds[i], 0)
    ensures Inv(g, cfg, seeds, dist, queue)
  {
    forall n | n in dist
      ensures Within(g, cfg, seeds, n, 0) && !Within(g, cfg, seeds, n, -1) && Waiting(queue, n)
      ensures HoldsAllWithin(g, cfg, seeds, dist.Keys, -1)
    {
      SeedWithin(g, cfg, seeds, n);
      NothingWithinNegative(g, cfg, seeds, n);
      var i :| 0 <= i < |seeds| && seeds[i] == n;
      assert queue[i].0 == n;
      forall m ensures !Within(g, cfg, seeds, m, -1) {
        NothingWithinNegative(g, cfg, seeds, m);
      }
    }
  }

  /** At the head of the queue everything up to its own distance is visited. */
  lemma HeadLevelComplete(g: Graph, cfg: TraversalConfig, seeds: seq<Uuid>, dist: map<Uuid, int>, queue: Queue)
    requires Inv(g, cfg, seeds, dist, queue) && queue != []
    ensures HoldsAllWithin(g, cfg, seeds, dist.Keys, queue[0].1)
  {
    hide Within, Admits, LevelByLevel;
    var level := queue[0].1;
    forall c | c in dist && dist[c] < level ensures Closed(g, cfg, dist, c) {
      assert !Waiting(queue, c);
    }
    forall n | Within(g, cfg, seeds, n, level) ensures n in dist {
      ClosedMeansComplete(g, cfg, seeds, dist, level, n, level);
    }
  }

  lemma StillWaiting(queue: Queue, more: Queue, c: Uuid)
    requires Waiting(queue, c)
    ensures Waiting(queue + more, c)
  {
    var i :| 0 <= i < |queue| && queue[i].0 == c;
    assert (queue + more)[i].0 == c;
  }

  lemma WaitingBehindHead(queue: Queue, c: Uuid)
    requires Waiting(queue, c) && queue[0].0 != c
    ensures Waiting(queue[1..], c)
  {
    var i :| 0 <= i < |queue| && queue[i].0 == c;
    assert queue[1..][i - 1].0 == c;
  }

  lemma DiscoverKeepsExpanded(g: Graph, cfg: TraversalConfig, dist: map<Uuid, int>, queue: Queue, n: Uuid, hop: HopCount)
    requires Expanded(g, cfg, dist, queue) && n !in dist
    ensures Expanded(g, cfg, dist[n := hop], queue + [(n, hop)])
  {
    hide Admits, Waiting;
    var dist', queue' := dist[n := hop], queue + [(n, hop)];
    assert Waiting(queue', n) by {
      NewcomerWaits(queue, n, hop);
    }
    forall c | c in dist' && dist'[c] < cfg.maxHops && !Waiting(queue', c) ensures Closed(g, cfg, dist', c) {
      if Waiting(queue, c) {
        StillWaiting(queue, [(n, hop)], c);
      }
      assert Closed(g, cfg, dist, c);
    }
  }

  lemma NewcomerWaits(queue: Queue, n: Uuid, hop: HopCount)
    ensures Waiting(queue + [(n, hop)], n)
  {
    assert (queue + [(n, hop)])[|queue|].0 == n;
  }

  /** Visiting a new admissible neighbour of the head keeps everything. */
  lemma Discover(g: Graph, cfg: TraversalConfig, seeds: seq<Uuid>, dist: map<Uuid, int>, queue: Queue, n: Uuid)
    requires Inv(g, cfg, seeds, dist, queue) && queue != [] && queue[0].1 < cfg.maxHops
    requires n !in dist && Admits(g, cfg, queue[0].0, n)
    ensures Inv(g, cfg, seeds, dist[n := queue[0].1 + 1], queue + [(n, queue[0].1 + 1)])
  {
    hide Exact, LevelByLevel, Expanded, HoldsAllWithin, Admits;
    var hop := queue[0].1 + 1;
    HeadLevelComplete(g, cfg, seeds, dist, queue);
    FirstMeetingIsShortest(g, cfg, seeds, dist, queue[0].0, n);
    DiscoverKeepsExpanded(g, cfg, dist, queue, n, hop);
    DiscoverKeepsLevels(g, cfg, seeds, dist, n, hop);
  }

  lemma DiscoverKeepsLevels(g: Graph, cfg: TraversalConfig, seeds: seq<Uuid>, dist: map<Uuid, int>, n: Uuid, hop: int)
    requires LevelByLevel(g, cfg, seeds, dist) && HoldsAllWithin(g, cfg, seeds, dist.Keys, hop - 1)
    ensures n !in dist ==> LevelByLevel(g, cfg, seeds, dist[n := hop])
  {
    hide Within;
  }

  /** The head leaves the queue once it is closed, or at the hop bound. */
  lemma Leave(g: Graph, cfg: TraversalConfig, seeds: seq<Uuid>, dist: map<Uuid, int>, queue: Queue)
    requires Inv(g, cfg, seeds, dist, queue) && queue != []
    requires dist[queue[0].0] >= cfg.maxHops || Closed(g, cfg, dist, queue[0].0)
    ensures Inv(g, cfg, seeds, dist, queue[1..])
  {
    hide Closed, Sound;
    var rest := queue[1..];
    forall c | c in dist && dist[c] < cfg.maxHops && !Waiting(rest, c) ensures Closed(g, cfg, dist, c) {
      if Waiting(queue, c) && queue[0].0 != c {
        WaitingBehindHead(queue, c);
      }
    }
  }

  lemma WithinGrows(g: Graph, cfg: TraversalConfig, seeds: seq<Uuid>, n: Uuid, k: int, m: int)
    requires Within(g, cfg, seeds, n, k) && k <= m
    ensures Within(g, cfg, seeds, n, m)
  {
  }

  /** A visited admissible neighbour of a visited claim is no more than one
      step further. */
  lemma NeighborIsNear(g: Graph, cfg: TraversalConfig, seeds: seq<Uuid>, dist: map<Uuid, int>, c: Uuid, n: Uuid)
    requires Exact(g, cfg, seeds, dist) && c in dist && n in dist && Admits(g, cfg, c, n)
    ensures dist[n] <= dist[c] + 1
  {
    hide Within, Admits;
    StepWithin(g, cfg, seeds, c, n, dist[c]);
    if dist[n] > dist[c] + 1 {
      WithinGrows(g, cfg, seeds, n, dist[c] + 1, dist[n] - 1);
    }
  }

  ghost predicate NeighborsDone(g: Graph, cfg: TraversalConfig, visited: set<Uuid>, c: Uuid, i: nat) {
    forall j :: 0 <= j < i && j < |g.neighbors(c, cfg.edgeTypes)| ==>
      var n := g.neighbors(c, cfg.edgeTypes)[j].0;
      g.relevance(n) < cfg.relevancePrune || n in visited
  }

  /** Once its whole neighbour list is done the head is closed and may go. */
  lemma LeaveExpanded(g: Graph, cfg: TraversalConfig, seeds: seq<Uuid>, dist: map<Uuid, int>, queue: Queue)
    requires Inv(g, cfg, seeds, dist, queue) && queue != []
    requires NeighborsDone(g, cfg, dist.Keys, queue[0].0, |g.neighbors(queue[0].0, cfg.edgeTypes)|)
    ensures Inv(g, cfg, seeds, dist, queue[1..])
  {
    hide Within, Exact, Expanded, Ordered, Closed;
    var c := queue[0].0;
    forall n | Admits(g, cfg, c, n) ensures n in dist && dist[n] <= dist[c] + 1 {
      NeighborIsNear(g, cfg, seeds, dist, c, n);
    }
    assert Closed(g, cfg, dist, c) by {
      ClosedIntro(g, cfg, dist, c);
    }
    Leave(g, cfg, seeds, dist, queue);
  }

  lemma ClosedIntro(g: Graph, cfg: TraversalConfig, dist: map<Uuid, int>, c: Uuid)
    requires c in dist && forall n :: Admits(g, cfg, c, n) ==> n in dist && dist[n] <= dist[c] + 1
    ensures Closed(g, cfg, dist, c)
  {
  }

  /** The head at the hop bound may go unexpanded. */
  lemma LeaveDeep(g: Graph, cfg: TraversalConfig, seeds: seq<Uuid>, dist: map<Uuid, int>, queue: Queue)
    requires Inv(g, cfg, seeds, dist, queue) && queue != [] && queue[0].1 >= cfg.maxHops
    ensures Inv(g, cfg, seeds, dist, queue[1..])
  {
    hide Exact, Expanded, Ordered, Closed, LevelByLevel;
    Leave(g, cfg, seeds, dist, queue);
  }

  lemma InvIsSound(g: Graph, cfg: TraversalConfig, seeds: seq<Uuid>, dist: map<Uuid, int>, queue: Queue)
    requires Inv(g, cfg, seeds, dist, queue)
    ensures Sound(g, cfg, seeds, dist)
  {
  }

  /** What a sound map of distances says about the visited set. */
  lemma SoundMeans(g: Graph, cfg: TraversalConfig, seeds: seq<Uuid>, dist: map<Uuid, int>)
    requires Sound(g, cfg, seeds, dist)
    ensures forall n :: n in dist ==> Within(g, cfg, seeds, n, cfg.maxHops)
    ensures forall n, k: int :: n in dist && !Within(g, cfg, seeds, n, k) ==> HoldsAllWithin(g, cfg, seeds, dist.Keys, k)
  {
    hide Within;
    forall n | n in dist ensures Within(g, cfg, seeds, n, cfg.maxHops) {
      WithinGrows(g, cfg, seeds, n, dist[n], cfg.maxHops);
    }
    forall n, k: int | n in dist && !Within(g, cfg, seeds, n, k) ensures HoldsAllWithin(g, cfg, seeds, dist.Keys, k) {
      if dist[n] <= k {
        WithinGrows(g, cfg, seeds, n, dist[n], k);
      }
      assert HoldsAllWithin(g, cfg, seeds, dist.Keys, dist[n] - 1);
      forall m | Within(g, cfg, seeds, m, k) ensures m in dist {
        WithinGrows(g, cfg, seeds, m, k, dist[n] - 1);
      }
    }
  }

  /** With an empty queue every claim in reach was visited. */
  lemma ExhaustedMeansComplete(g: Graph, cfg: TraversalConfig, seeds: seq<Uuid>, dist: map<Uuid, int>)
    requires Inv(g, cfg, seeds, dist, [])
    ensures HoldsAllWithin(g, cfg, seeds, dist.Keys, cfg.maxHops)
  {
    hide Within, Admits, LevelByLevel, Closed;
    forall n | Within(g, cfg, seeds, n, cfg.maxHops) ensures n in dist {
      ClosedMeansComplete(g, cfg, seeds, dist, cfg.maxHops, n, cfg.maxHops);
    }
  }

  // ── The traversal ───────────────────────────────────────────────────────

  /** Visit the neighbours of the node at the head of the queue, until the
      cap is met. */
  method Expand(seeds: seq<Uuid>, cfg: TraversalConfig, g: Graph, visited0: set<Uuid>, frontier0: Queue,
                claim: Uuid, hop: HopCount, ghost dist0: map<Uuid, int>, ghost queue0: Queue)
    returns (visited: set<Uuid>, frontier: Queue, ghost dist: map<Uuid, int>, ghost queue: Queue)
    requires visited0 == dist0.Keys && |visited0| < cfg.maxSubgraphSize
    requires queue0 == [(claim, hop)] + frontier0 && Inv(g, cfg, seeds, dist0, queue0) && hop < cfg.maxHops
    ensures visited == dist.Keys && visited0 <= visited && |visited| <= cfg.maxSubgraphSize
    ensures queue == [(claim, hop)] + frontier && Inv(g, cfg, seeds, dist, queue)
    ensures |visited| < cfg.maxSubgraphSize ==>
      NeighborsDone(g, cfg, visited, claim, |g.neighbors(claim, cfg.edgeTypes)|)
    ensures |frontier| - |visited| == |frontier0| - |visited0| && |frontier0| <= |frontier|
  {
    hide *;
    visited, frontier, dist, queue := visited0, frontier0, dist0, queue0;
    var neighbors := g.neighbors(claim, cfg.edgeTypes);
    var i := 0;
    NoNeighborsYet(g, cfg, visited, claim);
    while i < |neighbors| && |visited| < cfg.maxSubgraphSize
      invariant 0 <= i <= |neighbors|
      invariant visited == dist.Keys && visited0 <= visited && |visited| <= cfg.maxSubgraphSize
      invariant queue == [(claim, hop)] + frontier && Inv(g, cfg, seeds, dist, queue)
      invariant NeighborsDone(g, cfg, visited, claim, i)
      invariant |frontier| - |visited| == |frontier0| - |visited0| && |frontier0| <= |frontier|
    {
      visited, frontier, dist, queue := Meet(seeds, cfg, g, visited, frontier, claim, hop, i, dist, queue);
      i := i + 1;
    }
  }

  /** Visit one listed neighbour unless it is known or not relevant. */
  method Meet(seeds: seq<Uuid>, cfg: TraversalConfig, g: Graph, visited0: set<Uuid>, frontier0: Queue,
              claim: Uuid, hop: HopCount, i: nat, ghost dist0: map<Uuid, int>, ghost queue0: Queue)
    returns (visited: set<Uuid>, frontier: Queue, ghost dist: map<Uuid, int>, ghost queue: Queue)
    requires i < |g.neighbors(claim, cfg.edgeTypes)| && NeighborsDone(g, cfg, visited0, claim, i)
    requires visited0 == dist0.Keys && hop < cfg.maxHops
    requires queue0 == [(claim, hop)] + frontier0 && Inv(g, cfg, seeds, dist0, queue0)
    ensures visited == dist.Keys && visited0 <= visited && |visited| <= |visited0| + 1
    ensures queue == [(claim, hop)] + frontier && Inv(g, cfg, seeds, dist, queue)
    ensures NeighborsDone(g, cfg, visited, claim, i + 1)
    ensures |frontier| - |visited| == |frontier0| - |visited0| && |frontier0| <= |frontier|
  {
    hide *;
    visited, frontier, dist, queue := visited0, frontier0, dist0, queue0;
    var n := g.neighbors(claim, cfg.edgeTypes)[i].0;
    if n in visited || g.relevance(n) < cfg.relevancePrune {
      NeighborStep(g, cfg, visited, visited, claim, i);
      return;
    }
    MeetNew(g, cfg, seeds, dist, queue, claim, hop + 1, i, n);
    QueueGrows((claim, hop), frontier, (n, hop + 1));
    visited, frontier := visited + {n}, frontier + [(n, hop + 1)];
    dist, queue := dist[n := hop + 1], queue + [(n, hop + 1)];
  }

  lemma QueueGrows(head: (Uuid, HopCount), frontier: Queue, last: (Uuid, HopCount))
    ensures ([head] + frontier) + [last] == [head] + (frontier + [last])
  {
  }

  /** The i-th neighbour of the head, relevant and not seen before. */
  lemma MeetNew(g: Graph, cfg: TraversalConfig, seeds: seq<Uuid>, dist: map<Uuid, int>, queue: Queue,
                claim: Uuid, next: HopCount, i: nat, n: Uuid)
    requires i < |g.neighbors(claim, cfg.edgeTypes)| && n == g.neighbors(claim, cfg.edgeTypes)[i].0
    requires queue != [] && queue[0].0 == claim && next == queue[0].1 + 1 <= cfg.maxHops
    requires Inv(g, cfg, seeds, dist, queue) && NeighborsDone(g, cfg, dist.Keys, claim, i)
    requires n !in dist && g.relevance(n) >= cfg.relevancePrune
    ensures Inv(g, cfg, seeds, dist[n := next], queue + [(n, next)])
    ensures NeighborsDone(g, cfg, dist.Keys + {n}, claim, i + 1)
  {
    hide *;
    NeighborStep(g, cfg, dist.Keys, dist.Keys + {n}, claim, i);
    IsAdmitted(g, cfg, claim, i);
    Discover(g, cfg, seeds, dist, queue, n);
  }

  method Traverse(seeds: seq<Uuid>, cfg: TraversalConfig, g: Graph) returns (visited: set<Uuid>)
    // The seeds are always kept, and the cap holds beyond them.
    ensures forall n :: n in seeds ==> n in visited
    ensures |visited| <= Max(|Elements(seeds)|, cfg.maxSubgraphSize)
    // Nothing is invented.
    ensures forall n :: n in visited ==> Within(g, cfg, seeds, n, cfg.maxHops)
    // Below the cap the result is exact.
    ensures |visited| < cfg.maxSubgraphSize ==> forall n :: n in visited <==> Within(g, cfg, seeds, n, cfg.maxHops)
    // At the cap nearer claims win: one farther than k only with all within k.
    ensures forall n, k: int :: n in visited && !Within(g, cfg, seeds, n, k) ==> HoldsAllWithin(g, cfg, seeds, visited, k)
  {
    hide Within, Admits, HoldsAllWithin, Inv, Sound, NeighborsDone;
    visited := set n | n in seeds;
    var frontier: Queue := seq(|seeds|, i requires 0 <= i < |seeds| => (seeds[i], 0));
    ghost var dist := map n | n in visited :: 0;
    SeedsInv(g, cfg, seeds, dist, frontier);
    InvIsSound(g, cfg, seeds, dist, frontier);
    while frontier != []
      invariant visited == dist.Keys && Elements(seeds) <= visited
      invariant |visited| <= Max(|Elements(seeds)|, cfg.maxSubgraphSize)
      invariant Sound(g, cfg, seeds, dist)
      invariant |visited| < cfg.maxSubgraphSize ==> Inv(g, cfg, seeds, dist, frontier)
      decreases Max(0, cfg.maxSubgraphSize - |visited|), |frontier|
    {
      var (claim, hop) := frontier[0];
      ghost var queue := frontier;
      frontier := frontier[1..];
      if |visited| >= cfg.maxSubgraphSize {
        break;
      }
      if hop >= cfg.maxHops {
        LeaveDeep(g, cfg, seeds, dist, queue);
        continue;
      }
      visited, frontier, dist, queue := Expand(seeds, cfg, g, visited, frontier, claim, hop, dist, queue);
      InvIsSound(g, cfg, seeds, dist, queue);
      if |visited| < cfg.maxSubgraphSize {
        LeaveExpanded(g, cfg, seeds, dist, queue);
        assert queue[1..] == frontier;
      }
    }
    SoundMeans(g, cfg, seeds, dist);
    if |visited| < cfg.maxSubgraphSize {
      ExhaustedMeansComplete(g, cfg, seeds, dist);
      AllHeld(g, cfg, seeds, visited, cfg.maxHops);
    }
  }

  lemma NoNeighborsYet(g: Graph, cfg: TraversalConfig, visited: set<Uuid>, c: Uuid)
    ensures NeighborsDone(g, cfg, visited, c, 0)
  {
  }

  lemma NeighborStep(g: Graph, cfg: TraversalConfig, visited: set<Uuid>, more: set<Uuid>, c: Uuid, i: nat)
    requires i < |g.neighbors(c, cfg.edgeTypes)| && visited <= more && NeighborsDone(g, cfg, visited, c, i)
    requires var n := g.neighbors(c, cfg.edgeTypes)[i].0; n in more || g.relevance(n) < cfg.relevancePrune
    ensures NeighborsDone(g, cfg, more, c, i + 1)
  {
  }

  lemma IsAdmitted(g: Graph, cfg: TraversalConfig, c: Uuid, i: nat)
    requires i < |g.neighbors(c, cfg.edgeTypes)|
    requires g.relevance(g.neighbors(c, cfg.edgeTypes)[i].0) >= cfg.relevancePrune
    ensures Admits(g, cfg, c, g.neighbors(c, cfg.edgeTypes)[i].0)
  {
  }

  lemma AllHeld(g: Graph, cfg: TraversalConfig, seeds: seq<Uuid>, visited: set<Uuid>, k: int)
    requires HoldsAllWithin(g, cfg, seeds, visited, k)
    ensures forall n :: Within(g, cfg, seeds, n, k) ==> n in visited
  {
  }
}
