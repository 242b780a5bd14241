/** `prerequisites_of` of app/knowledge/hierarchy.py: bounded breadth-first expansion of the
    prerequisite graph, against shortest path lengths. */
module Hierarchy {
  import opened Ordering

  type Skill = string
  type Graph = map<Skill, seq<Skill>>

  function Prerequisites(g: Graph, s: Skill): seq<Skill> {
    if s in g then g[s] else []
  }

  // ---- distance, by paths and by levels

  ghost predicate Path(g: Graph, p: seq<Skill>, s: Skill, t: Skill) {
    && |p| > 0 && p[0] == s && p[|p| - 1] == t
    && forall i :: 0 <= i < |p| - 1 ==> p[i + 1] in Prerequisites(g, p[i])
  }

  ghost function Successors(g: Graph, xs: set<Skill>): set<Skill> {
    set x, y | x in xs && y in Prerequisites(g, x) :: y
  }

  /** The skills at most `k` prerequisite steps away from `s`. */
  ghost function Within(g: Graph, s: Skill, k: nat): set<Skill> {
    if k == 0 then {s} else Within(g, s, k - 1) + Successors(g, Within(g, s, k - 1))
  }

  ghost function Closer(g: Graph, s: Skill, k: nat): set<Skill> {
    if k == 0 then {} else Within(g, s, k - 1)
  }

  /** The skills whose shortest path from `s` has exactly `k` steps. */
  ghost predicate AtHop(g: Graph, s: Skill, k: nat, x: Skill) {
    x in Within(g, s, k) && x !in Closer(g, s, k)
  }

  lemma {:induction false} PathIsWithin(g: Graph, p: seq<Skill>, s: Skill, t: Skill)
    requires Path(g, p, s, t)
    ensures t in Within(g, s, |p| - 1)
    decreases |p|
  {
    if |p| > 1 {
      var q := p[..|p| - 1];
      assert forall i :: 0 <= i < |q| ==> q[i] == p[i];
      PathIsWithin(g, q, s, q[|q| - 1]);
      assert p[|p| - 2 + 1] in Prerequisites(g, p[|p| - 2]);
    }
  }

  lemma {:induction false} WithinGrows(g: Graph, s: Skill, j: nat, k: nat)
    requires j <= k
    ensures Within(g, s, j) <= Within(g, s, k)
    decreases k - j
  {
    if j < k {
      WithinGrows(g, s, j, k - 1);
    }
  }

  lemma {:induction false} WithinHasPath(g: Graph, s: Skill, k: nat, t: Skill) returns (p: seq<Skill>)
    requires t in Within(g, s, k)
    ensures Path(g, p, s, t) && |p| <= k + 1
  {
    if k == 0 {
      p := [s];
    } else if t in Within(g, s, k - 1) {
      p := WithinHasPath(g, s, k - 1, t);
    } else {
      var x :| x in Within(g, s, k - 1) && t in Prerequisites(g, x);
      var q := WithinHasPath(g, s, k - 1, x);
      p := q + [t];
      assert forall i :: 0 <= i < |q| ==> p[i] == q[i];
    }
  }

  lemma NoShorterPath(g: Graph, s: Skill, k: nat, x: Skill, q: seq<Skill>)
    requires x !in Closer(g, s, k) && Path(g, q, s, x)
    ensures |q| >= k + 1
  {
    PathIsWithin(g, q, s, x);
    if |q| < k + 1 {
      WithinGrows(g, s, |q| - 1, k - 1);
    }
  }

  lemma NotCloser(g: Graph, s: Skill, k: nat, x: Skill)
    requires forall p :: Path(g, p, s, x) ==> |p| >= k + 1
    ensures x !in Closer(g, s, k)
  {
    if x in Closer(g, s, k) {
      var q := WithinHasPath(g, s, k - 1, x);
    }
  }

  /** Hops are path lengths: `x` is at hop `k` exactly if the shortest path has `k` steps. */
  lemma HopIsShortestPath(g: Graph, s: Skill, k: nat, x: Skill)
    ensures AtHop(g, s, k, x) <==>
            && (exists p :: Path(g, p, s, x) && |p| == k + 1)
            && (forall p :: Path(g, p, s, x) ==> |p| >= k + 1)
  {
    if AtHop(g, s, k, x) {
      var p := WithinHasPath(g, s, k, x);
      forall q | Path(g, q, s, x)
        ensures |q| >= k + 1
      {
        NoShorterPath(g, s, k, x, q);
      }
      assert |p| == k + 1;
    }
    if (exists p :: Path(g, p, s, x) && |p| == k + 1) && (forall p :: Path(g, p, s, x) ==> |p| >= k + 1) {
      var p :| Path(g, p, s, x) && |p| == k + 1;
      PathIsWithin(g, p, s, x);
      NotCloser(g, s, k, x);
    }
  }

  /** The order the documentation promises: by hop, then alphabetically. */
  ghost predicate Before(g: Graph, s: Skill, x: Skill, y: Skill) {
    exists j: nat, k: nat ::
      && AtHop(g, s, j, x) && AtHop(g, s, k, y)
      && (j < k || (j == k && x != y && StringLeq(x, y)))
  }

  lemma {:induction false} HopAtLeast(g: Graph, s: Skill, j: nat, k: nat, x: Skill)
    requires x in Within(g, s, j) && x !in Closer(g, s, k)
    ensures j >= k
  {
    if j < k {
      WithinGrows(g, s, j, k - 1);
    }
  }

  lemma HopUnique(g: Graph, s: Skill, j: nat, k: nat, x: Skill)
    requires AtHop(g, s, j, x) && AtHop(g, s, k, x)
    ensures j == k
  {
    HopAtLeast(g, s, j, k, x);
    HopAtLeast(g, s, k, j, x);
  }

  lemma BeforeIrreflexive(g: Graph, s: Skill, x: Skill)
    ensures !Before(g, s, x, x)
  {
    if Before(g, s, x, x) {
      var j: nat, k: nat :| AtHop(g, s, j, x) && AtHop(g, s, k, x) && (j < k || (j == k && x != x && StringLeq(x, x)));
      HopUnique(g, s, j, k, x);
    }
  }

  ghost predicate Ranked(g: Graph, s: Skill, r: seq<Skill>) {
    forall i, j {:trigger Before(g, s, r[i], r[j])} :: 0 <= i < j < |r| ==> Before(g, s, r[i], r[j])
  }

  /** What `prerequisites_of(s, max_hops=h)` must return. */
  ghost predicate IsExpansion(g: Graph, s: Skill, h: int, r: seq<Skill>) {
    if h < 1 then r == []
    else (forall x :: x in r <==> x in Within(g, s, h)) && Ranked(g, s, r)
  }

  /** The documentation promises the skills within `h` hops, the skill itself at hop 0; the answer
      meets that exactly for a limit other than 0. */
  lemma {:induction false} AsDocumentedIff(g: Graph, s: Skill, h: int, r: seq<Skill>)
    requires IsExpansion(g, s, h, r)
    ensures (forall x :: x in r <==> h >= 0 && x in Within(g, s, h)) <==> h != 0
  {
    assert s in Within(g, s, 0);
  }

  /** A skill without prerequisites expands to itself. */
  lemma LoneSkill(g: Graph, s: Skill, h: int)
    requires Prerequisites(g, s) == [] && h >= 1
    ensures IsExpansion(g, s, h, [s])
  {
    LoneWithin(g, s, h);
  }

  lemma {:induction false} LoneWithin(g: Graph, s: Skill, k: nat)
    requires Prerequisites(g, s) == []
    ensures Within(g, s, k) == {s}
  {
    if k > 0 {
      LoneWithin(g, s, k - 1);
    }
  }

  lemma RankedNoRepeats(g: Graph, s: Skill, r: seq<Skill>)
    requires Ranked(g, s, r)
    ensures NoRepeats(r)
  {
    forall i, j | 0 <= i < j < |r|
      ensures r[i] != r[j]
    {
      BeforeIrreflexive(g, s, r[i]);
    }
  }

  lemma {:induction false} LevelsStop(g: Graph, s: Skill, k: nat, h: nat)
    requires Within(g, s, k) == Closer(g, s, k) && k <= h
    ensures Within(g, s, h) == Closer(g, s, k)
    decreases h
  {
    if k < h {
      LevelsStop(g, s, k, h - 1);
      assert k > 0;
      assert Within(g, s, h - 1) == Within(g, s, k - 1);
      assert Within(g, s, h) == Within(g, s, k);
    }
  }

  // ---- the loops

  /** Everything new at hop `k` is in the frontier, and nothing that is farther. */
  ghost predicate IsFrontier(g: Graph, s: Skill, k: nat, frontier: seq<Skill>) {
    && (forall x :: x in frontier ==> x in Within(g, s, k))
    && (forall x :: AtHop(g, s, k, x) ==> x in frontier)
  }

  /** With nothing new at hop `k` the expansion is complete. */
  lemma {:induction false} EmptyFrontier(g: Graph, s: Skill, k: nat, h: nat)
    requires IsFrontier(g, s, k, []) && k <= h
    ensures Within(g, s, h) == Closer(g, s, k)
  {
    WithinSplits(g, s, k);
    if k > 0 {
      WithinGrows(g, s, k - 1, k);
    }
    assert Within(g, s, k) == Closer(g, s, k);
    LevelsStop(g, s, k, h);
  }

  lemma NextFrontier(g: Graph, s: Skill, k: nat, next: seq<Skill>)
    requires forall y :: y in next <==> exists x :: AtHop(g, s, k, x) && y in Prerequisites(g, x)
    ensures IsFrontier(g, s, k + 1, next)
  {
  }

  /** After the inner loop all of hop `k` has been seen, and its prerequisites are the next frontier. */
  lemma {:induction false} LayerDone(g: Graph, s: Skill, k: nat, layer: seq<Skill>, seen0: set<Skill>, seen: set<Skill>,
                  next: seq<Skill>)
    requires seen0 == Closer(g, s, k) && seen0 <= seen
    requires forall x :: AtHop(g, s, k, x) ==> x in layer
    requires forall x :: x in layer ==> x in seen
    requires forall x :: x in seen && x !in seen0 ==> AtHop(g, s, k, x)
    requires forall y :: y in next <==> exists x :: x in seen && x !in seen0 && y in Prerequisites(g, x)
    ensures seen == Within(g, s, k) && IsFrontier(g, s, k + 1, next)
  {
    WithinSplits(g, s, k);
    if k > 0 {
      WithinGrows(g, s, k - 1, k);
    }
    assert forall x :: AtHop(g, s, k, x) <==> x in seen && x !in seen0;
    NextFrontier(g, s, k, next);
  }

  /** One hop: the inner loop over the sorted frontier. */
  method VisitFrontier(g: Graph, ghost s: Skill, ghost k: nat, frontier: seq<Skill>,
                       seen0: set<Skill>, ordered0: seq<Skill>)
    returns (seen: set<Skill>, ordered: seq<Skill>, next: seq<Skill>)
    requires seen0 == Closer(g, s, k)
    requires forall x :: x in ordered0 <==> x in seen0
    requires Ranked(g, s, ordered0)
    requires IsFrontier(g, s, k, frontier)
    ensures seen == Within(g, s, k)
    ensures forall x :: x in ordered <==> x in seen
    ensures Ranked(g, s, ordered)
    ensures IsFrontier(g, s, k + 1, next)
  {
    var layer := Sort(StringLeq, frontier);
    StringOrder();
    SortSorted(StringLeq, frontier);
    SortKeepsMembers(StringLeq, frontier);
    seen, ordered, next := seen0, ordered0, [];
    for i := 0 to |layer|
      invariant seen0 <= seen <= Within(g, s, k) + seen0
      invariant forall x :: x in layer[..i] ==> x in seen
      invariant forall x :: x in seen && x !in seen0 ==> x in layer[..i] && AtHop(g, s, k, x)
      invariant forall x :: x in ordered <==> x in seen
      invariant Ranked(g, s, ordered)
      invariant forall y :: y in next <==> exists x :: x in seen && x !in seen0 && y in Prerequisites(g, x)
    {
      var current := layer[i];
      assert layer[..i + 1] == layer[..i] + [current];
      assert current in layer;
      if current !in seen {
        assert AtHop(g, s, k, current);
        RankLast(g, s, k, layer, i, seen0, ordered);
        seen := seen + {current};
        ordered := ordered + [current];
        next := next + Prerequisites(g, current);
      }
    }
    assert layer[..|layer|] == layer;
    LayerDone(g, s, k, layer, seen0, seen, next);
  }

  lemma {:induction false} WithinSplits(g: Graph, s: Skill, k: nat)
    ensures forall x :: x in Within(g, s, k) <==> x in Closer(g, s, k) || AtHop(g, s, k, x)
  {
  }

  lemma {:induction false} HasHop(g: Graph, s: Skill, k: nat, x: Skill) returns (j: nat)
    requires x in Closer(g, s, k)
    ensures j < k && AtHop(g, s, j, x)
  {
    j := k - 1;
    if x in Closer(g, s, k - 1) {
      j := HasHop(g, s, k - 1, x);
    }
  }

  /** A new skill of this hop ranks after everything listed so far. */
  lemma RankLast(g: Graph, s: Skill, k: nat, layer: seq<Skill>, i: nat, seen0: set<Skill>, ordered: seq<Skill>)
    requires i < |layer| && Sorted(StringLeq, layer)
    requires seen0 == Closer(g, s, k) && AtHop(g, s, k, layer[i]) && layer[i] !in ordered
    requires forall x :: x in ordered && x !in seen0 ==> x in layer[..i] && AtHop(g, s, k, x)
    requires Ranked(g, s, ordered)
    ensures Ranked(g, s, ordered + [layer[i]])
  {
    forall x | x in ordered
      ensures Before(g, s, x, layer[i])
    {
      if x in seen0 {
        var j := HasHop(g, s, k, x);
      } else {
        var j :| 0 <= j < i && layer[j] == x;
      }
    }
  }

  method PrerequisitesOf(g: Graph, skill: Skill, maxHops: int) returns (ordered: seq<Skill>)
    ensures IsExpansion(g, skill, maxHops, ordered)
    ensures NoRepeats(ordered)
  {
    if maxHops < 1 {
      return [];
    }
    var seen: set<Skill> := {};
    ordered := [];
    var frontier := [skill];
    var k := 0;
    while k < maxHops + 1
      invariant 0 <= k <= maxHops + 1
      invariant seen == Closer(g, skill, k)
      invariant forall x :: x in ordered <==> x in seen
      invariant Ranked(g, skill, ordered)
      invariant IsFrontier(g, skill, k, frontier)
    {
      if frontier == [] {
        EmptyFrontier(g, skill, k, maxHops);
        RankedNoRepeats(g, skill, ordered);
        return;
      }
      seen, ordered, frontier := VisitFrontier(g, skill, k, frontier, seen, ordered);
      k := k + 1;
    }
    RankedNoRepeats(g, skill, ordered);
  }
}
