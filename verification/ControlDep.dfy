/**
 Control dependence, computed by walking up the post-dominator tree from the target of each
 branch edge.

 Blocks are numbered from 0; the number of blocks itself stands for the virtual root of the
 tree, which every exit leads to.  The tree comes from the compiler and enters through the
 contract `TreeFits`: a node is an ancestor of a block iff it post-dominates it.
 */
module ControlDep {
  import opened Options

  type Node = nat

  /** How a block ends: a branch, or something that is no branch instruction. */
  datatype Terminator = Branch(conditional: bool, condition: Option<Node>) | OtherTerminator

  /** `insts`: the graph nodes of the block's instructions, where they have one. */
  datatype Block = Block(succs: seq<nat>, terminator: Terminator, exits: bool, insts: seq<Option<Node>>)

  type Cfg = seq<Block>

  datatype Tree = Tree(idom: seq<nat>, level: seq<nat>)

  ghost predicate CfgOk(g: Cfg) {
    forall b: nat, s: nat | b < |g| && s in g[b].succs :: s < |g|
  }

  ghost predicate TreeOk(t: Tree, n: nat) {
    && |t.idom| == |t.level| == n + 1 && t.level[n] == 0
    && (forall b: nat | b < n :: t.idom[b] <= n && t.level[b] == t.level[t.idom[b]] + 1)
  }

  // ----- post-dominance -----

  ghost predicate Step(g: Cfg, a: nat, b: nat) {
    a < |g| && (b in g[a].succs || (b == |g| && g[a].exits))
  }

  /** A way from `a` to the virtual root. */
  ghost predicate WayOut(g: Cfg, a: nat, path: seq<nat>) {
    && |path| > 0 && path[0] == a && path[|path| - 1] == |g|
    && (forall i: nat | i + 1 < |path| :: Step(g, path[i], path[i + 1]))
  }

  ghost predicate PostDominates(g: Cfg, x: nat, a: nat) {
    forall path: seq<nat> | WayOut(g, a, path) :: x in path
  }

  /** `x` is `a` or one of its ancestors. */
  predicate Ancestor(t: Tree, n: nat, x: nat, a: nat)
    requires TreeOk(t, n) && a <= n
    decreases t.level[a]
  {
    x == a || (a != n && Ancestor(t, n, x, t.idom[a]))
  }

  ghost predicate TreeFits(g: Cfg, t: Tree) {
    && TreeOk(t, |g|)
    && (forall x: nat, a: nat | x <= |g| && a <= |g| :: Ancestor(t, |g|, x, a) <==> PostDominates(g, x, a))
  }

  // ----- the tree -----

  lemma {:induction false} AncestorLevel(t: Tree, n: nat, x: nat, a: nat)
    requires TreeOk(t, n) && a <= n && Ancestor(t, n, x, a)
    ensures x <= n && t.level[x] <= t.level[a] && (x != a ==> t.level[x] < t.level[a])
    decreases t.level[a]
  {
    if x != a { AncestorLevel(t, n, x, t.idom[a]); }
  }

  lemma {:induction false} RootAbove(t: Tree, n: nat, a: nat)
    requires TreeOk(t, n) && a <= n
    ensures Ancestor(t, n, n, a)
    decreases t.level[a]
  {
    if a != n { RootAbove(t, n, t.idom[a]); }
  }

  lemma {:induction false} AncestorTrans(t: Tree, n: nat, x: nat, y: nat, a: nat)
    requires TreeOk(t, n) && a <= n && Ancestor(t, n, y, a) && y <= n && Ancestor(t, n, x, y)
    ensures Ancestor(t, n, x, a)
    decreases t.level[a]
  {
    if y != a { AncestorTrans(t, n, x, y, t.idom[a]); }
  }

  ghost predicate Common(t: Tree, n: nat, a: nat, b: nat, x: nat)
    requires TreeOk(t, n) && a <= n && b <= n
  {
    Ancestor(t, n, x, a) && Ancestor(t, n, x, b)
  }

  /** Climbing from the deeper of two different nodes loses no common ancestor. */
  lemma ClimbKeepsCommon(t: Tree, n: nat, a: nat, b: nat, x: nat)
    requires TreeOk(t, n) && a <= n && b <= n && a != b && t.level[b] <= t.level[a]
    ensures a != n && t.idom[a] <= n && t.level[t.idom[a]] < t.level[a]
    ensures Common(t, n, a, b, x) <==> Common(t, n, t.idom[a], b, x)
  {
    assert b < n ==> t.level[b] == t.level[t.idom[b]] + 1;
    if Common(t, n, a, b, x) { AncestorLevel(t, n, x, b); }
  }

  /** The lowest node above both, by climbing from the deeper one. */
  method NearestCommonDominator(t: Tree, n: nat, a0: nat, b0: nat) returns (r: nat)
    requires TreeOk(t, n) && a0 <= n && b0 <= n
    ensures r <= n && forall x: nat :: Ancestor(t, n, x, r) <==> Common(t, n, a0, b0, x)
  {
    var a: nat, b: nat := a0, b0;
    while a != b
      invariant a <= n && b <= n
      invariant forall x: nat :: Common(t, n, a, b, x) <==> Common(t, n, a0, b0, x)
      decreases t.level[a] + t.level[b]
    {
      if t.level[a] < t.level[b] {
        a, b := b, a;
      }
      forall x: nat ensures Common(t, n, a, b, x) <==> (a != n && Common(t, n, t.idom[a], b, x)) {
        ClimbKeepsCommon(t, n, a, b, x);
      }
      ClimbKeepsCommon(t, n, a, b, n);
      a := t.idom[a];
    }
    r := a;
  }

  // ----- dependence -----

  type Edges = set<(Node, Node)>

  /** Edges from one node to every instruction of a block. */
  ghost function ToBlock(g: Cfg, from: Node, x: nat): Edges
    requires x < |g|
  {
    set i: nat | i < |g[x].insts| && g[x].insts[i].Some? :: (from, g[x].insts[i].value)
  }

  method AddControlDepFromNodeToBB(g: Cfg, from: Node, x: nat, edges0: Edges) returns (edges: Edges)
    requires x < |g|
    ensures edges == edges0 + ToBlock(g, from, x)
  {
    edges := edges0;
    ghost var seen: Edges := {};
    for i := 0 to |g[x].insts|
      invariant seen == set j: nat | j < i && g[x].insts[j].Some? :: (from, g[x].insts[j].value)
      invariant edges == edges0 + seen
    {
      var inst := g[x].insts[i];
      if inst.Some? {
        edges := edges + {(from, inst.value)};
        seen := seen + {(from, inst.value)};
      }
    }
  }

  /** The walk makes exactly these blocks dependent on the edge from `a` to `b`. */
  ghost predicate DependsByTree(t: Tree, n: nat, a: nat, b: nat, x: nat)
    requires TreeOk(t, n) && a <= n && b <= n
  {
    (Ancestor(t, n, x, b) && !Ancestor(t, n, x, a)) || (x == a && a == b)
  }

  /** Edges from `from` to the instructions of the blocks in a set. */
  ghost function ToBlocks(g: Cfg, from: Node, xs: set<nat>): Edges
    requires forall x: nat | x in xs :: x < |g|
  {
    set x: nat, i: nat | x in xs && i < |g[x].insts| && g[x].insts[i].Some? :: (from, g[x].insts[i].value)
  }

  lemma ToBlocksAdd(g: Cfg, from: Node, xs: set<nat>, x: nat)
    requires x < |g| && forall y: nat | y in xs :: y < |g|
    ensures ToBlocks(g, from, xs + {x}) == ToBlocks(g, from, xs) + ToBlock(g, from, x)
  {
  }

  lemma StepUp(t: Tree, n: nat, b: nat, ncd: nat, cur: nat)
    requires TreeOk(t, n) && b <= n && cur <= n && cur != ncd && Ancestor(t, n, ncd, cur) && Ancestor(t, n, cur, b)
    ensures cur < n && Ancestor(t, n, ncd, t.idom[cur]) && Ancestor(t, n, t.idom[cur], b)
    ensures forall x: nat :: Ancestor(t, n, x, t.idom[cur]) <==> (x != cur && Ancestor(t, n, x, cur))
  {
    assert Ancestor(t, n, t.idom[cur], t.idom[cur]);
    AncestorTrans(t, n, t.idom[cur], cur, b);
    if Ancestor(t, n, cur, t.idom[cur]) { AncestorLevel(t, n, cur, t.idom[cur]); }
  }

  /** Below the nearest common ancestor, being above `b` already excludes being above `a`. */
  lemma WalkExact(t: Tree, n: nat, a: nat, b: nat, ncd: nat, x: nat)
    requires TreeOk(t, n) && a <= n && b <= n && ncd <= n
    requires forall y: nat :: Ancestor(t, n, y, ncd) <==> Common(t, n, a, b, y)
    ensures Ancestor(t, n, x, b) ==> (Ancestor(t, n, x, ncd) <==> Ancestor(t, n, x, a))
  {
    assert Ancestor(t, n, x, ncd) <==> Common(t, n, a, b, x);
  }

  /** One edge of the flow graph whose target does not post-dominate its source. */
  method DependOnEdge(g: Cfg, t: Tree, a: nat, b: nat, cond: Node, edges0: Edges) returns (edges: Edges, ghost xs: set<nat>)
    requires TreeOk(t, |g|) && a < |g| && b < |g|
    requires a == b || !Ancestor(t, |g|, b, a)
    ensures forall x: nat {:trigger x in xs} :: x in xs <==> DependsByTree(t, |g|, a, b, x)
    ensures forall x: nat | x in xs :: x < |g|
    ensures edges == edges0 + ToBlocks(g, cond, xs)
  {
    var n := |g|;
    edges, xs := edges0, {};
    var ncd := NearestCommonDominator(t, n, a, b);
    if ncd == a {
      edges := AddControlDepFromNodeToBB(g, cond, b, edges);
      ToBlocksAdd(g, cond, xs, b);
      xs := xs + {b};
    }
    if a == b {
      assert Ancestor(t, n, a, ncd) && Ancestor(t, n, ncd, ncd) && Ancestor(t, n, ncd, a) by { assert Common(t, n, a, b, a); }
      AncestorLevel(t, n, a, ncd);
      AncestorLevel(t, n, ncd, a);
    }
    ghost var first := xs;
    var cur: nat := b;
    assert Ancestor(t, n, ncd, ncd);
    while cur != ncd
      invariant cur <= n && Ancestor(t, n, ncd, cur) && Ancestor(t, n, cur, b)
      invariant forall x: nat {:trigger x in xs} :: x in xs <==> (x in first || (Ancestor(t, n, x, b) && !Ancestor(t, n, x, cur)))
      invariant forall x: nat | x in xs :: x < n
      invariant edges == edges0 + ToBlocks(g, cond, xs)
      decreases t.level[cur]
    {
      StepUp(t, n, b, ncd, cur);
      edges := AddControlDepFromNodeToBB(g, cond, cur, edges);
      ToBlocksAdd(g, cond, xs, cur);
      xs := xs + {cur};
      cur := t.idom[cur];
    }
    forall x: nat ensures x in xs <==> DependsByTree(t, n, a, b, x) {
      WalkExact(t, n, a, b, ncd, x);
    }
  }

  /** Edge `e` of the result comes from block `x` depending on the branch from `a` to `b`. */
  ghost predicate Source(g: Cfg, t: Tree, a: nat, b: nat, x: nat, e: (Node, Node))
    requires TreeOk(t, |g|)
  {
    && a < |g| && b < |g| && b in g[a].succs && x < |g|
    && g[a].terminator.Branch? && g[a].terminator.conditional && g[a].terminator.condition == Some(e.0)
    && Some(e.1) in g[x].insts
    && DependsByTree(t, |g|, a, b, x)
  }

  ghost predicate FromBlocks(g: Cfg, t: Tree, n: nat, e: (Node, Node))
    requires TreeOk(t, |g|)
  {
    exists a: nat, b: nat, x: nat :: a < n && Source(g, t, a, b, x, e)
  }

  ghost predicate FromEdges(g: Cfg, t: Tree, a: nat, k: nat, e: (Node, Node))
    requires TreeOk(t, |g|) && a < |g| && k <= |g[a].succs|
  {
    exists j: nat, x: nat :: j < k && Source(g, t, a, g[a].succs[j], x, e)
  }

  lemma EdgeDone(g: Cfg, t: Tree, a: nat, k: nat, cond: Node, xs: set<nat>, e: (Node, Node))
    requires TreeOk(t, |g|) && a < |g| && k < |g[a].succs| && g[a].succs[k] < |g|
    requires g[a].terminator == Branch(true, Some(cond))
    requires forall x: nat {:trigger x in xs} :: x in xs <==> DependsByTree(t, |g|, a, g[a].succs[k], x)
    requires forall x: nat | x in xs :: x < |g|
    ensures FromEdges(g, t, a, k + 1, e) <==> FromEdges(g, t, a, k, e) || e in ToBlocks(g, cond, xs)
  {
    var b := g[a].succs[k];
    if e in ToBlocks(g, cond, xs) {
      var x: nat, i: nat :| x in xs && i < |g[x].insts| && g[x].insts[i].Some? && e == (cond, g[x].insts[i].value);
      assert Some(e.1) == g[x].insts[i];
      assert Source(g, t, a, g[a].succs[k], x, e);
    }
    if FromEdges(g, t, a, k + 1, e) {
      var j: nat, x: nat :| j < k + 1 && Source(g, t, a, g[a].succs[j], x, e);
      if j == k {
        var i: nat :| i < |g[x].insts| && g[x].insts[i] == Some(e.1);
        assert x in xs;
        assert e == (cond, g[x].insts[i].value);
      }
    }
  }

  lemma SkippedEdge(g: Cfg, t: Tree, a: nat, k: nat, e: (Node, Node))
    requires TreeOk(t, |g|) && a < |g| && k < |g[a].succs| && g[a].succs[k] < |g|
    requires a != g[a].succs[k] && Ancestor(t, |g|, g[a].succs[k], a)
    ensures FromEdges(g, t, a, k + 1, e) <==> FromEdges(g, t, a, k, e)
  {
    forall x: nat ensures !Source(g, t, a, g[a].succs[k], x, e) {
      if Ancestor(t, |g|, x, g[a].succs[k]) { AncestorTrans(t, |g|, x, g[a].succs[k], a); }
    }
  }

  lemma NoBranch(g: Cfg, t: Tree, a: nat)
    requires TreeOk(t, |g|) && a < |g| && !g[a].terminator.Branch?
    ensures forall e: (Node, Node), k: nat {:trigger FromEdges(g, t, a, k, e)} | k <= |g[a].succs| :: !FromEdges(g, t, a, k, e)
  {
  }

  /** All edges out of one block. */
  method DependOnBlock(g: Cfg, t: Tree, a: nat, edges0: Edges) returns (edges: Edges)
    requires CfgOk(g) && TreeOk(t, |g|) && a < |g|
    ensures forall e: (Node, Node) {:trigger e in edges} :: e in edges <==> e in edges0 || FromEdges(g, t, a, |g[a].succs|, e)
  {
    edges := edges0;
    for k := 0 to |g[a].succs|
      invariant forall e: (Node, Node) {:trigger e in edges} :: e in edges <==> e in edges0 || FromEdges(g, t, a, k, e)
    {
      var b := g[a].succs[k];
      assert b in g[a].succs;
      if a == b || !Ancestor(t, |g|, b, a) {
        match g[a].terminator
        case OtherTerminator =>
          NoBranch(g, t, a);
        case Branch(conditional, condition) =>
          if !conditional || condition.None? {
            break;
          }
          ghost var before := edges;
          ghost var xs;
          edges, xs := DependOnEdge(g, t, a, b, condition.value, edges);
          forall e: (Node, Node) ensures e in edges <==> e in edges0 || FromEdges(g, t, a, k + 1, e) {
            EdgeDone(g, t, a, k, condition.value, xs, e);
            assert e in before <==> e in edges0 || FromEdges(g, t, a, k, e);
          }
      } else {
        forall e: (Node, Node) ensures FromEdges(g, t, a, k + 1, e) <==> FromEdges(g, t, a, k, e) {
          SkippedEdge(g, t, a, k, e);
        }
      }
    }
  }

  /** The whole function. */
  method ComputeControlDependencies(g: Cfg, t: Tree) returns (edges: Edges)
    requires CfgOk(g) && TreeFits(g, t)
    ensures forall e: (Node, Node) :: e in edges <==> exists a: nat, b: nat, x: nat :: Dependence(g, a, b, x, e)
  {
    edges := {};
    for a := 0 to |g|
      invariant forall e: (Node, Node) {:trigger e in edges} :: e in edges <==> FromBlocks(g, t, a, e)
    {
      ghost var before := edges;
      edges := DependOnBlock(g, t, a, edges);
      forall e: (Node, Node) ensures e in edges <==> FromBlocks(g, t, a + 1, e) {
        BlockDone(g, t, a, e);
        assert e in before <==> FromBlocks(g, t, a, e);
      }
    }
    forall e: (Node, Node) ensures e in edges <==> exists a: nat, b: nat, x: nat :: Dependence(g, a, b, x, e) {
      ByDefinition(g, t, e);
    }
  }

  lemma BlockDone(g: Cfg, t: Tree, a: nat, e: (Node, Node))
    requires TreeOk(t, |g|) && a < |g|
    ensures FromBlocks(g, t, a + 1, e) <==> FromBlocks(g, t, a, e) || FromEdges(g, t, a, |g[a].succs|, e)
  {
    if FromBlocks(g, t, a + 1, e) {
      var c: nat, b: nat, x: nat :| c < a + 1 && Source(g, t, c, b, x, e);
      if c == a {
        var j: nat :| j < |g[a].succs| && g[a].succs[j] == b;
        assert Source(g, t, a, g[a].succs[j], x, e);
      }
    }
  }

  // ----- the definition -----

  /** `x` post-dominates the target of the edge but not its source; or the edge is a self-loop. */
  ghost predicate Depends(g: Cfg, a: nat, b: nat, x: nat) {
    (PostDominates(g, x, b) && !PostDominates(g, x, a)) || (x == a && a == b)
  }

  ghost predicate Dependence(g: Cfg, a: nat, b: nat, x: nat, e: (Node, Node)) {
    && a < |g| && b < |g| && b in g[a].succs && x < |g|
    && g[a].terminator.Branch? && g[a].terminator.conditional && g[a].terminator.condition == Some(e.0)
    && Some(e.1) in g[x].insts
    && Depends(g, a, b, x)
  }

  lemma ByDefinition(g: Cfg, t: Tree, e: (Node, Node))
    requires TreeFits(g, t)
    ensures FromBlocks(g, t, |g|, e) <==> exists a: nat, b: nat, x: nat :: Dependence(g, a, b, x, e)
  {
    forall a: nat, b: nat, x: nat ensures Source(g, t, a, b, x, e) <==> Dependence(g, a, b, x, e) {
      if a < |g| && b < |g| && x < |g| {
        assert Ancestor(t, |g|, x, b) <==> PostDominates(g, x, b);
        assert Ancestor(t, |g|, x, a) <==> PostDominates(g, x, a);
      }
    }
  }

  /** The usual definition: `x` post-dominates the target and not strictly the source. */
  ghost predicate UsuallyDepends(g: Cfg, a: nat, b: nat, x: nat) {
    PostDominates(g, x, b) && !(PostDominates(g, x, a) && x != a)
  }

  /**
   The walk leaves out one thing: a branch that post-dominates its own successor depends on
   itself by the usual definition, but is included only when the edge is a self-loop.
   */
  lemma AgainstUsualDefinition(g: Cfg, a: nat, b: nat, x: nat)
    ensures Depends(g, a, b, x) <==> UsuallyDepends(g, a, b, x) && (x == a ==> a == b)
  {
    SelfPostDominates(g, a);
  }

  /** A loop: block 0 branches on node 7 to the body 1 or out to 2, and the body jumps back. */
  const LOOP: Cfg :=
    [Block([1, 2], Branch(true, Some(7)), false, [Some(7)]),
     Block([0], Branch(false, None), false, []),
     Block([], OtherTerminator, true, [])]

  /** Its header post-dominates its body, so by the usual definition the branch depends on itself; no
      control dependence makes that edge. */
  lemma LoopHeaderLeftOut()
    ensures UsuallyDepends(LOOP, 0, 1, 0)
    ensures !exists a: nat, b: nat, x: nat :: Dependence(LOOP, a, b, x, (7, 7))
  {
    SelfPostDominates(LOOP, 0);
    forall path: seq<nat> | WayOut(LOOP, 1, path) ensures 0 in path {
      assert Step(LOOP, path[0], path[0 + 1]);
    }
  }

  lemma SelfPostDominates(g: Cfg, a: nat)
    ensures PostDominates(g, a, a)
  {
    forall path: seq<nat> | WayOut(g, a, path) ensures a in path { assert path[0] == a; }
  }
}
