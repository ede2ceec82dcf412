/**
 Which functions are recursive: a depth-first search of the call graph with one visited set
 for the whole search, and a cache of its answers.
 */
module Recursion {
  import opened Options
  import opened FiniteSets

  /** `callees` lists the call graph's edges; an edge without a function is `None`. */
  datatype Func = Func(defined: bool, intrinsic: bool, callees: seq<Option<nat>>)

  type CallGraph = seq<Func>

  /** Edges name functions of the module, and intrinsics have no body. */
  ghost predicate WellFormed(g: CallGraph) {
    && (forall f: nat, c: nat {:trigger Some(c) in g[f].callees} :: f < |g| && Some(c) in g[f].callees ==> c < |g|)
    && (forall f: nat | f < |g| && g[f].intrinsic :: !g[f].defined)
  }

  /** A call edge to a function with a body. */
  ghost predicate Calls(g: CallGraph, f: nat, c: nat) {
    f < |g| && c < |g| && !g[f].intrinsic && g[c].defined && Some(c) in g[f].callees
  }

  /** A chain of one or more calls from `from` to `to`. */
  ghost predicate CallChain(g: CallGraph, from: nat, to: nat, chain: seq<nat>) {
    && |chain| > 1 && chain[0] == from && chain[|chain| - 1] == to
    && (forall i: nat | i + 1 < |chain| :: Calls(g, chain[i], chain[i + 1]))
  }

  ghost predicate Reaches(g: CallGraph, from: nat, to: nat) {
    exists chain: seq<nat> :: CallChain(g, from, to, chain)
  }

  lemma DirectCall(g: CallGraph, from: nat, to: nat)
    requires Calls(g, from, to)
    ensures Reaches(g, from, to)
  {
    assert CallChain(g, from, to, [from, to]);
  }

  lemma CallThen(g: CallGraph, from: nat, via: nat, to: nat)
    requires Calls(g, from, via) && Reaches(g, via, to)
    ensures Reaches(g, from, to)
  {
    var chain: seq<nat> :| CallChain(g, via, to, chain);
    var longer := [from] + chain;
    forall i: nat | i + 1 < |longer| ensures Calls(g, longer[i], longer[i + 1]) {
      if i > 0 { assert longer[i] == chain[i - 1] && longer[i + 1] == chain[i - 1 + 1]; }
    }
    assert CallChain(g, from, to, longer);
  }

  /** All calls of `f` stay among the visited functions, and none is of the target. */
  ghost predicate Searched(g: CallGraph, target: nat, visited: set<nat>, f: nat) {
    forall c: nat {:trigger Calls(g, f, c)} :: Calls(g, f, c) ==> c in visited && c != target
  }

  ghost predicate NewSearched(g: CallGraph, target: nat, old_visited: set<nat>, visited: set<nat>, except: set<nat>) {
    forall f: nat | f in visited && f !in old_visited && f !in except :: Searched(g, target, visited, f)
  }

  /** The first `i` edges lead, where they lead to a function with a body, to a visited one that is
      not the target. */
  ghost predicate EdgesDone(g: CallGraph, target: nat, edges: seq<Option<nat>>, i: nat, visited: set<nat>) {
    forall j: nat | j < i && j < |edges| && edges[j].Some? && edges[j].value < |g| && g[edges[j].value].defined ::
      edges[j].value in visited && edges[j].value != target
  }

  lemma OneEdgeDone(g: CallGraph, target: nat, edges: seq<Option<nat>>, i: nat, before: set<nat>, after: set<nat>)
    requires i < |edges| && EdgesDone(g, target, edges, i, before) && before <= after
    requires edges[i].Some? && edges[i].value < |g| && g[edges[i].value].defined ==> edges[i].value in after && edges[i].value != target
    ensures EdgesDone(g, target, edges, i + 1, after)
  {
  }

  lemma AllEdgesDone(g: CallGraph, target: nat, f: nat, visited: set<nat>)
    requires f < |g| && EdgesDone(g, target, g[f].callees, |g[f].callees|, visited)
    ensures Searched(g, target, visited, f)
  {
  }

  /**
   The search from `current`.  When it fails, everything it visited for the first time has been
   searched completely: the visited set shared with the callers hides nothing.
   */
  method Dfs(g: CallGraph, target: nat, current: nat, visited0: set<nat>) returns (found: bool, visited: set<nat>)
    requires WellFormed(g) && current < |g| && visited0 <= UpTo(|g|)
    ensures visited0 <= visited <= UpTo(|g|)
    ensures found ==> Reaches(g, current, target)
    ensures !found ==> current in visited && NewSearched(g, target, visited0, visited, {})
    decreases |UpTo(|g|) - visited0|
  {
    ghost var all := UpTo(|g|);
    visited := visited0;
    if current in visited { return false, visited; }
    visited := visited + {current};
    assert all - visited0 == (all - visited) + {current};
    if g[current].intrinsic {
      return false, visited;
    }
    ghost var mine := visited;
    var edges := g[current].callees;
    for i := 0 to |edges|
      invariant mine <= visited <= all
      invariant NewSearched(g, target, visited0, visited, {current})
      invariant EdgesDone(g, target, edges, i, visited)
    {
      assert edges[i] in edges;
      if edges[i].Some? && g[edges[i].value].defined {
        var callee := edges[i].value;
        assert Calls(g, current, callee);
        if callee == target {
          DirectCall(g, current, target);
          return true, visited;
        }
        assert all - visited <= all - mine;
        SubsetSize(all - visited, all - mine);
        ghost var before := visited;
        found, visited := Dfs(g, target, callee, visited);
        if found {
          CallThen(g, current, callee, target);
          return true, visited;
        }
        StillSearched(g, target, visited0, before, visited, {current});
        OneEdgeDone(g, target, edges, i, before, visited);
      }
    }
    AllEdgesDone(g, target, current, visited);
    return false, visited;
  }

  lemma StillSearched(g: CallGraph, target: nat, visited0: set<nat>, before: set<nat>, after: set<nat>, except: set<nat>)
    requires before <= after
    requires NewSearched(g, target, visited0, before, except) && NewSearched(g, target, before, after, {})
    ensures NewSearched(g, target, visited0, after, except)
  {
    forall f: nat | f in after && f !in visited0 && f !in except ensures Searched(g, target, after, f) {
      if f in before { assert Searched(g, target, before, f); }
    }
  }

  /** A completely searched set that calls the target nowhere contains no way to it. */
  lemma {:induction false} NoWayOut(g: CallGraph, target: nat, visited: set<nat>, chain: seq<nat>, i: nat)
    requires i < |chain| && chain[0] in visited && (forall f: nat | f in visited :: Searched(g, target, visited, f))
    requires forall j: nat | j + 1 < |chain| :: Calls(g, chain[j], chain[j + 1])
    ensures chain[i] in visited && (i > 0 ==> chain[i] != target)
  {
    if i > 0 {
      NoWayOut(g, target, visited, chain, i - 1);
      assert Calls(g, chain[i - 1], chain[i - 1 + 1]);
      assert Searched(g, target, visited, chain[i - 1]);
    }
  }

  lemma NotFoundNotReached(g: CallGraph, f: nat, visited: set<nat>)
    requires f in visited && NewSearched(g, f, {}, visited, {})
    ensures !Reaches(g, f, f)
  {
    forall chain: seq<nat> ensures !CallChain(g, f, f, chain) {
      if CallChain(g, f, f, chain) {
        assert forall h: nat | h in visited :: Searched(g, f, visited, h);
        NoWayOut(g, f, visited, chain, |chain| - 1);
      }
    }
  }

  class RecursionAnalysis {
    const graph: CallGraph
    var cache: map<nat, bool>

    constructor (graph: CallGraph)
      requires WellFormed(graph)
      ensures this.graph == graph && Valid()
    {
      this.graph := graph;
      cache := map[];
    }

    /** Every cached answer is the answer of a fresh search. */
    ghost predicate Valid()
      reads this
    {
      WellFormed(graph) && forall f: nat | f in cache :: cache[f] == Reaches(graph, f, f)
    }

    /** True exactly when the function reaches itself by one or more calls. */
    method IsRecursive(f: nat) returns (r: bool)
      requires Valid() && f < |graph|
      modifies this
      ensures Valid() && r == Reaches(graph, f, f)
      ensures cache == old(cache)[f := r]
    {
      if f in cache { return cache[f]; }
      var visited;
      r, visited := Dfs(graph, f, f, {});
      if !r { NotFoundNotReached(graph, f, visited); }
      cache := cache[f := r];
    }
  }
}
