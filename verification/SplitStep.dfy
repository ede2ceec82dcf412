/**
 Splitting an edge and checking it in the new block keeps the instrumentation invariant.
 */
module SplitStep {
  import opened Options
  import opened Machine
  import opened CondInfo
  import opened SplitEdge
  import opened CheckCodes
  import opened Instrumented

  /** The terminators handed to the split: the branch of exit `e`, and the unconditional one. */
  predicate Handed(ts: seq<Term>, e: nat, br: Option<nat>, uncond: Option<nat>) {
    && UncondAt(ts, uncond)
    && br == (if e < NConds(ts) then Some(e) else uncond)
    && e <= NConds(ts)
  }

  predicate UncondAt(ts: seq<Term>, uncond: Option<nat>) {
    var k := NConds(ts);
    && (k < |ts| ==> ts[k].Jmp?)
    && uncond == (if k < |ts| then Some(k) else None)
  }

  ghost predicate Ready(f: Func, m: BlockId, e: nat, s: BlockId, br: Option<nat>, uncond: Option<nat>, n: BlockId) {
    && LayoutOk(f) && Closed(f) && m in f.blocks && s in f.blocks && n !in f.blocks
    && Handed(f.blocks[m].terms, e, br, uncond)
    && Target(f, m, e) == Some(s)
    && Target(f, m, NConds(f.blocks[m].terms)).Some?
  }

  lemma {:induction false} NCondsIs(ts: seq<Term>, k: nat)
    requires k <= |ts|
    requires forall i :: 0 <= i < k ==> ts[i].Jcc?
    requires k < |ts| ==> !ts[k].Jcc?
    ensures NConds(ts) == k
  {
  }

  /** The first `k` terminators stay conditional branches on the same conditions, and no more follow. */
  lemma SourceTermsShape(ts: seq<Term>, k: nat, br: Option<nat>, uncond: Option<nat>, n: BlockId, next: Option<BlockId>, r: seq<Term>)
    requires k <= |ts| && (forall i :: 0 <= i < k ==> ts[i].Jcc?) && (k < |ts| ==> ts[k].Jmp?)
    requires br.Some? ==> br.value < |ts| && br.value <= k
    requires r == SourceTerms(ts, br, uncond, n, next)
    ensures k <= |r| && (k < |r| ==> !r[k].Jcc?)
    ensures forall i :: 0 <= i < k ==> r[i].Jcc? && r[i].cc == ts[i].cc
  {
  }

  lemma SourceTermsConds(ts: seq<Term>, e: nat, br: Option<nat>, uncond: Option<nat>, n: BlockId, next: Option<BlockId>)
    requires Handed(ts, e, br, uncond)
    ensures br.Some? ==> br.value < |ts| && !ts[br.value].Other?
    ensures NConds(SourceTerms(ts, br, uncond, n, next)) == NConds(ts)
    ensures forall i :: 0 <= i < NConds(ts) ==> SourceTerms(ts, br, uncond, n, next)[i].cc == ts[i].cc
  {
    SourceTermsShape(ts, NConds(ts), br, uncond, n, next, SourceTerms(ts, br, uncond, n, next));
    NCondsIs(SourceTerms(ts, br, uncond, n, next), NConds(ts));
  }

  /** What the split does to each block. */
  ghost predicate Shape(f: Func, g: Func, m: BlockId, s: BlockId, last: bool, br: Option<nat>,
                        uncond: Option<nat>, n: BlockId)
    requires BranchTo(f, m, s, br)
  {
    && n !in f.blocks && g.blocks.Keys == f.blocks.Keys + {n}
    && g.layout == InsertAfter(f.layout, m, n)
    && (forall b :: b in f.blocks ==>
          && g.blocks[b].body == f.blocks[b].body && g.blocks[b].flagsLiveIn == f.blocks[b].flagsLiveIn
          && (b != m ==> g.blocks[b].terms == f.blocks[b].terms && g.blocks[b].succs == f.blocks[b].succs)
          && (b != s ==> g.blocks[b].phis == f.blocks[b].phis))
    && g.blocks[m].terms == SourceTerms(f.blocks[m].terms, br, uncond, n, NextIn(f.layout, m))
    && g.blocks[m].succs == (if last then f.blocks[m].succs - {s} else f.blocks[m].succs) + {n}
    && g.blocks[s].phis == FixPhis(f.blocks[s].phis, m, n, last)
    && g.blocks[n] == NewBlock(s, f.blocks[s], br, NextIn(f.layout, m))
  }

  lemma SplitShape(f: Func, m: BlockId, s: BlockId, count: int, br: Option<nat>, uncond: Option<nat>, n: BlockId)
    requires BranchTo(f, m, s, br) && n !in f.blocks
    ensures Shape(f, Split(f, m, s, count, br, uncond, n), m, s, count == 1, br, uncond, n)
  {
  }

  /** The source's own exits: `e` now leads to the new block, the others where they led. */
  lemma SplitSourceTargets(f: Func, g: Func, m: BlockId, e: nat, s: BlockId, last: bool, br: Option<nat>,
                           uncond: Option<nat>, n: BlockId, e1: nat)
    requires Ready(f, m, e, s, br, uncond, n) && BranchTo(f, m, s, br)
    requires Shape(f, g, m, s, last, br, uncond, n)
    ensures Target(g, m, e1) == (if e1 == e then Some(n) else Target(f, m, e1))
  {
    InsertAfterNext(f.layout, m, n, m);
    SourceTermsConds(f.blocks[m].terms, e, br, uncond, n, NextIn(f.layout, m));
  }

  /** Every other block's exits are unchanged. */
  lemma SplitOtherTargets(f: Func, g: Func, m: BlockId, n: BlockId, b: BlockId, e1: nat)
    requires NoDup(f.layout) && m in f.layout && n !in f.layout && g.layout == InsertAfter(f.layout, m, n)
    requires b in f.blocks && b in g.blocks && b != m && b != n
    requires g.blocks[b].terms == f.blocks[b].terms
    ensures Target(g, b, e1) == Target(f, b, e1)
  {
    InsertAfterNext(f.layout, m, n, b);
  }

  /** The new block has one exit, to the successor. */
  lemma SplitNewTargets(f: Func, g: Func, m: BlockId, s: BlockId, br: Option<nat>, n: BlockId, e1: nat)
    requires NoDup(f.layout) && m in f.layout && n !in f.layout && g.layout == InsertAfter(f.layout, m, n)
    requires n in g.blocks && s in f.blocks
    requires br.None? ==> NextIn(f.layout, m) == Some(s)
    requires g.blocks[n] == NewBlock(s, f.blocks[s], br, NextIn(f.layout, m))
    ensures Target(g, n, e1) == (if e1 == 0 then Some(s) else None)
  {
    InsertAfterNext(f.layout, m, n, m);
  }

  lemma SplitPreds(f: Func, g: Func, m: BlockId, s: BlockId, last: bool, br: Option<nat>,
                   uncond: Option<nat>, n: BlockId, b: BlockId)
    requires BranchTo(f, m, s, br) && Closed(f)
    requires Shape(f, g, m, s, last, br, uncond, n)
    ensures Preds(g, b) == if b == n then {m}
                           else if b == s then (if last then Preds(f, s) - {m} else Preds(f, s)) + {n}
                           else Preds(f, b)
  {
    forall c | c in f.blocks ensures n !in f.blocks[c].succs { assert ClosedAt(f, c); }
  }

  /** Control flow after the split, for all blocks at once. */
  ghost predicate Flow(f: Func, g: Func, m: BlockId, e: nat, s: BlockId, last: bool, n: BlockId)
    requires m in f.blocks && s in f.blocks && n in g.blocks && f.blocks.Keys <= g.blocks.Keys
  {
    && (forall b, e1 :: b in f.blocks ==>
          Target(g, b, e1) == if b == m && e1 == e then Some(n) else Target(f, b, e1))
    && (forall e1: nat :: Target(g, n, e1) == if e1 == 0 then Some(s) else None)
    && (forall b :: Preds(g, b) == if b == n then {m}
                           else if b == s then (if last then Preds(f, s) - {m} else Preds(f, s)) + {n}
                           else Preds(f, b))
  }

  lemma SplitFlow(f: Func, g: Func, m: BlockId, e: nat, s: BlockId, last: bool, br: Option<nat>,
                  uncond: Option<nat>, n: BlockId)
    requires Ready(f, m, e, s, br, uncond, n) && BranchTo(f, m, s, br)
    requires Shape(f, g, m, s, last, br, uncond, n)
    ensures Flow(f, g, m, e, s, last, n)
  {
    forall b, e1 | b in f.blocks
      ensures Target(g, b, e1) == if b == m && e1 == e then Some(n) else Target(f, b, e1)
    {
      if b == m { SplitSourceTargets(f, g, m, e, s, last, br, uncond, n, e1); }
      else { SplitOtherTargets(f, g, m, n, b, e1); }
    }
    forall e1: nat ensures Target(g, n, e1) == if e1 == 0 then Some(s) else None {
      SplitNewTargets(f, g, m, s, br, n, e1);
    }
    forall b ensures Preds(g, b) == if b == n then {m}
                           else if b == s then (if last then Preds(f, s) - {m} else Preds(f, s)) + {n}
                           else Preds(f, b)
    {
      SplitPreds(f, g, m, s, last, br, uncond, n, b);
    }
  }

  // ----- the invariant, clause by clause, for g after the split -----

  lemma SplitLayout(f: Func, g: Func, m: BlockId, n: BlockId)
    requires LayoutOk(f) && m in f.blocks && n !in f.blocks
    requires g.blocks.Keys == f.blocks.Keys + {n} && g.layout == InsertAfter(f.layout, m, n)
    ensures LayoutOk(g) && g.layout[0] == f.layout[0]
  {
    InsertAfterNext(f.layout, m, n, m);
  }

  lemma SplitClosed(f: Func, g: Func, m: BlockId, e: nat, s: BlockId, last: bool, n: BlockId)
    requires m in f.blocks && s in f.blocks && n !in f.blocks
    requires g.blocks.Keys == f.blocks.Keys + {n}
    requires Flow(f, g, m, e, s, last, n) && Closed(f)
    requires forall b :: b in f.blocks && b != m ==> g.blocks[b].succs == f.blocks[b].succs
    requires g.blocks[m].succs == (if last then f.blocks[m].succs - {s} else f.blocks[m].succs) + {n}
    requires g.blocks[n].succs == {s}
    requires last ==> OnlyExit(f, m, e, s)
    ensures Closed(g)
  {
    forall b | b in g.blocks ensures ClosedAt(g, b) {
      if b != n {
        assert ClosedAt(f, b);
        forall e1 | Target(g, b, e1).Some? ensures Target(g, b, e1).value in g.blocks[b].succs {
          if !(b == m && e1 == e) { assert Target(g, b, e1) == Target(f, b, e1); }
        }
      }
    }
  }

  lemma SplitCanonical(f: Func, g: Func, m: BlockId, e: nat, s: BlockId, last: bool, br: Option<nat>,
                       uncond: Option<nat>, n: BlockId)
    requires Ready(f, m, e, s, br, uncond, n) && BranchTo(f, m, s, br)
    requires Shape(f, g, m, s, last, br, uncond, n) && Flow(f, g, m, e, s, last, n)
    requires PhisCanonical(f)
    ensures PhisCanonical(g)
  {
    assert ClosedAt(f, m);
    forall b | b in g.blocks ensures CanonicalAt(g, b) {
      if b == s {
        assert CanonicalAt(f, s);
        forall j | 0 <= j < |g.blocks[s].phis|
          ensures Canonical(g.blocks[s].phis[j].entries, Preds(g, s))
        {
          FixEntriesCorrect(f.blocks[s].phis[j].entries, Preds(f, s), m, n, last, m);
        }
      } else if b != n {
        assert CanonicalAt(f, b);
      }
    }
  }

  /** The successor's PHIs give the new block the source's value and keep every other value. */
  lemma SplitLookup(f: Func, g: Func, m: BlockId, e: nat, s: BlockId, last: bool, br: Option<nat>,
                    uncond: Option<nat>, n: BlockId, j: nat, p: BlockId)
    requires Ready(f, m, e, s, br, uncond, n) && BranchTo(f, m, s, br)
    requires Shape(f, g, m, s, last, br, uncond, n)
    requires PhisCanonical(f) && j < |f.blocks[s].phis|
    ensures j < |g.blocks[s].phis| && g.blocks[s].phis[j].dst == f.blocks[s].phis[j].dst
    ensures Lookup(g.blocks[s].phis[j].entries, n) == Lookup(f.blocks[s].phis[j].entries, m)
    ensures p != n && !(last && p == m) ==>
              Lookup(g.blocks[s].phis[j].entries, p) == Lookup(f.blocks[s].phis[j].entries, p)
  {
    assert ClosedAt(f, m) && CanonicalAt(f, s);
    FixEntriesCorrect(f.blocks[s].phis[j].entries, Preds(f, s), m, n, last, p);
  }

  /** Along an edge to the successor, its PHIs deliver what they delivered before the split. */
  lemma SplitPhi(o: Func, f: Func, g: Func, own: map<BlockId, Edge>, m: BlockId, e: nat, s: BlockId,
                 last: bool, br: Option<nat>, uncond: Option<nat>, n: BlockId, b: BlockId, e1: nat, j: nat)
    requires Ready(f, m, e, s, br, uncond, n) && BranchTo(f, m, s, br)
    requires Shape(f, g, m, s, last, br, uncond, n)
    requires last ==> OnlyExit(f, m, e, s)
    requires PhisCanonical(f) && m in o.blocks && s in o.blocks && Target(o, m, e) == Some(s) && n !in o.blocks
    requires b in o.blocks && b in f.blocks && Target(o, b, e1) == Some(s)
    requires Target(g, b, e1) == if b == m && e1 == e then Some(n) else Target(f, b, e1)
    requires EdgeOk(o, f, own, b, e1) && PhiOk(o, f, b, e1)
    requires j < |o.blocks[s].phis| && j < |f.blocks[s].phis| && |g.blocks[s].phis| == |f.blocks[s].phis|
    ensures Lookup(g.blocks[s].phis[j].entries, Via(o, g, b, e1)) == Lookup(o.blocks[s].phis[j].entries, b)
  {
    SplitLookup(f, g, m, e, s, last, br, uncond, n, j, Via(o, f, b, e1));
  }

  lemma SplitPhis(o: Func, f: Func, g: Func, own: map<BlockId, Edge>, m: BlockId, e: nat, s: BlockId,
                  last: bool, br: Option<nat>, uncond: Option<nat>, n: BlockId)
    requires Ready(f, m, e, s, br, uncond, n) && BranchTo(f, m, s, br)
    requires Shape(f, g, m, s, last, br, uncond, n) && Flow(f, g, m, e, s, last, n)
    requires last ==> OnlyExit(f, m, e, s)
    requires PhisCanonical(f) && m in o.blocks && Target(o, m, e) == Some(s) && n !in o.blocks
    requires forall b :: b in o.blocks ==> b in f.blocks
    requires EdgesOk(o, f, own) && PhisOk(o, f)
    ensures PhisOk(o, g)
  {
    forall b, e1 | b in o.blocks && b in g.blocks ensures PhiOk(o, g, b, e1) {
      assert EdgeOk(o, f, own, b, e1) && PhiOk(o, f, b, e1);
      if Target(o, b, e1) == Some(s) && s in o.blocks {
        forall j | 0 <= j < |o.blocks[s].phis| && j < |g.blocks[s].phis|
          ensures Lookup(g.blocks[s].phis[j].entries, Via(o, g, b, e1)) == Lookup(o.blocks[s].phis[j].entries, b)
        {
          SplitPhi(o, f, g, own, m, e, s, last, br, uncond, n, b, e1, j);
        }
      }
    }
  }

  lemma SplitEdges(o: Func, f: Func, g: Func, own: map<BlockId, Edge>, m: BlockId, e: nat, s: BlockId,
                   last: bool, n: BlockId)
    requires m in f.blocks && s in f.blocks && n in g.blocks && n !in f.blocks && n !in o.blocks
    requires f.blocks.Keys <= g.blocks.Keys && Flow(f, g, m, e, s, last, n)
    requires m in o.blocks && Target(o, m, e) == Some(s) && s in o.blocks && s !in own && n !in own
    requires forall b :: b in o.blocks ==> b in f.blocks
    requires EdgesOk(o, f, own) && Closed(o)
    ensures EdgesOk(o, g, own[n := (m, e)])
  {
    var own' := own[n := (m, e)];
    forall b, e1 | b in o.blocks && b in g.blocks ensures EdgeOk(o, g, own', b, e1) {
      assert EdgeOk(o, f, own, b, e1);
      assert ClosedAt(o, b);
      assert Target(o, b, e1) != Some(n);
    }
  }

  lemma SplitOwners(o: Func, f: Func, g: Func, own: map<BlockId, Edge>, m: BlockId, e: nat, s: BlockId,
                    last: bool, n: BlockId)
    requires m in f.blocks && s in f.blocks && n in g.blocks && n !in f.blocks
    requires f.blocks.Keys <= g.blocks.Keys && Flow(f, g, m, e, s, last, n)
    requires Closed(f) && m in o.blocks && Traced(o.blocks[m]) && Target(o, m, e) == Some(s)
    requires Target(f, m, e) == Some(s) && s !in own && n !in own
    requires OwnersOk(o, f, own)
    ensures OwnersOk(o, g, own[n := (m, e)])
  {
    var own' := own[n := (m, e)];
    forall c | c in own' ensures OwnOk(o, g, own', c) {
      if c != n {
        assert OwnOk(o, f, own, c);
        assert Target(f, own[c].0, own[c].1) == Some(c);
      } else {
        forall e1 | e1 != e ensures Target(g, m, e1) != Some(n) {
          assert ClosedAt(f, m);
          assert Target(g, m, e1) == Target(f, m, e1);
        }
      }
    }
  }

  lemma SplitOldBlock(o: Func, f: Func, g: Func, own: map<BlockId, Edge>, m: BlockId, e: nat, s: BlockId,
                      last: bool, br: Option<nat>, uncond: Option<nat>, n: BlockId, b: BlockId)
    requires BranchTo(f, m, s, br) && Handed(f.blocks[m].terms, e, br, uncond)
    requires Shape(f, g, m, s, last, br, uncond, n)
    requires m in o.blocks && s in o.blocks && n !in o.blocks && n !in own && s !in own
    requires b in o.blocks && OldBlockOk(o, f, own, b)
    ensures OldBlockOk(o, AddChecks(g, n, Codes(o, (m, e)), g.blocks[s].flagsLiveIn), own[n := (m, e)], b)
  {
    if b == m { SourceTermsConds(f.blocks[m].terms, e, br, uncond, n, NextIn(f.layout, m)); }
    if b == s {
      forall j | 0 <= j < |f.blocks[s].phis|
        ensures Values(g.blocks[s].phis[j].entries) <= Values(f.blocks[s].phis[j].entries)
      {
        FixEntriesValues(f.blocks[s].phis[j].entries, m, n, last);
      }
    }
  }

  lemma SplitNewBlock(o: Func, f: Func, g: Func, own: map<BlockId, Edge>, m: BlockId, e: nat, s: BlockId,
                      last: bool, br: Option<nat>, uncond: Option<nat>, n: BlockId, b: BlockId)
    requires BranchTo(f, m, s, br) && Handed(f.blocks[m].terms, e, br, uncond)
    requires Shape(f, g, m, s, last, br, uncond, n)
    requires m in o.blocks && s in o.blocks && n !in o.blocks && n !in own && s !in own
    requires Target(o, m, e) == Some(s) && OldBlockOk(o, f, own, s)
    requires b == n || (b in f.blocks && NewBlockOk(o, f, own, b))
    ensures NewBlockOk(o, AddChecks(g, n, Codes(o, (m, e)), g.blocks[s].flagsLiveIn), own[n := (m, e)], b)
  {
    var codes := Codes(o, (m, e));
    assert CMovs(codes, !g.blocks[s].flagsLiveIn) + g.blocks[n].body == CMovs(codes, !g.blocks[s].flagsLiveIn);
  }

  lemma SplitBlocks(o: Func, f: Func, g: Func, own: map<BlockId, Edge>, m: BlockId, e: nat, s: BlockId,
                    last: bool, br: Option<nat>, uncond: Option<nat>, n: BlockId)
    requires BranchTo(f, m, s, br) && Handed(f.blocks[m].terms, e, br, uncond)
    requires Shape(f, g, m, s, last, br, uncond, n)
    requires m in o.blocks && s in o.blocks && n !in o.blocks && n !in own && s !in own
    requires Target(o, m, e) == Some(s)
    requires BlocksOk(o, f, own)
    ensures BlocksOk(o, AddChecks(g, n, Codes(o, (m, e)), g.blocks[s].flagsLiveIn), own[n := (m, e)])
  {
    var h := AddChecks(g, n, Codes(o, (m, e)), g.blocks[s].flagsLiveIn);
    var own' := own[n := (m, e)];
    forall b | b in o.blocks ensures OldBlockOk(o, h, own', b) {
      SplitOldBlock(o, f, g, own, m, e, s, last, br, uncond, n, b);
    }
    forall b | b in h.blocks ensures NewBlockOk(o, h, own', b) {
      SplitNewBlock(o, f, g, own, m, e, s, last, br, uncond, n, b);
    }
  }

  /** Flow facts carry over to a function that differs only in bodies. */
  lemma FlowSame(f: Func, g: Func, h: Func, m: BlockId, e: nat, s: BlockId, last: bool, n: BlockId)
    requires m in f.blocks && s in f.blocks && n in g.blocks && f.blocks.Keys <= g.blocks.Keys
    requires Flow(f, g, m, e, s, last, n) && SameFlow(g, h)
    ensures Flow(f, h, m, e, s, last, n)
  {
    SameFlowFacts(g, h);
  }

  lemma PhisOkSame(o: Func, g: Func, h: Func)
    requires PhisOk(o, g) && SameFlow(g, h)
    ensures PhisOk(o, h)
  {
    SameFlowFacts(g, h);
    forall b, e | b in o.blocks && b in h.blocks ensures PhiOk(o, h, b, e) {
      assert PhiOk(o, g, b, e);
    }
  }

  lemma PendingReady(o: Func, f: Func, own: map<BlockId, Edge>, m: BlockId, e: nat, s: BlockId,
                     br: Option<nat>, uncond: Option<nat>, n: BlockId)
    requires Pending(o, f, own, m, e, s) && n !in f.blocks
    requires Handed(f.blocks[m].terms, e, br, uncond)
    ensures Ready(f, m, e, s, br, uncond, n) && BranchTo(f, m, s, br)
    ensures s in o.blocks && n !in o.blocks && n !in own
    ensures forall b :: b in o.blocks ==> b in f.blocks
  {
    var k := NConds(f.blocks[m].terms);
    assert OldBlockOk(o, f, own, m) && ClosedAt(o, m) && ClosedAt(f, m) && Continues(o, m);
    assert EdgeOk(o, f, own, m, k);
    forall b | b in o.blocks ensures b in f.blocks { assert OldBlockOk(o, f, own, b); }
    forall c | c in own ensures c in f.blocks { assert OwnOk(o, f, own, c); }
  }

  lemma SplitStepOk(o: Func, f: Func, own: map<BlockId, Edge>, m: BlockId, e: nat, s: BlockId,
                    count: int, br: Option<nat>, uncond: Option<nat>, n: BlockId)
    requires Pending(o, f, own, m, e, s) && n !in f.blocks
    requires Handed(f.blocks[m].terms, e, br, uncond)
    requires BranchTo(f, m, s, br)
    requires count == 1 ==> OnlyExit(f, m, e, s)
    ensures var g := Split(f, m, s, count, br, uncond, n);
            Inv(o, AddChecks(g, n, Codes(o, (m, e)), g.blocks[s].flagsLiveIn), own[n := (m, e)])
  {
    var g := Split(f, m, s, count, br, uncond, n);
    var h := AddChecks(g, n, Codes(o, (m, e)), g.blocks[s].flagsLiveIn);
    var last := count == 1;
    PendingReady(o, f, own, m, e, s, br, uncond, n);
    SplitShape(f, m, s, count, br, uncond, n);
    SplitFlow(f, g, m, e, s, last, br, uncond, n);
    AddChecksSameFlow(g, n, Codes(o, (m, e)), g.blocks[s].flagsLiveIn);
    FlowSame(f, g, h, m, e, s, last, n);
    SplitLayout(f, h, m, n);
    SplitClosed(f, h, m, e, s, last, n);
    SplitCanonical(f, g, m, e, s, last, br, uncond, n);
    SameFlowFacts(g, h);
    SplitBlocks(o, f, g, own, m, e, s, last, br, uncond, n);
    SplitOwners(o, f, h, own, m, e, s, last, n);
    SplitEdges(o, f, h, own, m, e, s, last, n);
    SplitPhis(o, f, g, own, m, e, s, last, br, uncond, n);
    PhisOkSame(o, g, h);
  }
}
