/**
 What a partly instrumented function is, relative to the function the pass started from, and
 the two ways the pass adds a checking block: reusing the successor, or splitting the edge.
 */
module Instrumented {
  import opened Options
  import opened Machine
  import opened CondInfo
  import opened SplitEdge
  import opened CheckCodes

  type Edge = (BlockId, nat)

  // ----- the functions the pass accepts -----

  ghost predicate LayoutOk(f: Func) {
    f.layout != [] && NoDup(f.layout) && forall b {:trigger b in f.layout} :: b in f.layout <==> b in f.blocks
  }

  /** Every exit of the block leads to a block of the function that is listed as a successor. */
  ghost predicate ClosedAt(f: Func, b: BlockId)
    requires b in f.blocks
  {
    && f.blocks[b].succs <= f.blocks.Keys
    && forall e :: Target(f, b, e).Some? ==> Target(f, b, e).value in f.blocks[b].succs
  }

  ghost predicate Closed(f: Func) {
    forall b {:trigger ClosedAt(f, b)} :: b in f.blocks ==> ClosedAt(f, b)
  }

  ghost predicate CanonicalAt(f: Func, b: BlockId)
    requires b in f.blocks
  {
    forall j :: 0 <= j < |f.blocks[b].phis| ==> Canonical(f.blocks[b].phis[j].entries, Preds(f, b))
  }

  ghost predicate PhisCanonical(f: Func) {
    forall b {:trigger CanonicalAt(f, b)} :: b in f.blocks ==> CanonicalAt(f, b)
  }

  /** A traced block has somewhere to go when no branch is taken. */
  ghost predicate Continues(f: Func, b: BlockId)
    requires b in f.blocks
  {
    Traced(f.blocks[b]) ==> Target(f, b, NConds(f.blocks[b].terms)).Some?
  }

  /** Canonical PHIs, an entry without predecessors, and no traced block that falls off the layout. */
  ghost predicate Acceptable(o: Func) {
    && LayoutOk(o) && Closed(o) && PhisCanonical(o)
    && Preds(o, o.layout[0]) == {}
    && forall b {:trigger Continues(o, b)} :: b in o.blocks ==> Continues(o, b)
  }

  // ----- the invariant -----

  function Codes(o: Func, e: Edge): seq<CondCode>
    requires e.0 in o.blocks
  {
    EdgeCodes(o.blocks[e.0].terms, e.1)
  }

  /** `own` maps each block that holds checks to the edge they check. */
  ghost predicate OwnOk(o: Func, f: Func, own: map<BlockId, Edge>, c: BlockId)
    requires c in own
  {
    var (b, e) := own[c];
    && c in f.blocks && b in o.blocks && b in f.blocks
    && Traced(o.blocks[b]) && Target(o, b, e).Some?
    && Target(f, b, e) == Some(c)
    && Preds(f, c) == {b}
    && forall e' :: e' != e ==> Target(f, b, e') != Some(c)
  }

  function Checks(o: Func, own: map<BlockId, Edge>, c: BlockId, kill: bool): seq<Instr> {
    if c in own && own[c].0 in o.blocks then CMovs(Codes(o, own[c]), kill) else []
  }

  ghost predicate OldBlockOk(o: Func, f: Func, own: map<BlockId, Edge>, b: BlockId)
    requires b in o.blocks
  {
    && b in f.blocks
    && var ob := o.blocks[b]; var fb := f.blocks[b];
    && fb.body == Checks(o, own, b, !ob.flagsLiveIn) + ob.body
    && fb.flagsLiveIn == (ob.flagsLiveIn || b in own)
    && NConds(fb.terms) == NConds(ob.terms)
    && (forall i :: 0 <= i < NConds(ob.terms) ==> fb.terms[i].cc == ob.terms[i].cc)
    && |fb.phis| == |ob.phis|
    && (forall j :: 0 <= j < |ob.phis| ==>
          fb.phis[j].dst == ob.phis[j].dst && Values(fb.phis[j].entries) <= Values(ob.phis[j].entries))
  }

  /** Exit `e` of `b` reaches its original target, directly or through one checking block. */
  ghost predicate EdgeOk(o: Func, f: Func, own: map<BlockId, Edge>, b: BlockId, e: nat)
    requires b in o.blocks && b in f.blocks
  {
    var t := Target(o, b, e);
    var x := Target(f, b, e);
    if t.None? then x.None?
    else if x.None? then false
    else if x == t then t.value in own ==> own[t.value] == (b, e)
    else
      && x.value in f.blocks && x.value !in o.blocks
      && x.value in own && own[x.value] == (b, e)
      && Target(f, x.value, 0) == t
      && t.value !in own
  }

  /** The predecessor through which exit `e` of `b` finally enters its target. */
  function Via(o: Func, f: Func, b: BlockId, e: nat): BlockId
    requires b in o.blocks && b in f.blocks
  {
    var x := Target(f, b, e);
    if x.None? || x == Target(o, b, e) then b else x.value
  }

  /** Along exit `e` of `b`, every PHI of the target delivers the value it used to. */
  ghost predicate PhiOk(o: Func, f: Func, b: BlockId, e: nat)
    requires b in o.blocks && b in f.blocks
  {
    var t := Target(o, b, e);
    t.Some? && t.value in o.blocks && t.value in f.blocks ==>
      forall j :: 0 <= j < |o.blocks[t.value].phis| && j < |f.blocks[t.value].phis| ==>
        Lookup(f.blocks[t.value].phis[j].entries, Via(o, f, b, e))
        == Lookup(o.blocks[t.value].phis[j].entries, b)
  }

  ghost predicate NewBlockOk(o: Func, f: Func, own: map<BlockId, Edge>, x: BlockId)
    requires x in f.blocks
  {
    x !in o.blocks ==>
      && x in own && own[x].0 in o.blocks
      && var t := Target(o, own[x].0, own[x].1);
      && t.Some? && t.value in o.blocks
      && f.blocks[x].phis == []
      && NConds(f.blocks[x].terms) == 0
      && f.blocks[x].succs == {t.value}
      && f.blocks[x].flagsLiveIn
      && f.blocks[x].body == CMovs(Codes(o, own[x]), !o.blocks[t.value].flagsLiveIn)
  }

  ghost predicate BlocksOk(o: Func, f: Func, own: map<BlockId, Edge>) {
    && (forall b {:trigger OldBlockOk(o, f, own, b)} :: b in o.blocks ==> OldBlockOk(o, f, own, b))
    && (forall b {:trigger NewBlockOk(o, f, own, b)} :: b in f.blocks ==> NewBlockOk(o, f, own, b))
  }

  ghost predicate OwnersOk(o: Func, f: Func, own: map<BlockId, Edge>) {
    forall c {:trigger OwnOk(o, f, own, c)} :: c in own ==> OwnOk(o, f, own, c)
  }

  ghost predicate EdgesOk(o: Func, f: Func, own: map<BlockId, Edge>) {
    forall b, e :: b in o.blocks && b in f.blocks ==> EdgeOk(o, f, own, b, e)
  }

  ghost predicate PhisOk(o: Func, f: Func) {
    forall b, e :: b in o.blocks && b in f.blocks ==> PhiOk(o, f, b, e)
  }

  ghost predicate Inv(o: Func, f: Func, own: map<BlockId, Edge>) {
    && LayoutOk(f) && Closed(f) && PhisCanonical(f)
    && o.layout != [] && f.layout[0] == o.layout[0]
    && BlocksOk(o, f, own) && OwnersOk(o, f, own)
    && EdgesOk(o, f, own) && PhisOk(o, f)
  }

  lemma InvInit(o: Func)
    requires Acceptable(o)
    ensures Inv(o, o, map[])
  {
    forall b | b in o.blocks ensures OldBlockOk(o, o, map[], b) {
      assert Checks(o, map[], b, !o.blocks[b].flagsLiveIn) + o.blocks[b].body == o.blocks[b].body;
    }
  }

  // ----- one step -----

  /** Put the CMOVs at the start of `c`. */
  function AddChecks(f: Func, c: BlockId, codes: seq<CondCode>, live: bool): Func
    requires c in f.blocks
  {
    var cb := f.blocks[c];
    f.(blocks := f.blocks[c := cb.(body := CMovs(codes, !live) + cb.body,
                                   flagsLiveIn := if live then cb.flagsLiveIn else true)])
  }

  /** The next edge to treat: not treated yet, and leading to `s`. */
  ghost predicate Pending(o: Func, f: Func, own: map<BlockId, Edge>, m: BlockId, e: nat, s: BlockId) {
    && Acceptable(o) && Inv(o, f, own)
    && m in o.blocks && m in f.blocks && Traced(o.blocks[m])
    && Target(o, m, e) == Some(s) && Target(f, m, e) == Some(s)
    && s !in own
  }

  ghost predicate OnlyExit(f: Func, m: BlockId, e: nat, s: BlockId)
    requires m in f.blocks
  {
    forall e' :: e' != e ==> Target(f, m, e') != Some(s)
  }

  lemma PendingFacts(o: Func, f: Func, own: map<BlockId, Edge>, m: BlockId, e: nat, s: BlockId)
    requires Pending(o, f, own, m, e, s)
    ensures s in o.blocks && s in f.blocks && m in Preds(f, s)
  {
    assert ClosedAt(o, m) && ClosedAt(f, m);
  }

  // ----- reusing the successor as the checking block -----

  ghost predicate SameFlow(f: Func, g: Func) {
    && f.layout == g.layout && f.blocks.Keys == g.blocks.Keys
    && forall b :: b in f.blocks ==>
         && f.blocks[b].terms == g.blocks[b].terms
         && f.blocks[b].succs == g.blocks[b].succs
         && f.blocks[b].phis == g.blocks[b].phis
  }

  lemma SameFlowFacts(f: Func, g: Func)
    requires SameFlow(f, g)
    ensures forall b, e :: b in f.blocks ==> Target(g, b, e) == Target(f, b, e)
    ensures forall b :: Preds(g, b) == Preds(f, b)
    ensures LayoutOk(f) ==> LayoutOk(g)
    ensures Closed(f) ==> Closed(g)
    ensures PhisCanonical(f) ==> PhisCanonical(g)
  {
    assert forall b, e :: b in f.blocks ==> Target(g, b, e) == Target(f, b, e);
    forall b ensures Preds(g, b) == Preds(f, b) {}
    if Closed(f) {
      forall b | b in g.blocks ensures ClosedAt(g, b) { assert ClosedAt(f, b); }
    }
    if PhisCanonical(f) {
      forall b | b in g.blocks ensures CanonicalAt(g, b) { assert CanonicalAt(f, b); }
    }
  }

  lemma AddChecksSameFlow(f: Func, c: BlockId, codes: seq<CondCode>, live: bool)
    requires c in f.blocks
    ensures SameFlow(f, AddChecks(f, c, codes, live))
  {
  }

  lemma ReuseOld(o: Func, f: Func, own: map<BlockId, Edge>, m: BlockId, e: nat, s: BlockId, b: BlockId)
    requires m in o.blocks && s in f.blocks && s !in own && b in o.blocks
    requires OldBlockOk(o, f, own, b)
    ensures OldBlockOk(o, AddChecks(f, s, Codes(o, (m, e)), f.blocks[s].flagsLiveIn), own[s := (m, e)], b)
  {
    if b == s {
      assert f.blocks[s].body == [] + o.blocks[s].body == o.blocks[s].body;
    }
  }

  /** No other edge of the function reaches `s`, so giving it checks disturbs no other edge. */
  lemma ReuseEdge(o: Func, f: Func, own: map<BlockId, Edge>, m: BlockId, e: nat, s: BlockId,
                  b: BlockId, e1: nat)
    requires Closed(f) && m in f.blocks && m in o.blocks && s !in own
    requires Target(o, m, e) == Some(s) && Target(f, m, e) == Some(s)
    requires Preds(f, s) == {m} && OnlyExit(f, m, e, s)
    requires b in o.blocks && b in f.blocks && EdgeOk(o, f, own, b, e1)
    ensures EdgeOk(o, f, own[s := (m, e)], b, e1)
  {
    var x := Target(f, b, e1);
    if Target(o, b, e1) == Some(s) {
      assert ClosedAt(f, b);
      if x != Some(s) { assert ClosedAt(f, x.value); }
      assert Via(o, f, b, e1) in Preds(f, s);
      assert x == Some(s);
    }
  }

  lemma ReuseBlocks(o: Func, f: Func, own: map<BlockId, Edge>, m: BlockId, e: nat, s: BlockId)
    requires m in o.blocks && s in o.blocks && s in f.blocks && s !in own && BlocksOk(o, f, own)
    ensures BlocksOk(o, AddChecks(f, s, Codes(o, (m, e)), f.blocks[s].flagsLiveIn), own[s := (m, e)])
  {
    var f' := AddChecks(f, s, Codes(o, (m, e)), f.blocks[s].flagsLiveIn);
    var own' := own[s := (m, e)];
    forall b | b in o.blocks ensures OldBlockOk(o, f', own', b) { ReuseOld(o, f, own, m, e, s, b); }
    forall b | b in f'.blocks ensures NewBlockOk(o, f', own', b) { assert NewBlockOk(o, f, own, b); }
  }

  lemma ReuseOwners(o: Func, f: Func, f': Func, own: map<BlockId, Edge>, m: BlockId, e: nat, s: BlockId)
    requires SameFlow(f, f') && OwnersOk(o, f, own)
    requires m in o.blocks && m in f.blocks && Traced(o.blocks[m]) && s in f.blocks && s !in own
    requires Target(o, m, e) == Some(s) && Target(f, m, e) == Some(s)
    requires Preds(f, s) == {m} && OnlyExit(f, m, e, s)
    ensures OwnersOk(o, f', own[s := (m, e)])
  {
    SameFlowFacts(f, f');
    var own' := own[s := (m, e)];
    forall c | c in own' ensures OwnOk(o, f', own', c) {
      if c != s { assert OwnOk(o, f, own, c); }
    }
  }

  lemma ReuseEdges(o: Func, f: Func, f': Func, own: map<BlockId, Edge>, m: BlockId, e: nat, s: BlockId)
    requires SameFlow(f, f') && EdgesOk(o, f, own) && PhisOk(o, f)
    requires Closed(f) && m in f.blocks && m in o.blocks && s !in own
    requires Target(o, m, e) == Some(s) && Target(f, m, e) == Some(s)
    requires Preds(f, s) == {m} && OnlyExit(f, m, e, s)
    ensures EdgesOk(o, f', own[s := (m, e)]) && PhisOk(o, f')
  {
    SameFlowFacts(f, f');
    var own' := own[s := (m, e)];
    forall b, e1 | b in o.blocks && b in f'.blocks
      ensures EdgeOk(o, f', own', b, e1) && PhiOk(o, f', b, e1)
    {
      assert EdgeOk(o, f, own, b, e1) && PhiOk(o, f, b, e1);
      ReuseEdge(o, f, own, m, e, s, b, e1);
    }
  }

  lemma ReuseStep(o: Func, f: Func, own: map<BlockId, Edge>, m: BlockId, e: nat, s: BlockId)
    requires Pending(o, f, own, m, e, s)
    requires s in f.blocks && Preds(f, s) == {m} && OnlyExit(f, m, e, s)
    ensures Inv(o, AddChecks(f, s, Codes(o, (m, e)), f.blocks[s].flagsLiveIn), own[s := (m, e)])
  {
    PendingFacts(o, f, own, m, e, s);
    var f' := AddChecks(f, s, Codes(o, (m, e)), f.blocks[s].flagsLiveIn);
    AddChecksSameFlow(f, s, Codes(o, (m, e)), f.blocks[s].flagsLiveIn);
    SameFlowFacts(f, f');
    ReuseBlocks(o, f, own, m, e, s);
    ReuseOwners(o, f, f', own, m, e, s);
    ReuseEdges(o, f, f', own, m, e, s);
  }
}
