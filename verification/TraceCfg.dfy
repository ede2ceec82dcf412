/**
 The pass over the control-flow graph, on a mutable machine function: edge splitting, and the
 insertion of checks on every edge of every traced block.
 */
module TraceCfg {
  import opened Options
  import opened Machine
  import opened CondInfo
  import opened SplitEdge
  import opened CheckCodes
  import opened Instrumented
  import opened SplitStep

  // ----- the PHI loop of splitEdge -----

  lemma {:induction false} FirstMatch(es: seq<(Reg, BlockId)>, m: BlockId, n: BlockId, i: nat)
    requires i <= |es|
    requires forall j :: 0 <= j < i ==> es[j].1 != m
    requires i < |es| ==> es[i].1 == m
    ensures Lookup(es, m) == if i < |es| then Some(es[i].0) else None
    ensures Rename(es, m, n) == if i < |es| then es[i := (es[i].0, n)] else es
    decreases |es|
  {
    if es != [] && i > 0 {
      FirstMatch(es[1..], m, n, i - 1);
      assert es == [es[0]] + es[1..];
    }
  }

  /** The operand loop stops at the first entry for the source block. */
  method FixOperands(es: seq<(Reg, BlockId)>, m: BlockId, n: BlockId, count: int)
    returns (r: seq<(Reg, BlockId)>)
    ensures r == FixEntries(es, m, n, count == 1)
  {
    r := es;
    var i := 0;
    while i < |es|
      invariant 0 <= i <= |es| && r == es
      invariant forall j :: 0 <= j < i ==> es[j].1 != m
    {
      if es[i].1 == m {
        FirstMatch(es, m, n, i);
        if count == 1 {
          r := r[i := (es[i].0, n)];
        } else {
          r := r + [(es[i].0, n)];
        }
        return;
      }
      i := i + 1;
    }
    FirstMatch(es, m, n, |es|);
  }

  method FixPhiNodes(phis: seq<Phi>, m: BlockId, n: BlockId, count: int) returns (r: seq<Phi>)
    ensures r == FixPhis(phis, m, n, count == 1)
  {
    r := phis;
    var i := 0;
    while i < |phis|
      invariant 0 <= i <= |phis| == |r|
      invariant r[..i] == FixPhis(phis, m, n, count == 1)[..i]
      invariant r[i..] == phis[i..]
    {
      assert r[i] == phis[i];
      var es := FixOperands(phis[i].entries, m, n, count);
      r := r[i := r[i].(entries := es)];
      i := i + 1;
    }
  }

  /** Terminators of the source and of the new block, and where the unconditional branch now is. */
  method RetargetBranch(old_ts: seq<Term>, s: BlockId, br: Option<nat>, uncond: Option<nat>, n: BlockId,
                        oldNext: Option<BlockId>)
    returns (ts: seq<Term>, nts: seq<Term>, uncond': Option<nat>)
    requires br.Some? ==> br.value < |old_ts| && !old_ts[br.value].Other?
    requires br.Some? && uncond.None? ==> oldNext.Some?
    ensures ts == SourceTerms(old_ts, br, uncond, n, oldNext)
    ensures nts == if br.Some? && oldNext != Some(s) then [Jmp(s)] else []
    ensures uncond' == if br.Some? && uncond.None? then Some(|old_ts|) else uncond
  {
    ts, nts, uncond' := old_ts, [], uncond;
    if br.Some? {
      ts := ts[br.value := ts[br.value].(target := n)];
      if uncond.None? {
        uncond' := Some(|ts|);
        ts := ts + [Jmp(oldNext.value)];
      }
      if oldNext != Some(s) {
        nts := [Jmp(s)];
      }
    }
  }

  // ----- counting the edges to a successor -----

  /** Edges of block `m` to `t` not treated yet: its first `j` branches and its unconditional exit. */
  function PendingEdges(o: Func, m: BlockId, j: nat, t: BlockId): int
    requires m in o.blocks
  {
    if j == 0 then
      if Target(o, m, NConds(o.blocks[m].terms)) == Some(t) then 1 else 0
    else PendingEdges(o, m, j - 1, t) + if Target(o, m, j - 1) == Some(t) then 1 else 0
  }

  lemma {:induction false} NoPending(o: Func, m: BlockId, j: nat, t: BlockId, e: nat)
    requires m in o.blocks && (e < j || e == NConds(o.blocks[m].terms))
    ensures PendingEdges(o, m, j, t) >= if Target(o, m, e) == Some(t) then 1 else 0
    decreases j
  {
    if j > 0 { NoPending(o, m, j - 1, t, if e == j - 1 then NConds(o.blocks[m].terms) else e); }
  }

  /** A count of one leaves no second edge. */
  lemma OtherPending(o: Func, m: BlockId, j: nat, e: nat, s: BlockId, e1: nat)
    requires m in o.blocks && j <= NConds(o.blocks[m].terms)
    requires e == j - 1 || (j == 0 && e == NConds(o.blocks[m].terms))
    requires Target(o, m, e) == Some(s) && PendingEdges(o, m, j, s) == 1 && e1 != e
    ensures e1 < j || e1 == NConds(o.blocks[m].terms) ==> Target(o, m, e1) != Some(s)
  {
    if j > 0 && (e1 < j || e1 == NConds(o.blocks[m].terms)) {
      NoPending(o, m, j - 1, s, e1);
    }
  }

  lemma {:induction false} PendingSame(o: Func, f: Func, m: BlockId, j: nat, t: BlockId)
    requires m in o.blocks && m in f.blocks && j <= NConds(o.blocks[m].terms) == NConds(f.blocks[m].terms)
    requires forall e: nat :: e <= NConds(o.blocks[m].terms) ==> Target(f, m, e) == Target(o, m, e)
    ensures PendingEdges(f, m, j, t) == PendingEdges(o, m, j, t)
    decreases j
  {
    if j > 0 { PendingSame(o, f, m, j - 1, t); }
  }

  ghost predicate Treated(own: map<BlockId, Edge>, m: BlockId, e: nat) {
    exists c :: c in own && own[c] == (m, e)
  }

  /** Every edge of every traced block is checked by a block of its own. */
  ghost predicate Complete(o: Func, own: map<BlockId, Edge>) {
    forall b, e :: b in o.blocks && Traced(o.blocks[b]) && Target(o, b, e).Some? ==> Treated(own, b, e)
  }

  /** The state of the loop over the branches of `m`, with exits `j..k` treated. */
  ghost predicate Progress(o: Func, f: Func, own: map<BlockId, Edge>, m: BlockId, j: nat) {
    && Acceptable(o) && Inv(o, f, own)
    && m in o.blocks && m in f.blocks && Traced(o.blocks[m]) && j <= NConds(o.blocks[m].terms)
    && TreatedRange(own, m, j, NConds(o.blocks[m].terms))
  }

  /** Of the exits of `m`, exactly `j..k` are treated. */
  ghost predicate TreatedRange(own: map<BlockId, Edge>, m: BlockId, j: nat, k: nat) {
    && (forall c :: c in own && own[c].0 == m ==> j <= own[c].1 < k)
    && (forall e: nat :: j <= e < k ==> Treated(own, m, e))
  }

  lemma TreatedGrows(own: map<BlockId, Edge>, c: BlockId, m: BlockId, e: nat)
    requires c !in own
    ensures Treated(own[c := (m, e)], m, e)
    ensures forall b: BlockId, e1: nat :: Treated(own, b, e1) ==> Treated(own[c := (m, e)], b, e1)
  {
    var own' := own[c := (m, e)];
    assert own'[c] == (m, e);
    forall b: BlockId, e1: nat | Treated(own, b, e1) ensures Treated(own', b, e1) {
      var d :| d in own && own[d] == (b, e1);
      assert own'[d] == (b, e1);
    }
  }

  lemma ProgressPending(o: Func, f: Func, own: map<BlockId, Edge>, m: BlockId, j: nat, e: nat)
    requires Progress(o, f, own, m, j)
    requires e < j || e == NConds(o.blocks[m].terms)
    ensures Target(o, m, e).Some? && Pending(o, f, own, m, e, Target(o, m, e).value)
  {
    assert OldBlockOk(o, f, own, m);
    assert EdgeOk(o, f, own, m, e);
    assert Continues(o, m);
  }

  /** An exit not treated yet still leads where it led, to a block without checks for it. */
  lemma ProgressTarget(o: Func, f: Func, own: map<BlockId, Edge>, m: BlockId, j: nat, e: nat)
    requires Progress(o, f, own, m, j)
    ensures e < j || e == NConds(o.blocks[m].terms) ==> Target(f, m, e) == Target(o, m, e)
    ensures e > NConds(o.blocks[m].terms) ==> Target(f, m, e).None?
    ensures j <= e < NConds(o.blocks[m].terms) ==> Target(f, m, e).Some? && Target(f, m, e).value in own
  {
    assert OldBlockOk(o, f, own, m);
    assert EdgeOk(o, f, own, m, e);
    if j <= e < NConds(o.blocks[m].terms) {
      assert Treated(own, m, e);
      var c :| c in own && own[c] == (m, e);
      assert OwnOk(o, f, own, c);
    }
  }

  /** When the count says so, no other exit of the source leads to the successor any more. */
  lemma CountOne(o: Func, f: Func, own: map<BlockId, Edge>, m: BlockId, j: nat, e: nat, s: BlockId)
    requires Progress(o, f, own, m, j)
    requires e == j - 1 || (j == 0 && e == NConds(o.blocks[m].terms))
    requires Target(o, m, e) == Some(s) && s !in own
    requires PendingEdges(o, m, j, s) == 1
    ensures OnlyExit(f, m, e, s)
  {
    forall e1: nat | e1 != e ensures Target(f, m, e1) != Some(s) {
      ProgressTarget(o, f, own, m, j, e1);
      OtherPending(o, m, j, e, s, e1);
    }
  }

  /** The new block, the source and the target put in place one after the other. */
  function Updated(f: Func, m: BlockId, s: BlockId, count: int, br: Option<nat>, n: BlockId, mb: Block): map<BlockId, Block>
    requires BranchTo(f, m, s, br) && n !in f.blocks
  {
    var bs := f.blocks[n := NewBlock(s, f.blocks[s], br, NextIn(f.layout, m))][m := mb];
    bs[s := bs[s].(phis := FixPhis(bs[s].phis, m, n, count == 1))]
  }

  lemma UpdatedAt(f: Func, m: BlockId, s: BlockId, count: int, br: Option<nat>, uncond: Option<nat>,
                  n: BlockId, mb: Block, b: BlockId)
    requires BranchTo(f, m, s, br) && n !in f.blocks && (b in f.blocks || b == n)
    requires mb == f.blocks[m].(terms := SourceTerms(f.blocks[m].terms, br, uncond, n, NextIn(f.layout, m)),
                                succs := (if count == 1 then f.blocks[m].succs - {s} else f.blocks[m].succs) + {n})
    ensures b in Updated(f, m, s, count, br, n, mb)
    ensures Updated(f, m, s, count, br, n, mb)[b] == SplitBlock(f, m, s, count, br, uncond, n, b)
  {
  }

  /** The pointwise updates of the method add up to the split. */
  lemma UpdatesAreSplit(f: Func, m: BlockId, s: BlockId, count: int, br: Option<nat>, uncond: Option<nat>,
                        n: BlockId, mb: Block)
    requires BranchTo(f, m, s, br) && n !in f.blocks
    requires mb == f.blocks[m].(terms := SourceTerms(f.blocks[m].terms, br, uncond, n, NextIn(f.layout, m)),
                                succs := (if count == 1 then f.blocks[m].succs - {s} else f.blocks[m].succs) + {n})
    ensures Updated(f, m, s, count, br, n, mb) == Split(f, m, s, count, br, uncond, n).blocks
  {
    var r, g := Updated(f, m, s, count, br, n, mb), Split(f, m, s, count, br, uncond, n);
    assert r.Keys == g.blocks.Keys;
    forall b | b in r ensures r[b] == g.blocks[b] {
      UpdatedAt(f, m, s, count, br, uncond, n, mb, b);
      assert g.blocks[b] == SplitBlock(f, m, s, count, br, uncond, n, b);
    }
  }

  method SplitFunction(f: Func, m: BlockId, s: BlockId, count: int, br: Option<nat>, uncond: Option<nat>, n: BlockId)
    returns (g: Func, uncond': Option<nat>)
    requires LayoutOk(f) && BranchTo(f, m, s, br) && n !in f.blocks
    requires br.None? ==> uncond.None? && NextIn(f.layout, m) == Some(s)
    requires br.Some? && uncond.None? ==> NextIn(f.layout, m).Some?
    ensures g == Split(f, m, s, count, br, uncond, n)
    ensures uncond' == if br.Some? && uncond.None? then Some(|f.blocks[m].terms|) else uncond
  {
    InsertAfterNext(f.layout, m, n, m);
    var layout := InsertAfter(f.layout, m, n);
    var mb, nb := f.blocks[m], Block([], [], [], {s}, f.blocks[s].flagsLiveIn);
    var ts, nts;
    ts, nts, uncond' := RetargetBranch(mb.terms, s, br, uncond, n, NextIn(layout, n));
    mb, nb := mb.(terms := ts), nb.(terms := nts);
    if count == 1 {
      mb := mb.(succs := mb.succs - {s} + {n});
    } else {
      mb := mb.(succs := mb.succs + {n});
    }
    var blocks := f.blocks[n := nb][m := mb];
    var phis := FixPhiNodes(blocks[s].phis, m, n, count);
    blocks := blocks[s := blocks[s].(phis := phis)];
    UpdatesAreSplit(f, m, s, count, br, uncond, n, mb);
    g := Func(layout, blocks);
  }

  method BuildCMovs(codes: seq<CondCode>, live: bool) returns (r: seq<Instr>)
    ensures r == CMovs(codes, !live)
  {
    r := [];
    for i := 0 to |codes|
      invariant r == CMovs(codes, !live)[..i]
    {
      r := r + [CMovPoison(codes[i], !live && codes[i] == codes[|codes| - 1])];
    }
  }

  lemma UncondAfter(ts: seq<Term>, e: nat, br: Option<nat>, uncond: Option<nat>, n: BlockId, next: Option<BlockId>)
    requires Handed(ts, e, br, uncond) && (br.Some? && uncond.None? ==> next.Some?)
    ensures br.Some? ==> br.value < |ts| && !ts[br.value].Other?
    ensures UncondAt(SourceTerms(ts, br, uncond, n, next),
                     if br.Some? && uncond.None? then Some(|ts|) else uncond)
  {
    SourceTermsConds(ts, e, br, uncond, n, next);
  }

  predicate Reuses(f: Func, s: BlockId, count: int) { count == 1 && |Preds(f, s)| == 1 }

  /** The function after checking the edge from `m` to `s`, in `s` itself or in a new block `n`. */
  function CheckEdge(f: Func, m: BlockId, s: BlockId, count: int, br: Option<nat>, uncond: Option<nat>,
                     codes: seq<CondCode>, n: BlockId): Func
    requires BranchTo(f, m, s, br) && n !in f.blocks
  {
    if Reuses(f, s, count) then AddChecks(f, s, codes, f.blocks[s].flagsLiveIn)
    else
      var g := Split(f, m, s, count, br, uncond, n);
      AddChecks(g, n, codes, g.blocks[s].flagsLiveIn)
  }

  lemma CheckEdgeInv(o: Func, f: Func, own: map<BlockId, Edge>, m: BlockId, e: nat, s: BlockId, count: int,
                     br: Option<nat>, uncond: Option<nat>, n: BlockId)
    requires Pending(o, f, own, m, e, s) && n !in f.blocks
    requires Handed(f.blocks[m].terms, e, br, uncond) && BranchTo(f, m, s, br)
    requires count == 1 ==> OnlyExit(f, m, e, s)
    ensures Inv(o, CheckEdge(f, m, s, count, br, uncond, Codes(o, (m, e)), n),
                own[if Reuses(f, s, count) then s else n := (m, e)])
  {
    if Reuses(f, s, count) {
      PendingFacts(o, f, own, m, e, s);
      Singleton(Preds(f, s), m);
      ReuseStep(o, f, own, m, e, s);
    } else {
      SplitStepOk(o, f, own, m, e, s, count, br, uncond, n);
    }
  }

  lemma CheckEdgeUncond(f: Func, m: BlockId, e: nat, s: BlockId, count: int, br: Option<nat>, uncond: Option<nat>,
                        codes: seq<CondCode>, n: BlockId)
    requires BranchTo(f, m, s, br) && n !in f.blocks && Handed(f.blocks[m].terms, e, br, uncond)
    requires br.Some? && uncond.None? ==> NextIn(f.layout, m).Some?
    ensures var g := CheckEdge(f, m, s, count, br, uncond, codes, n);
            && g.blocks.Keys <= f.blocks.Keys + {n} && m in g.blocks
            && UncondAt(g.blocks[m].terms,
                        if !Reuses(f, s, count) && br.Some? && uncond.None? then Some(|f.blocks[m].terms|) else uncond)
  {
    UncondAfter(f.blocks[m].terms, e, br, uncond, n, NextIn(f.layout, m));
    SplitShape(f, m, s, count, br, uncond, n);
  }

  method BuildCheckingBlock(f: Func, m: BlockId, s: BlockId, count: int, br: Option<nat>, uncond: Option<nat>,
                         codes: seq<CondCode>, n: BlockId)
    returns (g: Func, uncond': Option<nat>)
    requires LayoutOk(f) && BranchTo(f, m, s, br) && n !in f.blocks
    requires br.None? ==> uncond.None? && NextIn(f.layout, m) == Some(s)
    requires br.Some? && uncond.None? ==> NextIn(f.layout, m).Some?
    ensures g == CheckEdge(f, m, s, count, br, uncond, codes, n)
    ensures uncond' == if !Reuses(f, s, count) && br.Some? && uncond.None? then Some(|f.blocks[m].terms|) else uncond
  {
    var c := s;
    g, uncond' := f, uncond;
    if !(count == 1 && |Preds(f, s)| == 1) {
      g, uncond' := SplitFunction(f, m, s, count, br, uncond, n);
      c := n;
    }
    var live := g.blocks[s].flagsLiveIn;
    var cmovs := BuildCMovs(codes, live);
    var cb := g.blocks[c];
    if !live {
      cb := cb.(flagsLiveIn := true);
    }
    g := g.(blocks := g.blocks[c := cb.(body := cmovs + cb.body)]);
  }

  lemma Singleton<T>(s: set<T>, x: T)
    requires |s| == 1 && x in s
    ensures s == {x}
  {
    assert |s - {x}| == 0;
  }

  /** Treating the next exit of `m` keeps the invariant. */
  lemma CheckEdgeProgress(o: Func, f: Func, own: map<BlockId, Edge>, m: BlockId, j: nat, e: nat, s: BlockId,
                          count: int, br: Option<nat>, uncond: Option<nat>, n: BlockId)
    requires Progress(o, f, own, m, j) && n !in f.blocks
    requires e == j - 1 || (j == 0 && e == NConds(o.blocks[m].terms))
    requires Target(o, m, e) == Some(s)
    requires Handed(f.blocks[m].terms, e, br, uncond)
    requires count == PendingEdges(o, m, j, s)
    ensures Ready(f, m, e, s, br, uncond, n) && BranchTo(f, m, s, br)
    ensures Inv(o, CheckEdge(f, m, s, count, br, uncond, Codes(o, (m, e)), n),
                own[if Reuses(f, s, count) then s else n := (m, e)])
    ensures (if Reuses(f, s, count) then s else n) !in own
  {
    ProgressPending(o, f, own, m, j, e);
    PendingReady(o, f, own, m, e, s, br, uncond, n);
    if count == 1 { CountOne(o, f, own, m, j, e, s); }
    CheckEdgeInv(o, f, own, m, e, s, count, br, uncond, n);
  }

  /** Count the edges to each successor, the unconditional one first. */
  method CountSuccessors(f: Func, m: BlockId, info: Info) returns (counts: map<BlockId, int>)
    requires m in f.blocks && info == InfoOf(m, f.blocks[m])
    requires Target(f, m, NConds(f.blocks[m].terms)).Some?
    ensures forall t :: (if t in counts then counts[t] else 0) == PendingEdges(f, m, |info.condBrs|, t)
    ensures Target(f, m, NConds(f.blocks[m].terms)).value in counts
    ensures forall i :: 0 <= i < |info.condBrs| ==> f.blocks[m].terms[info.condBrs[i]].target in counts
  {
    var ts := f.blocks[m].terms;
    var k := NConds(ts);
    counts := map[Target(f, m, k).value := 1];
    var i := |info.condBrs|;
    while i > 0
      invariant 0 <= i <= |info.condBrs| == k
      invariant forall t :: (if t in counts then counts[t] else 0) == PendingEdges(f, m, k - i, t)
      invariant Target(f, m, k).value in counts
      invariant forall j :: i <= j < k ==> ts[info.condBrs[j]].target in counts
    {
      i := i - 1;
      var t := ts[info.condBrs[i]].target;
      assert info.condBrs[i] == k - 1 - i && Target(f, m, k - 1 - i) == Some(t);
      counts := counts[t := (if t in counts then counts[t] else 0) + 1];
    }
  }

  /** Only edges of `m` were added. */
  ghost predicate Grown(own: map<BlockId, Edge>, own': map<BlockId, Edge>, m: BlockId) {
    && (forall c :: c in own ==> c in own' && own'[c] == own[c])
    && (forall c :: c in own' ==> c in own || own'[c].0 == m)
  }

  ghost predicate IdsBelow(f: Func, n: BlockId) { forall b :: b in f.blocks ==> b < n }

  lemma TreatedRangeStep(own: map<BlockId, Edge>, own0: map<BlockId, Edge>, m: BlockId, j: nat, k: nat, c: BlockId)
    requires TreatedRange(own, m, j, k) && 0 < j <= k && c !in own && Grown(own0, own, m)
    ensures TreatedRange(own[c := (m, j - 1)], m, j - 1, k) && Grown(own0, own[c := (m, j - 1)], m)
  {
    TreatedGrows(own, c, m, j - 1);
    var own' := own[c := (m, j - 1)];
    forall e: nat | j - 1 <= e < k ensures Treated(own', m, e) {
      assert e >= j ==> Treated(own, m, e);
    }
  }

  lemma ProgressStep(o: Func, f: Func, g: Func, own: map<BlockId, Edge>, own0: map<BlockId, Edge>,
                     m: BlockId, j: nat, c: BlockId)
    requires Progress(o, f, own, m, j) && j > 0 && c !in own && Grown(own0, own, m)
    requires Inv(o, g, own[c := (m, j - 1)])
    ensures Progress(o, g, own[c := (m, j - 1)], m, j - 1) && Grown(own0, own[c := (m, j - 1)], m)
  {
    TreatedRangeStep(own, own0, m, j, NConds(o.blocks[m].terms), c);
    assert OldBlockOk(o, g, own[c := (m, j - 1)], m);
  }

  /** Blocks outside `done` still have their terminators and successors, and no edge of theirs is treated. */
  ghost predicate Untouched(o: Func, f: Func, own: map<BlockId, Edge>, done: set<BlockId>) {
    && (forall b :: b in o.blocks && b in f.blocks && b !in done ==>
          f.blocks[b].terms == o.blocks[b].terms && f.blocks[b].succs == o.blocks[b].succs)
    && (forall c :: c in own ==> own[c].0 in done)
  }

  lemma CheckEdgeUntouched(o: Func, f: Func, own: map<BlockId, Edge>, done: set<BlockId>, m: BlockId, e: nat,
                           s: BlockId, count: int, br: Option<nat>, uncond: Option<nat>,
                           codes: seq<CondCode>, n: BlockId, c: BlockId)
    requires BranchTo(f, m, s, br) && n !in f.blocks && n !in o.blocks
    requires Untouched(o, f, own, done) && m in done
    ensures Untouched(o, CheckEdge(f, m, s, count, br, uncond, codes, n), own[c := (m, e)], done)
  {
    SplitShape(f, m, s, count, br, uncond, n);
  }

  lemma UntouchedProgress(o: Func, f: Func, own: map<BlockId, Edge>, done: set<BlockId>, m: BlockId)
    requires Acceptable(o) && Inv(o, f, own)
    requires m in o.blocks && Traced(o.blocks[m]) && Untouched(o, f, own, done) && m !in done
    ensures Progress(o, f, own, m, NConds(o.blocks[m].terms)) && f.blocks[m].terms == o.blocks[m].terms
  {
    assert OldBlockOk(o, f, own, m);
  }

  lemma CodesStep(ts: seq<Term>, k: nat, i: nat)
    requires i < k <= NConds(ts)
    ensures BranchCodes(ts, k)[..i] + [ts[k - 1 - i].cc] == BranchCodes(ts, k)[..i + 1]
  {
  }

  /** The loop over the exits of `m`, with exits `j..k` treated. */
  ghost predicate LoopInv(o: Func, f: Func, n: BlockId, own: map<BlockId, Edge>, own0: map<BlockId, Edge>,
                          done: set<BlockId>, m: BlockId, j: nat) {
    && Progress(o, f, own, m, j) && IdsBelow(f, n) && Grown(own0, own, m)
    && Untouched(o, f, own, done) && m in done
  }

  /** `e` is the exit the loop treats next, and the arguments handed over are those of its edge. */
  ghost predicate NextExit(o: Func, f: Func, m: BlockId, j: nat, e: nat, s: BlockId, count: int,
                           br: Option<nat>, uncond: Option<nat>)
    requires m in o.blocks && m in f.blocks
  {
    && (e == j - 1 || (j == 0 && e == NConds(o.blocks[m].terms)))
    && Target(o, m, e) == Some(s) && count == PendingEdges(o, m, j, s)
    && Handed(f.blocks[m].terms, e, br, uncond)
  }

  function Checker(f: Func, s: BlockId, count: int, n: BlockId): BlockId {
    if Reuses(f, s, count) then s else n
  }

  lemma ExitReady(o: Func, f: Func, n: BlockId, own: map<BlockId, Edge>, own0: map<BlockId, Edge>,
                  done: set<BlockId>, m: BlockId, j: nat, e: nat, s: BlockId, count: int,
                  br: Option<nat>, uncond: Option<nat>)
    requires LoopInv(o, f, n, own, own0, done, m, j) && NextExit(o, f, m, j, e, s, count, br, uncond)
    ensures Ready(f, m, e, s, br, uncond, n) && BranchTo(f, m, s, br)
    ensures n !in o.blocks && Checker(f, s, count, n) !in own
    ensures Inv(o, CheckEdge(f, m, s, count, br, uncond, Codes(o, (m, e)), n),
                own[Checker(f, s, count, n) := (m, e)])
  {
    forall b | b in o.blocks ensures b in f.blocks { assert OldBlockOk(o, f, own, b); }
    CheckEdgeProgress(o, f, own, m, j, e, s, count, br, uncond, n);
  }

  lemma ExitOwners(o: Func, f: Func, n: BlockId, own: map<BlockId, Edge>, own0: map<BlockId, Edge>,
                   done: set<BlockId>, m: BlockId, e: nat, s: BlockId, count: int,
                   br: Option<nat>, uncond: Option<nat>, codes: seq<CondCode>)
    requires BranchTo(f, m, s, br) && n !in f.blocks && n !in o.blocks && Checker(f, s, count, n) !in own
    requires IdsBelow(f, n) && Grown(own0, own, m) && Untouched(o, f, own, done) && m in done
    requires Handed(f.blocks[m].terms, e, br, uncond)
    requires br.Some? && uncond.None? ==> NextIn(f.layout, m).Some?
    ensures var g := CheckEdge(f, m, s, count, br, uncond, codes, n);
            var own' := own[Checker(f, s, count, n) := (m, e)];
            && IdsBelow(g, n + 1) && Grown(own0, own', m) && Untouched(o, g, own', done)
  {
    CheckEdgeUncond(f, m, e, s, count, br, uncond, codes, n);
    CheckEdgeUntouched(o, f, own, done, m, e, s, count, br, uncond, codes, n, Checker(f, s, count, n));
  }

  /** Check one exit of a traced block. */
  method TraceExit(ghost o: Func, f: Func, n: BlockId, ghost own: map<BlockId, Edge>, ghost own0: map<BlockId, Edge>,
                   ghost done: set<BlockId>, m: BlockId, ghost j: nat, ghost e: nat, s: BlockId, count: int,
                   br: Option<nat>, uncond: Option<nat>, codes: seq<CondCode>)
    returns (g: Func, u: Option<nat>, ghost own': map<BlockId, Edge>)
    requires LoopInv(o, f, n, own, own0, done, m, j) && NextExit(o, f, m, j, e, s, count, br, uncond)
    requires codes == Codes(o, (m, e))
    ensures Inv(o, g, own') && IdsBelow(g, n + 1) && Grown(own0, own', m) && Untouched(o, g, own', done)
    ensures m in g.blocks && UncondAt(g.blocks[m].terms, u)
    ensures exists c: BlockId :: c !in own && own' == own[c := (m, e)]
  {
    ExitReady(o, f, n, own, own0, done, m, j, e, s, count, br, uncond);
    CheckEdgeUncond(f, m, e, s, count, br, uncond, codes, n);
    ExitOwners(o, f, n, own, own0, done, m, e, s, count, br, uncond, codes);
    g, u := BuildCheckingBlock(f, m, s, count, br, uncond, codes, n);
    own' := own[Checker(f, s, count, n) := (m, e)];
  }

  lemma LoopStep(o: Func, f: Func, g: Func, n: BlockId, own: map<BlockId, Edge>, own': map<BlockId, Edge>,
                 own0: map<BlockId, Edge>, done: set<BlockId>, m: BlockId, j: nat)
    requires LoopInv(o, f, n, own, own0, done, m, j) && j > 0
    requires Inv(o, g, own') && IdsBelow(g, n + 1) && Grown(own0, own', m) && Untouched(o, g, own', done)
    requires exists c: BlockId :: c !in own && own' == own[c := (m, j - 1)]
    ensures LoopInv(o, g, n + 1, own', own0, done, m, j - 1)
  {
    var c: BlockId :| c !in own && own' == own[c := (m, j - 1)];
    ProgressStep(o, f, g, own, own0, m, j, c);
  }

  ghost predicate CountsAre(o: Func, m: BlockId, j: nat, counts: map<BlockId, int>)
    requires m in o.blocks
  {
    forall t: BlockId :: (if t in counts then counts[t] else 0) == PendingEdges(o, m, j, t)
  }

  lemma CountStep(o: Func, m: BlockId, j: nat, counts: map<BlockId, int>, s: BlockId)
    requires m in o.blocks && 0 < j <= NConds(o.blocks[m].terms) && CountsAre(o, m, j, counts)
    requires Target(o, m, j - 1) == Some(s)
    ensures s in counts && counts[s] == PendingEdges(o, m, j, s)
    ensures CountsAre(o, m, j - 1, counts[s := counts[s] - 1])
  {
    NoPending(o, m, j, s, j - 1);
  }

  lemma CountsStart(o: Func, f: Func, own: map<BlockId, Edge>, m: BlockId, counts: map<BlockId, int>)
    requires m in o.blocks && Progress(o, f, own, m, NConds(o.blocks[m].terms))
    requires f.blocks[m].terms == o.blocks[m].terms
    requires m in f.blocks && CountsAre(f, m, NConds(o.blocks[m].terms), counts)
    ensures CountsAre(o, m, NConds(o.blocks[m].terms), counts)
  {
    var k := NConds(o.blocks[m].terms);
    forall e: nat | e <= k ensures Target(f, m, e) == Target(o, m, e) { ProgressTarget(o, f, own, m, k, e); }
    forall t: BlockId ensures (if t in counts then counts[t] else 0) == PendingEdges(o, m, k, t) {
      PendingSame(o, f, m, k, t);
    }
  }

  /** Check one conditional exit and count it off. */
  method TraceBranch(ghost o: Func, f: Func, n: BlockId, ghost own: map<BlockId, Edge>, ghost own0: map<BlockId, Edge>,
                     ghost done: set<BlockId>, m: BlockId, ghost j: nat, br: nat, s: BlockId, cond: CondCode,
                     uncond: Option<nat>, counts: map<BlockId, int>)
    returns (g: Func, n': BlockId, u: Option<nat>, ghost own': map<BlockId, Edge>, counts': map<BlockId, int>)
    requires LoopInv(o, f, n, own, own0, done, m, j) && br == j - 1 && CountsAre(o, m, j, counts)
    requires Target(o, m, br) == Some(s) && cond == o.blocks[m].terms[br].cc
    requires UncondAt(f.blocks[m].terms, uncond)
    ensures LoopInv(o, g, n', own', own0, done, m, j - 1) && CountsAre(o, m, j - 1, counts')
    ensures UncondAt(g.blocks[m].terms, u)
  {
    assert OldBlockOk(o, f, own, m);
    CountStep(o, m, j, counts, s);
    g, u, own' := TraceExit(o, f, n, own, own0, done, m, j, br, s, counts[s], Some(br), uncond, [Opposite(cond)]);
    LoopStep(o, f, g, n, own, own', own0, done, m, j);
    counts', n' := counts[s := counts[s] - 1], n + 1;
  }

  lemma LastExit(own: map<BlockId, Edge>, own': map<BlockId, Edge>, m: BlockId, k: nat)
    requires TreatedRange(own, m, 0, k)
    requires exists c: BlockId :: c !in own && own' == own[c := (m, k)]
    ensures forall e: nat :: e <= k ==> Treated(own', m, e)
  {
    var c: BlockId :| c !in own && own' == own[c := (m, k)];
    TreatedGrows(own, c, m, k);
    forall e: nat | e <= k ensures Treated(own', m, e) { assert e < k ==> Treated(own, m, e); }
  }

  lemma LoopStart(o: Func, f: Func, n: BlockId, own: map<BlockId, Edge>, done: set<BlockId>, m: BlockId)
    requires Acceptable(o) && Inv(o, f, own) && IdsBelow(f, n)
    requires m in o.blocks && Traced(o.blocks[m]) && Untouched(o, f, own, done) && m !in done
    ensures LoopInv(o, f, n, own, own, done + {m}, m, NConds(o.blocks[m].terms))
    ensures f.blocks[m].terms == o.blocks[m].terms
    ensures Target(f, m, NConds(o.blocks[m].terms)).Some?
    ensures Target(f, m, NConds(o.blocks[m].terms)) == Target(o, m, NConds(o.blocks[m].terms))
  {
    UntouchedProgress(o, f, own, done, m);
    assert Continues(o, m);
    ProgressTarget(o, f, own, m, NConds(o.blocks[m].terms), NConds(o.blocks[m].terms));
  }

  /** The last exit: the unconditional successor, of which exactly one edge is left. */
  method TraceLast(ghost o: Func, f: Func, n: BlockId, ghost own: map<BlockId, Edge>, ghost own0: map<BlockId, Edge>,
                   ghost done: set<BlockId>, m: BlockId, s: BlockId, uncond: Option<nat>, counts: map<BlockId, int>,
                   codes: seq<CondCode>)
    returns (g: Func, ghost own': map<BlockId, Edge>)
    requires LoopInv(o, f, n, own, own0, done, m, 0) && CountsAre(o, m, 0, counts)
    requires Target(o, m, NConds(o.blocks[m].terms)) == Some(s)
    requires UncondAt(f.blocks[m].terms, uncond) && codes == BranchCodes(o.blocks[m].terms, NConds(o.blocks[m].terms))
    ensures Inv(o, g, own') && IdsBelow(g, n + 1) && Grown(own0, own', m) && Untouched(o, g, own', done)
    ensures forall e: nat :: e <= NConds(o.blocks[m].terms) ==> Treated(own', m, e)
  {
    ghost var k := NConds(o.blocks[m].terms);
    assert OldBlockOk(o, f, own, m);
    assert counts[s] == 1;
    var u;
    g, u, own' := TraceExit(o, f, n, own, own0, done, m, 0, k, s, 1, uncond, uncond, SortUnique(codes));
    LastExit(own, own', m, k);
  }

  lemma BranchTarget(o: Func, m: BlockId, br: nat)
    requires m in o.blocks && br < NConds(o.blocks[m].terms)
    ensures Target(o, m, br) == Some(o.blocks[m].terms[br].target)
  {
  }

  /** The conditional branches, from the last to the first, collecting their codes. */
  method TraceBranches(ghost o: Func, f0: Func, n0: BlockId, ghost own0: map<BlockId, Edge>, ghost done: set<BlockId>,
                       m: BlockId, ts: seq<Term>, condBrs: seq<nat>, uncond0: Option<nat>, counts0: map<BlockId, int>)
    returns (f: Func, n: BlockId, uncond: Option<nat>, ghost own: map<BlockId, Edge>, counts: map<BlockId, int>,
             codes: seq<CondCode>)
    requires m in o.blocks && ts == o.blocks[m].terms && condBrs == Countdown(NConds(ts))
    requires LoopInv(o, f0, n0, own0, own0, done, m, NConds(ts)) && CountsAre(o, m, NConds(ts), counts0)
    requires UncondAt(f0.blocks[m].terms, uncond0)
    ensures LoopInv(o, f, n, own, own0, done, m, 0) && CountsAre(o, m, 0, counts)
    ensures UncondAt(f.blocks[m].terms, uncond) && codes == BranchCodes(ts, NConds(ts))
  {
    ghost var k := NConds(ts);
    f, n, uncond, own, counts, codes := f0, n0, uncond0, own0, counts0, [];
    ghost var j := k;
    for i := 0 to |condBrs|
      invariant j == k - i && LoopInv(o, f, n, own, own0, done, m, j) && CountsAre(o, m, j, counts)
      invariant UncondAt(f.blocks[m].terms, uncond) && codes == BranchCodes(ts, k)[..i]
    {
      var br := condBrs[i];
      CodesStep(ts, k, i);
      BranchTarget(o, m, br);
      codes := codes + [ts[br].cc];
      f, n, uncond, own, counts :=
        TraceBranch(o, f, n, own, own0, done, m, j, br, ts[br].target, ts[br].cc, uncond, counts);
      j := j - 1;
    }
  }

  /** Check every exit of one traced block: its branches from the last to the first, then the
      unconditional exit with the sorted, deduplicated codes of all of them. */
  method TraceBlock(ghost o: Func, f0: Func, info: Info, n0: BlockId, ghost own0: map<BlockId, Edge>,
                    ghost done: set<BlockId>)
    returns (f: Func, n: BlockId, ghost own: map<BlockId, Edge>)
    requires Acceptable(o) && Inv(o, f0, own0) && IdsBelow(f0, n0)
    requires info.block in o.blocks && Traced(o.blocks[info.block])
    requires Untouched(o, f0, own0, done) && info.block !in done
    requires info == InfoOf(info.block, o.blocks[info.block])
    ensures Inv(o, f, own) && IdsBelow(f, n)
    ensures Untouched(o, f, own, done + {info.block}) && Grown(own0, own, info.block)
    ensures forall e: nat :: e <= NConds(o.blocks[info.block].terms) ==> Treated(own, info.block, e)
  {
    var m := info.block;
    LoopStart(o, f0, n0, own0, done, m);
    var ts := f0.blocks[m].terms;
    var uncond := info.uncondBr;
    var uncondSucc := if uncond.Some? then ts[uncond.value].target else NextIn(f0.layout, m).value;
    var counts: map<BlockId, int> := CountSuccessors(f0, m, info);
    CountsStart(o, f0, own0, m, counts);
    var codes;
    f, n, uncond, own, counts, codes :=
      TraceBranches(o, f0, n0, own0, done + {m}, m, ts, info.condBrs, uncond, counts);
    f, own := TraceLast(o, f, n, own, own0, done + {m}, m, uncondSucc, uncond, counts, codes);
    n := n + 1;
  }

  lemma {:induction false} InfosMembers(layout: seq<BlockId>, blocks: map<BlockId, Block>, i: nat)
    requires forall b :: b in layout ==> b in blocks
    requires i < |Infos(layout, blocks)|
    ensures Infos(layout, blocks)[i].block in layout
    ensures Traced(blocks[Infos(layout, blocks)[i].block])
    ensures Infos(layout, blocks)[i] == InfoOf(Infos(layout, blocks)[i].block, blocks[Infos(layout, blocks)[i].block])
    decreases |layout|
  {
    var init := layout[..|layout| - 1];
    if i < |Infos(init, blocks)| { InfosMembers(init, blocks, i); }
  }

  lemma {:induction false} InfosDistinct(layout: seq<BlockId>, blocks: map<BlockId, Block>, i: nat, j: nat)
    requires forall b :: b in layout ==> b in blocks
    requires NoDup(layout) && i < j < |Infos(layout, blocks)|
    ensures Infos(layout, blocks)[i].block != Infos(layout, blocks)[j].block
    decreases |layout|
  {
    var init := layout[..|layout| - 1];
    if j < |Infos(init, blocks)| { InfosDistinct(init, blocks, i, j); }
    else { InfosMembers(init, blocks, i); }
  }

  lemma {:induction false} InfosComplete(layout: seq<BlockId>, blocks: map<BlockId, Block>, b: BlockId)
    requires forall b :: b in layout ==> b in blocks
    requires b in layout && Traced(blocks[b])
    ensures exists i :: 0 <= i < |Infos(layout, blocks)| && Infos(layout, blocks)[i].block == b
    decreases |layout|
  {
    var init := layout[..|layout| - 1];
    var r := Infos(layout, blocks);
    assert layout == init + [layout[|layout| - 1]];
    if b in init {
      InfosComplete(init, blocks, b);
      var i :| 0 <= i < |Infos(init, blocks)| && Infos(init, blocks)[i].block == b;
      assert r[i].block == b;
    } else {
      assert r[|Infos(init, blocks)|].block == b;
    }
  }

  /** The function is fully instrumented: the invariant holds, every edge of a traced block is
      checked, and no other edge is. */
  ghost predicate Instruments(o: Func, f: Func, own: map<BlockId, Edge>) {
    Acceptable(o) && Inv(o, f, own) && Complete(o, own)
  }

  lemma GrownTreated(own: map<BlockId, Edge>, own': map<BlockId, Edge>, m: BlockId)
    requires Grown(own, own', m)
    ensures forall b: BlockId, e: nat :: Treated(own, b, e) ==> Treated(own', b, e)
  {
    forall b: BlockId, e: nat | Treated(own, b, e) ensures Treated(own', b, e) {
      var c :| c in own && own[c] == (b, e);
      assert own'[c] == (b, e);
    }
  }

  lemma AllTreated(o: Func, own: map<BlockId, Edge>, done: set<BlockId>)
    requires forall b, e: nat :: b in done && b in o.blocks && e <= NConds(o.blocks[b].terms) ==> Treated(own, b, e)
    requires forall b :: b in o.blocks && Traced(o.blocks[b]) ==> b in done
    ensures Complete(o, own)
  {
  }

  /** The blocks of the first `i` infos. */
  function Visited(infos: seq<Info>, i: nat): set<BlockId>
    requires i <= |infos|
  {
    set j | 0 <= j < i :: infos[j].block
  }

  method TraceFunction(o: Func, bound: BlockId) returns (f: Func, n: BlockId, ghost own: map<BlockId, Edge>)
    requires Acceptable(o) && IdsBelow(o, bound)
    ensures Instruments(o, f, own) && IdsBelow(f, n)
  {
    forall b | b in o.layout ensures b in o.blocks {}
    var infos := CollectBlockCondInfo(o);
    InvInit(o);
    f, n, own := o, bound, map[];
    var i := 0;
    ghost var done: set<BlockId> := {};
    while i < |infos|
      invariant 0 <= i <= |infos| && done == Visited(infos, i)
      invariant Inv(o, f, own) && IdsBelow(f, n) && Untouched(o, f, own, done)
      invariant forall b, e: nat :: b in done && b in o.blocks && e <= NConds(o.blocks[b].terms) ==> Treated(own, b, e)
    {
      InfosMembers(o.layout, o.blocks, i);
      forall j: nat | j < i ensures infos[j].block != infos[i].block { InfosDistinct(o.layout, o.blocks, j, i); }
      ghost var own0 := own;
      f, n, own := TraceBlock(o, f, infos[i], n, own, done);
      GrownTreated(own0, own, infos[i].block);
      done := done + {infos[i].block};
      i := i + 1;
    }
    forall b | b in o.blocks && Traced(o.blocks[b]) ensures b in done {
      assert b in o.layout;
      InfosComplete(o.layout, o.blocks, b);
    }
    AllTreated(o, own, done);
  }

  class MachineFunction {
    var layout: seq<BlockId>
    var blocks: map<BlockId, Block>
    var nextId: BlockId

    ghost function Value(): Func
      reads this
    {
      Func(layout, blocks)
    }

    constructor (f: Func, bound: BlockId)
      requires IdsBelow(f, bound)
      ensures Value() == f && IdsBelow(Value(), nextId)
    {
      layout, blocks, nextId := f.layout, f.blocks, bound;
    }

    /** Trace the predicate state through the control-flow graph. */
    method TracePredStateThroughCfg() returns (ghost own: map<BlockId, Edge>)
      requires Acceptable(Value()) && IdsBelow(Value(), nextId)
      modifies this
      ensures Instruments(old(Value()), Value(), own) && IdsBelow(Value(), nextId)
    {
      var f, n;
      f, n, own := TraceFunction(Func(layout, blocks), nextId);
      layout, blocks, nextId := f.layout, f.blocks, n;
    }
  }
}
