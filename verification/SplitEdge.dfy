/**
 Splitting one control-flow edge: a new block right after the source in layout order, the
 branch retargeted, a jump injected where fallthrough would break, and the PHIs of the
 successor updated.
 */
module SplitEdge {
  import opened Options
  import opened Machine

  // ----- layout -----

  function InsertAfter(s: seq<BlockId>, x: BlockId, n: BlockId): (r: seq<BlockId>)
    ensures x in s ==> |r| == |s| + 1
    ensures s != [] ==> r != [] && r[0] == s[0]
    ensures forall y :: y in r <==> y in s || (y == n && x in s)
  {
    if s == [] then []
    else if s[0] == x then [x, n] + s[1..]
    else
      var t := InsertAfter(s[1..], x, n);
      assert s == [s[0]] + s[1..];
      [s[0]] + t
  }

  /** Only the fallthrough of `x` changes: it now reaches `n`, and `n` reaches what `x` reached. */
  lemma {:induction false} InsertAfterNext(s: seq<BlockId>, x: BlockId, n: BlockId, y: BlockId)
    requires NoDup(s) && x in s && n !in s
    ensures NoDup(InsertAfter(s, x, n))
    ensures NextIn(InsertAfter(s, x, n), x) == Some(n)
    ensures NextIn(InsertAfter(s, x, n), n) == NextIn(s, x)
    ensures y != x && y != n ==> NextIn(InsertAfter(s, x, n), y) == NextIn(s, y)
    decreases |s|
  {
    var r := InsertAfter(s, x, n);
    assert NoDup(s[1..]);
    if s[0] == x {
      assert r[1..] == [n] + s[1..];
      assert r[1..][1..] == s[1..];
      if y != x && y != n && |s| > 1 { NextInTail(s, y); }
      if |s| > 1 { assert r[1..][1] == s[1]; }
      NextInAbsent(s[1..], x);
    } else {
      InsertAfterNext(s[1..], x, n, y);
      var t := InsertAfter(s[1..], x, n);
      assert r[1..] == t && s[1..][0] == s[1] && t[0] == s[1];
      assert s[0] !in s[1..];
      assert s[0] !in t;
      assert n != s[0];
    }
  }

  lemma NextInTail(s: seq<BlockId>, y: BlockId)
    requires |s| > 1 && s[0] != y
    ensures NextIn(s, y) == NextIn(s[1..], y)
  {
  }

  lemma {:induction false} NextInAbsent(s: seq<BlockId>, y: BlockId)
    requires y !in s
    ensures NextIn(s, y).None?
    decreases |s|
  {
    if |s| >= 2 { NextInAbsent(s[1..], y); }
  }

  lemma {:induction false} NextInMember(s: seq<BlockId>, y: BlockId)
    ensures NextIn(s, y).Some? ==> NextIn(s, y).value in s
    decreases |s|
  {
    if |s| >= 2 && s[0] != y { NextInMember(s[1..], y); }
  }

  // ----- PHI operands -----

  function Keys(es: seq<(Reg, BlockId)>): set<BlockId> { set i | 0 <= i < |es| :: es[i].1 }

  function Values(es: seq<(Reg, BlockId)>): set<Reg> { set i | 0 <= i < |es| :: es[i].0 }

  /** Exactly one entry per predecessor. */
  ghost predicate Canonical(es: seq<(Reg, BlockId)>, preds: set<BlockId>) {
    Keys(es) == preds && forall i, j :: 0 <= i < j < |es| ==> es[i].1 != es[j].1
  }

  /** The first entry for `m` now names `n`. */
  function Rename(es: seq<(Reg, BlockId)>, m: BlockId, n: BlockId): (r: seq<(Reg, BlockId)>)
    ensures |r| == |es|
    ensures (forall i, j :: 0 <= i < j < |es| ==> es[i].1 != es[j].1) ==>
              forall i :: 0 <= i < |es| ==> r[i] == if es[i].1 == m then (es[i].0, n) else es[i]
  {
    if es == [] then []
    else if es[0].1 == m then [(es[0].0, n)] + es[1..]
    else [es[0]] + Rename(es[1..], m, n)
  }

  /** Entries after the edge from `m` was split by `n`: renamed when it was the last edge. */
  function FixEntries(es: seq<(Reg, BlockId)>, m: BlockId, n: BlockId, last: bool): seq<(Reg, BlockId)> {
    if last then Rename(es, m, n)
    else
      var v := Lookup(es, m);
      if v.Some? then es + [(v.value, n)] else es
  }

  function FixPhis(phis: seq<Phi>, m: BlockId, n: BlockId, last: bool): (r: seq<Phi>)
    ensures |r| == |phis|
    ensures forall i :: 0 <= i < |phis| ==>
              r[i] == Phi(phis[i].dst, FixEntries(phis[i].entries, m, n, last))
  {
    seq(|phis|, i requires 0 <= i < |phis| => Phi(phis[i].dst, FixEntries(phis[i].entries, m, n, last)))
  }

  lemma {:induction false} RenameValues(es: seq<(Reg, BlockId)>, m: BlockId, n: BlockId, k: nat)
    requires k < |es|
    ensures Rename(es, m, n)[k].0 == es[k].0
    decreases |es|
  {
    if k > 0 && es[0].1 != m { RenameValues(es[1..], m, n, k - 1); }
  }

  lemma {:induction false} LookupValue(es: seq<(Reg, BlockId)>, m: BlockId)
    ensures Lookup(es, m).Some? ==> Lookup(es, m).value in Values(es)
    decreases |es|
  {
    if es != [] {
      assert es[0].0 in Values(es);
      LookupValue(es[1..], m);
      forall v | v in Values(es[1..]) ensures v in Values(es) {
        var i :| 0 <= i < |es[1..]| && es[1..][i].0 == v;
        assert es[i + 1].0 == v;
      }
    }
  }

  /** Splitting introduces no new value. */
  lemma FixEntriesValues(es: seq<(Reg, BlockId)>, m: BlockId, n: BlockId, last: bool)
    ensures Values(FixEntries(es, m, n, last)) <= Values(es)
  {
    var r := FixEntries(es, m, n, last);
    forall v | v in Values(r) ensures v in Values(es) {
      var k :| 0 <= k < |r| && r[k].0 == v;
      if last { RenameValues(es, m, n, k); assert es[k].0 == v; }
      else if k < |es| { assert es[k].0 == v; }
      else { LookupValue(es, m); }
    }
  }

  lemma {:induction false} LookupAt(es: seq<(Reg, BlockId)>, i: nat)
    requires i < |es|
    requires forall i, j :: 0 <= i < j < |es| ==> es[i].1 != es[j].1
    ensures Lookup(es, es[i].1) == Some(es[i].0)
    decreases |es|
  {
    if i > 0 { LookupAt(es[1..], i - 1); }
  }

  lemma {:induction false} LookupAbsent(es: seq<(Reg, BlockId)>, p: BlockId)
    requires p !in Keys(es)
    ensures Lookup(es, p).None?
    decreases |es|
  {
    if es != [] {
      assert es[0].1 in Keys(es);
      forall q | q in Keys(es[1..]) ensures q in Keys(es) {
        var i :| 0 <= i < |es[1..]| && es[1..][i].1 == q;
        assert es[i + 1].1 == q;
      }
      LookupAbsent(es[1..], p);
    }
  }

  /** Splitting keeps one entry per predecessor, gives the new block the source's value and
      leaves every other predecessor's value alone. */
  lemma FixEntriesCorrect(es: seq<(Reg, BlockId)>, preds: set<BlockId>, m: BlockId, n: BlockId,
                          last: bool, p: BlockId)
    requires Canonical(es, preds)
    requires m in preds && n !in preds
    ensures var r := FixEntries(es, m, n, last);
            && Canonical(r, (if last then preds - {m} else preds) + {n})
            && Lookup(r, n) == Lookup(es, m) && Lookup(r, n).Some?
            && (p != n && !(last && p == m) ==> Lookup(r, p) == Lookup(es, p))
  {
    var r := FixEntries(es, m, n, last);
    var k :| 0 <= k < |es| && es[k].1 == m;
    LookupAt(es, k);
    var k' := if last then k else |es|;
    assert r[k'] == (es[k].0, n);
    forall i | 0 <= i < |es| ensures es[i].1 != n { assert es[i].1 in Keys(es); }
    var preds' := (if last then preds - {m} else preds) + {n};
    forall q | q in preds' ensures q in Keys(r) {
      if q == n { assert r[k'].1 == n; }
      else {
        var i :| 0 <= i < |es| && es[i].1 == q;
        assert r[i].1 == q;
      }
    }
    forall i | 0 <= i < |r| ensures r[i].1 in preds' {
      if i < |es| { assert es[i].1 in Keys(es); }
    }
    assert Keys(r) == preds';
    LookupAt(r, k');
    if p != n && !(last && p == m) {
      if p in preds {
        var i :| 0 <= i < |es| && es[i].1 == p;
        LookupAt(es, i);
        assert r[i] == es[i];
        LookupAt(r, i);
      } else {
        LookupAbsent(es, p);
        LookupAbsent(r, p);
      }
    }
  }

  // ----- the edge -----

  /** Terminators of the source: the branch `br` retargeted to `n`, and a jump to the old layout
      successor appended when a taken branch would otherwise break fallthrough. */
  function SourceTerms(ts: seq<Term>, br: Option<nat>, uncond: Option<nat>, n: BlockId,
                       next: Option<BlockId>): seq<Term>
    requires br.Some? ==> br.value < |ts| && !ts[br.value].Other?
  {
    if br.None? then ts
    else
      ts[br.value := ts[br.value].(target := n)]
      + (if uncond.None? && next.Some? then [Jmp(next.value)] else [])
  }

  function NewBlock(s: BlockId, sb: Block, br: Option<nat>, next: Option<BlockId>): Block {
    Block([], [], if br.Some? && next != Some(s) then [Jmp(s)] else [], {s}, sb.flagsLiveIn)
  }

  predicate BranchTo(f: Func, m: BlockId, s: BlockId, br: Option<nat>) {
    && m in f.blocks && s in f.blocks
    && (br.Some? ==> br.value < |f.blocks[m].terms| && !f.blocks[m].terms[br.value].Other?
                     && f.blocks[m].terms[br.value].target == s)
  }

  /** Block `b` after the split; source and successor may be the same block. */
  function SplitBlock(f: Func, m: BlockId, s: BlockId, count: int, br: Option<nat>, uncond: Option<nat>,
                      n: BlockId, b: BlockId): Block
    requires BranchTo(f, m, s, br) && n !in f.blocks
    requires b in f.blocks || b == n
  {
    var next := NextIn(f.layout, m);
    if b == n then NewBlock(s, f.blocks[s], br, next)
    else
      var b0 := f.blocks[b];
      var b1 := if b != m then b0
                else b0.(terms := SourceTerms(b0.terms, br, uncond, n, next),
                         succs := (if count == 1 then b0.succs - {s} else b0.succs) + {n});
      if b != s then b1 else b1.(phis := FixPhis(b1.phis, m, n, count == 1))
  }

  function Split(f: Func, m: BlockId, s: BlockId, count: int, br: Option<nat>, uncond: Option<nat>,
                 n: BlockId): (g: Func)
    requires BranchTo(f, m, s, br) && n !in f.blocks
    ensures g.blocks.Keys == f.blocks.Keys + {n}
  {
    Func(InsertAfter(f.layout, m, n),
         map b | b in f.blocks.Keys + {n} :: SplitBlock(f, m, s, count, br, uncond, n, b))
  }
}
