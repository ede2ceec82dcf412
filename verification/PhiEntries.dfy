/**
 PHI canonicalization: one entry per predecessor, whatever the number of edges.
 */
module PhiEntries {
  import opened Machine
  import opened SplitEdge

  // ----- canonical PHIs -----

  /** The entries whose predecessor did not occur before. */
  function FirstEntries(es: seq<(Reg, BlockId)>): seq<(Reg, BlockId)> {
    if es == [] then []
    else
      var init := es[..|es| - 1];
      var last := es[|es| - 1];
      FirstEntries(init) + (if last.1 in Keys(init) then [] else [last])
  }

  /** Indices of the entries that repeat a predecessor. */
  function DupIndices(es: seq<(Reg, BlockId)>): (r: seq<nat>)
    ensures forall i :: 0 <= i < |r| ==> r[i] < |es|
    ensures forall i, j :: 0 <= i < j < |r| ==> r[i] < r[j]
  {
    if es == [] then []
    else
      var init := es[..|es| - 1];
      DupIndices(init) + (if es[|es| - 1].1 in Keys(init) then [|es| - 1] else [])
  }

  function RemoveAt<T>(s: seq<T>, i: nat): seq<T>
    requires i < |s|
  {
    s[..i] + s[i + 1..]
  }

  /** Remove the last index first, so that the earlier ones stay valid. */
  function RemoveBackwards<T>(s: seq<T>, idx: seq<nat>): seq<T>
    requires forall i :: 0 <= i < |idx| ==> idx[i] < |s|
    requires forall i, j :: 0 <= i < j < |idx| ==> idx[i] < idx[j]
    decreases |idx|
  {
    if idx == [] then s
    else RemoveBackwards(RemoveAt(s, idx[|idx| - 1]), idx[..|idx| - 1])
  }

  lemma {:induction false} RemoveBackwardsAppend<T>(s: seq<T>, t: seq<T>, idx: seq<nat>)
    requires forall i :: 0 <= i < |idx| ==> idx[i] < |s|
    requires forall i, j :: 0 <= i < j < |idx| ==> idx[i] < idx[j]
    ensures RemoveBackwards(s + t, idx) == RemoveBackwards(s, idx) + t
    decreases |idx|
  {
    if idx != [] {
      var k := idx[|idx| - 1];
      assert RemoveAt(s + t, k) == RemoveAt(s, k) + t;
      RemoveBackwardsAppend(RemoveAt(s, k), t, idx[..|idx| - 1]);
    }
  }

  /** The backward in-place removal keeps exactly the first entry of each predecessor. */
  lemma {:induction false} RemovalKeepsFirst(es: seq<(Reg, BlockId)>)
    ensures RemoveBackwards(es, DupIndices(es)) == FirstEntries(es)
    decreases |es|
  {
    if es != [] {
      var init := es[..|es| - 1];
      var last := es[|es| - 1];
      RemovalKeepsFirst(init);
      assert es == init + [last];
      if last.1 in Keys(init) {
        var idx := DupIndices(es);
        assert idx[..|idx| - 1] == DupIndices(init);
        assert RemoveAt(es, |es| - 1) == init;
        assert FirstEntries(init) + [] == FirstEntries(init);
      } else {
        assert DupIndices(init) + [] == DupIndices(init);
        RemoveBackwardsAppend(init, [last], DupIndices(init));
      }
    }
  }

  /** After canonicalization every predecessor keeps its first value, once. */
  lemma {:induction false} FirstEntriesCanonical(es: seq<(Reg, BlockId)>)
    ensures Canonical(FirstEntries(es), Keys(es))
    ensures forall p :: Lookup(FirstEntries(es), p) == Lookup(es, p)
    decreases |es|
  {
    if es != [] {
      var init := es[..|es| - 1];
      var last := es[|es| - 1];
      FirstEntriesCanonical(init);
      assert es == init + [last];
      var r := FirstEntries(es);
      assert FirstEntries(init) + [] == FirstEntries(init);
      assert last.1 in Keys(init) ==> r == FirstEntries(init);
      forall p ensures Lookup(r, p) == Lookup(es, p) {
        LookupConcat(init, [last], p);
        LookupConcat(FirstEntries(init), [last], p);
        if last.1 in Keys(init) { LookupPresent(init, last.1); }
      }
      assert Keys(es) == Keys(init) + {last.1} by { KeysAppend(init, last); }
      if last.1 !in Keys(init) {
        KeysAppend(FirstEntries(init), last);
        forall i | 0 <= i < |FirstEntries(init)| ensures r[i].1 != last.1 {
          assert FirstEntries(init)[i].1 in Keys(FirstEntries(init));
        }
      }
    }
  }

  lemma KeysAppend(es: seq<(Reg, BlockId)>, x: (Reg, BlockId))
    ensures Keys(es + [x]) == Keys(es) + {x.1}
  {
    var r := es + [x];
    assert r[|es|].1 == x.1;
    forall p | p in Keys(es) ensures p in Keys(r) {
      var i :| 0 <= i < |es| && es[i].1 == p;
      assert r[i].1 == p;
    }
  }

  lemma {:induction false} LookupConcat(a: seq<(Reg, BlockId)>, b: seq<(Reg, BlockId)>, p: BlockId)
    ensures Lookup(a + b, p) == if Lookup(a, p).Some? then Lookup(a, p) else Lookup(b, p)
    decreases |a|
  {
    if a == [] { assert a + b == b; }
    else {
      assert (a + b)[1..] == a[1..] + b;
      LookupConcat(a[1..], b, p);
    }
  }

  lemma {:induction false} LookupPresent(es: seq<(Reg, BlockId)>, p: BlockId)
    requires p in Keys(es)
    ensures Lookup(es, p).Some?
    decreases |es|
  {
    if es[0].1 != p {
      var i :| 0 <= i < |es| && es[i].1 == p;
      assert es[1..][i - 1].1 == p;
      LookupPresent(es[1..], p);
    }
  }

  method FindDuplicates(entries: seq<(Reg, BlockId)>) returns (dups: seq<nat>)
    ensures dups == DupIndices(entries)
  {
    var preds: set<BlockId> := {};
    dups := [];
    var i := 0;
    while i < |entries|
      invariant 0 <= i <= |entries|
      invariant preds == Keys(entries[..i])
      invariant dups == DupIndices(entries[..i])
    {
      assert entries[..i + 1][..i] == entries[..i];
      KeysAppend(entries[..i], entries[i]);
      assert entries[..i + 1] == entries[..i] + [entries[i]];
      if entries[i].1 in preds {
        dups := dups + [i];
      }
      preds := preds + {entries[i].1};
      i := i + 1;
    }
    assert entries[..i] == entries;
  }

  /** One PHI: scan for duplicates, then remove them from the last to the first. */
  method CanonicalizeEntries(entries: seq<(Reg, BlockId)>) returns (es: seq<(Reg, BlockId)>)
    ensures es == FirstEntries(entries)
  {
    var dups: seq<nat> := FindDuplicates(entries);
    es := entries;
    ghost var all := dups;
    while dups != []
      invariant forall i :: 0 <= i < |dups| ==> dups[i] < |es|
      invariant forall i, j :: 0 <= i < j < |dups| ==> dups[i] < dups[j]
      invariant RemoveBackwards(es, dups) == RemoveBackwards(entries, all)
      decreases |dups|
    {
      var k := dups[|dups| - 1];
      dups := dups[..|dups| - 1];
      es := RemoveAt(es, k);
    }
    RemovalKeepsFirst(entries);
  }

  // ----- the whole function -----

  function CanonPhi(p: Phi): Phi { p.(entries := FirstEntries(p.entries)) }

  function CanonPhis(ps: seq<Phi>): (qs: seq<Phi>)
    ensures |qs| == |ps| && forall k :: 0 <= k < |ps| ==> qs[k] == CanonPhi(ps[k])
  {
    seq(|ps|, k requires 0 <= k < |ps| => CanonPhi(ps[k]))
  }

  function CanonFunc(f: Func): (g: Func)
    ensures g.layout == f.layout && g.blocks.Keys == f.blocks.Keys
    ensures forall b :: b in f.blocks ==> g.blocks[b] == f.blocks[b].(phis := CanonPhis(f.blocks[b].phis))
  {
    Func(f.layout, map b | b in f.blocks :: f.blocks[b].(phis := CanonPhis(f.blocks[b].phis)))
  }

  method CanonicalizePhis(ps: seq<Phi>) returns (qs: seq<Phi>)
    ensures qs == CanonPhis(ps)
  {
    qs := ps;
    var i := 0;
    while i < |ps|
      invariant 0 <= i <= |ps| == |qs|
      invariant qs[..i] == CanonPhis(ps)[..i]
      invariant qs[i..] == ps[i..]
    {
      assert qs[i] == ps[i];
      var es := CanonicalizeEntries(ps[i].entries);
      qs := qs[i := qs[i].(entries := es)];
      i := i + 1;
    }
  }

  /** The scan over every PHI of every block. */
  method CanonicalizePhiOperands(f: Func) returns (g: Func)
    requires NoDup(f.layout) && forall b :: b in f.layout <==> b in f.blocks
    ensures g == CanonFunc(f)
  {
    var blocks := f.blocks;
    var i := 0;
    while i < |f.layout|
      invariant 0 <= i <= |f.layout| && blocks.Keys == f.blocks.Keys
      invariant forall b :: b in f.layout[..i] ==> b in f.blocks && blocks[b] == CanonFunc(f).blocks[b]
      invariant forall b :: b in f.blocks && b !in f.layout[..i] ==> blocks[b] == f.blocks[b]
    {
      var b := f.layout[i];
      assert f.layout[..i + 1] == f.layout[..i] + [b];
      var phis := CanonicalizePhis(blocks[b].phis);
      blocks := blocks[b := blocks[b].(phis := phis)];
      i := i + 1;
    }
    assert f.layout[..i] == f.layout;
    g := Func(f.layout, blocks);
    assert g.blocks == CanonFunc(f).blocks;
  }

  lemma {:induction false} CanonPhiRegs(ps: seq<Phi>, from: BlockId, s: State)
    ensures PhiRegs(CanonPhis(ps), from, s) == PhiRegs(ps, from, s)
    decreases |ps|
  {
    if ps != [] {
      var init := ps[..|ps| - 1];
      CanonPhiRegs(init, from, s);
      assert CanonPhis(ps)[..|ps| - 1] == CanonPhis(init);
      FirstEntriesCanonical(ps[|ps| - 1].entries);
    }
  }

  /** Canonicalization changes no run. */
  lemma {:induction false} CanonRun(env: Env, f: Func, c: Config, exits: seq<nat>)
    ensures Run(env, CanonFunc(f), c, exits) == Run(env, f, c, exits)
    decreases |exits|
  {
    if exits != [] {
      var g := CanonFunc(f);
      if c.at in f.blocks {
        assert Target(g, c.at, exits[0]) == Target(f, c.at, exits[0]);
        var x := Target(f, c.at, exits[0]);
        if x.Some? && x.value in f.blocks {
          CanonPhiRegs(f.blocks[x.value].phis, c.at, Exec(env, f.blocks[c.at].body, c.st));
        }
      }
      assert Move(env, g, c, exits[0]) == Move(env, f, c, exits[0]);
      if Move(env, f, c, exits[0]).Some? { CanonRun(env, f, Move(env, f, c, exits[0]).value, exits[1..]); }
    }
  }
}
