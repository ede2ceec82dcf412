/**
 Which blocks the pass instruments: the backward scan of a block's terminators that
 collects its conditional branches, its unconditional branch, or nothing at all.
 */
module CondInfo {
  import opened Options
  import opened Machine

  /** Terminator indices of the conditional branches, last first, and of the unconditional one. */
  datatype Info = Info(block: BlockId, condBrs: seq<nat>, uncondBr: Option<nat>)

  /** A block is traced when it has several successors, every terminator is a branch, and some
      conditional branch precedes the first unconditional one. */
  predicate Traced(b: Block) {
    |b.succs| > 1 && Other !in b.terms && NConds(b.terms) > 0
  }

  function Countdown(k: nat): (s: seq<nat>)
    ensures |s| == k
    ensures forall i :: 0 <= i < k ==> s[i] == k - 1 - i
  {
    if k == 0 then [] else [k - 1] + Countdown(k - 1)
  }

  function InfoOf(id: BlockId, b: Block): Info {
    var k := NConds(b.terms);
    Info(id, Countdown(k), if k < |b.terms| then Some(k) else None)
  }

  /** The infos of the traced blocks of a layout, in layout order. */
  function Infos(layout: seq<BlockId>, blocks: map<BlockId, Block>): seq<Info>
    requires forall b :: b in layout ==> b in blocks
  {
    if layout == [] then []
    else
      var b := layout[|layout| - 1];
      Infos(layout[..|layout| - 1], blocks) + (if Traced(blocks[b]) then [InfoOf(b, blocks[b])] else [])
  }

  /** What the backward scan holds once it has looked at `ts` from its end down to its start. */
  function Scanned(ts: seq<Term>, from: nat): (seq<nat>, Option<nat>)
    requires from <= |ts|
    requires Other !in ts[from..]
    decreases |ts| - from
  {
    if from == |ts| then ([], None)
    else
      assert Other !in ts[from + 1..];
      var (cs, u) := Scanned(ts, from + 1);
      assert ts[from] == ts[from..][0];
      if ts[from].Jmp? then ([], Some(from)) else (cs + [from], u)
  }

  /** The scan keeps exactly the conditional branches before the first unconditional one. */
  lemma {:induction false} ScannedIsInfo(ts: seq<Term>, from: nat)
    requires from <= |ts|
    requires Other !in ts[from..]
    ensures var k := from + NConds(ts[from..]);
            && |Scanned(ts, from).0| == k - from
            && (forall i :: 0 <= i < k - from ==> Scanned(ts, from).0[i] == k - 1 - i)
            && Scanned(ts, from).1 == if k < |ts| then Some(k) else None
    decreases |ts| - from
  {
    if from < |ts| {
      assert Other !in ts[from + 1..];
      ScannedIsInfo(ts, from + 1);
      assert ts[from..][1..] == ts[from + 1..];
      assert ts[from] == ts[from..][0];
    }
  }

  method ScanTerminators(ts: seq<Term>) returns (condBrs: seq<nat>, uncondBr: Option<nat>)
    ensures Other in ts ==> condBrs == []
    ensures Other !in ts ==>
              condBrs == Countdown(NConds(ts)) &&
              uncondBr == if NConds(ts) < |ts| then Some(NConds(ts)) else None
  {
    condBrs, uncondBr := [], None;
    var i := |ts|;
    while i > 0
      invariant 0 <= i <= |ts|
      invariant Other !in ts[i..]
      invariant (condBrs, uncondBr) == Scanned(ts, i)
    {
      i := i - 1;
      assert ts[i..] == [ts[i]] + ts[i + 1..];
      if ts[i].Other? {
        condBrs := [];
        return;
      }
      if ts[i].Jmp? {
        condBrs, uncondBr := [], Some(i);
      } else {
        condBrs := condBrs + [i];
      }
    }
    assert ts[0..] == ts;
    ScannedIsInfo(ts, 0);
  }

  method CollectBlockCondInfo(f: Func) returns (infos: seq<Info>)
    requires forall b :: b in f.layout ==> b in f.blocks
    ensures infos == Infos(f.layout, f.blocks)
  {
    infos := [];
    var n := 0;
    while n < |f.layout|
      invariant 0 <= n <= |f.layout|
      invariant infos == Infos(f.layout[..n], f.blocks)
    {
      var b := f.layout[n];
      if |f.blocks[b].succs| > 1 {
        var condBrs, uncondBr := ScanTerminators(f.blocks[b].terms);
        if condBrs != [] {
          infos := infos + [Info(b, condBrs, uncondBr)];
        }
      }
      n := n + 1;
      assert f.layout[..n][..n - 1] == f.layout[..n - 1];
    }
    assert f.layout[..n] == f.layout;
  }
}
