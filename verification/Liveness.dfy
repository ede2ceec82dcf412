/**
 EFLAGS liveness: the backward scan the pass uses, the discipline it relies on, and the fact
 that instrumenting the control-flow graph keeps that discipline.
 */
module Liveness {
  import opened Options
  import opened Machine
  import opened CondInfo
  import opened CheckCodes
  import opened Instrumented
  import opened TraceCfg
  import opened Exactness

  predicate Reads(i: Instr) {
    match i
    case Op(_, _, _, _, _, readsFlags, _, _) => readsFlags
    case CMovPoison(_, _) => true
    case SaveFlags(_) => true
    case _ => false
  }

  /** Whether EFLAGS is live after `i`, by its dead, kill and def markers. */
  predicate LiveAfter(i: Instr, live: bool) {
    match i
    case Op(_, _, _, _, _, _, kills, fdef) =>
      (match fdef case LiveDef => true case DeadDef => false case NoDef => !kills && live)
    case CMovPoison(_, kills) => !kills && live
    case MaskOr(_, _) => false
    case MaskShr(_, _) => live
    case SaveFlags(_) => live
    case RestoreFlags(_) => true
  }

  function LiveEnd(body: seq<Instr>, live: bool): bool
    decreases |body|
  {
    if body == [] then live else LiveEnd(body[1..], LiveAfter(body[0], live))
  }

  /** Every reader of EFLAGS finds them live. */
  predicate LiveOk(body: seq<Instr>, live: bool)
    decreases |body|
  {
    body != [] ==> (Reads(body[0]) ==> live) && LiveOk(body[1..], LiveAfter(body[0], live))
  }

  lemma {:induction false} LiveConcat(p: seq<Instr>, q: seq<Instr>, live: bool)
    ensures LiveEnd(p + q, live) == LiveEnd(q, LiveEnd(p, live))
    ensures LiveOk(p + q, live) <==> LiveOk(p, live) && LiveOk(q, LiveEnd(p, live))
    decreases |p|
  {
    if p == [] {
      assert p + q == q;
    } else {
      assert (p + q)[1..] == p[1..] + q;
      LiveConcat(p[1..], q, LiveAfter(p[0], live));
    }
  }

  lemma LiveSplit(body: seq<Instr>, i: nat, k: nat, liveIn: bool)
    requires i < k <= |body|
    ensures LiveEnd(body[..k], liveIn) == LiveEnd(body[i + 1..k], LiveAfter(body[i], LiveEnd(body[..i], liveIn)))
    ensures forall l: bool :: LiveEnd(body[i..k], l) == LiveEnd(body[i + 1..k], LiveAfter(body[i], l))
  {
    assert body[..i] + body[i..k] == body[..k];
    LiveConcat(body[..i], body[i..k], liveIn);
    assert body[i..k][1..] == body[i + 1..k];
  }

  /** The instruction defines EFLAGS, live or dead, or is their last reader. */
  predicate Decides(i: Instr) {
    || (i.Op? && (!i.fdef.NoDef? || i.kills)) || i.MaskOr? || i.RestoreFlags? || (i.CMovPoison? && i.killsFlags)
  }

  /** The last instruction that decides says whether EFLAGS are live at the end: they are if it is a live
      definition; without one they are as live as at the start. */
  lemma {:induction false} LiveIff(body: seq<Instr>, liveIn: bool)
    ensures (forall k :: 0 <= k < |body| ==> !Decides(body[k])) ==> LiveEnd(body, liveIn) == liveIn
    ensures forall j :: 0 <= j < |body| && Decides(body[j]) && (forall k :: j < k < |body| ==> !Decides(body[k])) ==>
              (LiveEnd(body, liveIn) <==> (body[j].Op? && body[j].fdef.LiveDef?) || body[j].RestoreFlags?)
    decreases |body|
  {
    if body != [] {
      var init, last := body[..|body| - 1], body[|body| - 1];
      assert body == init + [last];
      LiveConcat(init, [last], liveIn);
      assert LiveEnd([last], LiveEnd(init, liveIn)) == LiveAfter(last, LiveEnd(init, liveIn));
      LiveIff(init, liveIn);
    }
  }

  /** The instructions from `i` to `k` leave EFLAGS as live as they were. */
  ghost predicate Transparent(body: seq<Instr>, i: nat, k: nat)
    requires i <= k <= |body|
  {
    forall l: bool :: LiveEnd(body[i..k], l) == l
  }

  /** The backward scan from instruction `k`: the nearest def or kill decides. */
  method IsEflagsLive(body: seq<Instr>, k: nat, liveIn: bool) returns (live: bool)
    requires k <= |body|
    ensures live == LiveEnd(body[..k], liveIn)
  {
    var i: nat := k;
    while i > 0
      invariant i <= k && Transparent(body, i, k)
    {
      i := i - 1;
      var mi := body[i];
      LiveSplit(body, i, k, liveIn);
      if mi.Op? && !mi.fdef.NoDef? {
        return mi.fdef.LiveDef?;
      }
      if mi.MaskOr? {
        return false;
      }
      if mi.RestoreFlags? {
        return true;
      }
      if (mi.Op? && mi.kills) || (mi.CMovPoison? && mi.killsFlags) {
        return false;
      }
    }
    assert body[0..k] == body[..k];
    return liveIn;
  }

  predicate WantsFlags(f: Func, x: Option<BlockId>) {
    x.Some? && x.value in f.blocks && f.blocks[x.value].flagsLiveIn
  }

  /** Readers, branches and successors all find EFLAGS live where they need them. */
  ghost predicate LiveBlock(f: Func, b: BlockId)
    requires b in f.blocks
  {
    var fb := f.blocks[b];
    && LiveOk(fb.body, fb.flagsLiveIn)
    && (NConds(fb.terms) > 0 ==> LiveEnd(fb.body, fb.flagsLiveIn))
    && forall e :: WantsFlags(f, Target(f, b, e)) ==> LiveEnd(fb.body, fb.flagsLiveIn)
  }

  ghost predicate LiveFunc(f: Func) {
    forall b {:trigger LiveBlock(f, b)} :: b in f.blocks ==> LiveBlock(f, b)
  }

  lemma {:induction false} ChecksLive(codes: seq<CondCode>, checks: seq<Instr>, kill: bool)
    requires |checks| == |codes| > 0
    requires forall i :: 0 <= i < |codes| ==>
               checks[i] == CMovPoison(codes[i], kill && i == |codes| - 1)
    ensures LiveOk(checks, true) && LiveEnd(checks, true) == !kill
    decreases |codes|
  {
    if |codes| > 1 { ChecksLive(codes[1..], checks[1..], kill); }
    else { assert checks[1..] == []; }
  }

  lemma EdgeChecksLive(ts: seq<Term>, e: nat, kill: bool)
    requires NConds(ts) > 0
    ensures LiveOk(CMovs(EdgeCodes(ts, e), kill), true)
    ensures LiveEnd(CMovs(EdgeCodes(ts, e), kill), true) == !kill
  {
    var codes := EdgeCodes(ts, e);
    var bc := BranchCodes(ts, NConds(ts));
    SortUniqueSet(bc);
    assert bc[0] in bc;
    forall i | 0 <= i < |codes| ensures CMovs(codes, kill)[i] == CMovPoison(codes[i], kill && i == |codes| - 1) {
      OnlyLastKills(ts, e, i);
    }
    ChecksLive(codes, CMovs(codes, kill), kill);
  }

  lemma OldBlockLive(o: Func, f: Func, own: map<BlockId, Edge>, b: BlockId)
    requires b in o.blocks && OldBlockOk(o, f, own, b)
    requires b in own ==> own[b].0 in o.blocks && Traced(o.blocks[own[b].0])
    requires LiveOk(o.blocks[b].body, o.blocks[b].flagsLiveIn)
    ensures LiveOk(f.blocks[b].body, f.blocks[b].flagsLiveIn)
    ensures LiveEnd(f.blocks[b].body, f.blocks[b].flagsLiveIn) == LiveEnd(o.blocks[b].body, o.blocks[b].flagsLiveIn)
  {
    var ob, fb := o.blocks[b], f.blocks[b];
    var checks := Checks(o, own, b, !ob.flagsLiveIn);
    LiveConcat(checks, ob.body, fb.flagsLiveIn);
    if b in own { EdgeChecksLive(o.blocks[own[b].0].terms, own[b].1, !ob.flagsLiveIn); }
  }

  /** A checking block leaves EFLAGS exactly as live as its successor wants them. */
  lemma InstrumentedLive(o: Func, f: Func, own: map<BlockId, Edge>)
    requires Instruments(o, f, own) && LiveFunc(o)
    ensures LiveFunc(f)
  {
    forall b | b in f.blocks ensures LiveBlock(f, b) {
      if b in own { assert OwnOk(o, f, own, b); }
      if b in o.blocks {
        OldBlockLives(o, f, own, b);
      } else {
        NewBlockLives(o, f, own, b);
      }
    }
  }

  lemma OldBlockLives(o: Func, f: Func, own: map<BlockId, Edge>, b: BlockId)
    requires Instruments(o, f, own) && LiveFunc(o) && b in o.blocks && b in f.blocks
    ensures LiveBlock(f, b)
  {
    if b in own { assert OwnOk(o, f, own, b); }
    assert OldBlockOk(o, f, own, b) && LiveBlock(o, b);
    OldBlockLive(o, f, own, b);
    forall e | WantsFlags(f, Target(f, b, e))
      ensures LiveEnd(f.blocks[b].body, f.blocks[b].flagsLiveIn)
    {
      EdgeFacts(o, f, own, b, e);
      var x := Target(f, b, e).value;
      if x in own { assert OwnOk(o, f, own, x); }
      if x in o.blocks { assert OldBlockOk(o, f, own, x); }
      else { assert NewBlockOk(o, f, own, x); }
    }
  }

  lemma NewBlockLives(o: Func, f: Func, own: map<BlockId, Edge>, x: BlockId)
    requires Instruments(o, f, own) && x in f.blocks && x !in o.blocks
    ensures LiveBlock(f, x)
  {
    assert NewBlockOk(o, f, own, x);
    assert OwnOk(o, f, own, x);
    var (b, e) := own[x];
    var t := Target(o, b, e).value;
    EdgeFacts(o, f, own, b, e);
    assert OldBlockOk(o, f, own, t);
    EdgeChecksLive(o.blocks[b].terms, e, !o.blocks[t].flagsLiveIn);
    forall e1 | Target(f, x, e1).Some? ensures e1 == 0 {}
  }
}
