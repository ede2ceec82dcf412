/**
 Masking an address or a loaded value with the predicate state: the code inserted around one
 load, and why it is invisible while the state is zero.
 */
module Masking {
  import opened Options
  import opened Machine
  import opened Liveness
  import opened Simulation

  lemma MaskIdentity(v: Word)
    ensures OrMask(0, v) == v && ShrMask(0, v) == v
  {
  }

  // ----- the inserted code -----

  /** Each pair is a register and the fresh register that receives its masked value. */
  function Masks(ops: seq<(Reg, Reg)>, shr: bool): (r: seq<Instr>)
    ensures |r| == |ops|
    ensures forall k :: 0 <= k < |ops| ==>
              r[k] == if shr then MaskShr(ops[k].1, ops[k].0) else MaskOr(ops[k].1, ops[k].0)
  {
    seq(|ops|, k requires 0 <= k < |ops| =>
      if shr then MaskShr(ops[k].1, ops[k].0) else MaskOr(ops[k].1, ops[k].0))
  }

  /** OR clobbers EFLAGS: save and restore them when live, unless SHRX is available. */
  function MaskCode(ops: seq<(Reg, Reg)>, live: bool, shrx: bool, fr: Reg): seq<Instr> {
    if live && !shrx then [SaveFlags(fr)] + Masks(ops, false) + [RestoreFlags(fr)]
    else Masks(ops, live)
  }

  /** Sources below `n`, distinct targets from `n` on. */
  ghost predicate MaskOps(ops: seq<(Reg, Reg)>, n: nat) {
    && (forall k :: 0 <= k < |ops| ==> ops[k].0 < n <= ops[k].1)
    && (forall j, k :: 0 <= j < k < |ops| ==> ops[j].1 != ops[k].1)
  }

  /** Every register below `n`, memory, state and flag registers survive. */
  ghost predicate Kept(n: nat, s: State, t: State) {
    && (forall r: Reg :: r < n ==> RegVal(t, r) == RegVal(s, r))
    && t.mem == s.mem && t.ps == s.ps
  }

  lemma MaskStep(env: Env, n: nat, i: Instr, s: State)
    requires (i.MaskOr? || i.MaskShr?) && n <= i.mdst && s.ps == 0
    ensures var t := Step(env, i, s);
            && t.regs == s.regs[i.mdst := RegVal(s, i.msrc)] && Kept(n, s, t)
            && t.fregs == s.fregs && (i.MaskShr? ==> t.flags == s.flags)
  {
    MaskIdentity(RegVal(s, i.msrc));
  }

  lemma {:induction false} MasksEffect(env: Env, n: nat, ops: seq<(Reg, Reg)>, shr: bool, s: State)
    requires MaskOps(ops, n) && s.ps == 0
    ensures var t := Exec(env, Masks(ops, shr), s);
            && Kept(n, s, t) && t.fregs == s.fregs && (shr ==> t.flags == s.flags)
            && Copies(ops, s, t)
    decreases |ops|
  {
    if ops != [] {
      var init, last := ops[..|ops| - 1], Masks(ops, shr)[|ops| - 1];
      assert Masks(ops, shr) == Masks(init, shr) + [last];
      ExecConcat(env, Masks(init, shr), [last], s);
      MasksEffect(env, n, init, shr, s);
      var s1 := Exec(env, Masks(init, shr), s);
      assert Exec(env, [last], s1) == Step(env, last, s1);
      LastMask(env, n, ops, last, s, s1);
    }
  }

  lemma LastMask(env: Env, n: nat, ops: seq<(Reg, Reg)>, last: Instr, s: State, s1: State)
    requires ops != [] && MaskOps(ops, n) && s1.ps == 0
    requires last == MaskShr(ops[|ops| - 1].1, ops[|ops| - 1].0) || last == MaskOr(ops[|ops| - 1].1, ops[|ops| - 1].0)
    requires Kept(n, s, s1) && s1.fregs == s.fregs && Copies(ops[..|ops| - 1], s, s1)
    ensures var t := Step(env, last, s1);
            && Kept(n, s, t) && t.fregs == s.fregs && Copies(ops, s, t) && (last.MaskShr? ==> t.flags == s1.flags)
  {
    MaskStep(env, n, last, s1);
    var t := Step(env, last, s1);
    var init := ops[..|ops| - 1];
    forall k | 0 <= k < |ops| ensures RegVal(t, ops[k].1) == RegVal(s, ops[k].0) {
      if k < |init| { assert init[k] == ops[k]; }
    }
  }

  lemma SavedMasksEffect(env: Env, n: nat, ops: seq<(Reg, Reg)>, fr: Reg, s: State)
    requires MaskOps(ops, n) && s.ps == 0 && n <= fr
    ensures var t := Exec(env, [SaveFlags(fr)] + Masks(ops, false) + [RestoreFlags(fr)], s);
            Kept(n, s, t) && FlagRegsAgree(n, s.fregs, t.fregs) && t.flags == s.flags && Copies(ops, s, t)
  {
    var s1 := Step(env, SaveFlags(fr), s);
    var ms := Masks(ops, false);
    ExecConcat(env, [SaveFlags(fr)] + ms, [RestoreFlags(fr)], s);
    ExecConcat(env, [SaveFlags(fr)], ms, s);
    assert Exec(env, [SaveFlags(fr)], s) == s1;
    MasksEffect(env, n, ops, false, s1);
    var s2 := Exec(env, ms, s1);
    var s3 := Step(env, RestoreFlags(fr), s2);
    assert Exec(env, [RestoreFlags(fr)], s2) == s3;
    assert Kept(n, s1, s2) && s3.regs == s2.regs && s1.regs == s.regs;
    assert forall r: Reg :: RegVal(s1, r) == RegVal(s, r) && RegVal(s3, r) == RegVal(s2, r);
  }

  /** With the state at zero the inserted code copies each source, and keeps live flags. */
  lemma MaskCodeEffect(env: Env, n: nat, ops: seq<(Reg, Reg)>, live: bool, shrx: bool, fr: Reg, s: State)
    requires MaskOps(ops, n) && s.ps == 0 && n <= fr
    ensures var t := Exec(env, MaskCode(ops, live, shrx, fr), s);
            && Kept(n, s, t) && FlagRegsAgree(n, s.fregs, t.fregs) && (live ==> t.flags == s.flags)
            && Copies(ops, s, t)
  {
    if live && !shrx {
      SavedMasksEffect(env, n, ops, fr, s);
    } else {
      MasksEffect(env, n, ops, live, s);
    }
  }

  /** The inserted code leaves EFLAGS as live as it found them. */
  lemma MaskCodeLive(ops: seq<(Reg, Reg)>, live: bool, shrx: bool, fr: Reg)
    requires ops != []
    ensures LiveOk(MaskCode(ops, live, shrx, fr), live)
    ensures LiveEnd(MaskCode(ops, live, shrx, fr), live) == live
  {
    MasksLive(ops, false, true);
    MasksLive(ops, live, live);
    if live && !shrx {
      var ms := Masks(ops, false);
      LiveConcat([SaveFlags(fr)] + ms, [RestoreFlags(fr)], live);
      LiveConcat([SaveFlags(fr)], ms, live);
      assert LiveEnd([SaveFlags(fr)], true) && LiveEnd([RestoreFlags(fr)], false);
    }
  }

  lemma {:induction false} MasksLive(ops: seq<(Reg, Reg)>, shr: bool, live: bool)
    ensures LiveOk(Masks(ops, shr), live)
    ensures LiveEnd(Masks(ops, shr), live) == (live && (shr || ops == []))
    decreases |ops|
  {
    if ops != [] {
      assert Masks(ops, shr)[1..] == Masks(ops[1..], shr);
      MasksLive(ops[1..], shr, shr && live);
    }
  }

  lemma MaskCodeBelow(ops: seq<(Reg, Reg)>, live: bool, shrx: bool, fr: Reg, n: nat, n': nat)
    requires MaskOps(ops, n) && n <= n' && fr < n' && forall k :: 0 <= k < |ops| ==> ops[k].1 < n'
    ensures BodyBelow(MaskCode(ops, live, shrx, fr), n')
  {
  }

  // ----- which operands of an address are masked -----

  /** Registers already masked in this block, and the registers that hold the masked values. */
  type Known = map<Reg, Reg>

  datatype Plan = Plan(addr: Addr, ops: seq<(Reg, Reg)>, known: Known, next: Reg)

  /** Replace a register by its masked value, reusing it when there is one. */
  function MaskReg(r: Reg, known: Known, next: Reg): Masked {
    if r in known then Masked(known[r], [], known, next)
    else Masked(next, [(r, next)], known[r := next], next + 1)
  }

  datatype Masked = Masked(reg: Reg, ops: seq<(Reg, Reg)>, known: Known, next: Reg)

  function MaskBase(a: Addr, known: Known, next: Reg): Masked {
    if a.base.BaseReg? then MaskReg(a.base.reg, known, next) else Masked(0, [], known, next)
  }

  function MaskIndex(a: Addr, known: Known, next: Reg): Masked {
    if a.index.None? then Masked(0, [], known, next)
    else if a.base.BaseReg? && a.base.reg == a.index.value then Masked(a.index.value, [], known, next)
    else MaskReg(a.index.value, known, next)
  }

  /** The base register if there is one, then the index unless it is that same register. */
  function PlanAddr(a: Addr, known: Known, next: Reg): Plan {
    var b := MaskBase(a, known, next);
    var i := MaskIndex(a, b.known, b.next);
    Plan(a.(base := if a.base.BaseReg? then BaseReg(b.reg) else a.base,
            index := if a.index.Some? then Some(i.reg) else None),
         b.ops + i.ops, i.known, i.next)
  }

  ghost predicate KnownOk(known: Known, s: State) {
    forall r :: r in known ==> RegVal(s, known[r]) == RegVal(s, r)
  }

  ghost predicate KnownBelow(known: Known, n: nat) {
    forall r :: r in known ==> r < n && known[r] < n
  }

  /** One operand: fresh targets, bounds, and only `r` newly known. */
  ghost predicate MaskedShape(m: Masked, r: Reg, known: Known, next: Reg, n: nat) {
    && |m.ops| <= 1 && next <= m.next <= next + 1
    && (m.ops != [] ==> m.ops[0].0 == r && m.ops[0].1 == next && m.next == next + 1)
    && KnownBelow(m.known, m.next)
    && (forall q :: q in m.known ==> q in known || (q == r && m.known[q] == next))
    && (forall q :: q in known ==> q in m.known && m.known[q] == known[q])
  }

  lemma MaskRegShape(r: Reg, known: Known, next: Reg, n: nat)
    requires r < n <= next && KnownBelow(known, next)
    ensures MaskedShape(MaskReg(r, known, next), r, known, next, n)
    ensures MaskReg(r, known, next).reg < MaskReg(r, known, next).next
  {
  }

  ghost predicate Copies(ops: seq<(Reg, Reg)>, s: State, t: State) {
    forall k :: 0 <= k < |ops| ==> RegVal(t, ops[k].1) == RegVal(s, ops[k].0)
  }

  /** In a state where registers below `n` and masked copies are right, a masked operand is right. */
  lemma MaskRegEffect(r: Reg, known: Known, next: Reg, n: nat, s: State, t: State)
    requires r < n && (forall q: Reg :: q < n ==> RegVal(t, q) == RegVal(s, q))
    requires (forall q :: q in known ==> q < n) && KnownOk(known, t) && Copies(MaskReg(r, known, next).ops, s, t)
    ensures RegVal(t, MaskReg(r, known, next).reg) == RegVal(s, r)
    ensures KnownOk(MaskReg(r, known, next).known, t)
    ensures forall q :: q in MaskReg(r, known, next).known ==> q < n
  {
    if r !in known { assert MaskReg(r, known, next).ops[0] == (r, next); }
  }

  lemma PlanOps(a: Addr, known: Known, next: Reg, n: nat)
    requires (forall r :: r in AddrRegs(a) ==> r < n) && KnownBelow(known, n) && n <= next
    ensures var p := PlanAddr(a, known, next);
            && MaskOps(p.ops, n) && next <= p.next
            && (forall k :: 0 <= k < |p.ops| ==> p.ops[k].1 < p.next && p.ops[k].0 in AddrRegs(a))
  {
    var b := MaskBase(a, known, next);
    if a.base.BaseReg? {
      assert a.base.reg in AddrRegs(a);
      MaskRegShape(a.base.reg, known, next, n);
    }
    if a.index.Some? {
      assert a.index.value in AddrRegs(a);
      MaskRegShape(a.index.value, b.known, b.next, n);
    }
  }

  /** One operand: masked only if it has no mask yet, and has one afterwards. */
  ghost predicate Reuses(m: Masked, r: Reg, known: Known) {
    && |m.ops| <= 1 && (m.ops != [] ==> m.ops[0].0 == r && r !in known)
    && r in m.known && m.reg == m.known[r]
    && (forall q :: q in known ==> q in m.known && m.known[q] == known[q])
    && (forall q :: q in m.known ==> q in known || q == r)
  }

  lemma MaskRegReuses(r: Reg, known: Known, next: Reg)
    ensures Reuses(MaskReg(r, known, next), r, known)
  {
  }

  /** Only registers without a mask are masked, each once, and afterwards the registers of the address have one;
      registers that have one already are replaced by it. */
  lemma PlanReuses(a: Addr, known: Known, next: Reg)
    ensures var p := PlanAddr(a, known, next);
            && (forall k :: 0 <= k < |p.ops| ==> p.ops[k].0 !in known && p.ops[k].0 in AddrRegs(a) && p.ops[k].0 in p.known)
            && (forall j, k :: 0 <= j < k < |p.ops| ==> p.ops[j].0 != p.ops[k].0)
            && (forall r :: r in known ==> r in p.known && p.known[r] == known[r])
            && (a.base.BaseReg? ==> a.base.reg in p.known && p.addr.base == BaseReg(p.known[a.base.reg]))
            && (a.index.Some? && a.base != BaseReg(a.index.value) ==> a.index.value in p.known && p.addr.index == Some(p.known[a.index.value]))
  {
    var b := MaskBase(a, known, next);
    if a.base.BaseReg? { MaskRegReuses(a.base.reg, known, next); }
    if a.index.Some? && a.base != BaseReg(a.index.value) { MaskRegReuses(a.index.value, b.known, b.next); }
  }

  /** Dead flags may be clobbered by OR; live ones call for SHRX, or for being saved around the OR. */
  lemma MaskKinds(ops: seq<(Reg, Reg)>, live: bool, shrx: bool, fr: Reg, k: nat)
    requires k < |ops|
    ensures var code := MaskCode(ops, live, shrx, fr);
            if !live then |code| == |ops| && code[k] == MaskOr(ops[k].1, ops[k].0)
            else if shrx then |code| == |ops| && code[k] == MaskShr(ops[k].1, ops[k].0)
            else |code| == |ops| + 2 && code[0] == SaveFlags(fr) && code[k + 1] == MaskOr(ops[k].1, ops[k].0) && code[|ops| + 1] == RestoreFlags(fr)
  {
  }

  lemma PlanKnown(a: Addr, known: Known, next: Reg, n: nat)
    requires (forall r :: r in AddrRegs(a) ==> r < n) && KnownBelow(known, n) && n <= next
    ensures var p := PlanAddr(a, known, next);
            && KnownBelow(p.known, p.next)
            && (forall r :: r in p.known ==> r in known || r in AddrRegs(a))
            && (forall r :: r in p.known ==> (r in known && p.known[r] == known[r]) || p.known[r] >= n)
  {
    var b := MaskBase(a, known, next);
    if a.base.BaseReg? {
      assert a.base.reg in AddrRegs(a);
      MaskRegShape(a.base.reg, known, next, n);
    }
    if a.index.Some? {
      assert a.index.value in AddrRegs(a);
      MaskRegShape(a.index.value, b.known, b.next, n);
    }
  }

  /** One operand: below the next register, and a known mask if it is old. */
  lemma MaskRegOld(r: Reg, known: Known, next: Reg, n: nat)
    requires r < n <= next && KnownBelow(known, next)
    ensures var m := MaskReg(r, known, next);
            m.reg < m.next && (m.reg < n ==> r in known && m.reg == known[r])
  {
  }

  lemma PlanRegs(a: Addr, known: Known, next: Reg, n: nat)
    requires (forall r :: r in AddrRegs(a) ==> r < n) && KnownBelow(known, n) && n <= next
    ensures var p := PlanAddr(a, known, next);
            && (forall r :: r in AddrRegs(p.addr) ==> r < p.next)
            && (forall d :: d in AddrRegs(p.addr) && d < n ==> d in AddrRegs(a) || exists r :: r in known && known[r] == d)
  {
    var b := MaskBase(a, known, next);
    if a.base.BaseReg? {
      assert a.base.reg in AddrRegs(a);
      MaskRegShape(a.base.reg, known, next, n);
      MaskRegOld(a.base.reg, known, next, n);
    }
    if a.index.Some? {
      assert a.index.value in AddrRegs(a);
      MaskRegShape(a.index.value, b.known, b.next, n);
      MaskRegOld(a.index.value, b.known, b.next, n);
    }
  }

  lemma CopiesBoth(a: seq<(Reg, Reg)>, b: seq<(Reg, Reg)>, s: State, t: State)
    requires Copies(a + b, s, t)
    ensures Copies(a, s, t) && Copies(b, s, t)
  {
    forall k | 0 <= k < |a| ensures RegVal(t, a[k].1) == RegVal(s, a[k].0) { assert (a + b)[k] == a[k]; }
    forall k | 0 <= k < |b| ensures RegVal(t, b[k].1) == RegVal(s, b[k].0) { assert (a + b)[|a| + k] == b[k]; }
  }

  /** Reused or freshly masked, the rewritten address is the original one while the state is zero. */
  lemma PlanEffect(env: Env, a: Addr, known: Known, next: Reg, n: nat, s: State, t: State)
    requires (forall r :: r in AddrRegs(a) ==> r < n) && KnownBelow(known, n) && n <= next
    requires KnownOk(known, s) && Kept(n, s, t)
    requires Copies(PlanAddr(a, known, next).ops, s, t)
    ensures EffAddr(env, t, PlanAddr(a, known, next).addr) == EffAddr(env, s, a)
    ensures KnownOk(PlanAddr(a, known, next).known, t)
  {
    assert KnownOk(known, t);
    var b := MaskBase(a, known, next);
    var i := MaskIndex(a, b.known, b.next);
    CopiesBoth(b.ops, i.ops, s, t);
    if a.base.BaseReg? {
      assert a.base.reg in AddrRegs(a);
      MaskRegEffect(a.base.reg, known, next, n, s, t);
    }
    if a.index.Some? {
      assert a.index.value in AddrRegs(a);
      if !(a.base.BaseReg? && a.base.reg == a.index.value) {
        MaskRegEffect(a.index.value, b.known, b.next, n, s, t);
      }
    }
  }
}
