/**
 Masking the address of one load: every unpoisoned run of its block is preserved, and the masks
 stay right for the loads after it.
 */
module Harden {
  import opened Options
  import opened Machine
  import opened Liveness
  import opened Simulation
  import opened Masking

  const NONE: Renaming := map[]

  /** The known masked registers are right whenever `pre` has run unpoisoned. */
  ghost predicate KnownAfter(env: Env, pre: seq<Instr>, known: Known) {
    forall s: State {:trigger Exec(env, pre, s)} ::
      Exec(env, pre, s).ps == 0 ==> KnownOk(known, Exec(env, pre, s))
  }

  lemma BodyBelowConcat(p: seq<Instr>, q: seq<Instr>, n: nat)
    ensures BodyBelow(p + q, n) <==> BodyBelow(p, n) && BodyBelow(q, n)
  {
    if BodyBelow(p + q, n) {
      forall k | 0 <= k < |p| ensures Below(p[k], n) { assert (p + q)[k] == p[k]; }
      forall k | 0 <= k < |q| ensures Below(q[k], n) { assert (p + q)[|p| + k] == q[k]; }
    }
  }

  lemma PlainAgree(env: Env, n: nat, live: bool, body: seq<Instr>, s: State, t: State)
    requires BodyBelow(body, n) && Agree(n, NONE, live, s, t) && LiveOk(body, live)
    ensures Agree(n, NONE, LiveEnd(body, live), Exec(env, body, s), Exec(env, body, t))
  {
    RenIdentity(body);
    ExecAgree(env, n, NONE, live, body, s, t);
  }

  // ----- masking the address of a load -----

  /** The code that replaces a load: masks, then the load from the masked address. */
  function AddrCode(load: Instr, p: Plan, live: bool, shrx: bool, fr: Reg): seq<Instr>
    requires load.Op?
  {
    MasksOf(p, live, shrx, fr) + [load.(mem := Some(p.addr))]
  }

  /** What masking the address needs to know about the load and the code before it. */
  ghost predicate AddrReady(env: Env, n: nat, pre: seq<Instr>, load: Instr, known: Known, next: Reg, fr: Reg) {
    && load.Op? && load.mem.Some? && Below(load, n)
    && KnownBelow(known, n) && KnownAfter(env, pre, known) && n <= next && n <= fr
  }

  lemma LoadFromMasked(env: Env, load: Instr, addr: Addr, t: State)
    requires load.Op? && load.mem.Some? && EffAddr(env, t, addr) == EffAddr(env, t, load.mem.value)
    ensures StepOp(env, load.(mem := Some(addr)), t) == StepOp(env, load, t)
  {
    assert Inputs(env, load.(mem := Some(addr)), t) == Inputs(env, load, t);
  }

  lemma EffAddrKept(env: Env, n: nat, a: Addr, s: State, t: State)
    requires (forall r :: r in AddrRegs(a) ==> r < n) && Kept(n, s, t)
    ensures EffAddr(env, t, a) == EffAddr(env, s, a)
  {
    if a.base.BaseReg? { assert a.base.reg in AddrRegs(a); }
    if a.index.Some? { assert a.index.value in AddrRegs(a); }
  }

  lemma KeptAgree(n: nat, live: bool, s: State, t: State, u: State)
    requires Agree(n, NONE, live, s, t) && Kept(n, t, u) && FlagRegsAgree(n, t.fregs, u.fregs)
    requires live ==> u.flags == t.flags
    ensures Agree(n, NONE, live, s, u)
  {
    forall r: Reg | r < n ensures Get(s.regs, r, 0) == Get(u.regs, Ren(NONE, r), 0) {
      assert Get(s.regs, r, 0) == Get(t.regs, Ren(NONE, r), 0);
      assert RegVal(u, r) == RegVal(t, r);
    }
    forall r: Reg | r < n ensures Get(s.fregs, r, NO_FLAGS) == Get(u.fregs, r, NO_FLAGS) {
      assert Get(t.fregs, r, NO_FLAGS) == Get(u.fregs, r, NO_FLAGS);
    }
  }

  function MasksOf(p: Plan, live: bool, shrx: bool, fr: Reg): seq<Instr> {
    if p.ops == [] then [] else MaskCode(p.ops, live, shrx, fr)
  }

  /** After the masks: nothing below `n` changed, and the masked address is the address. */
  lemma AddrMasks(env: Env, n: nat, a: Addr, known: Known, next: Reg, live: bool, shrx: bool, fr: Reg, t: State)
    requires (forall r :: r in AddrRegs(a) ==> r < n) && KnownBelow(known, n) && n <= next && n <= fr
    requires t.ps == 0 && KnownOk(known, t)
    ensures var p := PlanAddr(a, known, next);
            var u := Exec(env, MasksOf(p, live, shrx, fr), t);
            && Kept(n, t, u) && FlagRegsAgree(n, t.fregs, u.fregs) && (live ==> u.flags == t.flags)
            && EffAddr(env, u, p.addr) == EffAddr(env, u, a) && KnownOk(p.known, u)
  {
    var p := PlanAddr(a, known, next);
    PlanOps(a, known, next, n);
    var u := Exec(env, MasksOf(p, live, shrx, fr), t);
    if p.ops != [] { MaskCodeEffect(env, n, p.ops, live, shrx, fr, t); }
    PlanEffect(env, a, known, next, n, t, u);
    EffAddrKept(env, n, a, t, u);
  }

  lemma OneStep(env: Env, i: Instr, s: State)
    ensures Exec(env, [i], s) == Step(env, i, s)
  {
  }

  lemma PlainStepAgree(env: Env, n: nat, live: bool, i: Instr, s: State, t: State)
    requires Below(i, n) && Agree(n, NONE, live, s, t) && (Reads(i) ==> live)
    ensures Agree(n, NONE, LiveAfter(i, live), Step(env, i, s), Step(env, i, t))
  {
    RenIdentity([i]);
    assert RenBody(NONE, [i])[0] == i;
    StepAgree(env, n, NONE, live, i, s, t);
  }

  /** The hardened load does what the load did. */
  lemma AddrStep(env: Env, n: nat, load: Instr, known: Known, next: Reg,
                 live: bool, shrx: bool, fr: Reg, s: State, t: State)
    requires load.Op? && load.mem.Some? && Below(load, n) && (Reads(load) ==> live)
    requires KnownBelow(known, n) && n <= next && n <= fr
    requires Agree(n, NONE, live, s, t) && t.ps == 0 && KnownOk(known, t)
    ensures Agree(n, NONE, LiveAfter(load, live), Step(env, load, s),
                  Exec(env, AddrCode(load, PlanAddr(load.mem.value, known, next), live, shrx, fr), t))
  {
    var a := load.mem.value;
    var p := PlanAddr(a, known, next);
    assert AddrRegs(a) <= UsedRegs(load);
    var masks := MasksOf(p, live, shrx, fr);
    var load' := load.(mem := Some(p.addr));
    ExecConcat(env, masks, [load'], t);
    var u := Exec(env, masks, t);
    AddrMasks(env, n, a, known, next, live, shrx, fr, t);
    LoadFromMasked(env, load, p.addr, u);
    KeptAgree(n, live, s, t, u);
    PlainStepAgree(env, n, live, load, s, u);
    OneStep(env, load', u);
  }

  /** Masking the address of one load of a body preserves the body's unpoisoned behaviour. */
  lemma AddrBodySim(env: Env, n: nat, live: bool, pre: seq<Instr>, load: Instr, post: seq<Instr>,
                    known: Known, next: Reg, shrx: bool, fr: Reg)
    requires AddrReady(env, n, pre, load, known, next, fr)
    requires BodyBelow(pre, n) && BodyBelow(post, n) && LiveOk(pre + [load] + post, live)
    ensures BodySim(env, n, NONE, live, pre + [load] + post,
                    pre + AddrCode(load, PlanAddr(load.mem.value, known, next), LiveEnd(pre, live), shrx, fr) + post)
  {
    var code := AddrCode(load, PlanAddr(load.mem.value, known, next), LiveEnd(pre, live), shrx, fr);
    var body, body' := pre + [load] + post, pre + code + post;
    var live1 := LiveEnd(pre, live);
    SplitLive(pre, load, post, live);
    forall s: State, t: State | Agree(n, NONE, live, s, t) && Exec(env, body, s).ps == 0
      ensures Agree(n, NONE, LiveEnd(body, live), Exec(env, body, s), Exec(env, body', t))
    {
      ExecThree(env, pre, [load], post, s);
      ExecThree(env, pre, code, post, t);
      var s1, t1 := Exec(env, pre, s), Exec(env, pre, t);
      assert Exec(env, [load], s1) == Step(env, load, s1);
      StateMonotone(env, post, Step(env, load, s1));
      StateMonotone(env, [load], s1);
      PlainAgree(env, n, live, pre, s, t);
      AddrStep(env, n, load, known, next, live1, shrx, fr, s1, t1);
      PlainAgree(env, n, LiveAfter(load, live1), post, Step(env, load, s1), Exec(env, code, t1));
    }
  }

  lemma ExecThree(env: Env, p: seq<Instr>, q: seq<Instr>, r: seq<Instr>, s: State)
    ensures Exec(env, p + q + r, s) == Exec(env, r, Exec(env, q, Exec(env, p, s)))
  {
    ExecConcat(env, p + q, r, s);
    ExecConcat(env, p, q, s);
  }

  lemma SplitLive(pre: seq<Instr>, i: Instr, post: seq<Instr>, live: bool)
    requires LiveOk(pre + [i] + post, live)
    ensures var live1 := LiveEnd(pre, live);
            && LiveOk(pre, live) && (Reads(i) ==> live1) && LiveOk(post, LiveAfter(i, live1))
            && LiveEnd(pre + [i] + post, live) == LiveEnd(post, LiveAfter(i, live1))
  {
    LiveConcat(pre + [i], post, live);
    LiveConcat(pre, [i], live);
    assert LiveEnd([i], LiveEnd(pre, live)) == LiveAfter(i, LiveEnd(pre, live));
  }

  /** Liveness of the rewritten body. */
  lemma AddrCodeLive(load: Instr, p: Plan, live: bool, shrx: bool, fr: Reg)
    requires load.Op? && (Reads(load) ==> live)
    ensures LiveOk(AddrCode(load, p, live, shrx, fr), live)
    ensures LiveEnd(AddrCode(load, p, live, shrx, fr), live) == LiveAfter(load, live)
  {
    var masks := MasksOf(p, live, shrx, fr);
    if p.ops != [] { MaskCodeLive(p.ops, live, shrx, fr); }
    LiveConcat(masks, [load.(mem := Some(p.addr))], live);
  }

  lemma MiddleLive(pre: seq<Instr>, i: Instr, code: seq<Instr>, post: seq<Instr>, live: bool)
    requires LiveOk(pre + [i] + post, live)
    requires LiveOk(code, LiveEnd(pre, live)) && LiveEnd(code, LiveEnd(pre, live)) == LiveAfter(i, LiveEnd(pre, live))
    ensures LiveOk(pre + code + post, live)
    ensures LiveEnd(pre + code + post, live) == LiveEnd(pre + [i] + post, live)
  {
    SplitLive(pre, i, post, live);
    LiveConcat(pre + code, post, live);
    LiveConcat(pre, code, live);
  }

  // ----- what is known after the rewritten prefix -----

  lemma KnownKeep(env: Env, pre: seq<Instr>, i: Instr, known: Known)
    requires KnownAfter(env, pre, known)
    requires forall r :: r in known ==> r !in DefRegs(i) && known[r] !in DefRegs(i)
    ensures KnownAfter(env, pre + [i], known)
  {
    forall s: State | Exec(env, pre + [i], s).ps == 0 ensures KnownOk(known, Exec(env, pre + [i], s)) {
      ExecConcat(env, pre, [i], s);
      var s1 := Exec(env, pre, s);
      OneStep(env, i, s1);
      StateMonotone(env, [i], s1);
      StepKeepsRegs(env, i, s1);
      assert KnownOk(known, s1);
    }
  }

  lemma StepKeepsRegs(env: Env, i: Instr, s: State)
    ensures forall r: Reg :: r !in DefRegs(i) ==> RegVal(Step(env, i, s), r) == RegVal(s, r)
  {
  }

  /** The masks inserted before a load are known after it, unless the load overwrites them. */
  lemma KnownAddr(env: Env, n: nat, pre: seq<Instr>, load: Instr, known: Known, next: Reg,
                  live: bool, shrx: bool, fr: Reg)
    requires AddrReady(env, n, pre, load, known, next, fr)
    requires var p := PlanAddr(load.mem.value, known, next);
             forall r :: r in p.known ==> r !in DefRegs(load) && p.known[r] !in DefRegs(load)
    ensures var p := PlanAddr(load.mem.value, known, next);
            KnownAfter(env, pre + AddrCode(load, p, live, shrx, fr), p.known)
  {
    var a := load.mem.value;
    var p := PlanAddr(a, known, next);
    var masks := MasksOf(p, live, shrx, fr);
    assert AddrRegs(a) <= UsedRegs(load);
    assert KnownAfter(env, pre + masks, p.known) by {
      forall s: State | Exec(env, pre + masks, s).ps == 0 ensures KnownOk(p.known, Exec(env, pre + masks, s)) {
        ExecConcat(env, pre, masks, s);
        StateMonotone(env, masks, Exec(env, pre, s));
        AddrMasks(env, n, a, known, next, live, shrx, fr, Exec(env, pre, s));
      }
    }
    KnownKeep(env, pre + masks, load.(mem := Some(p.addr)), p.known);
    assert pre + masks + [load.(mem := Some(p.addr))] == pre + AddrCode(load, p, live, shrx, fr);
  }
}
