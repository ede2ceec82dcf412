/**
 Checking the target of indirect branches: every block reached by an indirect jump compares
 the address its predecessor carried with its own address and poisons the state when they
 differ.  A predecessor that arrives by a direct jump is given the block's own address to carry.
 */
module Indirect {
  import opened Machine

  type Regs = Reg -> Word

  /** The last terminator of a block, as far as this step distinguishes them. */
  datatype Jump = Other | MemoryJump | NarrowJump | Through(reg: Reg)

  /** `alone`: the block has no terminator besides its last one. */
  datatype Block = Block(jump: Jump, alone: bool, ehPad: bool, flagsLiveIn: bool, succs: seq<nat>, preds: seq<nat>)

  datatype Fault =
    | MemoryOperandJump(at: nat)
    | NarrowIndirectJump(at: nat)
    | OtherTerminators(at: nat)
    | EhPadTarget(at: nat)
    | FlagsLiveIn(at: nat)
    | ConditionalEntry(at: nat, pred: nat)

  /** A move of block `of`'s address into `dst`, placed before the terminators. */
  datatype Mov = Mov(dst: Reg, of: nat)

  /**
   What the step leaves behind: the moves put at the bottom of each block, the register that
   holds the carried address at the end of a block, and the blocks that received a check.
   */
  datatype Plan = Plan(movs: seq<seq<Mov>>, avail: map<nat, Reg>, checked: seq<nat>, next: Reg)

  datatype Result = Ok(plan: Plan) | Err(fault: Fault)

  /** Edges stay inside the function, and predecessor lists name exactly the blocks with an edge. */
  ghost predicate WellFormed(f: seq<Block>) {
    && (forall p: nat, s: nat {:trigger Edge(f, p, s)} :: Edge(f, p, s) ==> BackEdge(f, p, s))
    && (forall p: nat, s: nat {:trigger BackEdge(f, p, s)} :: BackEdge(f, p, s) ==> Edge(f, p, s))
  }

  ghost predicate Registers(f: seq<Block>, next: Reg) {
    forall b: nat | b < |f| && f[b].jump.Through? :: f[b].jump.reg < next
  }

  ghost predicate Edge(f: seq<Block>, p: nat, t: nat) { p < |f| && t in f[p].succs }

  ghost predicate BackEdge(f: seq<Block>, p: nat, t: nat) { t < |f| && p in f[t].preds }

  ghost predicate Terminated(f: seq<Block>, p: nat) { p < |f| && f[p].jump.Through? }

  /** Some indirect jump may lead to `t`. */
  ghost predicate Target(f: seq<Block>, t: nat) {
    exists p: nat :: Terminated(f, p) && Edge(f, p, t)
  }

  // ----- which functions are supported -----

  ghost predicate BadJump(f: seq<Block>, b: nat) {
    && b < |f|
    && (f[b].jump.MemoryJump? || f[b].jump.NarrowJump? || (f[b].jump.Through? && !f[b].alone))
  }

  /** A predecessor without an indirect jump that could also go elsewhere. */
  ghost predicate Conditional(f: seq<Block>, t: nat, p: nat) {
    && Edge(f, p, t) && !Terminated(f, p)
    && exists s: nat :: s in f[p].succs && s < |f| && s != t && !f[s].ehPad
  }

  ghost predicate BadTarget(f: seq<Block>, t: nat) {
    && t < |f| && Target(f, t)
    && (f[t].ehPad || f[t].flagsLiveIn || exists p: nat :: Conditional(f, t, p))
  }

  ghost predicate Supported(f: seq<Block>) {
    && (forall b: nat :: !BadJump(f, b))
    && (forall t: nat :: !BadTarget(f, t))
  }

  /** The fault names a block that really has it. */
  ghost predicate Blames(f: seq<Block>, e: Fault) {
    && e.at < |f|
    && match e {
      case MemoryOperandJump(b) => f[b].jump.MemoryJump?
      case NarrowIndirectJump(b) => f[b].jump.NarrowJump?
      case OtherTerminators(b) => f[b].jump.Through? && !f[b].alone
      case EhPadTarget(t) => Target(f, t) && f[t].ehPad
      case FlagsLiveIn(t) => Target(f, t) && f[t].flagsLiveIn
      case ConditionalEntry(t, p) => Target(f, t) && Conditional(f, t, p)
    }
  }

  lemma BlamedUnsupported(f: seq<Block>, e: Fault)
    requires Blames(f, e)
    ensures !Supported(f)
  {
    match e
    case MemoryOperandJump(b) => assert BadJump(f, b);
    case NarrowIndirectJump(b) => assert BadJump(f, b);
    case OtherTerminators(b) => assert BadJump(f, b);
    case EhPadTarget(t) => assert BadTarget(f, t);
    case FlagsLiveIn(t) => assert BadTarget(f, t);
    case ConditionalEntry(t, p) => assert BadTarget(f, t);
  }

  // ----- what the plan must say -----

  /** The last move into `r` puts the address of `t` there. */
  ghost predicate Delivers(movs: seq<Mov>, r: Reg, t: nat) {
    exists i: nat :: i < |movs| && movs[i] == Mov(r, t) && forall j: nat :: i < j < |movs| ==> movs[j].dst != r
  }

  /** Predecessor `p` carries what it should into target `t`. */
  ghost predicate Carries(f: seq<Block>, plan: Plan, p: nat, t: nat)
    requires p < |f| && |plan.movs| == |f|
  {
    && p in plan.avail
    && if f[p].jump.Through? then plan.avail[p] == f[p].jump.reg && plan.movs[p] == [] else Delivers(plan.movs[p], plan.avail[p], t)
  }

  ghost predicate FreshMovs(plan: Plan, first: Reg) {
    forall b: nat, i: nat | b < |plan.movs| && i < |plan.movs[b]| :: first <= plan.movs[b][i].dst < plan.next
  }

  ghost predicate Handled(f: seq<Block>, plan: Plan, t: nat)
    requires |plan.movs| == |f|
  {
    forall p: nat {:trigger Edge(f, p, t)} :: Edge(f, p, t) ==> Carries(f, plan, p, t)
  }

  ghost predicate GoodPlan(f: seq<Block>, first: Reg, plan: Plan) {
    && |plan.movs| == |f| && FreshMovs(plan, first)
    && (forall t: nat {:trigger Target(f, t)} {:trigger t in plan.checked} :: t in plan.checked <==> t < |f| && Target(f, t))
    && (forall t: nat {:trigger Target(f, t)} :: t < |f| && Target(f, t) ==> Handled(f, plan, t))
  }

  // ----- the step -----

  /** What the first walk makes of a block: nothing, a fault, or a jump register to carry. */
  function Scan(b: Block, at: nat): (r: (bool, Reg, seq<Fault>)) {
    match b.jump
    case Other => (false, 0, [])
    case MemoryJump => (false, 0, [MemoryOperandJump(at)])
    case NarrowJump => (false, 0, [NarrowIndirectJump(at)])
    case Through(reg) => if b.alone then (true, reg, []) else (false, 0, [OtherTerminators(at)])
  }

  /** Some indirect jump among the first `n` blocks may lead to `t`. */
  ghost predicate Reached(f: seq<Block>, n: nat, t: nat) {
    exists p: nat :: p < n && Terminated(f, p) && Edge(f, p, t)
  }

  ghost predicate Collected(f: seq<Block>, n: nat, avail: map<nat, Reg>, targets: set<nat>) {
    && n <= |f|
    && (forall p: nat {:trigger p in avail} :: p in avail <==> p < n && f[p].jump.Through?)
    && (forall p: nat {:trigger p in avail} :: p in avail ==> p < |f| && avail[p] == f[p].jump.reg)
    && (forall t: nat {:trigger t in targets} :: t in targets <==> Reached(f, n, t))
    && (forall b: nat :: b < n ==> !BadJump(f, b))
  }

  lemma ReachedStep(f: seq<Block>, n: nat, t: nat)
    requires n < |f|
    ensures Reached(f, n + 1, t) <==> Reached(f, n, t) || (Terminated(f, n) && Edge(f, n, t))
  {
    if Reached(f, n + 1, t) {
      var p: nat :| p < n + 1 && Terminated(f, p) && Edge(f, p, t);
      assert p < n || p == n;
    }
  }

  lemma CollectedStep(f: seq<Block>, n: nat, avail: map<nat, Reg>, targets: set<nat>, avail': map<nat, Reg>, targets': set<nat>)
    requires n < |f| && Collected(f, n, avail, targets) && !BadJump(f, n)
    requires f[n].jump.Through? ==> avail' == avail[n := f[n].jump.reg] && targets' == targets + set s | s in f[n].succs
    requires !f[n].jump.Through? ==> avail' == avail && targets' == targets
    ensures Collected(f, n + 1, avail', targets')
  {
    forall t: nat ensures t in targets' <==> Reached(f, n + 1, t) {
      ReachedStep(f, n, t);
      assert t in targets <==> Reached(f, n, t);
    }
  }

  /** The first walk: the blocks with an indirect jump and all their successors. */
  method CollectJumps(f: seq<Block>) returns (faults: seq<Fault>, avail: map<nat, Reg>, targets: set<nat>)
    requires WellFormed(f)
    ensures |faults| <= 1 && (faults != [] ==> Blames(f, faults[0]))
    ensures faults == [] ==> Collected(f, |f|, avail, targets)
  {
    avail, targets, faults := map[], {}, [];
    for b := 0 to |f|
      invariant Collected(f, b, avail, targets)
    {
      ghost var avail0, targets0 := avail, targets;
      var (found, reg, fs) := Scan(f[b], b);
      if fs != [] { return fs, avail, targets; }
      if found {
        avail := avail[b := reg];
        targets := targets + set s | s in f[b].succs;
      }
      CollectedStep(f, b, avail0, targets0, avail, targets);
    }
  }

  /** Every successor of `p` is `t` or an exception-handling pad. */
  method OnlySuccessor(f: seq<Block>, p: nat, t: nat) returns (only: bool)
    requires WellFormed(f) && Edge(f, p, t) && !Terminated(f, p)
    ensures only <==> !Conditional(f, t, p)
  {
    for i := 0 to |f[p].succs|
      invariant forall j: nat | j < i :: f[p].succs[j] < |f| && (f[f[p].succs[j]].ehPad || f[p].succs[j] == t)
    {
      var s := f[p].succs[i];
      assert Edge(f, p, s) && BackEdge(f, p, s);
      if !(f[s].ehPad || s == t) {
        return false;
      }
    }
    return true;
  }

  ghost predicate Untouched(f: seq<Block>, t: nat, p: nat) { Edge(f, p, t) ==> Terminated(f, p) }

  /** Only direct predecessors of `t` were given something new to carry. */
  ghost predicate ChangedFor(f: seq<Block>, t: nat, before: Plan, after: Plan) {
    && |before.movs| == |after.movs| == |f|
    && (forall p: nat {:trigger Untouched(f, t, p)} | p < |f| && Untouched(f, t, p) ::
          before.movs[p] == after.movs[p] && (p in before.avail <==> p in after.avail)
          && (p in before.avail ==> before.avail[p] == after.avail[p]))
  }

  ghost predicate JumpsCarry(f: seq<Block>, plan: Plan) {
    && |plan.movs| == |f|
    && (forall p: nat {:trigger Terminated(f, p)} :: Terminated(f, p) ==> p in plan.avail && plan.avail[p] == f[p].jump.reg && plan.movs[p] == [])
  }

  /** Puts a move of `t`'s address at the bottom of `p`, into the next register. */
  function GiveAddress(plan: Plan, p: nat, t: nat): (r: Plan)
    requires p < |plan.movs|
    ensures |r.movs| == |plan.movs| && Delivers(r.movs[p], plan.next, t) && r.avail == plan.avail[p := plan.next]
  {
    var r := plan.(movs := plan.movs[p := plan.movs[p] + [Mov(plan.next, t)]], avail := plan.avail[p := plan.next], next := plan.next + 1);
    assert r.movs[p][|plan.movs[p]|] == Mov(plan.next, t);
    r
  }

  lemma GiveAddressKeeps(f: seq<Block>, first: Reg, plan: Plan, p: nat, t: nat)
    requires |plan.movs| == |f| && FreshMovs(plan, first) && first <= plan.next
    requires Edge(f, p, t) && !Terminated(f, p)
    requires JumpsCarry(f, plan)
    ensures var r := GiveAddress(plan, p, t);
      FreshMovs(r, first) && ChangedFor(f, t, plan, r) && JumpsCarry(f, r) && Carries(f, r, p, t)
  {
  }

  lemma ChangedTwice(f: seq<Block>, t: nat, a: Plan, b: Plan, c: Plan)
    requires ChangedFor(f, t, a, b) && ChangedFor(f, t, b, c)
    ensures ChangedFor(f, t, a, c)
  {
  }

  lemma CarriesElsewhere(f: seq<Block>, plan: Plan, q: nat, p: nat, t: nat)
    requires |plan.movs| == |f| && q < |f| && p < |f| && q != p && Carries(f, plan, q, t)
    ensures Carries(f, GiveAddress(plan, p, t), q, t)
  {
  }

  /** Every predecessor of `t` is given its address to carry, or a fault stops the pass. */
  method InstrumentTarget(f: seq<Block>, t: nat, first: Reg, before: Plan) returns (faults: seq<Fault>, plan: Plan)
    requires WellFormed(f) && t < |f| && Target(f, t)
    requires JumpsCarry(f, before) && FreshMovs(before, first) && first <= before.next
    ensures |faults| <= 1 && (faults != [] ==> Blames(f, faults[0]))
    ensures ChangedFor(f, t, before, plan) && JumpsCarry(f, plan) && FreshMovs(plan, first) && first <= plan.next
    ensures faults == [] ==> !BadTarget(f, t) && Handled(f, plan, t)
    ensures plan.checked == before.checked
  {
    plan, faults := before, [];
    if f[t].ehPad { return [EhPadTarget(t)], plan; }
    if f[t].flagsLiveIn { return [FlagsLiveIn(t)], plan; }
    var preds := f[t].preds;
    for i := 0 to |preds|
      invariant ChangedFor(f, t, before, plan) && JumpsCarry(f, plan) && FreshMovs(plan, first) && first <= plan.next
      invariant plan.checked == before.checked
      invariant forall j: nat :: j < i ==> preds[j] < |f| && Edge(f, preds[j], t) && Carries(f, plan, preds[j], t) && !Conditional(f, t, preds[j])
    {
      var p := preds[i];
      assert BackEdge(f, p, t) && Edge(f, p, t);
      assert f[p].jump.Through? <==> Terminated(f, p);
      if !f[p].jump.Through? {
        var only := OnlySuccessor(f, p, t);
        if !only { return [ConditionalEntry(t, p)], plan; }
        ghost var was := plan;
        plan := GiveAddress(plan, p, t);
        GiveAddressKeeps(f, first, was, p, t);
        ChangedTwice(f, t, before, was, plan);
        forall j: nat | j < i ensures Carries(f, plan, preds[j], t) {
          if preds[j] != p { CarriesElsewhere(f, was, preds[j], p, t); }
        }
      }
    }
    forall p: nat | Edge(f, p, t) ensures Carries(f, plan, p, t) && !Conditional(f, t, p) {
      assert BackEdge(f, p, t);
    }
  }

  /** A direct predecessor that is not conditional serves one target only. */
  lemma OneTarget(f: seq<Block>, p: nat, t: nat, other: nat)
    requires Edge(f, p, t) && Edge(f, p, other) && !Terminated(f, p) && other < |f|
    requires !Conditional(f, t, p) && !f[other].ehPad
    ensures other == t
  {
  }

  lemma StillHandled(f: seq<Block>, before: Plan, after: Plan, t: nat, other: nat)
    requires WellFormed(f) && ChangedFor(f, t, before, after) && t < |f| && other < |f| && Target(f, t)
    requires !BadTarget(f, t) && !f[other].ehPad && other != t
    requires Handled(f, before, other)
    ensures Handled(f, after, other)
  {
    forall p: nat | Edge(f, p, other) ensures Carries(f, after, p, other) {
      assert Carries(f, before, p, other);
      if !Untouched(f, t, p) {
        assert !Conditional(f, t, p);
        OneTarget(f, p, t, other);
      }
    }
  }

  ghost predicate Walked(f: seq<Block>, n: nat, plan: Plan)
  {
    && |plan.movs| == |f|
    && (forall t: nat {:trigger Target(f, t)} {:trigger t in plan.checked} :: t in plan.checked <==> t < n && Target(f, t))
    && (forall t: nat {:trigger Target(f, t)} :: t < n && t < |f| && Target(f, t) ==> !BadTarget(f, t) && Handled(f, plan, t))
  }

  lemma SameHandled(f: seq<Block>, plan: Plan, checked: seq<nat>, t: nat)
    requires |plan.movs| == |f| && Handled(f, plan, t)
    ensures Handled(f, plan.(checked := checked), t)
  {
    var q := plan.(checked := checked);
    forall p: nat | Edge(f, p, t) ensures Carries(f, q, p, t) { assert Carries(f, plan, p, t); }
  }

  lemma WalkedStep(f: seq<Block>, t: nat, was: Plan, plan: Plan)
    requires WellFormed(f) && t < |f| && Target(f, t) && Walked(f, t, was) && ChangedFor(f, t, was, plan)
    requires plan.checked == was.checked && !BadTarget(f, t) && Handled(f, plan, t)
    ensures Walked(f, t + 1, plan.(checked := plan.checked + [t]))
  {
    var r := plan.(checked := plan.checked + [t]);
    forall o: nat | o < t + 1 && Target(f, o) ensures !BadTarget(f, o) && Handled(f, r, o) {
      if o < t {
        StillHandled(f, was, plan, t, o);
      }
      SameHandled(f, plan, plan.checked + [t], o);
    }
    forall o: nat ensures o in r.checked <==> o < t + 1 && Target(f, o) {
      assert o in was.checked <==> o < t && Target(f, o);
    }
  }

  lemma StartPlan(f: seq<Block>, first: Reg, plan: Plan, targets: set<nat>)
    requires Collected(f, |f|, plan.avail, targets)
    requires plan.movs == seq(|f|, _ => []) && plan.checked == [] && plan.next == first
    ensures JumpsCarry(f, plan) && FreshMovs(plan, first) && Walked(f, 0, plan)
    ensures forall t: nat {:trigger t in targets} :: t in targets <==> Target(f, t)
  {
    forall t: nat ensures t in targets <==> Target(f, t) {
      assert t in targets <==> Reached(f, |f|, t);
    }
    forall p: nat | Terminated(f, p) ensures p in plan.avail && plan.avail[p] == f[p].jump.reg {
      assert p in plan.avail;
    }
  }

  lemma WalkedAll(f: seq<Block>, plan: Plan)
    requires WellFormed(f) && Walked(f, |f|, plan) && forall b: nat | b < |f| :: !BadJump(f, b)
    ensures Supported(f)
    ensures forall t: nat {:trigger Target(f, t)} :: t in plan.checked <==> t < |f| && Target(f, t)
    ensures forall t: nat {:trigger Target(f, t)} :: t < |f| && Target(f, t) ==> Handled(f, plan, t)
  {
    forall t: nat ensures !BadTarget(f, t) {
      if t < |f| && Target(f, t) { assert !BadTarget(f, t); }
    }
  }

  /**
   The whole step.  It succeeds exactly on supported functions, checks exactly the targets of
   indirect jumps, and every predecessor of a target carries the right thing.
   */
  method TraceThroughIndirectBranches(f: seq<Block>, first: Reg) returns (r: Result)
    requires WellFormed(f) && Registers(f, first)
    ensures r.Ok? <==> Supported(f)
    ensures r.Ok? ==> GoodPlan(f, first, r.plan)
    ensures r.Err? ==> Blames(f, r.fault)
  {
    var faults, avail, targets := CollectJumps(f);
    if faults != [] {
      BlamedUnsupported(f, faults[0]);
      return Err(faults[0]);
    }
    var plan := Plan(seq(|f|, _ => []), avail, [], first);
    StartPlan(f, first, plan, targets);
    for t := 0 to |f|
      invariant JumpsCarry(f, plan) && FreshMovs(plan, first) && first <= plan.next
      invariant Walked(f, t, plan)
    {
      if t in targets {
        ghost var was := plan;
        faults, plan := InstrumentTarget(f, t, first, plan);
        if faults != [] {
          BlamedUnsupported(f, faults[0]);
          return Err(faults[0]);
        }
        WalkedStep(f, t, was, plan);
        plan := plan.(checked := plan.checked + [t]);
      }
    }
    WalkedAll(f, plan);
    return Ok(plan);
  }

  // ----- running the result -----

  /** Outside the model: what a block's body does to the registers, and where blocks lie. */
  datatype Env = Env(body: (nat, nat, Regs) -> Regs, address: nat -> Word)

  /** As much of the machine state as this step looks at. */
  datatype Snapshot = Snapshot(regs: Regs, ps: Word)

  function RunMovs(env: Env, movs: seq<Mov>, regs: Regs): Regs {
    if movs == [] then regs
    else
      var m := movs[0];
      RunMovs(env, movs[1..], (r: Reg) => if r == m.dst then env.address(m.of) else regs(r))
  }

  /** The registers at the end of block `b`, executed as the `n`th block of the run. */
  function AtEnd(env: Env, plan: Plan, n: nat, b: nat, regs: Regs): Regs {
    RunMovs(env, if b < |plan.movs| then plan.movs[b] else [], env.body(n, b, regs))
  }

  /** Entering `t` from `p`: the PHI picks `p`'s register, CMP and CMOVNE update the state. */
  function Enter(env: Env, plan: Plan, p: nat, t: nat, s: Snapshot): Snapshot {
    if t in plan.checked && p in plan.avail && s.regs(plan.avail[p]) != env.address(t) then Snapshot(s.regs, POISON) else s
  }

  ghost predicate Path(f: seq<Block>, path: seq<nat>) {
    && (forall i: nat | i < |path| :: path[i] < |f|)
    && (forall i: nat | i + 1 < |path| :: path[i + 1] in f[path[i]].succs)
  }

  /** The state after the first `n` moves along a path, predicted rightly or wrongly. */
  ghost function RunTo(env: Env, plan: Plan, path: seq<nat>, n: nat, s: Snapshot): Snapshot
    requires n < |path|
  {
    if n == 0 then s
    else
      var before := RunTo(env, plan, path, n - 1, s);
      Enter(env, plan, path[n - 1], path[n], Snapshot(AtEnd(env, plan, n - 1, path[n - 1], before.regs), before.ps))
  }

  /** The `n`th move goes through an indirect jump whose register holds another address. */
  ghost predicate Mispredicted(f: seq<Block>, env: Env, plan: Plan, path: seq<nat>, n: nat, s: Snapshot)
    requires n + 1 < |path|
  {
    && path[n] < |f| && f[path[n]].jump.Through?
    && env.body(n, path[n], RunTo(env, plan, path, n, s).regs)(f[path[n]].jump.reg) != env.address(path[n + 1])
  }

  lemma {:induction false} RunMovsOther(env: Env, movs: seq<Mov>, regs: Regs, r: Reg)
    requires forall i: nat | i < |movs| :: movs[i].dst != r
    ensures RunMovs(env, movs, regs)(r) == regs(r)
  {
    if movs != [] {
      var m := movs[0];
      RunMovsOther(env, movs[1..], (q: Reg) => if q == m.dst then env.address(m.of) else regs(q), r);
    }
  }

  lemma {:induction false} RunMovsDelivers(env: Env, movs: seq<Mov>, regs: Regs, r: Reg, t: nat)
    requires Delivers(movs, r, t)
    ensures RunMovs(env, movs, regs)(r) == env.address(t)
  {
    var i: nat :| i < |movs| && movs[i] == Mov(r, t) && forall j: nat :: i < j < |movs| ==> movs[j].dst != r;
    var m := movs[0];
    var next := (q: Reg) => if q == m.dst then env.address(m.of) else regs(q);
    if i == 0 {
      RunMovsOther(env, movs[1..], next, r);
    } else {
      assert movs[1..][i - 1] == Mov(r, t);
      RunMovsDelivers(env, movs[1..], next, r, t);
    }
  }

  /**
   One entry: the state becomes all-ones iff it was or the block was reached through an
   indirect jump whose register held another address; a synthesized address never poisons.
   */
  lemma EntryExact(f: seq<Block>, first: Reg, env: Env, plan: Plan, p: nat, t: nat, n: nat, s: Snapshot)
    requires WellFormed(f) && GoodPlan(f, first, plan) && Edge(f, p, t)
    ensures t in plan.checked ==> p in plan.avail
    ensures
      var after := Enter(env, plan, p, t, Snapshot(AtEnd(env, plan, n, p, s.regs), s.ps));
      after.ps == if f[p].jump.Through? && env.body(n, p, s.regs)(f[p].jump.reg) != env.address(t) then POISON else s.ps
  {
    assert BackEdge(f, p, t);
    assert f[p].jump.Through? ==> Terminated(f, p) && Target(f, t);
    if t in plan.checked {
      assert Target(f, t) && Carries(f, plan, p, t);
      if !f[p].jump.Through? {
        RunMovsDelivers(env, plan.movs[p], env.body(n, p, s.regs), plan.avail[p], t);
      }
    }
  }

  ghost predicate EverMispredicted(f: seq<Block>, env: Env, plan: Plan, path: seq<nat>, n: nat, s: Snapshot)
    requires n < |path|
  {
    exists i: nat :: i < n && Mispredicted(f, env, plan, path, i, s)
  }

  lemma EverStep(f: seq<Block>, env: Env, plan: Plan, path: seq<nat>, n: nat, s: Snapshot)
    requires n + 1 < |path|
    ensures EverMispredicted(f, env, plan, path, n + 1, s) <==>
      EverMispredicted(f, env, plan, path, n, s) || Mispredicted(f, env, plan, path, n, s)
  {
    if EverMispredicted(f, env, plan, path, n + 1, s) {
      var i: nat :| i < n + 1 && Mispredicted(f, env, plan, path, i, s);
      assert i < n || i == n;
    }
  }

  /** One move of a run poisons the state iff it is mispredicted. */
  ghost predicate MoveExact(f: seq<Block>, env: Env, plan: Plan, path: seq<nat>, n: nat, s: Snapshot) {
    n + 1 < |path| ==>
      RunTo(env, plan, path, n + 1, s).ps == (if Mispredicted(f, env, plan, path, n, s) then POISON else RunTo(env, plan, path, n, s).ps)
  }

  lemma EveryMoveExact(f: seq<Block>, first: Reg, env: Env, plan: Plan, path: seq<nat>, n: nat, s: Snapshot)
    requires WellFormed(f) && GoodPlan(f, first, plan) && Path(f, path)
    ensures MoveExact(f, env, plan, path, n, s)
  {
    if n + 1 < |path| {
      assert Edge(f, path[n], path[n + 1]);
      EntryExact(f, first, env, plan, path[n], path[n + 1], n, RunTo(env, plan, path, n, s));
    }
  }

  lemma {:induction false} Accumulate(f: seq<Block>, env: Env, plan: Plan, path: seq<nat>, n: nat, s: Snapshot)
    requires n < |path| && forall k: nat :: MoveExact(f, env, plan, path, k, s)
    ensures RunTo(env, plan, path, n, s).ps == if EverMispredicted(f, env, plan, path, n, s) then POISON else s.ps
  {
    if n > 0 {
      Accumulate(f, env, plan, path, n - 1, s);
      EverStep(f, env, plan, path, n - 1, s);
      assert MoveExact(f, env, plan, path, n - 1, s);
    }
  }

  /** Whole runs: poisoned iff it started so or some indirect jump went to another address. */
  lemma IndirectExact(f: seq<Block>, first: Reg, env: Env, plan: Plan, path: seq<nat>, n: nat, s: Snapshot)
    requires WellFormed(f) && GoodPlan(f, first, plan) && Path(f, path) && n < |path|
    ensures RunTo(env, plan, path, n, s).ps == if EverMispredicted(f, env, plan, path, n, s) then POISON else s.ps
  {
    forall k: nat ensures MoveExact(f, env, plan, path, k, s) { EveryMoveExact(f, first, env, plan, path, k, s); }
    Accumulate(f, env, plan, path, n, s);
  }
}
