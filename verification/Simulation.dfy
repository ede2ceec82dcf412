/**
 When replacing one block body, or renaming one register, preserves every unpoisoned run.
 */
module Simulation {
  import opened Options
  import opened Machine
  import opened Liveness

  // ----- registers a function mentions -----

  function AddrRegs(a: Addr): set<Reg> {
    (if a.base.BaseReg? then {a.base.reg} else {}) + (if a.index.Some? then {a.index.value} else {})
  }

  function UsedRegs(i: Instr): set<Reg> {
    match i
    case Op(_, _, srcs, mem, _, _, _, _) =>
      (set j | 0 <= j < |srcs| :: srcs[j]) + (if mem.Some? then AddrRegs(mem.value) else {})
    case MaskOr(_, s) => {s}
    case MaskShr(_, s) => {s}
    case RestoreFlags(s) => {s}
    case _ => {}
  }

  function DefRegs(i: Instr): set<Reg> {
    match i
    case Op(dst, _, _, _, _, _, _, _) => if dst.Some? then {dst.value} else {}
    case MaskOr(d, _) => {d}
    case MaskShr(d, _) => {d}
    case SaveFlags(d) => {d}
    case _ => {}
  }

  ghost predicate Below(i: Instr, n: nat) {
    (forall r :: r in UsedRegs(i) ==> r < n) && (forall r :: r in DefRegs(i) ==> r < n)
  }

  ghost predicate BodyBelow(body: seq<Instr>, n: nat) { forall k :: 0 <= k < |body| ==> Below(body[k], n) }

  ghost predicate PhiBelow(p: Phi, n: nat) {
    p.dst < n && forall k :: 0 <= k < |p.entries| ==> p.entries[k].0 < n
  }

  ghost predicate BlockBelow(b: Block, n: nat) {
    BodyBelow(b.body, n) && forall k :: 0 <= k < |b.phis| ==> PhiBelow(b.phis[k], n)
  }

  ghost predicate FuncBelow(f: Func, n: nat) {
    forall b {:trigger BlockBelow(f.blocks[b], n)} :: b in f.blocks ==> BlockBelow(f.blocks[b], n)
  }

  // ----- agreement -----

  type Renaming = map<Reg, Reg>

  function Ren(m: Renaming, r: Reg): Reg { if r in m then m[r] else r }

  ghost predicate RegsAgree(n: nat, m: Renaming, p: map<Reg, Word>, q: map<Reg, Word>) {
    forall r: Reg {:trigger Get(p, r, 0)} :: r < n ==> Get(p, r, 0) == Get(q, Ren(m, r), 0)
  }

  ghost predicate FlagRegsAgree(n: nat, p: map<Reg, Flags>, q: map<Reg, Flags>) {
    forall r: Reg {:trigger Get(p, r, NO_FLAGS)} :: r < n ==> Get(p, r, NO_FLAGS) == Get(q, r, NO_FLAGS)
  }

  /** Same memory and predicate state, same registers below `n` up to renaming, same flags when live. */
  ghost predicate Agree(n: nat, m: Renaming, live: bool, s: State, t: State) {
    && RegsAgree(n, m, s.regs, t.regs) && FlagRegsAgree(n, s.fregs, t.fregs)
    && s.mem == t.mem && s.ps == t.ps
    && (live ==> s.flags == t.flags)
  }

  /** Unpoisoned runs of `f` from agreeing configurations are runs of `g`, to agreeing ones. */
  ghost predicate Simulates(env: Env, f: Func, g: Func, n: nat, m: Renaming) {
    && f.blocks.Keys == g.blocks.Keys
    && (forall b :: b in f.blocks ==> f.blocks[b].flagsLiveIn == g.blocks[b].flagsLiveIn)
    && forall c: Config, t: State, exits: seq<nat> {:trigger Follows(env, f, g, n, m, c, t, exits)} ::
         Follows(env, f, g, n, m, c, t, exits)
  }

  ghost predicate Follows(env: Env, f: Func, g: Func, n: nat, m: Renaming, c: Config, t: State, exits: seq<nat>) {
    && c.at in f.blocks && Agree(n, m, f.blocks[c.at].flagsLiveIn, c.st, t)
    && Run(env, f, c, exits).Some? && Run(env, f, c, exits).value.st.ps == 0
    ==> Arrives(env, f, g, n, m, Run(env, f, c, exits).value, Run(env, g, Config(c.at, t), exits))
  }

  ghost predicate Arrives(env: Env, f: Func, g: Func, n: nat, m: Renaming, d: Config, r: Option<Config>) {
    && d.at in f.blocks && r.Some? && r.value.at == d.at
    && Agree(n, m, f.blocks[d.at].flagsLiveIn, d.st, r.value.st)
  }

  // ----- the predicate state only ever becomes poison -----

  lemma {:induction false} StateMonotone(env: Env, body: seq<Instr>, s: State)
    requires Exec(env, body, s).ps == 0
    ensures s.ps == 0
    decreases |body|
  {
    if body != [] {
      StateMonotone(env, body[1..], Step(env, body[0], s));
      assert POISON != 0;
    }
  }

  lemma {:induction false} RunMonotone(env: Env, f: Func, c: Config, exits: seq<nat>)
    requires Run(env, f, c, exits).Some? && Run(env, f, c, exits).value.st.ps == 0
    ensures c.st.ps == 0
    decreases |exits|
  {
    if exits != [] {
      RunMonotone(env, f, Move(env, f, c, exits[0]).value, exits[1..]);
      StateMonotone(env, f.blocks[c.at].body, c.st);
    }
  }

  // ----- the same code on agreeing states -----

  function RenAddr(m: Renaming, a: Addr): Addr {
    a.(base := if a.base.BaseReg? then BaseReg(Ren(m, a.base.reg)) else a.base,
       index := if a.index.Some? then Some(Ren(m, a.index.value)) else None)
  }

  function RenRegs(m: Renaming, rs: seq<Reg>): (qs: seq<Reg>)
    ensures |qs| == |rs|
    ensures forall k :: 0 <= k < |rs| ==> qs[k] == Ren(m, rs[k])
  {
    seq(|rs|, k requires 0 <= k < |rs| => Ren(m, rs[k]))
  }

  /** Rename every general register of an instruction, used or defined. */
  function RenInstr(m: Renaming, i: Instr): Instr {
    match i
    case Op(dst, opc, srcs, mem, stores, rf, kills, fdef) =>
      Op(if dst.Some? then Some(Ren(m, dst.value)) else None, opc, RenRegs(m, srcs),
         if mem.Some? then Some(RenAddr(m, mem.value)) else None, stores, rf, kills, fdef)
    case MaskOr(d, s) => MaskOr(Ren(m, d), Ren(m, s))
    case MaskShr(d, s) => MaskShr(Ren(m, d), Ren(m, s))
    case _ => i
  }

  /** A renaming that keeps the registers below `n` apart. */
  ghost predicate Injective(m: Renaming, n: nat) {
    forall q: Reg, r: Reg :: q < n && r < n && Ren(m, q) == Ren(m, r) ==> q == r
  }

  lemma InputsAgree(env: Env, n: nat, m: Renaming, live: bool, i: Instr, s: State, t: State)
    requires i.Op? && Below(i, n) && Agree(n, m, live, s, t)
    ensures Inputs(env, RenInstr(m, i), t) == Inputs(env, i, s)
    ensures i.mem.Some? ==> EffAddr(env, t, RenAddr(m, i.mem.value)) == EffAddr(env, s, i.mem.value)
  {
    forall k | 0 <= k < |i.srcs| ensures RegVal(t, RenRegs(m, i.srcs)[k]) == RegVal(s, i.srcs[k]) {
      assert i.srcs[k] in UsedRegs(i);
      assert Get(s.regs, i.srcs[k], 0) == Get(t.regs, Ren(m, i.srcs[k]), 0);
    }
    assert Vals(t, RenRegs(m, i.srcs)) == Vals(s, i.srcs);
    if i.mem.Some? {
      assert AddrRegs(i.mem.value) <= UsedRegs(i);
      AddrAgree(env, n, m, live, i.mem.value, s, t);
    }
  }

  lemma AddrAgree(env: Env, n: nat, m: Renaming, live: bool, a: Addr, s: State, t: State)
    requires (forall r :: r in AddrRegs(a) ==> r < n) && Agree(n, m, live, s, t)
    ensures EffAddr(env, t, RenAddr(m, a)) == EffAddr(env, s, a)
  {
    if a.base.BaseReg? { assert a.base.reg in AddrRegs(a); }
    if a.index.Some? { assert a.index.value in AddrRegs(a); }
  }

  lemma WriteOne(p: map<Reg, Word>, q: map<Reg, Word>, d: Reg, d': Reg, v: Word, r: Reg, r': Reg)
    requires Get(p, r, 0) == Get(q, r', 0) && (d == r <==> d' == r')
    ensures Get(p[d := v], r, 0) == Get(q[d' := v], r', 0)
  {
  }

  lemma WriteAgree(n: nat, m: Renaming, p: map<Reg, Word>, q: map<Reg, Word>, d: Reg, v: Word)
    requires RegsAgree(n, m, p, q) && Injective(m, n) && d < n
    ensures RegsAgree(n, m, p[d := v], q[Ren(m, d) := v])
  {
    forall r: Reg | r < n ensures Get(p[d := v], r, 0) == Get(q[Ren(m, d) := v], Ren(m, r), 0) {
      assert Get(p, r, 0) == Get(q, Ren(m, r), 0);
      WriteOne(p, q, d, Ren(m, d), v, r, Ren(m, r));
    }
  }

  lemma OpRegsAgree(env: Env, n: nat, m: Renaming, i: Instr, s: State, t: State)
    requires i.Op? && Below(i, n) && RegsAgree(n, m, s.regs, t.regs) && Injective(m, n)
    requires Inputs(env, RenInstr(m, i), t) == Inputs(env, i, s) && (i.readsFlags ==> s.flags == t.flags)
    ensures RegsAgree(n, m, StepOp(env, i, s).regs, StepOp(env, RenInstr(m, i), t).regs)
  {
    var fl := if i.readsFlags then s.flags else NO_FLAGS;
    if i.dst.Some? {
      assert i.dst.value in DefRegs(i);
      WriteAgree(n, m, s.regs, t.regs, i.dst.value, env.val(i.opc, Inputs(env, i, s), fl));
    }
  }

  lemma OpAgree(env: Env, n: nat, m: Renaming, live: bool, i: Instr, s: State, t: State)
    requires i.Op? && Below(i, n) && Agree(n, m, live, s, t) && Injective(m, n) && (Reads(i) ==> live)
    ensures Agree(n, m, LiveAfter(i, live), StepOp(env, i, s), StepOp(env, RenInstr(m, i), t))
  {
    InputsAgree(env, n, m, live, i, s, t);
    OpRegsAgree(env, n, m, i, s, t);
  }

  lemma MaskAgree(env: Env, n: nat, m: Renaming, live: bool, i: Instr, s: State, t: State)
    requires (i.MaskOr? || i.MaskShr?) && Below(i, n) && Agree(n, m, live, s, t) && Injective(m, n)
    ensures Agree(n, m, LiveAfter(i, live), StepMask(env, i, s), StepMask(env, RenInstr(m, i), t))
  {
    assert i.mdst in DefRegs(i) && i.msrc in UsedRegs(i);
    assert Get(s.regs, i.msrc, 0) == Get(t.regs, Ren(m, i.msrc), 0);
    var v := if i.MaskOr? then OrMask(s.ps, RegVal(s, i.msrc)) else ShrMask(s.ps, RegVal(s, i.msrc));
    WriteAgree(n, m, s.regs, t.regs, i.mdst, v);
  }

  lemma FlagCopyAgree(env: Env, n: nat, m: Renaming, live: bool, i: Instr, s: State, t: State)
    requires (i.SaveFlags? || i.RestoreFlags?) && Below(i, n) && Agree(n, m, live, s, t) && (Reads(i) ==> live)
    ensures Agree(n, m, LiveAfter(i, live), Step(env, i, s), Step(env, RenInstr(m, i), t))
  {
    if i.SaveFlags? {
      var p, q := s.fregs[i.fdst := s.flags], t.fregs[i.fdst := t.flags];
      forall r: Reg | r < n ensures Get(p, r, NO_FLAGS) == Get(q, r, NO_FLAGS) {
        assert Get(s.fregs, r, NO_FLAGS) == Get(t.fregs, r, NO_FLAGS);
      }
    } else {
      assert i.fsrc in UsedRegs(i);
    }
  }

  lemma StepAgree(env: Env, n: nat, m: Renaming, live: bool, i: Instr, s: State, t: State)
    requires Below(i, n) && Agree(n, m, live, s, t) && Injective(m, n) && (Reads(i) ==> live)
    ensures Agree(n, m, LiveAfter(i, live), Step(env, i, s), Step(env, RenInstr(m, i), t))
  {
    if i.Op? { OpAgree(env, n, m, live, i, s, t); }
    else if i.MaskOr? || i.MaskShr? { MaskAgree(env, n, m, live, i, s, t); }
    else if i.SaveFlags? || i.RestoreFlags? { FlagCopyAgree(env, n, m, live, i, s, t); }
  }

  function RenBody(m: Renaming, body: seq<Instr>): (r: seq<Instr>)
    ensures |r| == |body|
    ensures forall k :: 0 <= k < |body| ==> r[k] == RenInstr(m, body[k])
  {
    seq(|body|, k requires 0 <= k < |body| => RenInstr(m, body[k]))
  }

  lemma {:induction false} ExecAgree(env: Env, n: nat, m: Renaming, live: bool, body: seq<Instr>, s: State, t: State)
    requires BodyBelow(body, n) && Agree(n, m, live, s, t) && Injective(m, n) && LiveOk(body, live)
    ensures Agree(n, m, LiveEnd(body, live), Exec(env, body, s), Exec(env, RenBody(m, body), t))
    decreases |body|
  {
    if body != [] {
      StepAgree(env, n, m, live, body[0], s, t);
      assert RenBody(m, body)[1..] == RenBody(m, body[1..]);
      ExecAgree(env, n, m, LiveAfter(body[0], live), body[1..],
                Step(env, body[0], s), Step(env, RenInstr(m, body[0]), t));
    }
  }

  lemma RenIdentity(body: seq<Instr>)
    ensures RenBody(map[], body) == body
  {
    forall k | 0 <= k < |body| ensures RenInstr(map[], body[k]) == body[k] {
      var i := body[k];
      if i.Op? { assert RenRegs(map[], i.srcs) == i.srcs; }
    }
  }

  // ----- entering a block -----

  function RenPhi(m: Renaming, p: Phi): (q: Phi)
    ensures |q.entries| == |p.entries|
  {
    Phi(Ren(m, p.dst), seq(|p.entries|, k requires 0 <= k < |p.entries| => (Ren(m, p.entries[k].0), p.entries[k].1)))
  }

  function RenPhis(m: Renaming, ps: seq<Phi>): (qs: seq<Phi>)
    ensures |qs| == |ps|
    ensures forall k :: 0 <= k < |ps| ==> qs[k] == RenPhi(m, ps[k])
  {
    seq(|ps|, k requires 0 <= k < |ps| => RenPhi(m, ps[k]))
  }

  lemma {:induction false} LookupRen(m: Renaming, es: seq<(Reg, BlockId)>, qs: seq<(Reg, BlockId)>, from: BlockId, n: nat)
    requires |qs| == |es| && forall k :: 0 <= k < |es| ==> qs[k] == (Ren(m, es[k].0), es[k].1)
    requires forall k :: 0 <= k < |es| ==> es[k].0 < n
    ensures Lookup(qs, from) == if Lookup(es, from).Some? then Some(Ren(m, Lookup(es, from).value)) else None
    ensures Lookup(es, from).Some? ==> Lookup(es, from).value < n
    decreases |es|
  {
    if es != [] && es[0].1 != from { LookupRen(m, es[1..], qs[1..], from, n); }
  }

  lemma {:induction false} PhisAgree(n: nat, m: Renaming, ps: seq<Phi>, from: BlockId, s: State, t: State)
    requires RegsAgree(n, m, s.regs, t.regs) && Injective(m, n)
    requires forall k :: 0 <= k < |ps| ==> PhiBelow(ps[k], n)
    ensures RegsAgree(n, m, PhiRegs(ps, from, s), PhiRegs(RenPhis(m, ps), from, t))
    decreases |ps|
  {
    if ps != [] {
      var init, last := ps[..|ps| - 1], ps[|ps| - 1];
      PhisAgree(n, m, init, from, s, t);
      assert RenPhis(m, ps)[..|ps| - 1] == RenPhis(m, init);
      LookupRen(m, last.entries, RenPhi(m, last).entries, from, n);
      var src := Lookup(last.entries, from);
      var v := if src.Some? then RegVal(s, src.value) else 0;
      if src.Some? { assert Get(s.regs, src.value, 0) == Get(t.regs, Ren(m, src.value), 0); }
      WriteAgree(n, m, PhiRegs(init, from, s), PhiRegs(RenPhis(m, init), from, t), last.dst, v);
    }
  }

  // ----- block by block -----

  /** The two bodies take agreeing states to agreeing states, as long as nothing is poisoned. */
  ghost predicate BodySim(env: Env, n: nat, m: Renaming, live: bool, body: seq<Instr>, body': seq<Instr>) {
    forall s: State, t: State {:trigger Agree(n, m, live, s, t)} ::
      Agree(n, m, live, s, t) && Exec(env, body, s).ps == 0 ==>
        Agree(n, m, LiveEnd(body, live), Exec(env, body, s), Exec(env, body', t))
  }

  /** Same control flow; PHIs renamed; bodies related. */
  ghost predicate Matches(env: Env, f: Func, g: Func, n: nat, m: Renaming, b: BlockId)
    requires b in f.blocks && b in g.blocks
  {
    && g.blocks[b].terms == f.blocks[b].terms
    && g.blocks[b].flagsLiveIn == f.blocks[b].flagsLiveIn
    && g.blocks[b].phis == RenPhis(m, f.blocks[b].phis)
    && BodySim(env, n, m, f.blocks[b].flagsLiveIn, f.blocks[b].body, g.blocks[b].body)
  }

  ghost predicate MatchesAll(env: Env, f: Func, g: Func, n: nat, m: Renaming) {
    && f.layout == g.layout && f.blocks.Keys == g.blocks.Keys
    && forall b {:trigger Matches(env, f, g, n, m, b)} :: b in f.blocks ==> Matches(env, f, g, n, m, b)
  }

  lemma MoveAgree(env: Env, f: Func, g: Func, n: nat, m: Renaming, c: Config, t: State, e: nat)
    requires MatchesAll(env, f, g, n, m) && Injective(m, n) && FuncBelow(f, n) && LiveFunc(f)
    requires c.at in f.blocks && Agree(n, m, f.blocks[c.at].flagsLiveIn, c.st, t)
    requires Move(env, f, c, e).Some? && Move(env, f, c, e).value.st.ps == 0
    ensures var d := Move(env, f, c, e).value;
            Arrives(env, f, g, n, m, d, Move(env, g, Config(c.at, t), e))
  {
    var b := c.at;
    var x := Target(f, b, e).value;
    assert Matches(env, f, g, n, m, b) && Matches(env, f, g, n, m, x) && LiveBlock(f, b);
    assert BlockBelow(f.blocks[x], n);
    assert Target(g, b, e) == Target(f, b, e);
    var s1, t1 := Exec(env, f.blocks[b].body, c.st), Exec(env, g.blocks[b].body, t);
    assert Agree(n, m, LiveEnd(f.blocks[b].body, f.blocks[b].flagsLiveIn), s1, t1);
    PhisAgree(n, m, f.blocks[x].phis, b, s1, t1);
    assert WantsFlags(f, Target(f, b, e)) == f.blocks[x].flagsLiveIn;
  }

  lemma {:induction false} RunAgree(env: Env, f: Func, g: Func, n: nat, m: Renaming, c: Config, t: State, exits: seq<nat>)
    requires MatchesAll(env, f, g, n, m) && Injective(m, n) && FuncBelow(f, n) && LiveFunc(f)
    requires c.at in f.blocks && Agree(n, m, f.blocks[c.at].flagsLiveIn, c.st, t)
    requires Run(env, f, c, exits).Some? && Run(env, f, c, exits).value.st.ps == 0
    ensures Arrives(env, f, g, n, m, Run(env, f, c, exits).value, Run(env, g, Config(c.at, t), exits))
    decreases |exits|
  {
    if exits != [] {
      var d := Move(env, f, c, exits[0]).value;
      RunMonotone(env, f, d, exits[1..]);
      MoveAgree(env, f, g, n, m, c, t, exits[0]);
      RunAgree(env, f, g, n, m, d, Move(env, g, Config(c.at, t), exits[0]).value.st, exits[1..]);
    }
  }

  /** Related blocks make simulating functions. */
  lemma BlockwiseSimulates(env: Env, f: Func, g: Func, n: nat, m: Renaming)
    requires MatchesAll(env, f, g, n, m) && Injective(m, n) && FuncBelow(f, n) && LiveFunc(f)
    ensures Simulates(env, f, g, n, m)
  {
    forall b | b in f.blocks ensures f.blocks[b].flagsLiveIn == g.blocks[b].flagsLiveIn {
      assert Matches(env, f, g, n, m, b);
    }
    forall c: Config, t: State, exits: seq<nat> ensures Follows(env, f, g, n, m, c, t, exits) {
      if c.at in f.blocks && Agree(n, m, f.blocks[c.at].flagsLiveIn, c.st, t)
         && Run(env, f, c, exits).Some? && Run(env, f, c, exits).value.st.ps == 0 {
        RunAgree(env, f, g, n, m, c, t, exits);
      }
    }
  }

  // ----- composing rewrites -----

  function Compose(m: Renaming, k: Renaming, n: nat): Renaming {
    map r: Reg | 0 <= r < n :: Ren(k, Ren(m, r))
  }

  /** The state in between: the last one read back through the second renaming. */
  function PullBack(k: Renaming, n: nat, t: State): State {
    t.(regs := map r: Reg | 0 <= r < n :: RegVal(t, Ren(k, r)))
  }

  lemma AgreeThrough(n: nat, m: Renaming, n': nat, k: Renaming, live: bool, s: State, t: State)
    requires n <= n' && (forall r: Reg :: r < n ==> Ren(m, r) < n')
    requires Agree(n, Compose(m, k, n), live, s, t)
    ensures Agree(n, m, live, s, PullBack(k, n', t)) && Agree(n', k, live, PullBack(k, n', t), t)
  {
    var p := PullBack(k, n', t);
    forall r: Reg | r < n ensures Get(s.regs, r, 0) == Get(p.regs, Ren(m, r), 0) {
      assert Get(s.regs, r, 0) == Get(t.regs, Ren(Compose(m, k, n), r), 0);
    }
  }

  lemma AgreeChain(n: nat, m: Renaming, n': nat, k: Renaming, live: bool, s: State, p: State, t: State)
    requires n <= n' && (forall r: Reg :: r < n ==> Ren(m, r) < n')
    requires Agree(n, m, live, s, p) && Agree(n', k, live, p, t)
    ensures Agree(n, Compose(m, k, n), live, s, t)
  {
    forall r: Reg | r < n ensures Get(s.regs, r, 0) == Get(t.regs, Ren(Compose(m, k, n), r), 0) {
      assert Get(p.regs, Ren(m, r), 0) == Get(t.regs, Ren(k, Ren(m, r)), 0);
    }
    forall r: Reg | r < n ensures Get(s.fregs, r, NO_FLAGS) == Get(t.fregs, r, NO_FLAGS) {
      assert Get(p.fregs, r, NO_FLAGS) == Get(t.fregs, r, NO_FLAGS);
    }
  }

  lemma FollowsChain(env: Env, f: Func, g: Func, h: Func, n: nat, m: Renaming, n': nat, k: Renaming,
                     c: Config, t: State, exits: seq<nat>)
    requires Simulates(env, f, g, n, m) && Simulates(env, g, h, n', k)
    requires n <= n' && (forall r: Reg :: r < n ==> Ren(m, r) < n')
    ensures Follows(env, f, h, n, Compose(m, k, n), c, t, exits)
  {
    if c.at in f.blocks && Agree(n, Compose(m, k, n), f.blocks[c.at].flagsLiveIn, c.st, t)
       && Run(env, f, c, exits).Some? && Run(env, f, c, exits).value.st.ps == 0 {
      var p := PullBack(k, n', t);
      AgreeThrough(n, m, n', k, f.blocks[c.at].flagsLiveIn, c.st, t);
      assert Follows(env, f, g, n, m, c, p, exits);
      assert Follows(env, g, h, n', k, Config(c.at, p), t, exits);
      var d := Run(env, f, c, exits).value;
      var d1 := Run(env, g, Config(c.at, p), exits).value;
      var d2 := Run(env, h, Config(c.at, t), exits).value;
      AgreeChain(n, m, n', k, f.blocks[d.at].flagsLiveIn, d.st, d1.st, d2.st);
    }
  }

  lemma SimulatesChain(env: Env, f: Func, g: Func, h: Func, n: nat, m: Renaming, n': nat, k: Renaming)
    requires Simulates(env, f, g, n, m) && Simulates(env, g, h, n', k)
    requires n <= n' && (forall r: Reg :: r < n ==> Ren(m, r) < n')
    ensures Simulates(env, f, h, n, Compose(m, k, n))
  {
    forall c: Config, t: State, exits: seq<nat> ensures Follows(env, f, h, n, Compose(m, k, n), c, t, exits) {
      FollowsChain(env, f, g, h, n, m, n', k, c, t, exits);
    }
  }
}
