/**
 The machine code that the speculative-load-hardening pass rewrites: blocks in a layout
 order, PHIs, straight-line bodies, ordered terminators, and an execution model in which
 the exit taken at each block is a free choice, so that a mispredicted branch is an
 ordinary step.
 */
module Machine {
  import opened Options

  type Reg = nat
  type BlockId = nat
  type Word = bv64

  const POISON: Word := 0xFFFF_FFFF_FFFF_FFFF

  // ----- condition codes -----

  datatype Flags = Flags(cf: bool, pf: bool, zf: bool, sf: bool, of: bool)

  const NO_FLAGS := Flags(false, false, false, false, false)

  /** The sixteen x86 condition codes in encoding order: O NO B AE E NE BE A S NS P NP L GE LE G. */
  type CondCode = c: nat | c < 16 witness 0

  predicate Holds(c: CondCode, f: Flags) {
    var base :=
      match c / 2
      case 0 => f.of
      case 1 => f.cf
      case 2 => f.zf
      case 3 => f.cf || f.zf
      case 4 => f.sf
      case 5 => f.pf
      case 6 => f.sf != f.of
      case _ => f.zf || f.sf != f.of;
    if c % 2 == 0 then base else !base
  }

  function Opposite(c: CondCode): (r: CondCode)
    ensures forall f :: Holds(r, f) <==> !Holds(c, f)
  {
    var r := if c % 2 == 0 then c + 1 else c - 1;
    assert r / 2 == c / 2;
    r
  }

  // ----- instructions -----

  datatype AddrBase = Fixed(kind: nat) | BaseReg(reg: Reg)

  /** Base, index, scale and displacement; a fixed base is a frame index, RIP, RSP or no base. */
  datatype Addr = Addr(base: AddrBase, index: Option<Reg>, scale: Word, disp: Word)

  datatype FlagDef = NoDef | DeadDef | LiveDef

  datatype Instr =
    /** Any instruction of the program: registers and at most one memory operand in, a register,
        the memory operand and EFLAGS out. */
    | Op(dst: Option<Reg>, opc: nat, srcs: seq<Reg>, mem: Option<Addr>, stores: bool,
         readsFlags: bool, kills: bool, fdef: FlagDef)
    /** CMOVcc of the poison value over the predicate state. */
    | CMovPoison(cc: CondCode, killsFlags: bool)
    /** OR64rr of the predicate state into a register; EFLAGS is a dead def. */
    | MaskOr(mdst: Reg, msrc: Reg)
    /** SHRX64rr by the predicate state; EFLAGS untouched. */
    | MaskShr(mdst: Reg, msrc: Reg)
    /** COPY of EFLAGS into a register, and back. */
    | SaveFlags(fdst: Reg)
    | RestoreFlags(fsrc: Reg)

  /** Terminators; `Other` is a terminator that is not a branch, such as a return. */
  datatype Term = Jcc(cc: CondCode, target: BlockId) | Jmp(target: BlockId) | Other

  datatype Phi = Phi(dst: Reg, entries: seq<(Reg, BlockId)>)

  datatype Block = Block(phis: seq<Phi>, body: seq<Instr>, terms: seq<Term>,
                         succs: set<BlockId>, flagsLiveIn: bool)

  datatype Func = Func(layout: seq<BlockId>, blocks: map<BlockId, Block>)

  // ----- control flow -----

  /** The block laid out right after `x`. */
  function NextIn(s: seq<BlockId>, x: BlockId): Option<BlockId> {
    if |s| < 2 then None
    else if s[0] == x then Some(s[1])
    else NextIn(s[1..], x)
  }

  /** Number of conditional branches before the first terminator that is not one. */
  function NConds(ts: seq<Term>): (k: nat)
    ensures k <= |ts|
    ensures forall i :: 0 <= i < k ==> ts[i].Jcc?
    ensures k < |ts| ==> !ts[k].Jcc?
  {
    if ts == [] || !ts[0].Jcc? then 0 else 1 + NConds(ts[1..])
  }

  /** Exit `e` of a block: its conditional branches in order, then the unconditional exit.
      `None` when the exit leaves the function or does not exist. */
  function Target(f: Func, b: BlockId, e: nat): Option<BlockId>
    requires b in f.blocks
  {
    var ts := f.blocks[b].terms;
    var k := NConds(ts);
    if e < k then Some(ts[e].target)
    else if e > k then None
    else if k == |ts| then NextIn(f.layout, b)
    else if ts[k].Jmp? then Some(ts[k].target)
    else None
  }

  function Preds(f: Func, b: BlockId): set<BlockId> {
    set p | p in f.blocks && b in f.blocks[p].succs
  }

  ghost predicate NoDup<T(!new)>(s: seq<T>) {
    forall i, j :: 0 <= i < j < |s| ==> s[i] != s[j]
  }

  function Lookup(es: seq<(Reg, BlockId)>, p: BlockId): Option<Reg> {
    if es == [] then None
    else if es[0].1 == p then Some(es[0].0)
    else Lookup(es[1..], p)
  }

  // ----- execution -----

  datatype State = State(regs: map<Reg, Word>, fregs: map<Reg, Flags>, mem: map<Word, Word>,
                         flags: Flags, ps: Word)

  /** What the instruction set computes: the theorems hold for every choice of it. */
  datatype Env = Env(val: (nat, seq<Word>, Flags) -> Word,
                     sto: (nat, seq<Word>, Flags) -> Word,
                     flg: (nat, seq<Word>, Flags) -> Flags,
                     fixed: nat -> Word,
                     ea: (Word, Word, Word, Word) -> Word)

  function Get<K, V>(m: map<K, V>, k: K, default: V): V {
    if k in m then m[k] else default
  }

  function RegVal(s: State, r: Reg): Word { Get(s.regs, r, 0) }

  function Vals(s: State, rs: seq<Reg>): (vs: seq<Word>)
    ensures |vs| == |rs|
    ensures forall i :: 0 <= i < |rs| ==> vs[i] == RegVal(s, rs[i])
  {
    if rs == [] then [] else [RegVal(s, rs[0])] + Vals(s, rs[1..])
  }

  function EffAddr(env: Env, s: State, a: Addr): Word {
    var base := match a.base case Fixed(k) => env.fixed(k) case BaseReg(r) => RegVal(s, r);
    var index := if a.index.Some? then RegVal(s, a.index.value) else 0;
    env.ea(base, index, a.scale, a.disp)
  }

  function Inputs(env: Env, i: Instr, s: State): seq<Word>
    requires i.Op?
  {
    Vals(s, i.srcs) + (if i.mem.Some? then [Get(s.mem, EffAddr(env, s, i.mem.value), 0)] else [])
  }

  function StepOp(env: Env, i: Instr, s: State): State
    requires i.Op?
  {
    var ins := Inputs(env, i, s);
    var fl := if i.readsFlags then s.flags else NO_FLAGS;
    s.(regs := if i.dst.Some? then s.regs[i.dst.value := env.val(i.opc, ins, fl)] else s.regs,
       mem := if i.mem.Some? && i.stores
              then s.mem[EffAddr(env, s, i.mem.value) := env.sto(i.opc, ins, fl)] else s.mem,
       flags := if i.fdef.NoDef? then s.flags else env.flg(i.opc, ins, fl))
  }

  /** OR leaves all ones under poison; SHRX, whose count is taken modulo 64, leaves one bit. */
  function OrMask(ps: Word, v: Word): Word { ps | v }
  function ShrMask(ps: Word, v: Word): Word { v >> ((ps & 63) as bv7) }

  function StepMask(env: Env, i: Instr, s: State): State
    requires i.MaskOr? || i.MaskShr?
  {
    var v := RegVal(s, i.msrc);
    if i.MaskOr? then
      s.(regs := s.regs[i.mdst := OrMask(s.ps, v)], flags := env.flg(0, [OrMask(s.ps, v)], NO_FLAGS))
    else s.(regs := s.regs[i.mdst := ShrMask(s.ps, v)])
  }

  function Step(env: Env, i: Instr, s: State): State {
    match i
    case Op(_, _, _, _, _, _, _, _) => StepOp(env, i, s)
    case CMovPoison(cc, _) => s.(ps := if Holds(cc, s.flags) then POISON else s.ps)
    case MaskOr(_, _) => StepMask(env, i, s)
    case MaskShr(_, _) => StepMask(env, i, s)
    case SaveFlags(d) => s.(fregs := s.fregs[d := s.flags])
    case RestoreFlags(r) => s.(flags := Get(s.fregs, r, NO_FLAGS))
  }

  function Exec(env: Env, body: seq<Instr>, s: State): State
    decreases |body|
  {
    if body == [] then s else Exec(env, body[1..], Step(env, body[0], s))
  }

  lemma {:induction false} ExecConcat(env: Env, p: seq<Instr>, q: seq<Instr>, s: State)
    ensures Exec(env, p + q, s) == Exec(env, q, Exec(env, p, s))
    decreases |p|
  {
    if p == [] {
      assert p + q == q;
    } else {
      assert (p + q)[1..] == p[1..] + q;
      ExecConcat(env, p[1..], q, Step(env, p[0], s));
    }
  }

  /** Registers after the PHIs of a block entered from `from`; all PHIs read the values before. */
  function PhiRegs(phis: seq<Phi>, from: BlockId, s: State): map<Reg, Word> {
    if phis == [] then s.regs
    else
      var last := phis[|phis| - 1];
      var src := Lookup(last.entries, from);
      PhiRegs(phis[..|phis| - 1], from, s)[last.dst := if src.Some? then RegVal(s, src.value) else 0]
  }

  function Enter(f: Func, x: BlockId, from: BlockId, s: State): State
    requires x in f.blocks
  {
    s.(regs := PhiRegs(f.blocks[x].phis, from, s))
  }

  datatype Config = Config(at: BlockId, st: State)

  /** Execute block `c.at` and leave it by exit `e`. */
  function Move(env: Env, f: Func, c: Config, e: nat): Option<Config> {
    if c.at !in f.blocks then None
    else
      var x := Target(f, c.at, e);
      if x.None? || x.value !in f.blocks then None
      else Some(Config(x.value, Enter(f, x.value, c.at, Exec(env, f.blocks[c.at].body, c.st))))
  }

  /** Follow a sequence of exits, rightly predicted or not. */
  function Run(env: Env, f: Func, c: Config, exits: seq<nat>): Option<Config>
    decreases |exits|
  {
    if exits == [] then Some(c)
    else
      var n := Move(env, f, c, exits[0]);
      if n.None? then None else Run(env, f, n.value, exits[1..])
  }

  lemma {:induction false} RunConcat(env: Env, f: Func, c: Config, p: seq<nat>, q: seq<nat>)
    requires Run(env, f, c, p).Some?
    ensures Run(env, f, c, p + q) == Run(env, f, Run(env, f, c, p).value, q)
    decreases |p|
  {
    if p == [] {
      assert p + q == q;
    } else {
      assert (p + q)[1..] == p[1..] + q;
      RunConcat(env, f, Move(env, f, c, p[0]).value, p[1..], q);
    }
  }

  /** The exit the processor architecturally takes: the first branch whose condition holds,
      else the unconditional exit. */
  function Actual(ts: seq<Term>, fl: Flags): (e: nat)
    ensures e <= NConds(ts)
    ensures forall i :: 0 <= i < e ==> !Holds(ts[i].cc, fl)
    ensures e < NConds(ts) ==> Holds(ts[e].cc, fl)
  {
    if ts == [] || !ts[0].Jcc? then 0
    else if Holds(ts[0].cc, fl) then 0
    else
      assert ts[1..] != [] ==> forall i :: 0 <= i < NConds(ts[1..]) ==> ts[1..][i] == ts[i + 1];
      1 + Actual(ts[1..], fl)
  }
}
