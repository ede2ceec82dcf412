/**
 Masking a loaded value in its own register, and moving every reader of the old register to the
 masked one: by replacing the register everywhere, or use by use.
 */
module PostLoad {
  import opened Options
  import opened Machine
  import opened Liveness
  import opened Simulation
  import opened Masking
  import opened Harden

  // ----- the masked value, under the register's old name -----

  /** The load into `u`, then `d` gets the masked value of `u`. */
  function PostCode(load: Instr, u: Reg, d: Reg, live: bool, fr: Reg): seq<Instr>
    requires load.Op?
  {
    [load.(dst := Some(u))] + MaskCode([(u, d)], live, false, fr)
  }

  lemma ValueEffect(env: Env, n: nat, u: Reg, d: Reg, live: bool, fr: Reg, t: State)
    requires t.ps == 0 && n <= fr
    ensures var w := Exec(env, MaskCode([(u, d)], live, false, fr), t);
            && w.regs == t.regs[d := RegVal(t, u)] && w.mem == t.mem && w.ps == t.ps
            && FlagRegsAgree(n, t.fregs, w.fregs) && (live ==> w.flags == t.flags)
  {
    var i := MaskOr(d, u);
    assert Masks([(u, d)], false) == [i];
    if live {
      var s1 := Step(env, SaveFlags(fr), t);
      ExecThree(env, [SaveFlags(fr)], [i], [RestoreFlags(fr)], t);
      OneStep(env, SaveFlags(fr), t);
      OneStep(env, i, s1);
      MaskStep(env, 0, i, s1);
      OneStep(env, RestoreFlags(fr), Step(env, i, s1));
    } else {
      OneStep(env, i, t);
      MaskStep(env, 0, i, t);
    }
  }

  lemma LoadIntoOther(env: Env, load: Instr, u: Reg, t: State)
    requires load.Op? && load.dst.Some?
    ensures var w, v := StepOp(env, load.(dst := Some(u)), t), StepOp(env, load, t);
            && w.mem == v.mem && w.ps == v.ps && w.flags == v.flags && w.fregs == v.fregs
            && w.regs == t.regs[u := RegVal(v, load.dst.value)]
            && v.regs == t.regs[load.dst.value := RegVal(v, load.dst.value)]
  {
    assert Inputs(env, load.(dst := Some(u)), t) == Inputs(env, load, t);
  }

  /** A value that goes to `u` first and then to `r` is in `r`, and below `n` nothing else changed. */
  lemma MovedOver(n: nat, t: State, v: State, w: State, u: Reg, r: Reg, x: Word)
    requires n <= u && v.regs == t.regs[r := x] && w.regs == t.regs[u := x][r := x]
    ensures forall q: Reg :: q < n ==> RegVal(w, q) == RegVal(v, q)
  {
  }

  /** The rewritten load ends, below `n`, where the load ends. */
  lemma PostState(env: Env, n: nat, load: Instr, u: Reg, live2: bool, fr: Reg, t: State)
    requires load.Op? && load.dst.Some? && n <= u && n <= fr && t.ps == 0
    ensures var v := Step(env, load, t);
            var w := Exec(env, PostCode(load, u, load.dst.value, live2, fr), t);
            && Kept(n, v, w) && FlagRegsAgree(n, v.fregs, w.fregs) && (live2 ==> w.flags == v.flags)
  {
    var r := load.dst.value;
    var code := MaskCode([(u, r)], live2, false, fr);
    LoadIntoOther(env, load, u, t);
    var w := Step(env, load.(dst := Some(u)), t);
    ExecConcat(env, [load.(dst := Some(u))], code, t);
    OneStep(env, load.(dst := Some(u)), t);
    ValueEffect(env, n, u, r, live2, fr, w);
    var v := Step(env, load, t);
    MovedOver(n, t, v, Exec(env, code, w), u, r, RegVal(v, r));
  }

  lemma PostStep(env: Env, n: nat, load: Instr, u: Reg, live: bool, fr: Reg, s: State, t: State)
    requires load.Op? && load.dst.Some? && Below(load, n) && n <= u && n <= fr && (Reads(load) ==> live)
    requires Agree(n, NONE, live, s, t) && t.ps == 0
    ensures Agree(n, NONE, LiveAfter(load, live), Step(env, load, s),
                  Exec(env, PostCode(load, u, load.dst.value, LiveAfter(load, live), fr), t))
  {
    var live2 := LiveAfter(load, live);
    PlainStepAgree(env, n, live, load, s, t);
    PostState(env, n, load, u, live2, fr, t);
    KeptAgree(n, live2, Step(env, load, s), Step(env, load, t),
              Exec(env, PostCode(load, u, load.dst.value, live2, fr), t));
  }

  lemma PostCodeLive(load: Instr, u: Reg, d: Reg, live: bool, fr: Reg)
    requires load.Op? && (Reads(load) ==> live)
    ensures LiveOk(PostCode(load, u, d, LiveAfter(load, live), fr), live)
    ensures LiveEnd(PostCode(load, u, d, LiveAfter(load, live), fr), live) == LiveAfter(load, live)
  {
    MaskCodeLive([(u, d)], LiveAfter(load, live), false, fr);
    LiveConcat([load.(dst := Some(u))], MaskCode([(u, d)], LiveAfter(load, live), false, fr), live);
  }

  lemma PostBodySim(env: Env, n: nat, live: bool, pre: seq<Instr>, load: Instr, post: seq<Instr>, u: Reg, fr: Reg)
    requires load.Op? && load.dst.Some? && Below(load, n) && n <= u && n <= fr
    requires BodyBelow(pre, n) && BodyBelow(post, n) && LiveOk(pre + [load] + post, live)
    ensures BodySim(env, n, NONE, live, pre + [load] + post,
                    pre + PostCode(load, u, load.dst.value, LiveAfter(load, LiveEnd(pre, live)), fr) + post)
  {
    var live1 := LiveEnd(pre, live);
    var code := PostCode(load, u, load.dst.value, LiveAfter(load, live1), fr);
    var body, body' := pre + [load] + post, pre + code + post;
    SplitLive(pre, load, post, live);
    forall s: State, t: State | Agree(n, NONE, live, s, t) && Exec(env, body, s).ps == 0
      ensures Agree(n, NONE, LiveEnd(body, live), Exec(env, body, s), Exec(env, body', t))
    {
      ExecThree(env, pre, [load], post, s);
      ExecThree(env, pre, code, post, t);
      var s1, t1 := Exec(env, pre, s), Exec(env, pre, t);
      OneStep(env, load, s1);
      StateMonotone(env, post, Step(env, load, s1));
      StateMonotone(env, [load], s1);
      PlainAgree(env, n, live, pre, s, t);
      PostStep(env, n, load, u, live1, fr, s1, t1);
      PlainAgree(env, n, LiveAfter(load, live1), post, Step(env, load, s1), Exec(env, code, t1));
    }
  }

  // ----- renaming in the whole function -----

  function WithBody(f: Func, b: BlockId, body: seq<Instr>): Func
    requires b in f.blocks
  {
    f.(blocks := f.blocks[b := f.blocks[b].(body := body)])
  }

  function RenBlock(m: Renaming, b: Block): Block {
    b.(phis := RenPhis(m, b.phis), body := RenBody(m, b.body))
  }

  function RenFunc(m: Renaming, f: Func): (g: Func)
    ensures g.layout == f.layout && g.blocks.Keys == f.blocks.Keys
    ensures forall b :: b in f.blocks ==> g.blocks[b] == RenBlock(m, f.blocks[b])
  {
    Func(f.layout, map b | b in f.blocks :: RenBlock(m, f.blocks[b]))
  }

  lemma RenSimulates(env: Env, f: Func, n: nat, m: Renaming)
    requires FuncBelow(f, n) && LiveFunc(f) && Injective(m, n)
    ensures Simulates(env, f, RenFunc(m, f), n, m)
  {
    var g := RenFunc(m, f);
    forall b | b in f.blocks ensures Matches(env, f, g, n, m, b) {
      var fb := f.blocks[b];
      assert BlockBelow(fb, n) && LiveBlock(f, b);
      forall s: State, t: State | Agree(n, m, fb.flagsLiveIn, s, t) && Exec(env, fb.body, s).ps == 0
        ensures Agree(n, m, LiveEnd(fb.body, fb.flagsLiveIn), Exec(env, fb.body, s), Exec(env, RenBody(m, fb.body), t))
      {
        ExecAgree(env, n, m, fb.flagsLiveIn, fb.body, s, t);
      }
    }
    BlockwiseSimulates(env, f, g, n, m);
  }

  lemma {:induction false} RenLive(m: Renaming, body: seq<Instr>, live: bool)
    ensures LiveEnd(RenBody(m, body), live) == LiveEnd(body, live)
    ensures LiveOk(RenBody(m, body), live) <==> LiveOk(body, live)
    decreases |body|
  {
    if body != [] {
      assert RenBody(m, body)[1..] == RenBody(m, body[1..]);
      RenLive(m, body[1..], LiveAfter(body[0], live));
    }
  }

  lemma RenFuncLive(m: Renaming, f: Func)
    requires LiveFunc(f)
    ensures LiveFunc(RenFunc(m, f))
  {
    var g := RenFunc(m, f);
    assert forall b, e :: b in f.blocks ==> Target(g, b, e) == Target(f, b, e);
    forall b | b in g.blocks ensures LiveBlock(g, b) {
      assert LiveBlock(f, b);
      RenLive(m, f.blocks[b].body, f.blocks[b].flagsLiveIn);
      forall e | WantsFlags(g, Target(g, b, e)) ensures LiveEnd(g.blocks[b].body, g.blocks[b].flagsLiveIn) {
        assert WantsFlags(f, Target(f, b, e));
      }
    }
  }

  lemma WithBodyLive(f: Func, b: BlockId, body: seq<Instr>)
    requires LiveFunc(f) && b in f.blocks
    requires LiveOk(body, f.blocks[b].flagsLiveIn)
    requires LiveEnd(body, f.blocks[b].flagsLiveIn) == LiveEnd(f.blocks[b].body, f.blocks[b].flagsLiveIn)
    ensures LiveFunc(WithBody(f, b, body))
  {
    var g := WithBody(f, b, body);
    assert forall c, e :: c in f.blocks ==> Target(g, c, e) == Target(f, c, e);
    forall c | c in g.blocks ensures LiveBlock(g, c) {
      assert LiveBlock(f, c);
      forall e | WantsFlags(g, Target(g, c, e)) ensures LiveEnd(g.blocks[c].body, g.blocks[c].flagsLiveIn) {
        assert WantsFlags(f, Target(f, c, e));
      }
    }
  }

  lemma RenPhisIdentity(ps: seq<Phi>)
    ensures RenPhis(NONE, ps) == ps
  {
    forall k | 0 <= k < |ps| ensures RenPhi(NONE, ps[k]) == ps[k] {
      assert RenPhi(NONE, ps[k]).entries == ps[k].entries;
    }
  }

  /** Replacing one body by a related one gives a simulating function. */
  lemma WithBodySimulates(env: Env, f: Func, n: nat, b: BlockId, body: seq<Instr>)
    requires FuncBelow(f, n) && LiveFunc(f) && b in f.blocks
    requires BodySim(env, n, NONE, f.blocks[b].flagsLiveIn, f.blocks[b].body, body)
    ensures Simulates(env, f, WithBody(f, b, body), n, NONE)
  {
    var g := WithBody(f, b, body);
    forall c | c in f.blocks ensures Matches(env, f, g, n, NONE, c) {
      var fc := f.blocks[c];
      assert BlockBelow(fc, n) && LiveBlock(f, c);
      RenPhisIdentity(fc.phis);
      if c != b {
        forall s: State, t: State | Agree(n, NONE, fc.flagsLiveIn, s, t) && Exec(env, fc.body, s).ps == 0
          ensures Agree(n, NONE, LiveEnd(fc.body, fc.flagsLiveIn), Exec(env, fc.body, s), Exec(env, fc.body, t))
        {
          PlainAgree(env, n, fc.flagsLiveIn, fc.body, s, t);
        }
      }
    }
    BlockwiseSimulates(env, f, g, n, NONE);
  }

  // ----- the two rewrites -----

  /** The general registers among those used and defined: not the ones that save EFLAGS. */
  function UsedGprs(i: Instr): set<Reg> { if i.RestoreFlags? then {} else UsedRegs(i) }

  function DefGprs(i: Instr): set<Reg> { if i.SaveFlags? then {} else DefRegs(i) }

  /** Rename the uses of an instruction and leave its definition alone. */
  function RenUses(m: Renaming, i: Instr): Instr {
    match i
    case Op(dst, opc, srcs, mem, stores, rf, kills, fdef) =>
      Op(dst, opc, RenRegs(m, srcs), if mem.Some? then Some(RenAddr(m, mem.value)) else None,
         stores, rf, kills, fdef)
    case MaskOr(d, s) => MaskOr(d, Ren(m, s))
    case MaskShr(d, s) => MaskShr(d, Ren(m, s))
    case _ => i
  }

  function RenPhiUses(m: Renaming, p: Phi): Phi { RenPhi(m, p).(dst := p.dst) }

  /** `hardenPostLoad`: load into `u`, mask `u` into `h`, then replace `r` by `h` in every operand. */
  function PostLoadFunc(f: Func, b: BlockId, pre: seq<Instr>, load: Instr, post: seq<Instr>,
                        u: Reg, h: Reg, live: bool, fr: Reg): Func
    requires b in f.blocks && load.Op? && load.dst.Some?
  {
    RenFunc(map[load.dst.value := h], WithBody(f, b, pre + PostCode(load, u, h, live, fr) + post))
  }

  /** The masks of a stand-alone GEP read the old register, until its uses are rewritten. */
  function GepCode(load: Instr, u: Reg, h: Reg, live: bool, fr: Reg): seq<Instr>
    requires load.Op? && load.dst.Some?
  {
    [load.(dst := Some(u))] + MaskCode([(load.dst.value, h)], live, false, fr)
  }

  /** Rewrite every use of `r`: to `u` in the instruction that defines `h`, to `h` elsewhere. */
  function GepUse(i: Instr, r: Reg, u: Reg, h: Reg): Instr {
    if h in DefGprs(i) then RenUses(map[r := u], i) else RenUses(map[r := h], i)
  }

  function GepBody(body: seq<Instr>, r: Reg, u: Reg, h: Reg): (g: seq<Instr>)
    ensures |g| == |body| && forall k :: 0 <= k < |body| ==> g[k] == GepUse(body[k], r, u, h)
  {
    seq(|body|, k requires 0 <= k < |body| => GepUse(body[k], r, u, h))
  }

  function GepPhis(phis: seq<Phi>, r: Reg, h: Reg): (g: seq<Phi>)
    ensures |g| == |phis| && forall k :: 0 <= k < |phis| ==> g[k] == RenPhiUses(map[r := h], phis[k])
  {
    seq(|phis|, k requires 0 <= k < |phis| => RenPhiUses(map[r := h], phis[k]))
  }

  function GepBlock(b: Block, r: Reg, u: Reg, h: Reg): Block {
    b.(phis := GepPhis(b.phis, r, h), body := GepBody(b.body, r, u, h))
  }

  function GepFunc(f: Func, b: BlockId, pre: seq<Instr>, load: Instr, post: seq<Instr>,
                   u: Reg, h: Reg, live: bool, fr: Reg): Func
    requires b in f.blocks && load.Op? && load.dst.Some?
  {
    var g := WithBody(f, b, pre + GepCode(load, u, h, live, fr) + post);
    Func(g.layout, map c | c in g.blocks :: GepBlock(g.blocks[c], load.dst.value, u, h))
  }

  ghost predicate NoDefIn(r: Reg, body: seq<Instr>) { forall k :: 0 <= k < |body| ==> r !in DefGprs(body[k]) }

  ghost predicate NoPhiDef(r: Reg, phis: seq<Phi>) { forall k :: 0 <= k < |phis| ==> phis[k].dst != r }

  lemma RenUsesSame(i: Instr, r: Reg, h: Reg)
    requires r != h
    ensures RenUses(map[r := h], i) == RenInstr(map[r := h], i) <==> r !in DefGprs(i)
  {
  }

  /** Away from the inserted code, the two rewrites agree on a body iff it does not define `r`. */
  lemma BodiesSame(body: seq<Instr>, r: Reg, u: Reg, h: Reg)
    requires r != h && NoDefIn(h, body)
    ensures GepBody(body, r, u, h) == RenBody(map[r := h], body) <==> NoDefIn(r, body)
  {
    var gs := GepBody(body, r, u, h);
    var rs := RenBody(map[r := h], body);
    forall k | 0 <= k < |body| ensures gs[k] == rs[k] <==> r !in DefGprs(body[k]) {
      RenUsesSame(body[k], r, h);
    }
    if NoDefIn(r, body) { assert gs == rs; }
    if gs == rs {
      forall k | 0 <= k < |body| ensures r !in DefGprs(body[k]) { assert gs[k] == rs[k]; }
    }
  }

  lemma PhisSame(phis: seq<Phi>, r: Reg, h: Reg)
    requires r != h
    ensures GepPhis(phis, r, h) == RenPhis(map[r := h], phis) <==> NoPhiDef(r, phis)
  {
    var gs := GepPhis(phis, r, h);
    var rs := RenPhis(map[r := h], phis);
    forall k | 0 <= k < |phis| ensures gs[k] == rs[k] <==> phis[k].dst != r {}
    if NoPhiDef(r, phis) { assert gs == rs; }
    if gs == rs {
      forall k | 0 <= k < |phis| ensures phis[k].dst != r { assert gs[k] == rs[k]; }
    }
  }

  /** On the inserted code itself the two rewrites always agree. */
  lemma CodeSame(load: Instr, u: Reg, h: Reg, live: bool, fr: Reg)
    requires load.Op? && load.dst.Some? && u != h && load.dst.value != u && load.dst.value != h
    ensures GepBody(GepCode(load, u, h, live, fr), load.dst.value, u, h)
            == RenBody(map[load.dst.value := h], PostCode(load, u, h, live, fr))
  {
    var r := load.dst.value;
    var gs, rs := GepCode(load, u, h, live, fr), PostCode(load, u, h, live, fr);
    RenUsesSame(load.(dst := Some(u)), r, h);
    forall k | 0 <= k < |gs| ensures GepUse(gs[k], r, u, h) == RenInstr(map[r := h], rs[k]) {}
  }

  lemma ThreeParts(p: seq<Instr>, q: seq<Instr>, w: seq<Instr>, r: Reg, u: Reg, h: Reg)
    ensures GepBody(p + q + w, r, u, h) == GepBody(p, r, u, h) + GepBody(q, r, u, h) + GepBody(w, r, u, h)
    ensures RenBody(map[r := h], p + q + w)
            == RenBody(map[r := h], p) + RenBody(map[r := h], q) + RenBody(map[r := h], w)
  {
  }

  lemma SamePieces<T>(a: seq<T>, b: seq<T>, c: seq<T>, x: seq<T>, y: seq<T>, z: seq<T>)
    requires |a| == |x| && |b| == |y| && |c| == |z|
    ensures a + b + c == x + y + z <==> a == x && b == y && c == z
  {
    if a + b + c == x + y + z {
      assert a == (a + b + c)[..|a|] && x == (x + y + z)[..|x|];
      assert b == (a + b + c)[|a|..|a| + |b|] && y == (x + y + z)[|x|..|x| + |y|];
      assert c == (a + b + c)[|a| + |b|..] && z == (x + y + z)[|x| + |y|..];
    }
  }

  lemma LoadBlockSame(fb: Block, pre: seq<Instr>, load: Instr, post: seq<Instr>, u: Reg, h: Reg, live: bool, fr: Reg)
    requires load.Op? && load.dst.Some? && u != h && load.dst.value != u && load.dst.value != h
    requires NoDefIn(h, pre) && NoDefIn(h, post)
    ensures var r := load.dst.value;
            GepBlock(fb.(body := pre + GepCode(load, u, h, live, fr) + post), r, u, h)
            == RenBlock(map[r := h], fb.(body := pre + PostCode(load, u, h, live, fr) + post))
            <==> NoPhiDef(r, fb.phis) && NoDefIn(r, pre) && NoDefIn(r, post)
  {
    var r := load.dst.value;
    var gc, pc := GepCode(load, u, h, live, fr), PostCode(load, u, h, live, fr);
    PhisSame(fb.phis, r, h);
    BodiesSame(pre, r, u, h);
    BodiesSame(post, r, u, h);
    CodeSame(load, u, h, live, fr);
    ThreeParts(pre, gc, post, r, u, h);
    ThreeParts(pre, pc, post, r, u, h);
    SamePieces(GepBody(pre, r, u, h), GepBody(gc, r, u, h), GepBody(post, r, u, h),
               RenBody(map[r := h], pre), RenBody(map[r := h], pc), RenBody(map[r := h], post));
  }

  lemma OtherBlockSame(fb: Block, r: Reg, u: Reg, h: Reg)
    requires r != h && NoDefIn(h, fb.body)
    ensures GepBlock(fb, r, u, h) == RenBlock(map[r := h], fb) <==> NoPhiDef(r, fb.phis) && NoDefIn(r, fb.body)
  {
    PhisSame(fb.phis, r, h);
    BodiesSame(fb.body, r, u, h);
  }

  /** In block `c`, only the load defines `r`. */
  ghost predicate OnlyDefAt(f: Func, b: BlockId, pre: seq<Instr>, post: seq<Instr>, r: Reg, c: BlockId)
    requires c in f.blocks
  {
    && NoPhiDef(r, f.blocks[c].phis)
    && if c == b then NoDefIn(r, pre) && NoDefIn(r, post) else NoDefIn(r, f.blocks[c].body)
  }

  lemma CoincideAt(f: Func, b: BlockId, pre: seq<Instr>, load: Instr, post: seq<Instr>,
                   u: Reg, h: Reg, live: bool, fr: Reg, c: BlockId)
    requires b in f.blocks && load.Op? && load.dst.Some? && c in f.blocks
    requires u != h && load.dst.value != u && load.dst.value != h
    requires NoDefIn(h, pre) && NoDefIn(h, post) && NoDefIn(h, f.blocks[c].body)
    ensures GepFunc(f, b, pre, load, post, u, h, live, fr).blocks[c]
            == PostLoadFunc(f, b, pre, load, post, u, h, live, fr).blocks[c]
            <==> OnlyDefAt(f, b, pre, post, load.dst.value, c)
  {
    if c == b { LoadBlockSame(f.blocks[b], pre, load, post, u, h, live, fr); }
    else { OtherBlockSame(f.blocks[c], load.dst.value, u, h); }
  }

  /** The two rewrites produce the same function iff nothing but the load defines the old register,
      which is what SSA form promises. */
  lemma RewritesCoincide(f: Func, b: BlockId, pre: seq<Instr>, load: Instr, post: seq<Instr>,
                         u: Reg, h: Reg, live: bool, fr: Reg)
    requires b in f.blocks && load.Op? && load.dst.Some?
    requires u != h && load.dst.value != u && load.dst.value != h
    requires NoDefIn(h, pre) && NoDefIn(h, post) && forall c :: c in f.blocks ==> NoDefIn(h, f.blocks[c].body)
    ensures GepFunc(f, b, pre, load, post, u, h, live, fr) == PostLoadFunc(f, b, pre, load, post, u, h, live, fr)
            <==> forall c :: c in f.blocks ==> OnlyDefAt(f, b, pre, post, load.dst.value, c)
  {
    var g, p := GepFunc(f, b, pre, load, post, u, h, live, fr), PostLoadFunc(f, b, pre, load, post, u, h, live, fr);
    CoincideBlocks(f, b, pre, load, post, u, h, live, fr);
    SameFunc(g, p, f);
  }

  lemma CoincideBlocks(f: Func, b: BlockId, pre: seq<Instr>, load: Instr, post: seq<Instr>,
                       u: Reg, h: Reg, live: bool, fr: Reg)
    requires b in f.blocks && load.Op? && load.dst.Some?
    requires u != h && load.dst.value != u && load.dst.value != h
    requires NoDefIn(h, pre) && NoDefIn(h, post) && forall c :: c in f.blocks ==> NoDefIn(h, f.blocks[c].body)
    ensures forall c :: c in f.blocks ==>
              (GepFunc(f, b, pre, load, post, u, h, live, fr).blocks[c] == PostLoadFunc(f, b, pre, load, post, u, h, live, fr).blocks[c]
               <==> OnlyDefAt(f, b, pre, post, load.dst.value, c))
  {
    forall c | c in f.blocks
      ensures GepFunc(f, b, pre, load, post, u, h, live, fr).blocks[c] == PostLoadFunc(f, b, pre, load, post, u, h, live, fr).blocks[c]
              <==> OnlyDefAt(f, b, pre, post, load.dst.value, c)
    {
      CoincideAt(f, b, pre, load, post, u, h, live, fr, c);
    }
  }

  lemma SameFunc(g: Func, p: Func, f: Func)
    requires g.layout == p.layout && g.blocks.Keys == p.blocks.Keys == f.blocks.Keys
    ensures g == p <==> forall c :: c in f.blocks ==> g.blocks[c] == p.blocks[c]
  {
    if forall c :: c in f.blocks ==> g.blocks[c] == p.blocks[c] { assert g.blocks == p.blocks; }
  }

  /** `i'` is free of `r`, reads `h` where `i` read `r`, and reads all else that `i` read. */
  ghost predicate InstrFreed(i: Instr, i': Instr, r: Reg, h: Reg) {
    && r !in UsedGprs(i') && r !in DefGprs(i')
    && (r in UsedGprs(i) ==> h in UsedGprs(i')) && UsedGprs(i) - {r} <= UsedGprs(i')
    && (r in DefGprs(i) ==> h in DefGprs(i')) && DefGprs(i) - {r} <= DefGprs(i')
  }

  /** `p'` is free of `r`, and delivers along each edge what `p` delivered, or `h` for `r`. */
  ghost predicate PhiFreed(p: Phi, p': Phi, r: Reg, h: Reg) {
    && p'.dst != r && (p'.dst == p.dst || (p.dst == r && p'.dst == h))
    && (forall e :: e in p'.entries ==> e.0 != r)
    && (forall q :: Lookup(p'.entries, q) == if Lookup(p.entries, q) == Some(r) then Some(h) else Lookup(p.entries, q))
  }

  lemma RenFreesInstr(i: Instr, r: Reg, h: Reg)
    requires r != h
    ensures InstrFreed(i, RenInstr(map[r := h], i), r, h)
  {
    var m: Renaming := map[r := h];
    var i' := RenInstr(m, i);
    if i.Op? {
      forall j | 0 <= j < |i.srcs| ensures Ren(m, i.srcs[j]) in UsedGprs(i') { assert i'.srcs[j] in UsedGprs(i'); }
    }
  }

  lemma {:induction false} RenLookup(es: seq<(Reg, BlockId)>, qs: seq<(Reg, BlockId)>, r: Reg, h: Reg, q: BlockId)
    requires |qs| == |es| && forall k :: 0 <= k < |es| ==> qs[k] == (Ren(map[r := h], es[k].0), es[k].1)
    ensures Lookup(qs, q) == if Lookup(es, q) == Some(r) then Some(h) else Lookup(es, q)
    decreases |es|
  {
    if es != [] && es[0].1 != q { RenLookup(es[1..], qs[1..], r, h, q); }
  }

  lemma RenFreesPhi(p: Phi, r: Reg, h: Reg)
    requires r != h
    ensures PhiFreed(p, RenPhi(map[r := h], p), r, h)
  {
    var p' := RenPhi(map[r := h], p);
    forall q ensures Lookup(p'.entries, q) == if Lookup(p.entries, q) == Some(r) then Some(h) else Lookup(p.entries, q) {
      RenLookup(p.entries, p'.entries, r, h, q);
    }
  }

  /** Afterwards no instruction and no PHI uses or defines the old register, and its readers read the
      masked one. */
  lemma OldRegisterGone(f: Func, r: Reg, h: Reg, c: BlockId)
    requires r != h && c in f.blocks
    ensures var b, b' := f.blocks[c], RenFunc(map[r := h], f).blocks[c];
            && |b'.body| == |b.body| && (forall k :: 0 <= k < |b.body| ==> InstrFreed(b.body[k], b'.body[k], r, h))
            && |b'.phis| == |b.phis| && (forall k :: 0 <= k < |b.phis| ==> PhiFreed(b.phis[k], b'.phis[k], r, h))
  {
    var b, b' := f.blocks[c], RenFunc(map[r := h], f).blocks[c];
    forall k | 0 <= k < |b.body| ensures InstrFreed(b.body[k], b'.body[k], r, h) { RenFreesInstr(b.body[k], r, h); }
    forall k | 0 <= k < |b.phis| ensures PhiFreed(b.phis[k], b'.phis[k], r, h) { RenFreesPhi(b.phis[k], r, h); }
  }
}
