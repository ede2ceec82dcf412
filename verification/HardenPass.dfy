/**
 The second walk of the pass over a block: harden each load by the strategy chosen for it,
 reusing registers masked earlier in the block, and keep every unpoisoned run as it was.
 */
module HardenPass {
  import opened Options
  import opened Machine
  import opened Liveness
  import opened Simulation
  import opened Masking
  import opened Harden
  import opened PostLoad

  /** What the first walk decided for an instruction. */
  datatype Action = Keep | MaskAddress | MaskValue

  /** The function so far, the next fresh register, and where the original registers now live. */
  datatype Progress = Progress(f: Func, next: nat, ren: Renaming)

  ghost predicate PassInv(env: Env, f0: Func, n0: nat, p: Progress) {
    && Simulates(env, f0, p.f, n0, p.ren)
    && FuncBelow(p.f, p.next) && LiveFunc(p.f) && n0 <= p.next
    && (forall r: Reg :: r < n0 ==> Ren(p.ren, r) < p.next) && Injective(p.ren, n0)
  }

  lemma ComposeInjective(m: Renaming, n: nat, k: Renaming, n': nat)
    requires Injective(m, n) && Injective(k, n') && forall r: Reg :: r < n ==> Ren(m, r) < n'
    ensures Injective(Compose(m, k, n), n)
  {
    forall q: Reg, r: Reg | q < n && r < n && Ren(Compose(m, k, n), q) == Ren(Compose(m, k, n), r) ensures q == r {
      assert Ren(k, Ren(m, q)) == Ren(k, Ren(m, r));
    }
  }

  /** A rewrite that simulates with renaming `k` extends the pass. */
  lemma Extend(env: Env, f0: Func, n0: nat, p: Progress, g: Func, next: nat, k: Renaming)
    requires PassInv(env, f0, n0, p) && Simulates(env, p.f, g, p.next, k)
    requires FuncBelow(g, next) && LiveFunc(g) && p.next <= next
    requires (forall r: Reg :: r < p.next ==> Ren(k, r) < next) && Injective(k, p.next)
    ensures PassInv(env, f0, n0, Progress(g, next, Compose(p.ren, k, n0)))
  {
    SimulatesChain(env, f0, p.f, g, n0, p.ren, p.next, k);
    ComposeInjective(p.ren, n0, k, p.next);
  }

  lemma BelowMonotone(body: seq<Instr>, n: nat, n': nat)
    requires BodyBelow(body, n) && n <= n'
    ensures BodyBelow(body, n')
  {
  }

  lemma WithBodyBelow(f: Func, b: BlockId, body: seq<Instr>, n: nat, n': nat)
    requires FuncBelow(f, n) && b in f.blocks && n <= n' && BodyBelow(body, n')
    ensures FuncBelow(WithBody(f, b, body), n')
  {
    var g := WithBody(f, b, body);
    forall c | c in g.blocks ensures BlockBelow(g.blocks[c], n') { assert BlockBelow(f.blocks[c], n); }
  }

  // ----- masking an address -----

  /** The register that saves EFLAGS comes first, when one is needed. */
  function FirstMask(next: nat, live: bool, shrx: bool): nat { if live && !shrx then next + 1 else next }

  function AddrPlan(load: Instr, known: Known, next: nat, live: bool, shrx: bool): Plan
    requires load.Op? && load.mem.Some?
  {
    PlanAddr(load.mem.value, known, FirstMask(next, live, shrx))
  }

  lemma LoadBelow(load: Instr, addr: Addr, n: nat, n': nat)
    requires load.Op? && load.mem.Some? && Below(load, n) && n <= n' && forall r :: r in AddrRegs(addr) ==> r < n'
    ensures Below(load.(mem := Some(addr)), n')
  {
    var load' := load.(mem := Some(addr));
    assert DefRegs(load') == DefRegs(load);
    forall r | r in UsedRegs(load') ensures r < n' {
      if r !in AddrRegs(addr) { assert r in UsedRegs(load); }
    }
  }

  lemma PlanBelow(load: Instr, known: Known, n: nat, live: bool, shrx: bool)
    requires load.Op? && load.mem.Some? && Below(load, n) && KnownBelow(known, n)
    ensures var p := AddrPlan(load, known, n, live, shrx);
            && n <= p.next && Below(load.(mem := Some(p.addr)), p.next)
  {
    var a := load.mem.value;
    assert AddrRegs(a) <= UsedRegs(load);
    PlanOps(a, known, FirstMask(n, live, shrx), n);
    PlanRegs(a, known, FirstMask(n, live, shrx), n);
    LoadBelow(load, AddrPlan(load, known, n, live, shrx).addr, n, AddrPlan(load, known, n, live, shrx).next);
  }

  lemma PlanCodeBelow(load: Instr, known: Known, n: nat, live: bool, shrx: bool)
    requires load.Op? && load.mem.Some? && Below(load, n) && KnownBelow(known, n)
    ensures var p := AddrPlan(load, known, n, live, shrx);
            p.ops != [] ==> BodyBelow(MaskCode(p.ops, live, shrx, n), p.next)
  {
    assert AddrRegs(load.mem.value) <= UsedRegs(load);
    PlanOps(load.mem.value, known, FirstMask(n, live, shrx), n);
    var p := AddrPlan(load, known, n, live, shrx);
    if p.ops != [] { MaskCodeBelow(p.ops, live, shrx, n, n, p.next); }
  }

  lemma AddrBodyBelow(load: Instr, known: Known, n: nat, live: bool, shrx: bool)
    requires load.Op? && load.mem.Some? && Below(load, n) && KnownBelow(known, n)
    ensures var p := AddrPlan(load, known, n, live, shrx); BodyBelow(AddrCode(load, p, live, shrx, n), p.next) && n <= p.next
  {
    PlanBelow(load, known, n, live, shrx);
    PlanCodeBelow(load, known, n, live, shrx);
  }

  lemma AddrCodeBelow(load: Instr, known: Known, n: nat, live: bool, shrx: bool)
    requires load.Op? && load.mem.Some? && Below(load, n) && KnownBelow(known, n)
    ensures var p := AddrPlan(load, known, n, live, shrx);
            && BodyBelow(AddrCode(load, p, live, shrx, n), p.next) && n <= p.next && KnownBelow(p.known, p.next)
            && (forall r :: r in p.known ==> r in known || r in UsedRegs(load))
            && (forall r :: r in p.known ==> (r in known && p.known[r] == known[r]) || p.known[r] >= n)
  {
    assert AddrRegs(load.mem.value) <= UsedRegs(load);
    PlanKnown(load.mem.value, known, FirstMask(n, live, shrx), n);
    AddrBodyBelow(load, known, n, live, shrx);
  }

  lemma AddrPass(env: Env, f0: Func, n0: nat, p: Progress, b: BlockId, pre: seq<Instr>, load: Instr,
                 post: seq<Instr>, known: Known, shrx: bool)
    requires PassInv(env, f0, n0, p) && b in p.f.blocks && p.f.blocks[b].body == pre + [load] + post
    requires load.Op? && load.mem.Some? && KnownBelow(known, p.next) && KnownAfter(env, pre, known)
    ensures var live := LiveEnd(pre, p.f.blocks[b].flagsLiveIn);
            var plan := AddrPlan(load, known, p.next, live, shrx);
            PassInv(env, f0, n0, Progress(WithBody(p.f, b, pre + AddrCode(load, plan, live, shrx, p.next) + post),
                                          plan.next, Compose(p.ren, NONE, n0)))
  {
    var liveIn := p.f.blocks[b].flagsLiveIn;
    var live := LiveEnd(pre, liveIn);
    var plan := AddrPlan(load, known, p.next, live, shrx);
    var code := AddrCode(load, plan, live, shrx, p.next);
    assert BlockBelow(p.f.blocks[b], p.next) && LiveBlock(p.f, b);
    BodyBelowConcat(pre + [load], post, p.next);
    BodyBelowConcat(pre, [load], p.next);
    assert Below([load][0], p.next);
    AddrBodySim(env, p.next, liveIn, pre, load, post, known, FirstMask(p.next, live, shrx), shrx, p.next);
    WithBodySimulates(env, p.f, p.next, b, pre + code + post);
    SplitLive(pre, load, post, liveIn);
    AddrCodeLive(load, plan, live, shrx, p.next);
    MiddleLive(pre, load, code, post, liveIn);
    WithBodyLive(p.f, b, pre + code + post);
    AddrCodeBelow(load, known, p.next, live, shrx);
    BelowMonotone(pre, p.next, plan.next);
    BelowMonotone(post, p.next, plan.next);
    BodyBelowConcat(pre, code, plan.next);
    BodyBelowConcat(pre + code, post, plan.next);
    WithBodyBelow(p.f, b, pre + code + post, p.next, plan.next);
    Extend(env, f0, n0, p, WithBody(p.f, b, pre + code + post), plan.next, NONE);
  }

  // ----- masking a value -----

  lemma PostCodeBelow(load: Instr, n: nat, live: bool)
    requires load.Op? && load.dst.Some? && Below(load, n)
    ensures BodyBelow(PostCode(load, n, load.dst.value, live, n + 1), n + 2)
  {
    var load' := load.(dst := Some(n));
    assert load.dst.value in DefRegs(load);
    assert UsedRegs(load') == UsedRegs(load);
    assert Below(load', n + 2);
    assert Masks([(n, load.dst.value)], false) == [MaskOr(load.dst.value, n)];
  }

  /** Under the renaming it does not matter by which name the masked value goes. */
  lemma CodeRenamed(load: Instr, u: Reg, h: Reg, live: bool, fr: Reg)
    requires load.Op? && load.dst.Some? && load.dst.value != u && load.dst.value != h
    ensures var r := load.dst.value;
            RenBody(map[r := h], PostCode(load, u, h, live, fr)) == RenBody(map[r := h], PostCode(load, u, r, live, fr))
  {
    var r := load.dst.value;
    var x, y := PostCode(load, u, h, live, fr), PostCode(load, u, r, live, fr);
    forall k | 0 <= k < |x| ensures RenInstr(map[r := h], x[k]) == RenInstr(map[r := h], y[k]) {}
  }

  /** Masking under the old name and renaming everywhere is what the pass does. */
  lemma PostLoadIsRename(f: Func, b: BlockId, pre: seq<Instr>, load: Instr, post: seq<Instr>,
                         u: Reg, h: Reg, live: bool, fr: Reg)
    requires b in f.blocks && load.Op? && load.dst.Some? && load.dst.value != u && load.dst.value != h
    ensures var r := load.dst.value;
            PostLoadFunc(f, b, pre, load, post, u, h, live, fr)
            == RenFunc(map[r := h], WithBody(f, b, pre + PostCode(load, u, r, live, fr) + post))
  {
    var r := load.dst.value;
    var m: Renaming := map[r := h];
    var x, y := PostCode(load, u, h, live, fr), PostCode(load, u, r, live, fr);
    CodeRenamed(load, u, h, live, fr);
    ThreeParts(pre, x, post, r, u, h);
    ThreeParts(pre, y, post, r, u, h);
    var f1, f2 := WithBody(f, b, pre + x + post), WithBody(f, b, pre + y + post);
    forall c | c in f.blocks ensures RenFunc(m, f1).blocks[c] == RenFunc(m, f2).blocks[c] {}
    assert RenFunc(m, f1).blocks == RenFunc(m, f2).blocks;
  }

  lemma FreshFuncBelow(f: Func, r: Reg, h: Reg, n: nat)
    requires FuncBelow(f, n) && n <= h
    ensures FuncBelow(RenFunc(map[r := h], f), h + 1)
  {
    var m: Renaming := map[r := h];
    var g := RenFunc(m, f);
    forall c | c in g.blocks ensures BlockBelow(g.blocks[c], h + 1) {
      assert BlockBelow(f.blocks[c], n);
      forall k | 0 <= k < |f.blocks[c].body| ensures Below(g.blocks[c].body[k], h + 1) {
        FreshInstrBelow(f.blocks[c].body[k], r, h, n);
      }
      forall k | 0 <= k < |f.blocks[c].phis| ensures PhiBelow(g.blocks[c].phis[k], h + 1) {
        assert PhiBelow(f.blocks[c].phis[k], n);
      }
    }
  }

  lemma FreshInstrBelow(i: Instr, r: Reg, h: Reg, n: nat)
    requires Below(i, n) && n <= h
    ensures Below(RenInstr(map[r := h], i), h + 1)
  {
    var m: Renaming := map[r := h];
    var i' := RenInstr(m, i);
    forall q | q in UsedRegs(i') ensures q < h + 1 {
      if i.Op? {
        if j :| 0 <= j < |i.srcs| && i'.srcs[j] == q { assert i.srcs[j] in UsedRegs(i); }
        else {
          var a := i.mem.value;
          assert AddrRegs(a) <= UsedRegs(i);
          if a.base.BaseReg? { assert a.base.reg in AddrRegs(a); }
          if a.index.Some? { assert a.index.value in AddrRegs(a); }
        }
      } else if i.MaskOr? || i.MaskShr? {
        assert i.msrc in UsedRegs(i);
      } else {
        assert q in UsedRegs(i);
      }
    }
    forall q | q in DefRegs(i') ensures q < h + 1 {
      if i.Op? { assert i.dst.value in DefRegs(i); }
      else if i.MaskOr? || i.MaskShr? { assert i.mdst in DefRegs(i); }
      else { assert q in DefRegs(i); }
    }
  }

  /** The function with a loaded value masked under its old name. */
  function ValueFunc(f: Func, n: nat, b: BlockId, pre: seq<Instr>, load: Instr, post: seq<Instr>): Func
    requires b in f.blocks && load.Op? && load.dst.Some?
  {
    var live := LiveAfter(load, LiveEnd(pre, f.blocks[b].flagsLiveIn));
    WithBody(f, b, pre + PostCode(load, n, load.dst.value, live, n + 1) + post)
  }

  /** Masking a value under its old name: simulated, well-bounded, and as live as before. */
  lemma ValueRewrite(env: Env, f: Func, n: nat, b: BlockId, pre: seq<Instr>, load: Instr, post: seq<Instr>)
    requires FuncBelow(f, n) && LiveFunc(f) && b in f.blocks && f.blocks[b].body == pre + [load] + post
    requires load.Op? && load.dst.Some?
    ensures var g := ValueFunc(f, n, b, pre, load, post);
            Simulates(env, f, g, n, NONE) && FuncBelow(g, n + 2) && LiveFunc(g)
  {
    var r, liveIn := load.dst.value, f.blocks[b].flagsLiveIn;
    var live := LiveAfter(load, LiveEnd(pre, liveIn));
    var code := PostCode(load, n, r, live, n + 1);
    assert BlockBelow(f.blocks[b], n) && LiveBlock(f, b);
    BodyBelowConcat(pre + [load], post, n);
    BodyBelowConcat(pre, [load], n);
    assert Below([load][0], n);
    PostBodySim(env, n, liveIn, pre, load, post, n, n + 1);
    WithBodySimulates(env, f, n, b, pre + code + post);
    SplitLive(pre, load, post, liveIn);
    PostCodeLive(load, n, r, LiveEnd(pre, liveIn), n + 1);
    MiddleLive(pre, load, code, post, liveIn);
    WithBodyLive(f, b, pre + code + post);
    PostCodeBelow(load, n, live);
    BelowMonotone(pre, n, n + 2);
    BelowMonotone(post, n, n + 2);
    BodyBelowConcat(pre, code, n + 2);
    BodyBelowConcat(pre + code, post, n + 2);
    WithBodyBelow(f, b, pre + code + post, n, n + 2);
  }

  lemma ValuePass(env: Env, f0: Func, n0: nat, p: Progress, b: BlockId, pre: seq<Instr>, load: Instr, post: seq<Instr>)
    requires PassInv(env, f0, n0, p) && b in p.f.blocks && p.f.blocks[b].body == pre + [load] + post
    requires load.Op? && load.dst.Some?
    ensures PassInv(env, f0, n0, ValueProgress(p, n0, b, pre, load, post))
  {
    ValueRewrite(env, p.f, p.next, b, pre, load, post);
    Extend(env, f0, n0, p, ValueFunc(p.f, p.next, b, pre, load, post), p.next + 2, NONE);
  }

  /** The masked value under the old name, as a step of the pass. */
  function ValueProgress(p: Progress, n0: nat, b: BlockId, pre: seq<Instr>, load: Instr, post: seq<Instr>): Progress
    requires b in p.f.blocks && load.Op? && load.dst.Some?
  {
    Progress(ValueFunc(p.f, p.next, b, pre, load, post), p.next + 2, Compose(p.ren, NONE, n0))
  }

  /** The pass after `hardenPostLoad`, by `PostLoadIsRename`: the masked value, then the renaming. */
  function PostProgress(p: Progress, n0: nat, b: BlockId, pre: seq<Instr>, load: Instr, post: seq<Instr>): Progress
    requires b in p.f.blocks && load.Op? && load.dst.Some?
  {
    RenameProgress(ValueProgress(p, n0, b, pre, load, post), n0, load.dst.value)
  }

  lemma PostPass(env: Env, f0: Func, n0: nat, p: Progress, b: BlockId, pre: seq<Instr>, load: Instr, post: seq<Instr>)
    requires PassInv(env, f0, n0, p) && b in p.f.blocks && p.f.blocks[b].body == pre + [load] + post
    requires load.Op? && load.dst.Some?
    ensures PassInv(env, f0, n0, PostProgress(p, n0, b, pre, load, post))
  {
    ValuePass(env, f0, n0, p, b, pre, load, post);
    RenamePass(env, f0, n0, ValueProgress(p, n0, b, pre, load, post), load.dst.value);
  }

  function RenameProgress(p: Progress, n0: nat, r: Reg): Progress {
    Progress(RenFunc(map[r := p.next], p.f), p.next + 1, Compose(p.ren, map[r := p.next], n0))
  }

  lemma RenameFacts(env: Env, f: Func, n: nat, r: Reg)
    requires FuncBelow(f, n) && LiveFunc(f)
    ensures var g := RenFunc(map[r := n], f);
            Simulates(env, f, g, n, map[r := n]) && FuncBelow(g, n + 1) && LiveFunc(g)
    ensures Injective(map[r := n], n) && forall q: Reg :: q < n ==> Ren(map[r := n], q) < n + 1
  {
    RenSimulates(env, f, n, map[r := n]);
    RenFuncLive(map[r := n], f);
    FreshFuncBelow(f, r, n, n);
  }

  lemma RenamePass(env: Env, f0: Func, n0: nat, p: Progress, r: Reg)
    requires PassInv(env, f0, n0, p)
    ensures PassInv(env, f0, n0, RenameProgress(p, n0, r))
  {
    var k: Renaming := map[r := p.next];
    RenameFacts(env, p.f, p.next, r);
    Extend(env, f0, n0, p, RenFunc(k, p.f), p.next + 1, k);
  }

  // ----- walking a block -----

  ghost predicate NotIn(d: Reg, body: seq<Instr>) {
    forall k :: 0 <= k < |body| ==> d !in UsedRegs(body[k]) && d !in DefRegs(body[k])
  }

  ghost predicate Apart(d: Reg, known: Known) { forall r :: r in known ==> r != d && known[r] != d }

  /** What instruction `j` of the rest defines is not mentioned before it, used by it, or known. */
  ghost predicate TailAt(pre: seq<Instr>, post: seq<Instr>, known: Known, j: nat)
    requires j < |post|
  {
    forall d :: d in DefRegs(post[j]) ==>
      NotIn(d, pre) && NotIn(d, post[..j]) && d !in UsedRegs(post[j]) && Apart(d, known)
  }

  /** SSA form, seen from inside a block that is walked up to the end of `pre`. */
  ghost predicate Tail(pre: seq<Instr>, post: seq<Instr>, known: Known) {
    forall j: nat {:trigger TailAt(pre, post, known, j)} :: j < |post| ==> TailAt(pre, post, known, j)
  }

  lemma TailStep(pre: seq<Instr>, i: Instr, post: seq<Instr>, known: Known, code: seq<Instr>, known': Known, n: nat)
    requires Tail(pre, [i] + post, known) && BodyBelow(post, n)
    requires forall k, d :: 0 <= k < |code| && d < n && (d in UsedRegs(code[k]) || d in DefRegs(code[k])) ==>
               d in UsedRegs(i) || d in DefRegs(i) || exists r :: r in known && known[r] == d
    requires forall r :: r in known' ==>
               && (r in known || r in UsedRegs(i) || r >= n)
               && ((r in known && known'[r] == known[r]) || known'[r] >= n)
    ensures Tail(pre + code, post, known')
  {
    var rest := [i] + post;
    forall j: nat | j < |post| ensures TailAt(pre + code, post, known', j) {
      assert TailAt(pre, rest, known, j + 1) && rest[j + 1] == post[j];
      assert Below(post[j], n);
      forall d | d in DefRegs(post[j])
        ensures NotIn(d, post[..j]) && d !in UsedRegs(post[j]) && NotIn(d, pre + code) && Apart(d, known')
      {
        assert NotIn(d, rest[..j + 1]) && NotIn(d, pre) && Apart(d, known);
        assert rest[..j + 1][0] == i;
        forall k | 0 <= k < |post[..j]| ensures d !in UsedRegs(post[..j][k]) && d !in DefRegs(post[..j][k]) {
          assert rest[..j + 1][k + 1] == post[..j][k];
        }
        forall k | 0 <= k < |pre + code| ensures d !in UsedRegs((pre + code)[k]) && d !in DefRegs((pre + code)[k]) {
          if k >= |pre| { assert (pre + code)[k] == code[k - |pre|]; }
        }
      }
    }
  }
}
