/**
 The walk over a block as a loop, one instruction at a time.
 */
module HardenWalk {
  import opened Options
  import opened Machine
  import opened Liveness
  import opened Simulation
  import opened Masking
  import opened Harden
  import opened PostLoad
  import opened HardenPass
  import opened Coverage

  /** Walked and remaining instructions of block `b`, and the masks known in between. */
  ghost predicate Walk(env: Env, f0: Func, n0: nat, p: Progress, b: BlockId, pre: seq<Instr>, post: seq<Instr>, known: Known) {
    && PassInv(env, f0, n0, p) && b in p.f.blocks && p.f.blocks[b].body == pre + post
    && KnownBelow(known, p.next) && KnownAfter(env, pre, known) && Tail(pre, post, known)
  }

  lemma WalkBelow(env: Env, f0: Func, n0: nat, p: Progress, b: BlockId, pre: seq<Instr>, post: seq<Instr>, known: Known)
    requires Walk(env, f0, n0, p, b, pre, post, known)
    ensures BodyBelow(pre, p.next) && BodyBelow(post, p.next)
  {
    assert BlockBelow(p.f.blocks[b], p.next);
    BodyBelowConcat(pre, post, p.next);
  }

  /** What the first remaining instruction defines is neither known nor used by it nor walked over. */
  lemma TailHead(pre: seq<Instr>, i: Instr, rest: seq<Instr>, known: Known, d: Reg)
    requires Tail(pre, [i] + rest, known) && d in DefRegs(i)
    ensures Apart(d, known) && NotIn(d, pre) && d !in UsedRegs(i)
  {
    assert TailAt(pre, [i] + rest, known, 0) && ([i] + rest)[0] == i;
  }

  lemma KeepStep(env: Env, f0: Func, n0: nat, p: Progress, b: BlockId, pre: seq<Instr>, i: Instr, rest: seq<Instr>, known: Known)
    requires Walk(env, f0, n0, p, b, pre, [i] + rest, known)
    ensures Walk(env, f0, n0, p, b, pre + [i], rest, known)
  {
    WalkBelow(env, f0, n0, p, b, pre, [i] + rest, known);
    BodyBelowConcat([i], rest, p.next);
    forall r | r in known ensures r !in DefRegs(i) && known[r] !in DefRegs(i) {
      forall d | d in DefRegs(i) ensures r != d && known[r] != d { TailHead(pre, i, rest, known, d); }
    }
    KnownKeep(env, pre, i, known);
    TailStep(pre, i, rest, known, [i], known, p.next);
    assert pre + ([i] + rest) == pre + [i] + rest;
  }

  // ----- an address -----

  function AddrProgress(p: Progress, n0: nat, b: BlockId, pre: seq<Instr>, load: Instr, rest: seq<Instr>,
                        plan: Plan, live: bool, shrx: bool): Progress
    requires b in p.f.blocks && load.Op?
  {
    Progress(WithBody(p.f, b, pre + AddrCode(load, plan, live, shrx, p.next) + rest), plan.next,
             Compose(p.ren, NONE, n0))
  }

  lemma MaskCodeRegs(ops: seq<(Reg, Reg)>, live: bool, shrx: bool, fr: Reg, k: nat, d: Reg, n: nat)
    requires MaskOps(ops, n) && n <= fr && k < |MaskCode(ops, live, shrx, fr)| && d < n
    requires d in UsedRegs(MaskCode(ops, live, shrx, fr)[k]) || d in DefRegs(MaskCode(ops, live, shrx, fr)[k])
    ensures exists j :: 0 <= j < |ops| && ops[j].0 == d
  {
    var code := MaskCode(ops, live, shrx, fr);
    if live && !shrx {
      if 0 < k < |code| - 1 { assert code[k] == Masks(ops, false)[k - 1] && ops[k - 1].0 == d; }
    } else {
      assert code[k] == Masks(ops, live)[k] && ops[k].0 == d;
    }
  }

  /** Registers below `n` in the rewritten load are registers of the load or known masks. */
  lemma AddrCodeRegs(load: Instr, known: Known, n: nat, live: bool, shrx: bool, k: nat, d: Reg)
    requires load.Op? && load.mem.Some? && Below(load, n) && KnownBelow(known, n)
    requires var code := AddrCode(load, AddrPlan(load, known, n, live, shrx), live, shrx, n);
             k < |code| && d < n && (d in UsedRegs(code[k]) || d in DefRegs(code[k]))
    ensures d in UsedRegs(load) || d in DefRegs(load) || exists r :: r in known && known[r] == d
  {
    var a := load.mem.value;
    var p := AddrPlan(load, known, n, live, shrx);
    var masks := MasksOf(p, live, shrx, n);
    assert AddrRegs(a) <= UsedRegs(load);
    if k < |masks| {
      PlanOps(a, known, FirstMask(n, live, shrx), n);
      assert AddrCode(load, p, live, shrx, n)[k] == masks[k];
      MaskCodeRegs(p.ops, live, shrx, n, k, d, n);
    } else {
      PlanRegs(a, known, FirstMask(n, live, shrx), n);
      LoadRegs(load, p.addr, d);
    }
  }

  lemma LoadRegs(load: Instr, addr: Addr, d: Reg)
    requires load.Op? && load.mem.Some?
    requires d in UsedRegs(load.(mem := Some(addr))) || d in DefRegs(load.(mem := Some(addr)))
    ensures d in UsedRegs(load) || d in DefRegs(load) || d in AddrRegs(addr)
  {
  }

  /** Neither a known register nor its mask is what the load defines. */
  lemma AddrApart(pre: seq<Instr>, load: Instr, rest: seq<Instr>, known: Known, n: nat, live: bool, shrx: bool, plan: Plan)
    requires Tail(pre, [load] + rest, known) && load.Op? && load.mem.Some? && Below(load, n) && KnownBelow(known, n)
    requires plan == AddrPlan(load, known, n, live, shrx)
    ensures forall r :: r in plan.known ==> r !in DefRegs(load) && plan.known[r] !in DefRegs(load)
  {
    AddrCodeBelow(load, known, n, live, shrx);
    forall r | r in plan.known ensures r !in DefRegs(load) && plan.known[r] !in DefRegs(load) {
      forall d | d in DefRegs(load) ensures r != d && plan.known[r] != d { TailHead(pre, load, rest, known, d); }
    }
  }

  lemma AddrKnown(env: Env, f0: Func, n0: nat, p: Progress, b: BlockId, pre: seq<Instr>, load: Instr,
                  rest: seq<Instr>, known: Known, live: bool, shrx: bool)
    requires Walk(env, f0, n0, p, b, pre, [load] + rest, known) && load.Op? && load.mem.Some?
    ensures Below(load, p.next) && BodyBelow(rest, p.next)
    ensures var plan := AddrPlan(load, known, p.next, live, shrx);
            var code := AddrCode(load, plan, live, shrx, p.next);
            && KnownBelow(plan.known, plan.next) && KnownAfter(env, pre + code, plan.known)
            && Tail(pre + code, rest, plan.known)
  {
    var n := p.next;
    WalkBelow(env, f0, n0, p, b, pre, [load] + rest, known);
    BodyBelowConcat([load], rest, n);
    assert Below([load][0], n);
    var plan := AddrPlan(load, known, n, live, shrx);
    var code := AddrCode(load, plan, live, shrx, n);
    AddrCodeBelow(load, known, n, live, shrx);
    AddrApart(pre, load, rest, known, n, live, shrx, plan);
    KnownAddr(env, n, pre, load, known, FirstMask(n, live, shrx), live, shrx, n);
    forall k, d | 0 <= k < |code| && d < n && (d in UsedRegs(code[k]) || d in DefRegs(code[k]))
      ensures d in UsedRegs(load) || d in DefRegs(load) || exists r :: r in known && known[r] == d
    {
      AddrCodeRegs(load, known, n, live, shrx, k, d);
    }
    TailStep(pre, load, rest, known, code, plan.known, n);
  }

  lemma AddrWalk(env: Env, f0: Func, n0: nat, p: Progress, b: BlockId, pre: seq<Instr>, load: Instr,
                 rest: seq<Instr>, known: Known, shrx: bool)
    requires Walk(env, f0, n0, p, b, pre, [load] + rest, known) && load.Op? && load.mem.Some?
    ensures var live := LiveEnd(pre, p.f.blocks[b].flagsLiveIn);
            var plan := AddrPlan(load, known, p.next, live, shrx);
            Walk(env, f0, n0, AddrProgress(p, n0, b, pre, load, rest, plan, live, shrx), b,
                 pre + AddrCode(load, plan, live, shrx, p.next), rest, plan.known)
  {
    var live := LiveEnd(pre, p.f.blocks[b].flagsLiveIn);
    assert pre + ([load] + rest) == pre + [load] + rest;
    AddrPass(env, f0, n0, p, b, pre, load, rest, known, shrx);
    AddrKnown(env, f0, n0, p, b, pre, load, rest, known, live, shrx);
  }

  // ----- a value -----

  lemma RenInstrRegs(i: Instr, r: Reg, h: Reg)
    ensures UsedRegs(RenInstr(map[r := h], i)) <= UsedRegs(i) - {r} + {h} + FlagUses(i)
    ensures r !in DefRegs(i) ==> DefRegs(RenInstr(map[r := h], i)) == DefRegs(i)
    ensures r !in DefRegs(i) && r !in UsedRegs(i) ==> RenInstr(map[r := h], i) == i
  {
    var m: Renaming := map[r := h];
    var i' := RenInstr(m, i);
    if i.Op? {
      forall q | q in UsedRegs(i') ensures q in UsedRegs(i) - {r} + {h} {
        if j :| 0 <= j < |i.srcs| && i'.srcs[j] == q { assert i.srcs[j] in UsedRegs(i); }
        else {
          assert q in AddrRegs(i'.mem.value);
          assert AddrRegs(i.mem.value) <= UsedRegs(i);
        }
      }
      if r !in UsedRegs(i) {
        forall j | 0 <= j < |i.srcs| ensures i'.srcs[j] == i.srcs[j] { assert i.srcs[j] in UsedRegs(i); }
        assert i'.srcs == i.srcs;
        if i.mem.Some? { assert AddrRegs(i.mem.value) <= UsedRegs(i); }
      }
    }
  }

  function FlagUses(i: Instr): set<Reg> { if i.RestoreFlags? then {i.fsrc} else {} }

  lemma RenNotIn(body: seq<Instr>, r: Reg, h: Reg)
    requires NotIn(r, body)
    ensures RenBody(map[r := h], body) == body
  {
    forall k | 0 <= k < |body| ensures RenInstr(map[r := h], body[k]) == body[k] { RenInstrRegs(body[k], r, h); }
  }

  lemma {:induction false} KnownKeepAll(env: Env, pre: seq<Instr>, code: seq<Instr>, known: Known)
    requires KnownAfter(env, pre, known)
    requires forall k, r :: 0 <= k < |code| && r in known ==> r !in DefRegs(code[k]) && known[r] !in DefRegs(code[k])
    ensures KnownAfter(env, pre + code, known)
    decreases |code|
  {
    if code == [] {
      assert pre + code == pre;
    } else {
      KnownKeep(env, pre, code[0], known);
      KnownKeepAll(env, pre + [code[0]], code[1..], known);
      assert pre + [code[0]] + code[1..] == pre + code;
    }
  }

  lemma KnownItself(env: Env, pre: seq<Instr>, known: Known, h: Reg)
    requires KnownAfter(env, pre, known) && h !in known
    ensures KnownAfter(env, pre, known[h := h])
  {
    forall s: State | Exec(env, pre, s).ps == 0 ensures KnownOk(known[h := h], Exec(env, pre, s)) {
      assert KnownOk(known, Exec(env, pre, s));
    }
  }

  /** Renaming `r`, which the rest does not define, to a register above `n`. */
  lemma TailRenAt(pre: seq<Instr>, post: seq<Instr>, known: Known, r: Reg, h: Reg, n: nat, j: nat)
    requires j < |post| && TailAt(pre, post, known, j) && Below(post[j], n) && n <= h
    requires forall k :: 0 <= k < |post| ==> r !in DefRegs(post[k]) && FlagUses(post[k]) == {}
    ensures TailAt(pre, RenBody(map[r := h], post), known, j)
  {
    var post' := RenBody(map[r := h], post);
    RenInstrRegs(post[j], r, h);
    forall d | d in DefRegs(post'[j]) ensures NotIn(d, post'[..j]) {
      assert NotIn(d, post[..j]);
      forall k | 0 <= k < |post'[..j]| ensures d !in UsedRegs(post'[..j][k]) && d !in DefRegs(post'[..j][k]) {
        assert post[..j][k] == post[k] && post'[..j][k] == post'[k];
        RenInstrRegs(post[k], r, h);
      }
    }
  }

  lemma TailRen(pre: seq<Instr>, post: seq<Instr>, known: Known, r: Reg, h: Reg, n: nat)
    requires Tail(pre, post, known) && BodyBelow(post, n) && n <= h
    requires forall k :: 0 <= k < |post| ==> r !in DefRegs(post[k]) && FlagUses(post[k]) == {}
    ensures Tail(pre, RenBody(map[r := h], post), known)
  {
    forall j: nat | j < |post| ensures TailAt(pre, RenBody(map[r := h], post), known, j) {
      assert TailAt(pre, post, known, j);
      TailRenAt(pre, post, known, r, h, n, j);
    }
  }

  /** What is still to be walked holds no hardening code: that lies behind. */
  ghost predicate NoFlagCopies(body: seq<Instr>) { forall k :: 0 <= k < |body| ==> FlagUses(body[k]) == {} }

  ghost predicate Unwalked(body: seq<Instr>) {
    Tail([], body, map[]) && forall k :: 0 <= k < |body| ==> body[k].Op? || body[k].CMovPoison?
  }

  lemma RenImage(i: Instr, r: Reg, h: Reg, q: Reg)
    requires i.Op? || i.CMovPoison?
    ensures q in UsedRegs(RenInstr(map[r := h], i)) ==> exists x :: x in UsedRegs(i) && Ren(map[r := h], x) == q
    ensures q in DefRegs(RenInstr(map[r := h], i)) ==> exists x :: x in DefRegs(i) && Ren(map[r := h], x) == q
  {
    var m: Renaming := map[r := h];
    var i' := RenInstr(m, i);
    if i.Op? && q in UsedRegs(i') {
      if j :| 0 <= j < |i.srcs| && i'.srcs[j] == q {
        assert i.srcs[j] in UsedRegs(i) && Ren(m, i.srcs[j]) == q;
      } else {
        var a := i.mem.value;
        assert AddrRegs(a) <= UsedRegs(i);
        if a.base.BaseReg? { assert a.base.reg in AddrRegs(a) && a.base.reg in UsedRegs(i); }
        if a.index.Some? { assert a.index.value in AddrRegs(a) && a.index.value in UsedRegs(i); }
      }
    }
    if i.Op? && q in DefRegs(i') { assert i.dst.value in DefRegs(i) && Ren(m, i.dst.value) == q; }
  }

  /** Renaming to a fresh register keeps a block in SSA form. */
  lemma UnwalkedRen(body: seq<Instr>, r: Reg, h: Reg, n: nat)
    requires Unwalked(body) && BodyBelow(body, n) && n <= h
    ensures Unwalked(RenBody(map[r := h], body))
  {
    var m: Renaming := map[r := h];
    var body' := RenBody(m, body);
    forall j: nat | j < |body| ensures TailAt([], body', map[], j) {
      assert TailAt([], body, map[], j) && Below(body[j], n);
      forall d' | d' in DefRegs(body'[j]) ensures NotIn(d', body'[..j]) && d' !in UsedRegs(body'[j]) {
        RenImage(body[j], r, h, d');
        var d :| d in DefRegs(body[j]) && Ren(m, d) == d';
        forall k | 0 <= k < |body'[..j]| ensures d' !in UsedRegs(body'[..j][k]) && d' !in DefRegs(body'[..j][k]) {
          assert body'[..j][k] == body'[k] && body[..j][k] == body[k] && Below(body[k], n);
          RenImage(body[k], r, h, d');
        }
      }
    }
  }

  /** The rewritten load, renamed, defines only fresh registers and uses what the load used. */
  lemma PostCodeRegs(load: Instr, n: nat, live: bool, k: nat)
    requires load.Op? && load.dst.Some? && Below(load, n) && load.dst.value !in UsedRegs(load)
    requires k < |PostCode(load, n, load.dst.value, live, n + 1)|
    ensures var c := RenInstr(map[load.dst.value := n + 2], PostCode(load, n, load.dst.value, live, n + 1)[k]);
            && (forall d :: d in DefRegs(c) ==> d >= n)
            && (forall d :: d in UsedRegs(c) && d < n ==> d in UsedRegs(load))
  {
    var r := load.dst.value;
    assert r in DefRegs(load);
    var code := PostCode(load, n, r, live, n + 1);
    assert Masks([(n, r)], false) == [MaskOr(r, n)];
    if k == 0 {
      var load' := load.(dst := Some(n));
      assert code[0] == load' && UsedRegs(load') == UsedRegs(load);
      RenInstrRegs(load', r, n + 2);
    }
  }

  lemma LaterDef(pre: seq<Instr>, i: Instr, rest: seq<Instr>, known: Known, j: nat, d: Reg)
    requires Tail(pre, [i] + rest, known) && j < |rest| && d in DefRegs(rest[j])
    ensures d !in DefRegs(i)
  {
    var all := [i] + rest;
    assert TailAt(pre, all, known, j + 1) && all[j + 1] == rest[j];
    assert NotIn(d, all[..j + 1]);
    assert all[..j + 1][0] == i;
  }

  /** The walked part once the value of `load` is masked. */
  function PostPrefix(pre: seq<Instr>, load: Instr, n: nat, live: bool): seq<Instr>
    requires load.Op? && load.dst.Some?
  {
    pre + ValuePiece(load, n, live)
  }

  /** The rest of the block once the value of `load` is masked. */
  function ValueRest(load: Instr, n: nat, rest: seq<Instr>): (r: seq<Instr>)
    requires load.Op? && load.dst.Some?
    ensures |r| == |rest|
  {
    RenBody(map[load.dst.value := n + 2], rest)
  }

  lemma ValueKnown(env: Env, pre: seq<Instr>, load: Instr, rest: seq<Instr>, known: Known, n: nat, live: bool,
                   pre': seq<Instr>, rest': seq<Instr>, known': Known)
    requires load.Op? && load.dst.Some? && Below(load, n) && BodyBelow(rest, n) && NoFlagCopies(rest)
    requires KnownBelow(known, n) && KnownAfter(env, pre, known) && Tail(pre, [load] + rest, known)
    requires pre' == PostPrefix(pre, load, n, live) && rest' == ValueRest(load, n, rest) && known' == known[n + 2 := n + 2]
    ensures KnownAfter(env, pre', known') && Tail(pre', rest', known') && KnownBelow(known', n + 3)
  {
    var r, h := load.dst.value, n + 2;
    var m: Renaming := map[r := h];
    var code := RenBody(m, PostCode(load, n, r, live, n + 1));
    assert r in DefRegs(load);
    TailHead(pre, load, rest, known, r);
    forall k | 0 <= k < |code|
      ensures (forall d :: d in DefRegs(code[k]) ==> d >= n) && (forall d :: d in UsedRegs(code[k]) && d < n ==> d in UsedRegs(load))
    {
      PostCodeRegs(load, n, live, k);
    }
    KnownKeepAll(env, pre, code, known);
    KnownItself(env, pre + code, known, h);
    TailStep(pre, load, rest, known, code, known[h := h], n);
    forall j | 0 <= j < |rest| ensures r !in DefRegs(rest[j]) {
      forall d | d in DefRegs(rest[j]) ensures d != r { LaterDef(pre, load, rest, known, j, d); }
    }
    TailRen(pre + code, rest, known[h := h], r, h, n);
  }

  lemma RenamedBody(f: Func, b: BlockId, pre: seq<Instr>, code: seq<Instr>, rest: seq<Instr>, r: Reg, h: Reg)
    requires b in f.blocks && NotIn(r, pre)
    ensures var m: Renaming := map[r := h];
            var g := RenFunc(m, WithBody(f, b, pre + code + rest));
            b in g.blocks && g.blocks[b].body == pre + RenBody(m, code) + RenBody(m, rest)
  {
    ThreeParts(pre, code, rest, r, 0, h);
    RenNotIn(pre, r, h);
  }

  /** The shape of the block once the value of `load` is masked. */
  lemma ValueShape(p: Progress, n0: nat, b: BlockId, pre: seq<Instr>, load: Instr, rest: seq<Instr>)
    requires b in p.f.blocks && load.Op? && load.dst.Some? && NotIn(load.dst.value, pre)
    ensures var live := LiveAfter(load, LiveEnd(pre, p.f.blocks[b].flagsLiveIn));
            var q := PostProgress(p, n0, b, pre, load, rest);
            && q.next == p.next + 3 && b in q.f.blocks
            && q.f.blocks[b].body == PostPrefix(pre, load, p.next, live) + ValueRest(load, p.next, rest)
  {
    var live := LiveAfter(load, LiveEnd(pre, p.f.blocks[b].flagsLiveIn));
    var code := PostCode(load, p.next, load.dst.value, live, p.next + 1);
    var v := ValueProgress(p, n0, b, pre, load, rest);
    assert v.f == WithBody(p.f, b, pre + code + rest) && v.next == p.next + 2;
    RenamedBody(p.f, b, pre, code, rest, load.dst.value, v.next);
    assert PostProgress(p, n0, b, pre, load, rest) == RenameProgress(v, n0, load.dst.value);
  }

  lemma ValuePassed(env: Env, f0: Func, n0: nat, p: Progress, b: BlockId, pre: seq<Instr>, load: Instr, rest: seq<Instr>,
                    known: Known, q: Progress, pre': seq<Instr>)
    requires Walk(env, f0, n0, p, b, pre, [load] + rest, known) && load.Op? && load.dst.Some?
    requires q == PostProgress(p, n0, b, pre, load, rest)
    requires pre' == PostPrefix(pre, load, p.next, LiveAfter(load, LiveEnd(pre, p.f.blocks[b].flagsLiveIn)))
    ensures PassInv(env, f0, n0, q) && q.next == p.next + 3
    ensures b in q.f.blocks && q.f.blocks[b].body == pre' + ValueRest(load, p.next, rest)
  {
    assert pre + ([load] + rest) == pre + [load] + rest;
    assert load.dst.value in DefRegs(load);
    TailHead(pre, load, rest, known, load.dst.value);
    PostPass(env, f0, n0, p, b, pre, load, rest);
    ValueShape(p, n0, b, pre, load, rest);
  }

  lemma ValueWalk(env: Env, f0: Func, n0: nat, p: Progress, b: BlockId, pre: seq<Instr>, load: Instr, rest: seq<Instr>,
                  known: Known, q: Progress, pre': seq<Instr>, rest': seq<Instr>, known': Known)
    requires Walk(env, f0, n0, p, b, pre, [load] + rest, known) && load.Op? && load.dst.Some? && NoFlagCopies(rest)
    requires q == PostProgress(p, n0, b, pre, load, rest) && rest' == ValueRest(load, p.next, rest)
    requires pre' == PostPrefix(pre, load, p.next, LiveAfter(load, LiveEnd(pre, p.f.blocks[b].flagsLiveIn)))
    requires known' == known[p.next + 2 := p.next + 2]
    ensures Walk(env, f0, n0, q, b, pre', rest', known')
  {
    ValuePassed(env, f0, n0, p, b, pre, load, rest, known, q, pre');
    HeadBelow(env, f0, n0, p, b, pre, load, rest, known);
    ValueKnown(env, pre, load, rest, known, p.next, LiveAfter(load, LiveEnd(pre, p.f.blocks[b].flagsLiveIn)), pre', rest', known');
  }

  lemma HeadBelow(env: Env, f0: Func, n0: nat, p: Progress, b: BlockId, pre: seq<Instr>, load: Instr, rest: seq<Instr>, known: Known)
    requires Walk(env, f0, n0, p, b, pre, [load] + rest, known)
    ensures Below(load, p.next) && BodyBelow(rest, p.next)
  {
    WalkBelow(env, f0, n0, p, b, pre, [load] + rest, known);
    BodyBelowConcat([load], rest, p.next);
    assert Below([load][0], p.next);
  }

  // ----- the loops -----

  lemma OtherRenamed(p: Progress, n0: nat, b: BlockId, pre: seq<Instr>, load: Instr, rest: seq<Instr>, c: BlockId)
    requires b in p.f.blocks && load.Op? && load.dst.Some? && c in p.f.blocks && c != b
    ensures c in PostProgress(p, n0, b, pre, load, rest).f.blocks
    ensures PostProgress(p, n0, b, pre, load, rest).f.blocks[c].body == RenBody(map[load.dst.value := p.next + 2], p.f.blocks[c].body)
  {
    var v := ValueProgress(p, n0, b, pre, load, rest);
    assert v.f.blocks[c] == p.f.blocks[c] && v.next == p.next + 2;
    assert PostProgress(p, n0, b, pre, load, rest).f == RenFunc(map[load.dst.value := v.next], v.f);
  }

  ghost predicate Hardenable(body: seq<Instr>) {
    forall k :: 0 <= k < |body| ==> body[k].Op? || body[k].CMovPoison?
  }

  /** The walk over a block: the function so far, what lies behind and ahead, and the known masks. */
  datatype Walker = Walker(p: Progress, pre: seq<Instr>, post: seq<Instr>, known: Known)

  function LiveAt(w: Walker, b: BlockId): bool
    requires b in w.p.f.blocks
  {
    LiveEnd(w.pre, w.p.f.blocks[b].flagsLiveIn)
  }

  function KeepResult(w: Walker): Walker
    requires w.post != []
  {
    Walker(w.p, w.pre + [w.post[0]], w.post[1..], w.known)
  }

  function AddrPiece(w: Walker, b: BlockId, shrx: bool): seq<Instr>
    requires b in w.p.f.blocks && w.post != [] && w.post[0].Op? && w.post[0].mem.Some?
  {
    var live := LiveAt(w, b);
    AddrCode(w.post[0], AddrPlan(w.post[0], w.known, w.p.next, live, shrx), live, shrx, w.p.next)
  }

  function AddrResult(n0: nat, w: Walker, b: BlockId, shrx: bool): Walker
    requires b in w.p.f.blocks && w.post != [] && w.post[0].Op? && w.post[0].mem.Some?
  {
    var live := LiveAt(w, b);
    var plan := AddrPlan(w.post[0], w.known, w.p.next, live, shrx);
    Walker(AddrProgress(w.p, n0, b, w.pre, w.post[0], w.post[1..], plan, live, shrx),
           w.pre + AddrPiece(w, b, shrx), w.post[1..], plan.known)
  }

  function ValueResult(n0: nat, w: Walker, b: BlockId): Walker
    requires b in w.p.f.blocks && w.post != [] && w.post[0].Op? && w.post[0].dst.Some?
  {
    var mi, h := w.post[0], w.p.next + 2;
    Walker(PostProgress(w.p, n0, b, w.pre, mi, w.post[1..]), PostPrefix(w.pre, mi, w.p.next, LiveAfter(mi, LiveAt(w, b))),
           ValueRest(mi, w.p.next, w.post[1..]), w.known[h := h])
  }

  /** Apply the action chosen for the next instruction, if it fits the instruction. */
  function HardenStep(n0: nat, w: Walker, b: BlockId, action: Action, shrx: bool): Walker
    requires b in w.p.f.blocks && w.post != []
  {
    if action.MaskAddress? && w.post[0].Op? && w.post[0].mem.Some? then AddrResult(n0, w, b, shrx)
    else if action.MaskValue? && w.post[0].Op? && w.post[0].dst.Some? then ValueResult(n0, w, b)
    else KeepResult(w)
  }

  /** Where the walk over block `b` stands. */
  ghost predicate Stage(env: Env, f0: Func, n0: nat, w: Walker, b: BlockId) {
    Walk(env, f0, n0, w.p, b, w.pre, w.post, w.known) && Hardenable(w.post)
  }

  lemma Peel(post: seq<Instr>)
    requires post != [] && Hardenable(post)
    ensures post == [post[0]] + post[1..] && Hardenable(post[1..]) && NoFlagCopies(post[1..])
  {
  }

  lemma KeepStage(env: Env, f0: Func, n0: nat, w: Walker, b: BlockId)
    requires Stage(env, f0, n0, w, b) && w.post != []
    ensures Stage(env, f0, n0, KeepResult(w), b)
  {
    Peel(w.post);
    KeepStep(env, f0, n0, w.p, b, w.pre, w.post[0], w.post[1..], w.known);
  }

  lemma AddrStage(env: Env, f0: Func, n0: nat, w: Walker, b: BlockId, shrx: bool)
    requires Stage(env, f0, n0, w, b) && w.post != [] && w.post[0].Op? && w.post[0].mem.Some?
    ensures Stage(env, f0, n0, AddrResult(n0, w, b, shrx), b)
  {
    Peel(w.post);
    AddrWalk(env, f0, n0, w.p, b, w.pre, w.post[0], w.post[1..], w.known, shrx);
  }

  lemma RenHardenable(body: seq<Instr>, r: Reg, h: Reg)
    requires Hardenable(body)
    ensures Hardenable(RenBody(map[r := h], body)) && |RenBody(map[r := h], body)| == |body|
  {
  }

  lemma ValueParts(n0: nat, w: Walker, b: BlockId, v: Walker)
    requires b in w.p.f.blocks && w.post != [] && w.post[0].Op? && w.post[0].dst.Some? && v == ValueResult(n0, w, b)
    ensures v.p == PostProgress(w.p, n0, b, w.pre, w.post[0], w.post[1..])
    ensures v.pre == PostPrefix(w.pre, w.post[0], w.p.next, LiveAfter(w.post[0], LiveEnd(w.pre, w.p.f.blocks[b].flagsLiveIn)))
    ensures v.post == ValueRest(w.post[0], w.p.next, w.post[1..]) && v.known == w.known[w.p.next + 2 := w.p.next + 2]
  {
  }

  lemma ValueWalks(env: Env, f0: Func, n0: nat, w: Walker, b: BlockId, v: Walker)
    requires Walk(env, f0, n0, w.p, b, w.pre, w.post, w.known) && Hardenable(w.post)
    requires w.post != [] && w.post[0].Op? && w.post[0].dst.Some? && v == ValueResult(n0, w, b)
    ensures Walk(env, f0, n0, v.p, b, v.pre, v.post, v.known)
  {
    Peel(w.post);
    ValueParts(n0, w, b, v);
    ValueWalk(env, f0, n0, w.p, b, w.pre, w.post[0], w.post[1..], w.known, v.p, v.pre, v.post, v.known);
  }

  lemma ValueStage(env: Env, f0: Func, n0: nat, w: Walker, b: BlockId, v: Walker)
    requires Stage(env, f0, n0, w, b) && w.post != [] && w.post[0].Op? && w.post[0].dst.Some?
    requires v == ValueResult(n0, w, b)
    ensures Stage(env, f0, n0, v, b)
  {
    ValueWalks(env, f0, n0, w, b, v);
    ValueParts(n0, w, b, v);
    Peel(w.post);
    RenHardenable(w.post[1..], w.post[0].dst.value, w.p.next + 2);
  }

  /** Whatever the action, the step keeps the pass and the walk in order. */
  lemma StepStage(env: Env, f0: Func, n0: nat, w: Walker, b: BlockId, action: Action, shrx: bool)
    requires b in w.p.f.blocks && Stage(env, f0, n0, w, b) && w.post != []
    ensures Stage(env, f0, n0, HardenStep(n0, w, b, action, shrx), b)
  {
    if action.MaskAddress? && w.post[0].Op? && w.post[0].mem.Some? {
      AddrStage(env, f0, n0, w, b, shrx);
    } else if action.MaskValue? && w.post[0].Op? && w.post[0].dst.Some? {
      ValueStage(env, f0, n0, w, b, ValueResult(n0, w, b));
    } else {
      KeepStage(env, f0, n0, w, b);
    }
  }
}
