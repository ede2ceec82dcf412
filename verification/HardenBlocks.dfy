/**
 The second phase over a whole function: block after block, every instruction is treated as was
 chosen for it, and what the other blocks have become is only renamed.
 */
module HardenBlocks {
  import opened Options
  import opened Machine
  import opened Liveness
  import opened Simulation
  import opened Masking
  import opened Harden
  import opened PostLoad
  import opened HardenPass
  import opened Coverage
  import opened HardenWalk

  // ----- renamings, composed -----

  lemma RenTwice(i: Instr, m: Renaming, k: Renaming, n: nat)
    requires Below(i, n)
    ensures RenInstr(k, RenInstr(m, i)) == RenInstr(Compose(m, k, n), i)
  {
    if i.Op? {
      forall j | 0 <= j < |i.srcs| ensures Ren(k, Ren(m, i.srcs[j])) == Ren(Compose(m, k, n), i.srcs[j]) {
        assert i.srcs[j] in UsedRegs(i);
      }
      assert RenRegs(k, RenRegs(m, i.srcs)) == RenRegs(Compose(m, k, n), i.srcs);
      if i.dst.Some? { assert i.dst.value in DefRegs(i); }
      if i.mem.Some? { AddrTwice(i.mem.value, UsedRegs(i), m, k, n); }
    } else if IsMask(i) {
      assert i.mdst in DefRegs(i) && i.msrc in UsedRegs(i);
    }
  }

  lemma AddrTwice(a: Addr, used: set<Reg>, m: Renaming, k: Renaming, n: nat)
    requires AddrRegs(a) <= used && forall r :: r in used ==> r < n
    ensures RenAddr(k, RenAddr(m, a)) == RenAddr(Compose(m, k, n), a)
  {
    if a.base.BaseReg? { assert a.base.reg in AddrRegs(a); }
    if a.index.Some? { assert a.index.value in AddrRegs(a); }
  }

  lemma RenBodyTwice(body: seq<Instr>, m: Renaming, k: Renaming, n: nat)
    requires BodyBelow(body, n)
    ensures RenBody(k, RenBody(m, body)) == RenBody(Compose(m, k, n), body)
  {
    forall j | 0 <= j < |body| ensures RenInstr(k, RenInstr(m, body[j])) == RenInstr(Compose(m, k, n), body[j]) {
      RenTwice(body[j], m, k, n);
    }
  }

  lemma RenBodySame(body: seq<Instr>, m: Renaming, n: nat)
    requires BodyBelow(body, n)
    ensures RenBody(Compose(m, NONE, n), body) == RenBody(m, body)
  {
    RenBodyTwice(body, m, NONE, n);
    RenIdentity(RenBody(m, body));
  }

  /** Below `n0`, `ren'` is `ren` and then `r` renamed to `h`. */
  ghost predicate RenThen(ren: Renaming, n0: nat, r: Reg, h: Reg, ren': Renaming) {
    forall x: Reg {:trigger Ren(ren', x)} :: x < n0 ==> Ren(ren', x) == Ren(map[r := h], Ren(ren, x))
  }

  lemma RenSameBelow(i: Instr, m: Renaming, k: Renaming, n: nat)
    requires Below(i, n) && forall x: Reg {:trigger Ren(m, x)} :: x < n ==> Ren(m, x) == Ren(k, x)
    ensures RenInstr(m, i) == RenInstr(k, i)
  {
    if i.Op? {
      forall j | 0 <= j < |i.srcs| ensures Ren(m, i.srcs[j]) == Ren(k, i.srcs[j]) { assert i.srcs[j] in UsedRegs(i); }
      assert RenRegs(m, i.srcs) == RenRegs(k, i.srcs);
      if i.dst.Some? { assert i.dst.value in DefRegs(i); }
      if i.mem.Some? {
        var a := i.mem.value;
        assert AddrRegs(a) <= UsedRegs(i);
        if a.base.BaseReg? { assert a.base.reg in AddrRegs(a); }
        if a.index.Some? { assert a.index.value in AddrRegs(a); }
      }
    } else if IsMask(i) {
      assert i.mdst in DefRegs(i) && i.msrc in UsedRegs(i);
    }
  }

  lemma ValueRenBody(body: seq<Instr>, ren: Renaming, n0: nat, r: Reg, h: Reg, ren': Renaming)
    requires BodyBelow(body, n0) && RenThen(ren, n0, r, h, ren')
    ensures RenBody(ren', body) == RenBody(map[r := h], RenBody(ren, body))
  {
    RenBodyTwice(body, ren, map[r := h], n0);
    forall j | 0 <= j < |body| ensures RenInstr(ren', body[j]) == RenInstr(Compose(ren, map[r := h], n0), body[j]) {
      RenSameBelow(body[j], ren', Compose(ren, map[r := h], n0), n0);
    }
  }

  /** Where the registers below `n0` are now. */
  ghost predicate RenBelow(ren: Renaming, n0: nat, n: nat) { n0 <= n && forall r: Reg :: r < n0 ==> Ren(ren, r) < n }

  lemma RenInstrBelow(i: Instr, ren: Renaming, n0: nat, n: nat)
    requires Below(i, n0) && RenBelow(ren, n0, n)
    ensures Below(RenInstr(ren, i), n)
  {
    var i' := RenInstr(ren, i);
    if i.Op? {
      forall q | q in UsedRegs(i') ensures q < n {
        if j :| 0 <= j < |i.srcs| && i'.srcs[j] == q { assert i.srcs[j] in UsedRegs(i); }
        else {
          var a := i.mem.value;
          assert AddrRegs(a) <= UsedRegs(i);
          if a.base.BaseReg? { assert a.base.reg in AddrRegs(a); }
          if a.index.Some? { assert a.index.value in AddrRegs(a); }
        }
      }
      if i.dst.Some? { assert i.dst.value in DefRegs(i); }
    } else if IsMask(i) {
      assert i.mdst in DefRegs(i) && i.msrc in UsedRegs(i);
    }
  }

  lemma RenBodyBelow(body: seq<Instr>, ren: Renaming, n0: nat, n: nat)
    requires BodyBelow(body, n0) && RenBelow(ren, n0, n)
    ensures BodyBelow(RenBody(ren, body), n)
  {
    forall k | 0 <= k < |body| ensures Below(RenBody(ren, body)[k], n) { RenInstrBelow(body[k], ren, n0, n); }
  }

  // ----- the other blocks -----

  /** The actions for a block: what was chosen, if there is one for every instruction. */
  function ActionsFor(f: Func, actions: map<BlockId, seq<Action>>, b: BlockId): (r: seq<Action>)
    requires b in f.blocks
    ensures |r| == |f.blocks[b].body|
  {
    var k := |f.blocks[b].body|;
    if b in actions && |actions[b]| == k then actions[b] else seq(k, _ => Keep)
  }

  /** Block `b` is the block of `f` under the pass's renaming, every instruction treated as chosen. */
  ghost predicate BlockTreated(f: Func, p: Progress, actions: map<BlockId, seq<Action>>, b: BlockId) {
    && b in f.blocks && b in p.f.blocks
    && Treated(RenBody(p.ren, f.blocks[b].body), ActionsFor(f, actions, b), p.f.blocks[b].body)
  }

  /** Block `b` is still to be walked and has only been renamed. */
  ghost predicate BlockAhead(f: Func, p: Progress, b: BlockId) {
    && b in f.blocks && b in p.f.blocks
    && p.f.blocks[b].body == RenBody(p.ren, f.blocks[b].body) && Unwalked(p.f.blocks[b].body)
  }

  ghost predicate BlockState(f: Func, p: Progress, actions: map<BlockId, seq<Action>>, done: set<BlockId>, b: BlockId) {
    if b in done then BlockTreated(f, p, actions, b) else BlockAhead(f, p, b)
  }

  /** Every block but `b` is treated when done and still to be walked otherwise. */
  ghost predicate OthersOk(f: Func, p: Progress, actions: map<BlockId, seq<Action>>, done: set<BlockId>, b: BlockId) {
    && p.f.layout == f.layout && p.f.blocks.Keys == f.blocks.Keys
    && forall c {:trigger BlockState(f, p, actions, done, c)} :: c in f.blocks && c != b ==> BlockState(f, p, actions, done, c)
  }

  lemma BlockSame(f: Func, n0: nat, p: Progress, q: Progress, actions: map<BlockId, seq<Action>>, done: set<BlockId>, c: BlockId)
    requires BlockState(f, p, actions, done, c) && FuncBelow(f, n0) && c in f.blocks && c in p.f.blocks && c in q.f.blocks
    requires q.f.blocks[c].body == p.f.blocks[c].body && q.ren == Compose(p.ren, NONE, n0)
    ensures BlockState(f, q, actions, done, c)
  {
    assert BlockBelow(f.blocks[c], n0);
    RenBodySame(f.blocks[c].body, p.ren, n0);
  }

  lemma BlockRenamed(f: Func, n0: nat, p: Progress, q: Progress, actions: map<BlockId, seq<Action>>, done: set<BlockId>,
                     c: BlockId, r: Reg, h: Reg)
    requires BlockState(f, p, actions, done, c) && FuncBelow(f, n0) && c in f.blocks && c in p.f.blocks && c in q.f.blocks
    requires BodyBelow(p.f.blocks[c].body, p.next) && RenBelow(p.ren, n0, p.next) && p.next <= h
    requires q.f.blocks[c].body == RenBody(map[r := h], p.f.blocks[c].body) && RenThen(p.ren, n0, r, h, q.ren)
    ensures BlockState(f, q, actions, done, c)
  {
    var orig := f.blocks[c].body;
    assert BlockBelow(f.blocks[c], n0);
    ValueRenBody(orig, p.ren, n0, r, h, q.ren);
    RenBodyBelow(orig, p.ren, n0, p.next);
    if c in done {
      RenTreated(RenBody(p.ren, orig), ActionsFor(f, actions, c), p.f.blocks[c].body, r, h, p.next);
    } else {
      UnwalkedRen(p.f.blocks[c].body, r, h, p.next);
    }
  }

  lemma AddrOthers(f: Func, n0: nat, p: Progress, actions: map<BlockId, seq<Action>>, done: set<BlockId>, b: BlockId,
                   body: seq<Instr>, q: Progress)
    requires OthersOk(f, p, actions, done, b) && FuncBelow(f, n0) && b in p.f.blocks
    requires q.f == WithBody(p.f, b, body) && q.ren == Compose(p.ren, NONE, n0)
    ensures OthersOk(f, q, actions, done, b)
  {
    forall c | c in f.blocks && c != b ensures BlockState(f, q, actions, done, c) {
      BlockSame(f, n0, p, q, actions, done, c);
    }
  }

  lemma ValueOthers(f: Func, n0: nat, p: Progress, actions: map<BlockId, seq<Action>>, done: set<BlockId>, b: BlockId,
                    pre: seq<Instr>, load: Instr, rest: seq<Instr>, q: Progress)
    requires OthersOk(f, p, actions, done, b) && FuncBelow(f, n0) && FuncBelow(p.f, p.next) && RenBelow(p.ren, n0, p.next)
    requires b in p.f.blocks && load.Op? && load.dst.Some? && q == PostProgress(p, n0, b, pre, load, rest)
    ensures OthersOk(f, q, actions, done, b)
  {
    ValueProgressRen(p, n0, b, pre, load, rest);
    forall c | c in f.blocks && c != b ensures BlockState(f, q, actions, done, c) {
      assert BlockBelow(p.f.blocks[c], p.next);
      OtherRenamed(p, n0, b, pre, load, rest, c);
      BlockRenamed(f, n0, p, q, actions, done, c, load.dst.value, p.next + 2);
    }
  }

  // ----- every chosen load is masked -----

  /** After `i` instructions of a block whose instructions were `orig`: those behind are treated, those
      ahead renamed, and known masks are masked. */
  ghost predicate CoveredBy(ren: Renaming, pre: seq<Instr>, post: seq<Instr>, known: Known,
                            orig: seq<Instr>, actions: seq<Action>, i: nat) {
    && i <= |orig| == |actions| && post == RenBody(ren, orig[i..])
    && Treated(RenBody(ren, orig[..i]), actions, pre) && KnownMasked(known, MaskedIn(pre))
    && SourcesBehind(pre, post, known)
  }

  /** What has been masked is known, or nothing ahead uses it. */
  ghost predicate SourcesBehind(pre: seq<Instr>, post: seq<Instr>, known: Known) {
    forall x :: x in Sources(pre) ==> x in known || NotIn(x, post)
  }

  lemma BehindHead(pre: seq<Instr>, i: Instr, rest: seq<Instr>, known: Known)
    requires SourcesBehind(pre, [i] + rest, known)
    ensures SourcesKnown(pre, known, i) && SourcesBehind(pre, rest, known)
  {
    forall x | x in Sources(pre) && x !in known ensures x !in UsedRegs(i) && NotIn(x, rest) {
      assert NotIn(x, [i] + rest) && ([i] + rest)[0] == i;
      forall k | 0 <= k < |rest| ensures x !in UsedRegs(rest[k]) && x !in DefRegs(rest[k]) { assert ([i] + rest)[k + 1] == rest[k]; }
    }
  }

  lemma BehindKeep(pre: seq<Instr>, i: Instr, rest: seq<Instr>, known: Known)
    requires SourcesBehind(pre, [i] + rest, known) && !IsMask(i)
    ensures SourcesBehind(pre + [i], rest, known)
  {
    BehindHead(pre, i, rest, known);
    SourcesConcat(pre, [i]);
    assert Sources([i]) == {};
  }

  lemma BehindAddr(pre: seq<Instr>, load: Instr, rest: seq<Instr>, known: Known, n: nat, live: bool, shrx: bool)
    requires SourcesBehind(pre, [load] + rest, known) && load.Op? && load.mem.Some?
    ensures var plan := AddrPlan(load, known, n, live, shrx);
            SourcesBehind(pre + AddrCode(load, plan, live, shrx, n), rest, plan.known)
  {
    var plan := AddrPlan(load, known, n, live, shrx);
    var masks, last := MasksOf(plan, live, shrx, n), load.(mem := Some(plan.addr));
    BehindHead(pre, load, rest, known);
    NewMasks(load, known, n, live, shrx, pre, masks);
    SourcesConcat(pre, masks + [last]);
    SourcesConcat(masks, [last]);
    assert Sources([last]) == {};
  }

  lemma RenNotUsed(x: Reg, rest: seq<Instr>, r: Reg, h: Reg)
    requires NotIn(x, rest) && x != h && forall k :: 0 <= k < |rest| ==> rest[k].Op? || rest[k].CMovPoison?
    ensures NotIn(x, RenBody(map[r := h], rest))
  {
    forall k | 0 <= k < |rest| ensures x !in UsedRegs(RenBody(map[r := h], rest)[k]) && x !in DefRegs(RenBody(map[r := h], rest)[k]) {
      RenImage(rest[k], r, h, x);
    }
  }

  lemma FreshNotIn(x: Reg, rest: seq<Instr>, n: nat)
    requires BodyBelow(rest, n) && n <= x
    ensures NotIn(x, rest)
  {
  }

  lemma ValueSources(load: Instr, n: nat, live: bool)
    requires load.Op? && load.dst.Some? && load.dst.value < n
    ensures Sources(ValuePiece(load, n, live)) == {n}
  {
    var r, h := load.dst.value, n + 2;
    var m: Renaming := map[r := h];
    RenPostCode(m, load, n, live, n + 1);
    var piece := ValuePiece(load, n, live);
    assert piece == PostCode(RenInstr(m, load), n, h, live, n + 1);
    assert Masks([(n, h)], false) == [MaskOr(h, n)];
    var k := if live then 2 else 1;
    assert piece[k] == MaskOr(h, n) && IsMask(piece[k]);
    assert forall j :: 0 <= j < |piece| && IsMask(piece[j]) ==> j == k;
  }

  lemma BehindValue(pre: seq<Instr>, load: Instr, rest: seq<Instr>, known: Known, n: nat, live: bool, known': Known)
    requires SourcesBehind(pre, [load] + rest, known) && load.Op? && load.dst.Some? && load.dst.value < n
    requires BodyBelow(pre, n) && BodyBelow(rest, n) && Hardenable(rest) && forall r :: r in known ==> r in known'
    ensures SourcesBehind(pre + ValuePiece(load, n, live), ValueRest(load, n, rest), known')
  {
    BehindHead(pre, load, rest, known);
    SourcesConcat(pre, ValuePiece(load, n, live));
    ValueSources(load, n, live);
    forall x | x in Sources(pre) + {n} && x !in known' ensures NotIn(x, ValueRest(load, n, rest)) {
      SourceAhead(pre, rest, known, load.dst.value, n, x);
    }
  }

  lemma SourceAhead(pre: seq<Instr>, rest: seq<Instr>, known: Known, r: Reg, n: nat, x: Reg)
    requires SourcesBehind(pre, rest, known) && BodyBelow(pre, n) && BodyBelow(rest, n) && Hardenable(rest)
    requires x == n || (x in Sources(pre) && x !in known)
    ensures NotIn(x, RenBody(map[r := n + 2], rest))
  {
    if x == n { FreshNotIn(n, rest, n); } else { SourceBelow(pre, n, x); }
    RenNotUsed(x, rest, r, n + 2);
  }

  lemma SourceBelow(code: seq<Instr>, n: nat, x: Reg)
    requires BodyBelow(code, n) && x in Sources(code)
    ensures x < n
  {
    var k :| 0 <= k < |code| && IsMask(code[k]) && code[k].msrc == x;
    assert x in UsedRegs(code[k]);
  }

  ghost predicate Covered(w: Walker, orig: seq<Instr>, actions: seq<Action>, i: nat) {
    CoveredBy(w.p.ren, w.pre, w.post, w.known, orig, actions, i)
  }

  lemma PostHead(ren: Renaming, post: seq<Instr>, orig: seq<Instr>, i: nat)
    requires i < |orig| && post == RenBody(ren, orig[i..])
    ensures post != [] && post[0] == RenInstr(ren, orig[i]) && post[1..] == RenBody(ren, orig[i + 1..])
  {
    assert orig[i..][0] == orig[i] && orig[i..][1..] == orig[i + 1..];
  }

  lemma RenSnoc(ren: Renaming, orig: seq<Instr>, i: nat)
    requires i < |orig|
    ensures RenBody(ren, orig[..i]) + [RenInstr(ren, orig[i])] == RenBody(ren, orig[..i + 1])
  {
  }

  lemma TreatedAdd(ren: Renaming, orig: seq<Instr>, actions: seq<Action>, i: nat, pre: seq<Instr>, mi: Instr, piece: seq<Instr>)
    requires i < |orig| == |actions| && Treated(RenBody(ren, orig[..i]), actions, pre)
    requires mi == RenInstr(ren, orig[i]) && PieceOk(mi, actions[i], piece, pre)
    ensures Treated(RenBody(ren, orig[..i + 1]), actions, pre + piece)
  {
    TreatedOne(RenBody(ren, orig[..i]), actions, pre, mi, piece);
    RenSnoc(ren, orig, i);
  }

  lemma KeepCovers(w: Walker, orig: seq<Instr>, actions: seq<Action>, i: nat)
    requires Covered(w, orig, actions, i) && i < |actions| && w.post != [] && Tail(w.pre, w.post, w.known)
    requires !(actions[i].MaskAddress? && w.post[0].Op? && w.post[0].mem.Some?)
    requires !(actions[i].MaskValue? && w.post[0].Op? && w.post[0].dst.Some?) && !IsMask(w.post[0])
    ensures Covered(KeepResult(w), orig, actions, i + 1)
  {
    PostHead(w.p.ren, w.post, orig, i);
    TreatedAdd(w.p.ren, orig, actions, i, w.pre, w.post[0], [w.post[0]]);
    assert w.post == [w.post[0]] + w.post[1..];
    forall r | r in w.known ensures w.known[r] !in DefRegs(w.post[0]) {
      forall d | d in DefRegs(w.post[0]) ensures w.known[r] != d { TailHead(w.pre, w.post[0], w.post[1..], w.known, d); }
    }
    KnownSnoc(w.known, w.pre, w.post[0]);
    BehindKeep(w.pre, w.post[0], w.post[1..], w.known);
  }

  lemma AddrKnownStep(pre: seq<Instr>, load: Instr, rest: seq<Instr>, known: Known, n: nat, live: bool, shrx: bool)
    requires Tail(pre, [load] + rest, known) && load.Op? && load.mem.Some? && Below(load, n) && KnownBelow(known, n)
    requires KnownMasked(known, MaskedIn(pre))
    ensures var plan := AddrPlan(load, known, n, live, shrx);
            KnownMasked(plan.known, MaskedIn(pre + AddrCode(load, plan, live, shrx, n)))
  {
    var plan := AddrPlan(load, known, n, live, shrx);
    AddrApart(pre, load, rest, known, n, live, shrx, plan);
    AddrKnownMasked(load, known, n, live, shrx, pre, plan);
  }

  lemma AddrCovers(ren: Renaming, n0: nat, n: nat, pre: seq<Instr>, load: Instr, rest: seq<Instr>, known: Known,
                   live: bool, shrx: bool, orig: seq<Instr>, actions: seq<Action>, i: nat)
    requires CoveredBy(ren, pre, [load] + rest, known, orig, actions, i) && i < |actions| && BodyBelow(orig, n0)
    requires load.Op? && load.mem.Some? && Below(load, n) && KnownBelow(known, n) && Tail(pre, [load] + rest, known)
    requires actions[i].MaskAddress?
    ensures var plan := AddrPlan(load, known, n, live, shrx);
            CoveredBy(Compose(ren, NONE, n0), pre + AddrCode(load, plan, live, shrx, n), rest, plan.known, orig, actions, i + 1)
  {
    PostHead(ren, [load] + rest, orig, i);
    BehindHead(pre, load, rest, known);
    BehindAddr(pre, load, rest, known, n, live, shrx);
    AddrPieceOk(load, known, n, live, shrx, pre);
    TreatedAdd(ren, orig, actions, i, pre, load, AddrCode(load, AddrPlan(load, known, n, live, shrx), live, shrx, n));
    AddrKnownStep(pre, load, rest, known, n, live, shrx);
    RenBodySame(orig[..i + 1], ren, n0);
    RenBodySame(orig[i + 1..], ren, n0);
  }

  /** What lies behind does not mention the renamed register. */
  lemma ValueBehind(ren: Renaming, n0: nat, n: nat, orig: seq<Instr>, actions: seq<Action>, pre: seq<Instr>, r: Reg, h: Reg,
                    ren': Renaming)
    requires Treated(RenBody(ren, orig), actions, pre) && BodyBelow(orig, n0) && RenBelow(ren, n0, n)
    requires BodyBelow(pre, n) && n <= h && NotIn(r, pre) && RenThen(ren, n0, r, h, ren')
    ensures Treated(RenBody(ren', orig), actions, pre)
  {
    ValueRenBody(orig, ren, n0, r, h, ren');
    RenBodyBelow(orig, ren, n0, n);
    RenTreated(RenBody(ren, orig), actions, pre, r, h, n);
    RenNotIn(pre, r, h);
  }

  lemma ValueRenHead(orig: seq<Instr>, ren: Renaming, n0: nat, r: Reg, h: Reg, ren': Renaming, i: nat)
    requires BodyBelow(orig, n0) && i < |orig| && RenThen(ren, n0, r, h, ren')
    ensures RenInstr(ren', orig[i]) == RenInstr(map[r := h], RenInstr(ren, orig[i]))
  {
    ValueRenBody(orig, ren, n0, r, h, ren');
    assert RenBody(ren', orig)[i] == RenBody(map[r := h], RenBody(ren, orig))[i];
  }

  lemma ValueAdds(ren: Renaming, orig: seq<Instr>, actions: seq<Action>, i: nat, pre: seq<Instr>, load: Instr, n: nat, live: bool)
    requires i < |orig| == |actions| && Treated(RenBody(ren, orig[..i]), actions, pre) && actions[i].MaskValue?
    requires load.Op? && load.dst.Some? && Below(load, n)
    requires RenInstr(ren, orig[i]) == RenInstr(map[load.dst.value := n + 2], load)
    ensures Treated(RenBody(ren, orig[..i + 1]), actions, pre + ValuePiece(load, n, live))
  {
    ValuePieceOk(load, n, live, pre);
    TreatedAdd(ren, orig, actions, i, pre, RenInstr(map[load.dst.value := n + 2], load), ValuePiece(load, n, live));
  }

  lemma ValueTreats(ren: Renaming, n0: nat, n: nat, orig: seq<Instr>, actions: seq<Action>, i: nat, pre: seq<Instr>,
                    load: Instr, live: bool, ren': Renaming)
    requires i < |orig| == |actions| && Treated(RenBody(ren, orig[..i]), actions, pre) && actions[i].MaskValue?
    requires load == RenInstr(ren, orig[i]) && load.Op? && load.dst.Some? && Below(load, n) && NotIn(load.dst.value, pre)
    requires BodyBelow(orig, n0) && RenBelow(ren, n0, n) && BodyBelow(pre, n)
    requires RenThen(ren, n0, load.dst.value, n + 2, ren')
    ensures Treated(RenBody(ren', orig[..i + 1]), actions, pre + ValuePiece(load, n, live))
  {
    var r := load.dst.value;
    ValueBehind(ren, n0, n, orig[..i], actions, pre, r, n + 2, ren');
    ValueRenHead(orig, ren, n0, r, n + 2, ren', i);
    ValueAdds(ren', orig, actions, i, pre, load, n, live);
  }

  /** Nothing new is known but that `h` is masked. */
  ghost predicate KnownThen(known: Known, h: Reg, known': Known) {
    forall x :: x in known' ==> (x in known && known'[x] == known[x]) || known'[x] == h
  }

  lemma ValueKnownMasked(load: Instr, n: nat, live: bool, known: Known, pre: seq<Instr>, known': Known)
    requires load.Op? && load.dst.Some? && Below(load, n) && KnownMasked(known, MaskedIn(pre)) && KnownBelow(known, n)
    requires KnownThen(known, n + 2, known')
    ensures KnownMasked(known', MaskedIn(pre + ValuePiece(load, n, live)))
  {
    ValuePieceOk(load, n, live, pre);
  }

  lemma ValueProgressRen(p: Progress, n0: nat, b: BlockId, pre: seq<Instr>, load: Instr, rest: seq<Instr>)
    requires b in p.f.blocks && load.Op? && load.dst.Some?
    ensures RenThen(p.ren, n0, load.dst.value, p.next + 2, PostProgress(p, n0, b, pre, load, rest).ren)
  {
  }

  lemma ValueAhead(ren: Renaming, n0: nat, post: seq<Instr>, orig: seq<Instr>, i: nat, r: Reg, h: Reg, ren': Renaming)
    requires i < |orig| && post == RenBody(ren, orig[i..]) && BodyBelow(orig, n0) && RenThen(ren, n0, r, h, ren')
    ensures post != [] && RenBody(map[r := h], post[1..]) == RenBody(ren', orig[i + 1..])
  {
    PostHead(ren, post, orig, i);
    ValueRenBody(orig[i + 1..], ren, n0, r, h, ren');
  }

  lemma ValueCovers(ren: Renaming, n0: nat, n: nat, pre: seq<Instr>, load: Instr, post: seq<Instr>, known: Known,
                    live: bool, orig: seq<Instr>, actions: seq<Action>, i: nat, v: Walker)
    requires CoveredBy(ren, pre, post, known, orig, actions, i) && i < |actions| && BodyBelow(orig, n0)
    requires post != [] && load == post[0] && load.Op? && load.dst.Some? && Below(load, n)
    requires KnownBelow(known, n) && NotIn(load.dst.value, pre) && RenBelow(ren, n0, n) && BodyBelow(pre, n)
    requires actions[i].MaskValue? && RenThen(ren, n0, load.dst.value, n + 2, v.p.ren) && KnownThen(known, n + 2, v.known)
    requires v.pre == pre + ValuePiece(load, n, live) && v.post == ValueRest(load, n, post[1..])
    requires SourcesBehind(v.pre, v.post, v.known)
    ensures Covered(v, orig, actions, i + 1)
  {
    PostHead(ren, post, orig, i);
    ValueTreats(ren, n0, n, orig, actions, i, pre, load, live, v.p.ren);
    ValueKnownMasked(load, n, live, known, pre, v.known);
    ValueAhead(ren, n0, post, orig, i, load.dst.value, n + 2, v.p.ren);
  }

  lemma ValueDelta(n0: nat, w: Walker, b: BlockId, load: Instr, live: bool, v: Walker)
    requires b in w.p.f.blocks && w.post != [] && load == w.post[0] && load.Op? && load.dst.Some?
    requires v == ValueResult(n0, w, b) && live == LiveAfter(load, LiveAt(w, b))
    ensures v.pre == w.pre + ValuePiece(load, w.p.next, live) && v.post == ValueRest(load, w.p.next, w.post[1..])
    ensures KnownThen(w.known, w.p.next + 2, v.known)
    ensures RenThen(w.p.ren, n0, load.dst.value, w.p.next + 2, v.p.ren)
  {
    ValueProgressRen(w.p, n0, b, w.pre, load, w.post[1..]);
  }

  lemma ValueStepCovers(n0: nat, w: Walker, b: BlockId, orig: seq<Instr>, actions: seq<Action>, i: nat, v: Walker)
    requires b in w.p.f.blocks && BodyBelow(orig, n0) && BodyBelow(w.pre, w.p.next)
    requires KnownBelow(w.known, w.p.next) && RenBelow(w.p.ren, n0, w.p.next)
    requires Covered(w, orig, actions, i) && i < |actions| && w.post != [] && Below(w.post[0], w.p.next)
    requires actions[i].MaskValue? && w.post[0].Op? && w.post[0].dst.Some? && NotIn(w.post[0].dst.value, w.pre)
    requires v == ValueResult(n0, w, b) && SourcesBehind(v.pre, v.post, v.known)
    ensures Covered(v, orig, actions, i + 1)
  {
    var live := LiveAfter(w.post[0], LiveAt(w, b));
    ValueDelta(n0, w, b, w.post[0], live, v);
    ValueCovers(w.p.ren, n0, w.p.next, w.pre, w.post[0], w.post, w.known, live, orig, actions, i, v);
  }

  lemma ValueBehindStep(n0: nat, w: Walker, b: BlockId, v: Walker)
    requires b in w.p.f.blocks && w.post != [] && w.post[0].Op? && w.post[0].dst.Some? && v == ValueResult(n0, w, b)
    requires SourcesBehind(w.pre, w.post, w.known) && BodyBelow(w.pre, w.p.next) && BodyBelow(w.post, w.p.next) && Hardenable(w.post)
    ensures SourcesBehind(v.pre, v.post, v.known)
  {
    var load, live := w.post[0], LiveAfter(w.post[0], LiveAt(w, b));
    assert w.post == [load] + w.post[1..] && load.dst.value in DefRegs(load);
    ValueDelta(n0, w, b, load, live, v);
    ValueParts(n0, w, b, v);
    BehindValue(w.pre, load, w.post[1..], w.known, w.p.next, live, v.known);
  }

  /** Whatever the action, the next instruction is treated as the action says. */
  lemma StepCovers(env: Env, f0: Func, n0: nat, w: Walker, b: BlockId, shrx: bool, orig: seq<Instr>, actions: seq<Action>, i: nat)
    requires b in w.p.f.blocks && Stage(env, f0, n0, w, b) && BodyBelow(orig, n0)
    requires Covered(w, orig, actions, i) && i < |actions| && w.post != []
    ensures Covered(HardenStep(n0, w, b, actions[i], shrx), orig, actions, i + 1)
  {
    WalkBelow(env, f0, n0, w.p, b, w.pre, w.post, w.known);
    assert w.post == [w.post[0]] + w.post[1..];
    if actions[i].MaskAddress? && w.post[0].Op? && w.post[0].mem.Some? {
      AddrCovers(w.p.ren, n0, w.p.next, w.pre, w.post[0], w.post[1..], w.known, LiveAt(w, b), shrx, orig, actions, i);
    } else if actions[i].MaskValue? && w.post[0].Op? && w.post[0].dst.Some? {
      assert w.post[0].dst.value in DefRegs(w.post[0]);
      TailHead(w.pre, w.post[0], w.post[1..], w.known, w.post[0].dst.value);
      ValueBehindStep(n0, w, b, ValueResult(n0, w, b));
      ValueStepCovers(n0, w, b, orig, actions, i, ValueResult(n0, w, b));
    } else {
      KeepCovers(w, orig, actions, i);
    }
  }

  /** And the other blocks stay treated, or ahead. */
  lemma StepOthers(env: Env, f: Func, n0: nat, w: Walker, b: BlockId, shrx: bool, action: Action,
                   actions: map<BlockId, seq<Action>>, done: set<BlockId>)
    requires b in w.p.f.blocks && Stage(env, f, n0, w, b) && FuncBelow(f, n0) && w.post != []
    requires OthersOk(f, w.p, actions, done, b)
    ensures OthersOk(f, HardenStep(n0, w, b, action, shrx).p, actions, done, b)
  {
    if action.MaskAddress? && w.post[0].Op? && w.post[0].mem.Some? {
      AddrOthers(f, n0, w.p, actions, done, b, w.pre + AddrPiece(w, b, shrx) + w.post[1..], AddrResult(n0, w, b, shrx).p);
    } else if action.MaskValue? && w.post[0].Op? && w.post[0].dst.Some? {
      ValueOthers(f, n0, w.p, actions, done, b, w.pre, w.post[0], w.post[1..], ValueResult(n0, w, b).p);
    }
  }

  // ----- the loops -----

  /** The pass so far is right whatever the instructions compute. */
  ghost predicate PassOk(f: Func, n0: nat, p: Progress) {
    forall env: Env {:trigger PassInv(env, f, n0, p)} :: PassInv(env, f, n0, p)
  }

  ghost predicate WalkOk(f: Func, n0: nat, w: Walker, b: BlockId) {
    forall env: Env {:trigger Stage(env, f, n0, w, b)} :: Stage(env, f, n0, w, b)
  }

  /** Some arithmetic, to look at what does not depend on it. */
  function AnyEnv(): Env { Env((_, _, _) => 0, (_, _, _) => 0, (_, _, _) => NO_FLAGS, _ => 0, (_, _, _, _) => 0) }

  lemma StartWalk(f: Func, n0: nat, p: Progress, b: BlockId)
    requires PassOk(f, n0, p) && b in p.f.blocks && Unwalked(p.f.blocks[b].body)
    ensures WalkOk(f, n0, Walker(p, [], p.f.blocks[b].body, map[]), b)
  {
    assert [] + p.f.blocks[b].body == p.f.blocks[b].body;
    forall env: Env ensures Stage(env, f, n0, Walker(p, [], p.f.blocks[b].body, map[]), b) {
      assert PassInv(env, f, n0, p);
    }
  }

  lemma StartCovered(f: Func, p: Progress, b: BlockId, actions: seq<Action>)
    requires BlockAhead(f, p, b) && |actions| == |f.blocks[b].body|
    ensures Covered(Walker(p, [], p.f.blocks[b].body, map[]), f.blocks[b].body, actions, 0)
  {
    assert Treated([], actions, []);
    assert f.blocks[b].body[..0] == [] && f.blocks[b].body[0..] == f.blocks[b].body;
  }

  lemma StepWalk(f: Func, n0: nat, w: Walker, b: BlockId, action: Action, shrx: bool)
    requires b in w.p.f.blocks && WalkOk(f, n0, w, b) && w.post != []
    ensures WalkOk(f, n0, HardenStep(n0, w, b, action, shrx), b)
  {
    forall env: Env ensures Stage(env, f, n0, HardenStep(n0, w, b, action, shrx), b) {
      assert Stage(env, f, n0, w, b);
      StepStage(env, f, n0, w, b, action, shrx);
    }
  }

  lemma EndWalk(f: Func, n0: nat, w: Walker, b: BlockId)
    requires WalkOk(f, n0, w, b)
    ensures PassOk(f, n0, w.p) && b in w.p.f.blocks && w.p.f.blocks[b].body == w.pre + w.post
  {
    assert Stage(AnyEnv(), f, n0, w, b);
    forall env: Env ensures PassInv(env, f, n0, w.p) { assert Stage(env, f, n0, w, b); }
  }

  lemma EndCovered(f: Func, w: Walker, b: BlockId, actions: map<BlockId, seq<Action>>, done: set<BlockId>)
    requires b in f.blocks && b in w.p.f.blocks && w.p.f.blocks[b].body == w.pre + w.post
    requires Covered(w, f.blocks[b].body, ActionsFor(f, actions, b), |f.blocks[b].body|)
    requires OthersOk(f, w.p, actions, done, b)
    ensures BlocksTreated(f, w.p, actions, done + {b})
  {
    var orig := f.blocks[b].body;
    assert orig[..|orig|] == orig && w.pre + w.post == w.pre;
    forall c | c in f.blocks ensures BlockState(f, w.p, actions, done + {b}, c) {
      if c != b { assert BlockState(f, w.p, actions, done, c); }
    }
  }

  /** Every block is treated when done and still to be walked otherwise. */
  ghost predicate BlocksTreated(f: Func, p: Progress, actions: map<BlockId, seq<Action>>, done: set<BlockId>) {
    && p.f.layout == f.layout && p.f.blocks.Keys == f.blocks.Keys
    && forall c {:trigger BlockState(f, p, actions, done, c)} :: c in f.blocks ==> BlockState(f, p, actions, done, c)
  }

  /** The second walk over one block: every instruction is treated as its action says. */
  method HardenBlock(f: Func, n0: nat, p0: Progress, b: BlockId, ghost actions: map<BlockId, seq<Action>>,
                     chosen: seq<Action>, shrx: bool, ghost done: set<BlockId>)
    returns (p: Progress)
    requires FuncBelow(f, n0) && PassOk(f, n0, p0) && BlocksTreated(f, p0, actions, done)
    requires b in f.blocks && b !in done && chosen == ActionsFor(f, actions, b)
    ensures PassOk(f, n0, p) && BlocksTreated(f, p, actions, done + {b})
  {
    ghost var orig := f.blocks[b].body;
    assert BlockState(f, p0, actions, done, b) && BlockBelow(f.blocks[b], n0);
    var w, i := Walker(p0, [], p0.f.blocks[b].body, map[]), 0;
    StartWalk(f, n0, p0, b);
    StartCovered(f, p0, b, chosen);
    while i < |chosen|
      invariant 0 <= i <= |chosen| && |w.post| == |chosen| - i
      invariant b in w.p.f.blocks && WalkOk(f, n0, w, b)
      invariant Covered(w, orig, chosen, i) && OthersOk(f, w.p, actions, done, b)
    {
      assert Stage(AnyEnv(), f, n0, w, b);
      StepWalk(f, n0, w, b, chosen[i], shrx);
      StepCovers(AnyEnv(), f, n0, w, b, shrx, orig, chosen, i);
      StepOthers(AnyEnv(), f, n0, w, b, shrx, chosen[i], actions, done);
      w := HardenStep(n0, w, b, chosen[i], shrx);
      i := i + 1;
      EndWalk(f, n0, w, b);
    }
    EndWalk(f, n0, w, b);
    EndCovered(f, w, b, actions, done);
    p := w.p;
  }

  lemma Untransformed(env: Env, f: Func, n: nat)
    requires FuncBelow(f, n) && LiveFunc(f)
    ensures PassInv(env, f, n, Progress(f, n, NONE))
  {
    forall c | c in f.blocks ensures Matches(env, f, f, n, NONE, c) {
      var fc := f.blocks[c];
      assert BlockBelow(fc, n) && LiveBlock(f, c);
      RenPhisIdentity(fc.phis);
      forall s: State, t: State | Agree(n, NONE, fc.flagsLiveIn, s, t) && Exec(env, fc.body, s).ps == 0
        ensures Agree(n, NONE, LiveEnd(fc.body, fc.flagsLiveIn), Exec(env, fc.body, s), Exec(env, fc.body, t))
      {
        PlainAgree(env, n, fc.flagsLiveIn, fc.body, s, t);
      }
    }
    BlockwiseSimulates(env, f, f, n, NONE);
  }

  lemma StartBlocks(f: Func, n: nat, actions: map<BlockId, seq<Action>>)
    requires FuncBelow(f, n) && LiveFunc(f) && forall b :: b in f.blocks ==> Unwalked(f.blocks[b].body)
    ensures PassOk(f, n, Progress(f, n, NONE)) && BlocksTreated(f, Progress(f, n, NONE), actions, {})
  {
    var p := Progress(f, n, NONE);
    forall env: Env ensures PassInv(env, f, n, p) { Untransformed(env, f, n); }
    forall c | c in f.blocks ensures BlockState(f, p, actions, {}, c) { RenIdentity(f.blocks[c].body); }
  }

  // ----- what becomes of a choice -----

  /** There is one action for every instruction of the block. */
  ghost predicate Chosen(f: Func, actions: map<BlockId, seq<Action>>, b: BlockId) {
    b in f.blocks && b in actions && |actions[b]| == |f.blocks[b].body|
  }

  /** Instruction `k` of block `b`, under the names it goes by now. */
  function Renamed(f: Func, p: Progress, b: BlockId, k: nat): Instr
    requires b in f.blocks && k < |f.blocks[b].body|
  {
    RenInstr(p.ren, f.blocks[b].body[k])
  }

  /** Instruction `k` of block `b` became what lies between `lo` and `hi`: masks and the instruction with a masked
      address, the instruction and a mask of its value, or itself, as was chosen for it. */
  ghost predicate ChoiceMade(f: Func, p: Progress, actions: map<BlockId, seq<Action>>, b: BlockId, k: nat, lo: nat, hi: nat)
    requires Chosen(f, actions, b) && b in p.f.blocks && k < |f.blocks[b].body|
  {
    var i, body := Renamed(f, p, b, k), p.f.blocks[b].body;
    && lo <= hi <= |body|
    && var piece := body[lo..hi];
    match actions[b][k]
    case MaskAddress => if i.Op? && i.mem.Some? then AddrTreated(i, piece, body[..lo]) else piece == [i]
    case MaskValue => if i.Op? && i.dst.Some? then ValueTreated(i, piece) else piece == [i]
    case Keep => piece == [i]
  }

  ghost predicate ChoiceCarried(f: Func, p: Progress, actions: map<BlockId, seq<Action>>, b: BlockId, k: nat) {
    Chosen(f, actions, b) && b in p.f.blocks && k < |f.blocks[b].body| ==>
      exists lo: nat, hi: nat :: ChoiceMade(f, p, actions, b, k, lo, hi)
  }

  /** Every choice of the caller is carried out, and a block without choices is only renamed. */
  ghost predicate ChoicesMade(f: Func, p: Progress, actions: map<BlockId, seq<Action>>) {
    && p.f.blocks.Keys == f.blocks.Keys
    && (forall b: BlockId, k: nat :: ChoiceCarried(f, p, actions, b, k))
    && (forall b: BlockId | b in f.blocks && !Chosen(f, actions, b) :: p.f.blocks[b].body == RenBody(p.ren, f.blocks[b].body))
  }

  lemma {:induction false} AllKept(ins: seq<Instr>, actions: seq<Action>, body: seq<Instr>)
    requires Treated(ins, actions, body) && forall k :: 0 <= k < |ins| ==> actions[k] == Keep
    ensures body == ins
    decreases |ins|
  {
    if ins != [] {
      var k := |ins| - 1;
      var cut: nat :| TreatedTo(ins, actions, body, cut);
      AllKept(ins[..k], actions, body[..cut]);
      assert body == body[..cut] + body[cut..] && ins == ins[..k] + [ins[k]];
    }
  }

  lemma ChoiceFound(f: Func, p: Progress, actions: map<BlockId, seq<Action>>, b: BlockId, k: nat)
    requires BlockTreated(f, p, actions, b) && Chosen(f, actions, b) && k < |f.blocks[b].body|
    ensures exists lo: nat, hi: nat :: ChoiceMade(f, p, actions, b, k, lo, hi)
  {
    var ins, body := RenBody(p.ren, f.blocks[b].body), p.f.blocks[b].body;
    TreatedAt(ins, ActionsFor(f, actions, b), body, k);
    var lo: nat, hi: nat :| PieceAt(ins, ActionsFor(f, actions, b), body, k, lo, hi);
    assert ChoiceMade(f, p, actions, b, k, lo, hi);
  }

  lemma TreatedChoices(f: Func, p: Progress, actions: map<BlockId, seq<Action>>)
    requires BlocksTreated(f, p, actions, f.blocks.Keys)
    ensures ChoicesMade(f, p, actions)
  {
    forall b: BlockId, k: nat ensures ChoiceCarried(f, p, actions, b, k) {
      if Chosen(f, actions, b) && b in p.f.blocks && k < |f.blocks[b].body| {
        assert BlockState(f, p, actions, f.blocks.Keys, b);
        ChoiceFound(f, p, actions, b, k);
      }
    }
    forall b: BlockId | b in f.blocks && !Chosen(f, actions, b) ensures p.f.blocks[b].body == RenBody(p.ren, f.blocks[b].body) {
      assert BlockState(f, p, actions, f.blocks.Keys, b);
      AllKept(RenBody(p.ren, f.blocks[b].body), ActionsFor(f, actions, b), p.f.blocks[b].body);
    }
  }

  /** Harden every block of a function in layout order. */
  method HardenFunction(f: Func, n: nat, actions: map<BlockId, seq<Action>>, shrx: bool)
    returns (p: Progress)
    requires FuncBelow(f, n) && LiveFunc(f) && NoDup(f.layout)
    requires forall b :: b in f.layout <==> b in f.blocks
    requires forall b :: b in f.blocks ==> Unwalked(f.blocks[b].body)
    ensures PassOk(f, n, p) && BlocksTreated(f, p, actions, f.blocks.Keys)
    ensures ChoicesMade(f, p, actions)
  {
    StartBlocks(f, n, actions);
    p := Progress(f, n, NONE);
    ghost var done: set<BlockId> := {};
    for i := 0 to |f.layout|
      invariant PassOk(f, n, p) && BlocksTreated(f, p, actions, done)
      invariant done == set j | 0 <= j < i :: f.layout[j]
    {
      var b := f.layout[i];
      assert b in f.blocks && b !in done;
      p := HardenBlock(f, n, p, b, actions, ActionsFor(f, actions, b), shrx, done);
      done := done + {b};
    }
    assert done == f.blocks.Keys;
    TreatedChoices(f, p, actions);
  }
}
