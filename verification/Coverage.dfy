/**
 That the hardening walk leaves no chosen load unmasked: what each instruction of a block is
 replaced by, and why later renamings keep it so.
 */
module Coverage {
  import opened Options
  import opened Machine
  import opened Simulation
  import opened Masking
  import opened Harden
  import opened PostLoad
  import opened HardenPass

  // ----- masked registers -----

  predicate IsMask(i: Instr) { i.MaskOr? || i.MaskShr? }

  /** The registers whose last definition in `code` is a mask. */
  function MaskedIn(code: seq<Instr>): set<Reg>
    decreases |code|
  {
    if code == [] then {}
    else
      var init, last := code[..|code| - 1], code[|code| - 1];
      if IsMask(last) then MaskedIn(init) + {last.mdst} else MaskedIn(init) - DefRegs(last)
  }

  lemma MaskedSnoc(code: seq<Instr>, i: Instr)
    ensures MaskedIn(code + [i]) == if IsMask(i) then MaskedIn(code) + {i.mdst} else MaskedIn(code) - DefRegs(i)
  {
    assert (code + [i])[..|code|] == code;
  }

  /** Nothing but a mask defines `x` in `code`. */
  ghost predicate OnlyMasks(x: Reg, code: seq<Instr>) {
    forall k :: 0 <= k < |code| ==> IsMask(code[k]) || x !in DefRegs(code[k])
  }

  lemma {:induction false} StaysMasked(pre: seq<Instr>, code: seq<Instr>, x: Reg)
    requires x in MaskedIn(pre) && OnlyMasks(x, code)
    ensures x in MaskedIn(pre + code)
    decreases |code|
  {
    if code == [] {
      assert pre + code == pre;
    } else {
      var init, last := code[..|code| - 1], code[|code| - 1];
      StaysMasked(pre, init, x);
      MaskedSnoc(pre + init, last);
      assert pre + init + [last] == pre + code;
    }
  }

  lemma BecomesMasked(pre: seq<Instr>, code: seq<Instr>, j: nat, x: Reg)
    requires j < |code| && IsMask(code[j]) && code[j].mdst == x && OnlyMasks(x, code)
    ensures x in MaskedIn(pre + code)
  {
    var head, tail := pre + code[..j], code[j + 1..];
    MaskedSnoc(head, code[j]);
    StaysMasked(head + [code[j]], tail, x);
    assert head + [code[j]] + tail == pre + code;
  }

  lemma {:induction false} MaskedBelow(code: seq<Instr>, n: nat, x: Reg)
    requires BodyBelow(code, n) && x in MaskedIn(code)
    ensures x < n
    decreases |code|
  {
    var init, last := code[..|code| - 1], code[|code| - 1];
    if x in MaskedIn(init) { MaskedBelow(init, n, x); } else { assert x in DefRegs(last); }
  }

  lemma RenDef(i: Instr, x: Reg, r: Reg, h: Reg, n: nat)
    requires Below(i, n) && x < n <= h && x !in DefRegs(i) && !IsMask(i)
    ensures Ren(map[r := h], x) !in DefRegs(RenInstr(map[r := h], i))
  {
    if i.Op? && i.dst.Some? { assert i.dst.value in DefRegs(i); }
    if i.SaveFlags? { assert i.fdst in DefRegs(i); }
  }

  lemma {:induction false} RenMasked(code: seq<Instr>, x: Reg, r: Reg, h: Reg, n: nat)
    requires BodyBelow(code, n) && n <= h && x in MaskedIn(code)
    ensures Ren(map[r := h], x) in MaskedIn(RenBody(map[r := h], code))
    decreases |code|
  {
    var m: Renaming := map[r := h];
    var init, last := code[..|code| - 1], code[|code| - 1];
    assert RenBody(m, code) == RenBody(m, init) + [RenInstr(m, last)];
    MaskedSnoc(RenBody(m, init), RenInstr(m, last));
    if x in MaskedIn(init) {
      RenMasked(init, x, r, h, n);
      MaskedBelow(init, n, x);
      if !IsMask(last) { RenDef(last, x, r, h, n); }
    }
  }

  // ----- what has been masked -----

  /** The registers that masks in `code` were made from. */
  function Sources(code: seq<Instr>): set<Reg> { set k | 0 <= k < |code| && IsMask(code[k]) :: code[k].msrc }

  /** No mask is made from a register that has been masked before. */
  ghost predicate NewSources(before: seq<Instr>, masks: seq<Instr>) {
    forall k :: 0 <= k < |masks| && IsMask(masks[k]) ==> masks[k].msrc !in Sources(before + masks[..k])
  }

  lemma SourcesConcat(p: seq<Instr>, q: seq<Instr>)
    ensures Sources(p + q) == Sources(p) + Sources(q)
  {
    forall x | x in Sources(q) ensures x in Sources(p + q) {
      var k :| 0 <= k < |q| && IsMask(q[k]) && q[k].msrc == x;
      assert (p + q)[|p| + k] == q[k];
    }
    forall x | x in Sources(p) ensures x in Sources(p + q) {
      var k :| 0 <= k < |p| && IsMask(p[k]) && p[k].msrc == x;
      assert (p + q)[k] == p[k];
    }
  }

  lemma RenSource(code: seq<Instr>, x: Reg, r: Reg, h: Reg, n: nat)
    requires BodyBelow(code, n) && x < n <= h && x !in Sources(code)
    ensures Ren(map[r := h], x) !in Sources(RenBody(map[r := h], code))
  {
    var m: Renaming := map[r := h];
    forall k | 0 <= k < |code| && IsMask(RenBody(m, code)[k]) ensures RenBody(m, code)[k].msrc != Ren(m, x) {
      assert IsMask(code[k]) && code[k].msrc in Sources(code) && code[k].msrc in UsedRegs(code[k]);
    }
  }

  lemma RenNewSources(before: seq<Instr>, masks: seq<Instr>, r: Reg, h: Reg, n: nat)
    requires NewSources(before, masks) && BodyBelow(before + masks, n) && n <= h
    ensures NewSources(RenBody(map[r := h], before), RenBody(map[r := h], masks))
  {
    var m: Renaming := map[r := h];
    BodyBelowConcat(before, masks, n);
    forall k | 0 <= k < |masks| && IsMask(RenBody(m, masks)[k])
      ensures RenBody(m, masks)[k].msrc !in Sources(RenBody(m, before) + RenBody(m, masks)[..k])
    {
      var code := before + masks[..k];
      assert IsMask(masks[k]) && masks[k].msrc in UsedRegs(masks[k]);
      BodyBelowConcat(before, masks[..k], n);
      RenSource(code, masks[k].msrc, r, h, n);
      RenConcat(m, before, masks[..k]);
      assert RenBody(m, masks)[..k] == RenBody(m, masks[..k]);
    }
  }

  lemma RenConcat(m: Renaming, p: seq<Instr>, q: seq<Instr>)
    ensures RenBody(m, p + q) == RenBody(m, p) + RenBody(m, q)
  {
  }

  // ----- pieces -----

  /** The index is the base register itself. */
  predicate SameReg(a: Addr) { a.base.BaseReg? && a.index == Some(a.base.reg) }

  /** `b` is `a` with its registers replaced by masked ones; an index equal to the base is left as it is. */
  ghost predicate AddressMasked(a: Addr, b: Addr, masked: set<Reg>) {
    && b == a.(base := b.base, index := b.index)
    && (if a.base.BaseReg? then b.base.BaseReg? && b.base.reg in masked else b.base == a.base)
    && (if a.index.Some? && !SameReg(a) then b.index.Some? && b.index.value in masked else b.index == a.index)
  }

  ghost predicate NoOps(code: seq<Instr>) { forall k :: 0 <= k < |code| ==> !code[k].Op? }

  /** Masks, then the instruction itself with a masked address. */
  ghost predicate AddrTreated(i: Instr, piece: seq<Instr>, before: seq<Instr>)
    requires i.Op? && i.mem.Some?
  {
    && |piece| > 0
    && var masks, load := piece[..|piece| - 1], piece[|piece| - 1];
    && NoOps(masks) && NewSources(before, masks) && load.Op? && load.mem.Some? && load == i.(mem := load.mem)
    && AddressMasked(i.mem.value, load.mem.value, MaskedIn(before + masks))
  }

  /** The instruction into a register of its own, and its result the masked copy of that register. */
  ghost predicate ValueTreated(i: Instr, piece: seq<Instr>)
    requires i.Op? && i.dst.Some?
  {
    exists u: Reg, live: bool, fr: Reg :: piece == PostCode(i, u, i.dst.value, live, fr)
  }

  /** An instruction became `piece`, behind `before`. */
  ghost predicate PieceOk(i: Instr, action: Action, piece: seq<Instr>, before: seq<Instr>) {
    if action.MaskAddress? && i.Op? && i.mem.Some? then AddrTreated(i, piece, before)
    else if action.MaskValue? && i.Op? && i.dst.Some? then ValueTreated(i, piece)
    else piece == [i]
  }

  /** `body` is the instructions `ins`, each treated as its action says. */
  ghost predicate Treated(ins: seq<Instr>, actions: seq<Action>, body: seq<Instr>)
    decreases |ins|, 1
  {
    && |ins| <= |actions|
    && if ins == [] then body == [] else exists cut: nat :: TreatedTo(ins, actions, body, cut)
  }

  /** The last of `ins` became what follows `cut`, and the others what precedes it. */
  ghost predicate TreatedTo(ins: seq<Instr>, actions: seq<Action>, body: seq<Instr>, cut: nat)
    requires 0 < |ins| <= |actions|
    decreases |ins|, 0
  {
    var k := |ins| - 1;
    cut <= |body| && Treated(ins[..k], actions, body[..cut]) && PieceOk(ins[k], actions[k], body[cut..], body[..cut])
  }

  lemma TreatedOne(ins: seq<Instr>, actions: seq<Action>, body: seq<Instr>, i: Instr, piece: seq<Instr>)
    requires |ins| < |actions| && Treated(ins, actions, body) && PieceOk(i, actions[|ins|], piece, body)
    ensures Treated(ins + [i], actions, body + piece)
  {
    var all, code := ins + [i], body + piece;
    assert all[..|ins|] == ins && code[..|body|] == body && code[|body|..] == piece;
    assert TreatedTo(all, actions, code, |body|);
  }

  /** Instruction `k` of `ins` became what lies between `lo` and `hi`. */
  ghost predicate PieceAt(ins: seq<Instr>, actions: seq<Action>, body: seq<Instr>, k: nat, lo: nat, hi: nat)
    requires k < |ins| <= |actions|
  {
    lo <= hi <= |body| && PieceOk(ins[k], actions[k], body[lo..hi], body[..lo])
  }

  lemma {:induction false} TreatedAt(ins: seq<Instr>, actions: seq<Action>, body: seq<Instr>, k: nat)
    requires Treated(ins, actions, body) && k < |ins|
    ensures exists lo: nat, hi: nat :: PieceAt(ins, actions, body, k, lo, hi)
    decreases |ins|
  {
    var cut: nat :| TreatedTo(ins, actions, body, cut);
    if k == |ins| - 1 {
      assert body[cut..|body|] == body[cut..];
      assert PieceAt(ins, actions, body, k, cut, |body|);
    } else {
      TreatedAt(ins[..|ins| - 1], actions, body[..cut], k);
      var lo: nat, hi: nat :| PieceAt(ins[..|ins| - 1], actions, body[..cut], k, lo, hi);
      assert body[..cut][lo..hi] == body[lo..hi] && body[..cut][..lo] == body[..lo];
      assert PieceAt(ins, actions, body, k, lo, hi);
    }
  }

  // ----- renaming keeps all this -----

  /** Renaming to a fresh register keeps an address masked. */
  lemma RenAddressMasked(a: Addr, b: Addr, code: seq<Instr>, r: Reg, h: Reg, n: nat)
    requires (forall q :: q in AddrRegs(a) ==> q < n <= h) && BodyBelow(code, n) && n <= h
    requires AddressMasked(a, b, MaskedIn(code))
    ensures var m: Renaming := map[r := h];
            AddressMasked(RenAddr(m, a), RenAddr(m, b), MaskedIn(RenBody(m, code)))
  {
    if a.base.BaseReg? {
      assert a.base.reg in AddrRegs(a);
      RenMasked(code, b.base.reg, r, h, n);
    }
    if a.index.Some? {
      assert a.index.value in AddrRegs(a);
      if !SameReg(a) { RenMasked(code, b.index.value, r, h, n); }
    }
  }

  lemma RenAddrParts(i: Instr, masks: seq<Instr>, load: Instr, before: seq<Instr>, r: Reg, h: Reg, n: nat)
    requires i.Op? && i.mem.Some? && Below(i, n) && BodyBelow(before + masks, n) && n <= h
    requires NoOps(masks) && NewSources(before, masks) && load.Op? && load.mem.Some? && load == i.(mem := load.mem)
    requires AddressMasked(i.mem.value, load.mem.value, MaskedIn(before + masks))
    ensures var m: Renaming := map[r := h];
            AddrTreated(RenInstr(m, i), RenBody(m, masks) + [RenInstr(m, load)], RenBody(m, before))
  {
    var m: Renaming := map[r := h];
    assert AddrRegs(i.mem.value) <= UsedRegs(i);
    RenAddressMasked(i.mem.value, load.mem.value, before + masks, r, h, n);
    RenNewSources(before, masks, r, h, n);
    RenConcat(m, before, masks);
    AddrTreatedIs(RenInstr(m, i), RenBody(m, masks), RenInstr(m, load), RenBody(m, before));
  }

  lemma RenAddrPiece(i: Instr, piece: seq<Instr>, before: seq<Instr>, r: Reg, h: Reg, n: nat)
    requires i.Op? && i.mem.Some? && Below(i, n) && BodyBelow(before + piece, n) && n <= h && AddrTreated(i, piece, before)
    ensures var m: Renaming := map[r := h]; AddrTreated(RenInstr(m, i), RenBody(m, piece), RenBody(m, before))
  {
    var m: Renaming := map[r := h];
    var masks, load := piece[..|piece| - 1], piece[|piece| - 1];
    assert before + piece == before + masks + [load];
    BodyBelowConcat(before + masks, [load], n);
    RenAddrParts(i, masks, load, before, r, h, n);
    RenPieceSnoc(m, piece);
  }

  lemma RenPieceSnoc(m: Renaming, piece: seq<Instr>)
    requires piece != []
    ensures RenBody(m, piece) == RenBody(m, piece[..|piece| - 1]) + [RenInstr(m, piece[|piece| - 1])]
  {
  }

  lemma AddrTreatedIs(i: Instr, masks: seq<Instr>, load: Instr, before: seq<Instr>)
    requires i.Op? && i.mem.Some? && NoOps(masks) && NewSources(before, masks)
    requires load.Op? && load.mem.Some? && load == i.(mem := load.mem)
    requires AddressMasked(i.mem.value, load.mem.value, MaskedIn(before + masks))
    ensures AddrTreated(i, masks + [load], before)
  {
    assert (masks + [load])[..|masks|] == masks;
  }

  lemma RenPostCode(m: Renaming, i: Instr, u: Reg, live: bool, fr: Reg)
    requires i.Op? && i.dst.Some?
    ensures RenBody(m, PostCode(i, u, i.dst.value, live, fr)) == PostCode(RenInstr(m, i), Ren(m, u), Ren(m, i.dst.value), live, fr)
  {
    var d := i.dst.value;
    RenConcat(m, [i.(dst := Some(u))], MaskCode([(u, d)], live, false, fr));
    assert RenBody(m, Masks([(u, d)], false)) == Masks([(Ren(m, u), Ren(m, d))], false);
    assert RenBody(m, MaskCode([(u, d)], live, false, fr)) == MaskCode([(Ren(m, u), Ren(m, d))], live, false, fr);
  }

  lemma RenPiece(i: Instr, action: Action, piece: seq<Instr>, before: seq<Instr>, r: Reg, h: Reg, n: nat)
    requires PieceOk(i, action, piece, before) && Below(i, n) && BodyBelow(before + piece, n) && n <= h
    ensures var m: Renaming := map[r := h]; PieceOk(RenInstr(m, i), action, RenBody(m, piece), RenBody(m, before))
  {
    var m: Renaming := map[r := h];
    if action.MaskAddress? && i.Op? && i.mem.Some? {
      RenAddrPiece(i, piece, before, r, h, n);
    } else if action.MaskValue? && i.Op? && i.dst.Some? {
      var u: Reg, live: bool, fr: Reg :| piece == PostCode(i, u, i.dst.value, live, fr);
      RenPostCode(m, i, u, live, fr);
    }
  }

  lemma RenTreatedLast(ins: seq<Instr>, i: Instr, actions: seq<Action>, pre: seq<Instr>, piece: seq<Instr>, r: Reg, h: Reg, n: nat)
    requires |ins| < |actions| && Treated(RenBody(map[r := h], ins), actions, RenBody(map[r := h], pre))
    requires PieceOk(i, actions[|ins|], piece, pre) && Below(i, n) && BodyBelow(pre + piece, n) && n <= h
    ensures Treated(RenBody(map[r := h], ins + [i]), actions, RenBody(map[r := h], pre + piece))
  {
    var m: Renaming := map[r := h];
    RenPiece(i, actions[|ins|], piece, pre, r, h, n);
    TreatedOne(RenBody(m, ins), actions, RenBody(m, pre), RenInstr(m, i), RenBody(m, piece));
    RenConcat(m, ins, [i]);
    assert RenBody(m, [i]) == [RenInstr(m, i)];
    RenConcat(m, pre, piece);
  }

  lemma RenTreatedTo(ins: seq<Instr>, actions: seq<Action>, body: seq<Instr>, cut: nat, r: Reg, h: Reg, n: nat)
    requires 0 < |ins| <= |actions| && TreatedTo(ins, actions, body, cut)
    requires BodyBelow(ins, n) && BodyBelow(body, n) && n <= h
    requires Treated(RenBody(map[r := h], ins[..|ins| - 1]), actions, RenBody(map[r := h], body[..cut]))
    ensures Treated(RenBody(map[r := h], ins), actions, RenBody(map[r := h], body))
  {
    var k := |ins| - 1;
    assert ins == ins[..k] + [ins[k]] && body == body[..cut] + body[cut..];
    RenTreatedLast(ins[..k], ins[k], actions, body[..cut], body[cut..], r, h, n);
  }

  /** Renaming the instructions and the body to a fresh register keeps the treatment. */
  lemma {:induction false} RenTreated(ins: seq<Instr>, actions: seq<Action>, body: seq<Instr>, r: Reg, h: Reg, n: nat)
    requires Treated(ins, actions, body) && BodyBelow(ins, n) && BodyBelow(body, n) && n <= h
    ensures Treated(RenBody(map[r := h], ins), actions, RenBody(map[r := h], body))
    decreases |ins|
  {
    if ins != [] {
      var k := |ins| - 1;
      var cut: nat :| TreatedTo(ins, actions, body, cut);
      RenTreated(ins[..k], actions, body[..cut], r, h, n);
      RenTreatedTo(ins, actions, body, cut, r, h, n);
    } else {
      assert RenBody(map[r := h], ins) == [] && RenBody(map[r := h], body) == [];
    }
  }

  // ----- the pieces the walk makes -----

  /** Known masks are registers masked earlier in the block. */
  ghost predicate KnownMasked(known: Known, masked: set<Reg>) { forall r :: r in known ==> known[r] in masked }

  ghost predicate OpTargets(ops: seq<(Reg, Reg)>, masked: set<Reg>) {
    forall k :: 0 <= k < |ops| ==> ops[k].1 in masked
  }

  lemma MaskRegMasked(r: Reg, known: Known, next: Reg, masked: set<Reg>)
    requires KnownMasked(known, masked) && OpTargets(MaskReg(r, known, next).ops, masked)
    ensures MaskReg(r, known, next).reg in masked && KnownMasked(MaskReg(r, known, next).known, masked)
  {
    if r !in known { assert MaskReg(r, known, next).ops[0].1 == next; }
  }

  lemma MaskIndexMasked(a: Addr, b: Masked, masked: set<Reg>)
    requires a.index.Some? && KnownMasked(b.known, masked) && OpTargets(MaskIndex(a, b.known, b.next).ops, masked)
    ensures KnownMasked(MaskIndex(a, b.known, b.next).known, masked)
    ensures !SameReg(a) ==> MaskIndex(a, b.known, b.next).reg in masked
  {
    if !SameReg(a) { MaskRegMasked(a.index.value, b.known, b.next, masked); }
  }

  lemma PlanMasked(a: Addr, known: Known, next: Reg, masked: set<Reg>)
    requires KnownMasked(known, masked) && OpTargets(PlanAddr(a, known, next).ops, masked)
    ensures var p := PlanAddr(a, known, next); AddressMasked(a, p.addr, masked) && KnownMasked(p.known, masked)
  {
    var b := MaskBase(a, known, next);
    var i := MaskIndex(a, b.known, b.next);
    var ops := PlanAddr(a, known, next).ops;
    assert OpTargets(b.ops, masked) by {
      forall k | 0 <= k < |b.ops| ensures b.ops[k].1 in masked { assert ops[k] == b.ops[k]; }
    }
    assert OpTargets(i.ops, masked) by {
      forall k | 0 <= k < |i.ops| ensures i.ops[k].1 in masked { assert ops[|b.ops| + k] == i.ops[k]; }
    }
    if a.base.BaseReg? { MaskRegMasked(a.base.reg, known, next, masked); }
    if a.index.Some? { MaskIndexMasked(a, b, masked); }
  }

  /** The inserted code masks its targets and disturbs no older register. */
  lemma MaskCodeMasked(pre: seq<Instr>, ops: seq<(Reg, Reg)>, live: bool, shrx: bool, fr: Reg)
    requires forall k :: 0 <= k < |ops| ==> ops[k].1 != fr
    ensures OpTargets(ops, MaskedIn(pre + MaskCode(ops, live, shrx, fr)))
    ensures forall x :: x in MaskedIn(pre) && x != fr ==> x in MaskedIn(pre + MaskCode(ops, live, shrx, fr))
    ensures NoOps(MaskCode(ops, live, shrx, fr))
  {
    var code := MaskCode(ops, live, shrx, fr);
    forall x | x != fr ensures OnlyMasks(x, code) {}
    forall k | 0 <= k < |ops| ensures ops[k].1 in MaskedIn(pre + code) {
      if live && !shrx {
        assert code[k + 1] == Masks(ops, false)[k];
        BecomesMasked(pre, code, k + 1, ops[k].1);
      } else {
        assert code[k] == Masks(ops, live)[k];
        BecomesMasked(pre, code, k, ops[k].1);
      }
    }
    forall x | x in MaskedIn(pre) && x != fr ensures x in MaskedIn(pre + code) { StaysMasked(pre, code, x); }
  }

  lemma MasksOfMasked(pre: seq<Instr>, load: Instr, known: Known, n: nat, live: bool, shrx: bool)
    requires load.Op? && load.mem.Some? && Below(load, n) && KnownBelow(known, n) && KnownMasked(known, MaskedIn(pre))
    ensures var plan := AddrPlan(load, known, n, live, shrx);
            var masks := MasksOf(plan, live, shrx, n);
            OpTargets(plan.ops, MaskedIn(pre + masks)) && KnownMasked(known, MaskedIn(pre + masks)) && NoOps(masks)
  {
    var plan := AddrPlan(load, known, n, live, shrx);
    assert AddrRegs(load.mem.value) <= UsedRegs(load);
    PlanOps(load.mem.value, known, FirstMask(n, live, shrx), n);
    if plan.ops == [] {
      assert pre + [] == pre;
    } else if live && !shrx {
      FreshOps(load.mem.value, known, n + 1, n);
      MaskCodeMasked(pre, plan.ops, live, shrx, n);
    } else {
      NoFlagsSaved(plan.ops, live, shrx, n, plan.next);
      MaskCodeMasked(pre, plan.ops, live, shrx, plan.next);
    }
  }

  lemma NoFlagsSaved(ops: seq<(Reg, Reg)>, live: bool, shrx: bool, fr: Reg, fr': Reg)
    requires !(live && !shrx)
    ensures MaskCode(ops, live, shrx, fr) == MaskCode(ops, live, shrx, fr')
  {
  }

  /** Targets are numbered from `next` on. */
  lemma FreshOps(a: Addr, known: Known, next: Reg, n: nat)
    requires (forall r :: r in AddrRegs(a) ==> r < n) && KnownBelow(known, n) && n <= next
    ensures forall k :: 0 <= k < |PlanAddr(a, known, next).ops| ==> PlanAddr(a, known, next).ops[k].1 >= next
  {
    var b := MaskBase(a, known, next);
    if a.base.BaseReg? {
      assert a.base.reg in AddrRegs(a);
      MaskRegShape(a.base.reg, known, next, n);
    }
    if a.index.Some? {
      assert a.index.value in AddrRegs(a);
      MaskRegShape(a.index.value, b.known, b.next, n);
    }
  }

  lemma MasksSuffice(load: Instr, known: Known, n: nat, live: bool, shrx: bool, pre: seq<Instr>, masks: seq<Instr>)
    requires load.Op? && load.mem.Some? && Below(load, n) && KnownBelow(known, n) && KnownMasked(known, MaskedIn(pre))
    requires masks == MasksOf(AddrPlan(load, known, n, live, shrx), live, shrx, n)
    ensures var plan := AddrPlan(load, known, n, live, shrx);
            && AddressMasked(load.mem.value, plan.addr, MaskedIn(pre + masks))
            && KnownMasked(plan.known, MaskedIn(pre + masks)) && NoOps(masks)
  {
    MasksOfMasked(pre, load, known, n, live, shrx);
    PlanMasked(load.mem.value, known, FirstMask(n, live, shrx), MaskedIn(pre + masks));
  }

  /** What has been masked is known, or not used by the load. */
  ghost predicate SourcesKnown(pre: seq<Instr>, known: Known, load: Instr) {
    forall x :: x in Sources(pre) ==> x in known || x !in UsedRegs(load)
  }

  lemma MaskCodeSource(ops: seq<(Reg, Reg)>, live: bool, shrx: bool, fr: Reg, k: nat) returns (j: nat)
    requires k < |MaskCode(ops, live, shrx, fr)| && IsMask(MaskCode(ops, live, shrx, fr)[k])
    ensures j < |ops| && MaskCode(ops, live, shrx, fr)[k].msrc == ops[j].0 && j == if live && !shrx then k - 1 else k
  {
    j := if live && !shrx then k - 1 else k;
  }

  lemma MaskCodeSources(pre: seq<Instr>, ops: seq<(Reg, Reg)>, live: bool, shrx: bool, fr: Reg)
    requires forall j, k :: 0 <= j < k < |ops| ==> ops[j].0 != ops[k].0
    requires forall k :: 0 <= k < |ops| ==> ops[k].0 !in Sources(pre)
    ensures NewSources(pre, MaskCode(ops, live, shrx, fr))
    ensures forall x :: x in Sources(MaskCode(ops, live, shrx, fr)) ==> exists j :: 0 <= j < |ops| && ops[j].0 == x
  {
    var code := MaskCode(ops, live, shrx, fr);
    forall k | 0 <= k < |code| && IsMask(code[k]) ensures code[k].msrc !in Sources(pre + code[..k]) {
      var j := MaskCodeSource(ops, live, shrx, fr, k);
      SourcesConcat(pre, code[..k]);
      forall i | 0 <= i < k && IsMask(code[..k][i]) ensures code[..k][i].msrc != code[k].msrc {
        var l := MaskCodeSource(ops, live, shrx, fr, i);
      }
    }
    forall x | x in Sources(code) ensures exists j :: 0 <= j < |ops| && ops[j].0 == x {
      var k :| 0 <= k < |code| && IsMask(code[k]) && code[k].msrc == x;
      var j := MaskCodeSource(ops, live, shrx, fr, k);
    }
  }

  lemma NewMasks(load: Instr, known: Known, n: nat, live: bool, shrx: bool, pre: seq<Instr>, masks: seq<Instr>)
    requires load.Op? && load.mem.Some? && SourcesKnown(pre, known, load)
    requires masks == MasksOf(AddrPlan(load, known, n, live, shrx), live, shrx, n)
    ensures NewSources(pre, masks)
    ensures forall x :: x in Sources(masks) ==> x in AddrPlan(load, known, n, live, shrx).known
    ensures forall r :: r in known ==> r in AddrPlan(load, known, n, live, shrx).known
  {
    var plan := AddrPlan(load, known, n, live, shrx);
    PlanReuses(load.mem.value, known, FirstMask(n, live, shrx));
    assert AddrRegs(load.mem.value) <= UsedRegs(load);
    if plan.ops != [] { MaskCodeSources(pre, plan.ops, live, shrx, n); }
  }

  /** A load whose address is masked. */
  lemma AddrPieceOk(load: Instr, known: Known, n: nat, live: bool, shrx: bool, pre: seq<Instr>)
    requires load.Op? && load.mem.Some? && Below(load, n) && KnownBelow(known, n) && KnownMasked(known, MaskedIn(pre))
    requires SourcesKnown(pre, known, load)
    ensures PieceOk(load, MaskAddress, AddrCode(load, AddrPlan(load, known, n, live, shrx), live, shrx, n), pre)
  {
    var plan := AddrPlan(load, known, n, live, shrx);
    var code, masks := AddrCode(load, plan, live, shrx, n), MasksOf(plan, live, shrx, n);
    assert code[..|code| - 1] == masks;
    MasksSuffice(load, known, n, live, shrx, pre, masks);
    NewMasks(load, known, n, live, shrx, pre, masks);
  }

  lemma KnownSnoc(known: Known, code: seq<Instr>, i: Instr)
    requires KnownMasked(known, MaskedIn(code)) && forall r :: r in known ==> known[r] !in DefRegs(i)
    ensures KnownMasked(known, MaskedIn(code + [i]))
  {
    MaskedSnoc(code, i);
  }

  lemma LoadAfterMasks(known: Known, pre: seq<Instr>, masks: seq<Instr>, load: Instr, addr: Addr)
    requires load.Op? && load.mem.Some? && KnownMasked(known, MaskedIn(pre + masks))
    requires forall r :: r in known ==> known[r] !in DefRegs(load)
    ensures KnownMasked(known, MaskedIn(pre + (masks + [load.(mem := Some(addr))])))
  {
    var last := load.(mem := Some(addr));
    assert DefRegs(last) == DefRegs(load);
    KnownSnoc(known, pre + masks, last);
    assert pre + masks + [last] == pre + (masks + [last]);
  }

  lemma AddrKnownMasked(load: Instr, known: Known, n: nat, live: bool, shrx: bool, pre: seq<Instr>, plan: Plan)
    requires load.Op? && load.mem.Some? && Below(load, n) && KnownBelow(known, n) && KnownMasked(known, MaskedIn(pre))
    requires plan == AddrPlan(load, known, n, live, shrx) && forall r :: r in plan.known ==> plan.known[r] !in DefRegs(load)
    ensures KnownMasked(plan.known, MaskedIn(pre + AddrCode(load, plan, live, shrx, n)))
  {
    var masks := MasksOf(plan, live, shrx, n);
    MasksSuffice(load, known, n, live, shrx, pre, masks);
    LoadAfterMasks(plan.known, pre, masks, load, plan.addr);
  }

  /** What a load becomes whose value is masked: the result is called `n` + 2 from then on. */
  function ValuePiece(load: Instr, n: nat, live: bool): seq<Instr>
    requires load.Op? && load.dst.Some?
  {
    RenBody(map[load.dst.value := n + 2], PostCode(load, n, load.dst.value, live, n + 1))
  }

  lemma ValuePieceOk(load: Instr, n: nat, live: bool, pre: seq<Instr>)
    requires load.Op? && load.dst.Some? && Below(load, n)
    ensures PieceOk(RenInstr(map[load.dst.value := n + 2], load), MaskValue, ValuePiece(load, n, live), pre)
    ensures n + 2 in MaskedIn(pre + ValuePiece(load, n, live))
    ensures forall x :: x in MaskedIn(pre) && x < n ==> x in MaskedIn(pre + ValuePiece(load, n, live))
  {
    var r, h := load.dst.value, n + 2;
    assert r in DefRegs(load);
    var m: Renaming := map[r := h];
    var piece, load' := ValuePiece(load, n, live), RenInstr(m, load);
    RenPostCode(m, load, n, live, n + 1);
    assert piece == PostCode(load', n, h, live, n + 1);
    assert Masks([(n, h)], false) == [MaskOr(h, n)];
    var k := if live then 2 else 1;
    assert piece[k] == MaskOr(h, n);
    forall x: Reg | x == h || x < n ensures OnlyMasks(x, piece) {}
    BecomesMasked(pre, piece, k, h);
    forall x | x in MaskedIn(pre) && x < n ensures x in MaskedIn(pre + piece) { StaysMasked(pre, piece, x); }
  }

  // ----- which addresses are masked entirely -----

  /** The address ends up with masked registers only, unless index and base are one unmasked register. */
  lemma FullyMaskedIff(load: Instr, known: Known, n: nat, live: bool, shrx: bool, pre: seq<Instr>)
    requires load.Op? && load.mem.Some? && Below(load, n) && KnownBelow(known, n) && KnownMasked(known, MaskedIn(pre))
    ensures var plan := AddrPlan(load, known, n, live, shrx);
            var a := load.mem.value;
            AddrRegs(plan.addr) <= MaskedIn(pre + MasksOf(plan, live, shrx, n))
            <==> !(SameReg(a) && a.base.reg !in MaskedIn(pre))
  {
    var plan := AddrPlan(load, known, n, live, shrx);
    var a := load.mem.value;
    MasksSuffice(load, known, n, live, shrx, pre, MasksOf(plan, live, shrx, n));
    if SameReg(a) {
      assert AddrRegs(a) <= UsedRegs(load) && a.base.reg in AddrRegs(a);
      assert plan.addr.index == a.index && a.index.value in AddrRegs(plan.addr);
      OldUnmasked(load, known, n, live, shrx, pre, a.base.reg);
    }
  }

  lemma OldUnmasked(load: Instr, known: Known, n: nat, live: bool, shrx: bool, pre: seq<Instr>, x: Reg)
    requires load.Op? && load.mem.Some? && Below(load, n) && KnownBelow(known, n) && x < n
    ensures x in MaskedIn(pre + MasksOf(AddrPlan(load, known, n, live, shrx), live, shrx, n)) <==> x in MaskedIn(pre)
  {
    var plan := AddrPlan(load, known, n, live, shrx);
    var code := MasksOf(plan, live, shrx, n);
    assert AddrRegs(load.mem.value) <= UsedRegs(load);
    PlanOps(load.mem.value, known, FirstMask(n, live, shrx), n);
    forall k | 0 <= k < |code| ensures x !in DefRegs(code[k]) {
      if live && !shrx {
        if 0 < k < |code| - 1 { assert code[k] == Masks(plan.ops, false)[k - 1]; }
      } else {
        assert code[k] == Masks(plan.ops, live)[k];
      }
    }
    Untouched(pre, code, x);
  }

  lemma {:induction false} Untouched(pre: seq<Instr>, code: seq<Instr>, x: Reg)
    requires forall k :: 0 <= k < |code| ==> x !in DefRegs(code[k])
    ensures x in MaskedIn(pre + code) <==> x in MaskedIn(pre)
    decreases |code|
  {
    if code == [] {
      assert pre + code == pre;
    } else {
      var init, last := code[..|code| - 1], code[|code| - 1];
      Untouched(pre, init, x);
      MaskedSnoc(pre + init, last);
      assert pre + init + [last] == pre + code;
    }
  }

  /** A load of base plus itself: the base is masked into register 8, the index stays register 7. */
  lemma DoubledBaseUnmasked(disp: Word)
    ensures var a := Addr(BaseReg(7), Some(7), 1, disp);
            var load := Op(Some(1), 0, [], Some(a), false, false, false, NoDef);
            AddrPlan(load, map[], 8, false, false).addr == Addr(BaseReg(8), Some(7), 1, disp)
            && 7 !in MaskedIn(MasksOf(AddrPlan(load, map[], 8, false, false), false, false, 8))
  {
    var a := Addr(BaseReg(7), Some(7), 1, disp);
    var load := Op(Some(1), 0, [], Some(a), false, false, false, NoDef);
    OldUnmasked(load, map[], 8, false, false, [], 7);
    var masks := MasksOf(AddrPlan(load, map[], 8, false, false), false, false, 8);
    assert [] + masks == masks;
  }
}
