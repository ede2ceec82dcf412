/**
 What the masks do to a poisoned run: from the moment the state is all ones, every load whose address
 was chosen for masking reads from masked registers only, and every value chosen for masking is all
 ones when the next instruction of the program can see it.
 */
module Blinding {
  import opened Options
  import opened Machine
  import opened Simulation
  import opened Masking
  import opened Harden
  import opened PostLoad
  import opened HardenPass
  import opened Coverage
  import opened HardenBlocks
  import opened Exactness

  // ----- one mask -----

  /** All ones, or a single bit. */
  predicate Blind(v: Word) { v == POISON || v == 0 || v == 1 }

  lemma OrUnderPoison(v: Word)
    ensures OrMask(POISON, v) == POISON
  {
  }

  lemma ShrUnderPoison(v: Word)
    ensures ShrMask(POISON, v) == v >> 63
  {
    assert POISON & 63 == 63;
  }

  lemma TopBit(v: Word)
    ensures v >> 63 == 0 || v >> 63 == 1
  {
  }

  /** Under poison a masked register holds all ones, or with SHRX the top bit of its source. */
  lemma MaskBlinds(env: Env, i: Instr, s: State)
    requires IsMask(i) && s.ps == POISON
    ensures i.MaskOr? ==> RegVal(Step(env, i, s), i.mdst) == POISON
    ensures i.MaskShr? ==> RegVal(Step(env, i, s), i.mdst) == RegVal(s, i.msrc) >> 63
    ensures Blind(RegVal(Step(env, i, s), i.mdst))
  {
    ShrUnderPoison(RegVal(s, i.msrc));
    OrUnderPoison(RegVal(s, i.msrc));
    TopBit(RegVal(s, i.msrc));
  }

  // ----- poison sticks -----

  lemma {:induction false} ExecSticks(env: Env, code: seq<Instr>, s: State)
    requires s.ps == POISON
    ensures Exec(env, code, s).ps == POISON
    decreases |code|
  {
    if code != [] { ExecSticks(env, code[1..], Step(env, code[0], s)); }
  }

  lemma {:induction false} SettledSticks(env: Env, body: seq<Instr>, s: State)
    requires s.ps == POISON
    ensures Settled(env, body, s) == POISON
    decreases |body|
  {
    if body != [] && body[0].CMovPoison? { SettledSticks(env, body[1..], Step(env, body[0], s)); }
  }

  lemma {:induction false} SettledExec(env: Env, body: seq<Instr>, s: State)
    requires Settled(env, body, s) == POISON
    ensures Exec(env, body, s).ps == POISON
    decreases |body|
  {
    if body == [] || !body[0].CMovPoison? {
      ExecSticks(env, body, s);
    } else {
      SettledExec(env, body[1..], Step(env, body[0], s));
    }
  }

  /** Settling looks no further than the first instruction that is no check. */
  lemma {:induction false} SettledPrefix(env: Env, body: seq<Instr>, f: nat, j: nat, s: State)
    requires f <= j <= |body| && f < |body| && !body[f].CMovPoison?
    ensures Settled(env, body[..j], s) == Settled(env, body, s)
    decreases |body|
  {
    if body[0].CMovPoison? {
      assert body[..j][1..] == body[1..][..j - 1];
      SettledPrefix(env, body[1..], f - 1, j - 1, Step(env, body[0], s));
    } else if j > 0 {
      assert body[..j][0] == body[0];
    }
  }

  /** Checks that poison do so before the block is settled. */
  lemma {:induction false} SettledLead(env: Env, body: seq<Instr>, j: nat, s: State)
    requires j <= |body| && forall k :: 0 <= k < j ==> body[k].CMovPoison?
    requires Exec(env, body[..j], s).ps == POISON
    ensures Settled(env, body, s) == POISON
    decreases j
  {
    if j == 0 {
      SettledSticks(env, body, s);
    } else {
      assert body[..j][1..] == body[1..][..j - 1];
      SettledLead(env, body[1..], j - 1, Step(env, body[0], s));
    }
  }

  // ----- masked registers in a poisoned block -----

  lemma {:induction false} MaskedBlind(env: Env, code: seq<Instr>, s: State, x: Reg)
    requires s.ps == POISON && x in MaskedIn(code)
    ensures Blind(RegVal(Exec(env, code, s), x))
    decreases |code|
  {
    var init, last := code[..|code| - 1], code[|code| - 1];
    assert code == init + [last];
    ExecConcat(env, init, [last], s);
    var t := Exec(env, init, s);
    OneStep(env, last, t);
    ExecSticks(env, init, s);
    if IsMask(last) && last.mdst == x {
      MaskBlinds(env, last, t);
    } else {
      MaskedBlind(env, init, s, x);
      StepKeepsReg(env, last, t, x);
    }
  }

  lemma StepKeepsReg(env: Env, i: Instr, s: State, x: Reg)
    requires i.Op? || IsMask(i) ==> x !in DefRegs(i)
    ensures RegVal(Step(env, i, s), x) == RegVal(s, x)
  {
  }

  lemma {:induction false} MaskedAfterCheck(i: Instr, code: seq<Instr>)
    requires i.CMovPoison?
    ensures MaskedIn([i] + code) == MaskedIn(code)
    decreases |code|
  {
    if code == [] {
      assert [i] + code == [] + [i];
      MaskedSnoc([], i);
    } else {
      var init, last := code[..|code| - 1], code[|code| - 1];
      MaskedAfterCheck(i, init);
      assert [i] + code == [i] + init + [last] && code == init + [last];
      MaskedSnoc([i] + init, last);
    }
  }

  /** Masks come after the checks of their block. */
  lemma {:induction false} SettledBlind(env: Env, code: seq<Instr>, s: State, x: Reg)
    requires Settled(env, code, s) == POISON && x in MaskedIn(code)
    ensures Blind(RegVal(Exec(env, code, s), x))
    decreases |code|
  {
    if code[0].CMovPoison? {
      assert code == [code[0]] + code[1..];
      MaskedAfterCheck(code[0], code[1..]);
      SettledBlind(env, code[1..], Step(env, code[0], s), x);
    } else {
      MaskedBlind(env, code, s, x);
    }
  }

  lemma PostCodePoisoned(env: Env, i: Instr, u: Reg, d: Reg, live: bool, fr: Reg, s: State)
    requires i.Op? && s.ps == POISON
    ensures RegVal(Exec(env, PostCode(i, u, d, live, fr), s), d) == POISON
  {
    var load, mask := i.(dst := Some(u)), MaskOr(d, u);
    assert Masks([(u, d)], false) == [mask];
    var t := Step(env, load, s);
    ExecConcat(env, [load], MaskCode([(u, d)], live, false, fr), s);
    OneStep(env, load, s);
    if live {
      ExecThree(env, [SaveFlags(fr)], [mask], [RestoreFlags(fr)], t);
      OneStep(env, SaveFlags(fr), t);
      var t1 := Step(env, SaveFlags(fr), t);
      OneStep(env, mask, t1);
      MaskBlinds(env, mask, t1);
      OneStep(env, RestoreFlags(fr), Step(env, mask, t1));
    } else {
      OneStep(env, mask, t);
      MaskBlinds(env, mask, t);
    }
  }

  // ----- a treated block -----

  /** The registers `b` reads where `a` read registers of its own; an index equal to the base is not masked. */
  ghost predicate AddrBlind(a: Addr, b: Addr, s: State) {
    && (a.base.BaseReg? ==> b.base.BaseReg? && Blind(RegVal(s, b.base.reg)))
    && (a.index.Some? && !SameReg(a) ==> b.index.Some? && Blind(RegVal(s, b.index.value)))
  }

  /** Instruction `k` of `ins` became what lies between `lo` and `hi`. If its address is to be masked, it comes
      last there and its address registers are blind when it executes; if its value is, the value is all
      ones at the end. */
  ghost predicate BlindAt(env: Env, ins: seq<Instr>, actions: seq<Action>, body: seq<Instr>, k: nat, lo: nat, hi: nat, s: State)
    requires k < |ins| <= |actions|
  {
    && PieceAt(ins, actions, body, k, lo, hi)
    && var i := ins[k];
    if actions[k].MaskAddress? && i.Op? && i.mem.Some? then
      && lo < hi && body[hi - 1].Op? && body[hi - 1].mem.Some? && body[hi - 1] == i.(mem := body[hi - 1].mem)
      && AddrBlind(i.mem.value, body[hi - 1].mem.value, Exec(env, body[..hi - 1], s))
    else if actions[k].MaskValue? && i.Op? && i.dst.Some? then
      RegVal(Exec(env, body[..hi], s), i.dst.value) == POISON
    else hi == lo + 1 && body[lo] == i
  }

  lemma AddrPieceBlind(env: Env, i: Instr, body: seq<Instr>, lo: nat, hi: nat, s: State)
    requires i.Op? && i.mem.Some? && lo <= hi <= |body| && AddrTreated(i, body[lo..hi], body[..lo])
    requires Settled(env, body, s) == POISON
    ensures lo < hi && body[hi - 1].Op? && body[hi - 1].mem.Some? && body[hi - 1] == i.(mem := body[hi - 1].mem)
    ensures AddrBlind(i.mem.value, body[hi - 1].mem.value, Exec(env, body[..hi - 1], s))
  {
    var code := body[..hi - 1];
    assert body[lo..hi][hi - lo - 1] == body[hi - 1];
    assert body[..lo] + body[lo..hi][..hi - lo - 1] == code;
    SettledPrefix(env, body, hi - 1, hi - 1, s);
    var a, b := i.mem.value, body[hi - 1].mem.value;
    assert AddressMasked(a, b, MaskedIn(code));
    if a.base.BaseReg? { SettledBlind(env, code, s, b.base.reg); }
    if a.index.Some? && !SameReg(a) { SettledBlind(env, code, s, b.index.value); }
  }

  /** The state is all ones wherever the block's checks are over. */
  lemma PoisonedAt(env: Env, body: seq<Instr>, lo: nat, s: State)
    requires lo < |body| && !body[lo].CMovPoison? && Settled(env, body, s) == POISON
    ensures Exec(env, body[..lo], s).ps == POISON
  {
    SettledPrefix(env, body, lo, lo, s);
    SettledExec(env, body[..lo], s);
  }

  lemma ExecSlice(env: Env, body: seq<Instr>, lo: nat, hi: nat, s: State)
    requires lo <= hi <= |body|
    ensures Exec(env, body[..hi], s) == Exec(env, body[lo..hi], Exec(env, body[..lo], s))
  {
    assert body[..lo] + body[lo..hi] == body[..hi];
    ExecConcat(env, body[..lo], body[lo..hi], s);
  }

  lemma ValuePieceBlind(env: Env, i: Instr, body: seq<Instr>, lo: nat, hi: nat, s: State)
    requires i.Op? && i.dst.Some? && lo <= hi <= |body| && ValueTreated(i, body[lo..hi])
    requires Settled(env, body, s) == POISON
    ensures RegVal(Exec(env, body[..hi], s), i.dst.value) == POISON
  {
    var u: Reg, live: bool, fr: Reg :| body[lo..hi] == PostCode(i, u, i.dst.value, live, fr);
    assert body[lo..hi][0] == body[lo];
    PoisonedAt(env, body, lo, s);
    PostCodePoisoned(env, i, u, i.dst.value, live, fr, Exec(env, body[..lo], s));
    ExecSlice(env, body, lo, hi, s);
  }

  /** A poisoned run of a treated block. */
  lemma TreatedBlinds(env: Env, ins: seq<Instr>, actions: seq<Action>, body: seq<Instr>, k: nat, s: State)
    requires Treated(ins, actions, body) && k < |ins| && Settled(env, body, s) == POISON
    ensures exists lo: nat, hi: nat :: BlindAt(env, ins, actions, body, k, lo, hi, s)
  {
    TreatedAt(ins, actions, body, k);
    var lo: nat, hi: nat :| PieceAt(ins, actions, body, k, lo, hi);
    var i := ins[k];
    if actions[k].MaskAddress? && i.Op? && i.mem.Some? {
      AddrPieceBlind(env, i, body, lo, hi, s);
    } else if actions[k].MaskValue? && i.Op? && i.dst.Some? {
      ValuePieceBlind(env, i, body, lo, hi, s);
    } else {
      assert body[lo..hi] == [i];
      assert body[lo..hi][0] == body[lo];
    }
    assert BlindAt(env, ins, actions, body, k, lo, hi, s);
  }

  // ----- a poisoned run -----

  /** Instruction `k` of block `b`, as chosen for it by the caller: it became what lies between `lo` and `hi`, and
      when the block runs from `s` its address registers are blind as it executes, or its value is all
      ones behind it. */
  ghost predicate ChoiceBlind(env: Env, f: Func, p: Progress, actions: map<BlockId, seq<Action>>, b: BlockId, k: nat,
                              lo: nat, hi: nat, s: State)
    requires Chosen(f, actions, b) && b in p.f.blocks && k < |f.blocks[b].body|
  {
    var i, body := Renamed(f, p, b, k), p.f.blocks[b].body;
    && ChoiceMade(f, p, actions, b, k, lo, hi)
    && (actions[b][k].MaskAddress? && i.Op? && i.mem.Some? ==>
          && lo < hi && body[hi - 1].Op? && body[hi - 1].mem.Some? && body[hi - 1] == i.(mem := body[hi - 1].mem)
          && AddrBlind(i.mem.value, body[hi - 1].mem.value, Exec(env, body[..hi - 1], s)))
    && (actions[b][k].MaskValue? && i.Op? && i.dst.Some? ==>
          RegVal(Exec(env, body[..hi], s), i.dst.value) == POISON)
  }

  ghost predicate InstrBlind(env: Env, f: Func, p: Progress, actions: map<BlockId, seq<Action>>, b: BlockId, k: nat, s: State) {
    Chosen(f, actions, b) && b in p.f.blocks && k < |f.blocks[b].body| ==>
      exists lo: nat, hi: nat :: ChoiceBlind(env, f, p, actions, b, k, lo, hi, s)
  }

  /** Every choice of the caller for block `b` is blind when the block runs from `s`. */
  ghost predicate BlockBlind(env: Env, f: Func, p: Progress, actions: map<BlockId, seq<Action>>, b: BlockId, s: State) {
    forall k: nat :: InstrBlind(env, f, p, actions, b, k, s)
  }

  lemma BlindChoice(env: Env, f: Func, p: Progress, actions: map<BlockId, seq<Action>>, b: BlockId, k: nat, s: State)
    requires BlockTreated(f, p, actions, b) && Settled(env, p.f.blocks[b].body, s) == POISON
    ensures InstrBlind(env, f, p, actions, b, k, s)
  {
    if Chosen(f, actions, b) && k < |f.blocks[b].body| {
      var ins, acts, body := RenBody(p.ren, f.blocks[b].body), ActionsFor(f, actions, b), p.f.blocks[b].body;
      TreatedBlinds(env, ins, acts, body, k, s);
      var lo: nat, hi: nat :| BlindAt(env, ins, acts, body, k, lo, hi, s);
      assert ChoiceBlind(env, f, p, actions, b, k, lo, hi, s);
    }
  }

  lemma {:induction false} PoisonedRun(env: Env, h: Func, c: Config, exits: seq<nat>)
    requires c.at in h.blocks && Settled(env, h.blocks[c.at].body, c.st) == POISON && Run(env, h, c, exits).Some?
    ensures var d := Run(env, h, c, exits).value;
            d.at in h.blocks && Settled(env, h.blocks[d.at].body, d.st) == POISON
    decreases |exits|
  {
    if exits != [] {
      var d := Move(env, h, c, exits[0]).value;
      SettledExec(env, h.blocks[c.at].body, c.st);
      SettledSticks(env, h.blocks[d.at].body, d.st);
      PoisonedRun(env, h, d, exits[1..]);
    }
  }

  /** Wherever a run goes once it is poisoned, every chosen load it meets is blind. */
  lemma PoisonedRunBlind(env: Env, f: Func, p: Progress, actions: map<BlockId, seq<Action>>, c: Config, exits: seq<nat>)
    requires BlocksTreated(f, p, actions, f.blocks.Keys)
    requires c.at in p.f.blocks && Settled(env, p.f.blocks[c.at].body, c.st) == POISON && Run(env, p.f, c, exits).Some?
    ensures var d := Run(env, p.f, c, exits).value;
            d.at in f.blocks && d.at in p.f.blocks && BlockBlind(env, f, p, actions, d.at, d.st)
  {
    PoisonedRun(env, p.f, c, exits);
    var d := Run(env, p.f, c, exits).value;
    assert BlockState(f, p, actions, f.blocks.Keys, d.at);
    forall k: nat ensures InstrBlind(env, f, p, actions, d.at, k, d.st) { BlindChoice(env, f, p, actions, d.at, k, d.st); }
  }

  // ----- the checks of a block are kept -----

  lemma {:induction false} TreatedLead(ins: seq<Instr>, actions: seq<Action>, body: seq<Instr>, j: nat)
    requires Treated(ins, actions, body) && j <= |ins| && forall k :: 0 <= k < j ==> ins[k].CMovPoison?
    ensures j <= |body| && body[..j] == ins[..j]
    decreases |ins|
  {
    if j > 0 {
      var k := |ins| - 1;
      var cut: nat :| TreatedTo(ins, actions, body, cut);
      if j < |ins| {
        TreatedLead(ins[..k], actions, body[..cut], j);
        assert body[..cut][..j] == body[..j] && ins[..k][..j] == ins[..j];
      } else {
        TreatedLead(ins[..k], actions, body[..cut], k);
        TreatedSize(ins[..k], actions, body[..cut]);
        assert body == body[..cut] + body[cut..] && body[..cut][..k] == body[..cut];
        assert ins[..j] == ins[..k] + [ins[k]];
      }
    }
  }

  lemma {:induction false} TreatedSize(ins: seq<Instr>, actions: seq<Action>, body: seq<Instr>)
    requires Treated(ins, actions, body) && forall k :: 0 <= k < |ins| ==> ins[k].CMovPoison?
    ensures |body| == |ins|
    decreases |ins|
  {
    if ins != [] {
      var cut: nat :| TreatedTo(ins, actions, body, cut);
      TreatedSize(ins[..|ins| - 1], actions, body[..cut]);
    }
  }
}
