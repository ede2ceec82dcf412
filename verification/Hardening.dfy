/**
 The whole pass: canonicalize PHIs, trace the predicate state through the control-flow graph, then
 harden the loads of every block. On correctly predicted runs the result computes what the original
 computed; after a wrong turn every chosen load is blind.
 */
module Hardening {
  import opened Machine
  import opened SplitEdge
  import opened PhiEntries
  import opened CheckCodes
  import opened CondInfo
  import opened Instrumented
  import opened TraceCfg
  import opened Exactness
  import opened Liveness
  import opened Simulation
  import Harden
  import opened HardenPass
  import opened HardenWalk
  import opened HardenBlocks
  import opened Blinding

  lemma {:induction false} SettledMonotone(env: Env, body: seq<Instr>, s: State)
    requires Settled(env, body, s) == 0
    ensures s.ps == 0
    decreases |body|
  {
    if body != [] && body[0].CMovPoison? {
      SettledMonotone(env, body[1..], Step(env, body[0], s));
      assert POISON != 0;
    }
  }

  /** Once every PHI has some entry for each predecessor and no other, canonicalization is all that
      the rest of the pass needs of it. */
  lemma CanonicalizationSuffices(f: Func)
    requires forall b, j :: b in f.blocks && 0 <= j < |f.blocks[b].phis| ==> Keys(f.blocks[b].phis[j].entries) == Preds(f, b)
    ensures PhisCanonical(CanonFunc(f))
  {
    var g := CanonFunc(f);
    forall b | b in g.blocks ensures CanonicalAt(g, b) {
      assert Preds(g, b) == Preds(f, b);
      forall j | 0 <= j < |g.blocks[b].phis| ensures Canonical(g.blocks[b].phis[j].entries, Preds(g, b)) {
        FirstEntriesCanonical(f.blocks[b].phis[j].entries);
      }
    }
  }

  /** The registers of `s` copied to where the hardening has put the first `n` of them. */
  function Relocated(s: State, n: nat, ren: Renaming): map<Reg, Word> {
    if n == 0 then s.regs else Relocated(s, n - 1, ren)[Ren(ren, n - 1) := RegVal(s, n - 1)]
  }

  /** The entry of the hardened function for the entry `s` of the original. */
  function Entry(s: State, n: nat, ren: Renaming): State { s.(regs := Relocated(s, n, ren)) }

  lemma {:induction false} RelocatedAt(s: State, n: nat, ren: Renaming, r: Reg)
    requires Injective(ren, n) && r < n
    ensures Get(Relocated(s, n, ren), Ren(ren, r), 0) == RegVal(s, r)
  {
    if r < n - 1 {
      RelocatedAt(s, n - 1, ren, r);
      assert Ren(ren, r) != Ren(ren, n - 1);
    }
  }

  lemma EntryAgree(s: State, n: nat, ren: Renaming, live: bool)
    requires Injective(ren, n)
    ensures Agree(n, ren, live, s, Entry(s, n, ren))
  {
    forall r: Reg | r < n ensures Get(s.regs, r, 0) == Get(Entry(s, n, ren).regs, Ren(ren, r), 0) {
      RelocatedAt(s, n, ren, r);
    }
  }

  /** Both phases, whatever the instructions compute: `f` instruments `o`, and `p` hardens `f`. */
  ghost predicate Hardened(o: Func, f: Func, own: map<BlockId, Edge>, n: nat, actions: map<BlockId, seq<Action>>, p: Progress) {
    && Instruments(o, f, own) && PlainFunc(o)
    && PassOk(f, n, p) && BlocksTreated(f, p, actions, f.blocks.Keys) && ChoicesMade(f, p, actions)
  }

  /** A run of `o` from predicate state zero on which no check fails: one that is correctly predicted, or
      whose mispredictions no check sees. */
  ghost predicate Unseen(env: Env, o: Func, s: State, exits: seq<nat>) {
    && o.layout != [] && o.layout[0] in o.blocks && s.ps == 0
    && Run(env, o, Config(o.layout[0], s), exits).Some?
    && !exists i :: 0 <= i < |exits| && ViolatedAt(env, o, Config(o.layout[0], s), exits, i)
  }

  lemma PredictedUnseen(env: Env, o: Func, s: State, exits: seq<nat>)
    requires o.layout != [] && o.layout[0] in o.blocks && s.ps == 0
    requires Run(env, o, Config(o.layout[0], s), exits).Some? && Predicted(env, o, Config(o.layout[0], s), exits)
    ensures Unseen(env, o, s, exits)
  {
    var c := Config(o.layout[0], s);
    PredictedUnpoisoned(env, o, c, 0, exits);
    SpecStateIff(env, o, c, 0, exits);
    assert POISON != 0;
  }

  /** The hardened function makes the same run: the same block, the same memory, the same registers where
      they now live, and the same flags where anyone may still read them. */
  ghost predicate SameRun(env: Env, o: Func, f: Func, h: Func, n: nat, ren: Renaming, s: State, exits: seq<nat>)
    requires o.layout != [] && Run(env, o, Config(o.layout[0], s), exits).Some?
  {
    var b := o.layout[0];
    var d := Run(env, o, Config(b, s), exits).value;
    var r := Run(env, h, Config(b, Entry(s, n, ren)), Expand(o, f, b, exits));
    && r.Some? && r.value.at == d.at && d.at in h.blocks && r.value.st.ps == 0
    && r.value.st.mem == d.st.mem
    && (forall q: Reg :: q < n ==> RegVal(r.value.st, Ren(ren, q)) == RegVal(d.st, q))
    && (h.blocks[d.at].flagsLiveIn ==> r.value.st.flags == d.st.flags)
  }

  /** The instrumented function at the end of such a run: unpoisoned, and once the checks waiting there
      have run still unpoisoned. */
  lemma UnseenInstrumented(env: Env, o: Func, f: Func, own: map<BlockId, Edge>, s: State, exits: seq<nat>)
    requires Instruments(o, f, own) && PlainFunc(o) && Unseen(env, o, s, exits)
    ensures var c := Config(o.layout[0], s);
            var d := Run(env, o, c, exits).value;
            var m := Run(env, f, c, Expand(o, f, c.at, exits));
            && m.Some? && m.value.at == d.at && d.at in o.blocks && d.at in f.blocks && m.value.st == d.st.(ps := 0)
            && Settled(env, f.blocks[d.at].body, m.value.st) == 0
  {
    var c := Config(o.layout[0], s);
    StateExact(env, o, f, own, s, exits);
    SpecStateIff(env, o, c, 0, exits);
    assert s == s.(ps := s.ps);
    RunExact(env, o, f, own, c, s.ps, exits);
    var m := Run(env, f, c, Expand(o, f, c.at, exits)).value;
    SettledMonotone(env, f.blocks[m.at].body, m.st);
  }

  /** An unpoisoned run of the instrumented function from the entry is a run of the hardened one. */
  lemma HardenedFollows(env: Env, o: Func, f: Func, own: map<BlockId, Edge>, h: Func, n: nat, ren: Renaming, s: State, xs: seq<nat>)
    requires Instruments(o, f, own) && Simulates(env, f, h, n, ren) && Injective(ren, n)
    requires Run(env, f, Config(o.layout[0], s), xs).Some? && Run(env, f, Config(o.layout[0], s), xs).value.st.ps == 0
    ensures var b := o.layout[0];
            Arrives(env, f, h, n, ren, Run(env, f, Config(b, s), xs).value, Run(env, h, Config(b, Entry(s, n, ren)), xs))
  {
    var c := Config(o.layout[0], s);
    EntryUnchecked(o, f, own);
    assert OldBlockOk(o, f, own, c.at);
    EntryAgree(s, n, ren, f.blocks[c.at].flagsLiveIn);
    assert Follows(env, f, h, n, ren, c, Entry(s, n, ren), xs);
  }

  /** Meaning preservation: every run of the original from predicate state zero on which no check fails,
      so every correctly predicted one, is, block for block, a run of the hardened function, with the
      same memory, the same registers where they now live, and the same flags where anyone may still
      read them. */
  lemma MeaningPreserved(env: Env, o: Func, f: Func, own: map<BlockId, Edge>, h: Func, n: nat, ren: Renaming,
                         s: State, exits: seq<nat>)
    requires Instruments(o, f, own) && PlainFunc(o) && Simulates(env, f, h, n, ren) && Injective(ren, n)
    requires Unseen(env, o, s, exits)
    ensures SameRun(env, o, f, h, n, ren, s, exits)
  {
    var b := o.layout[0];
    var xs := Expand(o, f, b, exits);
    UnseenInstrumented(env, o, f, own, s, exits);
    HardenedFollows(env, o, f, own, h, n, ren, s, xs);
    var d, m := Run(env, o, Config(b, s), exits).value, Run(env, f, Config(b, s), xs).value;
    var r := Run(env, h, Config(b, Entry(s, n, ren)), xs).value;
    forall q: Reg | q < n ensures RegVal(r.st, Ren(ren, q)) == RegVal(d.st, q) {
      assert Get(m.st.regs, q, 0) == Get(r.st.regs, Ren(ren, q), 0);
    }
  }

  // ----- after a wrong turn -----

  /** Crossing a wrong edge of a traced block of the instrumented function: still unpoisoned on arrival,
      poisoned by the checks that wait there, and they find the flags live. */
  lemma WrongEdge(env: Env, o: Func, f: Func, own: map<BlockId, Edge>, d: Config, e: nat)
    requires Instruments(o, f, own) && PlainFunc(o) && d.at in o.blocks && d.at in f.blocks && d.st.ps == 0
    requires Settled(env, f.blocks[d.at].body, d.st) == 0 && Traced(o.blocks[d.at]) && Wrong(env, o, d.at, d.st, e)
    ensures var m := Move(env, f, d, e);
            && m.Some? && m.value.at in f.blocks && m.value.at in own && m.value.st.ps == 0
            && f.blocks[m.value.at].flagsLiveIn
            && After(CodesAt(o, own, m.value.at), m.value.st.flags, 0) == POISON
  {
    var b := d.at;
    EdgeFacts(o, f, own, b, e);
    EdgeChecked(o, f, own, b, e);
    assert d.st == d.st.(ps := 0);
    ExecOld(env, o, f, own, b, d.st, 0);
    SettledChecks(env, o, f, own, b, d.st);
    EdgeChecksExact(o.blocks[b].terms, e, Exec(env, o.blocks[b].body, d.st).flags, 0);
    var x := Target(f, b, e).value;
    if x in o.blocks { assert OldBlockOk(o, f, own, x); } else { assert NewBlockOk(o, f, own, x); }
  }

  /** The checks of a block survive the hardening, in front of everything else. */
  lemma ChecksSurvive(o: Func, f: Func, own: map<BlockId, Edge>, p: Progress, actions: map<BlockId, seq<Action>>, x: BlockId)
    requires Instruments(o, f, own) && BlocksTreated(f, p, actions, f.blocks.Keys) && x in own
    ensures x in f.blocks && x in p.f.blocks && own[x].0 in o.blocks
    ensures var codes, body := CodesAt(o, own, x), p.f.blocks[x].body;
            |codes| <= |body| && forall k :: 0 <= k < |codes| ==> body[k].CMovPoison? && body[k].cc == codes[k]
  {
    assert OwnOk(o, f, own, x);
    assert BlockState(f, p, actions, f.blocks.Keys, x);
    var codes := CodesAt(o, own, x);
    var ins := RenBody(p.ren, f.blocks[x].body);
    if x in o.blocks { assert OldBlockOk(o, f, own, x); } else { assert NewBlockOk(o, f, own, x); }
    forall k | 0 <= k < |codes| ensures ins[k].CMovPoison? && ins[k].cc == codes[k] {
      assert f.blocks[x].body[k].CMovPoison? && f.blocks[x].body[k].cc == codes[k];
    }
    var body := p.f.blocks[x].body;
    TreatedLead(ins, ActionsFor(f, actions, x), body, |codes|);
    forall k | 0 <= k < |codes| ensures body[k] == ins[k] { assert body[..|codes|][k] == ins[..|codes|][k]; }
  }

  /** The checks that wait in a block, run in the hardened function. */
  lemma ChecksPoison(env: Env, o: Func, f: Func, own: map<BlockId, Edge>, p: Progress, actions: map<BlockId, seq<Action>>,
                     x: BlockId, t: State)
    requires Instruments(o, f, own) && BlocksTreated(f, p, actions, f.blocks.Keys) && x in own
    requires After(CodesAt(o, own, x), t.flags, t.ps) == POISON
    ensures x in p.f.blocks && Settled(env, p.f.blocks[x].body, t) == POISON
  {
    ChecksSurvive(o, f, own, p, actions, x);
    var codes, body := CodesAt(o, own, x), p.f.blocks[x].body;
    ExecChecks(env, codes, body[..|codes|], t);
    SettledLead(env, body, |codes|, t);
  }

  /** Wherever the hardened function goes after the run `exits` of `o` and then the exit `e`, the choices for
      the blocks of `g` are blind. */
  ghost predicate BlindAfter(env: Env, o: Func, f: Func, g: Func, n: nat, p: Progress, actions: map<BlockId, seq<Action>>,
                             s: State, exits: seq<nat>, e: nat, ys: seq<nat>)
    requires o.layout != []
  {
    var b := o.layout[0];
    var r := Run(env, p.f, Config(b, Entry(s, n, p.ren)), Expand(o, f, b, exits) + [e] + ys);
    r.Some? ==> r.value.at in p.f.blocks && BlockBlind(env, g, p, actions, r.value.at, r.value.st)
  }

  /** The first exit of a run that fails its check: a wrong exit of a traced block. */
  ghost predicate WrongTurn(env: Env, o: Func, s: State, exits: seq<nat>, e: nat) {
    && Unseen(env, o, s, exits)
    && var d := Run(env, o, Config(o.layout[0], s), exits).value;
    d.at in o.blocks && Traced(o.blocks[d.at]) && Wrong(env, o, d.at, d.st, e)
  }

  lemma RunSnoc(env: Env, f: Func, c: Config, xs: seq<nat>, e: nat)
    requires Run(env, f, c, xs).Some?
    ensures Run(env, f, c, xs + [e]) == Move(env, f, Run(env, f, c, xs).value, e)
  {
    RunConcat(env, f, c, xs, [e]);
    assert [e][1..] == [];
  }

  /** The hardened function just after the wrong turn: its state is all ones once it has settled. */
  lemma TurnPoisons(env: Env, o: Func, f: Func, own: map<BlockId, Edge>, n: nat, actions: map<BlockId, seq<Action>>,
                    p: Progress, s: State, exits: seq<nat>, e: nat)
    requires Hardened(o, f, own, n, actions, p) && WrongTurn(env, o, s, exits, e)
    ensures var b := o.layout[0];
            var r := Run(env, p.f, Config(b, Entry(s, n, p.ren)), Expand(o, f, b, exits) + [e]);
            r.Some? && r.value.at in p.f.blocks && Settled(env, p.f.blocks[r.value.at].body, r.value.st) == POISON
  {
    var c := Config(o.layout[0], s);
    var xs := Expand(o, f, c.at, exits);
    UnseenInstrumented(env, o, f, own, s, exits);
    var d, m := Run(env, o, c, exits).value, Run(env, f, c, xs).value;
    WrongIgnoresState(env, o, d, e);
    WrongEdge(env, o, f, own, m, e);
    RunSnoc(env, f, c, xs, e);
    assert PassInv(env, f, n, p);
    HardenedFollows(env, o, f, own, p.f, n, p.ren, s, xs + [e]);
    var r := Run(env, p.f, Config(c.at, Entry(s, n, p.ren)), xs + [e]).value;
    ChecksPoison(env, o, f, own, p, actions, r.at, r.st);
  }

  lemma WrongIgnoresState(env: Env, o: Func, d: Config, e: nat)
    requires PlainFunc(o) && d.at in o.blocks && Wrong(env, o, d.at, d.st, e)
    ensures Wrong(env, o, d.at, d.st.(ps := 0), e)
  {
    PlainIgnoresState(env, o.blocks[d.at].body, d.st, 0);
  }

  /** What the pass is for: once a run has taken a wrong turn, every load it meets from then on whose
      address was chosen for masking reads from blinded registers, and every value chosen for masking
      is all ones, whatever exits it goes on to take. */
  lemma WrongTurnBlinds(env: Env, o: Func, f: Func, own: map<BlockId, Edge>, n: nat, actions: map<BlockId, seq<Action>>,
                        p: Progress, s: State, exits: seq<nat>, e: nat, ys: seq<nat>)
    requires Hardened(o, f, own, n, actions, p) && WrongTurn(env, o, s, exits, e)
    ensures BlindAfter(env, o, f, f, n, p, actions, s, exits, e, ys)
  {
    TurnPoisons(env, o, f, own, n, actions, p, s, exits, e);
    var c := Config(o.layout[0], Entry(s, n, p.ren));
    var xs := Expand(o, f, c.at, exits) + [e];
    RunConcat(env, p.f, c, xs, ys);
    if Run(env, p.f, c, xs + ys).Some? {
      PoisonedRunBlind(env, f, p, actions, Run(env, p.f, c, xs).value, ys);
    }
  }

  /** There is no third case: a run of `o` from state zero on which some check fails has a first one. */
  lemma {:induction false} UnseenOrTurns(env: Env, o: Func, s: State, exits: seq<nat>)
    requires o.layout != [] && o.layout[0] in o.blocks && s.ps == 0
    requires Run(env, o, Config(o.layout[0], s), exits).Some?
    ensures Unseen(env, o, s, exits) || exists k: nat :: k < |exits| && WrongTurn(env, o, s, exits[..k], exits[k])
    decreases |exits|
  {
    var c := Config(o.layout[0], s);
    if exits != [] {
      var k := |exits| - 1;
      assert exits == exits[..k] + [exits[k]];
      RunPrefix(env, o, c, exits[..k], [exits[k]]);
      UnseenOrTurns(env, o, s, exits[..k]);
      if j: nat :| j < k && WrongTurn(env, o, s, exits[..k][..j], exits[..k][j]) {
        assert exits[..k][..j] == exits[..j];
      } else {
        LastTurn(env, o, s, exits);
      }
    }
  }

  lemma LastTurn(env: Env, o: Func, s: State, exits: seq<nat>)
    requires exits != [] && Unseen(env, o, s, exits[..|exits| - 1])
    requires Run(env, o, Config(o.layout[0], s), exits).Some?
    ensures Unseen(env, o, s, exits) || WrongTurn(env, o, s, exits[..|exits| - 1], exits[|exits| - 1])
  {
    var c, k := Config(o.layout[0], s), |exits| - 1;
    if i :| 0 <= i < |exits| && ViolatedAt(env, o, c, exits, i) {
      ViolatedPrefix(env, o, c, exits, k, i);
      ViolatedLast(env, o, c, exits);
    }
  }

  lemma ViolatedPrefix(env: Env, o: Func, c: Config, exits: seq<nat>, k: nat, i: nat)
    requires k <= |exits| && i < |exits| && ViolatedAt(env, o, c, exits, i)
    ensures i < k ==> ViolatedAt(env, o, c, exits[..k], i)
  {
    if i < k { assert exits[..k][..i] == exits[..i]; }
  }

  lemma ViolatedLast(env: Env, o: Func, c: Config, exits: seq<nat>)
    requires exits != [] && Run(env, o, c, exits).Some? && Run(env, o, c, exits[..|exits| - 1]).Some?
    ensures var k, d := |exits| - 1, Run(env, o, c, exits[..|exits| - 1]).value;
            ViolatedAt(env, o, c, exits, k) ==> d.at in o.blocks && Traced(o.blocks[d.at]) && Wrong(env, o, d.at, d.st, exits[k])
  {
    var k := |exits| - 1;
    RunSnoc(env, o, c, exits[..k], exits[k]);
    assert exits == exits[..k] + [exits[k]];
  }

  lemma {:induction false} RunPrefix(env: Env, f: Func, c: Config, xs: seq<nat>, ys: seq<nat>)
    requires Run(env, f, c, xs + ys).Some?
    ensures Run(env, f, c, xs).Some?
    decreases |xs|
  {
    if xs != [] {
      assert (xs + ys)[1..] == xs[1..] + ys;
      RunPrefix(env, f, Move(env, f, c, xs[0]).value, xs[1..], ys);
    }
  }

  // ----- what the second phase finds after the first -----

  /** Each block of the original is in SSA form, below `n`. */
  ghost predicate SsaFunc(o: Func, n: nat) {
    FuncBelow(o, n) && forall b :: b in o.blocks ==> Unwalked(o.blocks[b].body)
  }

  lemma ChecksBelow(o: Func, own: map<BlockId, Edge>, b: BlockId, kill: bool, n: nat)
    ensures BodyBelow(Checks(o, own, b, kill), n)
    ensures forall k :: 0 <= k < |Checks(o, own, b, kill)| ==> Checks(o, own, b, kill)[k].CMovPoison?
  {
  }

  lemma ChecksThenUnwalked(checks: seq<Instr>, body: seq<Instr>)
    requires Unwalked(body) && forall k :: 0 <= k < |checks| ==> checks[k].CMovPoison?
    ensures Unwalked(checks + body)
  {
    var all := checks + body;
    forall j: nat | j < |all| ensures TailAt([], all, map[], j) {
      if j >= |checks| {
        assert TailAt([], body, map[], j - |checks|) && all[j] == body[j - |checks|];
        forall d | d in DefRegs(all[j]) ensures NotIn(d, all[..j]) {
          assert NotIn(d, body[..j - |checks|]);
          forall k | 0 <= k < |all[..j]| ensures d !in UsedRegs(all[..j][k]) && d !in DefRegs(all[..j][k]) {
            if k >= |checks| { assert all[..j][k] == body[..j - |checks|][k - |checks|]; }
          }
        }
      }
    }
  }

  /** After the first phase the function still meets what the second phase needs. */
  lemma InstrumentedSsa(o: Func, f: Func, own: map<BlockId, Edge>, n: nat)
    requires Instruments(o, f, own) && SsaFunc(o, n)
    ensures SsaFunc(f, n)
  {
    forall b | b in f.blocks ensures BlockBelow(f.blocks[b], n) && Unwalked(f.blocks[b].body) {
      if b in o.blocks { OldBlockSsa(o, f, own, b, n); } else { NewBlockSsa(o, f, own, b, n); }
    }
  }

  lemma OldBlockSsa(o: Func, f: Func, own: map<BlockId, Edge>, b: BlockId, n: nat)
    requires Instruments(o, f, own) && SsaFunc(o, n) && b in o.blocks && b in f.blocks
    ensures BlockBelow(f.blocks[b], n) && Unwalked(f.blocks[b].body)
  {
    var ob, fb := o.blocks[b], f.blocks[b];
    assert OldBlockOk(o, f, own, b) && BlockBelow(ob, n);
    var checks := Checks(o, own, b, !ob.flagsLiveIn);
    ChecksBelow(o, own, b, !ob.flagsLiveIn, n);
    Harden.BodyBelowConcat(checks, ob.body, n);
    ChecksThenUnwalked(checks, ob.body);
    forall j | 0 <= j < |fb.phis| ensures PhiBelow(fb.phis[j], n) {
      assert PhiBelow(ob.phis[j], n);
      var es := fb.phis[j].entries;
      forall k | 0 <= k < |es| ensures es[k].0 < n { assert es[k].0 in Values(es); }
    }
  }

  lemma NewBlockSsa(o: Func, f: Func, own: map<BlockId, Edge>, b: BlockId, n: nat)
    requires Instruments(o, f, own) && b !in o.blocks && b in f.blocks
    ensures BlockBelow(f.blocks[b], n) && Unwalked(f.blocks[b].body)
  {
    assert NewBlockOk(o, f, own, b);
  }

  // ----- the whole pass -----

  /** A function as the pass finds it: every PHI has some entry for each predecessor and no other, the
      entry has no predecessors, no traced block falls off the layout, EFLAGS are live where they are
      read, registers are below `n` and in SSA form, and the bodies hold nothing of the pass's own. */
  ghost predicate Input(o: Func, n: nat) {
    && LayoutOk(o) && Closed(o) && Preds(o, o.layout[0]) == {}
    && (forall b {:trigger Continues(o, b)} :: b in o.blocks ==> Continues(o, b))
    && (forall b, j :: b in o.blocks && 0 <= j < |o.blocks[b].phis| ==> Keys(o.blocks[b].phis[j].entries) == Preds(o, b))
    && PlainFunc(o) && LiveFunc(o) && SsaFunc(o, n)
  }

  lemma {:induction false} FirstEntriesValues(es: seq<(Reg, BlockId)>)
    ensures forall k :: 0 <= k < |FirstEntries(es)| ==> FirstEntries(es)[k] in es
    decreases |es|
  {
    if es != [] { FirstEntriesValues(es[..|es| - 1]); }
  }

  lemma CanonBlockBelow(b: Block, n: nat)
    requires BlockBelow(b, n)
    ensures BlockBelow(b.(phis := CanonPhis(b.phis)), n)
  {
    forall k | 0 <= k < |b.phis| ensures PhiBelow(CanonPhis(b.phis)[k], n) {
      assert PhiBelow(b.phis[k], n);
      FirstEntriesValues(b.phis[k].entries);
    }
  }

  lemma CanonFlow(o: Func)
    ensures var g := CanonFunc(o);
            && (forall b, e :: b in o.blocks ==> Target(g, b, e) == Target(o, b, e))
            && (forall b :: Preds(g, b) == Preds(o, b))
  {
    forall b ensures Preds(CanonFunc(o), b) == Preds(o, b) {}
  }

  lemma CanonAcceptable(o: Func, n: nat)
    requires Input(o, n)
    ensures Acceptable(CanonFunc(o)) && PlainFunc(CanonFunc(o))
  {
    var g := CanonFunc(o);
    CanonFlow(o);
    CanonicalizationSuffices(o);
    forall b | b in g.blocks ensures ClosedAt(g, b) && Continues(g, b) { assert ClosedAt(o, b) && Continues(o, b); }
  }

  lemma CanonReady(o: Func, n: nat)
    requires Input(o, n)
    ensures LiveFunc(CanonFunc(o)) && SsaFunc(CanonFunc(o), n)
  {
    var g := CanonFunc(o);
    CanonFlow(o);
    forall b | b in g.blocks ensures LiveBlock(g, b) && BlockBelow(g.blocks[b], n) {
      assert LiveBlock(o, b) && BlockBelow(o.blocks[b], n);
      CanonBlockBelow(o.blocks[b], n);
      forall e | WantsFlags(g, Target(g, b, e)) ensures LiveEnd(g.blocks[b].body, g.blocks[b].flagsLiveIn) {
        assert WantsFlags(o, Target(o, b, e));
      }
    }
  }

  lemma CanonUnseen(env: Env, o: Func, s: State, exits: seq<nat>)
    requires Unseen(env, o, s, exits)
    ensures Unseen(env, CanonFunc(o), s, exits)
    ensures Run(env, CanonFunc(o), Config(o.layout[0], s), exits) == Run(env, o, Config(o.layout[0], s), exits)
  {
    var c := Config(o.layout[0], s);
    CanonRun(env, o, c, exits);
    forall i | 0 <= i < |exits| ensures !ViolatedAt(env, CanonFunc(o), c, exits, i) {
      CanonRun(env, o, c, exits[..i]);
      assert !ViolatedAt(env, o, c, exits, i);
    }
  }

  lemma CanonTurn(env: Env, o: Func, s: State, exits: seq<nat>, e: nat)
    requires WrongTurn(env, o, s, exits, e)
    ensures WrongTurn(env, CanonFunc(o), s, exits, e)
  {
    CanonUnseen(env, o, s, exits);
    CanonFlow(o);
  }

  /** The guarantees of the pass for a function `o`, whatever its instructions compute and wherever it starts
      from: every choice the caller made for an instruction of `o` is carried out, runs on which no check
      fails are kept, and after a wrong turn every choice is blind. */
  ghost predicate Guaranteed(o: Func, f: Func, n: nat, actions: map<BlockId, seq<Action>>, p: Progress) {
    && (forall b: BlockId, k: nat :: ChoiceCarried(o, p, actions, b, k))
    && (forall b: BlockId | b in o.blocks :: b in p.f.blocks)
    && (forall env: Env, s: State, exits: seq<nat> {:trigger Unseen(env, o, s, exits)} ::
          Unseen(env, o, s, exits) ==> SameRun(env, o, f, p.f, n, p.ren, s, exits))
    && (forall env: Env, s: State, exits: seq<nat>, e: nat, ys: seq<nat> {:trigger BlindAfter(env, o, f, o, n, p, actions, s, exits, e, ys)} ::
          WrongTurn(env, o, s, exits, e) ==> BlindAfter(env, o, f, o, n, p, actions, s, exits, e, ys))
  }

  /** The choices for the instructions of `o`, moved behind the checks that its blocks have got in `f`. */
  function Shifted(o: Func, f: Func, actions: map<BlockId, seq<Action>>): map<BlockId, seq<Action>> {
    map b | b in actions && b in o.blocks && b in f.blocks && |actions[b]| == |o.blocks[b].body| ::
      seq(if |f.blocks[b].body| > |actions[b]| then |f.blocks[b].body| - |actions[b]| else 0, _ => Keep) + actions[b]
  }

  /** Instruction `k` of a block of `o` is instruction `k` behind the checks in `f`. */
  lemma BehindChecks(o: Func, f: Func, own: map<BlockId, Edge>, actions: map<BlockId, seq<Action>>, b: BlockId, k: nat)
    requires Instruments(CanonFunc(o), f, own) && Chosen(o, actions, b) && k < |o.blocks[b].body|
    ensures b in f.blocks && |f.blocks[b].body| >= |o.blocks[b].body|
    ensures var j := |f.blocks[b].body| - |o.blocks[b].body| + k;
            && Chosen(f, Shifted(o, f, actions), b) && j < |f.blocks[b].body|
            && f.blocks[b].body[j] == o.blocks[b].body[k] && Shifted(o, f, actions)[b][j] == actions[b][k]
  {
    assert OldBlockOk(CanonFunc(o), f, own, b);
  }

  lemma ShiftedChoice(o: Func, f: Func, own: map<BlockId, Edge>, actions: map<BlockId, seq<Action>>, p: Progress, b: BlockId, k: nat)
    requires Instruments(CanonFunc(o), f, own) && ChoicesMade(f, p, Shifted(o, f, actions))
    ensures ChoiceCarried(o, p, actions, b, k)
  {
    if Chosen(o, actions, b) && b in p.f.blocks && k < |o.blocks[b].body| {
      BehindChecks(o, f, own, actions, b, k);
      var j := |f.blocks[b].body| - |o.blocks[b].body| + k;
      assert ChoiceCarried(f, p, Shifted(o, f, actions), b, j);
      var lo: nat, hi: nat :| ChoiceMade(f, p, Shifted(o, f, actions), b, j, lo, hi);
      assert ChoiceMade(o, p, actions, b, k, lo, hi);
    }
  }

  lemma ShiftedBlind(env: Env, o: Func, f: Func, own: map<BlockId, Edge>, actions: map<BlockId, seq<Action>>, p: Progress, b: BlockId, s: State)
    requires Instruments(CanonFunc(o), f, own) && BlockBlind(env, f, p, Shifted(o, f, actions), b, s)
    ensures BlockBlind(env, o, p, actions, b, s)
  {
    forall k: nat ensures InstrBlind(env, o, p, actions, b, k, s) {
      if Chosen(o, actions, b) && b in p.f.blocks && k < |o.blocks[b].body| {
        BehindChecks(o, f, own, actions, b, k);
        var j := |f.blocks[b].body| - |o.blocks[b].body| + k;
        assert InstrBlind(env, f, p, Shifted(o, f, actions), b, j, s);
        var lo: nat, hi: nat :| ChoiceBlind(env, f, p, Shifted(o, f, actions), b, j, lo, hi, s);
        assert ChoiceBlind(env, o, p, actions, b, k, lo, hi, s);
      }
    }
  }

  lemma {:induction false} CanonExpand(o: Func, f: Func, b: BlockId, exits: seq<nat>)
    ensures Expand(CanonFunc(o), f, b, exits) == Expand(o, f, b, exits)
    decreases |exits|
  {
    if exits != [] && b in o.blocks && b in f.blocks && Target(o, b, exits[0]).Some? {
      CanonFlow(o);
      CanonExpand(o, f, Target(o, b, exits[0]).value, exits[1..]);
    } else {
      CanonFlow(o);
    }
  }

  lemma RunsKept(o: Func, f: Func, own: map<BlockId, Edge>, n: nat, actions: map<BlockId, seq<Action>>, p: Progress,
                 env: Env, s: State, exits: seq<nat>)
    requires Hardened(CanonFunc(o), f, own, n, actions, p) && Unseen(env, o, s, exits)
    ensures SameRun(env, o, f, p.f, n, p.ren, s, exits)
  {
    CanonUnseen(env, o, s, exits);
    CanonExpand(o, f, o.layout[0], exits);
    assert PassInv(env, f, n, p);
    MeaningPreserved(env, CanonFunc(o), f, own, p.f, n, p.ren, s, exits);
  }

  lemma TurnsBlind(o: Func, f: Func, own: map<BlockId, Edge>, n: nat, actions: map<BlockId, seq<Action>>, p: Progress,
                   env: Env, s: State, exits: seq<nat>, e: nat, ys: seq<nat>)
    requires Hardened(CanonFunc(o), f, own, n, Shifted(o, f, actions), p) && WrongTurn(env, o, s, exits, e)
    ensures BlindAfter(env, o, f, o, n, p, actions, s, exits, e, ys)
  {
    CanonTurn(env, o, s, exits, e);
    CanonExpand(o, f, o.layout[0], exits);
    WrongTurnBlinds(env, CanonFunc(o), f, own, n, Shifted(o, f, actions), p, s, exits, e, ys);
    var c := Config(o.layout[0], Entry(s, n, p.ren));
    var r := Run(env, p.f, c, Expand(o, f, c.at, exits) + [e] + ys);
    if r.Some? { ShiftedBlind(env, o, f, own, actions, p, r.value.at, r.value.st); }
  }

  lemma Guarantees(o: Func, f: Func, own: map<BlockId, Edge>, n: nat, actions: map<BlockId, seq<Action>>, p: Progress)
    requires Hardened(CanonFunc(o), f, own, n, Shifted(o, f, actions), p)
    ensures Guaranteed(o, f, n, actions, p)
  {
    forall b: BlockId, k: nat ensures ChoiceCarried(o, p, actions, b, k) { ShiftedChoice(o, f, own, actions, p, b, k); }
    forall b: BlockId | b in o.blocks ensures b in p.f.blocks { assert OldBlockOk(CanonFunc(o), f, own, b); }
    forall env: Env, s: State, exits: seq<nat> | Unseen(env, o, s, exits)
      ensures SameRun(env, o, f, p.f, n, p.ren, s, exits)
    {
      RunsKept(o, f, own, n, Shifted(o, f, actions), p, env, s, exits);
    }
    forall env: Env, s: State, exits: seq<nat>, e: nat, ys: seq<nat> | WrongTurn(env, o, s, exits, e)
      ensures BlindAfter(env, o, f, o, n, p, actions, s, exits, e, ys)
    {
      TurnsBlind(o, f, own, n, actions, p, env, s, exits, e, ys);
    }
  }

  /** The pass: canonicalize the PHIs, instrument the edges, then harden the loads as chosen.  `actions` holds
      the choices for the blocks of `o`, one for every instruction. */
  method HardenSpeculativeLoads(o: Func, bound: BlockId, n: nat, actions: map<BlockId, seq<Action>>, shrx: bool)
    returns (p: Progress, ghost f: Func, ghost own: map<BlockId, Edge>)
    requires Input(o, n) && IdsBelow(o, bound)
    ensures Instruments(CanonFunc(o), f, own) && PassOk(f, n, p)
    ensures Guaranteed(o, f, n, actions, p)
  {
    CanonAcceptable(o, n);
    CanonReady(o, n);
    forall b ensures b in o.layout <==> b in o.blocks {}
    var c := CanonicalizePhiOperands(o);
    var g, next;
    g, next, own := TraceFunction(c, bound);
    f := g;
    InstrumentedLive(c, g, own);
    InstrumentedSsa(c, g, own, n);
    assert forall b :: b in g.layout <==> b in g.blocks;
    p := HardenFunction(g, n, Shifted(o, g, actions), shrx);
    Guarantees(o, f, own, n, actions, p);
  }
}
