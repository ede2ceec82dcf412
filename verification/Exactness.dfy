/**
 What the instrumented function does on every path, rightly or wrongly predicted: it visits the
 original blocks, computes the original registers, memory and flags, and poisons its predicate
 state exactly when a traversed edge was not the one the flags asked for.
 */
module Exactness {
  import opened Options
  import opened Machine
  import opened CondInfo
  import opened CheckCodes
  import opened Instrumented
  import opened TraceCfg

  // ----- paths -----

  function PathTo(f: Func, b: BlockId, exits: seq<nat>): Option<BlockId>
    decreases |exits|
  {
    if b !in f.blocks then None
    else if exits == [] then Some(b)
    else
      var x := Target(f, b, exits[0]);
      if x.None? then None else PathTo(f, x.value, exits[1..])
  }

  /** The exits of the instrumented function along an original path: one more per inserted block. */
  function Expand(o: Func, f: Func, b: BlockId, exits: seq<nat>): seq<nat>
    decreases |exits|
  {
    if exits == [] || b !in o.blocks || b !in f.blocks then []
    else
      var t := Target(o, b, exits[0]);
      if t.None? then []
      else
        (if Target(f, b, exits[0]) == t then [exits[0]] else [exits[0], 0])
        + Expand(o, f, t.value, exits[1..])
  }

  /** Forget the exits taken at inserted blocks. */
  function Erase(o: Func, f: Func, b: BlockId, exits: seq<nat>): seq<nat>
    decreases |exits|
  {
    if exits == [] || b !in f.blocks then []
    else
      var x := Target(f, b, exits[0]);
      if x.None? then []
      else (if b in o.blocks then [exits[0]] else []) + Erase(o, f, x.value, exits[1..])
  }

  lemma EdgeFacts(o: Func, f: Func, own: map<BlockId, Edge>, b: BlockId, e: nat)
    requires Acceptable(o) && Inv(o, f, own) && b in o.blocks
    ensures b in f.blocks && EdgeOk(o, f, own, b, e) && PhiOk(o, f, b, e) && OldBlockOk(o, f, own, b)
    ensures Target(o, b, e).Some? ==> Target(o, b, e).value in o.blocks
    ensures Target(f, b, e).Some? ==> Target(f, b, e).value in f.blocks
  {
    assert OldBlockOk(o, f, own, b) && ClosedAt(o, b) && ClosedAt(f, b);
  }

  lemma PathStep(o: Func, f: Func, b: BlockId, e: nat, x: BlockId, rest: seq<nat>)
    requires b in f.blocks && Target(f, b, e) == Some(x)
    ensures PathTo(f, b, [e] + rest) == PathTo(f, x, rest)
    ensures Erase(o, f, b, [e] + rest) == if b in o.blocks then [e] + Erase(o, f, x, rest) else Erase(o, f, x, rest)
  {
    assert ([e] + rest)[1..] == rest;
  }

  /** A path through an inserted block, and what is left of it when the block is forgotten. */
  lemma PathInserted(o: Func, f: Func, b: BlockId, e: nat, x: BlockId, t: BlockId, rest: seq<nat>)
    requires b in f.blocks && b in o.blocks && Target(f, b, e) == Some(x)
    requires x in f.blocks && x !in o.blocks && Target(f, x, 0) == Some(t)
    ensures PathTo(f, b, [e, 0] + rest) == PathTo(f, t, rest)
    ensures Erase(o, f, b, [e, 0] + rest) == [e] + Erase(o, f, t, rest)
  {
    assert [e, 0] + rest == [e] + ([0] + rest);
    PathStep(o, f, b, e, x, [0] + rest);
    PathStep(o, f, x, 0, t, rest);
  }

  lemma {:induction false} ExpandPath(o: Func, f: Func, own: map<BlockId, Edge>, b: BlockId, exits: seq<nat>)
    requires Acceptable(o) && Inv(o, f, own) && b in o.blocks && PathTo(o, b, exits).Some?
    ensures PathTo(f, b, Expand(o, f, b, exits)) == PathTo(o, b, exits)
    ensures Erase(o, f, b, Expand(o, f, b, exits)) == exits
    decreases |exits|
  {
    EdgeFacts(o, f, own, b, if exits == [] then 0 else exits[0]);
    if exits != [] {
      var t := Target(o, b, exits[0]).value;
      ExpandPath(o, f, own, t, exits[1..]);
      var rest := Expand(o, f, t, exits[1..]);
      var xs := Expand(o, f, b, exits);
      if Target(f, b, exits[0]) == Some(t) {
        assert xs[1..] == rest;
      } else {
        PathInserted(o, f, b, exits[0], Target(f, b, exits[0]).value, t, rest);
      }
    }
  }

  lemma InsertedLeaves(o: Func, f: Func, own: map<BlockId, Edge>, x: BlockId, exits: seq<nat>)
    requires Inv(o, f, own) && x in f.blocks && x !in o.blocks
    requires PathTo(f, x, exits).Some? && PathTo(f, x, exits).value in o.blocks
    ensures exits != [] && exits[0] == 0
  {
    assert NewBlockOk(o, f, own, x);
  }

  /** A path through an inserted block goes on to the original target. */
  lemma EraseInserted(o: Func, f: Func, own: map<BlockId, Edge>, b: BlockId, exits: seq<nat>, x: BlockId, t: BlockId)
    requires Inv(o, f, own) && exits != [] && b in f.blocks && Target(f, b, exits[0]) == Some(x)
    requires x in f.blocks && x !in o.blocks && Target(f, x, 0) == Some(t) && t in f.blocks
    requires PathTo(f, b, exits).Some? && PathTo(f, b, exits).value in o.blocks
    ensures |exits| > 1 && exits == [exits[0], 0] + exits[1..][1..]
    ensures PathTo(f, t, exits[1..][1..]) == PathTo(f, b, exits)
    ensures Erase(o, f, x, exits[1..]) == Erase(o, f, t, exits[1..][1..])
  {
    assert exits == [exits[0]] + exits[1..];
    PathStep(o, f, b, exits[0], x, exits[1..]);
    InsertedLeaves(o, f, own, x, exits[1..]);
    assert exits[1..] == [0] + exits[1..][1..];
    PathStep(o, f, x, 0, t, exits[1..][1..]);
  }

  /** A path of the instrumented function between original blocks is the expansion of exactly one
      original path: with `ExpandPath`, erasing inserted blocks is a bijection. */
  lemma {:induction false} ErasePath(o: Func, f: Func, own: map<BlockId, Edge>, b: BlockId, exits: seq<nat>)
    requires Acceptable(o) && Inv(o, f, own) && b in o.blocks
    requires PathTo(f, b, exits).Some? && PathTo(f, b, exits).value in o.blocks
    ensures PathTo(o, b, Erase(o, f, b, exits)) == PathTo(f, b, exits)
    ensures Expand(o, f, b, Erase(o, f, b, exits)) == exits
    decreases |exits|
  {
    EdgeFacts(o, f, own, b, if exits == [] then 0 else exits[0]);
    if exits != [] {
      var x := Target(f, b, exits[0]).value;
      var er := Erase(o, f, b, exits);
      if Target(o, b, exits[0]) == Some(x) {
        ErasePath(o, f, own, x, exits[1..]);
        assert er[1..] == Erase(o, f, x, exits[1..]);
      } else {
        var t := Target(o, b, exits[0]).value;
        assert OldBlockOk(o, f, own, t);
        EraseInserted(o, f, own, b, exits, x, t);
        ErasePath(o, f, own, t, exits[1..][1..]);
        assert er[1..] == Erase(o, f, t, exits[1..][1..]);
      }
    }
  }

  // ----- one block -----

  /** Bodies as the program wrote them: nothing of the pass's own. */
  ghost predicate Plain(body: seq<Instr>) { forall i :: 0 <= i < |body| ==> body[i].Op? }

  ghost predicate PlainFunc(o: Func) { forall b :: b in o.blocks ==> Plain(o.blocks[b].body) }

  lemma InputsIgnoreState(env: Env, i: Instr, s: State, p: Word)
    requires i.Op?
    ensures Inputs(env, i, s.(ps := p)) == Inputs(env, i, s)
    ensures i.mem.Some? ==> EffAddr(env, s.(ps := p), i.mem.value) == EffAddr(env, s, i.mem.value)
  {
    assert Vals(s.(ps := p), i.srcs) == Vals(s, i.srcs);
  }

  lemma OpIgnoresState(env: Env, i: Instr, s: State, p: Word)
    requires i.Op?
    ensures Step(env, i, s.(ps := p)) == Step(env, i, s).(ps := p)
    ensures Step(env, i, s).ps == s.ps
  {
    InputsIgnoreState(env, i, s, p);
  }

  lemma {:induction false} PlainIgnoresState(env: Env, body: seq<Instr>, s: State, p: Word)
    requires Plain(body)
    ensures Exec(env, body, s.(ps := p)) == Exec(env, body, s).(ps := p)
    ensures Exec(env, body, s).ps == s.ps
    decreases |body|
  {
    if body != [] {
      OpIgnoresState(env, body[0], s, p);
      PlainIgnoresState(env, body[1..], Step(env, body[0], s), p);
    }
  }

  lemma {:induction false} PhiRegsSame(ps: seq<Phi>, qs: seq<Phi>, p: BlockId, q: BlockId, s: State)
    requires |ps| == |qs|
    requires forall j :: 0 <= j < |ps| ==>
               ps[j].dst == qs[j].dst && Lookup(ps[j].entries, p) == Lookup(qs[j].entries, q)
    ensures PhiRegs(ps, p, s) == PhiRegs(qs, q, s)
    decreases |ps|
  {
    if ps != [] { PhiRegsSame(ps[..|ps| - 1], qs[..|qs| - 1], p, q, s); }
  }

  lemma {:induction false} PhiRegsIgnoreState(ps: seq<Phi>, p: BlockId, s: State, w: Word)
    ensures PhiRegs(ps, p, s.(ps := w)) == PhiRegs(ps, p, s)
    decreases |ps|
  {
    if ps != [] { PhiRegsIgnoreState(ps[..|ps| - 1], p, s, w); }
  }

  /** The codes checked at the start of `b`. */
  function CodesAt(o: Func, own: map<BlockId, Edge>, b: BlockId): seq<CondCode> {
    if b in own && own[b].0 in o.blocks then Codes(o, own[b]) else []
  }

  lemma ExecOld(env: Env, o: Func, f: Func, own: map<BlockId, Edge>, b: BlockId, s: State, p: Word)
    requires b in o.blocks && OldBlockOk(o, f, own, b) && Plain(o.blocks[b].body)
    ensures Exec(env, f.blocks[b].body, s.(ps := p))
            == Exec(env, o.blocks[b].body, s).(ps := After(CodesAt(o, own, b), s.flags, p))
  {
    var kill := !o.blocks[b].flagsLiveIn;
    var checks := Checks(o, own, b, kill);
    ExecConcat(env, checks, o.blocks[b].body, s.(ps := p));
    ExecChecks(env, CodesAt(o, own, b), checks, s.(ps := p));
    PlainIgnoresState(env, o.blocks[b].body, s, After(CodesAt(o, own, b), s.flags, p));
  }

  /** Entering the target through the checking block or directly assigns the same registers. */
  lemma EnterSame(o: Func, f: Func, own: map<BlockId, Edge>, b: BlockId, e: nat, s: State, p: Word)
    requires Acceptable(o) && Inv(o, f, own) && b in o.blocks && Target(o, b, e).Some?
    ensures b in f.blocks && Target(o, b, e).value in o.blocks && Target(o, b, e).value in f.blocks
    ensures var t := Target(o, b, e).value;
            Enter(f, t, Via(o, f, b, e), s.(ps := p)) == Enter(o, t, b, s).(ps := p)
  {
    EdgeFacts(o, f, own, b, e);
    var t := Target(o, b, e).value;
    assert OldBlockOk(o, f, own, t);
    PhiRegsSame(f.blocks[t].phis, o.blocks[t].phis, Via(o, f, b, e), b, s);
    PhiRegsIgnoreState(f.blocks[t].phis, Via(o, f, b, e), s, p);
  }

  // ----- one edge -----

  /** The predicate state the pass promises after leaving `c` by exit `e`. */
  function SpecStep(env: Env, o: Func, c: Config, ps: Word, e: nat): Word
    requires c.at in o.blocks
  {
    var b := o.blocks[c.at];
    if Traced(b) && Violated(b.terms, e, Exec(env, b.body, c.st).flags) then POISON else ps
  }

  /** An edge of a traced block is checked, and no other edge is. */
  lemma EdgeChecked(o: Func, f: Func, own: map<BlockId, Edge>, b: BlockId, e: nat)
    requires Instruments(o, f, own) && b in o.blocks && Target(o, b, e).Some?
    ensures b in f.blocks && Target(f, b, e).Some?
    ensures var x := Target(f, b, e).value;
            && CodesAt(o, own, x) == (if Traced(o.blocks[b]) then Codes(o, (b, e)) else [])
            && (Some(x) != Target(o, b, e) ==> Traced(o.blocks[b]))
  {
    EdgeFacts(o, f, own, b, e);
    var x := Target(f, b, e).value;
    if x in own { assert OwnOk(o, f, own, x); }
    if Traced(o.blocks[b]) {
      assert Treated(own, b, e);
      var c :| c in own && own[c] == (b, e);
      assert OwnOk(o, f, own, c);
    }
  }

  /** An edge that was split: the inserted block runs its checks and enters the target. */
  lemma ThroughInserted(env: Env, o: Func, f: Func, own: map<BlockId, Edge>, b: BlockId, e: nat, s: State, s1: State, q: Word)
    requires Acceptable(o) && Inv(o, f, own) && b in o.blocks && b in f.blocks && Target(o, b, e).Some?
    requires Target(f, b, e).Some? && Target(f, b, e) != Target(o, b, e)
    requires Exec(env, f.blocks[b].body, s) == s1.(ps := q)
    ensures Target(o, b, e).value in f.blocks
    ensures var t := Target(o, b, e).value;
            Run(env, f, Config(b, s), [e, 0])
            == Some(Config(t, Enter(f, t, Via(o, f, b, e), s1.(ps := After(Codes(o, (b, e)), s1.flags, q)))))
  {
    EdgeFacts(o, f, own, b, e);
    var x, t := Target(f, b, e).value, Target(o, b, e).value;
    assert NewBlockOk(o, f, own, x) && OldBlockOk(o, f, own, t);
    var m := Config(x, s1.(ps := q));
    assert Move(env, f, Config(b, s), e) == Some(m);
    ExecChecks(env, Codes(o, (b, e)), f.blocks[x].body, m.st);
    assert [e, 0][1..] == [0] && [0][1..] == [];
    assert Run(env, f, Config(b, s), [e, 0]) == Run(env, f, m, [0]) == Move(env, f, m, 0);
  }

  /** One edge of the original function: the instrumented one arrives at the same block with the
      same state, and once the checks waiting there have run its predicate state is as promised. */
  lemma EdgeExact(env: Env, o: Func, f: Func, own: map<BlockId, Edge>, c: Config, p: Word, e: nat)
    requires Instruments(o, f, own) && PlainFunc(o) && c.at in o.blocks
    requires Move(env, o, c, e).Some?
    ensures c.at in f.blocks
    ensures var d := Move(env, o, c, e).value;
            var xs := if Target(f, c.at, e) == Target(o, c.at, e) then [e] else [e, 0];
            var r := Run(env, f, Config(c.at, c.st.(ps := p)), xs);
            && r.Some? && r.value.at == d.at && d.at in o.blocks
            && r.value.st == d.st.(ps := r.value.st.ps)
            && After(CodesAt(o, own, d.at), d.st.flags, r.value.st.ps)
               == SpecStep(env, o, c, After(CodesAt(o, own, c.at), c.st.flags, p), e)
  {
    var b := c.at;
    EdgeFacts(o, f, own, b, e);
    EdgeChecked(o, f, own, b, e);
    ExecOld(env, o, f, own, b, c.st, p);
    var s1 := Exec(env, o.blocks[b].body, c.st);
    var q := After(CodesAt(o, own, b), c.st.flags, p);
    EdgeChecksExact(o.blocks[b].terms, e, s1.flags, q);
    var c' := Config(b, c.st.(ps := p));
    if Target(f, b, e) == Target(o, b, e) {
      EnterSame(o, f, own, b, e, s1, q);
      assert [e][1..] == [];
      assert Run(env, f, c', [e]) == Move(env, f, c', e);
    } else {
      ThroughInserted(env, o, f, own, b, e, c'.st, s1, q);
      EnterSame(o, f, own, b, e, s1, After(Codes(o, (b, e)), s1.flags, q));
    }
  }

  // ----- whole runs -----

  /** The predicate state the pass promises at the end of a run of the original function. */
  function SpecState(env: Env, o: Func, c: Config, ps: Word, exits: seq<nat>): Word
    decreases |exits|
  {
    if exits == [] || c.at !in o.blocks || Move(env, o, c, exits[0]).None? then ps
    else SpecState(env, o, Move(env, o, c, exits[0]).value, SpecStep(env, o, c, ps, exits[0]), exits[1..])
  }

  lemma {:induction false} RunExact(env: Env, o: Func, f: Func, own: map<BlockId, Edge>, c: Config, p: Word, exits: seq<nat>)
    requires Instruments(o, f, own) && PlainFunc(o) && c.at in o.blocks
    requires Run(env, o, c, exits).Some?
    ensures var d := Run(env, o, c, exits).value;
            var r := Run(env, f, Config(c.at, c.st.(ps := p)), Expand(o, f, c.at, exits));
            && r.Some? && r.value.at == d.at && d.at in o.blocks
            && r.value.st == d.st.(ps := r.value.st.ps)
            && After(CodesAt(o, own, d.at), d.st.flags, r.value.st.ps)
               == SpecState(env, o, c, After(CodesAt(o, own, c.at), c.st.flags, p), exits)
    decreases |exits|
  {
    if exits != [] {
      var e := exits[0];
      EdgeExact(env, o, f, own, c, p, e);
      var d := Move(env, o, c, e).value;
      var xs := if Target(f, c.at, e) == Target(o, c.at, e) then [e] else [e, 0];
      var c' := Config(c.at, c.st.(ps := p));
      var r := Run(env, f, c', xs).value;
      assert r == Config(d.at, d.st.(ps := r.st.ps));
      RunExact(env, o, f, own, d, r.st.ps, exits[1..]);
      RunConcat(env, f, c', xs, Expand(o, f, d.at, exits[1..]));
    }
  }

  /** The predicate state once the CMOVs at the start of a block have run. */
  function Settled(env: Env, body: seq<Instr>, s: State): Word
    decreases |body|
  {
    if body == [] || !body[0].CMovPoison? then s.ps else Settled(env, body[1..], Step(env, body[0], s))
  }

  lemma {:induction false} SettledIs(env: Env, codes: seq<CondCode>, checks: seq<Instr>, rest: seq<Instr>, s: State)
    requires |checks| == |codes|
    requires forall i :: 0 <= i < |codes| ==> checks[i].CMovPoison? && checks[i].cc == codes[i]
    requires Plain(rest)
    ensures Settled(env, checks + rest, s) == After(codes, s.flags, s.ps)
    decreases |codes|
  {
    if codes == [] {
      assert checks + rest == rest;
    } else {
      assert (checks + rest)[1..] == checks[1..] + rest;
      SettledIs(env, codes[1..], checks[1..], rest, Step(env, checks[0], s));
      assert codes == [codes[0]] + codes[1..];
      assert forall c :: c in codes <==> c == codes[0] || c in codes[1..];
    }
  }

  lemma OwnedHasPred(o: Func, f: Func, own: map<BlockId, Edge>, c: BlockId)
    requires Acceptable(o) && Inv(o, f, own) && c in own && c in o.blocks
    ensures own[c].0 in Preds(o, c)
  {
    assert OwnOk(o, f, own, c);
    EdgeFacts(o, f, own, own[c].0, own[c].1);
    assert ClosedAt(o, own[c].0);
  }

  lemma EntryUnchecked(o: Func, f: Func, own: map<BlockId, Edge>)
    requires Acceptable(o) && Inv(o, f, own)
    ensures o.layout[0] in o.blocks && o.layout[0] !in own
  {
    assert o.layout[0] in o.layout;
    if o.layout[0] in own { OwnedHasPred(o, f, own, o.layout[0]); }
  }

  /** State exactness on every path from the entry: the instrumented function visits the same
      original blocks with the same registers, memory and flags, and its predicate state is the
      promised one. */
  lemma StateExact(env: Env, o: Func, f: Func, own: map<BlockId, Edge>, s: State, exits: seq<nat>)
    requires Instruments(o, f, own) && PlainFunc(o)
    requires Run(env, o, Config(o.layout[0], s), exits).Some?
    ensures var c := Config(o.layout[0], s);
            var d := Run(env, o, c, exits).value;
            var r := Run(env, f, c, Expand(o, f, c.at, exits));
            && r.Some? && r.value.at == d.at && d.at in f.blocks
            && r.value.st == d.st.(ps := r.value.st.ps)
            && Settled(env, f.blocks[d.at].body, r.value.st) == SpecState(env, o, c, s.ps, exits)
  {
    var c := Config(o.layout[0], s);
    EntryUnchecked(o, f, own);
    assert s == s.(ps := s.ps);
    RunExact(env, o, f, own, c, s.ps, exits);
    var r := Run(env, f, c, Expand(o, f, c.at, exits)).value;
    assert OldBlockOk(o, f, own, r.at);
    SettledIs(env, CodesAt(o, own, r.at), Checks(o, own, r.at, !o.blocks[r.at].flagsLiveIn),
              o.blocks[r.at].body, r.st);
  }

  // ----- what is promised -----

  /** Step `i` of the run leaves a traced block by an exit whose check fails. */
  predicate ViolatedAt(env: Env, o: Func, c: Config, exits: seq<nat>, i: nat)
    requires i < |exits|
  {
    var d := Run(env, o, c, exits[..i]);
    && d.Some? && d.value.at in o.blocks && Traced(o.blocks[d.value.at])
    && Violated(o.blocks[d.value.at].terms, exits[i], Exec(env, o.blocks[d.value.at].body, d.value.st).flags)
  }

  /** The promised state is all-ones iff it started so or some traversed edge was violated; else it
      is the state the run started with. */
  lemma {:induction false} SpecStateIff(env: Env, o: Func, c: Config, ps: Word, exits: seq<nat>)
    requires Run(env, o, c, exits).Some? && c.at in o.blocks
    ensures SpecState(env, o, c, ps, exits)
            == if exists i :: 0 <= i < |exits| && ViolatedAt(env, o, c, exits, i) then POISON else ps
    decreases |exits|
  {
    if exits != [] {
      var e := exits[0];
      var d := Move(env, o, c, e).value;
      SpecStateIff(env, o, d, SpecStep(env, o, c, ps, e), exits[1..]);
      assert exits[..0] == [];
      assert ViolatedAt(env, o, c, exits, 0) <==> SpecStepViolated(env, o, c, e);
      forall i | 0 <= i < |exits| - 1
        ensures ViolatedAt(env, o, c, exits, i + 1) <==> ViolatedAt(env, o, d, exits[1..], i)
      {
        assert exits[..i + 1][1..] == exits[1..][..i];
      }
      if i :| 0 <= i < |exits| - 1 && ViolatedAt(env, o, d, exits[1..], i) {
        assert ViolatedAt(env, o, c, exits, i + 1);
      }
      if i :| 0 <= i < |exits| && ViolatedAt(env, o, c, exits, i) {
        assert i > 0 ==> ViolatedAt(env, o, d, exits[1..], i - 1);
      }
    }
  }

  predicate SpecStepViolated(env: Env, o: Func, c: Config, e: nat)
    requires c.at in o.blocks
  {
    var b := o.blocks[c.at];
    Traced(b) && Violated(b.terms, e, Exec(env, b.body, c.st).flags)
  }

  /** Every exit is the one the flags ask for. */
  predicate Predicted(env: Env, o: Func, c: Config, exits: seq<nat>)
    decreases |exits|
  {
    exits != [] && c.at in o.blocks ==>
      && exits[0] == Actual(o.blocks[c.at].terms, Exec(env, o.blocks[c.at].body, c.st).flags)
      && (Move(env, o, c, exits[0]).Some? ==> Predicted(env, o, Move(env, o, c, exits[0]).value, exits[1..]))
  }

  /** A correctly predicted run keeps the state it started with. */
  lemma {:induction false} PredictedUnpoisoned(env: Env, o: Func, c: Config, ps: Word, exits: seq<nat>)
    requires Predicted(env, o, c, exits)
    ensures SpecState(env, o, c, ps, exits) == ps
    decreases |exits|
  {
    if exits != [] && c.at in o.blocks && Move(env, o, c, exits[0]).Some? {
      ActualNotViolated(o.blocks[c.at].terms, Exec(env, o.blocks[c.at].body, c.st).flags);
      PredictedUnpoisoned(env, o, Move(env, o, c, exits[0]).value, ps, exits[1..]);
    }
  }

  // ----- where the pass looks -----

  /** Flags under which a condition is true, or false. */
  function FlagsWhere(c: CondCode, want: bool): (f: Flags)
    ensures Holds(c, f) == want
  {
    var v := want == (c % 2 == 0);
    match c / 2
    case 0 => NO_FLAGS.(of := v)
    case 1 => NO_FLAGS.(cf := v)
    case 2 => NO_FLAGS.(zf := v)
    case 3 => NO_FLAGS.(cf := v)
    case 4 => NO_FLAGS.(sf := v)
    case 5 => NO_FLAGS.(pf := v)
    case 6 => NO_FLAGS.(sf := v)
    case _ => NO_FLAGS.(zf := v)
  }

  /** What follows the CMOVs at the start of a block. */
  function Rest(body: seq<Instr>): seq<Instr>
    decreases |body|
  {
    if body == [] || !body[0].CMovPoison? then body else Rest(body[1..])
  }

  /** The settled state after `b` is left by exit `e`: the rest of `b` runs from `s`, and then the
      checks of whatever block the exit leads to. */
  function StateAcross(env: Env, f: Func, b: BlockId, s: State, e: nat): Word
    requires b in f.blocks && Target(f, b, e).Some? && Target(f, b, e).value in f.blocks
  {
    var x := Target(f, b, e).value;
    Settled(env, f.blocks[x].body, Enter(f, x, b, Exec(env, Rest(f.blocks[b].body), s)))
  }

  lemma {:induction false} RestIs(checks: seq<Instr>, rest: seq<Instr>)
    requires forall i :: 0 <= i < |checks| ==> checks[i].CMovPoison?
    requires Plain(rest)
    ensures Rest(checks + rest) == rest
    decreases |checks|
  {
    if checks == [] {
      assert checks + rest == rest;
    } else {
      assert (checks + rest)[1..] == checks[1..] + rest;
      RestIs(checks[1..], rest);
    }
  }

  /** Settling any block of the rewritten function runs exactly the checks it holds. */
  lemma SettledChecks(env: Env, o: Func, f: Func, own: map<BlockId, Edge>, x: BlockId, t: State)
    requires Inv(o, f, own) && PlainFunc(o) && x in f.blocks
    ensures Settled(env, f.blocks[x].body, t) == After(CodesAt(o, own, x), t.flags, t.ps)
  {
    if x in o.blocks {
      assert OldBlockOk(o, f, own, x);
      SettledIs(env, CodesAt(o, own, x), Checks(o, own, x, !o.blocks[x].flagsLiveIn), o.blocks[x].body, t);
    } else {
      assert NewBlockOk(o, f, own, x);
      assert f.blocks[x].body + [] == f.blocks[x].body;
      SettledIs(env, CodesAt(o, own, x), f.blocks[x].body, [], t);
    }
  }

  /** After its checks, an original block does what it did. */
  lemma ExecRest(env: Env, o: Func, f: Func, own: map<BlockId, Edge>, b: BlockId, s: State)
    requires b in o.blocks && OldBlockOk(o, f, own, b) && Plain(o.blocks[b].body)
    ensures Exec(env, Rest(f.blocks[b].body), s) == Exec(env, o.blocks[b].body, s)
    ensures Exec(env, o.blocks[b].body, s).ps == s.ps
  {
    RestIs(Checks(o, own, b, !o.blocks[b].flagsLiveIn), o.blocks[b].body);
    PlainIgnoresState(env, o.blocks[b].body, s, s.ps);
  }

  /** Across one edge of the rewritten function: poison iff the block is traced and the exit violated,
      else the state before. */
  lemma AcrossExact(env: Env, o: Func, f: Func, own: map<BlockId, Edge>, b: BlockId, s: State, e: nat)
    requires Instruments(o, f, own) && PlainFunc(o) && b in o.blocks && Target(o, b, e).Some?
    ensures b in f.blocks && Target(f, b, e).Some? && Target(f, b, e).value in f.blocks
    ensures var ob := o.blocks[b];
            StateAcross(env, f, b, s, e)
            == if Traced(ob) && Violated(ob.terms, e, Exec(env, ob.body, s).flags) then POISON else s.ps
  {
    EdgeFacts(o, f, own, b, e);
    EdgeChecked(o, f, own, b, e);
    ExecRest(env, o, f, own, b, s);
    var s1, x := Exec(env, o.blocks[b].body, s), Target(f, b, e).value;
    SettledChecks(env, o, f, own, x, Enter(f, x, b, s1));
    EdgeChecksExact(o.blocks[b].terms, e, s1.flags, s.ps);
  }

  /** Arithmetic that always leaves the flags `fl`, and a state that has them already. */
  function FlagEnv(fl: Flags): Env {
    Env((_, _, _) => 0, (_, _, _) => 0, (_, _, _) => fl, _ => 0, (_, _, _, _) => 0)
  }

  function FlagState(fl: Flags): State { State(map[], map[], map[], fl, 0) }

  lemma {:induction false} FlagsForced(fl: Flags, body: seq<Instr>, s: State)
    requires Plain(body) && s.flags == fl
    ensures Exec(FlagEnv(fl), body, s).flags == fl
    decreases |body|
  {
    if body != [] { FlagsForced(fl, body[1..], Step(FlagEnv(fl), body[0], s)); }
  }

  /** A wrong exit: its check would fail. */
  predicate Wrong(env: Env, o: Func, b: BlockId, s: State, e: nat)
    requires b in o.blocks
  {
    Target(o, b, e).Some? && Violated(o.blocks[b].terms, e, Exec(env, o.blocks[b].body, s).flags)
  }

  /** Not the exit the processor takes. */
  predicate Mispredicted(env: Env, o: Func, b: BlockId, s: State, e: nat)
    requires b in o.blocks
  {
    Target(o, b, e).Some? && e != Actual(o.blocks[b].terms, Exec(env, o.blocks[b].body, s).flags)
  }

  predicate Poisons(env: Env, f: Func, b: BlockId, s: State, e: nat) {
    && b in f.blocks && Target(f, b, e).Some? && Target(f, b, e).value in f.blocks
    && StateAcross(env, f, b, s, e) == POISON
  }

  /** Every wrong exit of a block poisons the state of the rewritten function iff the block has more
      than one successor and no terminator but branches, or no conditional branch to get wrong. */
  lemma AllViolationsCheckedIff(o: Func, f: Func, own: map<BlockId, Edge>, b: BlockId)
    requires Instruments(o, f, own) && PlainFunc(o) && b in o.blocks
    ensures (forall env, s, e :: Wrong(env, o, b, s, e) ==> Poisons(env, f, b, s, e))
            <==> var ob := o.blocks[b];
                 (|ob.succs| > 1 && Other !in ob.terms) || NConds(ob.terms) == 0
  {
    var ob := o.blocks[b];
    forall env, s, e | Wrong(env, o, b, s, e)
      ensures Traced(ob) ==> Poisons(env, f, b, s, e)
    {
      AcrossExact(env, o, f, own, b, s, e);
    }
    if !Traced(ob) && NConds(ob.terms) > 0 {
      var fl := FlagsWhere(ob.terms[0].cc, false);
      var env, s := FlagEnv(fl), FlagState(fl);
      FlagsForced(fl, ob.body, s);
      AcrossExact(env, o, f, own, b, s, 0);
      assert Wrong(env, o, b, s, 0) && !Poisons(env, f, b, s, 0);
    }
  }

  /** Both conditions can hold at once. */
  ghost predicate Compatible(c: CondCode, d: CondCode) { exists fl :: Holds(c, fl) && Holds(d, fl) }

  /** No two conditional branches of a block can both want to be taken. */
  ghost predicate Exclusive(ts: seq<Term>) {
    forall i, j :: 0 <= i < j < NConds(ts) ==> !Compatible(ts[i].cc, ts[j].cc)
  }

  /** A branch is checked by its own condition only, so that a run which takes a later branch where
      an earlier one should have been taken stays unpoisoned when both conditions hold. */
  lemma UnseenIff(ts: seq<Term>, e: nat, fl: Flags)
    requires e <= NConds(ts)
    ensures e != Actual(ts, fl) && !Violated(ts, e, fl)
            <==> e < NConds(ts) && Holds(ts[e].cc, fl) && exists i :: 0 <= i < e && Holds(ts[i].cc, fl)
  {
    var a := Actual(ts, fl);
    if a < e { assert Holds(ts[a].cc, fl); }
  }

  lemma ExclusiveUnseen(ts: seq<Term>, e: nat, fl: Flags)
    requires Exclusive(ts) && e <= NConds(ts) && e != Actual(ts, fl)
    ensures Violated(ts, e, fl)
  {
    UnseenIff(ts, e, fl);
  }

  /** JNE followed by JP, as after a floating-point comparison: with both conditions true, taking the
      second branch is a misprediction that no check sees. */
  lemma SecondBranchUnseen(x: BlockId, y: BlockId, fl: Flags)
    requires !fl.zf && fl.pf
    ensures var ts := [Jcc(5, x), Jcc(10, y)];
            NConds(ts) == 2 && Actual(ts, fl) == 0 && !Violated(ts, 1, fl) && !Exclusive(ts)
  {
    var ts := [Jcc(5, x), Jcc(10, y)];
    assert ts[1..] == [Jcc(10, y)] && ts[1..][1..] == [];
    assert NConds(ts[1..]) == 1 && NConds(ts) == 2;
    assert Holds(ts[0].cc, fl) && Holds(ts[1].cc, fl);
    assert Compatible(ts[0].cc, ts[1].cc);
  }

  /** Every mispredicted exit of a block poisons the state of the rewritten function iff moreover no
      two of its branch conditions can hold at once. */
  lemma AllMispredictionsCheckedIff(o: Func, f: Func, own: map<BlockId, Edge>, b: BlockId)
    requires Instruments(o, f, own) && PlainFunc(o) && b in o.blocks
    ensures (forall env, s, e :: Mispredicted(env, o, b, s, e) ==> Poisons(env, f, b, s, e))
            <==> var ob := o.blocks[b];
                 (|ob.succs| > 1 && Other !in ob.terms && Exclusive(ob.terms)) || NConds(ob.terms) == 0
  {
    var ob := o.blocks[b];
    var k := NConds(ob.terms);
    forall env, s, e | Mispredicted(env, o, b, s, e)
      ensures e <= k && (Traced(ob) && Exclusive(ob.terms) ==> Poisons(env, f, b, s, e))
    {
      AcrossExact(env, o, f, own, b, s, e);
      if Exclusive(ob.terms) { ExclusiveUnseen(ob.terms, e, Exec(env, ob.body, s).flags); }
    }
    if !Traced(ob) && k > 0 {
      Unchecked(o, f, own, b, 0, FlagsWhere(ob.terms[0].cc, false));
    } else if !Exclusive(ob.terms) {
      var i, j :| 0 <= i < j < k && Compatible(ob.terms[i].cc, ob.terms[j].cc);
      var fl :| Holds(ob.terms[i].cc, fl) && Holds(ob.terms[j].cc, fl);
      UnseenIff(ob.terms, j, fl);
      Unchecked(o, f, own, b, j, fl);
    }
  }

  /** An exit that is not the one asked for, and that no check catches. */
  lemma Unchecked(o: Func, f: Func, own: map<BlockId, Edge>, b: BlockId, e: nat, fl: Flags)
    requires Instruments(o, f, own) && PlainFunc(o) && b in o.blocks && e < NConds(o.blocks[b].terms)
    requires e != Actual(o.blocks[b].terms, fl)
    requires !(Traced(o.blocks[b]) && Violated(o.blocks[b].terms, e, fl))
    ensures Mispredicted(FlagEnv(fl), o, b, FlagState(fl), e)
    ensures !Poisons(FlagEnv(fl), f, b, FlagState(fl), e)
  {
    FlagsForced(fl, o.blocks[b].body, FlagState(fl));
    AcrossExact(FlagEnv(fl), o, f, own, b, FlagState(fl), e);
  }

  /** Block 0 branches to block 1 if equal and else leaves by a terminator that is no branch but has
      block 2 as a successor. */
  const HIDING: Func :=
    Func([0, 1, 2], map[0 := Block([], [], [Jcc(4, 1), Other], {1, 2}, false),
                        1 := Block([], [], [Other], {}, false),
                        2 := Block([], [], [Other], {}, false)])

  lemma HidingTerms()
    ensures NConds([Jcc(4, 1), Other]) == 1 && NConds([Other]) == 0
    ensures [Jcc(4, 1), Other][1] == Other
  {
    var ts: seq<Term> := [Jcc(4, 1), Other];
    assert ts[1..] == [Other];
    assert NConds(ts) == 1 + NConds(ts[1..]);
  }

  lemma HidingUntraced()
    ensures Acceptable(HIDING) && PlainFunc(HIDING) && |HIDING.blocks[0].succs| == 2
    ensures forall b :: b in HIDING.blocks ==> !Traced(HIDING.blocks[b])
  {
    HidingTerms();
    assert forall b {:trigger ClosedAt(HIDING, b)} :: b in HIDING.blocks ==> ClosedAt(HIDING, b);
    assert Preds(HIDING, 0) == {};
  }

  /** However it is instrumented, and it can be, its wrong exit to block 1 leaves the state as it was. */
  lemma ReturnHidesBranch(env: Env, f: Func, own: map<BlockId, Edge>, s: State)
    requires Instruments(HIDING, f, own) && !s.flags.zf
    ensures Mispredicted(env, HIDING, 0, s, 0) && Wrong(env, HIDING, 0, s, 0)
    ensures 0 in f.blocks && Target(f, 0, 0) == Some(1) && 1 in f.blocks
    ensures StateAcross(env, f, 0, s, 0) == s.ps
  {
    HidingTerms();
    HidingUntraced();
    EdgeChecked(HIDING, f, own, 0, 0);
    AcrossExact(env, HIDING, f, own, 0, s, 0);
  }

  lemma HidingInstrumented()
    ensures Instruments(HIDING, HIDING, map[])
  {
    HidingUntraced();
    InvInit(HIDING);
  }
}
