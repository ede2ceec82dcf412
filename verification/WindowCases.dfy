/**
 Two small modules on which the walk does something else than its description: one where the
 pruning of a second entry loses an instruction, and one where a stack left over from a walk
 from a call leads the walk from a branch target astray.
 */
module WindowCases {
  import opened Options
  import opened Window
  import opened WindowWalk
  import opened WindowExact
  import opened WindowPass

  // ----- a second call of the same function -----

  /**
   Function 0 branches to its blocks 1 and 2.  Both call function 1, which ends in an invoke of
   the declaration 2; behind the second call lies one more instruction.
   */
  function TwoCalls(): Module {
    Module([Defined([Block([], Conditional([1, 2])), Block([Call(Direct(1))], Other(None)), Block([Call(Direct(1)), Plain], Other(None))]),
            Defined([Block([], Invoke(Direct(2), 1, 2)), Block([], Other(None)), Block([], Other(None))]),
            Declared(false)],
           _ => false,
           map[1 := {Loc(0, 1, 0), Loc(0, 2, 0)}])
  }

  function BehindSecond(): Loc { Loc(0, 2, 1) }

  /** The three configurations from a call of function 1 in block `b` to the split at its invoke. */
  function ToSplit(b: nat): seq<Config> {
    [Config(Loc(0, b, 0), 0, []), Config(Loc(1, 0, 0), 1, [Loc(0, b, 0)]), Config(Loc(1, 0, 1), 2, [Loc(0, b, 0)])]
  }

  function SplitKeys(): set<Key> { {(Loc(1, 1, 0), 3), (Loc(1, 2, 0), 2)} }

  lemma TwoCallsOk()
    ensures WellFormed(TwoCalls())
  {
    var m := TwoCalls();
    forall f: nat, b: nat | InBlock(m, f, b) ensures BlockOk(m, m.funcs[f], m.funcs[f].blocks[b]) {
      assert f < 2 && b < 3;
      if f == 0 {
        if b == 0 { assert m.funcs[f].blocks[b] == Block([], Conditional([1, 2])); }
        else if b == 1 { assert m.funcs[f].blocks[b] == Block([Call(Direct(1))], Other(None)); }
        else { assert m.funcs[f].blocks[b] == Block([Call(Direct(1)), Plain], Other(None)); }
      } else if b == 0 { assert m.funcs[f].blocks[b] == Block([], Invoke(Direct(2), 1, 2)); }
      else { assert m.funcs[f].blocks[b] == Block([], Other(None)); }
    }
  }

  /** A trace of three, from its two moves. */
  lemma StraightThree(m: Module, window: int, a: Config, b: Config, c: Config)
    requires WellFormed(m) && a.step < window && b.step < window && Place(m, a.loc) && StackOk(m, a.stack)
    requires Place(m, b.loc) && StackOk(m, b.stack) && Place(m, c.loc) && StackOk(m, c.stack)
    requires Move(m, a).Moved? && Move(m, a).config == b && Move(m, b).Moved? && Move(m, b).config == c
    ensures Straight(m, window, [a, b, c])
  {
  }

  lemma EntersSecond(b: nat)
    requires b == 1 || b == 2
    ensures WellFormed(TwoCalls()) && Site(TwoCalls(), Loc(0, b, 0))
    ensures Place(TwoCalls(), ToSplit(b)[0].loc) && StackOk(TwoCalls(), ToSplit(b)[0].stack)
    ensures Move(TwoCalls(), ToSplit(b)[0]) == Moved(ToSplit(b)[1], false)
  {
    TwoCallsOk();
    var m := TwoCalls();
    assert m.funcs[0].blocks[1].insts[0] == Call(Direct(1)) && m.funcs[0].blocks[2].insts[0] == Call(Direct(1));
  }

  lemma ReachesInvoke(b: nat)
    requires b == 1 || b == 2
    ensures WellFormed(TwoCalls())
    ensures forall i: nat | i == 1 || i == 2 :: Place(TwoCalls(), ToSplit(b)[i].loc) && StackOk(TwoCalls(), ToSplit(b)[i].stack)
    ensures Move(TwoCalls(), ToSplit(b)[1]) == Moved(ToSplit(b)[2], true)
    ensures Move(TwoCalls(), ToSplit(b)[2]) == ForkAt(Config(Loc(1, 1, 0), 3, [Loc(0, b, 0)]), Config(Loc(1, 2, 0), 2, [Loc(0, b, 0)]))
  {
    EntersSecond(b);
    assert TwoCalls().funcs[1].blocks[0] == Block([], Invoke(Direct(2), 1, 2));
  }

  /** The moves up to the split, and the split. */
  lemma ToSplitMoves(b: nat)
    requires b == 1 || b == 2
    ensures Straight(TwoCalls(), 10, ToSplit(b))
    ensures Move(TwoCalls(), ToSplit(b)[2]) == ForkAt(Config(Loc(1, 1, 0), 3, [Loc(0, b, 0)]), Config(Loc(1, 2, 0), 2, [Loc(0, b, 0)]))
  {
    EntersSecond(b);
    ReachesInvoke(b);
    StraightThree(TwoCalls(), 10, ToSplit(b)[0], ToSplit(b)[1], ToSplit(b)[2]);
  }

  /** Entering the first call enters both destinations of the invoke. */
  lemma FirstCallSplits(w: Fields, b: nat)
    requires (b == 1 || b == 2) && Carried(TwoCalls(), 10, w, ToSplit(b)[0])
    ensures SplitKeys() <= w.visited
  {
    ToSplitMoves(b);
    CarriedTrace(TwoCalls(), 10, w, ToSplit(b));
  }

  /** Once they have been entered, a walk from the other call ends at the split. */
  lemma OtherCallEnds(avoid: set<Key>, b: nat, path: seq<Config>, c: Config)
    requires (b == 1 || b == 2) && SplitKeys() <= avoid && Walk(TwoCalls(), 10, ToSplit(b)[0], c, path) && Avoids(TwoCalls(), avoid, path)
    ensures c in ToSplit(b)
  {
    var m := TwoCalls();
    ToSplitMoves(b);
    PathFollowsTrace(m, 10, ToSplit(b), path, if |path| <= 3 then |path| - 1 else 2);
    if |path| > 3 {
      assert Next(m, 10, path[2], path[2 + 1]);
      assert EntryAt(m, path, 3);
    }
  }

  /** A walk from the first call never sees block 2. */
  predicate OffSecond(c: Config) {
    (c.loc.func == 1 && c.stack == [Loc(0, 1, 0)]) || (c.loc.func == 0 && c.loc.block == 1 && c.stack == [])
  }

  lemma OffSecondNext(c: Config, d: Config)
    requires OffSecond(c) && Next(TwoCalls(), 10, c, d)
    ensures OffSecond(d)
  {
    TwoCallsOk();
    var m := TwoCalls();
    assert m.funcs[0].blocks[1] == Block([Call(Direct(1))], Other(None));
    if c.loc.func == 1 {
      assert BlockAt(m, c.loc).insts == [];
      assert m.funcs[1].blocks[0] == Block([], Invoke(Direct(2), 1, 2)) && m.funcs[1].blocks[1] == Block([], Other(None)) && m.funcs[1].blocks[2] == Block([], Other(None));
    }
  }

  lemma FirstMissesSecond()
    ensures !WithinWindow(TwoCalls(), 10, ToSplit(1)[0], BehindSecond())
  {
    forall c: Config | Reachable(TwoCalls(), 10, ToSplit(1)[0], c) ensures c.loc != BehindSecond() {
      forall c: Config, d: Config | OffSecond(c) && Next(TwoCalls(), 10, c, d) ensures OffSecond(d) { OffSecondNext(c, d); }
      ReachKeeps(TwoCalls(), 10, OffSecond, ToSplit(1)[0], c);
    }
  }

  /** From the unwind destination of the second call back to what lies behind it. */
  function Unwinding(): seq<Config> {
    var site := Loc(0, 2, 0);
    [Config(Loc(1, 2, 0), 2, [site]), Config(Loc(1, 2, 1), 3, [site]), Config(BehindSecond(), 3, [])]
  }

  lemma UnwindingMoves()
    ensures Straight(TwoCalls(), 10, Unwinding())
  {
    TwoCallsOk();
    var m := TwoCalls();
    assert m.funcs[0].blocks[2] == Block([Call(Direct(1)), Plain], Other(None));
    assert m.funcs[1].blocks[2] == Block([], Other(None));
    StraightThree(m, 10, Unwinding()[0], Unwinding()[1], Unwinding()[2]);
  }

  /** A walk that is not pruned does meet the instruction behind the second call. */
  lemma SecondMeets()
    ensures Sees(TwoCalls(), 10, ToSplit(2)[0], BehindSecond())
  {
    var m := TwoCalls();
    ToSplitMoves(2);
    var site := Loc(0, 2, 0);
    assert m.funcs[0].blocks[2] == Block([Call(Direct(1)), Plain], Other(None));
    var unwind := Unwinding();
    UnwindingMoves();
    ReachSelf(m, 10, ToSplit(2)[0]);
    TraceReaches(m, 10, ToSplit(2)[0], ToSplit(2), 2);
    ForkNext(m, 10, ToSplit(2)[2]);
    ReachNext(m, 10, ToSplit(2)[0], ToSplit(2)[2], unwind[0]);
    TraceReaches(m, 10, ToSplit(2)[0], unwind, 2);
  }

  lemma {:induction false} TraceReaches(m: Module, window: int, start: Config, trace: seq<Config>, i: nat)
    requires Straight(m, window, trace) && Reachable(m, window, start, trace[0]) && i < |trace|
    ensures Reachable(m, window, start, trace[i])
  {
    if i > 0 {
      TraceReaches(m, window, start, trace, i - 1);
      assert Move(m, trace[i - 1]).config == trace[i - 1 + 1];
      MovedNext(m, window, trace[i - 1]);
      ReachNext(m, window, start, trace[i - 1], trace[i]);
    }
  }

  /**
   Walking from block 1 and then from block 2, each with an empty stack: the instruction behind the
   second call is within the window of block 2, and stays in the set.
   */
  method SecondCallMissed() returns (oow: set<Loc>)
    ensures BehindSecond() in oow && Sees(TwoCalls(), 10, Config(Loc(0, 2, 0), 0, []), BehindSecond())
  {
    var m := TwoCalls();
    TwoCallsOk();
    var v := Fields({}, {BehindSecond()}, []);
    var w := WalkFrom(m, 10, v, Loc(0, 1, 0), {});
    FirstCallSplits(w, 1);
    FirstKeeps(v, w);
    ghost var starts := {Config(Loc(0, 1, 0), 0, v.stack)};
    assert {} + starts == starts;
    AnyStack(m, 10, starts, w, []);
    var x := WalkFrom(m, 10, w.(stack := []), Loc(0, 2, 0), starts);
    SecondKeeps(w.(stack := []), x);
    SecondMeets();
    oow := x.oow;
  }

  lemma FirstKeeps(v: Fields, w: Fields)
    requires BehindSecond() in v.oow && Justified(TwoCalls(), 10, v.visited, ToSplit(1)[0], v.oow, w.oow)
    ensures BehindSecond() in w.oow
  {
    FirstMissesSecond();
  }

  lemma SecondKeeps(v: Fields, w: Fields)
    requires BehindSecond() in v.oow && SplitKeys() <= v.visited && Justified(TwoCalls(), 10, v.visited, ToSplit(2)[0], v.oow, w.oow)
    ensures BehindSecond() in w.oow
  {
    if BehindSecond() !in w.oow {
      var c: Config :| ReachableAvoiding(TwoCalls(), 10, v.visited, ToSplit(2)[0], c) && c.loc == BehindSecond() && c.step < 10;
      var path: seq<Config> :| Walk(TwoCalls(), 10, ToSplit(2)[0], c, path) && Avoids(TwoCalls(), v.visited, path);
      OtherCallEnds(v.visited, 2, path, c);
    }
  }

  // ----- a stack left over -----

  /**
   Function 0 makes an indirect call, calls function 1, and branches to two blocks that return.
   With a window of two steps the walk from the indirect call is cut off inside function 1.
   */
  function CutOff(): Module {
    Module([Defined([Block([Call(Indirect), Call(Direct(1)), Plain], Conditional([1, 2])), Block([], Other(None)), Block([], Other(None))]),
            Defined([Block([], Other(None))])],
           _ => false,
           map[1 := {Loc(0, 0, 1)}])
  }

  function BehindCall(): Loc { Loc(0, 0, 2) }

  lemma CutOffOk()
    ensures WellFormed(CutOff())
  {
    var m := CutOff();
    forall f: nat, b: nat | InBlock(m, f, b) ensures BlockOk(m, m.funcs[f], m.funcs[f].blocks[b]) {
      assert f < 2 && b < 3;
      if f == 0 && b == 0 { assert m.funcs[f].blocks[b] == Block([Call(Indirect), Call(Direct(1)), Plain], Conditional([1, 2])); }
      else { assert m.funcs[f].blocks[b] == Block([], Other(None)); }
    }
  }

  function FromCall(): seq<Config> {
    [Config(Loc(0, 0, 0), 0, []), Config(Loc(0, 0, 1), 1, []), Config(Loc(1, 0, 0), 2, [Loc(0, 0, 1)])]
  }

  function FromTarget(): seq<Config> {
    [Config(Loc(0, 1, 0), 0, [Loc(0, 0, 1)]), Config(Loc(0, 1, 1), 1, [Loc(0, 0, 1)]), Config(BehindCall(), 1, []), Config(Loc(0, 0, 3), 2, [])]
  }

  lemma CallMoves()
    ensures WellFormed(CutOff()) && Straight(CutOff(), 2, FromCall()) && Site(CutOff(), Loc(0, 0, 1))
  {
    CutOffOk();
    var m := CutOff();
    assert m.funcs[0].blocks[0] == Block([Call(Indirect), Call(Direct(1)), Plain], Conditional([1, 2]));
    assert m.funcs[1].blocks[0] == Block([], Other(None));
    StraightThree(m, 2, FromCall()[0], FromCall()[1], FromCall()[2]);
  }

  lemma TargetMoves()
    ensures WellFormed(CutOff())
    ensures Straight(CutOff(), 2, FromTarget()) && Move(CutOff(), FromTarget()[2]).counts
  {
    CallMoves();
    var m := CutOff();
    assert m.funcs[0].blocks[0] == Block([Call(Indirect), Call(Direct(1)), Plain], Conditional([1, 2]));
    assert m.funcs[0].blocks[1] == Block([], Other(None));
    StraightThree(m, 2, FromTarget()[0], FromTarget()[1], FromTarget()[2]);
    StraightThree(m, 2, FromTarget()[1], FromTarget()[2], FromTarget()[3]);
  }

  /** The walk from the call goes nowhere but along its trace. */
  lemma PathFromCall(path: seq<Config>, c: Config)
    requires Walk(CutOff(), 2, FromCall()[0], c, path)
    ensures c in FromCall() && (|path| > 1 ==> c.step > 0)
  {
    CallMoves();
    PathFollowsTrace(CutOff(), 2, FromCall(), path, if |path| <= 3 then |path| - 1 else 2);
    assert |path| <= 3 || Next(CutOff(), 2, path[2], path[2 + 1]);
  }

  /** Only the start of the walk from the call is at step 0. */
  lemma OnlyStart(c: Config)
    requires EntryFrom(CutOff(), 2, {FromCall()[0]}, c)
    ensures c == FromCall()[0] || c.step > 0
  {
    if c != FromCall()[0] {
      var e: Config :| Reachable(CutOff(), 2, FromCall()[0], e) && Next(CutOff(), 2, e, c);
      var path: seq<Config> :| Walk(CutOff(), 2, FromCall()[0], e, path);
      WalkOn(CutOff(), 2, FromCall()[0], e, path, c);
      PathFromCall(path + [c], c);
    }
  }

  lemma TargetNotEntered(w: Fields)
    requires AllDone(CutOff(), 2, {FromCall()[0]}, w)
    ensures (Loc(0, 1, 0), 0) !in w.visited
  {
    var k: Key := (Loc(0, 1, 0), 0);
    assert k in w.visited ==> KeyDone(CutOff(), 2, {FromCall()[0]}, w, k);
    forall run: seq<Config> | RunDone(CutOff(), 2, w, run) && EntryFrom(CutOff(), 2, {FromCall()[0]}, run[0]) ensures KeyOf(run[0]) != k {
      OnlyStart(run[0]);
    }
  }

  /** With an empty stack the walk from the target stays in its block. */
  predicate InTarget(c: Config) { c.loc.func == 0 && c.loc.block == 1 && c.stack == [] }

  lemma InTargetNext(c: Config, d: Config)
    requires InTarget(c) && Next(CutOff(), 2, c, d)
    ensures InTarget(d)
  {
    assert CutOff().funcs[0].blocks[1] == Block([], Other(None));
  }

  lemma NotFromTarget()
    ensures !WithinWindow(CutOff(), 2, Config(Loc(0, 1, 0), 0, []), BehindCall())
  {
    forall c: Config | Reachable(CutOff(), 2, Config(Loc(0, 1, 0), 0, []), c) ensures c.loc != BehindCall() {
      forall c: Config, d: Config | InTarget(c) && Next(CutOff(), 2, c, d) ensures InTarget(d) { InTargetNext(c, d); }
      ReachKeeps(CutOff(), 2, InTarget, Config(Loc(0, 1, 0), 0, []), c);
    }
  }

  lemma NotFromCall()
    ensures !WithinWindow(CutOff(), 2, FromCall()[0], BehindCall())
  {
    forall c: Config | Reachable(CutOff(), 2, FromCall()[0], c) ensures c.loc != BehindCall() {
      var path: seq<Config> :| Walk(CutOff(), 2, FromCall()[0], c, path);
      PathFromCall(path, c);
    }
  }

  lemma CallLeaves(w: Fields)
    requires Carried(CutOff(), 2, w, FromCall()[0])
    ensures w.stack == [Loc(0, 0, 1)]
  {
    CallMoves();
    CarriedTrace(CutOff(), 2, w, FromCall());
  }

  lemma TargetTakes(x: Fields)
    requires Carried(CutOff(), 2, x, FromTarget()[0])
    ensures BehindCall() !in x.oow
  {
    TargetMoves();
    CarriedTrace(CutOff(), 2, x, FromTarget());
    assert FromTarget()[2].loc == BehindCall();
  }

  lemma CallIsRoot()
    ensures CallRoot(CutOff(), Loc(0, 0, 0))
  {
    assert CutOff().funcs[0].blocks[0] == Block([Call(Indirect), Call(Direct(1)), Plain], Conditional([1, 2]));
  }

  /**
   The walk from the indirect call and then the one from the first target, which finds the stack
   of the first: it takes out an instruction that is within the window of neither root.
   */
  method LeftoverMisleads() returns (stack: seq<Loc>, oow: set<Loc>)
    ensures CallRoot(CutOff(), Loc(0, 0, 0)) && stack == [Loc(0, 0, 1)] && BehindCall() !in oow
    ensures !WithinWindow(CutOff(), 2, Config(Loc(0, 0, 0), 0, []), BehindCall())
    ensures !WithinWindow(CutOff(), 2, Config(Loc(0, 1, 0), 0, []), BehindCall())
  {
    var m := CutOff();
    CutOffOk();
    CallIsRoot();
    var v := Fields({}, {BehindCall()}, []);
    var w := WalkFrom(m, 2, v, Loc(0, 0, 0), {});
    ghost var starts := {Config(Loc(0, 0, 0), 0, v.stack)};
    assert {} + starts == starts && starts == {FromCall()[0]};
    CallLeaves(w);
    TargetNotEntered(w);
    var x := WalkFrom(m, 2, w, Loc(0, 1, 0), starts);
    TargetTakes(x);
    NotFromTarget();
    NotFromCall();
    stack, oow := w.stack, x.oow;
  }
}
