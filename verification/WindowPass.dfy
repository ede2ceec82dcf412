/**
 The analysis of a function: walks from its recursive and indirect calls, then from the targets
 of its conditional branches and switches.  The call stack is cleared after a target, but not
 after a call.
 */
module WindowPass {
  import opened Window
  import opened WindowWalk
  import opened WindowExact

  /** A call that is walked from: of a recursive function, or an indirect one. */
  predicate CallRoot(m: Module, l: Loc) {
    && AtInst(m, l) && CallAt(m, l).Some?
    && (CallAt(m, l).value.Indirect? || m.recursive(CallAt(m, l).value.func))
  }

  /** The successors of a block that are walked from. */
  function BranchTargets(b: Block): seq<nat> {
    match b.term
    case Conditional(succs) => succs
    case Switch(cases) => cases
    case _ => []
  }

  function BlockTargets(m: Module, f: nat, b: nat): (r: seq<Loc>)
    requires InBlock(m, f, b)
  {
    var bs := BranchTargets(m.funcs[f].blocks[b]);
    seq(|bs|, i requires 0 <= i < |bs| => Loc(f, bs[i], 0))
  }

  /** The targets in the first `n` blocks of `f`, in order. */
  function Targets(m: Module, f: nat, n: nat): seq<Loc>
    requires f < |m.funcs| && m.funcs[f].Defined? && n <= |m.funcs[f].blocks|
  {
    if n == 0 then [] else Targets(m, f, n - 1) + BlockTargets(m, f, n - 1)
  }

  /** What was taken out is within the window of one of these starts. */
  ghost predicate Accounted(m: Module, window: int, starts: set<Config>, before: set<Loc>, after: set<Loc>) {
    after <= before && forall l: Loc | l in before && l !in after :: exists s: Config :: s in starts && WithinWindow(m, window, s, l)
  }

  lemma AccountedTrans(m: Module, window: int, starts: set<Config>, more: set<Config>, a: set<Loc>, b: set<Loc>, c: set<Loc>)
    requires Accounted(m, window, starts, a, b) && Accounted(m, window, more, b, c)
    ensures Accounted(m, window, starts + more, a, c)
  {
    forall l: Loc | l in a && l !in c ensures exists s: Config :: s in starts + more && WithinWindow(m, window, s, l) {
      if l !in b {
        var s: Config :| s in starts && WithinWindow(m, window, s, l);
        assert s in starts + more;
      } else {
        var s: Config :| s in more && WithinWindow(m, window, s, l);
        assert s in starts + more;
      }
    }
  }

  lemma JustifiedAccounted(m: Module, window: int, avoid: set<Key>, start: Config, before: set<Loc>, after: set<Loc>)
    requires Justified(m, window, avoid, start, before, after)
    ensures Accounted(m, window, {start}, before, after)
  {
    forall l: Loc | l in before && l !in after ensures WithinWindow(m, window, start, l) {
      var c: Config :| ReachableAvoiding(m, window, avoid, start, c) && c.loc == l && c.step < window;
      AvoidingReaches(m, window, avoid, start, c);
    }
    assert start in {start};
  }

  lemma EntryMore(m: Module, window: int, starts: set<Config>, more: set<Config>, c: Config)
    requires EntryFrom(m, window, starts, c) && starts <= more
    ensures EntryFrom(m, window, more, c)
  {
  }

  lemma DoneMore(m: Module, window: int, starts: set<Config>, more: set<Config>, w: Fields)
    requires AllDone(m, window, starts, w) && starts <= more
    ensures AllDone(m, window, more, w)
  {
    forall k: Key | k in w.visited ensures KeyDone(m, window, more, w, k) {
      var run: seq<Config> :| RunDone(m, window, w, run) && KeyOf(run[0]) == k && EntryFrom(m, window, starts, run[0]);
      EntryMore(m, window, starts, more, run[0]);
    }
  }

  lemma DoneLater(m: Module, window: int, starts: set<Config>, v: Fields, w: Fields)
    requires AllDone(m, window, starts, v) && NewDone(m, window, starts, v, w, {}) && v.visited <= w.visited && w.oow <= v.oow
    ensures AllDone(m, window, starts, w)
  {
    var none := Fields({}, {}, []);
    assert NewDone(m, window, starts, none, v, {});
    NewDoneTrans(m, window, starts, none, v, w, {});
  }

  lemma KeysAll(m: Module, window: int)
    ensures AllKeys(m, window, Keys(m, window))
  {
    forall l: Loc, s: nat ensures (l, s) in Keys(m, window) <==> AtInst(m, l) && s <= Steps(window) {
      var k: Key := (l, s);
    }
  }

  /** Keys are pairs of an instruction and a step of the window, of which there are finitely many. */
  ghost predicate Bounded(m: Module, window: int, visited: set<Key>) {
    forall k: Key | k in visited :: AtInst(m, k.0) && k.1 <= Steps(window)
  }

  /** What holds between walks: all keys are keys, and every entry was carried through. */
  ghost predicate Stage(m: Module, window: int, starts: set<Config>, v: Fields) {
    Bounded(m, window, v.visited) && StackOk(m, v.stack) && AllDone(m, window, starts, v)
  }

  /** From `v` to `w` by walks from the starts in `made`. */
  ghost predicate Advance(m: Module, window: int, made: set<Config>, v: Fields, w: Fields) {
    v.visited <= w.visited && Accounted(m, window, made, v.oow, w.oow)
  }

  lemma AdvanceTrans(m: Module, window: int, made: set<Config>, more: set<Config>, u: Fields, v: Fields, w: Fields)
    requires Advance(m, window, made, u, v) && Advance(m, window, more, v, w)
    ensures Advance(m, window, made + more, u, w)
  {
    AccountedTrans(m, window, made, more, u.oow, v.oow, w.oow);
  }

  /** From `v` to `w` by walks from `made`, after walks from `starts`. */
  ghost predicate Walked(m: Module, window: int, starts: set<Config>, made: set<Config>, v: Fields, w: Fields) {
    Stage(m, window, starts + made, w) && Advance(m, window, made, v, w)
  }

  lemma WalkedNone(m: Module, window: int, starts: set<Config>, v: Fields)
    requires Stage(m, window, starts, v)
    ensures Walked(m, window, starts, {}, v, v)
  {
    assert starts + {} == starts;
  }

  lemma WalkedMore(m: Module, window: int, starts: set<Config>, made: set<Config>, more: set<Config>, all: set<Config>, u: Fields, v: Fields, w: Fields)
    requires Walked(m, window, starts, made, u, v) && Walked(m, window, starts + made, more, v, w) && all == made + more
    ensures Walked(m, window, starts, all, u, w)
  {
    assert starts + made + more == starts + all;
    AdvanceTrans(m, window, made, more, u, v, w);
  }

  lemma WalkedClear(m: Module, window: int, starts: set<Config>, made: set<Config>, v: Fields, w: Fields)
    requires Walked(m, window, starts, made, v, w)
    ensures Walked(m, window, starts, made, v, w.(stack := []))
  {
    AnyStack(m, window, starts + made, w, []);
  }

  lemma AnyStack(m: Module, window: int, starts: set<Config>, v: Fields, stack: seq<Loc>)
    requires Stage(m, window, starts, v) && StackOk(m, stack)
    ensures Stage(m, window, starts, v.(stack := stack))
  {
    DoneLater(m, window, starts, v, v.(stack := stack));
  }

  /** One walk, from `at` with the stack as it is. */
  method WalkFrom(m: Module, window: int, v: Fields, at: Loc, ghost starts: set<Config>) returns (w: Fields)
    requires WellFormed(m) && Stage(m, window, starts, v) && AtInst(m, at)
    ensures Walked(m, window, starts, {Config(at, 0, v.stack)}, v, w)
    ensures (at, 0) in w.visited && StackSeen(m, window, Config(at, 0, v.stack), w.stack)
    ensures Justified(m, window, v.visited, Config(at, 0, v.stack), v.oow, w.oow)
    ensures (at, 0) in v.visited ==> w == v
    ensures (at, 0) !in v.visited ==> Carried(m, window, w, Config(at, 0, v.stack))
  {
    ghost var start := Config(at, 0, v.stack);
    ghost var g := Goal(start, v.visited, Keys(m, window), starts + {start});
    KeysAll(m, window);
    ReachSelf(m, window, start);
    if (at, 0) !in v.visited { AvoidSelf(m, window, v.visited, start); }
    var step;
    w, step := Explore(m, window, v, at, 0, g);
    DoneMore(m, window, starts, g.starts, v);
    DoneLater(m, window, g.starts, v, w);
    JustifiedAccounted(m, window, v.visited, start, v.oow, w.oow);
  }

  /** An entry of the walk at any step, from `v` with its stack as it is. */
  method EnterAt(m: Module, window: int, v: Fields, at: Loc, step0: nat, ghost starts: set<Config>) returns (w: Fields)
    requires WellFormed(m) && Stage(m, window, starts, v) && AtInst(m, at) && step0 <= Steps(window)
    ensures var c := Config(at, step0, v.stack);
      && Stage(m, window, starts + {c}, w) && (at, step0) in w.visited
      && Justified(m, window, v.visited, c, v.oow, w.oow)
    ensures (at, step0) in v.visited ==> w == v
  {
    ghost var c := Config(at, step0, v.stack);
    ghost var g := Goal(c, v.visited, Keys(m, window), starts + {c});
    KeysAll(m, window);
    ReachSelf(m, window, c);
    if (at, step0) !in v.visited { AvoidSelf(m, window, v.visited, c); }
    var step;
    w, step := Explore(m, window, v, at, step0, g);
    DoneMore(m, window, starts, g.starts, v);
    DoneLater(m, window, g.starts, v, w);
  }

  /** After a new entry, exactly what it sees has been taken out. */
  lemma EntryTakesOut(m: Module, window: int, starts: set<Config>, v: Fields, w: Fields, c: Config, l: Loc)
    requires WellFormed(m) && SameFutures(m, window, starts) && AllDone(m, window, starts, w)
    requires c in starts && Place(m, c.loc) && KeyOf(c) in w.visited && Justified(m, window, v.visited, c, v.oow, w.oow)
    requires l in v.oow && AtInst(m, l) && ActionAt(m, l) == Count
    ensures l !in w.oow <==> Sees(m, window, c, l)
  {
    if l !in w.oow {
      var e: Config :| ReachableAvoiding(m, window, v.visited, c, e) && e.loc == l && e.step < window;
      AvoidingReaches(m, window, v.visited, c, e);
    } else if Sees(m, window, c, l) {
      NothingMissed(m, window, starts, w, c, l);
    }
  }

  /**
   Two entries at one instruction and step, the second with another stack.  The second changes
   nothing; so where the first is complete, what is lost of the second is exactly what it sees
   and the first does not, and nothing is lost iff there is no such instruction.
   */
  method EnterTwice(m: Module, window: int, v: Fields, at: Loc, step0: nat, stack: seq<Loc>, ghost starts: set<Config>)
    returns (w: Fields, x: Fields)
    requires WellFormed(m) && Stage(m, window, starts, v) && AtInst(m, at) && step0 <= Steps(window) && StackOk(m, stack)
    ensures x == w.(stack := stack)
    ensures var c := Config(at, step0, v.stack);
      var d := Config(at, step0, stack);
      SameFutures(m, window, starts + {c}) ==>
        && (forall l: Loc | l in v.oow && Sees(m, window, d, l) :: l in x.oow <==> !Sees(m, window, c, l))
        && ((forall l: Loc | l in v.oow && Sees(m, window, d, l) :: l !in x.oow)
            <==> (forall l: Loc | l in v.oow && Sees(m, window, d, l) :: Sees(m, window, c, l)))
  {
    ghost var c := Config(at, step0, v.stack);
    w := EnterAt(m, window, v, at, step0, starts);
    x := w.(stack := stack);
    AnyStack(m, window, starts + {c}, w, stack);
    x := EnterAt(m, window, x, at, step0, starts + {c});
    if SameFutures(m, window, starts + {c}) {
      forall l: Loc | l in v.oow && Sees(m, window, Config(at, step0, stack), l)
        ensures l in x.oow <==> !Sees(m, window, c, l)
      {
        EntryTakesOut(m, window, starts + {c}, v, w, c, l);
      }
    }
  }

  /** No call leads the walk into a function. */
  ghost predicate NothingEntered(m: Module) { forall f: nat :: !Entered(m, f) }

  /** Where nothing is entered, walks from the empty stack leave it empty. */
  ghost predicate Flat(m: Module, v: Fields, made: set<Config>, w: Fields) {
    NothingEntered(m) && v.stack == [] ==> w.stack == [] && forall s: Config | s in made :: s.stack == []
  }

  lemma FlatWalk(m: Module, window: int, start: Config, stack: seq<Loc>)
    requires WellFormed(m) && NothingEntered(m) && start.stack == [] && StackSeen(m, window, start, stack)
    ensures stack == []
  {
    if stack != [] {
      var c: Config :| Reachable(m, window, start, c) && c.stack == stack;
      var path: seq<Config> :| Walk(m, window, start, c, path);
      WalkNested(m, window, path, |path| - 1);
    }
  }

  /** The walks from the recursive and indirect calls of one block, each on the stack the last one left. */
  method WalkBlockCalls(m: Module, window: int, v: Fields, f: nat, b: nat, ghost starts: set<Config>) returns (w: Fields, ghost made: set<Config>)
    requires WellFormed(m) && Stage(m, window, starts, v) && InBlock(m, f, b)
    ensures Walked(m, window, starts, made, v, w)
    ensures CallsWalked(m, f, b, Len(m.funcs[f].blocks[b]), made, w.visited)
    ensures (made == {} ==> w == v) && Flat(m, v, made, w)
  {
    w, made := v, {};
    WalkedNone(m, window, starts, v);
    for pos := 0 to Len(m.funcs[f].blocks[b])
      invariant Walked(m, window, starts, made, v, w)
      invariant CallsWalked(m, f, b, pos, made, w.visited)
      invariant (made == {} ==> w == v) && Flat(m, v, made, w)
    {
      var l := Loc(f, b, pos);
      if CallRoot(m, l) {
        ghost var was, s := w, Config(l, 0, w.stack);
        w := WalkFrom(m, window, w, l, starts + made);
        WalkedMore(m, window, starts, made, {s}, made + {s}, v, was, w);
        CallsStep(m, f, b, pos, made, was.visited, s, w.visited);
        if NothingEntered(m) && v.stack == [] { FlatWalk(m, window, s, w.stack); }
        made := made + {s};
      }
    }
  }

  /** The first loop over a function. */
  method WalkCalls(m: Module, window: int, v: Fields, f: nat, ghost starts: set<Config>) returns (w: Fields, ghost made: set<Config>)
    requires WellFormed(m) && Stage(m, window, starts, v) && f < |m.funcs| && m.funcs[f].Defined?
    ensures Walked(m, window, starts, made, v, w)
    ensures BlocksWalked(m, f, |m.funcs[f].blocks|, made, w.visited)
    ensures (made == {} ==> w == v) && Flat(m, v, made, w)
  {
    w, made := v, {};
    WalkedNone(m, window, starts, v);
    for b := 0 to |m.funcs[f].blocks|
      invariant Walked(m, window, starts, made, v, w)
      invariant BlocksWalked(m, f, b, made, w.visited)
      invariant (made == {} ==> w == v) && Flat(m, v, made, w)
    {
      ghost var was := w;
      ghost var more;
      w, more := WalkBlockCalls(m, window, w, f, b, starts + made);
      WalkedMore(m, window, starts, made, more, made + more, v, was, w);
      BlocksStep(m, f, b, made, was.visited, more, w.visited);
      made := made + more;
    }
  }

  /** Walked from these targets in order, the first on the stack of `v` and each with the stack cleared after it. */
  ghost predicate TargetsDone(m: Module, window: int, starts: set<Config>, ts: seq<Loc>, v: Fields, w: Fields) {
    && Walked(m, window, starts, TargetStarts(ts, v.stack), v, w)
    && TargetsWalked(ts, |ts|, w.visited) && w.stack == if ts == [] then v.stack else []
  }

  lemma NoTargets(m: Module, window: int, starts: set<Config>, v: Fields)
    requires Stage(m, window, starts, v)
    ensures TargetsDone(m, window, starts, [], v, v)
  {
    WalkedNone(m, window, starts, v);
    assert TargetStarts([], v.stack) == {};
  }

  lemma TargetsDoneMore(m: Module, window: int, starts: set<Config>, ts: seq<Loc>, more: seq<Loc>, all: seq<Loc>, u: Fields, v: Fields, w: Fields)
    requires TargetsDone(m, window, starts, ts, u, v) && TargetsDone(m, window, starts + TargetStarts(ts, u.stack), more, v, w)
    requires all == ts + more
    ensures TargetsDone(m, window, starts, all, u, w)
  {
    StartsConcat(ts, more, u.stack);
    WalkedMore(m, window, starts, TargetStarts(ts, u.stack), TargetStarts(more, v.stack), TargetStarts(all, u.stack), u, v, w);
    TargetsMore(ts, v.visited, more, w.visited);
  }

  lemma PrefixSnoc(ts: seq<Loc>, i: nat)
    requires i < |ts|
    ensures ts[..i + 1] == ts[..i] + [ts[i]]
  {
  }

  /** A walk from one target, followed by a clearing of the stack. */
  method WalkTarget(m: Module, window: int, v: Fields, t: Loc, ghost starts: set<Config>) returns (w: Fields)
    requires WellFormed(m) && Stage(m, window, starts, v) && AtInst(m, t)
    ensures TargetsDone(m, window, starts, [t], v, w)
  {
    w := WalkFrom(m, window, v, t, starts);
    WalkedClear(m, window, starts, {Config(t, 0, v.stack)}, v, w);
    OneStart(t, v.stack);
    w := w.(stack := []);
  }

  /** The second loop: a walk from every target in turn; only the first finds the stack that was left. */
  method WalkTargets(m: Module, window: int, v: Fields, ts: seq<Loc>, ghost starts: set<Config>) returns (w: Fields)
    requires WellFormed(m) && Stage(m, window, starts, v) && forall i: nat | i < |ts| :: AtInst(m, ts[i])
    ensures TargetsDone(m, window, starts, ts, v, w)
  {
    w := v;
    NoTargets(m, window, starts, v);
    for i := 0 to |ts|
      invariant TargetsDone(m, window, starts, ts[..i], v, w)
    {
      ghost var was := w;
      w := WalkTarget(m, window, w, ts[i], starts + TargetStarts(ts[..i], v.stack));
      PrefixSnoc(ts, i);
      TargetsDoneMore(m, window, starts, ts[..i], [ts[i]], ts[..i + 1], v, was, w);
    }
    assert ts[..|ts|] == ts;
  }

  /** The pass: its fields, and every walk started so far. */
  class OutOfWindow {
    const m: Module
    const window: int
    var visitedInstructions: set<Key>
    var oowInstructions: set<Loc>
    var callStack: seq<Loc>
    ghost var starts: set<Config>

    constructor (m: Module, window: int, oow: set<Loc>)
      requires WellFormed(m)
      ensures this.m == m && this.window == window && Value() == Fields({}, oow, []) && starts == {} && Valid()
    {
      this.m := m;
      this.window := window;
      oowInstructions := oow;
      visitedInstructions := {};
      callStack := [];
      starts := {};
    }

    ghost function Value(): Fields
      reads this
    {
      Fields(visitedInstructions, oowInstructions, callStack)
    }

    ghost predicate Valid()
      reads this
    {
      WellFormed(m) && Stage(m, window, starts, Value())
    }

    /**
     The analysis of one function.  Its roots, and nothing else, are walked from; what is taken out is within the
     window of one of the walks started here; and of the targets only the first starts on a stack
     other than the empty one, namely the one that the walks from the calls left.
     */
    method AnalyzeFunction(f: nat) returns (ghost made: set<Config>, ghost calls: set<Config>, ghost leftover: seq<Loc>)
      requires Valid() && f < |m.funcs|
      modifies this
      ensures Valid() && Analyzed(m, window, f, old(starts), starts, calls, leftover, old(Value()), Value())
      ensures starts == old(starts) + made && StartsAtRoots(m, f, made, visitedInstructions)
    {
      var w;
      var v := Fields(visitedInstructions, oowInstructions, callStack);
      w, calls, leftover := Analyze(m, window, v, f, starts);
      made := Made(m, f, calls, leftover);
      starts := starts + made;
      visitedInstructions, oowInstructions, callStack := w.visited, w.oow, w.stack;
    }
  }

  /** The walks started in the analysis of a function. */
  ghost function Made(m: Module, f: nat, calls: set<Config>, leftover: seq<Loc>): set<Config>
    requires f < |m.funcs|
  {
    if m.funcs[f].Declared? then {} else calls + TargetStarts(Targets(m, f, |m.funcs[f].blocks|), leftover)
  }

  /** What the analysis of `f` makes of `v`. */
  ghost predicate Analyzed(m: Module, window: int, f: nat, starts: set<Config>, starts': set<Config>, calls: set<Config>, leftover: seq<Loc>, v: Fields, w: Fields)
    requires f < |m.funcs|
  {
    && starts' == starts + Made(m, f, calls, leftover) && Advance(m, window, Made(m, f, calls, leftover), v, w)
    && (calls == {} ==> leftover == v.stack)
    && (NothingEntered(m) && v.stack == [] ==> leftover == [] && forall s: Config | s in calls :: s.stack == [])
    && if m.funcs[f].Declared? then w == v && calls == {}
       else
         var ts := Targets(m, f, |m.funcs[f].blocks|);
         && BlocksWalked(m, f, |m.funcs[f].blocks|, calls, w.visited) && TargetsWalked(ts, |ts|, w.visited)
         && w.stack == (if ts == [] then leftover else [])
  }

  method Analyze(m: Module, window: int, v: Fields, f: nat, ghost starts: set<Config>) returns (w: Fields, ghost calls: set<Config>, ghost leftover: seq<Loc>)
    requires WellFormed(m) && Stage(m, window, starts, v) && f < |m.funcs|
    ensures Stage(m, window, starts + Made(m, f, calls, leftover), w)
    ensures Analyzed(m, window, f, starts, starts + Made(m, f, calls, leftover), calls, leftover, v, w)
    ensures StartsAtRoots(m, f, Made(m, f, calls, leftover), w.visited)
  {
    calls, leftover := {}, v.stack;
    WalkedNone(m, window, starts, v);
    if m.funcs[f].Declared? { return v, calls, leftover; }
    var u;
    u, calls := WalkCalls(m, window, v, f, starts);
    leftover := u.stack;
    var ts := Targets(m, f, |m.funcs[f].blocks|);
    TargetsOk(m, f, |m.funcs[f].blocks|);
    w := WalkTargets(m, window, u, ts, starts + calls);
    WalkedMore(m, window, starts, calls, TargetStarts(ts, leftover), Made(m, f, calls, leftover), v, u, w);
    BlocksLater(m, f, |m.funcs[f].blocks|, calls, u.visited, w.visited);
    AnalyzedRoots(m, window, f, starts, starts + Made(m, f, calls, leftover), calls, leftover, v, w);
  }

  /** The starts of a function's targets: the first on stack `left`, the others on the empty one. */
  ghost function TargetStarts(ts: seq<Loc>, left: seq<Loc>): set<Config> {
    set i: nat | i < |ts| :: Config(ts[i], 0, if i == 0 then left else [])
  }

  lemma StartsConcat(a: seq<Loc>, b: seq<Loc>, left: seq<Loc>)
    ensures TargetStarts(a + b, left) == TargetStarts(a, left) + TargetStarts(b, if a == [] then left else [])
  {
    var rest := if a == [] then left else [];
    forall s: Config | s in TargetStarts(b, rest) ensures s in TargetStarts(a + b, left) {
      var i: nat :| i < |b| && s == Config(b[i], 0, if i == 0 then rest else []);
      assert (a + b)[|a| + i] == b[i];
    }
    forall s: Config | s in TargetStarts(a, left) ensures s in TargetStarts(a + b, left) {
      var i: nat :| i < |a| && s == Config(a[i], 0, if i == 0 then left else []);
      assert (a + b)[i] == a[i];
    }
    forall s: Config | s in TargetStarts(a + b, left) ensures s in TargetStarts(a, left) + TargetStarts(b, rest) {
      var i: nat :| i < |a + b| && s == Config((a + b)[i], 0, if i == 0 then left else []);
      if i >= |a| { assert s == Config(b[i - |a|], 0, if i - |a| == 0 then rest else []); }
    }
  }

  lemma {:induction false} TargetsOk(m: Module, f: nat, n: nat)
    requires WellFormed(m) && f < |m.funcs| && m.funcs[f].Defined? && n <= |m.funcs[f].blocks|
    ensures forall i: nat | i < |Targets(m, f, n)| :: AtInst(m, Targets(m, f, n)[i])
  {
    if n > 0 {
      TargetsOk(m, f, n - 1);
      assert InBlock(m, f, n - 1) && BlockOk(m, m.funcs[f], m.funcs[f].blocks[n - 1]);
    }
  }

  /** The calls among the first `n` instructions of a block have been walked from. */
  ghost predicate CallsCovered(m: Module, f: nat, b: nat, n: nat, made: set<Config>, visited: set<Key>) {
    forall l: Loc {:trigger CallRoot(m, l)} | l.func == f && l.block == b && l.pos < n && CallRoot(m, l) ::
      (l, 0) in visited && exists s: Config :: s in made && s.loc == l
  }

  ghost predicate CallsWalked(m: Module, f: nat, b: nat, n: nat, made: set<Config>, visited: set<Key>) {
    && CallsCovered(m, f, b, n, made, visited)
    && (forall s: Config | s in made :: s.step == 0 && s.loc.func == f && CallRoot(m, s.loc))
  }

  lemma CoveredMore(m: Module, f: nat, b: nat, n: nat, made: set<Config>, more: set<Config>, visited: set<Key>, visited': set<Key>)
    requires CallsCovered(m, f, b, n, made, visited) && made <= more && visited <= visited'
    ensures CallsCovered(m, f, b, n, more, visited')
  {
    forall l: Loc | l.func == f && l.block == b && l.pos < n && CallRoot(m, l)
      ensures (l, 0) in visited' && exists s: Config :: s in more && s.loc == l
    {
      var s: Config :| s in made && s.loc == l;
      assert s in more;
    }
  }

  lemma CallsStep(m: Module, f: nat, b: nat, n: nat, made: set<Config>, visited: set<Key>, s: Config, visited': set<Key>)
    requires CallsWalked(m, f, b, n, made, visited) && visited <= visited' && (s.loc, 0) in visited'
    requires s.loc == Loc(f, b, n) && s.step == 0 && CallRoot(m, s.loc)
    ensures CallsWalked(m, f, b, n + 1, made + {s}, visited')
  {
    CoveredMore(m, f, b, n, made, made + {s}, visited, visited');
    forall l: Loc | l.func == f && l.block == b && l.pos < n + 1 && CallRoot(m, l)
      ensures (l, 0) in visited' && exists t: Config :: t in made + {s} && t.loc == l
    {
      if l.pos == n { assert s in made + {s} && s.loc == l; }
    }
  }

  lemma OneStart(t: Loc, left: seq<Loc>)
    ensures TargetStarts([t], left) == {Config(t, 0, left)}
  {
    assert [t][0] == t;
  }

  ghost predicate TargetsWalked(ts: seq<Loc>, n: nat, visited: set<Key>) {
    n <= |ts| && forall i: nat | i < n :: (ts[i], 0) in visited
  }

  lemma TargetsMore(ts: seq<Loc>, visited: set<Key>, more: seq<Loc>, visited': set<Key>)
    requires TargetsWalked(ts, |ts|, visited) && TargetsWalked(more, |more|, visited') && visited <= visited'
    ensures TargetsWalked(ts + more, |ts + more|, visited')
  {
  }

  /** All recursive and indirect calls of the first `n` blocks, and nothing else, were walked from. */
  ghost predicate BlocksWalked(m: Module, f: nat, n: nat, made: set<Config>, visited: set<Key>) {
    && (forall l: Loc {:trigger CallRoot(m, l)} | l.func == f && l.block < n && CallRoot(m, l) ::
          (l, 0) in visited && exists s: Config :: s in made && s.loc == l)
    && (forall s: Config | s in made :: s.step == 0 && s.loc.func == f && CallRoot(m, s.loc))
  }

  lemma BlocksStep(m: Module, f: nat, b: nat, made: set<Config>, visited: set<Key>, more: set<Config>, visited': set<Key>)
    requires InBlock(m, f, b) && BlocksWalked(m, f, b, made, visited) && visited <= visited'
    requires CallsWalked(m, f, b, Len(m.funcs[f].blocks[b]), more, visited')
    ensures BlocksWalked(m, f, b + 1, made + more, visited')
  {
    forall l: Loc | l.func == f && l.block < b + 1 && CallRoot(m, l)
      ensures (l, 0) in visited' && exists s: Config :: s in made + more && s.loc == l
    {
      if l.block < b {
        var s: Config :| s in made && s.loc == l;
        assert s in made + more;
      } else {
        assert l.pos < Len(m.funcs[f].blocks[b]);
        var s: Config :| s in more && s.loc == l;
        assert s in made + more;
      }
    }
  }

  lemma BlocksLater(m: Module, f: nat, n: nat, made: set<Config>, visited: set<Key>, visited': set<Key>)
    requires BlocksWalked(m, f, n, made, visited) && visited <= visited'
    ensures BlocksWalked(m, f, n, made, visited')
  {
  }

  // ----- where the analysis starts, told by the instructions -----

  /** The terminator of block `b` names block `t` as the successor of a conditional branch or of a case. */
  ghost predicate BranchesTo(m: Module, f: nat, b: nat, t: nat) {
    && InBlock(m, f, b)
    && var term := m.funcs[f].blocks[b].term;
    (term.Conditional? && t in term.succs) || (term.Switch? && t in term.cases)
  }

  /** The instruction calls, or the terminator invokes, something unknown or a recursive function. */
  ghost predicate CallsUnknown(m: Module, l: Loc) {
    && InBlock(m, l.func, l.block)
    && var b := m.funcs[l.func].blocks[l.block];
    || (l.pos < |b.insts| && (b.insts[l.pos] == Call(Indirect) || (b.insts[l.pos].Call? && b.insts[l.pos].callee.Direct? && m.recursive(b.insts[l.pos].callee.func))))
    || (l.pos == |b.insts| && b.term.Invoke? && (b.term.callee == Indirect || (b.term.callee.Direct? && m.recursive(b.term.callee.func))))
  }

  /** A place of `f` that its analysis starts from: such a call, or the first instruction of a branch target. */
  ghost predicate Root(m: Module, f: nat, l: Loc) {
    l.func == f && (CallsUnknown(m, l) || (l.pos == 0 && exists b: nat :: BranchesTo(m, f, b, l.block)))
  }

  lemma CallRootIff(m: Module, l: Loc)
    ensures CallRoot(m, l) <==> CallsUnknown(m, l)
  {
  }

  lemma {:induction false} TargetsIff(m: Module, f: nat, n: nat, l: Loc)
    requires f < |m.funcs| && m.funcs[f].Defined? && n <= |m.funcs[f].blocks|
    ensures l in Targets(m, f, n) <==> l.func == f && l.pos == 0 && exists b: nat :: b < n && BranchesTo(m, f, b, l.block)
  {
    if n > 0 {
      TargetsIff(m, f, n - 1, l);
      BlockTargetsIff(m, f, n - 1, l);
      if b: nat :| b < n && BranchesTo(m, f, b, l.block) {
        assert b < n - 1 || b == n - 1;
      }
    }
  }

  lemma BlockTargetsIff(m: Module, f: nat, b: nat, l: Loc)
    requires InBlock(m, f, b)
    ensures l in BlockTargets(m, f, b) <==> l.func == f && l.pos == 0 && BranchesTo(m, f, b, l.block)
  {
    var ts, bs := BlockTargets(m, f, b), BranchTargets(m.funcs[f].blocks[b]);
    if l.func == f && l.pos == 0 && BranchesTo(m, f, b, l.block) {
      var i: nat :| i < |bs| && bs[i] == l.block;
      assert ts[i] == l;
    }
  }

  /** Every start made in the analysis of `f` is at a root, at step zero. */
  lemma MadeAtRoots(m: Module, window: int, f: nat, starts: set<Config>, starts': set<Config>, calls: set<Config>, leftover: seq<Loc>, v: Fields, w: Fields, s: Config)
    requires f < |m.funcs| && Analyzed(m, window, f, starts, starts', calls, leftover, v, w) && s in Made(m, f, calls, leftover)
    ensures s.step == 0 && Root(m, f, s.loc)
  {
    CallRootIff(m, s.loc);
    if s !in calls {
      var ts := Targets(m, f, |m.funcs[f].blocks|);
      var i: nat :| i < |ts| && s == Config(ts[i], 0, if i == 0 then leftover else []);
      TargetsIff(m, f, |m.funcs[f].blocks|, s.loc);
    }
  }

  /** And every root has been walked from. */
  lemma RootsMade(m: Module, window: int, f: nat, starts: set<Config>, starts': set<Config>, calls: set<Config>, leftover: seq<Loc>, v: Fields, w: Fields, l: Loc)
    requires f < |m.funcs| && Analyzed(m, window, f, starts, starts', calls, leftover, v, w) && Root(m, f, l)
    ensures (l, 0) in w.visited && exists s: Config :: s in Made(m, f, calls, leftover) && s.loc == l && s.step == 0
  {
    CallRootIff(m, l);
    if CallsUnknown(m, l) {
      var s: Config :| s in calls && s.loc == l;
      assert s in Made(m, f, calls, leftover);
    } else {
      var b: nat :| BranchesTo(m, f, b, l.block);
      var ts := Targets(m, f, |m.funcs[f].blocks|);
      TargetsIff(m, f, |m.funcs[f].blocks|, l);
      var i: nat :| i < |ts| && ts[i] == l;
      assert Config(l, 0, if i == 0 then leftover else []) in TargetStarts(ts, leftover);
    }
  }

  /** The analysis of `f` has started from its roots and from nowhere else. */
  ghost predicate StartsAtRoots(m: Module, f: nat, made: set<Config>, visited: set<Key>) {
    && (forall s: Config {:trigger s in made} | s in made :: s.step == 0 && Root(m, f, s.loc))
    && (forall l: Loc {:trigger Root(m, f, l)} | Root(m, f, l) :: (l, 0) in visited && exists s: Config :: s in made && s.loc == l && s.step == 0)
  }

  lemma AnalyzedRoots(m: Module, window: int, f: nat, starts: set<Config>, starts': set<Config>, calls: set<Config>, leftover: seq<Loc>, v: Fields, w: Fields)
    requires f < |m.funcs| && Analyzed(m, window, f, starts, starts', calls, leftover, v, w)
    ensures StartsAtRoots(m, f, Made(m, f, calls, leftover), w.visited)
  {
    forall s: Config | s in Made(m, f, calls, leftover) ensures s.step == 0 && Root(m, f, s.loc) {
      MadeAtRoots(m, window, f, starts, starts', calls, leftover, v, w, s);
    }
    forall l: Loc | Root(m, f, l)
      ensures (l, 0) in w.visited && exists s: Config :: s in Made(m, f, calls, leftover) && s.loc == l && s.step == 0
    {
      RootsMade(m, window, f, starts, starts', calls, leftover, v, w, l);
    }
  }

  // ----- what the analysis finds -----

  /**
   Where entries with the same key lead to the same instructions, the analysis of a function takes
   out a counted instruction exactly when it is within the window of one of the walks it starts.
   */
  lemma AnalysisExact(m: Module, window: int, f: nat, starts: set<Config>, starts': set<Config>, calls: set<Config>, leftover: seq<Loc>, v: Fields, w: Fields, l: Loc)
    requires WellFormed(m) && f < |m.funcs| && Analyzed(m, window, f, starts, starts', calls, leftover, v, w)
    requires Stage(m, window, starts', w) && SameFutures(m, window, starts')
    requires l in v.oow && AtInst(m, l) && ActionAt(m, l) == Count
    ensures l !in w.oow <==> exists s: Config :: s in Made(m, f, calls, leftover) && WithinWindow(m, window, s, l)
  {
    if s: Config :| s in Made(m, f, calls, leftover) && WithinWindow(m, window, s, l) {
      MadeWalked(m, window, f, starts, starts', calls, leftover, v, w, s);
      NothingMissed(m, window, starts', w, s, l);
    }
  }

  lemma MadeWalked(m: Module, window: int, f: nat, starts: set<Config>, starts': set<Config>, calls: set<Config>, leftover: seq<Loc>, v: Fields, w: Fields, s: Config)
    requires WellFormed(m) && f < |m.funcs| && Analyzed(m, window, f, starts, starts', calls, leftover, v, w)
    requires s in Made(m, f, calls, leftover)
    ensures s in starts' && KeyOf(s) in w.visited && Place(m, s.loc)
  {
    if s !in calls {
      var ts := Targets(m, f, |m.funcs[f].blocks|);
      TargetsOk(m, f, |m.funcs[f].blocks|);
      var i: nat :| i < |ts| && s == Config(ts[i], 0, if i == 0 then leftover else []);
    }
  }

  /**
   In particular: from empty stacks, where no function entered by a call has an invoke, and the
   calls of this function left their stack empty.  A counted instruction is taken out exactly when
   it is within the window of an indirect or recursive call of the function, or of a successor of
   one of its conditional branches or switch cases.
   */
  lemma FlatAnalysisExact(m: Module, window: int, f: nat, starts: set<Config>, starts': set<Config>, calls: set<Config>, v: Fields, w: Fields, l: Loc)
    requires WellFormed(m) && f < |m.funcs| && Analyzed(m, window, f, starts, starts', calls, [], v, w)
    requires Stage(m, window, starts', w) && NoNestedInvoke(m) && (forall s: Config | s in starts + calls :: s.stack == [])
    requires l in v.oow && Counted(m, l)
    ensures l !in w.oow <==> exists r: Loc :: Root(m, f, r) && WithinWindow(m, window, Config(r, 0, []), l)
  {
    var made := Made(m, f, calls, []);
    ActionMeans(m, l);
    forall s: Config | s in starts' ensures s.stack == [] {}
    NoNestedInvokeSuffices(m, window, starts');
    AnalysisExact(m, window, f, starts, starts', calls, [], v, w, l);
    if s: Config :| s in made && WithinWindow(m, window, s, l) {
      MadeAtRoots(m, window, f, starts, starts', calls, [], v, w, s);
      assert s == Config(s.loc, 0, []);
    }
    if r: Loc :| Root(m, f, r) && WithinWindow(m, window, Config(r, 0, []), l) {
      RootsMade(m, window, f, starts, starts', calls, [], v, w, r);
      var s: Config :| s in made && s.loc == r && s.step == 0;
      assert s == Config(r, 0, []);
    }
  }
}
