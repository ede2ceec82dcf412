/**
 When the pruning of the walk loses nothing.  Entries are recognised by instruction and step,
 not by their call stack, so an entry is dropped although an earlier one with another stack may
 have led elsewhere.
 */
module WindowExact {
  import opened Window
  import opened WindowWalk

  /** A counted instruction that a walk from `c` meets in fewer than `window` steps. */
  ghost predicate Sees(m: Module, window: int, c: Config, l: Loc) {
    AtInst(m, l) && ActionAt(m, l) == Count && WithinWindow(m, window, c, l)
  }

  ghost predicate SeesNoMore(m: Module, window: int, c: Config, d: Config) {
    forall l: Loc {:trigger Sees(m, window, c, l)} :: Sees(m, window, c, l) ==> Sees(m, window, d, l)
  }

  /** Entries with the same instruction and step, whatever their stacks, lead to the same instructions. */
  ghost predicate SameFutures(m: Module, window: int, starts: set<Config>) {
    forall c: Config, d: Config {:trigger EntryFrom(m, window, starts, c), EntryFrom(m, window, starts, d)} ::
      EntryFrom(m, window, starts, c) && EntryFrom(m, window, starts, d) && KeyOf(c) == KeyOf(d) ==> SeesNoMore(m, window, c, d)
  }

  /** Every entry made was carried through. */
  ghost predicate AllDone(m: Module, window: int, starts: set<Config>, w: Fields) {
    forall k: Key | k in w.visited :: KeyDone(m, window, starts, w, k)
  }

  // ----- following a run -----

  ghost predicate Moves(m: Module, window: int, path: seq<Config>) {
    |path| > 0 && forall j: nat | j + 1 < |path| :: Next(m, window, path[j], path[j + 1])
  }

  /** A path and a run from the same configuration agree as long as both last. */
  lemma {:induction false} PathFollowsRun(m: Module, window: int, w: Fields, run: seq<Config>, path: seq<Config>, i: nat)
    requires RunDone(m, window, w, run) && Moves(m, window, path) && path[0] == run[0] && i < |path| && i < |run|
    ensures path[i] == run[i]
  {
    if i > 0 {
      PathFollowsRun(m, window, w, run, path, i - 1);
      assert Linked(m, window, w.oow, run[i - 1], run[i - 1 + 1]);
      assert Next(m, window, path[i - 1], path[i - 1 + 1]);
      NextMoved(m, window, path[i - 1], path[i]);
    }
  }

  /** At the end of a run, what comes next has been entered. */
  lemma NextEntered(m: Module, window: int, visited: set<Key>, c: Config, d: Config)
    requires WellFormed(m) && Next(m, window, c, d) && Stopped(m, window, visited, c)
    ensures KeyOf(d) in visited && Forks(m, c)
  {
  }

  lemma EarlierTrans(m: Module, e: Config, d: Config, c: Config)
    requires Place(m, e.loc) && Place(m, d.loc) && Place(m, c.loc) && Earlier(m, e, d) && Earlier(m, d, c)
    ensures Earlier(m, e, c)
  {
  }

  lemma {:induction false} PathEarlier(m: Module, window: int, path: seq<Config>, i: nat)
    requires WellFormed(m) && Moves(m, window, path) && 0 < i < |path|
    ensures Place(m, path[0].loc) && Place(m, path[i].loc) && Earlier(m, path[i], path[0])
  {
    assert Next(m, window, path[i - 1], path[i - 1 + 1]);
    NextEarlier(m, window, path[i - 1], path[i]);
    if i > 1 {
      PathEarlier(m, window, path, i - 1);
      EarlierTrans(m, path[i], path[i - 1], path[0]);
    }
  }

  lemma {:induction false} PathReaches(m: Module, window: int, start: Config, path: seq<Config>, i: nat)
    requires Moves(m, window, path) && i < |path| && Reachable(m, window, start, path[0])
    ensures Reachable(m, window, start, path[i])
  {
    if i > 0 {
      PathReaches(m, window, start, path, i - 1);
      assert Next(m, window, path[i - 1], path[i - 1 + 1]);
      ReachNext(m, window, start, path[i - 1], path[i]);
    }
  }

  /** An entry that follows a path from another entry. */
  lemma EntryOn(m: Module, window: int, starts: set<Config>, path: seq<Config>, i: nat)
    requires Moves(m, window, path) && EntryFrom(m, window, starts, path[0]) && i + 1 < |path| && Forks(m, path[i])
    ensures EntryFrom(m, window, starts, path[i + 1])
  {
    if path[0] in starts {
      ReachSelf(m, window, path[0]);
      PathReaches(m, window, path[0], path, i);
    } else {
      var start: Config, e: Config :| start in starts && Reachable(m, window, start, e) && Forks(m, e) && Next(m, window, e, path[0]);
      ReachNext(m, window, start, e, path[0]);
      PathReaches(m, window, start, path, i);
    }
    assert Next(m, window, path[i], path[i + 1]);
  }

  /** On a run that was carried through, a counted instruction within the window is taken out. */
  lemma RunTakesOut(m: Module, window: int, w: Fields, run: seq<Config>, j: nat)
    requires RunDone(m, window, w, run) && j < |run| && run[j].step < window
    requires WellFormed(m) && AtInst(m, run[j].loc) && ActionAt(m, run[j].loc) == Count
    ensures run[j].loc !in w.oow
  {
    if j + 1 < |run| { assert Linked(m, window, w.oow, run[j], run[j + 1]); }
  }

  /** Configurations the loop goes through one after the other. */
  ghost predicate Straight(m: Module, window: int, trace: seq<Config>) {
    && WellFormed(m) && |trace| > 0
    && (forall i: nat | i < |trace| :: Place(m, trace[i].loc) && StackOk(m, trace[i].stack))
    && (forall i: nat | i + 1 < |trace| :: trace[i].step < window && Move(m, trace[i]).Moved? && Move(m, trace[i]).config == trace[i + 1])
  }

  lemma {:induction false} PathFollowsTrace(m: Module, window: int, trace: seq<Config>, path: seq<Config>, i: nat)
    requires Straight(m, window, trace) && Moves(m, window, path) && path[0] == trace[0] && i < |path| && i < |trace|
    ensures path[i] == trace[i]
  {
    if i > 0 {
      PathFollowsTrace(m, window, trace, path, i - 1);
      assert Next(m, window, path[i - 1], path[i - 1 + 1]);
      NextMoved(m, window, path[i - 1], path[i]);
    }
  }

  lemma {:induction false} RunFollowsTrace(m: Module, window: int, w: Fields, trace: seq<Config>, run: seq<Config>, i: nat)
    requires Straight(m, window, trace) && RunDone(m, window, w, run) && run[0] == trace[0] && i < |trace|
    ensures i < |run| && run[i] == trace[i]
  {
    if i > 0 {
      RunFollowsTrace(m, window, w, trace, run, i - 1);
      assert run[i - 1] == trace[i - 1] && trace[i - 1].step < window && Move(m, trace[i - 1]).config == trace[i - 1 + 1];
      assert i < |run|;
      assert Linked(m, window, w.oow, run[i - 1], run[i - 1 + 1]);
    }
  }

  lemma LastOrMoves(m: Module, window: int, w: Fields, run: seq<Config>, i: nat)
    requires RunDone(m, window, w, run) && i < |run|
    ensures i == |run| - 1 || exists d: Config :: Linked(m, window, w.oow, run[i], d)
  {
    if i + 1 < |run| { assert Linked(m, window, w.oow, run[i], run[i + 1]); }
  }

  /** An entry that was carried through has gone through its whole trace and taken out what counts on it. */
  lemma CarriedTrace(m: Module, window: int, w: Fields, trace: seq<Config>)
    requires Straight(m, window, trace) && Carried(m, window, w, trace[0])
    requires trace[|trace| - 1].step >= window || !Move(m, trace[|trace| - 1]).Moved?
    ensures Stopped(m, window, w.visited, trace[|trace| - 1])
    ensures Ends(m, window, trace[|trace| - 1]) ==> w.stack == trace[|trace| - 1].stack
    ensures forall i: nat | i + 1 < |trace| && Move(m, trace[i]).counts :: trace[i].loc !in w.oow
  {
    var run: seq<Config> :| RunDone(m, window, w, run) && run[0] == trace[0]
      && (Ends(m, window, run[|run| - 1]) ==> w.stack == run[|run| - 1].stack);
    var n := |trace|;
    RunFollowsTrace(m, window, w, trace, run, n - 1);
    LastOrMoves(m, window, w, run, n - 1);
    forall i: nat | i + 1 < n && Move(m, trace[i]).counts ensures trace[i].loc !in w.oow {
      RunFollowsTrace(m, window, w, trace, run, i);
      assert Linked(m, window, w.oow, run[i], run[i + 1]);
    }
  }

  // ----- nothing is missed -----

  /**
   Where entries at one instruction and step lead to the same instructions, everything a start
   can meet within the window is taken out.
   */
  lemma {:induction false} NothingMissed(m: Module, window: int, starts: set<Config>, w: Fields, c: Config, l: Loc)
    requires WellFormed(m) && SameFutures(m, window, starts) && AllDone(m, window, starts, w)
    requires EntryFrom(m, window, starts, c) && Place(m, c.loc) && KeyOf(c) in w.visited && Sees(m, window, c, l)
    ensures l !in w.oow
    decreases window - c.step, if AtInst(m, c.loc) then 0 else 1, Len(BlockAt(m, c.loc)) - c.loc.pos
  {
    var run: seq<Config> :| RunDone(m, window, w, run) && KeyOf(run[0]) == KeyOf(c) && EntryFrom(m, window, starts, run[0]);
    assert SeesNoMore(m, window, c, run[0]);
    assert Sees(m, window, run[0], l);
    var e: Config :| Reachable(m, window, run[0], e) && e.loc == l && e.step < window;
    var path: seq<Config> :| Walk(m, window, run[0], e, path);
    var n := |run|;
    PathFollowsRun(m, window, w, run, path, if |path| <= n then |path| - 1 else n - 1);
    if |path| <= n {
      RunTakesOut(m, window, w, run, |path| - 1);
    } else {
      assert Next(m, window, path[n - 1], path[n - 1 + 1]);
      NextEntered(m, window, w.visited, path[n - 1], path[n]);
      EntryOn(m, window, starts, path, n - 1);
      PathEarlier(m, window, path, n);
      SeesOn(m, window, path, n, l);
      NextEarlier(m, window, path[n - 1], path[n]);
      NothingMissed(m, window, starts, w, path[n], l);
    }
  }

  lemma SeesOn(m: Module, window: int, path: seq<Config>, i: nat, l: Loc)
    requires Moves(m, window, path) && i < |path| && path[|path| - 1].loc == l && path[|path| - 1].step < window
    requires AtInst(m, l) && ActionAt(m, l) == Count
    ensures Sees(m, window, path[i], l)
  {
    var rest := path[i..];
    forall j: nat | j + 1 < |rest| ensures Next(m, window, rest[j], rest[j + 1]) {
      assert rest[j] == path[i + j] && rest[j + 1] == path[i + j + 1];
    }
    assert Walk(m, window, path[i], path[|path| - 1], rest);
  }

  // ----- a condition on the module -----

  /** Some call in the module leads the walk into `f`. */
  ghost predicate Entered(m: Module, f: nat) {
    exists l: Loc :: AtInst(m, l) && ActionAt(m, l) == EnterCallee(f)
  }

  /** No function that the walk can enter by a call has an invoke of its own. */
  ghost predicate NoNestedInvoke(m: Module) {
    forall l: Loc {:trigger AtInst(m, l)} | AtInst(m, l) && AtInvoke(m, l) :: !Entered(m, l.func)
  }

  /** Only the outermost call on the stack can be in a function that was not entered by a call. */
  ghost predicate Nested(m: Module, c: Config) {
    && (c.stack != [] ==> Entered(m, c.loc.func))
    && (forall i: nat | 0 < i < |c.stack| :: Entered(m, c.stack[i].func))
  }

  lemma NextNested(m: Module, window: int, c: Config, d: Config)
    requires WellFormed(m) && Nested(m, c) && Next(m, window, c, d)
    ensures Nested(m, d)
  {
    if !AtInst(m, c.loc) && EndOf(m, BlockAt(m, c.loc)) == Leave && c.stack != [] {
      var site := c.stack[|c.stack| - 1];
      assert Site(m, site);
      assert d.loc.func == site.func;
    }
  }

  lemma {:induction false} WalkNested(m: Module, window: int, path: seq<Config>, i: nat)
    requires WellFormed(m) && Moves(m, window, path) && i < |path| && path[0].stack == []
    ensures Nested(m, path[i])
  {
    if i > 0 {
      WalkNested(m, window, path, i - 1);
      assert Next(m, window, path[i - 1], path[i - 1 + 1]);
      NextNested(m, window, path[i - 1], path[i]);
    }
  }

  /** Where the walk splits or follows callers, the stack is empty. */
  lemma ForkFlat(m: Module, window: int, c: Config, d: Config)
    requires WellFormed(m) && NoNestedInvoke(m) && Nested(m, c) && Forks(m, c) && Next(m, window, c, d)
    ensures d.stack == []
  {
    var end := c.loc.(pos := |BlockAt(m, c.loc).insts|);
    if EndOf(m, BlockAt(m, c.loc)).Split? {
      assert AtInst(m, end) && AtInvoke(m, end);
    } else if c.stack != [] {
      var site := c.stack[|c.stack| - 1];
      assert Site(m, site) && AtInvoke(m, site);
    }
  }

  lemma EntriesFlat(m: Module, window: int, starts: set<Config>, c: Config)
    requires WellFormed(m) && NoNestedInvoke(m) && (forall s: Config | s in starts :: s.stack == []) && EntryFrom(m, window, starts, c)
    ensures c.stack == []
  {
    if c !in starts {
      var start: Config, e: Config :| start in starts && Reachable(m, window, start, e) && Forks(m, e) && Next(m, window, e, c);
      var path: seq<Config> :| Walk(m, window, start, e, path);
      WalkNested(m, window, path, |path| - 1);
      ForkFlat(m, window, e, c);
    }
  }

  /**
   If no function entered by a call has an invoke and every start has an empty stack, all entries
   have an empty stack, so the key identifies them and nothing is missed.
   */
  lemma NoNestedInvokeSuffices(m: Module, window: int, starts: set<Config>)
    requires WellFormed(m) && NoNestedInvoke(m) && forall s: Config | s in starts :: s.stack == []
    ensures SameFutures(m, window, starts)
  {
    forall c: Config, d: Config | EntryFrom(m, window, starts, c) && EntryFrom(m, window, starts, d) && KeyOf(c) == KeyOf(d)
      ensures SeesNoMore(m, window, c, d)
    {
      EntriesFlat(m, window, starts, c);
      EntriesFlat(m, window, starts, d);
      assert c == d;
    }
  }

  // ----- a stack left over from an earlier walk -----

  ghost function Onto(base: seq<Loc>, c: Config): Config { c.(stack := base + c.stack) }

  /** No walk from `at` leaves its function within the window. */
  ghost predicate NeverLeaves(m: Module, window: int, start: Config) {
    forall c: Config {:trigger Reachable(m, window, start, c)} | Reachable(m, window, start, c) :: !Leaving(m, window, c)
  }

  /** As long as it does not leave its function, the walk does not look at what lies below. */
  lemma NextOnto(m: Module, window: int, base: seq<Loc>, c: Config, d: Config)
    requires WellFormed(m) && StackOk(m, base) && StackOk(m, c.stack) && Place(m, c.loc)
    requires c.stack == [] && !AtInst(m, c.loc) ==> EndOf(m, BlockAt(m, c.loc)) != Leave
    ensures Next(m, window, c, d) ==> Next(m, window, Onto(base, c), Onto(base, d))
  {
    if Next(m, window, c, d) {
      assert StackOk(m, base + c.stack);
      if AtInst(m, c.loc) {
        assert base + (c.stack + [c.loc]) == (base + c.stack) + [c.loc];
      } else if c.stack != [] && EndOf(m, BlockAt(m, c.loc)) == Leave {
        assert Site(m, c.stack[|c.stack| - 1]);
        assert (base + c.stack)[..|base + c.stack| - 1] == base + c.stack[..|c.stack| - 1];
      }
    }
  }

  /** And every move above a stack is one without it. */
  lemma NextOff(m: Module, window: int, base: seq<Loc>, c: Config, d': Config)
    requires WellFormed(m) && StackOk(m, base) && StackOk(m, c.stack) && Place(m, c.loc)
    requires c.stack == [] && !AtInst(m, c.loc) ==> EndOf(m, BlockAt(m, c.loc)) != Leave
    requires Next(m, window, Onto(base, c), d')
    ensures exists d: Config :: d' == Onto(base, d) && Next(m, window, c, d)
  {
    var d: Config;
    if AtInst(m, c.loc) && ActionAt(m, c.loc).EnterCallee? {
      d := d'.(stack := c.stack + [c.loc]);
      assert base + (c.stack + [c.loc]) == (base + c.stack) + [c.loc];
    } else if !AtInst(m, c.loc) && EndOf(m, BlockAt(m, c.loc)) == Leave {
      d := d'.(stack := c.stack[..|c.stack| - 1]);
      assert Site(m, c.stack[|c.stack| - 1]) && (base + c.stack)[|base + c.stack| - 1] == c.stack[|c.stack| - 1];
      assert (base + c.stack)[..|base + c.stack| - 1] == base + c.stack[..|c.stack| - 1];
    } else {
      d := d'.(stack := c.stack);
    }
    assert d' == Onto(base, d) && Next(m, window, c, d);
  }

  lemma {:induction false} PathOnto(m: Module, window: int, base: seq<Loc>, start: Config, path: seq<Config>, i: nat)
    requires WellFormed(m) && StackOk(m, base) && NeverLeaves(m, window, start) && Moves(m, window, path) && path[0] == start && i < |path|
    ensures Reachable(m, window, start, path[i]) && Reachable(m, window, Onto(base, start), Onto(base, path[i]))
  {
    if i == 0 {
      ReachSelf(m, window, start);
      ReachSelf(m, window, Onto(base, start));
    } else {
      PathOnto(m, window, base, start, path, i - 1);
      assert Next(m, window, path[i - 1], path[i - 1 + 1]);
      ReachNext(m, window, start, path[i - 1], path[i]);
      NextOnto(m, window, base, path[i - 1], path[i]);
      ReachNext(m, window, Onto(base, start), Onto(base, path[i - 1]), Onto(base, path[i]));
    }
  }

  lemma {:induction false} PathOff(m: Module, window: int, base: seq<Loc>, start: Config, path: seq<Config>, i: nat) returns (c: Config)
    requires WellFormed(m) && StackOk(m, base) && NeverLeaves(m, window, start) && StackOk(m, start.stack) && Place(m, start.loc)
    requires Moves(m, window, path) && path[0] == Onto(base, start) && i < |path|
    ensures path[i] == Onto(base, c) && Reachable(m, window, start, c) && StackOk(m, c.stack) && Place(m, c.loc)
  {
    if i == 0 {
      ReachSelf(m, window, start);
      c := start;
    } else {
      var b := PathOff(m, window, base, start, path, i - 1);
      assert Next(m, window, path[i - 1], path[i - 1 + 1]);
      assert Reachable(m, window, start, b) && b.step < window;
      NextOff(m, window, base, b, path[i]);
      c :| path[i] == Onto(base, c) && Next(m, window, b, c);
      ReachNext(m, window, start, b, c);
      NextEarlier(m, window, b, c);
    }
  }

  /**
   A walk that starts on top of a left-over stack meets what it would meet with an empty one,
   provided it does not leave its function within the window.
   */
  lemma LeftoverHarmless(m: Module, window: int, base: seq<Loc>, start: Config, l: Loc)
    requires WellFormed(m) && StackOk(m, base) && start.stack == [] && Place(m, start.loc) && NeverLeaves(m, window, start)
    ensures WithinWindow(m, window, Onto(base, start), l) <==> WithinWindow(m, window, start, l)
  {
    if WithinWindow(m, window, start, l) {
      var c: Config :| Reachable(m, window, start, c) && c.loc == l && c.step < window;
      var path: seq<Config> :| Walk(m, window, start, c, path);
      PathOnto(m, window, base, start, path, |path| - 1);
    }
    if WithinWindow(m, window, Onto(base, start), l) {
      var c: Config :| Reachable(m, window, Onto(base, start), c) && c.loc == l && c.step < window;
      var path: seq<Config> :| Walk(m, window, Onto(base, start), c, path);
      var d := PathOff(m, window, base, start, path, |path| - 1);
    }
  }

  /** The first move out of the function, if there is one on the path. */
  lemma FirstLeave(m: Module, window: int, start: Config, path: seq<Config>) returns (i: nat)
    requires Moves(m, window, path) && path[0] == start && Leaving(m, window, path[|path| - 1])
    ensures i < |path| && Leaving(m, window, path[i]) && forall j: nat | j < i :: !Leaving(m, window, path[j])
  {
    i := 0;
    while !Leaving(m, window, path[i])
      invariant i < |path| && forall j: nat | j < i :: !Leaving(m, window, path[j])
      decreases |path| - i
    {
      i := i + 1;
    }
  }

  /** At the end of a function, with nothing of this walk on the stack. */
  ghost predicate Leaving(m: Module, window: int, c: Config) {
    c.step < window && c.stack == [] && Place(m, c.loc) && !AtInst(m, c.loc) && EndOf(m, BlockAt(m, c.loc)) == Leave
  }

  lemma {:induction false} PathOntoUntil(m: Module, window: int, base: seq<Loc>, path: seq<Config>, i: nat)
    requires WellFormed(m) && StackOk(m, base) && Moves(m, window, path) && i < |path|
    requires forall j: nat | j < i :: !Leaving(m, window, path[j])
    ensures Reachable(m, window, Onto(base, path[0]), Onto(base, path[i]))
  {
    if i == 0 {
      ReachSelf(m, window, Onto(base, path[0]));
    } else {
      PathOntoUntil(m, window, base, path, i - 1);
      assert Next(m, window, path[i - 1], path[i - 1 + 1]) && !Leaving(m, window, path[i - 1]);
      NextOnto(m, window, base, path[i - 1], path[i]);
      ReachNext(m, window, Onto(base, path[0]), Onto(base, path[i - 1]), Onto(base, path[i]));
    }
  }

  /** If it does leave its function, it goes on behind the call that was left on the stack. */
  lemma LeftoverFollowed(m: Module, window: int, base: seq<Loc>, start: Config, l: Loc)
    requires WellFormed(m) && StackOk(m, base) && base != [] && start.stack == [] && !NeverLeaves(m, window, start)
    requires Site(m, base[|base| - 1]) && Continues(m, base[|base| - 1], l)
    ensures WithinWindow(m, window, Onto(base, start), l)
  {
    var c: Config :| Reachable(m, window, start, c) && Leaving(m, window, c);
    var path: seq<Config> :| Walk(m, window, start, c, path);
    var i := FirstLeave(m, window, start, path);
    PathOntoUntil(m, window, base, path, i);
    var d := Config(l, path[i].step, base[..|base| - 1]);
    assert Next(m, window, Onto(base, path[i]), d);
    ReachNext(m, window, Onto(base, start), Onto(base, path[i]), d);
  }
}
