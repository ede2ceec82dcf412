/**
 The walk itself: a loop that moves from configuration to configuration, with recursive calls
 where an invoke splits the walk or the callers are followed.  Entries are pruned by
 instruction and step.
 */
module WindowWalk {
  import opened FiniteSets
  import opened Window

  /** The fields the walk updates. */
  datatype Fields = Fields(visited: set<Key>, oow: set<Loc>, stack: seq<Loc>)

  /**
   What a walk is measured against: where it started, the keys entered before it, all the keys
   there are, and every start up to now.
   */
  datatype Goal = Goal(start: Config, avoid: set<Key>, keys: set<Key>, starts: set<Config>)

  ghost predicate AllKeys(m: Module, window: int, keys: set<Key>) {
    forall l: Loc, s: nat {:trigger (l, s) in keys} :: (l, s) in keys <==> AtInst(m, l) && s <= Steps(window)
  }

  ghost predicate Setting(m: Module, window: int, g: Goal) {
    WellFormed(m) && AllKeys(m, window, g.keys) && g.start in g.starts
  }

  // ----- where the walk may be -----

  /** Inside the loop. */
  ghost predicate Inside(m: Module, window: int, g: Goal, c: Config) {
    && Place(m, c.loc) && StackOk(m, c.stack) && c.step <= Steps(window)
    && ReachableAvoiding(m, window, g.avoid, g.start, c)
  }

  /** At an entry, which may be pruned yet. */
  ghost predicate Entering(m: Module, window: int, g: Goal, c: Config) {
    && AtInst(m, c.loc) && StackOk(m, c.stack) && c.step <= Steps(window)
    && Reachable(m, window, g.start, c) && EntryFrom(m, window, g.starts, c)
    && (KeyOf(c) !in g.avoid ==> ReachableAvoiding(m, window, g.avoid, g.start, c))
  }

  lemma MoveInside(m: Module, window: int, g: Goal, c: Config)
    requires Setting(m, window, g) && Inside(m, window, g, c) && c.step < window && Move(m, c).Moved?
    ensures Inside(m, window, g, Move(m, c).config) && Earlier(m, Move(m, c).config, c)
  {
    MovedNext(m, window, c);
    NextEarlier(m, window, c, Move(m, c).config);
    AvoidNext(m, window, g.avoid, g.start, c, Move(m, c).config);
  }

  /** What follows where the loop is left is an entry. */
  lemma NextEntering(m: Module, window: int, g: Goal, c: Config, d: Config)
    requires Setting(m, window, g) && Inside(m, window, g, c) && Forks(m, c) && Next(m, window, c, d)
    ensures Entering(m, window, g, d)
  {
    NextEarlier(m, window, c, d);
    AvoidingReaches(m, window, g.avoid, g.start, c);
    ReachNext(m, window, g.start, c, d);
    if KeyOf(d) !in g.avoid { AvoidNext(m, window, g.avoid, g.start, c, d); }
  }

  // ----- what the walk keeps -----

  /** A stack the walk has had. */
  ghost predicate StackSeen(m: Module, window: int, start: Config, stack: seq<Loc>) {
    stack == [] || exists c: Config :: Reachable(m, window, start, c) && c.stack == stack
  }

  /** It only adds keys, only takes out what it meets, and leaves a stack it has had. */
  ghost predicate Progress(m: Module, window: int, g: Goal, v: Fields, w: Fields) {
    && v.visited <= w.visited <= g.keys && StackOk(m, w.stack) && StackSeen(m, window, g.start, w.stack)
    && Justified(m, window, g.avoid, g.start, v.oow, w.oow)
  }

  lemma ProgressTrans(m: Module, window: int, g: Goal, u: Fields, v: Fields, w: Fields)
    requires Progress(m, window, g, u, v) && Progress(m, window, g, v, w)
    ensures Progress(m, window, g, u, w)
  {
  }

  /** Only the stack changes, to one the walk has had. */
  lemma Restack(m: Module, window: int, g: Goal, u: Fields, v: Fields, stack: seq<Loc>)
    requires Progress(m, window, g, u, v) && StackOk(m, stack) && StackSeen(m, window, g.start, stack)
    ensures Progress(m, window, g, u, v.(stack := stack))
  {
  }

  lemma InsideSeen(m: Module, window: int, g: Goal, c: Config)
    requires Inside(m, window, g, c)
    ensures StackSeen(m, window, g.start, c.stack) && StackOk(m, c.stack)
  {
    AvoidingReaches(m, window, g.avoid, g.start, c);
  }

  lemma TakeOut(m: Module, window: int, g: Goal, u: Fields, v: Fields, c: Config)
    requires Progress(m, window, g, u, v) && Inside(m, window, g, c) && c.step < window
    ensures Progress(m, window, g, u, v.(oow := v.oow - {c.loc}))
  {
    assert Met(m, window, g.avoid, g.start, c.loc);
  }

  // ----- what an entry leaves behind -----

  /** The loop goes from one configuration to the next, taking out a counted instruction. */
  ghost predicate Linked(m: Module, window: int, oow: set<Loc>, c: Config, d: Config) {
    && WellFormed(m) && Place(m, c.loc) && StackOk(m, c.stack) && c.step < window
    && Move(m, c).Moved? && Move(m, c).config == d && (Move(m, c).counts ==> c.loc !in oow)
  }

  /** The walk ends here: the window is used up, or at a branch. */
  ghost predicate Ends(m: Module, window: int, c: Config) {
    c.step >= window || (WellFormed(m) && Place(m, c.loc) && StackOk(m, c.stack) && Move(m, c).Halt?)
  }

  /** Where the loop is left, everything that follows has been entered. */
  ghost predicate Stopped(m: Module, window: int, visited: set<Key>, c: Config) {
    Ends(m, window, c) || (
      && WellFormed(m) && Place(m, c.loc) && StackOk(m, c.stack)
      && match Move(m, c)
         case Halt => true
         case Moved(_, _) => false
         case ForkAt(a, b) => KeyOf(a) in visited && (a.loc != b.loc ==> KeyOf(b) in visited)
         case ToCallers => !m.recursive(c.loc.func) && c.loc.func in m.callSites ==> CallersEntered(m, visited, m.callSites[c.loc.func], c.step))
  }

  ghost predicate CallersEntered(m: Module, visited: set<Key>, sites: set<Loc>, step: nat) {
    forall site: Loc, l: Loc {:trigger Continues(m, site, l)} |
      site in sites && AtInst(m, site) && !m.recursive(site.func) && Continues(m, site, l) :: (l, step) in visited
  }

  /** A whole run: every counted instruction on it is taken out, and its end is followed up. */
  ghost predicate RunDone(m: Module, window: int, w: Fields, run: seq<Config>) {
    && |run| > 0
    && (forall i: nat | i + 1 < |run| :: Linked(m, window, w.oow, run[i], run[i + 1]))
    && Stopped(m, window, w.visited, run[|run| - 1])
  }

  /** Some entry at the key was carried through. */
  ghost predicate KeyDone(m: Module, window: int, starts: set<Config>, w: Fields, k: Key) {
    exists run: seq<Config> :: RunDone(m, window, w, run) && KeyOf(run[0]) == k && EntryFrom(m, window, starts, run[0])
  }

  /** The entry at `c` was carried through; where nothing follows, its last stack is left. */
  ghost predicate Carried(m: Module, window: int, w: Fields, c: Config) {
    exists run: seq<Config> :: RunDone(m, window, w, run) && run[0] == c
      && (Ends(m, window, run[|run| - 1]) ==> w.stack == run[|run| - 1].stack)
  }

  /** Every key entered between `v` and `w`, except the given ones, was carried through. */
  ghost predicate NewDone(m: Module, window: int, starts: set<Config>, v: Fields, w: Fields, except: set<Key>) {
    forall k: Key | k in w.visited && k !in v.visited && k !in except :: KeyDone(m, window, starts, w, k)
  }

  lemma StoppedLater(m: Module, window: int, visited: set<Key>, visited': set<Key>, c: Config)
    requires Stopped(m, window, visited, c) && visited <= visited'
    ensures Stopped(m, window, visited', c)
  {
  }

  lemma RunDoneLater(m: Module, window: int, v: Fields, w: Fields, run: seq<Config>)
    requires RunDone(m, window, v, run) && v.visited <= w.visited && w.oow <= v.oow
    ensures RunDone(m, window, w, run)
  {
    StoppedLater(m, window, v.visited, w.visited, run[|run| - 1]);
    forall i: nat | i + 1 < |run| ensures Linked(m, window, w.oow, run[i], run[i + 1]) {
      assert Linked(m, window, v.oow, run[i], run[i + 1]);
    }
  }

  lemma NewDoneTrans(m: Module, window: int, starts: set<Config>, u: Fields, v: Fields, w: Fields, except: set<Key>)
    requires NewDone(m, window, starts, u, v, except) && NewDone(m, window, starts, v, w, {})
    requires v.visited <= w.visited && w.oow <= v.oow
    ensures NewDone(m, window, starts, u, w, except)
  {
    forall k: Key | k in w.visited && k !in u.visited && k !in except ensures KeyDone(m, window, starts, w, k) {
      if k in v.visited {
        var run: seq<Config> :| RunDone(m, window, v, run) && KeyOf(run[0]) == k && EntryFrom(m, window, starts, run[0]);
        RunDoneLater(m, window, v, w, run);
      }
    }
  }

  /** The run of an entry so far. */
  ghost predicate Running(m: Module, window: int, oow: set<Loc>, run: seq<Config>, from: Config, c: Config) {
    && |run| > 0 && run[0] == from && run[|run| - 1] == c
    && (forall i: nat | i + 1 < |run| :: Linked(m, window, oow, run[i], run[i + 1]))
  }

  lemma RunOn(m: Module, window: int, oow: set<Loc>, run: seq<Config>, from: Config, c: Config, oow': set<Loc>, d: Config)
    requires Running(m, window, oow, run, from, c) && oow' <= oow && Linked(m, window, oow', c, d)
    ensures Running(m, window, oow', run + [d], from, d)
  {
    var longer := run + [d];
    forall i: nat | i + 1 < |longer| ensures Linked(m, window, oow', longer[i], longer[i + 1]) {
      if i + 1 < |run| { assert Linked(m, window, oow, run[i], run[i + 1]); }
    }
  }

  lemma RunEnds(m: Module, window: int, starts: set<Config>, oow: set<Loc>, run: seq<Config>, from: Config, c: Config, v: Fields, w: Fields)
    requires Running(m, window, oow, run, from, c) && w.oow <= oow && Stopped(m, window, w.visited, c)
    requires Ends(m, window, c) ==> w.stack == c.stack
    requires NewDone(m, window, starts, v, w, {KeyOf(from)}) && EntryFrom(m, window, starts, from)
    ensures NewDone(m, window, starts, v, w, {}) && Carried(m, window, w, from)
  {
    forall i: nat | i + 1 < |run| ensures Linked(m, window, w.oow, run[i], run[i + 1]) {
      assert Linked(m, window, oow, run[i], run[i + 1]);
    }
    assert RunDone(m, window, w, run);
  }

  // ----- the walk -----

  /** One iteration that stays in the loop. */
  lemma Stay(m: Module, window: int, g: Goal, v: Fields, w: Fields, run: seq<Config>, from: Config, c: Config, w': Fields)
    requires Setting(m, window, g) && Progress(m, window, g, v, w) && Inside(m, window, g, c) && c.step < window && c.stack == w.stack
    requires Running(m, window, w.oow, run, from, c) && Move(m, c).Moved?
    requires w' == w.(oow := if Move(m, c).counts then w.oow - {c.loc} else w.oow, stack := Move(m, c).config.stack)
    ensures Inside(m, window, g, Move(m, c).config) && Earlier(m, Move(m, c).config, c)
    ensures Progress(m, window, g, v, w') && Running(m, window, w'.oow, run + [Move(m, c).config], from, Move(m, c).config)
  {
    var d := Move(m, c).config;
    MoveInside(m, window, g, c);
    InsideSeen(m, window, g, d);
    TakeOut(m, window, g, v, w, c);
    Restack(m, window, g, v, w.(oow := w'.oow), d.stack);
    RunOn(m, window, w.oow, run, from, c, w'.oow, d);
  }

  /** What a recursive call has added completes the run that made it. */
  lemma Leaves(m: Module, window: int, g: Goal, v: Fields, before: Fields, w: Fields, run: seq<Config>, from: Config, c: Config)
    requires Progress(m, window, g, v, before) && before.visited == v.visited + {KeyOf(from)} && Running(m, window, before.oow, run, from, c)
    requires Progress(m, window, g, before, w) && NewDone(m, window, g.starts, before, w, {})
    requires Stopped(m, window, w.visited, c) && !Ends(m, window, c) && EntryFrom(m, window, g.starts, from)
    ensures Progress(m, window, g, v, w) && NewDone(m, window, g.starts, v, w, {}) && Carried(m, window, w, from)
  {
    ProgressTrans(m, window, g, v, before, w);
    NewDoneTrans(m, window, g.starts, v, before, w, {KeyOf(from)});
    RunEnds(m, window, g.starts, before.oow, run, from, c, v, w);
  }

  /**
   The walk from `at`.  It ends on every module; a pruned entry changes nothing, and every other
   one uses up a new key and is carried through; and whatever is taken out is met by a walk
   from the start whose entries had not been made before.
   */
  method Explore(m: Module, window: int, v: Fields, at: Loc, step0: nat, ghost g: Goal) returns (w: Fields, step: nat)
    requires Setting(m, window, g) && g.avoid <= v.visited <= g.keys && Entering(m, window, g, Config(at, step0, v.stack))
    ensures Progress(m, window, g, v, w) && step <= Steps(window)
    ensures (at, step0) in w.visited && NewDone(m, window, g.starts, v, w, {})
    ensures (at, step0) in v.visited ==> w == v
    ensures (at, step0) !in v.visited ==> Carried(m, window, w, Config(at, step0, v.stack))
    decreases |g.keys - v.visited|, 0
  {
    w, step := v, step0;
    ghost var from := Config(at, step0, v.stack);
    if (at, step) in v.visited { return; }
    Shrinks(g.keys, v.visited, (at, step));
    w := w.(visited := w.visited + {(at, step)});
    var inst := at;
    ghost var run := [from];
    while step < window
      invariant Running(m, window, w.oow, run, from, Config(inst, step, w.stack))
      invariant Progress(m, window, g, v, w) && w.visited == v.visited + {KeyOf(from)}
      invariant Inside(m, window, g, Config(inst, step, w.stack))
      decreases window - step, if AtInst(m, inst) then 0 else 1, Len(BlockAt(m, inst)) - inst.pos
    {
      var c := Config(inst, step, w.stack);
      ghost var before := w;
      match Move(m, c)
      case Halt =>
        RunEnds(m, window, g.starts, w.oow, run, from, c, v, w);
        return;
      case Moved(d, counts) =>
        w := w.(oow := if counts then w.oow - {inst} else w.oow, stack := d.stack);
        Stay(m, window, g, v, before, run, from, c, w);
        run := run + [d];
        inst, step := d.loc, d.step;
      case ForkAt(a, b) =>
        ForkNext(m, window, c);
        ForkEntering(m, window, g, c);
        InsideSeen(m, window, g, c);
        w, step := Fork(m, window, w.(stack := a.stack), a, b, g);
        Leaves(m, window, g, v, before, w, run, from, c);
        return;
      case ToCallers =>
        w, step := ExploreCallers(m, window, w, inst, step, g);
        Leaves(m, window, g, v, before, w, run, from, c);
        return;
    }
    RunEnds(m, window, g.starts, w.oow, run, from, Config(inst, step, w.stack), v, w);
  }

  lemma ForkEntering(m: Module, window: int, g: Goal, c: Config)
    requires Setting(m, window, g) && Inside(m, window, g, c) && c.step < window && Move(m, c).ForkAt?
    ensures Entering(m, window, g, Move(m, c).a)
    ensures Move(m, c).a.loc != Move(m, c).b.loc ==> Entering(m, window, g, Move(m, c).b)
  {
    ForkNext(m, window, c);
    NextEntering(m, window, g, c, Move(m, c).a);
    if Move(m, c).a.loc != Move(m, c).b.loc { NextEntering(m, window, g, c, Move(m, c).b); }
  }

  /** Both destinations of an invoke, each with the same call stack. */
  method Fork(m: Module, window: int, v: Fields, a: Config, b: Config, ghost g: Goal) returns (w: Fields, step: nat)
    requires Setting(m, window, g) && g.avoid <= v.visited <= g.keys && v.stack == a.stack == b.stack && b.step <= Steps(window)
    requires Entering(m, window, g, a) && (a.loc != b.loc ==> Entering(m, window, g, b))
    ensures Progress(m, window, g, v, w) && step <= Steps(window) && NewDone(m, window, g.starts, v, w, {})
    ensures KeyOf(a) in w.visited && (a.loc != b.loc ==> KeyOf(b) in w.visited)
    decreases |g.keys - v.visited|, 1
  {
    w, step := Explore(m, window, v, a.loc, a.step, g);
    step := b.step;
    ghost var first := w;
    w := w.(stack := v.stack);
    Restack(m, window, g, v, first, v.stack);
    NewDoneTrans(m, window, g.starts, v, first, w, {});
    if b.loc != a.loc {
      ghost var before := w;
      SubsetSize(g.keys - w.visited, g.keys - v.visited);
      w, step := Explore(m, window, w, b.loc, b.step, g);
      ProgressTrans(m, window, g, v, before, w);
      NewDoneTrans(m, window, g.starts, v, before, w, {});
    }
  }

  /** At the end of a block that nothing follows, with an empty call stack. */
  ghost predicate AtLeave(m: Module, window: int, g: Goal, c: Config) {
    && Inside(m, window, g, c) && c.step < window && c.stack == []
    && !AtInst(m, c.loc) && EndOf(m, BlockAt(m, c.loc)) == Leave
  }

  ghost predicate AtCallers(m: Module, window: int, g: Goal, c: Config) {
    AtLeave(m, window, g, c) && !m.recursive(c.loc.func) && c.loc.func in m.callSites
  }

  lemma SiteOk(m: Module, f: nat, site: Loc)
    requires WellFormed(m) && f in m.callSites && site in m.callSites[f]
    ensures Site(m, site)
  {
  }

  lemma CallerEntering(m: Module, window: int, g: Goal, c: Config, site: Loc, l: Loc)
    requires Setting(m, window, g) && AtCallers(m, window, g, c) && site in m.callSites[c.loc.func]
    requires !m.recursive(site.func) && Site(m, site) && Continues(m, site, l)
    ensures Entering(m, window, g, c.(loc := l))
  {
    assert Next(m, window, c, c.(loc := l));
    NextEntering(m, window, g, c, c.(loc := l));
  }

  /** One caller: behind the call, or at both destinations of the invoke. */
  method ExploreCaller(m: Module, window: int, v: Fields, c: Config, site: Loc, ghost g: Goal) returns (w: Fields)
    requires Setting(m, window, g) && g.avoid <= v.visited <= g.keys && v.stack == [] && AtCallers(m, window, g, c)
    requires site in m.callSites[c.loc.func] && Site(m, site) && !m.recursive(site.func)
    ensures Progress(m, window, g, v, w) && NewDone(m, window, g.starts, v, w, {})
    ensures CallersEntered(m, w.visited, {site}, c.step)
    decreases |g.keys - v.visited|, 2
  {
    var step;
    if AtInvoke(m, site) {
      var t := BlockAt(m, site).term;
      CallerEntering(m, window, g, c, site, Start(site, t.normal));
      CallerEntering(m, window, g, c, site, Start(site, t.unwind));
      w, step := Fork(m, window, v, c.(loc := Start(site, t.normal)), c.(loc := Start(site, t.unwind)), g);
    } else {
      CallerEntering(m, window, g, c, site, After(site));
      w, step := Explore(m, window, v, After(site), c.step, g);
    }
  }

  /** With an empty call stack, the walk goes on behind every call of the function. */
  method ExploreCallers(m: Module, window: int, v: Fields, inst: Loc, step0: nat, ghost g: Goal) returns (w: Fields, step: nat)
    requires Setting(m, window, g) && g.avoid <= v.visited <= g.keys && v.stack == []
    requires AtLeave(m, window, g, Config(inst, step0, []))
    ensures Progress(m, window, g, v, w) && step <= Steps(window) && NewDone(m, window, g.starts, v, w, {})
    ensures !m.recursive(inst.func) && inst.func in m.callSites ==> CallersEntered(m, w.visited, m.callSites[inst.func], step0)
    decreases |g.keys - v.visited|, 3
  {
    w, step := v, step0;
    if m.recursive(inst.func) || inst.func !in m.callSites { return; }
    var c := Config(inst, step0, []);
    var rest := m.callSites[inst.func];
    while rest != {}
      invariant rest <= m.callSites[inst.func] && w.stack == [] && Progress(m, window, g, v, w)
      invariant NewDone(m, window, g.starts, v, w, {}) && CallersEntered(m, w.visited, m.callSites[inst.func] - rest, step0)
      decreases |rest|
    {
      var site :| site in rest;
      rest := rest - {site};
      if !m.recursive(site.func) {
        ghost var before := w;
        SubsetSize(g.keys - w.visited, g.keys - v.visited);
        SiteOk(m, inst.func, site);
        w := ExploreCaller(m, window, w, c, site, g);
        ghost var after := w;
        w := w.(stack := []);
        Restack(m, window, g, before, after, []);
        ProgressTrans(m, window, g, v, before, w);
        NewDoneTrans(m, window, g.starts, before, after, w, {});
        NewDoneTrans(m, window, g.starts, v, before, w, {});
      }
    }
  }
}
