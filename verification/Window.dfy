/**
 The window-bounded walk: from the target of a branch, which instructions can be reached in
 fewer than `window` counted steps, following calls, returns and invokes.  The instructions met
 are taken out of the set of those that lie out of the window.
 */
module Window {
  import opened Options
  import opened FiniteSets

  // ----- modules -----

  datatype Callee = Indirect | Direct(func: nat)

  datatype Inst = Plain | Call(callee: Callee)

  /**
   `cases` are the successors of a switch's cases, without its default.  `Other` covers every
   terminator of at most one successor, `next` being that successor.
   */
  datatype Term =
    | Switch(cases: seq<nat>)
    | Conditional(succs: seq<nat>)
    | Invoke(callee: Callee, normal: nat, unwind: nat)
    | Other(next: Option<nat>)

  datatype Block = Block(insts: seq<Inst>, term: Term)

  /** A declaration may be one of the debug intrinsics, which do not count as steps. */
  datatype Func = Declared(debug: bool) | Defined(blocks: seq<Block>)

  /** Position `|insts|` is the terminator, the one after it the end of the block. */
  datatype Loc = Loc(func: nat, block: nat, pos: nat)

  /** `recursive` is the answer of the recursion analysis, `callSites` the callers' map. */
  datatype Module = Module(funcs: seq<Func>, recursive: nat -> bool, callSites: map<nat, set<Loc>>)

  function Len(b: Block): nat { |b.insts| + 1 }

  predicate InBlock(m: Module, f: nat, b: nat) {
    f < |m.funcs| && m.funcs[f].Defined? && b < |m.funcs[f].blocks|
  }

  function BlockAt(m: Module, l: Loc): Block
    requires InBlock(m, l.func, l.block)
  {
    m.funcs[l.func].blocks[l.block]
  }

  predicate Place(m: Module, l: Loc) { InBlock(m, l.func, l.block) && l.pos <= Len(BlockAt(m, l)) }

  predicate AtInst(m: Module, l: Loc) { Place(m, l) && l.pos < Len(BlockAt(m, l)) }

  /** The callee, when the instruction is a call or an invoke. */
  function CallAt(m: Module, l: Loc): Option<Callee>
    requires AtInst(m, l)
  {
    var b := BlockAt(m, l);
    if l.pos < |b.insts| then (if b.insts[l.pos].Call? then Some(b.insts[l.pos].callee) else None)
    else (if b.term.Invoke? then Some(b.term.callee) else None)
  }

  predicate AtInvoke(m: Module, l: Loc)
    requires AtInst(m, l)
  {
    l.pos == |BlockAt(m, l).insts| && BlockAt(m, l).term.Invoke?
  }

  ghost predicate CalleeOk(m: Module, c: Callee) { c.Direct? ==> c.func < |m.funcs| }

  ghost predicate BlockOk(m: Module, f: Func, b: Block)
    requires f.Defined?
  {
    && (forall i: nat | i < |b.insts| && b.insts[i].Call? :: CalleeOk(m, b.insts[i].callee))
    && match b.term {
      case Invoke(callee, normal, unwind) =>
        && CalleeOk(m, callee) && normal < |f.blocks| && unwind < |f.blocks|
        && (callee.Direct? ==> m.funcs[callee.func] != Declared(true))
      case Other(next) => next.Some? ==> next.value < |f.blocks|
      case Switch(cases) => forall i: nat | i < |cases| :: cases[i] < |f.blocks|
      case Conditional(succs) => forall i: nat | i < |succs| :: succs[i] < |f.blocks|
    }
  }

  /** Bodies are not empty, debug intrinsics are never invoked, and call sites are calls. */
  ghost predicate WellFormed(m: Module) {
    && (forall f: nat | f < |m.funcs| && m.funcs[f].Defined? :: |m.funcs[f].blocks| > 0)
    && (forall f: nat, b: nat {:trigger InBlock(m, f, b)} | InBlock(m, f, b) :: BlockOk(m, m.funcs[f], m.funcs[f].blocks[b]))
    && (forall f: nat, s: Loc | f in m.callSites && s in m.callSites[f] :: Site(m, s))
  }

  ghost predicate Site(m: Module, l: Loc) { AtInst(m, l) && CallAt(m, l).Some? }

  ghost predicate StackOk(m: Module, stack: seq<Loc>) {
    forall i: nat | i < |stack| :: Site(m, stack[i])
  }

  // ----- the moves, as a relation -----

  datatype Config = Config(loc: Loc, step: nat, stack: seq<Loc>)

  datatype Action = EnterCallee(func: nat) | SkipDebug | Count

  function ActionAt(m: Module, l: Loc): Action
    requires AtInst(m, l)
  {
    match CallAt(m, l)
    case Some(Direct(f)) =>
      if f >= |m.funcs| || m.recursive(f) then Count
      else if m.funcs[f].Defined? then EnterCallee(f)
      else if m.funcs[f].debug then SkipDebug
      else Count
    case _ => Count
  }

  function Start(l: Loc, b: nat): Loc { Loc(l.func, b, 0) }

  function After(l: Loc): Loc { l.(pos := l.pos + 1) }

  /** Where a call at `site` continues: behind it, or at either destination of an invoke. */
  ghost predicate Continues(m: Module, site: Loc, l: Loc)
    requires AtInst(m, site)
  {
    if AtInvoke(m, site) then l == Start(site, BlockAt(m, site).term.normal) || l == Start(site, BlockAt(m, site).term.unwind)
    else l == After(site)
  }

  datatype End = Stop | Split(normal: nat, unwind: nat) | Goto(next: nat) | Leave

  /** What the end of a block leads to. */
  function EndOf(m: Module, b: Block): End {
    match b.term
    case Switch(_) => Stop
    case Conditional(_) => Stop
    case Invoke(callee, normal, unwind) =>
      if callee.Indirect? || (callee.func < |m.funcs| && m.funcs[callee.func].Declared?) then Split(normal, unwind) else Leave
    case Other(next) => if next.Some? then Goto(next.value) else Leave
  }

  ghost predicate Next(m: Module, window: int, c: Config, d: Config) {
    && c.step < window && Place(m, c.loc) && StackOk(m, c.stack)
    && if AtInst(m, c.loc) then
        match ActionAt(m, c.loc)
        case EnterCallee(f) => d == Config(Loc(f, 0, 0), c.step + 1, c.stack + [c.loc])
        case SkipDebug => d == c.(loc := After(c.loc))
        case Count => d == Config(After(c.loc), c.step + 1, c.stack)
      else
        match EndOf(m, BlockAt(m, c.loc))
        case Stop => false
        case Split(normal, unwind) => d == Config(Start(c.loc, normal), c.step + 1, c.stack) || (unwind != normal && d == c.(loc := Start(c.loc, unwind)))
        case Goto(next) => d == c.(loc := Start(c.loc, next))
        case Leave =>
          if c.stack != [] then
            var site := c.stack[|c.stack| - 1];
            Continues(m, site, d.loc) && d.step == c.step && d.stack == c.stack[..|c.stack| - 1]
          else
            && !m.recursive(c.loc.func) && c.loc.func in m.callSites && d.step == c.step && d.stack == []
            && exists site: Loc :: site in m.callSites[c.loc.func] && AtInst(m, site) && !m.recursive(site.func) && Continues(m, site, d.loc)
  }

  // ----- the same, told by the instructions -----

  /** The instruction at `l` calls, or the terminator invokes, function `f` by name. */
  ghost predicate CallsByName(m: Module, l: Loc, f: nat) {
    && AtInst(m, l)
    && var b := m.funcs[l.func].blocks[l.block];
    if l.pos < |b.insts| then b.insts[l.pos] == Call(Direct(f)) else b.term.Invoke? && b.term.callee == Direct(f)
  }

  /** A function that the walk enters when it is called, and one that it does not count a call of. */
  ghost predicate Enterable(m: Module, f: nat) { f < |m.funcs| && m.funcs[f].Defined? && !m.recursive(f) }

  ghost predicate DebugOnly(m: Module, f: nat) { f < |m.funcs| && m.funcs[f] == Declared(true) && !m.recursive(f) }

  ghost predicate Enters(m: Module, c: Config, d: Config) {
    exists f: nat :: CallsByName(m, c.loc, f) && Enterable(m, f) && d == Config(Loc(f, 0, 0), c.step + 1, c.stack + [c.loc])
  }

  ghost predicate Skips(m: Module, c: Config, d: Config) {
    && (exists f: nat :: CallsByName(m, c.loc, f) && DebugOnly(m, f))
    && d == Config(Loc(c.loc.func, c.loc.block, c.loc.pos + 1), c.step, c.stack)
  }

  /** A counted instruction: any but those two kinds of calls. */
  ghost predicate Counted(m: Module, l: Loc) {
    AtInst(m, l) && forall f: nat :: CallsByName(m, l, f) ==> !Enterable(m, f) && !DebugOnly(m, f)
  }

  ghost predicate StepsOn(m: Module, c: Config, d: Config) {
    Counted(m, c.loc) && d == Config(Loc(c.loc.func, c.loc.block, c.loc.pos + 1), c.step + 1, c.stack)
  }

  /** Past the terminator of a block that ends in `t`. */
  ghost predicate AtEnd(m: Module, l: Loc, t: Term) {
    && InBlock(m, l.func, l.block) && l.pos == |m.funcs[l.func].blocks[l.block].insts| + 1
    && m.funcs[l.func].blocks[l.block].term == t
  }

  ghost predicate GoesOn(m: Module, c: Config, d: Config) {
    exists next: nat :: AtEnd(m, c.loc, Other(Some(next))) && d == Config(Loc(c.loc.func, next, 0), c.step, c.stack)
  }

  /** The callee of an invoke is unknown, or has no body to enter. */
  ghost predicate NoBody(m: Module, callee: Callee) {
    callee == Indirect || (callee.func < |m.funcs| && m.funcs[callee.func].Declared?)
  }

  ghost predicate Splits(m: Module, c: Config, d: Config) {
    exists callee: Callee, normal: nat, unwind: nat ::
      && AtEnd(m, c.loc, Invoke(callee, normal, unwind)) && NoBody(m, callee)
      && (d == Config(Loc(c.loc.func, normal, 0), c.step + 1, c.stack)
          || (unwind != normal && d == Config(Loc(c.loc.func, unwind, 0), c.step, c.stack)))
  }

  /** The end of a block without a successor to go on to. */
  ghost predicate DeadEnd(m: Module, l: Loc) {
    || AtEnd(m, l, Other(None))
    || (exists callee: Callee, normal: nat, unwind: nat :: AtEnd(m, l, Invoke(callee, normal, unwind)) && !NoBody(m, callee))
  }

  /** Where control goes when the call at `site` returns. */
  ghost predicate Behind(m: Module, site: Loc, l: Loc) {
    && AtInst(m, site)
    && var b := m.funcs[site.func].blocks[site.block];
    if site.pos == |b.insts| && b.term.Invoke? then l == Loc(site.func, b.term.normal, 0) || l == Loc(site.func, b.term.unwind, 0)
    else l == Loc(site.func, site.block, site.pos + 1)
  }

  ghost predicate Returns(m: Module, c: Config, d: Config) {
    && DeadEnd(m, c.loc) && c.stack != [] && Behind(m, c.stack[|c.stack| - 1], d.loc)
    && d.step == c.step && d.stack == c.stack[..|c.stack| - 1]
  }

  ghost predicate Climbs(m: Module, c: Config, d: Config) {
    && DeadEnd(m, c.loc) && c.stack == [] && !m.recursive(c.loc.func) && c.loc.func in m.callSites
    && (exists site: Loc :: site in m.callSites[c.loc.func] && !m.recursive(site.func) && Behind(m, site, d.loc))
    && d.step == c.step && d.stack == []
  }

  /** The moves are exactly these seven. */
  lemma NextIff(m: Module, window: int, c: Config, d: Config)
    ensures Next(m, window, c, d) <==>
      && c.step < window && Place(m, c.loc) && StackOk(m, c.stack)
      && (Enters(m, c, d) || Skips(m, c, d) || StepsOn(m, c, d) || GoesOn(m, c, d) || Splits(m, c, d) || Returns(m, c, d) || Climbs(m, c, d))
  {
    if Place(m, c.loc) && StackOk(m, c.stack) {
      if AtInst(m, c.loc) {
        ActionMeans(m, c.loc);
        assert !DeadEnd(m, c.loc);
      } else {
        EndMeans(m, c, d);
      }
    }
  }

  /** What the walk does at an instruction. */
  lemma ActionMeans(m: Module, l: Loc)
    requires AtInst(m, l)
    ensures forall f: nat :: ActionAt(m, l) == EnterCallee(f) <==> CallsByName(m, l, f) && Enterable(m, f)
    ensures ActionAt(m, l) == SkipDebug <==> exists f: nat :: CallsByName(m, l, f) && DebugOnly(m, f)
    ensures ActionAt(m, l) == Count <==> Counted(m, l)
  {
    var call := CallAt(m, l);
    if call.Some? && call.value.Direct? {
      assert CallsByName(m, l, call.value.func);
    }
  }

  lemma EndMeans(m: Module, c: Config, d: Config)
    requires Place(m, c.loc) && !AtInst(m, c.loc) && StackOk(m, c.stack)
    ensures forall window: int | c.step < window :: Next(m, window, c, d) <==>
      GoesOn(m, c, d) || Splits(m, c, d) || Returns(m, c, d) || Climbs(m, c, d)
  {
    var t := BlockAt(m, c.loc).term;
    assert AtEnd(m, c.loc, t);
    if c.stack != [] { assert Site(m, c.stack[|c.stack| - 1]); }
  }

  // ----- one iteration -----

  /** `counts`: the instruction left behind was a counted one. */
  datatype Outcome =
    | Moved(config: Config, counts: bool)
    | ForkAt(a: Config, b: Config)
    | ToCallers
    | Halt

  /** What one iteration of the loop does at a configuration. */
  function Move(m: Module, c: Config): Outcome
    requires WellFormed(m) && Place(m, c.loc) && StackOk(m, c.stack)
  {
    if AtInst(m, c.loc) then
      match ActionAt(m, c.loc)
      case EnterCallee(f) => Moved(Config(Loc(f, 0, 0), c.step + 1, c.stack + [c.loc]), false)
      case SkipDebug => Moved(c.(loc := After(c.loc)), false)
      case Count => Moved(Config(After(c.loc), c.step + 1, c.stack), true)
    else
      match EndOf(m, BlockAt(m, c.loc))
      case Stop => Halt
      case Split(normal, unwind) => ForkAt(Config(Start(c.loc, normal), c.step + 1, c.stack), c.(loc := Start(c.loc, unwind)))
      case Goto(next) => Moved(c.(loc := Start(c.loc, next)), false)
      case Leave =>
        if c.stack == [] then ToCallers
        else
          var site := c.stack[|c.stack| - 1];
          var popped := c.(stack := c.stack[..|c.stack| - 1]);
          assert Site(m, site);
          if AtInvoke(m, site) then
            var t := BlockAt(m, site).term;
            ForkAt(popped.(loc := Start(site, t.normal)), popped.(loc := Start(site, t.unwind)))
          else
            Moved(popped.(loc := After(site)), false)
  }

  // ----- walks -----

  /** A chain of moves from `start` to `c`. */
  ghost predicate Walk(m: Module, window: int, start: Config, c: Config, path: seq<Config>) {
    && |path| > 0 && path[0] == start && path[|path| - 1] == c
    && (forall i: nat | i + 1 < |path| :: Next(m, window, path[i], path[i + 1]))
  }

  ghost predicate Reachable(m: Module, window: int, start: Config, c: Config) {
    exists path: seq<Config> :: Walk(m, window, start, c, path)
  }

  lemma ReachSelf(m: Module, window: int, start: Config)
    ensures Reachable(m, window, start, start)
  {
    assert Walk(m, window, start, start, [start]);
  }

  lemma WalkOn(m: Module, window: int, start: Config, c: Config, path: seq<Config>, d: Config)
    requires Walk(m, window, start, c, path) && Next(m, window, c, d)
    ensures Walk(m, window, start, d, path + [d])
  {
    var longer := path + [d];
    forall i: nat | i + 1 < |longer| ensures Next(m, window, longer[i], longer[i + 1]) {
      if i + 1 < |path| { assert longer[i] == path[i] && longer[i + 1] == path[i + 1]; }
    }
  }

  lemma ReachNext(m: Module, window: int, start: Config, c: Config, d: Config)
    requires Reachable(m, window, start, c) && Next(m, window, c, d)
    ensures Reachable(m, window, start, d)
  {
    var path: seq<Config> :| Walk(m, window, start, c, path);
    WalkOn(m, window, start, c, path, d);
  }

  /** A property of configurations that every move keeps holds wherever a walk leads. */
  lemma {:induction false} WalkKeeps(m: Module, window: int, holds: Config -> bool, path: seq<Config>, i: nat)
    requires i < |path| && holds(path[0]) && forall j: nat | j + 1 < |path| :: Next(m, window, path[j], path[j + 1])
    requires forall c: Config, d: Config {:trigger Next(m, window, c, d)} :: holds(c) && Next(m, window, c, d) ==> holds(d)
    ensures holds(path[i])
  {
    if i > 0 {
      WalkKeeps(m, window, holds, path, i - 1);
      assert Next(m, window, path[i - 1], path[i - 1 + 1]);
    }
  }

  lemma ReachKeeps(m: Module, window: int, holds: Config -> bool, start: Config, c: Config)
    requires Reachable(m, window, start, c) && holds(start)
    requires forall c: Config, d: Config {:trigger Next(m, window, c, d)} :: holds(c) && Next(m, window, c, d) ==> holds(d)
    ensures holds(c)
  {
    var path: seq<Config> :| Walk(m, window, start, c, path);
    WalkKeeps(m, window, holds, path, |path| - 1);
  }

  /** An instruction that some walk meets in fewer than `window` steps. */
  ghost predicate WithinWindow(m: Module, window: int, start: Config, l: Loc) {
    exists c: Config :: Reachable(m, window, start, c) && c.loc == l && c.step < window
  }

  // ----- entries -----

  type Key = (Loc, nat)

  function KeyOf(c: Config): Key { (c.loc, c.step) }

  /** The loop is left at `c`: what follows is entered by a call of its own. */
  ghost predicate Forks(m: Module, c: Config) {
    WellFormed(m) && Place(m, c.loc) && StackOk(m, c.stack) && !Move(m, c).Moved?
  }

  /** Position `i` of a path is where the walk, or one of its recursive calls, is entered. */
  ghost predicate EntryAt(m: Module, path: seq<Config>, i: nat)
    requires i < |path|
  {
    i == 0 || Forks(m, path[i - 1])
  }

  /** No entry on the path has one of these keys. */
  ghost predicate Avoids(m: Module, avoid: set<Key>, path: seq<Config>) {
    forall i: nat {:trigger EntryAt(m, path, i)} | i < |path| && EntryAt(m, path, i) :: KeyOf(path[i]) !in avoid
  }

  ghost predicate ReachableAvoiding(m: Module, window: int, avoid: set<Key>, start: Config, c: Config) {
    exists path: seq<Config> :: Walk(m, window, start, c, path) && Avoids(m, avoid, path)
  }

  lemma AvoidingReaches(m: Module, window: int, avoid: set<Key>, start: Config, c: Config)
    requires ReachableAvoiding(m, window, avoid, start, c)
    ensures Reachable(m, window, start, c)
  {
  }

  lemma AvoidSelf(m: Module, window: int, avoid: set<Key>, start: Config)
    requires KeyOf(start) !in avoid
    ensures ReachableAvoiding(m, window, avoid, start, start)
  {
    assert Walk(m, window, start, start, [start]) && Avoids(m, avoid, [start]);
  }

  lemma AvoidNext(m: Module, window: int, avoid: set<Key>, start: Config, c: Config, d: Config)
    requires ReachableAvoiding(m, window, avoid, start, c) && Next(m, window, c, d)
    requires Forks(m, c) ==> KeyOf(d) !in avoid
    ensures ReachableAvoiding(m, window, avoid, start, d)
  {
    var path: seq<Config> :| Walk(m, window, start, c, path) && Avoids(m, avoid, path);
    var longer := path + [d];
    WalkOn(m, window, start, c, path, d);
    forall i: nat | i < |longer| && EntryAt(m, longer, i) ensures KeyOf(longer[i]) !in avoid {
      if i < |path| { assert EntryAt(m, path, i); }
    }
    assert Avoids(m, avoid, longer);
  }

  /** `c` is one of the starts, or an entry that a walk from one of them leads to. */
  ghost predicate EntryFrom(m: Module, window: int, starts: set<Config>, c: Config) {
    c in starts || exists start: Config, e: Config :: start in starts && Reachable(m, window, start, e) && Forks(m, e) && Next(m, window, e, c)
  }

  /** Instructions are only taken out, and only such that a walk avoiding the given keys meets. */
  ghost predicate Justified(m: Module, window: int, avoid: set<Key>, start: Config, before: set<Loc>, after: set<Loc>) {
    after <= before && forall l: Loc | l in before && l !in after :: Met(m, window, avoid, start, l)
  }

  ghost predicate Met(m: Module, window: int, avoid: set<Key>, start: Config, l: Loc) {
    exists c: Config :: ReachableAvoiding(m, window, avoid, start, c) && c.loc == l && c.step < window
  }

  // ----- finitely many keys -----

  ghost function BlockLocs(m: Module, f: nat, b: nat): (r: set<Loc>)
    requires InBlock(m, f, b)
    ensures forall l: Loc {:trigger l in r} :: l in r <==> l.func == f && l.block == b && l.pos < Len(m.funcs[f].blocks[b])
  {
    var r := set i | i in UpTo(Len(m.funcs[f].blocks[b])) :: Loc(f, b, i);
    assert forall l: Loc | l.func == f && l.block == b && l.pos < Len(m.funcs[f].blocks[b]) :: l == Loc(f, b, l.pos);
    r
  }

  ghost function FuncLocs(m: Module, f: nat, n: nat): (r: set<Loc>)
    requires f < |m.funcs| && m.funcs[f].Defined? && n <= |m.funcs[f].blocks|
    ensures forall l: Loc {:trigger l in r} :: l in r <==> l.func == f && l.block < n && AtInst(m, l)
  {
    if n == 0 then {} else FuncLocs(m, f, n - 1) + BlockLocs(m, f, n - 1)
  }

  /** All instructions of the first `n` functions. */
  ghost function Locs(m: Module, n: nat): (r: set<Loc>)
    requires n <= |m.funcs|
    ensures forall l: Loc {:trigger l in r} :: l in r <==> l.func < n && AtInst(m, l)
  {
    if n == 0 then {}
    else Locs(m, n - 1) + if m.funcs[n - 1].Defined? then FuncLocs(m, n - 1, |m.funcs[n - 1].blocks|) else {}
  }

  function Steps(window: int): nat { if window < 0 then 0 else window }

  ghost function Keys(m: Module, window: int): (r: set<Key>)
    ensures forall k: Key {:trigger k in r} :: k in r <==> AtInst(m, k.0) && k.1 <= Steps(window)
  {
    var locs, steps := Locs(m, |m.funcs|), UpTo(Steps(window) + 1);
    var r := set l, s | l in locs && s in steps :: (l, s);
    assert forall k: Key | AtInst(m, k.0) && k.1 <= Steps(window) :: k == (k.0, k.1) && k.0 in locs && k.1 in steps;
    r
  }

  // ----- places the walk goes to are places -----

  lemma TermOk(m: Module, l: Loc)
    requires WellFormed(m) && Place(m, l)
    ensures BlockOk(m, m.funcs[l.func], BlockAt(m, l))
  {
    assert InBlock(m, l.func, l.block);
  }

  lemma ContinuesOk(m: Module, site: Loc, l: Loc)
    requires WellFormed(m) && Site(m, site) && Continues(m, site, l)
    ensures AtInst(m, l)
  {
    TermOk(m, site);
  }

  /** A debug call is not the terminator, so an instruction follows it. */
  lemma DebugNotLast(m: Module, l: Loc)
    requires WellFormed(m) && AtInst(m, l) && ActionAt(m, l) == SkipDebug
    ensures AtInst(m, After(l))
  {
    TermOk(m, l);
  }

  lemma EnterOk(m: Module, l: Loc)
    requires WellFormed(m) && AtInst(m, l) && ActionAt(m, l).EnterCallee?
    ensures AtInst(m, Loc(ActionAt(m, l).func, 0, 0)) && Site(m, l)
  {
  }

  /** A move brings the next counted instruction nearer: no measure on the call stack is needed. */
  ghost predicate Earlier(m: Module, d: Config, c: Config)
    requires Place(m, d.loc) && Place(m, c.loc)
  {
    || d.step > c.step
    || (d.step == c.step && AtInst(m, d.loc) && !AtInst(m, c.loc))
    || (d.step == c.step && AtInst(m, d.loc) && AtInst(m, c.loc) && Len(BlockAt(m, d.loc)) - d.loc.pos < Len(BlockAt(m, c.loc)) - c.loc.pos)
  }

  /** Every move leads to a place, with calls on the stack, and is progress. */
  lemma NextEarlier(m: Module, window: int, c: Config, d: Config)
    requires WellFormed(m) && Next(m, window, c, d)
    ensures Place(m, d.loc) && StackOk(m, d.stack) && d.step <= window && Earlier(m, d, c)
    ensures Forks(m, c) ==> AtInst(m, d.loc)
  {
    TermOk(m, c.loc);
    if AtInst(m, c.loc) {
      match ActionAt(m, c.loc) {
        case EnterCallee(f) => EnterOk(m, c.loc);
        case SkipDebug => DebugNotLast(m, c.loc);
        case Count =>
      }
    } else if EndOf(m, BlockAt(m, c.loc)) == Leave {
      LeaveOk(m, window, c, d);
    }
  }

  lemma LeaveOk(m: Module, window: int, c: Config, d: Config)
    requires WellFormed(m) && Next(m, window, c, d) && !AtInst(m, c.loc) && EndOf(m, BlockAt(m, c.loc)) == Leave
    ensures AtInst(m, d.loc) && StackOk(m, d.stack)
  {
    if c.stack != [] {
      assert Site(m, c.stack[|c.stack| - 1]);
      ContinuesOk(m, c.stack[|c.stack| - 1], d.loc);
    } else {
      var site: Loc :| site in m.callSites[c.loc.func] && AtInst(m, site) && !m.recursive(site.func) && Continues(m, site, d.loc);
      ContinuesOk(m, site, d.loc);
    }
  }

  /** Where the loop goes on, the move is the only one. */
  lemma NextMoved(m: Module, window: int, c: Config, d: Config)
    requires WellFormed(m) && Next(m, window, c, d) && Move(m, c).Moved?
    ensures d == Move(m, c).config
  {
  }

  lemma MovedNext(m: Module, window: int, c: Config)
    requires WellFormed(m) && Place(m, c.loc) && StackOk(m, c.stack) && c.step < window && Move(m, c).Moved?
    ensures Next(m, window, c, Move(m, c).config)
  {
    if !AtInst(m, c.loc) && EndOf(m, BlockAt(m, c.loc)) == Leave { assert Site(m, c.stack[|c.stack| - 1]); }
  }

  lemma ForkNext(m: Module, window: int, c: Config)
    requires WellFormed(m) && Place(m, c.loc) && StackOk(m, c.stack) && c.step < window && Move(m, c).ForkAt?
    ensures Next(m, window, c, Move(m, c).a) && Move(m, c).a.stack == Move(m, c).b.stack
    ensures Move(m, c).a.loc != Move(m, c).b.loc ==> Next(m, window, c, Move(m, c).b)
    ensures Forks(m, c) && AtInst(m, Move(m, c).b.loc) && Move(m, c).b.step <= window
  {
    TermOk(m, c.loc);
    if EndOf(m, BlockAt(m, c.loc)) == Leave {
      var site := c.stack[|c.stack| - 1];
      assert Site(m, site);
      TermOk(m, site);
    }
  }
}
