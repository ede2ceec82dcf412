/**
 The forward dataflow solver: a work list of blocks inside each function, with a recursive
 solution of callees in a new calling context.

 Transfer functions, meets and the comparison of abstract states are arbitrary (`Policy`): the
 solver must end for every choice of them, since it stops by budgets and not because the states
 settle.
 */
module Dataflow {
  import opened FiniteSets

  // ----- the work list -----

  /**
   A queue with a set of elements not to be queued again.  `Add` does not enter its element
   into that set, so only the elements of the constructor are kept from being doubled.
   */
  class WorkList<T(==)> {
    var inList: set<T>
    var work: seq<T>

    constructor (elts: seq<T>)
      ensures work == elts && inList == set x | x in elts
    {
      inList := set x | x in elts;
      work := elts;
    }

    predicate Empty()
      reads this
    {
      work == []
    }

    method Add(elt: T)
      modifies this
      ensures inList == old(inList)
      ensures work == if elt in old(inList) then old(work) else old(work) + [elt]
    {
      if elt !in inList {
        work := work + [elt];
      }
    }

    method Take() returns (front: T)
      requires !Empty()
      modifies this
      ensures old(work) == [front] + work && inList == old(inList) - {front}
    {
      front := work[0];
      work := work[1..];
      inList := inList - {front};
    }
  }

  /** A block added twice waits twice: the set of listed elements does not hear of it. */
  method QueuedTwice<T>(x: T) returns (list: WorkList<T>)
    ensures fresh(list) && list.work == [x, x] && list.inList == {}
  {
    list := new WorkList([]);
    list.Add(x);
    list.Add(x);
  }

  // ----- programs -----

  /** A call site with a body to analyze, or any other instruction. */
  datatype Instr = Plain | Call(site: nat, callee: nat)

  /** `rpo` is the reverse post-order of the reachable blocks. */
  datatype Func = Func(rpo: seq<nat>, succs: seq<seq<nat>>, body: seq<seq<Instr>>)

  datatype Program = Program(funcs: seq<Func>, sites: nat)

  /** The last call sites on the way to a function; `None` where there was no call. */
  datatype Site = None | At(site: nat)
  type Context = seq<Site>
  datatype Pair = Pair(context: Context, func: nat)

  ghost predicate FuncOk(p: Program, f: Func) {
    && |f.succs| == |f.body|
    && (forall i: nat | i < |f.rpo| :: f.rpo[i] < |f.body|)
    && (forall i: nat, j: nat | i < j < |f.rpo| :: f.rpo[i] != f.rpo[j])
    && (forall b: nat, s: nat | b < |f.succs| && s in f.succs[b] :: s < |f.body|)
    && (forall b: nat, i: nat | b < |f.body| && i < |f.body[b]| && f.body[b][i].Call? ::
          f.body[b][i].site < p.sites && f.body[b][i].callee < |p.funcs|)
  }

  ghost predicate WellFormed(p: Program) {
    forall f: nat | f < |p.funcs| :: FuncOk(p, p.funcs[f])
  }

  // ----- the finitely many contexts -----

  ghost function Sites(n: nat): (r: set<Site>)
    ensures forall s: Site :: s in r <==> s == None || s.site < n
  {
    var r := {None} + set i: nat | 0 <= i < n :: At(i);
    assert forall s: Site | s.At? && s.site < n :: s == At(s.site) && s in r;
    r
  }

  ghost function Contexts(p: Program, k: nat): (r: set<Context>)
    ensures forall c: Context :: c in r <==> |c| == k && forall i: nat | i < k :: c[i] in Sites(p.sites)
  {
    if k == 0 then {[]}
    else
      var shorter := Contexts(p, k - 1);
      var sites := Sites(p.sites);
      var r := set c, s | c in shorter && s in sites :: c + [s];
      ContextsStep(p, k, shorter, r);
      r
  }

  lemma ContextsStep(p: Program, k: nat, shorter: set<Context>, r: set<Context>)
    requires k > 0
    requires forall c: Context :: c in shorter <==> |c| == k - 1 && forall i: nat | i < k - 1 :: c[i] in Sites(p.sites)
    requires r == set c, s | c in shorter && s in Sites(p.sites) :: c + [s]
    ensures forall c: Context :: c in r <==> |c| == k && forall i: nat | i < k :: c[i] in Sites(p.sites)
  {
    forall c: Context | |c| == k && forall i: nat | i < k :: c[i] in Sites(p.sites)
      ensures c in r
    {
      assert c[..k - 1] in shorter && c[k - 1] in Sites(p.sites) && c == c[..k - 1] + [c[k - 1]];
    }
  }

  /** Every pair an analysis with contexts of length `k` can meet. */
  ghost function Pairs(p: Program, k: nat): (r: set<Pair>)
    ensures forall c: Pair :: c in r <==> c.context in Contexts(p, k) && c.func < |p.funcs|
  {
    set c, f | c in Contexts(p, k) && 0 <= f < |p.funcs| :: Pair(c, f)
  }

  /** The context of a callee: the oldest site is dropped and the call added. */
  function Extend(c: Context, site: nat): Context {
    if |c| == 0 then [] else c[1..] + [At(site)]
  }

  /** The context after a sequence of calls. */
  ghost function AfterCalls(c: Context, sites: seq<nat>): Context {
    if sites == [] then c else Extend(AfterCalls(c, sites[..|sites| - 1]), sites[|sites| - 1])
  }

  function Ats(sites: seq<nat>): seq<Site> { seq(|sites|, i requires 0 <= i < |sites| => At(sites[i])) }

  lemma ExtendDrops(all: Context, n: nat, site: nat)
    requires n <= |all|
    ensures Extend(all[n..], site) == (all + [At(site)])[n + 1..]
  {
  }

  lemma AtsSnoc(c: Context, init: seq<nat>, last: nat, sites: seq<nat>)
    requires sites == init + [last]
    ensures c + Ats(init) + [At(last)] == c + Ats(sites)
  {
  }

  lemma NoSites(c: Context)
    ensures (c + Ats([]))[0..] == c
  {
  }

  /** It holds the last call sites, as many as it is long, the latest one last. */
  lemma {:induction false} LastSites(c: Context, sites: seq<nat>)
    ensures AfterCalls(c, sites) == (c + Ats(sites))[|sites|..]
  {
    if sites != [] {
      var init, last := sites[..|sites| - 1], sites[|sites| - 1];
      LastSites(c, init);
      ExtendDrops(c + Ats(init), |init|, last);
      AtsSnoc(c, init, last, sites);
    } else {
      NoSites(c);
    }
  }

  lemma ExtendInside(p: Program, k: nat, c: Context, site: nat)
    requires c in Contexts(p, k) && site < p.sites
    ensures Extend(c, site) in Contexts(p, k)
  {
  }

  /** Where a call from `from` leads. */
  function CalleePair(from: Pair, site: nat, callee: nat): (r: Pair)
    ensures r.func == callee && r.context == (from.context + [At(site)])[1..]
  {
    Pair(Extend(from.context, site), callee)
  }

  /** A finite set of pairs that calls do not leave. */
  ghost predicate Closed(p: Program, all: set<Pair>) {
    && (forall c: Pair | c in all :: c.func < |p.funcs|)
    && (forall c: Pair, site: nat, callee: nat {:trigger CalleePair(c, site, callee)} ::
          c in all && site < p.sites && callee < |p.funcs| ==> CalleePair(c, site, callee) in all)
  }

  lemma PairsClosed(p: Program, k: nat)
    ensures Closed(p, Pairs(p, k))
  {
    forall c: Pair, site: nat, callee: nat | c in Pairs(p, k) && site < p.sites && callee < |p.funcs|
      ensures CalleePair(c, site, callee) in Pairs(p, k)
    {
      ExtendInside(p, k, c.context, site);
    }
  }

  // ----- what the analysis plugs in -----

  /** `S` is the store of all results, `L` the abstract state being pushed through a block. */
  datatype Policy<!S, !L> = Policy(
    merge: (S, Pair, nat) -> L,
    seen: (S, Pair, nat, L) -> bool,
    saveEntry: (S, Pair, nat, L) -> S,
    transfer: (S, Pair, nat, nat, L) -> (S, L),
    passArguments: (S, Pair, Pair, nat, L) -> (S, L, bool),
    takeResult: (S, Pair, Pair, nat, L) -> (S, L),
    record: (S, Pair, nat, nat, L) -> S,
    exit: (S, Pair, nat) -> L,
    same: (L, L) -> bool,
    leave: (S, Pair, nat, L) -> S)

  // ----- budgets -----

  const LIMIT: nat := 100

  ghost function Sum(s: seq<nat>): nat {
    if s == [] then 0 else s[0] + Sum(s[1..])
  }

  lemma {:induction false} SumUpdate(s: seq<nat>, i: nat)
    requires i < |s|
    ensures Sum(s[i := s[i] + 1]) == Sum(s) + 1
  {
    if i > 0 {
      assert s[i := s[i] + 1][1..] == s[1..][i - 1 := s[1..][i - 1] + 1];
      SumUpdate(s[1..], i - 1);
    } else {
      assert s[i := s[i] + 1][1..] == s[1..];
    }
  }

  lemma {:induction false} SumBound(s: seq<nat>, bound: nat)
    requires forall i: nat | i < |s| :: s[i] <= bound
    ensures Sum(s) <= bound * |s|
  {
    if s != [] { SumBound(s[1..], bound); }
  }

  ghost predicate AllZero(s: seq<nat>) { forall i: nat | i < |s| :: s[i] == 0 }

  lemma {:induction false} SumZero(s: seq<nat>)
    requires AllZero(s)
    ensures Sum(s) == 0
  {
    if s != [] { SumZero(s[1..]); }
  }

  /** What is left of the budgets of all blocks. */
  ghost function Left(counts: seq<nat>): int { (LIMIT + 1) * |counts| - Sum(counts) }

  ghost predicate WithinLimit(counts: seq<nat>) {
    forall i: nat | i < |counts| :: counts[i] <= LIMIT + 1
  }

  /** Blocks taken so far and blocks waiting, against the order they started from. */
  ghost predicate Accounted(rpo: seq<nat>, counts: seq<nat>, taken: seq<nat>, work: seq<nat>) {
    && rpo <= taken + work
    && |taken + work| <= |rpo| + Sum(counts)
    && (forall b: nat | b < |counts| :: multiset(taken + work)[b] <= multiset(rpo)[b] + counts[b])
    && (forall b: nat | b in work :: b < |counts|)
    && WithinLimit(counts)
  }

  lemma AccountedStart(rpo: seq<nat>, counts: seq<nat>)
    requires AllZero(counts) && forall i: nat | i < |rpo| :: rpo[i] < |counts|
    ensures Accounted(rpo, counts, [], rpo) && Left(counts) >= 0
  {
    SumZero(counts);
    assert [] + rpo == rpo;
  }

  lemma AccountedTake(rpo: seq<nat>, counts: seq<nat>, taken: seq<nat>, b: nat, work: seq<nat>)
    requires Accounted(rpo, counts, taken, [b] + work)
    ensures Accounted(rpo, counts, taken + [b], work) && b < |counts|
  {
    assert taken + ([b] + work) == (taken + [b]) + work;
    assert b in [b] + work;
    forall c: nat | c in work ensures c < |counts| { assert c in [b] + work; }
  }

  lemma CountsAdd(rpo: seq<nat>, counts: seq<nat>, queue: seq<nat>, s: nat, queue': seq<nat>)
    requires forall b: nat | b < |counts| :: multiset(queue)[b] <= multiset(rpo)[b] + counts[b]
    requires s < |counts| && (queue' == queue || queue' == queue + [s])
    ensures forall b: nat | b < |counts| :: multiset(queue')[b] <= multiset(rpo)[b] + counts[s := counts[s] + 1][b]
  {
    if queue' == queue + [s] { assert multiset(queue') == multiset(queue) + multiset{s}; }
  }

  lemma QueueAdd(rpo: seq<nat>, n: nat, taken: seq<nat>, work: seq<nat>, s: nat)
    requires rpo <= taken + work && s < n && forall b: nat | b in work :: b < n
    ensures taken + (work + [s]) == (taken + work) + [s]
    ensures rpo <= taken + (work + [s]) && forall b: nat | b in work + [s] :: b < n
  {
  }

  lemma LimitAdd(counts: seq<nat>, s: nat)
    requires WithinLimit(counts) && s < |counts| && counts[s] <= LIMIT
    ensures WithinLimit(counts[s := counts[s] + 1])
    ensures Left(counts[s := counts[s] + 1]) == Left(counts) - 1
  {
    SumUpdate(counts, s);
  }

  /** Queuing a successor costs one unit of its budget, whether or not it was queued. */
  lemma AccountedAdd(rpo: seq<nat>, counts: seq<nat>, taken: seq<nat>, work: seq<nat>, s: nat, work': seq<nat>)
    requires Accounted(rpo, counts, taken, work) && s < |counts| && counts[s] <= LIMIT
    requires work' == work || work' == work + [s]
    ensures Accounted(rpo, counts[s := counts[s] + 1], taken, work')
    ensures Left(counts[s := counts[s] + 1]) == Left(counts) - 1
  {
    SumUpdate(counts, s);
    LimitAdd(counts, s);
    QueueAdd(rpo, |counts|, taken, work, s);
    CountsAdd(rpo, counts, taken + work, s, taken + work');
  }

  lemma LeftNonNegative(counts: seq<nat>)
    requires WithinLimit(counts)
    ensures Left(counts) >= 0
  {
    SumBound(counts, LIMIT + 1);
  }

  /** Every reachable block is processed, in order first, none more than 102 times. */
  ghost predicate Processed(rpo: seq<nat>, blocks: nat, taken: seq<nat>) {
    && rpo <= taken
    && |taken| <= |rpo| + 101 * blocks
    && (forall b: nat | b < blocks :: multiset(taken)[b] <= 102)
  }

  lemma {:induction false} DistinctOnce(s: seq<nat>, b: nat)
    requires forall i: nat, j: nat | i < j < |s| :: s[i] != s[j]
    ensures multiset(s)[b] <= 1
  {
    if s != [] {
      DistinctOnce(s[1..], b);
      assert s == [s[0]] + s[1..];
      assert b == s[0] ==> b !in s[1..];
    }
  }

  lemma AccountedEnd(p: Program, f: Func, counts: seq<nat>, taken: seq<nat>)
    requires FuncOk(p, f) && |counts| == |f.body| && Accounted(f.rpo, counts, taken, [])
    ensures Processed(f.rpo, |f.body|, taken)
  {
    assert taken + [] == taken;
    SumBound(counts, LIMIT + 1);
    forall b: nat | b < |f.body| ensures multiset(taken)[b] <= LIMIT + 2 {
      DistinctOnce(f.rpo, b);
    }
  }

  // ----- no update is lost -----

  /** Visit `i` changed the exit state of its block, and `s` follows that block. */
  ghost predicate Updates(f: Func, taken: seq<nat>, changes: seq<bool>, i: nat, s: nat) {
    && i < |taken| && i < |changes| && changes[i]
    && taken[i] < |f.succs| && s in f.succs[taken[i]]
  }

  ghost predicate TakenAfter(taken: seq<nat>, i: nat, s: nat) { exists j: nat :: i < j < |taken| && taken[j] == s }

  /** Every successor of a changed block is taken again later, or waits. */
  ghost predicate FollowedUp(f: Func, taken: seq<nat>, changes: seq<bool>, work: seq<nat>) {
    forall i: nat, s: nat {:trigger Updates(f, taken, changes, i, s)} ::
      Updates(f, taken, changes, i, s) ==> TakenAfter(taken, i, s) || s in work
  }

  /** How often the changed blocks have asked for `s`. */
  ghost function Requests(f: Func, taken: seq<nat>, changes: seq<bool>, s: nat): nat
    requires |taken| == |changes|
    decreases |taken|
  {
    if taken == [] then 0
    else
      var k := |taken| - 1;
      Requests(f, taken[..k], changes[..k], s)
      + if changes[k] && taken[k] < |f.succs| then multiset(f.succs[taken[k]])[s] else 0
  }

  /** Some block has been asked for more often than its budget allows. */
  ghost predicate Spent(f: Func, taken: seq<nat>, changes: seq<bool>)
    requires |taken| == |changes|
  {
    exists s: nat :: Requests(f, taken, changes, s) > 100
  }

  /** The budgets used are at most what was asked for, and as long as they last every update is followed up. */
  ghost predicate Tracked(f: Func, taken: seq<nat>, changes: seq<bool>, counts: seq<nat>, work: seq<nat>) {
    && |taken| == |changes|
    && (forall s: nat | s < |counts| :: counts[s] <= Requests(f, taken, changes, s))
    && (Spent(f, taken, changes) || FollowedUp(f, taken, changes, work))
  }

  lemma RequestsSnoc(f: Func, taken: seq<nat>, changes: seq<bool>, b: nat, c: bool, s: nat)
    requires |taken| == |changes|
    ensures Requests(f, taken + [b], changes + [c], s)
            == Requests(f, taken, changes, s) + if c && b < |f.succs| then multiset(f.succs[b])[s] else 0
  {
    assert (taken + [b])[..|taken|] == taken && (changes + [c])[..|taken|] == changes;
  }

  lemma SpentSnoc(f: Func, taken: seq<nat>, changes: seq<bool>, b: nat, c: bool)
    requires |taken| == |changes| && Spent(f, taken, changes)
    ensures Spent(f, taken + [b], changes + [c])
  {
    var s: nat :| Requests(f, taken, changes, s) > LIMIT;
    RequestsSnoc(f, taken, changes, b, c, s);
  }

  lemma FollowedUpSnoc(f: Func, taken: seq<nat>, changes: seq<bool>, b: nat, c: bool, work: seq<nat>, work': seq<nat>)
    requires |taken| == |changes| && FollowedUp(f, taken, changes, [b] + work) && work <= work'
    requires c && b < |f.succs| ==> forall s: nat | s in f.succs[b] :: s in work'
    ensures FollowedUp(f, taken + [b], changes + [c], work')
  {
    var taken', changes' := taken + [b], changes + [c];
    forall i: nat, s: nat | Updates(f, taken', changes', i, s) ensures TakenAfter(taken', i, s) || s in work' {
      if i < |taken| {
        assert Updates(f, taken, changes, i, s);
        if TakenAfter(taken, i, s) {
          var j: nat :| i < j < |taken| && taken[j] == s;
          assert taken'[j] == s;
        } else if s == b {
          assert taken'[|taken|] == s;
        } else {
          var k: nat :| k < |[b] + work| && ([b] + work)[k] == s;
          assert work'[k - 1] == s;
        }
      }
    }
  }

  /** A visit that changes nothing asks for nothing. */
  lemma TrackedSame(f: Func, taken: seq<nat>, changes: seq<bool>, counts: seq<nat>, b: nat, work: seq<nat>)
    requires Tracked(f, taken, changes, counts, [b] + work)
    ensures Tracked(f, taken + [b], changes + [false], counts, work)
  {
    forall s: nat | s < |counts| ensures counts[s] <= Requests(f, taken + [b], changes + [false], s) {
      RequestsSnoc(f, taken, changes, b, false, s);
    }
    if Spent(f, taken, changes) {
      SpentSnoc(f, taken, changes, b, false);
    } else {
      FollowedUpSnoc(f, taken, changes, b, false, work, work);
    }
  }

  /** The budgets after the successors of a block have been queued. */
  ghost predicate CountedUp(succs: seq<nat>, counts0: seq<nat>, counts: seq<nat>) {
    |counts| == |counts0| && forall s: nat | s < |counts| :: counts[s] <= counts0[s] + multiset(succs)[s]
  }

  /** A visit that changes the exit asks for all successors. */
  lemma TrackedMore(f: Func, taken: seq<nat>, changes: seq<bool>, counts0: seq<nat>, counts: seq<nat>, b: nat,
                    work: seq<nat>, work': seq<nat>)
    requires Tracked(f, taken, changes, counts0, [b] + work) && b < |f.succs| && work <= work'
    requires CountedUp(f.succs[b], counts0, counts)
    requires (forall s: nat | s in f.succs[b] :: s in work') || (exists s: nat :: s < |counts| && counts[s] > LIMIT)
    ensures Tracked(f, taken + [b], changes + [true], counts, work')
  {
    forall s: nat | s < |counts| ensures counts[s] <= Requests(f, taken + [b], changes + [true], s) {
      RequestsSnoc(f, taken, changes, b, true, s);
    }
    if Spent(f, taken, changes) {
      SpentSnoc(f, taken, changes, b, true);
    } else if s: nat :| s < |counts| && counts[s] > LIMIT {
      assert Requests(f, taken + [b], changes + [true], s) > LIMIT;
    } else {
      FollowedUpSnoc(f, taken, changes, b, true, work, work');
    }
  }

  // ----- one visit of a block -----

  /** What a visit did: the stores before and after it, the store and the state around each instruction,
      and what became of the callee of each. */
  datatype Visit<S, L> = Visit(block: nat, changed: bool, before: S, after: S, points: seq<(S, L)>, inner: seq<Inner<S, L>>)

  /** Nothing was solved at the instruction, or the callee was, by these visits. */
  datatype Inner<S, L> = Nothing(mid: S) | Callee(mid: S, history: History<S, L>)

  datatype History<S, L> = History(visits: seq<Visit<S, L>>)

  function Blocks<S, L>(h: History<S, L>): (r: seq<nat>) { seq(|h.visits|, i requires 0 <= i < |h.visits| => h.visits[i].block) }

  function Changes<S, L>(h: History<S, L>): (r: seq<bool>) { seq(|h.visits|, i requires 0 <= i < |h.visits| => h.visits[i].changed) }

  function Longer<S, L>(h: History<S, L>, v: Visit<S, L>): History<S, L> { History(h.visits + [v]) }

  /**
   A call that finds store `s` and state `l`: the callee is solved, from the store with the arguments on,
   exactly when that pair is not being solved already and needs it; `mid` is the store when it is done.
   */
  ghost predicate CalleeDone<S, L>(prog: Program, policy: Policy<S, L>, active: set<Pair>, pair: Pair, site: nat, callee: nat,
                                   s: S, l: L, inner: Inner<S, L>)
    decreases inner, 1
  {
    var toCall := CalleePair(pair, site, callee);
    var (s1, _, needsUpdate) := policy.passArguments(s, pair, toCall, site, l);
    if toCall !in active && needsUpdate then inner.Callee? && Solved(prog, policy, active + {toCall}, toCall, inner.history, s1, inner.mid)
    else inner == Nothing(s1)
  }

  /** The store and the state behind the call. */
  ghost function AfterCall<S, L>(policy: Policy<S, L>, pair: Pair, site: nat, callee: nat, s: S, l: L, mid: S): (S, L) {
    var toCall := CalleePair(pair, site, callee);
    policy.takeResult(mid, pair, toCall, site, policy.passArguments(s, pair, toCall, site, l).1)
  }

  /** Instruction `i` takes one point to the next. */
  ghost predicate InstrOk<S, L>(prog: Program, policy: Policy<S, L>, active: set<Pair>, pair: Pair, bb: nat, i: nat,
                                p: (S, L), inner: Inner<S, L>, q: (S, L))
    requires pair.func < |prog.funcs| && bb < |prog.funcs[pair.func].body| && i < |prog.funcs[pair.func].body[bb]|
    decreases inner, 2
  {
    match prog.funcs[pair.func].body[bb][i]
    case Plain =>
      var (s, l) := policy.transfer(p.0, pair, bb, i, p.1);
      q == (policy.record(s, pair, bb, i, l), l)
    case Call(site, callee) =>
      var (s, l) := AfterCall(policy, pair, site, callee, p.0, p.1, inner.mid);
      CalleeDone(prog, policy, active, pair, site, callee, p.0, p.1, inner) && q == (policy.record(s, pair, bb, i, l), l)
  }

  /**
   One visit: nothing at all when the entry state was seen before; otherwise the merged state is saved
   and pushed through every instruction, the exit is left when it differs from the old one, and that
   is when the visit has changed something.
   */
  ghost predicate VisitOk<S, L>(prog: Program, policy: Policy<S, L>, active: set<Pair>, pair: Pair, v: Visit<S, L>)
    decreases v, 0
  {
    && pair.func < |prog.funcs| && v.block < |prog.funcs[pair.func].body|
    && var n := |prog.funcs[pair.func].body[v.block]|;
    var entry := policy.merge(v.before, pair, v.block);
    if policy.seen(v.before, pair, v.block, entry) then !v.changed && v.after == v.before
    else
      && |v.points| == n + 1 && |v.inner| == n
      && v.points[0] == (policy.saveEntry(v.before, pair, v.block, entry), entry)
      && (forall i: nat {:trigger v.inner[i]} | i < n :: InstrOk(prog, policy, active, pair, v.block, i, v.points[i], v.inner[i], v.points[i + 1]))
      && var (s, l) := v.points[n];
      && v.changed == !policy.same(l, policy.exit(v.before, pair, v.block))
      && v.after == if v.changed then policy.leave(s, pair, v.block, l) else s
  }

  /** Visits one after the other, from store `s` to store `t`. */
  ghost predicate Chained<S, L>(vs: seq<Visit<S, L>>, s: S, t: S)
    decreases |vs|
  {
    if vs == [] then s == t
    else vs[|vs| - 1].after == t && Chained(vs[..|vs| - 1], s, vs[|vs| - 1].before)
  }

  ghost predicate Visited<S, L>(prog: Program, policy: Policy<S, L>, active: set<Pair>, pair: Pair, h: History<S, L>, s: S, t: S)
    decreases h, 0
  {
    && Chained(h.visits, s, t)
    && forall i: nat {:trigger h.visits[i]} | i < |h.visits| :: VisitOk(prog, policy, active, pair, h.visits[i])
  }

  /** What solving a pair does, from store `s` to store `t`. */
  ghost predicate Solved<S, L>(prog: Program, policy: Policy<S, L>, active: set<Pair>, pair: Pair, h: History<S, L>, s: S, t: S)
    decreases h, 1
  {
    && pair.func < |prog.funcs|
    && var f := prog.funcs[pair.func];
    && Processed(f.rpo, |f.body|, Blocks(h))
    && Visited(prog, policy, active, pair, h, s, t)
    && (Spent(f, Blocks(h), Changes(h)) || FollowedUp(f, Blocks(h), Changes(h), []))
  }

  /** The first `n` instructions of the block, from point to point. */
  ghost predicate Pushed<S, L>(prog: Program, policy: Policy<S, L>, active: set<Pair>, pair: Pair, bb: nat,
                               points: seq<(S, L)>, inner: seq<Inner<S, L>>, n: nat)
    requires pair.func < |prog.funcs| && bb < |prog.funcs[pair.func].body| && n <= |prog.funcs[pair.func].body[bb]|
  {
    && |points| == n + 1 && |inner| == n
    && forall i: nat {:trigger inner[i]} | i < n :: InstrOk(prog, policy, active, pair, bb, i, points[i], inner[i], points[i + 1])
  }

  lemma PushedSnoc<S, L>(prog: Program, policy: Policy<S, L>, active: set<Pair>, pair: Pair, bb: nat,
                         points: seq<(S, L)>, inner: seq<Inner<S, L>>, n: nat, c: Inner<S, L>, q: (S, L))
    requires pair.func < |prog.funcs| && bb < |prog.funcs[pair.func].body| && n < |prog.funcs[pair.func].body[bb]|
    requires Pushed(prog, policy, active, pair, bb, points, inner, n)
    requires InstrOk(prog, policy, active, pair, bb, n, points[n], c, q)
    ensures Pushed(prog, policy, active, pair, bb, points + [q], inner + [c], n + 1)
  {
    forall i: nat | i < n + 1 ensures InstrOk(prog, policy, active, pair, bb, i, (points + [q])[i], (inner + [c])[i], (points + [q])[i + 1]) {
      if i < n { assert (inner + [c])[i] == inner[i]; }
    }
  }

  lemma VisitedSnoc<S, L>(prog: Program, policy: Policy<S, L>, active: set<Pair>, pair: Pair, h: History<S, L>, s: S, t: S, v: Visit<S, L>)
    requires Visited(prog, policy, active, pair, h, s, t) && VisitOk(prog, policy, active, pair, v) && v.before == t
    ensures Visited(prog, policy, active, pair, Longer(h, v), s, v.after)
    ensures Blocks(Longer(h, v)) == Blocks(h) + [v.block] && Changes(Longer(h, v)) == Changes(h) + [v.changed]
  {
    assert (h.visits + [v])[..|h.visits|] == h.visits;
  }

  /** Between two visits: the queue and the history. */
  ghost predicate SolveInv<S, L>(prog: Program, policy: Policy<S, L>, active: set<Pair>, pair: Pair, counts: seq<nat>,
                                 inList: set<nat>, work: seq<nat>, h: History<S, L>, s: S, t: S) {
    && pair.func < |prog.funcs|
    && QueueOk(prog.funcs[pair.func], counts, Blocks(h), Changes(h), inList, work)
    && Visited(prog, policy, active, pair, h, s, t)
  }

  lemma SolveStart<S, L>(prog: Program, policy: Policy<S, L>, active: set<Pair>, pair: Pair, counts: seq<nat>, inList: set<nat>, s: S)
    requires WellFormed(prog) && pair.func < |prog.funcs| && |counts| == |prog.funcs[pair.func].body| && AllZero(counts)
    requires ListedWaits(inList, prog.funcs[pair.func].rpo)
    ensures SolveInv(prog, policy, active, pair, counts, inList, prog.funcs[pair.func].rpo, History([]), s, s)
  {
    QueueStart(prog, prog.funcs[pair.func], counts, inList);
    var none: History<S, L> := History([]);
    assert Blocks(none) == [] && Changes(none) == [];
  }

  lemma SolveEnd<S, L>(prog: Program, policy: Policy<S, L>, active: set<Pair>, pair: Pair, counts: seq<nat>,
                       inList: set<nat>, h: History<S, L>, s: S, t: S)
    requires WellFormed(prog) && SolveInv(prog, policy, active, pair, counts, inList, [], h, s, t)
    ensures Solved(prog, policy, active, pair, h, s, t)
  {
    AccountedEnd(prog, prog.funcs[pair.func], counts, Blocks(h));
  }

  // ----- the solver -----

  class Solver<!S, !L> {
    const prog: Program
    const depth: nat
    const policy: Policy<S, L>
    ghost const all: set<Pair>
    var store: S
    var active: set<Pair>
    /** Every pair whose solution was begun, in order. */
    ghost var begun: seq<Pair>

    constructor (prog: Program, depth: nat, policy: Policy<S, L>, store: S)
      ensures this.prog == prog && this.depth == depth && this.policy == policy && active == {} && begun == []
      ensures all == Pairs(prog, depth) && Closed(prog, all)
    {
      this.prog := prog;
      this.depth := depth;
      this.policy := policy;
      this.store := store;
      active, begun := {}, [];
      all := Pairs(prog, depth);
      PairsClosed(prog, depth);
    }

    /**
     Solves one function in one context.  It is never entered for a pair that is being solved,
     it ends whatever the policy does, it leaves the set of active pairs as it was, and every
     reachable block is processed within its budget.  Its visits account for all that happens to
     the store, and as long as no block is asked for more often than its budget allows, every
     successor of a block whose exit a visit changed is taken again later: no update is lost.
     */
    method Solve(pair: Pair) returns (ghost visits: History<S, L>)
      requires WellFormed(prog) && Closed(prog, all) && pair in all && pair !in active
      modifies this
      ensures active == old(active) && old(begun) + [pair] <= begun
      ensures Solved(prog, policy, active + {pair}, pair, visits, old(store), store)
      decreases |all - active|, 0
    {
      var f := prog.funcs[pair.func];
      active, begun := active + {pair}, begun + [pair];
      Shrinks(all, old(active), pair);
      var counts: seq<nat> := seq(|f.body|, _ => 0);
      var work := new WorkList(f.rpo);
      visits := History([]);
      SolveStart(prog, policy, active, pair, counts, work.inList, store);
      while !work.Empty()
        invariant active == old(active) + {pair} && old(begun) + [pair] <= begun
        invariant SolveInv(prog, policy, active, pair, counts, work.inList, work.work, visits, old(store), store)
        modifies this, work
        decreases Left(counts), |work.work|
      {
        counts, visits := VisitFront(pair, counts, work, visits, old(store));
      }
      SolveEnd(prog, policy, active, pair, counts, work.inList, visits, old(store), store);
      active := active - {pair};
      assert active + {pair} == old(active) + {pair};
    }

    /** One round of the work list. */
    method VisitFront(pair: Pair, counts0: seq<nat>, work: WorkList<nat>, ghost visits0: History<S, L>, ghost s0: S)
      returns (counts: seq<nat>, ghost visits: History<S, L>)
      requires WellFormed(prog) && Closed(prog, all) && pair in all && pair in active && !work.Empty()
      requires SolveInv(prog, policy, active, pair, counts0, work.inList, work.work, visits0, s0, store)
      modifies this, work
      ensures active == old(active) && old(begun) <= begun
      ensures SolveInv(prog, policy, active, pair, counts, work.inList, work.work, visits, s0, store)
      ensures 0 <= Left(counts) < Left(counts0) || (Left(counts) == Left(counts0) && |work.work| < |old(work.work)|)
      decreases |all - active|, 3
    {
      var f := prog.funcs[pair.func];
      ghost var queue := work.work;
      var bb := work.Take();
      FrontOk(f, counts0, Blocks(visits0), queue, bb, work.work);
      var changed; ghost var v;
      changed, v := Process(pair, bb);
      VisitedSnoc(prog, policy, active, pair, visits0, s0, v.before, v);
      visits := Longer(visits0, v);
      counts := AfterVisit(prog, f, counts0, bb, changed, work, Blocks(visits0), Changes(visits0));
    }

    /** One visit of a block: merge, compare, push the state through its instructions. */
    method Process(pair: Pair, bb: nat) returns (changed: bool, ghost v: Visit<S, L>)
      requires WellFormed(prog) && Closed(prog, all) && pair in all && pair in active && bb < |prog.funcs[pair.func].body|
      modifies this
      ensures active == old(active) && old(begun) <= begun
      ensures v.block == bb && v.changed == changed && v.before == old(store) && v.after == store
      ensures VisitOk(prog, policy, active, pair, v)
      decreases |all - active|, 2
    {
      var oldExit := policy.exit(store, pair, bb);
      var state := policy.merge(store, pair, bb);
      if policy.seen(store, pair, bb, state) {
        return false, Visit(bb, false, store, store, [], []);
      }
      store := policy.saveEntry(store, pair, bb, state);
      var body := prog.funcs[pair.func].body[bb];
      ghost var points, inner: seq<Inner<S, L>> := [(store, state)], [];
      for i := 0 to |body|
        invariant active == old(active) && old(begun) <= begun
        invariant Pushed(prog, policy, active, pair, bb, points, inner, i) && points[i] == (store, state)
        invariant points[0] == (policy.saveEntry(old(store), pair, bb, policy.merge(old(store), pair, bb)), policy.merge(old(store), pair, bb))
      {
        ghost var c := Nothing(store);
        match body[i] {
          case Plain =>
            var (st, l) := policy.transfer(store, pair, bb, i, state);
            store, state := st, l;
          case Call(site, callee) =>
            state, c := AnalyzeCall(pair, site, callee, state);
        }
        store := policy.record(store, pair, bb, i, state);
        PushedSnoc(prog, policy, active, pair, bb, points, inner, i, c, (store, state));
        points, inner := points + [(store, state)], inner + [c];
      }
      changed := !policy.same(state, oldExit);
      if changed {
        store := policy.leave(store, pair, bb, state);
      }
      v := Visit(bb, changed, old(store), store, points, inner);
    }

    /** A call: pass the arguments, solve the callee unless it is active or up to date. */
    method AnalyzeCall(pair: Pair, site: nat, callee: nat, state: L) returns (after: L, ghost inner: Inner<S, L>)
      requires WellFormed(prog) && Closed(prog, all) && pair in all && site < prog.sites && callee < |prog.funcs|
      modifies this
      ensures active == old(active)
      ensures CalleeDone(prog, policy, active, pair, site, callee, old(store), state, inner)
      ensures (store, after) == AfterCall(policy, pair, site, callee, old(store), state, inner.mid)
      ensures var toCall := CalleePair(pair, site, callee);
        if toCall in active || !policy.passArguments(old(store), pair, toCall, site, state).2 then begun == old(begun)
        else old(begun) + [toCall] <= begun
      decreases |all - active|, 1
    {
      var toCall := CalleePair(pair, site, callee);
      var (st, l, needsUpdate) := policy.passArguments(store, pair, toCall, site, state);
      store := st;
      inner := Nothing(store);
      if toCall !in active && needsUpdate {
        ghost var history := Solve(toCall);
        inner := Callee(store, history);
      }
      var (st', l') := policy.takeResult(store, pair, toCall, site, l);
      store, after := st', l';
    }
  }

  /** Entry points, each in the context without calls. */
  function EntryPairs(depth: nat, entries: seq<nat>): (r: seq<Pair>)
    ensures |r| == |entries|
    ensures forall i: nat | i < |r| :: r[i].func == entries[i] && |r[i].context| == depth && forall j: nat | j < depth :: r[i].context[j] == None
  {
    seq(|entries|, i requires 0 <= i < |entries| => Pair(seq(depth, _ => None), entries[i]))
  }

  /** The first `n` pairs solved one after the other, each from the store the one before left. */
  ghost predicate AllSolved<S, L>(prog: Program, policy: Policy<S, L>, pairs: seq<Pair>, n: nat,
                                  runs: seq<History<S, L>>, stores: seq<S>) {
    && n <= |pairs| && |runs| == n && |stores| == n + 1
    && forall i: nat {:trigger runs[i]} | i < n :: Solved(prog, policy, {pairs[i]}, pairs[i], runs[i], stores[i], stores[i + 1])
  }

  lemma OneMoreSolved<S, L>(prog: Program, policy: Policy<S, L>, pairs: seq<Pair>, n: nat,
                            runs: seq<History<S, L>>, stores: seq<S>, h: History<S, L>, t: S)
    requires AllSolved(prog, policy, pairs, n, runs, stores) && n < |pairs|
    requires Solved(prog, policy, {pairs[n]}, pairs[n], h, stores[n], t)
    ensures AllSolved(prog, policy, pairs, n + 1, runs + [h], stores + [t])
  {
    forall i: nat | i < n + 1
      ensures Solved(prog, policy, {pairs[i]}, pairs[i], (runs + [h])[i], (stores + [t])[i], (stores + [t])[i + 1])
    {
      if i < n { assert (runs + [h])[i] == runs[i]; }
    }
  }

  /** The constructor of the analysis: every entry point is queued. */
  method QueueEntries(pairs: seq<Pair>) returns (work: WorkList<Pair>)
    ensures fresh(work) && work.work == pairs
  {
    work := new WorkList<Pair>([]);
    for i := 0 to |pairs|
      invariant fresh(work) && work.inList == {} && work.work == pairs[..i]
    {
      work.Add(pairs[i]);
    }
  }

  /** The whole analysis: its entry points are solved in order, and that is all that happens to the store. */
  method SolveAll<S, L>(solver: Solver<S, L>, entries: seq<nat>) returns (ghost runs: seq<History<S, L>>, ghost stores: seq<S>)
    requires WellFormed(solver.prog) && Closed(solver.prog, solver.all) && solver.active == {}
    requires forall c: Pair | c in EntryPairs(solver.depth, entries) :: c in solver.all
    modifies solver
    ensures solver.active == {}
    ensures AllSolved(solver.prog, solver.policy, EntryPairs(solver.depth, entries), |entries|, runs, stores)
    ensures stores[0] == old(solver.store) && stores[|entries|] == solver.store
  {
    var pairs := EntryPairs(solver.depth, entries);
    var work := QueueEntries(pairs);
    ghost var n := 0;
    runs, stores := [], [solver.store];
    while !work.Empty()
      invariant n <= |pairs| && work.work == pairs[n..] && solver.active == {}
      invariant AllSolved(solver.prog, solver.policy, pairs, n, runs, stores)
      invariant stores[0] == old(solver.store) && stores[n] == solver.store
      modifies solver, work
      decreases |work.work|
    {
      var pair := work.Take();
      assert pair == pairs[n];
      ghost var h := solver.Solve(pair);
      assert {} + {pair} == {pair};
      OneMoreSolved(solver.prog, solver.policy, pairs, n, runs, stores, h, solver.store);
      runs, stores, n := runs + [h], stores + [solver.store], n + 1;
    }
  }

  /** What may not be queued again is still waiting. */
  ghost predicate ListedWaits(inList: set<nat>, work: seq<nat>) {
    forall b: nat | b in inList :: b in work
  }

  /** The queue between two visits: budgets, what has been taken and what waits. */
  ghost predicate QueueOk(f: Func, counts: seq<nat>, taken: seq<nat>, changes: seq<bool>, inList: set<nat>, work: seq<nat>) {
    && |counts| == |f.body| && Accounted(f.rpo, counts, taken, work) && Left(counts) >= 0
    && ListedWaits(inList, work) && Tracked(f, taken, changes, counts, work)
  }

  lemma QueueStart(p: Program, f: Func, counts: seq<nat>, inList: set<nat>)
    requires FuncOk(p, f) && |counts| == |f.body| && AllZero(counts) && ListedWaits(inList, f.rpo)
    ensures QueueOk(f, counts, [], [], inList, f.rpo)
  {
    AccountedStart(f.rpo, counts);
  }

  lemma FrontOk(f: Func, counts: seq<nat>, taken: seq<nat>, queue: seq<nat>, b: nat, work: seq<nat>)
    requires Accounted(f.rpo, counts, taken, queue) && queue == [b] + work
    ensures b < |counts|
  {
    assert b in queue;
  }

  /** What follows a visit of the block at the front of the queue. */
  method AfterVisit(ghost p: Program, f: Func, counts0: seq<nat>, bb: nat, changed: bool, work: WorkList<nat>,
                    ghost taken: seq<nat>, ghost changes: seq<bool>) returns (counts: seq<nat>)
    requires FuncOk(p, f) && |counts0| == |f.body| && Left(counts0) >= 0 && ListedWaits(work.inList, work.work)
    requires Accounted(f.rpo, counts0, taken, [bb] + work.work) && Tracked(f, taken, changes, counts0, [bb] + work.work)
    modifies work
    ensures QueueOk(f, counts, taken + [bb], changes + [changed], work.inList, work.work)
    ensures Left(counts) < Left(counts0) || (Left(counts) == Left(counts0) && work.work == old(work.work))
  {
    ghost var rest := work.work;
    AccountedTake(f.rpo, counts0, taken, bb, rest);
    if changed {
      counts := Requeue(p, f, counts0, bb, work, taken + [bb]);
      TrackedMore(f, taken, changes, counts0, counts, bb, rest, work.work);
    } else {
      counts := counts0;
      TrackedSame(f, taken, changes, counts, bb, rest);
    }
  }

  /** The queue after some successors of a block, against the queue before. */
  ghost predicate Requeued(rpo: seq<nat>, counts0: seq<nat>, counts: seq<nat>, taken: seq<nat>, work0: seq<nat>, work: seq<nat>) {
    && |counts| == |counts0| && Accounted(rpo, counts, taken, work)
    && 0 <= Left(counts) <= Left(counts0) && (Left(counts) == Left(counts0) ==> work == work0)
    && work0 <= work
  }

  lemma RequeueStep(rpo: seq<nat>, counts0: seq<nat>, counts: seq<nat>, taken: seq<nat>, work0: seq<nat>, work: seq<nat>, s: nat,
                    counts': seq<nat>, work': seq<nat>)
    requires Requeued(rpo, counts0, counts, taken, work0, work) && s < |counts| && counts[s] <= LIMIT
    requires counts' == counts[s := counts[s] + 1] && (work' == work || work' == work + [s])
    ensures Requeued(rpo, counts0, counts', taken, work0, work')
  {
    AccountedAdd(rpo, counts, taken, work, s, work');
    LeftNonNegative(counts');
  }

  ghost predicate AllWait(succs: seq<nat>, n: nat, work: seq<nat>) {
    n <= |succs| && forall j: nat | j < n :: succs[j] in work
  }

  lemma AllWaitStep(succs: seq<nat>, n: nat, work: seq<nat>, work': seq<nat>)
    requires n < |succs| && AllWait(succs, n, work) && work <= work' && succs[n] in work'
    ensures AllWait(succs, n + 1, work')
  {
    forall b: nat | b in work ensures b in work' {
      var i: nat :| i < |work| && work[i] == b;
      assert work'[i] == b;
    }
  }

  lemma CountedPrefix(succs: seq<nat>, i: nat, counts0: seq<nat>, counts: seq<nat>)
    requires i <= |succs| && CountedUp(succs[..i], counts0, counts)
    ensures CountedUp(succs, counts0, counts)
  {
    assert succs == succs[..i] + succs[i..];
  }

  lemma CountedStep(succs: seq<nat>, i: nat, counts0: seq<nat>, counts: seq<nat>, counts': seq<nat>)
    requires i < |succs| && succs[i] < |counts| && CountedUp(succs[..i], counts0, counts)
    requires counts' == counts[succs[i] := counts[succs[i]] + 1]
    ensures CountedUp(succs[..i + 1], counts0, counts')
  {
    assert succs[..i + 1] == succs[..i] + [succs[i]];
  }

  lemma ListedStep(inList: set<nat>, work: seq<nat>, s: nat)
    requires ListedWaits(inList, work)
    ensures ListedWaits(inList, work + [s])
  {
  }

  /** After the first `i` successors: they wait, and their budgets are charged. */
  ghost predicate Charged(succs: seq<nat>, i: nat, counts0: seq<nat>, counts: seq<nat>, inList: set<nat>, work: seq<nat>) {
    ListedWaits(inList, work) && AllWait(succs, i, work) && CountedUp(succs[..i], counts0, counts)
  }

  lemma ChargedNext(succs: seq<nat>, i: nat, counts0: seq<nat>, counts: seq<nat>, inList: set<nat>, work: seq<nat>, s: nat,
                    counts': seq<nat>, work': seq<nat>)
    requires Charged(succs, i, counts0, counts, inList, work)
    requires i < |succs| && s == succs[i] && s < |counts| && counts' == counts[s := counts[s] + 1]
    requires work' == if s in inList then work else work + [s]
    ensures Charged(succs, i + 1, counts0, counts', inList, work')
  {
    CountedStep(succs, i, counts0, counts, counts');
    ListedStep(inList, work, s);
    AllWaitStep(succs, i, work, work');
  }

  /**
   Queues the successors of a changed block until one of them has used up its budget: either
   that happens, or all of them are waiting afterwards.
   */
  method Requeue(ghost p: Program, f: Func, counts0: seq<nat>, bb: nat, work: WorkList<nat>, ghost taken: seq<nat>) returns (counts: seq<nat>)
    requires FuncOk(p, f) && |counts0| == |f.body| && bb < |f.body| && Accounted(f.rpo, counts0, taken, work.work)
    requires ListedWaits(work.inList, work.work)
    modifies work
    ensures |counts| == |f.body| && Requeued(f.rpo, counts0, counts, taken, old(work.work), work.work)
    ensures ListedWaits(work.inList, work.work)
    ensures CountedUp(f.succs[bb], counts0, counts)
    ensures (forall s: nat | s in f.succs[bb] :: s in work.work) || (exists s: nat :: s in f.succs[bb] && counts[s] > LIMIT)
  {
    counts := counts0;
    LeftNonNegative(counts);
    var succs := f.succs[bb];
    for i := 0 to |succs|
      invariant Requeued(f.rpo, counts0, counts, taken, old(work.work), work.work)
      invariant Charged(succs, i, counts0, counts, work.inList, work.work)
    {
      var s := succs[i];
      CountedPrefix(succs, i, counts0, counts);
      assert s in f.succs[bb];
      if counts[s] > LIMIT {
        return;
      }
      ghost var waiting := work.work;
      work.Add(s);
      var counts' := counts[s := counts[s] + 1];
      RequeueStep(f.rpo, counts0, counts, taken, old(work.work), waiting, s, counts', work.work);
      ChargedNext(succs, i, counts0, counts, work.inList, waiting, s, counts', work.work);
      counts := counts';
    }
    assert succs[..|succs|] == succs;
  }
}
