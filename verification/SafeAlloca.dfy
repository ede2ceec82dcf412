/**
 Deciding which stack objects may stay on the safe stack: a search through every pointer
 derived from the object, with each access checked by wrapping range arithmetic.

 `m` is two to the pointer width.  Which offsets a pointer may have (scalar evolution) is given
 to the model as one range per value.
 */
module SafeAlloca {
  import opened Options
  import opened FiniteSets

  // ----- wrapping ranges -----

  /** [`lo`, `hi`) modulo m; equal bounds mean the empty range at 0 and the full one at m - 1. */
  datatype Range = Range(lo: nat, hi: nat)

  predicate Valid(m: nat, r: Range) { r.lo < m && r.hi < m && (r.lo == r.hi ==> r.lo == 0 || r.lo == m - 1) }

  predicate Full(m: nat, r: Range) { r.lo == r.hi == m - 1 }

  predicate Empty(r: Range) { r.lo == r.hi == 0 }

  /** The numbers a range stands for. */
  ghost predicate In(m: nat, r: Range, x: nat) {
    && x < m
    && if r.lo == r.hi then Full(m, r) else if r.lo < r.hi then r.lo <= x < r.hi else x >= r.lo || x < r.hi
  }

  /** Reduction modulo m of a sum or difference of two words. */
  function Wrap(m: nat, x: int): (r: nat)
    requires m > 0 && 0 <= x + m && x < 2 * m
    ensures r < m && (r == x || r == x - m || r == x + m)
  {
    if x < 0 then x + m else if x < m then x else x - m
  }

  predicate StrictlySmaller(m: nat, a: Range, b: Range)
    requires m > 1 && Valid(m, a) && Valid(m, b)
  {
    !Full(m, a) && (Full(m, b) || Wrap(m, a.hi - a.lo) < Wrap(m, b.hi - b.lo))
  }

  /** Addition of ranges; a sum that is smaller than an operand has wrapped and becomes full. */
  function Add(m: nat, a: Range, b: Range): Range
    requires m > 1 && Valid(m, a) && Valid(m, b)
  {
    if Empty(a) || Empty(b) then Range(0, 0)
    else if Full(m, a) || Full(m, b) then Range(m - 1, m - 1)
    else
      var lo, hi := Wrap(m, a.lo + b.lo), Wrap(m, a.hi + b.hi - 1);
      var x := Range(lo, hi);
      if lo == hi then Range(m - 1, m - 1)
      else if StrictlySmaller(m, x, a) || StrictlySmaller(m, x, b) then Range(m - 1, m - 1) else x
  }

  predicate Wrapped(r: Range) { r.lo > r.hi }

  predicate Contains(m: nat, a: Range, b: Range) {
    if Full(m, a) || Empty(b) then true
    else if Empty(a) || Full(m, b) then false
    else if !Wrapped(a) then !Wrapped(b) && a.lo <= b.lo && b.hi <= a.hi
    else if !Wrapped(b) then b.hi <= a.hi || a.lo <= b.lo
    else b.hi <= a.hi && a.lo <= b.lo
  }

  /** The number of elements. */
  ghost function Count(m: nat, r: Range): nat
    requires m > 1 && Valid(m, r)
  {
    if Full(m, r) then m else if r.lo <= r.hi then r.hi - r.lo else m + r.hi - r.lo
  }

  /** How far `x` lies after the start of the range. */
  ghost function Offset(m: nat, r: Range, x: nat): nat
    requires r.lo < m && x < m
  {
    if x >= r.lo then x - r.lo else x + m - r.lo
  }

  lemma InByOffset(m: nat, r: Range, x: nat)
    requires m > 1 && Valid(m, r) && x < m
    ensures In(m, r, x) <==> Offset(m, r, x) < Count(m, r)
  {
  }

  lemma AddValid(m: nat, a: Range, b: Range)
    requires m > 1 && Valid(m, a) && Valid(m, b)
    ensures Valid(m, Add(m, a, b))
  {
  }

  lemma SumCount(m: nat, a: Range, b: Range, r: Range)
    requires m > 1 && Valid(m, a) && Valid(m, b) && a.lo != a.hi && b.lo != b.hi
    requires r.lo == Wrap(m, a.lo + b.lo) && r.hi == Wrap(m, a.hi + b.hi - 1) && r.lo != r.hi
    ensures Count(m, r) == Wrap(m, Count(m, a) + Count(m, b) - 1)
  {
  }

  lemma SumOffset(m: nat, a: Range, b: Range, r: Range, x: nat, y: nat)
    requires m > 1 && Valid(m, a) && Valid(m, b) && x < m && y < m
    requires r.lo == Wrap(m, a.lo + b.lo)
    ensures Offset(m, r, Wrap(m, x + y)) == Wrap(m, Offset(m, a, x) + Offset(m, b, y))
  {
  }

  lemma NotSmaller(m: nat, r: Range, a: Range)
    requires m > 1 && Valid(m, r) && Valid(m, a) && !Full(m, r) && !Full(m, a) && !StrictlySmaller(m, r, a)
    ensures Count(m, a) <= Count(m, r)
  {
  }

  lemma SumFits(m: nat, ca: nat, cb: nat, cr: nat, dx: nat, dy: nat)
    requires m > 0 && dx < ca < m && dy < cb < m && cr == Wrap(m, ca + cb - 1) && ca <= cr
    ensures Wrap(m, dx + dy) < cr
  {
  }

  lemma SumInside(m: nat, a: Range, b: Range, r: Range, x: nat, y: nat)
    requires m > 1 && Valid(m, a) && Valid(m, b) && In(m, a, x) && In(m, b, y) && !Full(m, a) && !Full(m, b)
    requires r.lo == Wrap(m, a.lo + b.lo) && r.hi == Wrap(m, a.hi + b.hi - 1) && r.lo != r.hi
    requires !StrictlySmaller(m, r, a)
    ensures Wrap(m, Offset(m, a, x) + Offset(m, b, y)) < Count(m, r)
  {
    SumCount(m, a, b, r);
    InByOffset(m, a, x);
    InByOffset(m, b, y);
    NotSmaller(m, r, a);
    SumFits(m, Count(m, a), Count(m, b), Count(m, r), Offset(m, a, x), Offset(m, b, y));
  }

  lemma AddPartial(m: nat, a: Range, b: Range, r: Range, x: nat, y: nat)
    requires m > 1 && Valid(m, a) && Valid(m, b) && In(m, a, x) && In(m, b, y) && !Full(m, a) && !Full(m, b)
    requires r.lo == Wrap(m, a.lo + b.lo) && r.hi == Wrap(m, a.hi + b.hi - 1) && r.lo != r.hi
    requires !StrictlySmaller(m, r, a)
    ensures In(m, r, Wrap(m, x + y))
  {
    SumInside(m, a, b, r, x, y);
    SumOffset(m, a, b, r, x, y);
    InByOffset(m, r, Wrap(m, x + y));
  }

  /** Every sum of elements is in the sum of the ranges. */
  lemma AddSound(m: nat, a: Range, b: Range, x: nat, y: nat)
    requires m > 1 && Valid(m, a) && Valid(m, b) && In(m, a, x) && In(m, b, y)
    ensures In(m, Add(m, a, b), Wrap(m, x + y))
  {
    if !Full(m, Add(m, a, b)) {
      AddPartial(m, a, b, Add(m, a, b), x, y);
    }
  }

  /** Containment is inclusion of the sets. */
  lemma ContainsSound(m: nat, a: Range, b: Range, x: nat)
    requires m > 1 && Valid(m, a) && Valid(m, b) && Contains(m, a, b) && In(m, b, x)
    ensures In(m, a, x)
  {
  }

  // ----- one access -----

  /** An access of `size` bytes against an object of `alloca` bytes, both words. */
  predicate Accepts(m: nat, start: Range, size: nat, alloca: nat)
    requires m > 1 && Valid(m, start) && size < m && alloca < m
  {
    Contains(m, Range(0, alloca), Add(m, start, Range(0, size)))
  }

  /** Sizes are truncated to the pointer width. */
  predicate IsAccessSafe(m: nat, start: Range, size: nat, alloca: nat)
    requires m > 1 && Valid(m, start)
  {
    Accepts(m, start, size % m, alloca % m)
  }

  /** Byte `k` of an access at offset `off` from the object. */
  ghost predicate ByteInside(m: nat, off: nat, k: nat, alloca: nat)
    requires m > 0
  {
    (off + k) % m < alloca
  }

  /** Every byte of an access of that size at any offset of the range is inside the object. */
  ghost predicate InBounds(m: nat, start: Range, size: nat, alloca: nat)
    requires m > 0
  {
    forall off: nat, k: nat {:trigger ByteInside(m, off, k, alloca)} :: In(m, start, off) && k < size ==> ByteInside(m, off, k, alloca)
  }

  lemma WrapIsMod(m: nat, x: nat)
    requires m > 0 && x < 2 * m
    ensures x % m == Wrap(m, x)
  {
    if x >= m { assert x == m * 1 + (x - m); }
  }

  lemma AcceptsSound(m: nat, start: Range, size: nat, alloca: nat, off: nat, k: nat)
    requires m > 1 && Valid(m, start) && size < m && alloca < m && Accepts(m, start, size, alloca)
    requires In(m, start, off) && k < size
    ensures Wrap(m, off + k) < alloca
  {
    AddValid(m, start, Range(0, size));
    AddSound(m, start, Range(0, size), off, k);
    ContainsSound(m, Range(0, alloca), Add(m, start, Range(0, size)), Wrap(m, off + k));
  }

  lemma ModSmall(x: nat, m: nat)
    requires x < m
    ensures x % m == x
  {
  }

  lemma AccessSound(m: nat, start: Range, size: nat, alloca: nat)
    requires m > 1 && Valid(m, start) && size < m && IsAccessSafe(m, start, size, alloca)
    ensures InBounds(m, start, size, alloca)
  {
    ModSmall(size, m);
    ModAtMost(alloca, m);
    var t := alloca % m;
    assert Accepts(m, start, size, t);
    forall off: nat, k: nat | In(m, start, off) && k < size ensures ByteInside(m, off, k, alloca) {
      AcceptsSound(m, start, size, t, off, k);
      WrapIsMod(m, off + k);
    }
  }

  lemma ModAtMost(x: nat, m: nat)
    requires m > 0
    ensures x % m <= x
  {
  }

  /** A sum has at least as many elements as each operand. */
  lemma SumAtLeast(m: nat, a: Range, b: Range)
    requires m > 1 && Valid(m, a) && Valid(m, b) && a.lo != a.hi && b.lo != b.hi
    ensures Valid(m, Add(m, a, b)) && Count(m, b) <= Count(m, Add(m, a, b))
  {
    AddValid(m, a, b);
    if !Full(m, Add(m, a, b)) { NotSmaller(m, Add(m, a, b), b); }
  }

  lemma TooLargeWords(m: nat, start: Range, size: nat, alloca: nat, off: nat)
    requires m > 1 && Valid(m, start) && In(m, start, off) && alloca < size < m
    ensures !Accepts(m, start, size, alloca)
  {
    AddValid(m, start, Range(0, size));
    if !Full(m, start) {
      SumAtLeast(m, start, Range(0, size));
    }
  }

  /** A size that is reduced to more than the object holds is never accepted. */
  lemma TooLarge(m: nat, start: Range, size: nat, alloca: nat)
    requires m > 1 && Valid(m, start) && alloca < m && size % m > alloca && IsAccessSafe(m, start, size, alloca)
    ensures forall off: nat :: !In(m, start, off)
  {
    ModSmall(alloca, m);
    forall off: nat ensures !In(m, start, off) {
      if In(m, start, off) { TooLargeWords(m, start, size % m, alloca, off); }
    }
  }

  lemma OneByteAccepted(m: nat, size: nat, alloca: nat)
    requires m > 1 && size <= alloca < m
    ensures Accepts(m, Range(0, 1), size, alloca)
  {
  }

  lemma TruncatedAccepted(m: nat, size: nat, alloca: nat)
    requires m > 1 && alloca < m && size % m <= alloca
    ensures IsAccessSafe(m, Range(0, 1), size, alloca)
  {
    ModSmall(alloca, m);
    OneByteAccepted(m, size % m, alloca);
  }

  /**
   When the check can be trusted.  A size of two to the pointer width or more is truncated, and
   then exactly the objects smaller than that, and at least as large as the truncated size, have
   an access that is accepted though it leaves the object.
   */
  lemma TrustedIff(m: nat, size: nat, alloca: nat)
    requires m > 1
    ensures (forall start: Range | Valid(m, start) && IsAccessSafe(m, start, size, alloca) :: InBounds(m, start, size, alloca))
      <==> size < m || alloca >= m || size % m > alloca
  {
    if size < m || alloca >= m || size % m > alloca {
      forall start: Range | Valid(m, start) && IsAccessSafe(m, start, size, alloca) ensures InBounds(m, start, size, alloca) {
        if size < m {
          AccessSound(m, start, size, alloca);
        } else if alloca < m {
          TooLarge(m, start, size, alloca);
        }
      }
    } else {
      var one := Range(0, 1);
      TruncatedAccepted(m, size, alloca);
      assert In(m, one, 0) && !ByteInside(m, 0, alloca, alloca);
      assert !InBounds(m, one, size, alloca);
    }
  }

  // ----- uses of a pointer -----

  /** One call argument: is it the pointer, and what the callee promises about it. */
  datatype Arg = Arg(isPointer: bool, noCapture: bool, noAccess: bool)

  /**
   The uses the search distinguishes, and those it does not: atomic instructions, callbr and resume
   have no case of their own and are followed like a cast, as `user` is for them.  `elsewhere`: the
   pointer is the callee or an operand of a bundle, which the loop over the arguments does not see.
   */
  datatype Use =
    | Load(size: nat)
    | StoreThrough(size: nat)
    | StoreOf
    | VaArg
    | Ret
    | LifetimeMarker
    | MemIntrinsic(accesses: bool, length: Option<nat>)
    | CallUse(args: seq<Arg>, noAccess: bool, elsewhere: bool)
    | Derived(user: nat)
    | AtomicThrough(size: nat, user: nat)
    | AtomicStoreOf(user: nat)
    | CallBrUse(args: seq<Arg>, noAccess: bool, elsewhere: bool, user: nat)
    | ResumeOf(user: nat)

  /** The instruction that the search looks at next because of this use. */
  function Followed(u: Use): Option<nat> {
    match u
    case Derived(user) => Some(user)
    case AtomicThrough(_, user) => Some(user)
    case AtomicStoreOf(user) => Some(user)
    case CallBrUse(_, _, _, user) => Some(user)
    case ResumeOf(user) => Some(user)
    case _ => None
  }

  /** The uses of every value, and the offsets it may have from the object. */
  datatype Func = Func(m: nat, uses: seq<seq<Use>>, range: seq<Range>)

  ghost predicate UsesValid(f: Func, v: nat)
    requires v < |f.uses|
  {
    forall j: nat | j < |f.uses[v]| && Followed(f.uses[v][j]).Some? :: Followed(f.uses[v][j]).value < |f.uses|
  }

  ghost predicate WellFormed(f: Func) {
    && f.m > 1 && |f.range| == |f.uses|
    && (forall v: nat | v < |f.range| :: Valid(f.m, f.range[v]))
    && (forall v: nat | v < |f.uses| :: UsesValid(f, v))
  }

  ghost predicate ArgHarmless(a: Arg, noAccess: bool) {
    a.isPointer ==> a.noCapture && (a.noAccess || noAccess)
  }

  ghost predicate ArgsHarmless(args: seq<Arg>, noAccess: bool) {
    forall i: nat | i < |args| :: ArgHarmless(args[i], noAccess)
  }

  /** What the search demands of a single use of a pointer with offsets `r`. */
  ghost predicate UseOk(m: nat, r: Range, alloca: nat, u: Use)
    requires m > 1 && Valid(m, r)
  {
    match u
    case Load(size) => IsAccessSafe(m, r, size, alloca)
    case StoreThrough(size) => IsAccessSafe(m, r, size, alloca)
    case StoreOf => false
    case VaArg => true
    case Ret => false
    case LifetimeMarker => true
    case MemIntrinsic(accesses, length) => accesses ==> length.Some? && IsAccessSafe(m, r, length.value, alloca)
    case CallUse(args, noAccess, _) => ArgsHarmless(args, noAccess)
    case _ => true
  }

  method CheckUse(m: nat, r: Range, alloca: nat, u: Use) returns (ok: bool)
    requires m > 1 && Valid(m, r)
    ensures ok <==> UseOk(m, r, alloca, u)
    ensures ok <==> !Objects(m, r, alloca, u)
  {
    ObjectsIff(m, r, alloca, u);
    match u
    case Load(size) => ok := IsAccessSafe(m, r, size, alloca);
    case StoreThrough(size) => ok := IsAccessSafe(m, r, size, alloca);
    case StoreOf => ok := false;
    case VaArg => ok := true;
    case Ret => ok := false;
    case LifetimeMarker => ok := true;
    case MemIntrinsic(accesses, length) =>
      if !accesses {
        ok := true;
      } else {
        match length
        case None => ok := false;
        case Some(n) => ok := IsAccessSafe(m, r, n, alloca);
      }
    case CallUse(args, noAccess, _) =>
      for i := 0 to |args|
        invariant forall j: nat | j < i :: ArgHarmless(args[j], noAccess)
      {
        var a := args[i];
        if a.isPointer && !(a.noCapture && (a.noAccess || noAccess)) {
          assert !ArgHarmless(args[i], noAccess);
          return false;
        }
      }
      ok := true;
    case _ => ok := true;
  }

  // ----- the search -----

  /** The search goes on from this use to `w`: from every instruction without a case of its own. */
  ghost predicate LeadsTo(u: Use, w: nat) {
    (u.Derived? || u.AtomicThrough? || u.AtomicStoreOf? || u.CallBrUse? || u.ResumeOf?) && u.user == w
  }

  ghost predicate DerivedFrom(f: Func, v: nat, w: nat) {
    v < |f.uses| && exists j: nat :: j < |f.uses[v]| && LeadsTo(f.uses[v][j], w)
  }

  /** A chain of derivations that starts at the object. */
  ghost predicate Chain(f: Func, root: nat, path: seq<nat>) {
    && |path| > 0 && path[0] == root
    && (forall i: nat | i + 1 < |path| :: DerivedFrom(f, path[i], path[i + 1]))
  }

  ghost predicate Reaches(f: Func, root: nat, v: nat) {
    exists path: seq<nat> :: Chain(f, root, path) && path[|path| - 1] == v
  }

  ghost predicate UsesOk(f: Func, alloca: nat, v: nat)
    requires WellFormed(f) && v < |f.uses|
  {
    forall j: nat | j < |f.uses[v]| :: UseOk(f.m, f.range[v], alloca, f.uses[v][j])
  }

  lemma RootReached(f: Func, root: nat)
    ensures Reaches(f, root, root)
  {
    assert Chain(f, root, [root]);
  }

  lemma ReachesOn(f: Func, root: nat, v: nat, w: nat)
    requires Reaches(f, root, v) && DerivedFrom(f, v, w)
    ensures Reaches(f, root, w)
  {
    var path: seq<nat> :| Chain(f, root, path) && path[|path| - 1] == v;
    var longer := path + [w];
    forall i: nat | i + 1 < |longer| ensures DerivedFrom(f, longer[i], longer[i + 1]) {
      if i + 1 < |path| { assert longer[i] == path[i] && longer[i + 1] == path[i + 1]; }
    }
    assert Chain(f, root, longer) && longer[|longer| - 1] == w;
  }

  /** Everything that is done has good uses, and its derived values are known. */
  ghost predicate Done(f: Func, alloca: nat, root: nat, visited: set<nat>, v: nat)
    requires WellFormed(f)
  {
    && v < |f.uses| && UsesOk(f, alloca, v)
    && (forall w: nat | DerivedFrom(f, v, w) :: w in visited)
  }

  /** A set with the root that is closed under derivation holds everything reached. */
  lemma {:induction false} ClosedHoldsChain(f: Func, root: nat, closed: set<nat>, path: seq<nat>)
    requires root in closed && (forall v: nat, w: nat | v in closed && DerivedFrom(f, v, w) :: w in closed)
    requires Chain(f, root, path)
    ensures path[|path| - 1] in closed
  {
    if |path| > 1 {
      var shorter := path[..|path| - 1];
      assert Chain(f, root, shorter);
      ClosedHoldsChain(f, root, closed, shorter);
      assert DerivedFrom(f, path[|path| - 2], path[|path| - 2 + 1]);
    }
  }

  ghost predicate Known(f: Func, root: nat, visited: set<nat>, list: seq<nat>, done: set<nat>) {
    && (forall v: nat | v in visited :: v < |f.uses| && Reaches(f, root, v))
    && (forall v: nat | v in list :: v == root || v in visited)
    && (forall v: nat | v == root || v in visited :: v in list || v in done)
  }

  /** The values still waiting when `v` is being looked at. */
  method VisitUses(f: Func, root: nat, alloca: nat, v: nat, visited0: set<nat>, list0: seq<nat>, ghost done: set<nat>)
    returns (ok: bool, visited: set<nat>, list: seq<nat>)
    requires WellFormed(f) && root < |f.uses| && v < |f.uses| && Reaches(f, root, v)
    requires Known(f, root, visited0, list0, done + {v})
    requires forall d: nat | d in done :: Done(f, alloca, root, visited0, d)
    ensures ok <==> UsesOk(f, alloca, v)
    ensures ok ==> visited0 <= visited && Known(f, root, visited, list, done + {v})
    ensures ok ==> forall d: nat | d in done + {v} :: Done(f, alloca, root, visited, d)
    ensures visited == visited0 ==> list == list0
  {
    visited, list := visited0, list0;
    var us := f.uses[v];
    assert UsesValid(f, v);
    for j := 0 to |us|
      invariant visited0 <= visited && Known(f, root, visited, list, done + {v})
      invariant forall i: nat | i < j :: UseOk(f.m, f.range[v], alloca, us[i])
      invariant forall i: nat | i < j && Followed(us[i]).Some? :: Followed(us[i]).value in visited
      invariant visited == visited0 ==> list == list0
    {
      var u := us[j];
      var good := CheckUse(f.m, f.range[v], alloca, u);
      if !good { return false, visited0, list0; }
      match Followed(u) {
        case Some(user) =>
          if user !in visited {
            assert LeadsTo(us[j], user) && DerivedFrom(f, v, user);
            ReachesOn(f, root, v, user);
            visited := visited + {user};
            list := list + [user];
          }
        case None =>
      }
    }
    ok := true;
    forall w: nat | DerivedFrom(f, v, w) ensures w in visited {
      var j: nat :| j < |us| && LeadsTo(us[j], w);
      assert Followed(us[j]) == Some(w);
    }
  }

  /**
   The search: true exactly when every use of every pointer derived from the object, by any
   chain of derivations, is acceptable.
   */
  method IsSafeStackAlloca(f: Func, root: nat, alloca: nat) returns (safe: bool)
    requires WellFormed(f) && root < |f.uses|
    ensures safe <==> Accepted(f, root, alloca)
    ensures !safe <==> exists v: nat, j: nat :: Reaches(f, root, v) && v < |f.uses| && j < |f.uses[v]| && Objects(f.m, f.range[v], alloca, f.uses[v][j])
  {
    RefusedIff(f, root, alloca);
    RootReached(f, root);
    var visited: set<nat>, list := {}, [root];
    ghost var done: set<nat> := {};
    while list != []
      invariant Known(f, root, visited, list, done)
      invariant forall d: nat | d in done :: Done(f, alloca, root, visited, d)
      decreases |f.uses| - |visited|, |list|
    {
      var v := list[|list| - 1];
      var rest := list[..|list| - 1];
      assert v in list;
      assert Known(f, root, visited, rest, done + {v}) by {
        assert forall w: nat | w in list :: w in rest || w == v;
      }
      ghost var before := visited;
      var ok;
      ok, visited, list := VisitUses(f, root, alloca, v, visited, rest, done);
      if !ok {
        return false;
      }
      SubsetSize(visited, UpTo(|f.uses|));
      SubsetSize(before, visited);
      done := done + {v};
    }
    forall v: nat | Reaches(f, root, v) ensures v < |f.uses| && UsesOk(f, alloca, v) {
      var path: seq<nat> :| Chain(f, root, path) && path[|path| - 1] == v;
      ClosedHoldsChain(f, root, done, path);
    }
    return true;
  }

  // ----- what a positive answer means -----

  /** The access a use makes, if it makes one of known size. */
  ghost function AccessSize(u: Use): Option<nat> {
    match u
    case Load(size) => Some(size)
    case StoreThrough(size) => Some(size)
    case MemIntrinsic(accesses, length) => if accesses then length else None
    case AtomicThrough(size, _) => Some(size)
    case _ => None
  }

  /** The use lets the pointer itself out, or hands it to code that may use it. */
  ghost predicate Escapes(u: Use) {
    match u
    case StoreOf => true
    case Ret => true
    case MemIntrinsic(accesses, length) => accesses && length.None?
    case CallUse(args, noAccess, elsewhere) => elsewhere || !ArgsHarmless(args, noAccess)
    case AtomicStoreOf(_) => true
    case CallBrUse(args, noAccess, elsewhere, _) => elsewhere || !ArgsHarmless(args, noAccess)
    case ResumeOf(_) => true
    case _ => false
  }

  /** A use of a pointer with offsets `r` that is safe: no escape, and its access stays inside. */
  ghost predicate SafeUse(m: nat, r: Range, alloca: nat, u: Use)
    requires m > 0
  {
    !Escapes(u) && (AccessSize(u).Some? ==> InBounds(m, r, AccessSize(u).value, alloca))
  }

  /** A size that does not fit the pointer width, at some address, for an object that does. */
  predicate CutDown(m: nat, r: Range, size: nat, alloca: nat) { size >= m > alloca && !Empty(r) }

  /** What the search does not look at in a use that it accepts. */
  ghost predicate Overlooked(m: nat, r: Range, alloca: nat, u: Use)
    requires m > 0
  {
    match u
    case AtomicThrough(size, _) => !InBounds(m, r, size, alloca)
    case AtomicStoreOf(_) => true
    case CallBrUse(args, noAccess, elsewhere, _) => elsewhere || !ArgsHarmless(args, noAccess)
    case ResumeOf(_) => true
    case CallUse(_, _, elsewhere) => elsewhere
    case Load(size) => CutDown(m, r, size, alloca)
    case StoreThrough(size) => CutDown(m, r, size, alloca)
    case MemIntrinsic(accesses, length) => accesses && length.Some? && CutDown(m, r, length.value, alloca)
    case _ => false
  }

  lemma CutDownIff(m: nat, r: Range, size: nat, alloca: nat)
    requires m > 1 && Valid(m, r) && size >= m
    ensures InBounds(m, r, size, alloca) <==> !CutDown(m, r, size, alloca)
  {
    if CutDown(m, r, size, alloca) {
      assert In(m, r, r.lo) && !ByteInside(m, r.lo, m - 1 - r.lo, alloca);
    }
  }

  /** An accepted use is safe exactly when nothing is overlooked in it. */
  lemma AcceptedUseIff(m: nat, r: Range, alloca: nat, u: Use)
    requires m > 1 && Valid(m, r) && UseOk(m, r, alloca, u)
    ensures SafeUse(m, r, alloca, u) <==> !Overlooked(m, r, alloca, u)
  {
    if AccessSize(u).Some? && !u.AtomicThrough? {
      if AccessSize(u).value < m {
        AccessSound(m, r, AccessSize(u).value, alloca);
      } else {
        CutDownIff(m, r, AccessSize(u).value, alloca);
      }
    }
  }

  ghost predicate AllSafe(f: Func, root: nat, alloca: nat)
    requires WellFormed(f)
  {
    forall v: nat, j: nat | Reaches(f, root, v) && v < |f.uses| && j < |f.uses[v]| :: SafeUse(f.m, f.range[v], alloca, f.uses[v][j])
  }

  /** Somewhere among the derived pointers there is a use in which something is overlooked. */
  ghost predicate SomeOverlooked(f: Func, root: nat, alloca: nat)
    requires WellFormed(f)
  {
    exists v: nat, j: nat :: Reaches(f, root, v) && v < |f.uses| && j < |f.uses[v]| && Overlooked(f.m, f.range[v], alloca, f.uses[v][j])
  }

  /** The answer yes. */
  ghost predicate Accepted(f: Func, root: nat, alloca: nat)
    requires WellFormed(f)
  {
    forall v: nat | Reaches(f, root, v) :: v < |f.uses| && UsesOk(f, alloca, v)
  }

  /**
   If the search says yes, no derived pointer escapes and every access stays inside the object
   exactly when no reached use is an atomic that stores the pointer or goes out of bounds, a
   capturing callbr, a resume, a call that uses it otherwise than as an argument, or an access of
   a size that is cut down to the pointer width.
   */
  lemma SafeIff(f: Func, root: nat, alloca: nat)
    requires WellFormed(f) && root < |f.uses| && Accepted(f, root, alloca)
    ensures AllSafe(f, root, alloca) <==> !SomeOverlooked(f, root, alloca)
  {
    forall v: nat, j: nat | Reaches(f, root, v) && v < |f.uses| && j < |f.uses[v]|
      ensures SafeUse(f.m, f.range[v], alloca, f.uses[v][j]) <==> !Overlooked(f.m, f.range[v], alloca, f.uses[v][j])
    {
      assert UsesOk(f, alloca, v);
      AcceptedUseIff(f.m, f.range[v], alloca, f.uses[v][j]);
    }
  }

  /** The bytes an access may touch, as a range, are not contained in the object. */
  ghost predicate MayLeave(m: nat, r: Range, size: nat, alloca: nat)
    requires m > 1 && Valid(m, r)
  {
    !Contains(m, Range(0, alloca % m), Add(m, r, Range(0, size % m)))
  }

  /** What the search objects to, kind by kind: the pointer is stored or returned, an access through it may
      leave the object or is of unknown length, or it is an argument that the callee may capture or access. */
  ghost predicate Objects(m: nat, r: Range, alloca: nat, u: Use)
    requires m > 1 && Valid(m, r)
  {
    || u.StoreOf? || u.Ret?
    || ((u.Load? || u.StoreThrough?) && MayLeave(m, r, u.size, alloca))
    || (u.MemIntrinsic? && u.accesses && (u.length.None? || MayLeave(m, r, u.length.value, alloca)))
    || (u.CallUse? && exists i: nat :: i < |u.args| && u.args[i].isPointer && !(u.args[i].noCapture && (u.args[i].noAccess || u.noAccess)))
  }

  lemma ObjectsIff(m: nat, r: Range, alloca: nat, u: Use)
    requires m > 1 && Valid(m, r)
    ensures UseOk(m, r, alloca, u) <==> !Objects(m, r, alloca, u)
  {
    if u.CallUse? && !UseOk(m, r, alloca, u) {
      var i: nat :| i < |u.args| && !ArgHarmless(u.args[i], u.noAccess);
      assert u.args[i].isPointer;
    }
  }

  /** The answer is no exactly when some derived pointer has a use that the search objects to. */
  lemma RefusedIff(f: Func, root: nat, alloca: nat)
    requires WellFormed(f) && root < |f.uses|
    ensures !Accepted(f, root, alloca) <==>
      exists v: nat, j: nat :: Reaches(f, root, v) && v < |f.uses| && j < |f.uses[v]| && Objects(f.m, f.range[v], alloca, f.uses[v][j])
  {
    if !Accepted(f, root, alloca) {
      var v: nat :| Reaches(f, root, v) && !(v < |f.uses| && UsesOk(f, alloca, v));
      var path: seq<nat> :| Chain(f, root, path) && path[|path| - 1] == v;
      ReachedInside(f, root, path, |path| - 1);
      var j: nat :| j < |f.uses[v]| && !UseOk(f.m, f.range[v], alloca, f.uses[v][j]);
      ObjectsIff(f.m, f.range[v], alloca, f.uses[v][j]);
    }
    if v: nat, j: nat :| Reaches(f, root, v) && v < |f.uses| && j < |f.uses[v]| && Objects(f.m, f.range[v], alloca, f.uses[v][j]) {
      ObjectsIff(f.m, f.range[v], alloca, f.uses[v][j]);
      assert !UsesOk(f, alloca, v);
    }
  }

  // ----- the range test, from the other side -----

  /** Offsets from `lo` on up to below `hi`, and accesses at them that do not wrap around. */
  ghost predicate Tame(m: nat, r: Range, size: nat) { r.lo < r.hi && r.hi - 1 + size < m }

  lemma TameSum(m: nat, r: Range, size: nat)
    requires m > 1 && Valid(m, r) && size > 0 && Tame(m, r, size)
    ensures Add(m, r, Range(0, size)) == Range(r.lo, r.hi - 1 + size)
  {
  }

  /** Where nothing wraps around, an access is accepted exactly when all its bytes are inside the object. */
  lemma AcceptedIff(m: nat, r: Range, size: nat, alloca: nat)
    requires m > 1 && Valid(m, r) && size > 0 && Tame(m, r, size) && alloca < m
    ensures IsAccessSafe(m, r, size, alloca) <==> InBounds(m, r, size, alloca)
    ensures IsAccessSafe(m, r, size, alloca) <==> r.hi - 1 + size <= alloca
  {
    ModSmall(size, m);
    ModSmall(alloca, m);
    TameSum(m, r, size);
    if InBounds(m, r, size, alloca) {
      var off, k := r.hi - 1, size - 1;
      assert In(m, r, off) && ByteInside(m, off, k, alloca);
      ModSmall(off + k, m);
    }
    if IsAccessSafe(m, r, size, alloca) { AccessSound(m, r, size, alloca); }
  }

  /** An access of no bytes is always accepted. */
  lemma EmptyAccepted(m: nat, r: Range, alloca: nat)
    requires m > 1 && Valid(m, r)
    ensures IsAccessSafe(m, r, 0, alloca)
  {
  }

  /** So an object all of whose reached uses are tame accesses in bounds, markers, arguments that are left
      alone, or derivations of such pointers stays on the safe stack. */
  ghost predicate Harmless(m: nat, r: Range, alloca: nat, u: Use)
    requires m > 1 && Valid(m, r)
  {
    || u.LifetimeMarker? || u.VaArg? || u.Derived?
    || ((u.Load? || u.StoreThrough?) && u.size > 0 && Tame(m, r, u.size) && InBounds(m, r, u.size, alloca))
    || (u.MemIntrinsic? && (!u.accesses || u.length == Some(0)
                            || (u.length.Some? && Tame(m, r, u.length.value) && InBounds(m, r, u.length.value, alloca))))
    || (u.CallUse? && forall i: nat :: i < |u.args| && u.args[i].isPointer ==> u.args[i].noCapture && (u.args[i].noAccess || u.noAccess))
  }

  lemma HarmlessOk(m: nat, r: Range, alloca: nat, u: Use)
    requires m > 1 && Valid(m, r) && alloca < m && Harmless(m, r, alloca, u)
    ensures UseOk(m, r, alloca, u)
  {
    match u
    case Load(size) => AcceptedIff(m, r, size, alloca);
    case StoreThrough(size) => AcceptedIff(m, r, size, alloca);
    case MemIntrinsic(accesses, length) =>
      if accesses {
        EmptyAccepted(m, r, alloca);
        if length.value > 0 { AcceptedIff(m, r, length.value, alloca); }
      }
    case _ =>
  }

  lemma HarmlessAccepted(f: Func, root: nat, alloca: nat)
    requires WellFormed(f) && root < |f.uses| && alloca < f.m
    requires forall v: nat, j: nat | Reaches(f, root, v) && v < |f.uses| && j < |f.uses[v]| :: Harmless(f.m, f.range[v], alloca, f.uses[v][j])
    ensures Accepted(f, root, alloca)
  {
    forall v: nat | Reaches(f, root, v) ensures v < |f.uses| && UsesOk(f, alloca, v) {
      var path: seq<nat> :| Chain(f, root, path) && path[|path| - 1] == v;
      ReachedInside(f, root, path, |path| - 1);
      forall j: nat | j < |f.uses[v]| ensures UseOk(f.m, f.range[v], alloca, f.uses[v][j]) {
        HarmlessOk(f.m, f.range[v], alloca, f.uses[v][j]);
      }
    }
  }

  lemma {:induction false} ReachedInside(f: Func, root: nat, path: seq<nat>, i: nat)
    requires WellFormed(f) && root < |f.uses| && Chain(f, root, path) && i < |path|
    ensures path[i] < |f.uses|
  {
    if i > 0 {
      assert DerivedFrom(f, path[i - 1], path[i - 1 + 1]);
      assert UsesValid(f, path[i - 1]);
    }
  }

  // ----- instances -----

  /** An object of 8 bytes on a 64-bit target whose only use is `u`; value 1 is the user. */
  function OneUse(u: Use, r: Range): Func { Func(0x1_0000_0000_0000_0000, [[u], []], [r, Range(0, 1)]) }

  lemma OneUseAccepted(u: Use, r: Range)
    requires Valid(0x1_0000_0000_0000_0000, r) && Followed(u) == Some(1)
    ensures WellFormed(OneUse(u, r)) && Accepted(OneUse(u, r), 0, 8) && Reaches(OneUse(u, r), 0, 0)
  {
    var f := OneUse(u, r);
    forall v: nat | v < |f.uses| ensures UsesValid(f, v) && UsesOkWhenValid(f, v) { assert v == 0 || v == 1; }
    RootReached(f, 0);
    forall v: nat | Reaches(f, 0, v) ensures v < |f.uses| {
      var path: seq<nat> :| Chain(f, 0, path) && path[|path| - 1] == v;
      ReachedInside(f, 0, path, |path| - 1);
    }
  }

  ghost predicate UsesOkWhenValid(f: Func, v: nat) { WellFormed(f) && v < |f.uses| ==> UsesOk(f, 8, v) }

  /** A compare-and-exchange that stores the object's address is accepted. */
  lemma AtomicStoreAccepted()
    ensures var f := OneUse(AtomicStoreOf(1), Range(0, 1)); WellFormed(f) && Accepted(f, 0, 8) && !AllSafe(f, 0, 8)
  {
    var f := OneUse(AtomicStoreOf(1), Range(0, 1));
    OneUseAccepted(AtomicStoreOf(1), Range(0, 1));
    assert !SafeUse(f.m, f.range[0], 8, f.uses[0][0]);
  }

  /** An atomic read-modify-write of 8 bytes, 4096 bytes behind the object's start, is accepted. */
  lemma AtomicOutOfBoundsAccepted()
    ensures var f := OneUse(AtomicThrough(8, 1), Range(4096, 4097)); WellFormed(f) && Accepted(f, 0, 8) && !AllSafe(f, 0, 8)
  {
    var f := OneUse(AtomicThrough(8, 1), Range(4096, 4097));
    OneUseAccepted(AtomicThrough(8, 1), Range(4096, 4097));
    assert In(f.m, f.range[0], 4096) && !ByteInside(f.m, 4096, 0, 8);
    assert !SafeUse(f.m, f.range[0], 8, f.uses[0][0]);
  }
}
