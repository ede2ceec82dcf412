/**
 The unsafe stack at run time: what the code emitted by the safe-stack pass does to the unsafe
 stack pointer.  A run is any sequence of calls, dynamic allocas, stacksave/stackrestore
 pairs, resumptions at a restore point (after longjmp or at a landing pad) and returns.

 The order of slots in a static frame comes from the stack-layout and lifetime analyses, which
 enter through the contract `LayoutOk`.  Addresses are naturals: an operation is enabled only
 while the address space below the pointer suffices.
 */
module UnsafeStack {
  const STACK_ALIGNMENT: nat := 16

  function Max(a: nat, b: nat): nat { if a < b then b else a }

  /** What AND with `a` - 1 leaves of `x`, for a power of two `a`; `RemIsMod` says it is `x % a`. */
  function Rem(x: nat, a: nat): (r: nat)
    requires a > 0
    ensures r < a && r <= x
  {
    if x < a then x else Rem(x - a, a)
  }

  /** AND with the complement of `a` - 1, for a power of two `a`. */
  function AlignDown(x: nat, a: nat): nat
    requires a > 0
  {
    x - Rem(x, a)
  }

  function AlignUp(x: nat, a: nat): nat
    requires a > 0
  {
    AlignDown(x + a - 1, a)
  }

  predicate Pow2(n: nat) { n == 1 || (n > 0 && n % 2 == 0 && Pow2(n / 2)) }

  // ----- compiled functions -----

  /** An unsafe static object: it lies `offset` bytes below the frame's base. */
  datatype Slot = Slot(size: nat, align: nat, offset: nat)

  /** `together(i, j)`: the two objects may be live at the same time. */
  datatype Layout = Layout(slots: seq<Slot>, size: nat, align: nat, together: (nat, nat) -> bool)

  /** `dynamic`: has unsafe dynamic allocas; `restorePoints`: has setjmp calls or landing pads. */
  datatype Func = Func(layout: Layout, dynamic: bool, restorePoints: bool)

  /** Zero-sized objects are given one byte. */
  function Size(s: Slot): nat { if s.size == 0 then 1 else s.size }

  ghost predicate SlotOk(l: Layout, s: Slot) {
    && Pow2(s.align) && s.align <= l.align && Rem(s.offset, s.align) == 0
    && Size(s) <= s.offset <= l.size
  }

  ghost predicate Apart(a: Slot, b: Slot) {
    a.offset + Size(b) <= b.offset || b.offset + Size(a) <= a.offset
  }

  ghost predicate LayoutOk(l: Layout) {
    && Pow2(l.align)
    && (forall i: nat | i < |l.slots| :: SlotOk(l, l.slots[i]))
    && (forall i: nat, j: nat | i < j < |l.slots| && (l.together(i, j) || l.together(j, i)) :: Apart(l.slots[i], l.slots[j]))
  }

  // ----- states -----

  datatype Extent = Extent(start: nat, size: nat)

  /** A stacksave token: the pointer, and how many dynamic objects there were. */
  datatype Save = Save(sp: nat, count: nat)

  /**
   One activation.  `dt` is the dynamic-top variable, which exists only in functions with both
   restore points and dynamic allocas.
   */
  datatype Frame = Frame(fn: Func, entry: nat, base: nat, staticTop: nat, dt: nat, live: set<nat>, dyns: seq<Extent>, saves: seq<Save>)

  datatype State = State(sp: nat, frames: seq<Frame>)

  datatype Op =
    | Call(fn: Func)
    | Lifetime(live: set<nat>)
    | Alloca(count: nat, unit: nat, typeAlign: nat, align: nat)
    | StackSave
    | StackRestore(token: nat)
    | Resume(depth: nat)
    | Return

  predicate HasDynamicTop(fn: Func) { fn.dynamic && fn.restorePoints }

  // ----- the emitted code -----

  /** The base pointer, re-aligned when a slot asks for more than the stack alignment. */
  function Base(fn: Func, sp: nat): nat
    requires fn.layout.align > 0
  {
    if fn.layout.slots != [] && fn.layout.align > STACK_ALIGNMENT then AlignDown(sp, fn.layout.align) else sp
  }

  /** Without static objects the prologue leaves the pointer alone. */
  function FrameSize(fn: Func): nat {
    if fn.layout.slots == [] then 0 else AlignUp(fn.layout.size, STACK_ALIGNMENT)
  }

  function AllocaAlign(typeAlign: nat, align: nat): nat { Max(Max(typeAlign, align), STACK_ALIGNMENT) }

  function Top(s: State): Frame
    requires s.frames != []
  {
    s.frames[|s.frames| - 1]
  }

  function WithTop(s: State, f: Frame, sp: nat): State
    requires s.frames != []
  {
    State(sp, s.frames[..|s.frames| - 1] + [f])
  }

  /** What a restore point loads into the pointer. */
  function ResumePoint(f: Frame): nat { if HasDynamicTop(f.fn) then f.dt else f.staticTop }

  /** What the program and the analyses promise about an operation, and that the space suffices. */
  ghost predicate Enabled(s: State, op: Op) {
    match op
    case Call(fn) => LayoutOk(fn.layout) && fn.layout.align > 0 && FrameSize(fn) <= Base(fn, s.sp)
    case Lifetime(live) => s.frames != [] && LiveOk(Top(s).fn.layout, live)
    case Alloca(count, unit, typeAlign, align) =>
      && s.frames != [] && Top(s).fn.dynamic && Pow2(typeAlign) && Pow2(align)
      && count * unit <= s.sp
    case StackSave => s.frames != [] && Top(s).fn.dynamic
    case StackRestore(token) => s.frames != [] && Top(s).fn.dynamic && token < |Top(s).saves|
    case Resume(depth) => depth < |s.frames| && s.frames[depth].fn.restorePoints
    case Return => s.frames != []
  }

  /** Objects live at the same time are known to the lifetime analysis as such. */
  ghost predicate LiveOk(l: Layout, live: set<nat>) {
    && (forall i: nat | i in live :: i < |l.slots|)
    && (forall i: nat, j: nat | i in live && j in live && i < j :: l.together(i, j) || l.together(j, i))
  }

  ghost function Step(s: State, op: Op): State
    requires Enabled(s, op)
  {
    match op
    case Call(fn) =>
      var base := Base(fn, s.sp);
      var top := base - FrameSize(fn);
      State(top, s.frames + [Frame(fn, s.sp, base, top, top, {}, [], [])])
    case Lifetime(live) =>
      WithTop(s, Top(s).(live := live), s.sp)
    case Alloca(count, unit, typeAlign, align) =>
      var top := AlignDown(s.sp - count * unit, AllocaAlign(typeAlign, align));
      var f := Top(s).(dyns := Top(s).dyns + [Extent(top, count * unit)]);
      WithTop(s, if HasDynamicTop(f.fn) then f.(dt := top) else f, top)
    case StackSave =>
      WithTop(s, Top(s).(saves := Top(s).saves + [Save(s.sp, |Top(s).dyns|)]), s.sp)
    case StackRestore(token) =>
      var f := Top(s);
      var save := f.saves[token];
      WithTop(s, f.(dyns := if save.count <= |f.dyns| then f.dyns[..save.count] else f.dyns, saves := f.saves[..token + 1]), save.sp)
    case Resume(depth) =>
      State(ResumePoint(s.frames[depth]), s.frames[..depth + 1])
    case Return =>
      State(Top(s).entry, s.frames[..|s.frames| - 1])
  }

  // ----- the discipline -----

  ghost predicate Aligned(x: nat) { Rem(x, 16) == 0 }

  ghost predicate TopsOk(f: Frame, low: nat) {
    && low <= f.staticTop <= f.base <= f.entry && f.staticTop + FrameSize(f.fn) == f.base
    && Aligned(low) && Aligned(f.staticTop) && Aligned(f.entry)
    && (HasDynamicTop(f.fn) ==> f.dt <= low && Aligned(f.dt))
  }

  ghost predicate StaticsOk(f: Frame) {
    && LayoutOk(f.fn.layout) && LiveOk(f.fn.layout, f.live) && f.fn.layout.align > 0
    && (f.fn.layout.slots != [] ==> Rem(f.base, Max(f.fn.layout.align, 16)) == 0)
  }

  /** Dynamic objects lie below the static ones, each below the one before it. */
  ghost predicate DynsOk(f: Frame, low: nat) {
    && (!f.fn.dynamic ==> f.dyns == [] && f.saves == [] && low == f.staticTop)
    && (forall j: nat | j < |f.dyns| :: low <= f.dyns[j].start && f.dyns[j].start + f.dyns[j].size <= f.staticTop)
    && (forall j: nat, k: nat | j < k < |f.dyns| :: f.dyns[k].start + f.dyns[k].size <= f.dyns[j].start)
  }

  ghost predicate SavesOk(f: Frame, low: nat) {
    && (forall k: nat | k < |f.saves| :: low <= f.saves[k].sp <= f.staticTop && Aligned(f.saves[k].sp) && f.saves[k].count <= |f.dyns|)
    && (forall k: nat, j: nat | k < |f.saves| && j < f.saves[k].count && j < |f.dyns| :: f.saves[k].sp <= f.dyns[j].start)
    && (forall k: nat, l: nat | k < l < |f.saves| :: f.saves[l].sp <= f.saves[k].sp && f.saves[k].count <= f.saves[l].count)
  }

  ghost predicate FrameOk(f: Frame, low: nat) {
    TopsOk(f, low) && StaticsOk(f) && DynsOk(f, low) && SavesOk(f, low)
  }

  /** The unsafe pointer as frame `i` last left it. */
  ghost function Low(s: State, i: nat): nat
    requires i < |s.frames|
  {
    if i + 1 < |s.frames| then s.frames[i + 1].entry else s.sp
  }

  ghost predicate Settled(s: State, i: nat) { i < |s.frames| ==> FrameOk(s.frames[i], Low(s, i)) }

  ghost predicate Inv(s: State) { Aligned(s.sp) && forall i: nat :: Settled(s, i) }

  // ----- alignment -----

  lemma ModHalf(a: nat, b: nat)
    requires a > 0 && b % a == 0
    ensures (2 * b) % (2 * a) == 0
  {
    var q := b / a;
    assert b == q * a;
    assert 2 * b == q * (2 * a);
    ModMultiple(q, 2 * a);
  }

  lemma ModMultiple(q: int, a: nat)
    requires a > 0
    ensures (q * a) % a == 0
  {
    var x := q * a;
    Factor(q, x / a, x % a, a);
  }

  lemma Factor(q: int, d: int, r: nat, a: nat)
    requires q * a == d * a + r && r < a
    ensures r == 0
  {
    var e := q - d;
    assert e * a == r;
    assert e * a == r ==> e < 1 || (e - 1) * a >= 0;
  }

  /** A smaller power of two divides a larger one. */
  lemma {:induction false} Pow2Divides(a: nat, b: nat)
    requires Pow2(a) && Pow2(b) && a <= b
    ensures b % a == 0
  {
    if a > 1 {
      Pow2Divides(a / 2, b / 2);
      ModHalf(a / 2, b / 2);
      assert a == 2 * (a / 2) && b == 2 * (b / 2);
    }
  }

  lemma DividesTrans(a: nat, b: nat, x: nat)
    requires a > 0 && b > 0 && b % a == 0 && x % b == 0
    ensures x % a == 0
  {
    var q, r := b / a, x / b;
    assert b == q * a && x == r * b;
    assert r * (q * a) == (r * q) * a;
    ModMultiple(r * q, a);
  }

  /** Taking `a` away as often as it goes leaves the remainder of the division. */
  lemma {:induction false} RemIsMod(x: nat, a: nat)
    requires a > 0
    ensures Rem(x, a) == x % a
  {
    if x >= a {
      RemIsMod(x - a, a);
      var d, r := (x - a) / a, (x - a) % a;
      assert x - a == d * a + r;
      assert (d + 1) * a == d * a + a;
      SameRest(x / a, x % a, d + 1, r, a);
    } else {
      SameRest(x / a, x % a, 0, x, a);
    }
  }

  lemma SameRest(q: int, r: nat, d: int, t: nat, a: nat)
    requires q * a + r == d * a + t && r < a && t < a
    ensures r == t
  {
    if r <= t { Factor(q, d, t - r, a); } else { Factor(d, q, r - t, a); }
  }

  lemma AlignDownOk(x: nat, a: nat)
    requires a > 0
    ensures AlignDown(x, a) <= x < AlignDown(x, a) + a && AlignDown(x, a) % a == 0 && Rem(AlignDown(x, a), a) == 0
  {
    RemIsMod(x, a);
    assert x == (x / a) * a + x % a;
    ModMultiple(x / a, a);
    RemIsMod(AlignDown(x, a), a);
  }

  lemma MaxPow2(a: nat, b: nat)
    requires Pow2(a) && Pow2(b)
    ensures Pow2(Max(a, b)) && Max(a, b) > 0
  {
  }

  lemma Sixteen()
    ensures Pow2(16)
  {
    assert Pow2(1) && Pow2(2) && Pow2(4) && Pow2(8);
  }

  lemma AlignDownAligned(x: nat, a: nat)
    requires Pow2(a) && a >= 16
    ensures AlignDown(x, a) <= x && Aligned(AlignDown(x, a)) && Rem(AlignDown(x, a), a) == 0
  {
    Sixteen();
    Pow2Divides(16, a);
    AlignDownOk(x, a);
    DividesTrans(16, a, AlignDown(x, a));
    RemIsMod(AlignDown(x, a), 16);
  }

  lemma SubMod(x: nat, y: nat, a: nat)
    requires a > 0 && y <= x && x % a == 0 && y % a == 0
    ensures (x - y) % a == 0
  {
    var q, r := x / a, y / a;
    assert x == q * a && y == r * a;
    assert x - y == (q - r) * a;
    ModMultiple(q - r, a);
  }

  lemma SubRem(x: nat, y: nat, a: nat)
    requires a > 0 && y <= x && Rem(x, a) == 0 && Rem(y, a) == 0
    ensures Rem(x - y, a) == 0
  {
    RemIsMod(x, a);
    RemIsMod(y, a);
    SubMod(x, y, a);
    RemIsMod(x - y, a);
  }

  // ----- every operation keeps the discipline -----

  lemma BaseOk(fn: Func, sp: nat)
    requires Aligned(sp) && Pow2(fn.layout.align)
    ensures Base(fn, sp) <= sp && Aligned(Base(fn, sp))
    ensures fn.layout.slots != [] ==> Rem(Base(fn, sp), Max(fn.layout.align, 16)) == 0
  {
    if fn.layout.align > 16 { AlignDownAligned(sp, fn.layout.align); }
  }

  lemma FrameSizeOk(fn: Func)
    ensures Aligned(FrameSize(fn))
  {
    AlignDownOk(fn.layout.size + 15, 16);
  }

  /** A fresh frame: the base below the entry, the top a frame size below the base. */
  lemma FreshFrameOk(fn: Func, entry: nat, base: nat, top: nat)
    requires LayoutOk(fn.layout) && fn.layout.align > 0 && Aligned(entry) && Aligned(top)
    requires top + FrameSize(fn) == base <= entry && (fn.layout.slots != [] ==> Rem(base, Max(fn.layout.align, 16)) == 0)
    ensures FrameOk(Frame(fn, entry, base, top, top, {}, [], []), top)
  {
  }

  lemma CallOk(fn: Func, sp: nat, base: nat, top: nat)
    requires LayoutOk(fn.layout) && Aligned(sp) && fn.layout.align > 0 && base == Base(fn, sp) && top + FrameSize(fn) == base
    ensures FrameOk(Frame(fn, sp, base, top, top, {}, [], []), top)
  {
    BaseOk(fn, sp);
    FrameSizeOk(fn);
    SubRem(base, FrameSize(fn), 16);
    FreshFrameOk(fn, sp, base, top);
  }

  /** A new object at `top`, somewhere in the free part below `sp`. */
  ghost function Grown(f: Frame, top: nat, bytes: nat): Frame {
    var g := f.(dyns := f.dyns + [Extent(top, bytes)]);
    if HasDynamicTop(f.fn) then g.(dt := top) else g
  }

  lemma GrownTops(f: Frame, sp: nat, top: nat, bytes: nat)
    requires TopsOk(f, sp) && StaticsOk(f) && top + bytes <= sp && Aligned(top)
    ensures TopsOk(Grown(f, top, bytes), top) && StaticsOk(Grown(f, top, bytes))
  {
  }

  lemma GrownDyns(f: Frame, sp: nat, top: nat, bytes: nat)
    requires sp <= f.staticTop && DynsOk(f, sp) && top + bytes <= sp && f.fn.dynamic
    ensures DynsOk(Grown(f, top, bytes), top)
  {
  }

  lemma GrownSaves(f: Frame, sp: nat, top: nat, bytes: nat)
    requires SavesOk(f, sp) && top <= sp
    ensures SavesOk(Grown(f, top, bytes), top)
  {
  }

  lemma AllocaTop(sp: nat, bytes: nat, typeAlign: nat, align: nat)
    requires Pow2(typeAlign) && Pow2(align) && bytes <= sp
    ensures var top := AlignDown(sp - bytes, AllocaAlign(typeAlign, align)); top + bytes <= sp && Aligned(top)
  {
    Sixteen();
    MaxPow2(typeAlign, align);
    MaxPow2(Max(typeAlign, align), 16);
    AlignDownAligned(sp - bytes, AllocaAlign(typeAlign, align));
  }

  lemma SaveOk(f: Frame, sp: nat)
    requires FrameOk(f, sp) && f.fn.dynamic
    ensures FrameOk(f.(saves := f.saves + [Save(sp, |f.dyns|)]), sp)
  {
  }

  ghost function Restored(f: Frame, token: nat): Frame
    requires token < |f.saves| && f.saves[token].count <= |f.dyns|
  {
    f.(dyns := f.dyns[..f.saves[token].count], saves := f.saves[..token + 1])
  }

  lemma RestoredDyns(f: Frame, sp: nat, token: nat)
    requires DynsOk(f, sp) && SavesOk(f, sp) && f.fn.dynamic && token < |f.saves|
    ensures DynsOk(Restored(f, token), f.saves[token].sp)
  {
  }

  lemma RestoredSaves(f: Frame, sp: nat, token: nat)
    requires SavesOk(f, sp) && token < |f.saves|
    ensures SavesOk(Restored(f, token), f.saves[token].sp)
  {
    var g := Restored(f, token);
    forall k: nat | k < |g.saves|
      ensures f.saves[token].sp <= g.saves[k].sp <= g.staticTop && Aligned(g.saves[k].sp) && g.saves[k].count <= |g.dyns|
    {
      assert g.saves[k] == f.saves[k] && (k < token || k == token);
    }
  }

  lemma RestoreOk(f: Frame, sp: nat, token: nat)
    requires FrameOk(f, sp) && f.fn.dynamic && token < |f.saves|
    ensures f.saves[token].count <= |f.dyns|
    ensures FrameOk(Restored(f, token), f.saves[token].sp)
  {
    RestoredDyns(f, sp, token);
    RestoredSaves(f, sp, token);
  }

  lemma ResumeOk(f: Frame, low: nat)
    requires FrameOk(f, low) && f.fn.restorePoints
    ensures FrameOk(f, ResumePoint(f))
  {
  }

  lemma TopOk(s: State)
    requires Inv(s) && s.frames != []
    ensures FrameOk(Top(s), s.sp)
  {
    FrameAt(s, |s.frames| - 1);
  }

  lemma FrameAt(s: State, i: nat)
    requires Inv(s) && i < |s.frames|
    ensures FrameOk(s.frames[i], Low(s, i))
  {
    assert Settled(s, i);
  }

  /** A frame that is left alone, with the same room below it. */
  lemma SameFrame(s: State, t: State, i: nat)
    requires Inv(s) && i < |s.frames| && i < |t.frames| && t.frames[i] == s.frames[i] && Low(t, i) == Low(s, i)
    ensures FrameOk(t.frames[i], Low(t, i))
  {
    FrameAt(s, i);
  }

  lemma TopReplaced(s: State, f: Frame, sp: nat)
    requires Inv(s) && s.frames != [] && FrameOk(f, sp) && f.entry == Top(s).entry
    ensures Inv(WithTop(s, f, sp))
  {
    var t := WithTop(s, f, sp);
    forall i: nat ensures Settled(t, i) {
      if i + 1 < |t.frames| { SameFrame(s, t, i); }
    }
  }

  /** The frames up to `depth`, with a pointer that suits the last of them. */
  lemma Cut(s: State, depth: nat, t: State)
    requires Inv(s) && depth < |s.frames| && FrameOk(s.frames[depth], t.sp) && t.frames == s.frames[..depth + 1]
    ensures Inv(t)
  {
    forall i: nat ensures Settled(t, i) {
      if i < depth { SameFrame(s, t, i); }
    }
  }

  lemma Pushed(s: State, f: Frame, sp: nat)
    requires Inv(s) && FrameOk(f, sp) && f.entry == s.sp
    ensures Inv(State(sp, s.frames + [f]))
  {
    var t := State(sp, s.frames + [f]);
    forall i: nat ensures Settled(t, i) {
      if i < |s.frames| { SameFrame(s, t, i); }
    }
  }

  lemma GrownKeeps(s: State, top: nat, bytes: nat)
    requires Inv(s) && s.frames != [] && Top(s).fn.dynamic && top + bytes <= s.sp && Aligned(top)
    ensures Inv(WithTop(s, Grown(Top(s), top, bytes), top))
  {
    var f := Top(s);
    TopOk(s);
    GrownTops(f, s.sp, top, bytes);
    GrownDyns(f, s.sp, top, bytes);
    GrownSaves(f, s.sp, top, bytes);
    TopReplaced(s, Grown(f, top, bytes), top);
  }

  lemma AllocaIs(s: State, op: Op, bytes: nat, top: nat)
    requires op.Alloca? && Enabled(s, op) && bytes == op.count * op.unit
    requires top == AlignDown(s.sp - bytes, AllocaAlign(op.typeAlign, op.align))
    ensures Step(s, op) == WithTop(s, Grown(Top(s), top, bytes), top)
  {
  }

  lemma AllocaKeeps(s: State, op: Op, bytes: nat, top: nat)
    requires Inv(s) && op.Alloca? && Enabled(s, op) && bytes == op.count * op.unit
    requires top == AlignDown(s.sp - bytes, AllocaAlign(op.typeAlign, op.align))
    ensures Inv(Step(s, op))
  {
    AllocaTop(s.sp, bytes, op.typeAlign, op.align);
    GrownKeeps(s, top, bytes);
    AllocaIs(s, op, bytes, top);
  }

  lemma SaveKeeps(s: State)
    requires Inv(s) && Enabled(s, StackSave)
    ensures Inv(Step(s, StackSave))
  {
    TopOk(s);
    SaveOk(Top(s), s.sp);
    TopReplaced(s, Top(s).(saves := Top(s).saves + [Save(s.sp, |Top(s).dyns|)]), s.sp);
  }

  /** A restore whose token is valid is a replacement of the top frame. */
  lemma RestoreIs(s: State, token: nat)
    requires Enabled(s, StackRestore(token)) && Top(s).saves[token].count <= |Top(s).dyns|
    ensures Step(s, StackRestore(token)) == WithTop(s, Restored(Top(s), token), Top(s).saves[token].sp)
    ensures Restored(Top(s), token).entry == Top(s).entry
  {
  }

  lemma RestoreKeeps(s: State, token: nat, t: State)
    requires Inv(s) && Enabled(s, StackRestore(token)) && t == Step(s, StackRestore(token))
    ensures Inv(t)
  {
    TopOk(s);
    RestoreOk(Top(s), s.sp, token);
    RestoreIs(s, token);
    TopReplaced(s, Restored(Top(s), token), Top(s).saves[token].sp);
  }

  lemma LifetimeKeeps(s: State, live: set<nat>)
    requires Inv(s) && Enabled(s, Lifetime(live))
    ensures Inv(Step(s, Lifetime(live)))
  {
    TopOk(s);
    TopReplaced(s, Top(s).(live := live), s.sp);
  }

  lemma ReturnKeeps(s: State)
    requires Inv(s) && Enabled(s, Return)
    ensures Inv(Step(s, Return))
  {
    var t, depth := Step(s, Return), |s.frames| - 2;
    if depth < 0 {
      TopOk(s);
    } else {
      FrameAt(s, depth);
      assert Low(s, depth) == t.sp;
      Cut(s, depth, t);
    }
  }

  lemma ResumeKeepsInv(s: State, depth: nat, t: State)
    requires Inv(s) && Enabled(s, Resume(depth)) && t == Step(s, Resume(depth))
    ensures Inv(t)
  {
    FrameAt(s, depth);
    ResumeOk(s.frames[depth], Low(s, depth));
    Cut(s, depth, t);
  }

  /** Each operation of a run keeps the whole discipline, whatever came before. */
  lemma StepKeepsInv(s: State, op: Op)
    requires Inv(s) && Enabled(s, op)
    ensures Inv(Step(s, op))
  {
    match op
    case Call(fn) =>
      var top := Base(fn, s.sp) - FrameSize(fn);
      CallOk(fn, s.sp, Base(fn, s.sp), top);
      Pushed(s, Frame(fn, s.sp, Base(fn, s.sp), top, top, {}, [], []), top);
    case Lifetime(live) => LifetimeKeeps(s, live);
    case Alloca(count, unit, typeAlign, align) =>
      AllocaKeeps(s, op, count * unit, AlignDown(s.sp - count * unit, AllocaAlign(typeAlign, align)));
    case StackSave => SaveKeeps(s);
    case StackRestore(token) => RestoreKeeps(s, token, Step(s, op));
    case Resume(depth) => ResumeKeepsInv(s, depth, Step(s, op));
    case Return => ReturnKeeps(s);
  }

  // ----- whole runs -----

  ghost predicate Runs(s: State, ops: seq<Op>)
    decreases |ops|
  {
    ops == [] || (Enabled(s, ops[0]) && Runs(Step(s, ops[0]), ops[1..]))
  }

  ghost function After(s: State, ops: seq<Op>): State
    requires Runs(s, ops)
    decreases |ops|
  {
    if ops == [] then s else After(Step(s, ops[0]), ops[1..])
  }

  lemma {:induction false} RunKeepsInv(s: State, ops: seq<Op>)
    requires Inv(s) && Runs(s, ops)
    ensures Inv(After(s, ops))
    decreases |ops|
  {
    if ops != [] {
      StepKeepsInv(s, ops[0]);
      RunKeepsInv(Step(s, ops[0]), ops[1..]);
    }
  }

  /** An object is named by its frame and its place among the static or the dynamic objects. */
  datatype Name = Static(frame: nat, slot: nat) | Dynamic(frame: nat, index: nat)

  ghost predicate Live(s: State, n: Name) {
    && n.frame < |s.frames|
    && match n { case Static(i, j) => j in s.frames[i].live && j < |s.frames[i].fn.layout.slots| case Dynamic(i, j) => j < |s.frames[i].dyns| }
  }

  ghost function Address(s: State, n: Name): int
    requires Live(s, n)
  {
    match n
    case Static(i, j) => s.frames[i].base - s.frames[i].fn.layout.slots[j].offset
    case Dynamic(i, j) => s.frames[i].dyns[j].start
  }

  ghost function Bytes(s: State, n: Name): nat
    requires Live(s, n)
  {
    match n
    case Static(i, j) => Size(s.frames[i].fn.layout.slots[j])
    case Dynamic(i, j) => s.frames[i].dyns[j].size
  }

  ghost predicate Disjoint(s: State, a: Name, b: Name)
    requires Live(s, a) && Live(s, b)
  {
    Address(s, a) + Bytes(s, a) <= Address(s, b) || Address(s, b) + Bytes(s, b) <= Address(s, a)
  }

  lemma AlignUpCovers(x: nat)
    ensures x <= AlignUp(x, 16)
  {
    AlignDownOk(x + 15, 16);
  }

  /** Every live object lies inside its own frame's part of the stack. */
  lemma InsideFrame(s: State, n: Name)
    requires Inv(s) && Live(s, n)
    ensures Low(s, n.frame) <= Address(s, n) && Address(s, n) + Bytes(s, n) <= s.frames[n.frame].entry
    ensures n.Static? ==> s.frames[n.frame].staticTop <= Address(s, n)
    ensures n.Dynamic? ==> Address(s, n) + Bytes(s, n) <= s.frames[n.frame].staticTop
  {
    var f := s.frames[n.frame];
    FrameAt(s, n.frame);
    if n.Static? {
      assert SlotOk(f.fn.layout, f.fn.layout.slots[n.slot]);
      AlignUpCovers(f.fn.layout.size);
    }
  }

  ghost predicate BelowEntry(s: State, i: nat) { i < |s.frames| ==> Low(s, i) <= s.frames[i].entry }

  ghost predicate Descends(s: State) { forall i: nat :: BelowEntry(s, i) }

  lemma InvDescends(s: State)
    requires Inv(s)
    ensures Descends(s)
  {
    forall i: nat ensures BelowEntry(s, i) {
      if i < |s.frames| { FrameAt(s, i); }
    }
  }

  /** A frame lies above everything its callees use. */
  lemma {:induction false} FramesDescend(s: State, i: nat, j: nat)
    requires Descends(s) && i < j < |s.frames|
    ensures s.frames[j].entry <= Low(s, i)
    decreases j - i
  {
    if i + 1 < j {
      FramesDescend(s, i + 1, j);
      assert BelowEntry(s, i + 1);
    }
  }

  lemma {:induction false} AbovePointer(s: State, i: nat)
    requires Descends(s) && i < |s.frames|
    ensures s.sp <= Low(s, i)
    decreases |s.frames| - i
  {
    if i + 1 < |s.frames| {
      AbovePointer(s, i + 1);
      assert BelowEntry(s, i + 1);
    }
  }

  /** Live objects never overlap and all lie at or above the unsafe stack pointer. */
  lemma LiveDisjoint(s: State, a: Name, b: Name)
    requires Inv(s) && Live(s, a) && Live(s, b) && a != b
    ensures Disjoint(s, a, b) && s.sp <= Address(s, a)
  {
    InsideFrame(s, a);
    InsideFrame(s, b);
    InvDescends(s);
    AbovePointer(s, a.frame);
    if a.frame < b.frame {
      FramesDescend(s, a.frame, b.frame);
    } else if b.frame < a.frame {
      FramesDescend(s, b.frame, a.frame);
    } else if a.Static? && b.Static? {
      StaticDisjoint(s, a, b);
    } else if a.Dynamic? && b.Dynamic? {
      var f := s.frames[a.frame];
      FrameAt(s, a.frame);
    }
  }

  lemma StaticDisjoint(s: State, a: Name, b: Name)
    requires Inv(s) && Live(s, a) && Live(s, b) && a != b && a.Static? && b.Static? && a.frame == b.frame
    ensures Disjoint(s, a, b)
  {
    var f := s.frames[a.frame];
    var l := f.fn.layout;
    FrameAt(s, a.frame);
    var i, j := if a.slot < b.slot then a.slot else b.slot, if a.slot < b.slot then b.slot else a.slot;
    assert l.together(i, j) || l.together(j, i);
    assert Apart(l.slots[i], l.slots[j]);
  }

  /** No two live static objects have the same address, even when they have no bytes. */
  lemma StaticsDistinct(s: State, a: Name, b: Name)
    requires Inv(s) && Live(s, a) && Live(s, b) && a != b && a.Static? && b.Static?
    ensures Address(s, a) != Address(s, b)
  {
    LiveDisjoint(s, a, b);
  }

  ghost function AlignAsked(s: State, n: Name): nat
    requires Live(s, n) && n.Static?
  {
    s.frames[n.frame].fn.layout.slots[n.slot].align
  }

  /** Static objects get the alignment they ask for. */
  lemma StaticAligned(s: State, n: Name)
    requires Inv(s) && Live(s, n) && n.Static?
    ensures 0 <= Address(s, n) && Pow2(AlignAsked(s, n)) && Rem(Address(s, n), AlignAsked(s, n)) == 0
  {
    var f := s.frames[n.frame];
    FrameAt(s, n.frame);
    var slot := f.fn.layout.slots[n.slot];
    var m := Max(f.fn.layout.align, 16);
    assert SlotOk(f.fn.layout, slot);
    Sixteen();
    MaxPow2(f.fn.layout.align, 16);
    InsideFrame(s, n);
    AlignedBelow(f.base, slot.offset, slot.align, m);
  }

  lemma AlignedBelow(base: nat, offset: nat, a: nat, m: nat)
    requires Pow2(a) && Pow2(m) && a <= m && offset <= base && Rem(base, m) == 0 && Rem(offset, a) == 0
    ensures Rem(base - offset, a) == 0
  {
    Pow2Divides(a, m);
    RemIsMod(base, m);
    DividesTrans(a, m, base);
    RemIsMod(base, a);
    SubRem(base, offset, a);
  }

  lemma MultipleBelow(q: nat, x: nat, a: nat)
    requires a > 0 && Rem(q, a) == 0 && q <= x
    ensures q <= AlignDown(x, a)
  {
    RemIsMod(q, a);
    RemIsMod(x, a);
    DivFloor(q, x, a);
    assert x == a * (x / a) + x % a && q == a * (q / a);
    assert a * (q / a) <= a * (x / a);
  }

  lemma DivFloor(q: nat, x: nat, a: nat)
    requires a > 0 && q <= x
    ensures q / a <= x / a && a * (q / a) <= a * (x / a)
  {
    var m, k := q / a, x / a;
    assert q == a * m + q % a && x == a * k + x % a;
    if k < m {
      TimesMonotone(a, k + 1, m);
      assert false;
    }
    TimesMonotone(a, m, k);
  }

  lemma TimesMonotone(a: nat, x: nat, y: nat)
    requires x <= y
    ensures a * x <= a * y
  {
  }

  /** What is left of the base for the frame: the least multiple of 16 that holds the static objects. */
  lemma FrameSizeLeast(fn: Func)
    ensures fn.layout.slots == [] ==> FrameSize(fn) == 0
    ensures fn.layout.slots != [] ==> FrameSize(fn) % 16 == 0 && fn.layout.size <= FrameSize(fn) < fn.layout.size + 16
  {
    AlignDownOk(fn.layout.size + 15, 16);
  }

  /** A call puts the base as high as the alignment of the objects allows, at the pointer itself when 16 bytes
      suffice or there are none, and the pointer a frame below it. */
  lemma CallDelivers(s: State, fn: Func)
    requires Inv(s) && Enabled(s, Call(fn))
    ensures var t := Step(s, Call(fn)); var f := Top(t);
      && t.frames[..|s.frames|] == s.frames && |t.frames| == |s.frames| + 1 && f.fn == fn && f.entry == s.sp
      && (fn.layout.slots == [] || fn.layout.align <= 16 ==> f.base == s.sp)
      && (fn.layout.slots != [] && fn.layout.align > 16 ==> Rem(f.base, fn.layout.align) == 0 && f.base <= s.sp)
      && (fn.layout.slots != [] && fn.layout.align > 16 ==> forall q: nat :: Rem(q, fn.layout.align) == 0 && q <= s.sp ==> q <= f.base)
      && t.sp == f.staticTop == f.base - FrameSize(fn) && f.live == {} && f.dyns == [] && f.saves == []
  {
    if fn.layout.slots != [] && fn.layout.align > 16 {
      AlignDownOk(s.sp, fn.layout.align);
      forall q: nat | Rem(q, fn.layout.align) == 0 && q <= s.sp ensures q <= Base(fn, s.sp) { MultipleBelow(q, s.sp, fn.layout.align); }
    }
  }

  /** A dynamic object lies as high as its size and its alignments, its type's and 16 allow. */
  lemma AllocaHighest(s: State, op: Op, q: nat)
    requires Inv(s) && op.Alloca? && Enabled(s, op)
    requires q + op.count * op.unit <= s.sp && Rem(q, op.typeAlign) == 0 && Rem(q, op.align) == 0 && Rem(q, 16) == 0
    ensures q <= Step(s, op).sp
  {
    var a := AllocaAlign(op.typeAlign, op.align);
    assert a == op.typeAlign || a == op.align || a == 16;
    MultipleBelow(q, s.sp - op.count * op.unit, a);
  }

  /** Resuming loads the dynamic top where the function keeps one, that is with dynamic allocas and restore
      points, and the static top otherwise; a restore brings back the saved pointer and objects. */
  lemma RestoresWhatWasSaved(s: State, op: Op)
    requires Enabled(s, op)
    ensures op.Resume? ==> var f := s.frames[op.depth];
      Step(s, op) == State(if f.fn.dynamic && f.fn.restorePoints then f.dt else f.staticTop, s.frames[..op.depth + 1])
    ensures op.StackSave? ==> var t := Step(s, op);
      t.sp == s.sp && |Top(t).saves| == |Top(s).saves| + 1 && Top(t).saves[|Top(s).saves|] == Save(s.sp, |Top(s).dyns|)
    ensures op.StackRestore? && Top(s).saves[op.token].count <= |Top(s).dyns| ==> var t := Step(s, op);
      t.sp == Top(s).saves[op.token].sp && Top(t).dyns == Top(s).dyns[..Top(s).saves[op.token].count]
  {
  }

  /** Calls, allocas and saves leave every live object live and in place; a change of lifetimes touches the
      static objects of the running function only, and makes exactly those live that it names. */
  lemma ObjectsStay(s: State, op: Op, n: Name)
    requires Enabled(s, op) && Live(s, n) && (op.Call? || op.Alloca? || op.StackSave? || op.Lifetime?)
    ensures var t := Step(s, op);
      || (op.Lifetime? && n.Static? && n.frame == |s.frames| - 1)
      || (Live(t, n) && Address(t, n) == Address(s, n) && Bytes(t, n) == Bytes(s, n))
    ensures op.Lifetime? ==> var t := Step(s, op);
      t.sp == s.sp && forall j: nat :: Live(t, Static(|s.frames| - 1, j)) <==> j in op.live
  {
  }

  /** A fresh dynamic object has its size, its alignment, and clashes with nothing live. */
  lemma AllocaDelivers(s: State, op: Op)
    requires Inv(s) && op.Alloca? && Enabled(s, op)
    ensures var t := Step(s, op); var n := Dynamic(|s.frames| - 1, |Top(s).dyns|);
      && Live(t, n) && Bytes(t, n) == op.count * op.unit
      && Address(t, n) == t.sp && Rem(t.sp, op.typeAlign) == 0 && Rem(t.sp, op.align) == 0
      && Top(t).dt == (if Top(s).fn.dynamic && Top(s).fn.restorePoints then t.sp else Top(s).dt)
      && t.sp + Bytes(t, n) <= s.sp < t.sp + Bytes(t, n) + AllocaAlign(op.typeAlign, op.align)
  {
    var a := AllocaAlign(op.typeAlign, op.align);
    Sixteen();
    MaxPow2(op.typeAlign, op.align);
    MaxPow2(Max(op.typeAlign, op.align), 16);
    var t := Step(s, op);
    AlignDownOk(s.sp - op.count * op.unit, a);
    AlignedBelow(t.sp, 0, op.typeAlign, a);
    AlignedBelow(t.sp, 0, op.align, a);
  }

  /** Resuming at a restore point keeps every live object of the surviving frames. */
  lemma ResumeKeeps(s: State, depth: nat, n: Name)
    requires Inv(s) && Enabled(s, Resume(depth)) && Live(s, n) && n.frame <= depth
    ensures var t := Step(s, Resume(depth));
      Live(t, n) && Address(t, n) == Address(s, n) && Bytes(t, n) == Bytes(s, n) && t.sp <= Address(t, n) && t.sp <= Low(s, depth)
  {
    var t := Step(s, Resume(depth));
    StepKeepsInv(s, Resume(depth));
    assert t.frames[n.frame] == s.frames[n.frame];
    InsideFrame(t, n);
    InvDescends(t);
    AbovePointer(t, n.frame);
    FrameAt(s, depth);
  }

  /** The operations of a call, none of which leaves the frame it opened. */
  ghost predicate StaysAbove(s: State, ops: seq<Op>, depth: nat)
    requires Runs(s, ops)
    decreases |ops|
  {
    |s.frames| > depth && (ops != [] ==> StaysAbove(Step(s, ops[0]), ops[1..], depth))
  }

  lemma {:induction false} CallersUntouched(s: State, ops: seq<Op>, depth: nat)
    requires Runs(s, ops) && StaysAbove(s, ops, depth)
    ensures |After(s, ops).frames| > depth && After(s, ops).frames[..depth] == s.frames[..depth]
    ensures After(s, ops).frames[depth].entry == s.frames[depth].entry
    decreases |ops|
  {
    if ops != [] {
      var t := Step(s, ops[0]);
      assert |t.frames| > depth;
      assert t.frames[..depth] == s.frames[..depth];
      assert t.frames[depth].entry == s.frames[depth].entry;
      CallersUntouched(t, ops[1..], depth);
    }
  }

  /**
   A call, anything it does (nested calls, allocas, restores, resumptions inside it), and its
   return: the state is the one before the call, the pointer exactly so even when the callee
   re-aligned its base.
   */
  lemma ReturnRestores(s: State, fn: Func, ops: seq<Op>)
    requires Enabled(s, Call(fn)) && Runs(Step(s, Call(fn)), ops)
    requires StaysAbove(Step(s, Call(fn)), ops, |s.frames|)
    requires |After(Step(s, Call(fn)), ops).frames| == |s.frames| + 1
    ensures Step(After(Step(s, Call(fn)), ops), Return) == s
  {
    var t := Step(s, Call(fn));
    CallersUntouched(t, ops, |s.frames|);
    var u := After(t, ops);
    assert u.frames[..|s.frames|] == s.frames;
  }

  /**
   Every run from an aligned pointer and no frames: live objects do not overlap and lie above
   the pointer, every frame's tops are aligned, and no dynamic top exceeds the pointer its
   frame left.
   */
  lemma RunSafe(sp: nat, ops: seq<Op>)
    requires Aligned(sp) && Runs(State(sp, []), ops)
    ensures var t := After(State(sp, []), ops);
      && Aligned(t.sp)
      && (forall a: Name, b: Name | Live(t, a) && Live(t, b) && a != b :: Disjoint(t, a, b))
      && (forall a: Name | Live(t, a) :: t.sp <= Address(t, a))
      && (forall i: nat | i < |t.frames| :: Aligned(t.frames[i].staticTop) && (HasDynamicTop(t.frames[i].fn) ==> t.frames[i].dt <= Low(t, i)))
  {
    var t := After(State(sp, []), ops);
    RunKeepsInv(State(sp, []), ops);
    InvDescends(t);
    forall a: Name, b: Name | Live(t, a) && Live(t, b) && a != b ensures Disjoint(t, a, b) {
      LiveDisjoint(t, a, b);
    }
    forall a: Name | Live(t, a) ensures t.sp <= Address(t, a) {
      InsideFrame(t, a);
      AbovePointer(t, a.frame);
    }
    forall i: nat | i < |t.frames| ensures TopsOk(t.frames[i], Low(t, i)) {
      FrameAt(t, i);
    }
  }
}
