/**
 Carrying the predicate state through calls and returns in the high bits of the stack
 pointer.

 `Code` is the rest of one function's run: its stack adjustments, the points where it starts
 to misspeculate, its calls (each with the whole run of the callee inside, the return address
 it expects and the address it resumes at), and how it leaves.  A value of `Code` is therefore
 a finite tree of nested calls.  `Plain` runs it without the pass, `Traced` with the inserted
 instructions.

 The runs are written over the operations of a processor (`Alu`), so that the argument about
 call trees uses only the laws in `Lawful`; `X86` is the processor the pass targets, and
 `X86Lawful` proves the laws for its 64-bit words.
 */
module SpTransport {
  import opened Machine

  datatype Code<W> =
    | Push(bytes: W, rest: Code<W>)
    | Pop(bytes: W, rest: Code<W>)
    | Misspeculate(rest: Code<W>)
    | Call(callee: Code<W>, expected: W, actual: W, rest: Code<W>)
    | Return
    | TailCall(target: Code<W>)

  /** What the instructions do to words of type `W`. */
  datatype Alu<!W> = Alu(
    down: (W, W) -> W,
    up: (W, W) -> W,
    slot: W,
    merge: (W, W) -> W,
    extract: W -> W,
    zero: W,
    poison: W,
    low: W -> bool,
    tag: W -> W)

  // ----- the two runs -----

  /** The stack pointer at the end of the function, without the pass. */
  function Plain<W>(alu: Alu<W>, code: Code<W>, sp: W): W {
    match code
    case Push(n, rest) => Plain(alu, rest, alu.down(sp, n))
    case Pop(n, rest) => Plain(alu, rest, alu.up(sp, n))
    case Misspeculate(rest) => Plain(alu, rest, sp)
    case Call(callee, _, _, rest) => Plain(alu, rest, alu.up(Plain(alu, callee, alu.down(sp, alu.slot)), alu.slot))
    case Return => sp
    case TailCall(target) => Plain(alu, target, sp)
  }

  /** The stack pointer wherever control is transferred, without the pass: at every call, at every
      return and tail call, and back in the caller, in the order of the run. */
  function PlainStops<W>(alu: Alu<W>, code: Code<W>, sp: W): seq<W> {
    match code
    case Push(n, rest) => PlainStops(alu, rest, alu.down(sp, n))
    case Pop(n, rest) => PlainStops(alu, rest, alu.up(sp, n))
    case Misspeculate(rest) => PlainStops(alu, rest, sp)
    case Call(callee, _, _, rest) =>
      var inner := alu.down(sp, alu.slot);
      var back := alu.up(Plain(alu, callee, inner), alu.slot);
      [sp] + PlainStops(alu, callee, inner) + [back] + PlainStops(alu, rest, back)
    case Return => [sp]
    case TailCall(target) => [sp] + PlainStops(alu, target, sp)
  }

  /** The stack pointer at the end and wherever control is transferred, and the state found after
      each call, in order of return. */
  datatype Outcome<W> = Outcome(sp: W, stops: seq<W>, recovered: seq<W>)

  /** CMP of the two return addresses, then CMOVNE of the poison value. */
  function CheckReturn<W(==)>(alu: Alu<W>, state: W, expected: W, actual: W): W {
    if expected != actual then alu.poison else state
  }

  /** A function starts by taking its state out of the stack pointer. */
  function TracedEntry<W(==)>(alu: Alu<W>, code: Code<W>, sp: W): Outcome<W>
    decreases code, 1
  {
    Traced(alu, code, sp, alu.extract(sp))
  }

  function Traced<W(==)>(alu: Alu<W>, code: Code<W>, sp: W, state: W): Outcome<W>
    decreases code, 0
  {
    match code
    case Push(n, rest) => Traced(alu, rest, alu.down(sp, n), state)
    case Pop(n, rest) => Traced(alu, rest, alu.up(sp, n), state)
    case Misspeculate(rest) => Traced(alu, rest, sp, alu.poison)
    case Call(callee, expected, actual, rest) =>
      var merged := alu.merge(sp, state);
      var inner := TracedEntry(alu, callee, alu.down(merged, alu.slot));
      var back := alu.up(inner.sp, alu.slot);
      var after := CheckReturn(alu, alu.extract(back), expected, actual);
      var outer := Traced(alu, rest, back, after);
      Outcome(outer.sp, [merged] + inner.stops + [back] + outer.stops, inner.recovered + [after] + outer.recovered)
    case Return =>
      var merged := alu.merge(sp, state);
      Outcome(merged, [merged], [])
    case TailCall(target) =>
      var merged := alu.merge(sp, state);
      var inner := TracedEntry(alu, target, merged);
      Outcome(inner.sp, [merged] + inner.stops, inner.recovered)
  }

  // ----- what the states should be -----

  /** Something inside this run is mispredicted: a branch, or the address of a return. */
  predicate Spoils<W(==)>(code: Code<W>) {
    match code
    case Push(_, rest) => Spoils(rest)
    case Pop(_, rest) => Spoils(rest)
    case Misspeculate(_) => true
    case Call(callee, expected, actual, rest) => Spoils(callee) || expected != actual || Spoils(rest)
    case Return => false
    case TailCall(target) => Spoils(target)
  }

  /** Whether the state after each call should be poisoned, when it is `p` at the start. */
  function Poisoned<W(==)>(code: Code<W>, p: bool): seq<bool> {
    match code
    case Push(_, rest) => Poisoned(rest, p)
    case Pop(_, rest) => Poisoned(rest, p)
    case Misspeculate(rest) => Poisoned(rest, true)
    case Call(callee, expected, actual, rest) =>
      var after := p || Spoils(callee) || expected != actual;
      Poisoned(callee, p) + [after] + Poisoned(rest, after)
    case Return => []
    case TailCall(target) => Poisoned(target, p)
  }

  /** Whether something has been mispredicted before each transfer of control, or `p` at the start. */
  function Tainted<W(==)>(code: Code<W>, p: bool): seq<bool> {
    match code
    case Push(_, rest) => Tainted(rest, p)
    case Pop(_, rest) => Tainted(rest, p)
    case Misspeculate(rest) => Tainted(rest, true)
    case Call(callee, expected, actual, rest) =>
      var r := p || Spoils(callee);
      [p] + Tainted(callee, p) + [r] + Tainted(rest, r || expected != actual)
    case Return => [p]
    case TailCall(target) => [p] + Tainted(target, p)
  }

  function Mask<W>(alu: Alu<W>, p: bool): W { if p then alu.poison else alu.zero }

  function Masks<W>(alu: Alu<W>, ps: seq<bool>): seq<W> {
    seq(|ps|, i requires 0 <= i < |ps| => Mask(alu, ps[i]))
  }

  /** `low` with its poison bits set (when `q`) or as they were. */
  function Tag<W>(alu: Alu<W>, low: W, q: bool): W { if q then alu.tag(low) else low }

  function Tags<W>(alu: Alu<W>, lows: seq<W>, qs: seq<bool>): seq<W> {
    seq(|lows|, i requires 0 <= i < |lows| => Tag(alu, lows[i], i < |qs| && qs[i]))
  }

  /** Without the pass, the stack pointer is in the lower half wherever control is transferred. */
  predicate StaysLow<W>(alu: Alu<W>, code: Code<W>, sp: W) {
    match code
    case Push(n, rest) => StaysLow(alu, rest, alu.down(sp, n))
    case Pop(n, rest) => StaysLow(alu, rest, alu.up(sp, n))
    case Misspeculate(rest) => StaysLow(alu, rest, sp)
    case Call(callee, _, _, rest) =>
      var inner := alu.down(sp, alu.slot);
      var back := alu.up(Plain(alu, callee, inner), alu.slot);
      alu.low(sp) && alu.low(inner) && StaysLow(alu, callee, inner) && alu.low(back) && StaysLow(alu, rest, back)
    case Return => alu.low(sp)
    case TailCall(target) => alu.low(sp) && StaysLow(alu, target, sp)
  }

  // ----- the laws -----

  ghost predicate MoveLaw<W(!new)>(alu: Alu<W>, sp: W, n: W) {
    alu.down(alu.tag(sp), n) == alu.tag(alu.down(sp, n)) && alu.up(alu.tag(sp), n) == alu.tag(alu.up(sp, n))
  }

  ghost predicate StateLaw<W(!new)>(alu: Alu<W>, sp: W) {
    && alu.merge(sp, alu.poison) == alu.tag(sp) && alu.merge(sp, alu.zero) == sp
    && alu.merge(alu.tag(sp), alu.poison) == alu.tag(sp) && alu.merge(alu.tag(sp), alu.zero) == alu.tag(sp)
    && alu.extract(sp) == alu.zero && alu.extract(alu.tag(sp)) == alu.poison
  }

  /** Moving the pointer keeps its poison bits; merging sets them and extracting reads them. */
  ghost predicate Lawful<W(!new)>(alu: Alu<W>) {
    && (forall sp: W, n: W {:trigger MoveLaw(alu, sp, n)} :: MoveLaw(alu, sp, n))
    && (forall sp: W {:trigger StateLaw(alu, sp)} :: alu.low(sp) ==> StateLaw(alu, sp))
  }

  // ----- whole call trees, by the laws -----

  lemma TagMoves<W(!new)>(alu: Alu<W>, low: W, q: bool, n: W)
    requires Lawful(alu)
    ensures alu.down(Tag(alu, low, q), n) == Tag(alu, alu.down(low, n), q)
    ensures alu.up(Tag(alu, low, q), n) == Tag(alu, alu.up(low, n), q)
  {
    assert MoveLaw(alu, low, n);
  }

  /** Merging sets the poison bits iff the state is poisoned, and never clears them. */
  lemma MergeTag<W(!new)>(alu: Alu<W>, low: W, q: bool, p: bool)
    requires Lawful(alu) && alu.low(low)
    ensures alu.merge(Tag(alu, low, q), Mask(alu, p)) == Tag(alu, low, q || p)
    ensures alu.extract(Tag(alu, low, q)) == Mask(alu, q)
  {
    assert StateLaw(alu, low);
  }

  lemma MasksConcat<W>(alu: Alu<W>, a: seq<bool>, m: bool, b: seq<bool>)
    ensures Masks(alu, a + [m] + b) == Masks(alu, a) + [Mask(alu, m)] + Masks(alu, b)
  {
  }

  lemma TagsConcat<W>(alu: Alu<W>, a: seq<W>, p: seq<bool>, b: seq<W>, q: seq<bool>)
    requires |a| == |p|
    ensures Tags(alu, a + b, p + q) == Tags(alu, a, p) + Tags(alu, b, q)
  {
  }

  /** The transfers of a call: the call itself, those of the callee, the return, and the rest. */
  lemma TagsCall<W>(alu: Alu<W>, sp: W, p: bool, a: seq<W>, ps: seq<bool>, back: W, r: bool, b: seq<W>, qs: seq<bool>)
    requires |a| == |ps|
    ensures Tags(alu, [sp] + a + [back] + b, [p] + ps + [r] + qs)
            == [Tag(alu, sp, p)] + Tags(alu, a, ps) + [Tag(alu, back, r)] + Tags(alu, b, qs)
  {
    TagsConcat(alu, [sp], [p], a, ps);
    TagsConcat(alu, [sp] + a, [p] + ps, [back], [r]);
    TagsConcat(alu, [sp] + a + [back], [p] + ps + [r], b, qs);
  }

  /** The outcome of the inserted code, told from the plain run and the expected states. */
  ghost predicate Agrees<W(!new)>(alu: Alu<W>, o: Outcome<W>, code: Code<W>, low: W, p: bool) {
    && o.sp == Tag(alu, Plain(alu, code, low), p || Spoils(code))
    && o.recovered == Masks(alu, Poisoned(code, p))
    && |PlainStops(alu, code, low)| == |Tainted(code, p)|
    && o.stops == Tags(alu, PlainStops(alu, code, low), Tainted(code, p))
  }

  lemma {:induction false} TracedAgrees<W(!new)>(alu: Alu<W>, code: Code<W>, low: W, q: bool, p: bool)
    requires Lawful(alu) && StaysLow(alu, code, low) && (q ==> p)
    ensures Agrees(alu, Traced(alu, code, Tag(alu, low, q), Mask(alu, p)), code, low, p)
    decreases code, 0
  {
    match code
    case Push(n, rest) =>
      TagMoves(alu, low, q, n);
      TracedAgrees(alu, rest, alu.down(low, n), q, p);
    case Pop(n, rest) =>
      TagMoves(alu, low, q, n);
      TracedAgrees(alu, rest, alu.up(low, n), q, p);
    case Misspeculate(rest) =>
      TracedAgrees(alu, rest, low, q, true);
    case Call(callee, expected, actual, rest) =>
      CallAgrees(alu, callee, expected, actual, low, q, p);
      var inner := alu.down(low, alu.slot);
      var back := alu.up(Plain(alu, callee, alu.down(low, alu.slot)), alu.slot);
      var r := p || Spoils(callee);
      var after := r || expected != actual;
      TracedAgrees(alu, rest, back, r, after);
      MasksConcat(alu, Poisoned(callee, p), after, Poisoned(rest, after));
      TagsCall(alu, low, p, PlainStops(alu, callee, inner), Tainted(callee, p),
               back, r, PlainStops(alu, rest, back), Tainted(rest, after));
    case Return =>
      MergeTag(alu, low, q, p);
    case TailCall(target) =>
      MergeTag(alu, low, q, p);
      EntryAgrees(alu, target, low, p);
      TagsConcat(alu, [low], [p], PlainStops(alu, target, low), Tainted(target, p));
  }

  lemma {:induction false} EntryAgrees<W(!new)>(alu: Alu<W>, code: Code<W>, low: W, p: bool)
    requires Lawful(alu) && alu.low(low) && StaysLow(alu, code, low)
    ensures Agrees(alu, TracedEntry(alu, code, Tag(alu, low, p)), code, low, p)
    decreases code, 1
  {
    MergeTag(alu, low, p, p);
    TracedAgrees(alu, code, low, p, p);
  }

  /**
   One call, from any state of the caller: the pointer comes back as it would have without the
   pass but for the poison bits, and the state recovered is poisoned iff the caller's was, the
   callee's run became so, or the return address is not the expected one.
   */
  lemma {:induction false} CallAgrees<W(!new)>(alu: Alu<W>, callee: Code<W>, expected: W, actual: W, low: W, q: bool, p: bool)
    requires Lawful(alu) && (q ==> p)
    requires alu.low(low) && alu.low(alu.down(low, alu.slot)) && StaysLow(alu, callee, alu.down(low, alu.slot))
    requires alu.low(alu.up(Plain(alu, callee, alu.down(low, alu.slot)), alu.slot))
    ensures
      var inner := TracedEntry(alu, callee, alu.down(alu.merge(Tag(alu, low, q), Mask(alu, p)), alu.slot));
      var back := alu.up(inner.sp, alu.slot);
      && back == Tag(alu, alu.up(Plain(alu, callee, alu.down(low, alu.slot)), alu.slot), p || Spoils(callee))
      && CheckReturn(alu, alu.extract(back), expected, actual) == Mask(alu, p || Spoils(callee) || expected != actual)
      && Agrees(alu, inner, callee, alu.down(low, alu.slot), p)
      && alu.merge(Tag(alu, low, q), Mask(alu, p)) == Tag(alu, low, p)
    decreases callee, 2
  {
    MergeTag(alu, low, q, p);
    TagMoves(alu, low, p, alu.slot);
    EntryAgrees(alu, callee, alu.down(low, alu.slot), p);
    var r := p || Spoils(callee);
    TagMoves(alu, Plain(alu, callee, alu.down(low, alu.slot)), r, alu.slot);
    MergeTag(alu, alu.up(Plain(alu, callee, alu.down(low, alu.slot)), alu.slot), r, r);
  }

  lemma {:induction false} PlainLow<W(!new)>(alu: Alu<W>, code: Code<W>, sp: W)
    requires StaysLow(alu, code, sp)
    ensures alu.low(Plain(alu, code, sp))
  {
    match code
    case Push(n, rest) => PlainLow(alu, rest, alu.down(sp, n));
    case Pop(n, rest) => PlainLow(alu, rest, alu.up(sp, n));
    case Misspeculate(rest) => PlainLow(alu, rest, sp);
    case Call(callee, _, _, rest) => PlainLow(alu, rest, alu.up(Plain(alu, callee, alu.down(sp, alu.slot)), alu.slot));
    case Return =>
    case TailCall(target) => PlainLow(alu, target, sp);
  }

  lemma {:induction false} StopsLow<W(!new)>(alu: Alu<W>, code: Code<W>, sp: W)
    requires StaysLow(alu, code, sp)
    ensures forall i :: 0 <= i < |PlainStops(alu, code, sp)| ==> alu.low(PlainStops(alu, code, sp)[i])
  {
    match code
    case Push(n, rest) => StopsLow(alu, rest, alu.down(sp, n));
    case Pop(n, rest) => StopsLow(alu, rest, alu.up(sp, n));
    case Misspeculate(rest) => StopsLow(alu, rest, sp);
    case Call(callee, _, _, rest) =>
      StopsLow(alu, callee, alu.down(sp, alu.slot));
      StopsLow(alu, rest, alu.up(Plain(alu, callee, alu.down(sp, alu.slot)), alu.slot));
    case Return =>
    case TailCall(target) => StopsLow(alu, target, sp);
  }

  /** A run that is never mispredicted is tainted nowhere, and taint, once there, stays. */
  lemma {:induction false} TaintSticks<W(!new)>(code: Code<W>, p: bool)
    ensures forall i, j :: 0 <= i < j < |Tainted(code, p)| && Tainted(code, p)[i] ==> Tainted(code, p)[j]
    ensures forall i :: 0 <= i < |Tainted(code, p)| ==>
              (p ==> Tainted(code, p)[i]) && (Tainted(code, p)[i] ==> p || Spoils(code))
  {
    match code
    case Push(_, rest) => TaintSticks(rest, p);
    case Pop(_, rest) => TaintSticks(rest, p);
    case Misspeculate(rest) => TaintSticks(rest, true);
    case Call(callee, expected, actual, rest) =>
      TaintSticks(callee, p);
      TaintSticks(rest, p || Spoils(callee) || expected != actual);
    case Return =>
    case TailCall(target) => TaintSticks(target, p);
  }

  lemma {:induction false} CleanStaysClean<W(!new)>(code: Code<W>)
    requires !Spoils(code)
    ensures forall i :: 0 <= i < |Poisoned(code, false)| ==> !Poisoned(code, false)[i]
  {
    match code
    case Push(_, rest) => CleanStaysClean(rest);
    case Pop(_, rest) => CleanStaysClean(rest);
    case Call(callee, _, _, rest) => CleanStaysClean(callee); CleanStaysClean(rest);
    case Return =>
    case TailCall(target) => CleanStaysClean(target);
  }

  // ----- the processor -----

  /** SHL by 47, then OR into the stack pointer. */
  function Merge(sp: Word, state: Word): Word { sp | (state << 47) }

  /** SAR by 63: every bit becomes the sign bit. */
  function Extract(sp: Word): Word { 0 - (sp >> 63) }

  /** The top 17 bits are zero: a canonical address of the lower half. */
  predicate Low(sp: Word) { sp & 0xFFFF_8000_0000_0000 == 0 }

  /** The top 17 bits are equal: section 3.3.7.1 of the Intel SDM, volume 1. */
  predicate Canonical(sp: Word) {
    sp & 0xFFFF_8000_0000_0000 == 0 || sp & 0xFFFF_8000_0000_0000 == 0xFFFF_8000_0000_0000
  }

  /** Setting the top 17 bits of a pointer of the lower half, as an addition. */
  function SetHigh(sp: Word): Word { sp + 0xFFFF_8000_0000_0000 }

  function Down(sp: Word, n: Word): Word { sp - n }

  function Up(sp: Word, n: Word): Word { sp + n }

  function X86(): Alu<Word> {
    Alu((a: Word, n: Word) => Down(a, n), (a: Word, n: Word) => Up(a, n), 8,
        (a: Word, p: Word) => Merge(a, p), (a: Word) => Extract(a),
        0, 0xFFFF_FFFF_FFFF_FFFF, (a: Word) => Low(a), (a: Word) => SetHigh(a))
  }

  lemma Undone(sp: Word, n: Word)
    ensures (sp - n) + n == sp
  {
  }

  /** The stack grows downwards: pushing subtracts, popping undoes it, and a call pushes eight bytes. */
  lemma StackGrowsDown(alu: Alu<Word>, sp: Word, n: Word)
    requires alu == X86()
    ensures alu.up(alu.down(sp, n), n) == sp && alu.slot == 8
    ensures alu.down(0x7FFF_FFFF_E000, alu.slot) == 0x7FFF_FFFF_DFF8
    ensures alu.merge(alu.down(0x7FFF_FFFF_E000, 8), alu.poison) == 0xFFFF_FFFF_FFFF_DFF8
  {
    Undone(sp, n);
    SameMoves(Down(sp, n), sp - n, n);
  }

  lemma MergeClean(sp: Word)
    requires sp & 0xFFFF_8000_0000_0000 == 0
    ensures Merge(sp, 0xFFFF_FFFF_FFFF_FFFF) == sp + 0xFFFF_8000_0000_0000
    ensures Merge(sp, 0) == sp && Extract(sp) == 0
    ensures Canonical(sp)
  {
  }

  lemma MergeTagged(sp: Word, low: Word)
    requires low & 0xFFFF_8000_0000_0000 == 0 && sp == low + 0xFFFF_8000_0000_0000
    ensures Merge(sp, 0xFFFF_FFFF_FFFF_FFFF) == sp && Merge(sp, 0) == sp
    ensures Extract(sp) == 0xFFFF_FFFF_FFFF_FFFF
    ensures Canonical(sp)
  {
  }

  lemma Regroup(sp: Word, n: Word)
    ensures (sp + 0xFFFF_8000_0000_0000) - n == (sp - n) + 0xFFFF_8000_0000_0000
    ensures (sp + 0xFFFF_8000_0000_0000) + n == (sp + n) + 0xFFFF_8000_0000_0000
  {
  }

  lemma SameMoves(x: Word, y: Word, n: Word)
    requires x == y
    ensures x - n == y - n && x + n == y + n
  {
  }

  lemma X86Down(sp: Word, n: Word)
    ensures Down(SetHigh(sp), n) == SetHigh(Down(sp, n))
  {
    Regroup(sp, n);
    SameMoves(SetHigh(sp), sp + 0xFFFF_8000_0000_0000, n);
    SameMoves(Down(sp, n), sp - n, 0xFFFF_8000_0000_0000);
  }

  lemma X86Up(sp: Word, n: Word)
    ensures Up(SetHigh(sp), n) == SetHigh(Up(sp, n))
  {
    Regroup(sp, n);
    SameMoves(SetHigh(sp), sp + 0xFFFF_8000_0000_0000, n);
    SameMoves(Up(sp, n), sp + n, 0xFFFF_8000_0000_0000);
  }

  lemma X86Moves(alu: Alu<Word>, sp: Word, n: Word)
    requires alu == X86()
    ensures MoveLaw(alu, sp, n)
  {
    X86Down(sp, n);
    X86Up(sp, n);
  }

  lemma X86State(alu: Alu<Word>, sp: Word, tagged: Word)
    requires alu == X86() && Low(sp) && tagged == alu.tag(sp)
    ensures alu.merge(sp, alu.poison) == tagged && alu.merge(sp, alu.zero) == sp
    ensures alu.extract(sp) == alu.zero
  {
    MergeClean(sp);
  }

  lemma X86Tagged(alu: Alu<Word>, sp: Word, tagged: Word)
    requires alu == X86() && Low(sp) && tagged == alu.tag(sp)
    ensures alu.merge(tagged, alu.poison) == tagged && alu.merge(tagged, alu.zero) == tagged
    ensures alu.extract(tagged) == alu.poison
  {
    MergeTagged(tagged, sp);
  }

  lemma X86States(alu: Alu<Word>, sp: Word)
    requires alu == X86() && alu.low(sp)
    ensures StateLaw(alu, sp)
  {
    X86State(alu, sp, alu.tag(sp));
    X86Tagged(alu, sp, alu.tag(sp));
  }

  lemma X86Lawful()
    ensures Lawful(X86())
  {
    var alu := X86();
    forall sp: Word, n: Word ensures MoveLaw(alu, sp, n) {
      X86Moves(alu, sp, n);
    }
    forall sp: Word | alu.low(sp) ensures StateLaw(alu, sp) {
      X86States(alu, sp);
    }
  }

  lemma TaggedWord(alu: Alu<Word>, sp: Word, low: Word, q: bool)
    requires alu == X86() && alu.low(low) && sp == Tag(alu, low, q)
    ensures Canonical(sp) && (Extract(sp) == 0xFFFF_FFFF_FFFF_FFFF <==> q) && (!q ==> sp == low)
  {
    if q { MergeTagged(sp, low); } else { MergeClean(sp); }
  }

  /** The outcome over a whole call tree, for any processor that keeps the laws. */
  lemma TreeExact<W(!new)>(alu: Alu<W>, code: Code<W>, sp: W)
    requires Lawful(alu) && alu.low(sp) && StaysLow(alu, code, sp)
    ensures var o := TracedEntry(alu, code, sp);
      && alu.low(Plain(alu, code, sp))
      && Agrees(alu, o, code, sp, false)
      && (!Spoils(code) ==> forall i :: 0 <= i < |o.recovered| ==> o.recovered[i] == alu.zero)
  {
    EntryAgrees(alu, code, sp, false);
    PlainLow(alu, code, sp);
    if !Spoils(code) { CleanStaysClean(code); }
  }

  /** Transfer `i` of a run: a canonical pointer that carries a poisoned state iff something was
      mispredicted before it, and is otherwise bit for bit the pointer of the plain run. */
  ghost predicate StopExact(stop: Word, plain: Word, tainted: bool) {
    && Canonical(stop)
    && (Extract(stop) == 0xFFFF_FFFF_FFFF_FFFF <==> tainted)
    && (!tainted ==> stop == plain)
  }

  lemma StopsExact(alu: Alu<Word>, stops: seq<Word>, lows: seq<Word>, qs: seq<bool>)
    requires alu == X86() && |lows| == |qs| && stops == Tags(alu, lows, qs)
    requires forall i :: 0 <= i < |lows| ==> alu.low(lows[i])
    ensures |stops| == |lows|
    ensures forall i :: 0 <= i < |stops| ==> StopExact(stops[i], lows[i], qs[i])
  {
    forall i | 0 <= i < |stops| ensures StopExact(stops[i], lows[i], qs[i]) {
      TaggedWord(alu, stops[i], lows[i], qs[i]);
    }
  }

  /**
   Over every tree of nested calls that starts with a clean pointer of the lower half: what
   each caller recovers is all-ones exactly where `Poisoned` says so, and at every call, return
   and tail call of the tree and at its end the pointer is as `StopExact` says.
   */
  lemma CallTreeExact(alu: Alu<Word>, code: Code<Word>, sp: Word)
    requires alu == X86() && alu.low(sp) && StaysLow(alu, code, sp)
    ensures var o := TracedEntry(alu, code, sp);
      var lows := PlainStops(alu, code, sp);
      var tainted := Tainted(code, false);
      && o.recovered == Masks(alu, Poisoned(code, false))
      && (!Spoils(code) ==> forall i :: 0 <= i < |o.recovered| ==> o.recovered[i] == alu.zero)
      && StopExact(o.sp, Plain(alu, code, sp), Spoils(code))
      && |o.stops| == |lows| == |tainted|
      && (forall i :: 0 <= i < |o.stops| ==> StopExact(o.stops[i], lows[i], tainted[i]))
  {
    X86Lawful();
    TreeExact(alu, code, sp);
    TaggedWord(alu, TracedEntry(alu, code, sp).sp, Plain(alu, code, sp), Spoils(code));
    StopsLow(alu, code, sp);
    StopsExact(alu, TracedEntry(alu, code, sp).stops, PlainStops(alu, code, sp), Tainted(code, false));
  }

  // ----- where the encoding fails -----

  /** Exactly the pointers of the upper half come back as a poisoned state. */
  lemma ExtractIff(sp: Word)
    ensures Extract(sp) == 0xFFFF_FFFF_FFFF_FFFF <==> sp & 0x8000_0000_0000_0000 != 0
    ensures Extract(sp) == 0 <==> sp & 0x8000_0000_0000_0000 == 0
  {
  }
}
