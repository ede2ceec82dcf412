/**
 Sinking the hardening of a loaded value to a later instruction of its block.

 Instructions are numbered through the function; the block being hardened is the range
 [`lo`, `hi`) of those numbers, in order.
 */
module Sink {
  import opened Machine

  /**
   `invariant` and `invariantLoad` say that the instruction's timing does not depend on its
   data operands; `addressRegs` are the base and index registers of a memory operand.
   `hardenable`: the result is a virtual register of a class that can be masked.
   */
  datatype Instr = Instr(
    def: Reg, defs: nat, inputs: set<Reg>, addressRegs: set<Reg>,
    dataInvariant: bool, invariantLoad: bool, phi: bool, flagsLive: bool, hardenable: bool)

  datatype Code = Code(instrs: seq<Instr>, lo: nat, hi: nat, uses: Reg -> seq<nat>)

  predicate InBlock(c: Code, i: nat) { c.lo <= i < c.hi && i < |c.instrs| }

  ghost predicate Reads(c: Code, i: nat, r: Reg) { i < |c.instrs| && r in c.instrs[i].inputs }

  /**
   Use lists name exactly the readers, in any order and as often as they like; in SSA form a
   definition comes before its readers in the block, PHIs excepted; and no PHI is listed as
   data invariant.
   */
  ghost predicate WellFormed(c: Code) {
    && c.lo <= c.hi <= |c.instrs|
    && (forall i: nat, r: Reg {:trigger Reads(c, i, r)} {:trigger i in c.uses(r)} :: Reads(c, i, r) <==> i in c.uses(r))
    && (forall i: nat, u: nat {:trigger Reads(c, u, c.instrs[i].def)} ::
          InBlock(c, i) && InBlock(c, u) && Reads(c, u, c.instrs[i].def) && !c.instrs[u].phi ==> i < u)
    && (forall i: nat | i < |c.instrs| && (c.instrs[i].dataInvariant || c.instrs[i].invariantLoad) :: !c.instrs[i].phi)
  }

  // ----- one step of the search -----

  datatype Step = Bail | NoUse | Single(use: nat)

  /** A load that may itself be sunk: it has its own address to protect. */
  predicate SinkableLoad(i: Instr) { i.invariantLoad && !i.flagsLive }

  /** The hardening may move to this instruction. */
  predicate CanTake(c: Code, u: nat) {
    && InBlock(c, u)
    && var i := c.instrs[u]; i.dataInvariant && !i.flagsLive && i.defs <= 1 && i.hardenable
  }

  /** A reader that the masking can be moved to: in the block, data invariant, with dead flags, and with one
      result at most, which can be masked. */
  ghost predicate Takes(c: Code, u: nat) {
    && c.lo <= u < c.hi && u < |c.instrs|
    && c.instrs[u].dataInvariant && !c.instrs[u].flagsLive && c.instrs[u].defs <= 1 && c.instrs[u].hardenable
  }

  /** A reader of `r` that does not stand in the way: masked itself, unless `r` is an address register of an
      invariant load with dead flags, or one that the masking can be moved to. */
  ghost predicate Usable(c: Code, hardened: set<nat>, u: nat, r: Reg) {
    if u in hardened then
      u < |c.instrs| && !(c.instrs[u].invariantLoad && !c.instrs[u].flagsLive && r in c.instrs[u].addressRegs)
    else Takes(c, u)
  }

  /** The search stops: a use that cannot be served, or two entries that are not hardened. */
  ghost predicate Stops(c: Code, hardened: set<nat>, us: seq<nat>, r: Reg) {
    || (exists j: nat :: j < |us| && !Usable(c, hardened, us[j], r))
    || (exists j: nat, k: nat :: j < k < |us| && us[j] !in hardened && us[k] !in hardened)
  }

  method SinkCheckToSingleUse(c: Code, hardened: set<nat>, m: nat) returns (s: Step)
    requires WellFormed(c) && m < |c.instrs|
    ensures s == Bail <==> Stops(c, hardened, c.uses(c.instrs[m].def), c.instrs[m].def)
    ensures s != Bail ==> forall u: nat | Reads(c, u, c.instrs[m].def) :: Usable(c, hardened, u, c.instrs[m].def)
    ensures s == NoUse ==> forall u: nat | Reads(c, u, c.instrs[m].def) :: u in hardened
    ensures s.Single? ==> s.use !in hardened && Reads(c, s.use, c.instrs[m].def) && Takes(c, s.use)
    ensures s.Single? ==> forall u: nat | Reads(c, u, c.instrs[m].def) :: u in hardened || u == s.use
  {
    var r := c.instrs[m].def;
    var us := c.uses(r);
    forall j: nat | j < |us| ensures us[j] < |c.instrs| && Reads(c, us[j], r) {
      assert us[j] in us;
    }
    s := NoUse;
    for j := 0 to |us|
      invariant s != Bail
      invariant forall k: nat | k < j :: Usable(c, hardened, us[k], r)
      invariant s == NoUse ==> forall k: nat | k < j :: us[k] in hardened
      invariant s.Single? ==> s.use !in hardened && Reads(c, s.use, r) && Takes(c, s.use)
      invariant s.Single? ==> exists k: nat :: k < j && us[k] == s.use
      invariant s.Single? ==> forall k: nat | k < j :: us[k] in hardened || us[k] == s.use
      invariant forall k: nat, l: nat | k < l < j :: us[k] in hardened || us[l] in hardened
    {
      var u := us[j];
      if u in hardened {
        if SinkableLoad(c.instrs[u]) && r in c.instrs[u].addressRegs { return Bail; }
      } else if s.Single? {
        return Bail;
      } else if !CanTake(c, u) {
        return Bail;
      } else {
        s := Single(u);
      }
    }
  }

  // ----- what it means for a value to be taken care of -----

  /**
   `u` may read an unmasked value from `r`: it is in the block, neither its timing nor the
   flags nor an address depend on it.
   */
  ghost predicate Benign(c: Code, u: nat, r: Reg) {
    && InBlock(c, u)
    && !c.instrs[u].flagsLive
    && (c.instrs[u].dataInvariant || (c.instrs[u].invariantLoad && r !in c.instrs[u].addressRegs))
  }

  /** The value of `i` is masked at `i`, or every reader of it is benign and covered in turn. */
  ghost predicate Covered(c: Code, stops: set<nat>, i: nat)
    requires WellFormed(c)
    decreases c.hi - i
  {
    i in stops || (InBlock(c, i) && forall u: nat {:trigger Reads(c, u, c.instrs[i].def)} ::
      Reads(c, u, c.instrs[i].def) ==> CoveredReader(c, stops, i, u))
  }

  ghost predicate CoveredReader(c: Code, stops: set<nat>, i: nat, u: nat)
    requires WellFormed(c) && InBlock(c, i)
    decreases c.hi - i, 0
  {
    Benign(c, u, c.instrs[i].def) && i < u && Covered(c, stops, u)
  }

  /** Instructions due to be hardened are in the block, leak nothing by themselves, and have one result at
      most, which can be masked. */
  ghost predicate Marked(c: Code, hardened: set<nat>) {
    forall i: nat | i in hardened ::
      && InBlock(c, i) && !c.instrs[i].flagsLive && (c.instrs[i].dataInvariant || c.instrs[i].invariantLoad)
      && c.instrs[i].defs <= 1 && c.instrs[i].hardenable
  }

  /** A stop may be exchanged for others that cover it. */
  lemma {:induction false} Exchange(c: Code, stops: set<nat>, stops': set<nat>, m: nat, i: nat)
    requires WellFormed(c) && stops <= stops' + {m} && Covered(c, stops', m) && Covered(c, stops, i)
    ensures Covered(c, stops', i)
    decreases c.hi - i
  {
    if i !in stops {
      forall u: nat | Reads(c, u, c.instrs[i].def) ensures CoveredReader(c, stops', i, u) {
        assert CoveredReader(c, stops, i, u);
        Exchange(c, stops, stops', m, u);
      }
    }
  }

  lemma {:induction false} MoreStops(c: Code, stops: set<nat>, stops': set<nat>, i: nat)
    requires WellFormed(c) && stops <= stops' && Covered(c, stops, i)
    ensures Covered(c, stops', i)
    decreases c.hi - i
  {
    if i !in stops {
      forall u: nat | Reads(c, u, c.instrs[i].def) ensures CoveredReader(c, stops', i, u) {
        assert CoveredReader(c, stops, i, u);
        MoreStops(c, stops, stops', u);
      }
    }
  }

  /** Readers that are all stops, and usable, cover the instruction they read from. */
  lemma ReadersCover(c: Code, hardened: set<nat>, stops: set<nat>, m: nat)
    requires WellFormed(c) && Marked(c, hardened) && InBlock(c, m)
    requires forall u: nat | Reads(c, u, c.instrs[m].def) :: u in stops && Usable(c, hardened, u, c.instrs[m].def)
    ensures Covered(c, stops, m)
  {
    var r := c.instrs[m].def;
    forall u: nat | Reads(c, u, r) ensures CoveredReader(c, stops, m, u) {
      assert u in stops && Usable(c, hardened, u, r);
      assert InBlock(c, u) && !c.instrs[u].phi;
      assert Reads(c, u, c.instrs[m].def);
    }
  }

  datatype Sunk = Nothing | At(instr: nat)

  /**
   Moves the hardening of `first` as far down as it goes.  The instruction returned comes
   strictly later unless it is `first` itself, and hardening there in place of `first` covers
   every reader of the unmasked value; `Nothing` means that its readers are covered already.
   */
  method SinkPostLoadHardenedInst(c: Code, hardened: set<nat>, first: nat) returns (r: Sunk)
    requires WellFormed(c) && Marked(c, hardened) && InBlock(c, first)
    requires SinkableLoad(c.instrs[first]) && first !in hardened && c.instrs[first].defs <= 1 && c.instrs[first].hardenable
    ensures r == Nothing ==> Covered(c, hardened, first)
    ensures r.At? ==> Covered(c, hardened + {r.instr}, first)
    ensures r.At? ==> InBlock(c, r.instr) && Stops(c, hardened, c.uses(c.instrs[r.instr].def), c.instrs[r.instr].def)
    ensures r.At? ==> c.instrs[r.instr].defs <= 1 && c.instrs[r.instr].hardenable && !c.instrs[r.instr].flagsLive
    ensures r.At? && r.instr != first ==> first < r.instr && r.instr !in hardened && Takes(c, r.instr)
  {
    var m := first;
    while true
      invariant InBlock(c, m) && first <= m
      invariant m != first ==> m !in hardened && Takes(c, m)
      invariant Covered(c, hardened + {m}, first)
      decreases c.hi - m
    {
      var s := SinkCheckToSingleUse(c, hardened, m);
      match s
      case Bail =>
        return At(m);
      case NoUse =>
        ReadersCover(c, hardened, hardened, m);
        Exchange(c, hardened + {m}, hardened, m, first);
        return Nothing;
      case Single(u) =>
        assert !c.instrs[u].phi;
        ReadersCover(c, hardened, hardened + {u}, m);
        Exchange(c, hardened + {m}, hardened + {u}, m, first);
        m := u;
    }
  }

  /** The masking of an instruction must stay where it is, with some of the instructions after it masked. */
  ghost predicate MustStay(c: Code, i: nat)
    requires i < |c.instrs|
  {
    exists hardened: set<nat> :: (forall j: nat | j in hardened :: i < j) && Stops(c, hardened, c.uses(c.instrs[i].def), c.instrs[i].def)
  }

  /**
   When it need not: the value has one reader, which the masking can be moved to and which does not use
   it as an address; whatever else is masked, the search goes on to that reader.
   */
  lemma NeedNotStay(c: Code, i: nat, u: nat)
    requires WellFormed(c) && i < |c.instrs| && c.uses(c.instrs[i].def) == [u] && Takes(c, u)
    requires !(c.instrs[u].invariantLoad && c.instrs[i].def in c.instrs[u].addressRegs)
    ensures !MustStay(c, i)
  {
    forall hardened: set<nat> ensures !Stops(c, hardened, c.uses(c.instrs[i].def), c.instrs[i].def) {
      assert Usable(c, hardened, u, c.instrs[i].def);
    }
  }

  // ----- the walk over the block -----

  /**
   The post-load part of the block walk: each marked instruction is masked on the spot or its
   hardening is sunk, to be met again further down.  At the end every value that was marked is
   covered by the masks, every masked instruction leaks nothing itself and can be masked, and no
   load is masked whose masking could have been moved on.
   */
  method HardenMarked(c: Code, marked: set<nat>) returns (masked: set<nat>)
    requires WellFormed(c) && Marked(c, marked)
    ensures forall i: nat | i in marked :: Covered(c, masked, i)
    ensures Marked(c, masked)
    ensures forall i: nat | i in masked && c.instrs[i].invariantLoad && !c.instrs[i].flagsLive :: MustStay(c, i)
  {
    masked := {};
    var pending := marked;
    for i := c.lo to c.hi
      invariant Marked(c, pending) && Marked(c, masked)
      invariant forall j: nat | j in masked && c.instrs[j].invariantLoad && !c.instrs[j].flagsLive :: MustStay(c, j)
      invariant forall j: nat | j in pending :: i <= j
      invariant forall j: nat | j in marked :: Covered(c, masked + pending, j)
    {
      if i in pending {
        ghost var stops := masked + pending;
        pending := pending - {i};
        var sunk := At(i);
        if SinkableLoad(c.instrs[i]) {
          sunk := SinkPostLoadHardenedInst(c, pending, i);
        }
        match sunk {
          case Nothing =>
          case At(j) =>
            if j == i { masked := masked + {i}; } else { pending := pending + {j}; }
        }
        StillCovered(c, marked, stops, masked + pending, i, if sunk.At? then pending + {sunk.instr} else pending);
      }
    }
    assert pending == {};
    assert masked + pending == masked;
  }

  lemma StillCovered(c: Code, marked: set<nat>, stops: set<nat>, stops': set<nat>, i: nat, via: set<nat>)
    requires WellFormed(c) && stops <= stops' + {i} && (i in stops' || (Covered(c, via, i) && via <= stops'))
    requires forall j: nat | j in marked :: Covered(c, stops, j)
    ensures forall j: nat | j in marked :: Covered(c, stops', j)
  {
    if i !in stops' { MoreStops(c, via, stops', i); }
    forall j: nat | j in marked ensures Covered(c, stops', j) {
      Exchange(c, stops, stops', i, j);
    }
  }

  // ----- the same, told by chains of readers -----

  /** A chain of reads, all of whose elements but the last are unmasked. */
  ghost predicate ReadChain(c: Code, masked: set<nat>, chain: seq<nat>) {
    && |chain| > 0 && (forall k: nat | k < |chain| :: chain[k] < |c.instrs|)
    && (forall k: nat | k + 1 < |chain| :: chain[k] !in masked && Reads(c, chain[k + 1], c.instrs[chain[k]].def))
  }

  /** Whatever an unmasked value flows into is benign, and later in the block. */
  lemma {:induction false} UnmaskedFlowsAreBenign(c: Code, masked: set<nat>, chain: seq<nat>, k: nat)
    requires WellFormed(c) && ReadChain(c, masked, chain) && Covered(c, masked, chain[0]) && 0 < k < |chain|
    ensures Benign(c, chain[k], c.instrs[chain[k - 1]].def) && chain[k - 1] < chain[k] && Covered(c, masked, chain[k])
  {
    if k > 1 { UnmaskedFlowsAreBenign(c, masked, chain, k - 1); }
    assert chain[(k - 1) + 1] == chain[k];
    assert CoveredReader(c, masked, chain[k - 1], chain[k]);
  }
}
