/**
 The condition codes checked on an edge, and the effect of the CMOVs that check them.
 */
module CheckCodes {
  import opened Machine

  // ----- sorting and deduplicating -----

  function Insert(c: CondCode, s: seq<CondCode>): seq<CondCode> {
    if s == [] || c <= s[0] then [c] + s else [s[0]] + Insert(c, s[1..])
  }

  function Sort(s: seq<CondCode>): seq<CondCode> {
    if s == [] then [] else Insert(s[0], Sort(s[1..]))
  }

  /** Drop every element equal to the one before it. */
  function Unique(s: seq<CondCode>): seq<CondCode> {
    if |s| < 2 then s
    else if s[0] == s[1] then Unique(s[1..])
    else [s[0]] + Unique(s[1..])
  }

  ghost predicate Ascending(s: seq<CondCode>) { forall i, j :: 0 <= i < j < |s| ==> s[i] <= s[j] }

  ghost predicate StrictlyAscending(s: seq<CondCode>) { forall i, j :: 0 <= i < j < |s| ==> s[i] < s[j] }

  lemma {:induction false} InsertSorted(c: CondCode, s: seq<CondCode>)
    requires Ascending(s)
    ensures Ascending(Insert(c, s))
    ensures forall x :: x in Insert(c, s) <==> x == c || x in s
    decreases |s|
  {
    if s != [] && c > s[0] {
      InsertSorted(c, s[1..]);
      assert s == [s[0]] + s[1..];
      var t := Insert(c, s[1..]);
      forall i | 0 <= i < |t| ensures s[0] <= t[i] { assert t[i] in t; }
    }
  }

  lemma {:induction false} SortSorted(s: seq<CondCode>)
    ensures Ascending(Sort(s))
    ensures forall x :: x in Sort(s) <==> x in s
    decreases |s|
  {
    if s != [] {
      SortSorted(s[1..]);
      InsertSorted(s[0], Sort(s[1..]));
    }
  }

  lemma {:induction false} UniqueStrict(s: seq<CondCode>)
    requires Ascending(s)
    ensures StrictlyAscending(Unique(s))
    ensures forall x :: x in Unique(s) <==> x in s
    decreases |s|
  {
    if |s| >= 2 {
      UniqueStrict(s[1..]);
      assert s == [s[0]] + s[1..];
      assert s[1] in s[1..];
      var t := Unique(s[1..]);
      forall i | 0 <= i < |t| ensures s[1] <= t[i] { assert t[i] in t; }
    }
  }

  function SortUnique(s: seq<CondCode>): seq<CondCode> { Unique(Sort(s)) }

  lemma SortUniqueSet(s: seq<CondCode>)
    ensures StrictlyAscending(SortUnique(s))
    ensures forall x :: x in SortUnique(s) <==> x in s
  {
    SortSorted(s);
    UniqueStrict(Sort(s));
  }

  // ----- the codes of an edge -----

  /** The codes of the first `k` branches, pushed last branch first. */
  function BranchCodes(ts: seq<Term>, k: nat): (s: seq<CondCode>)
    requires k <= NConds(ts)
    ensures |s| == k
    ensures forall i :: 0 <= i < k ==> s[i] == ts[k - 1 - i].cc
  {
    if k == 0 then [] else [ts[k - 1].cc] + BranchCodes(ts, k - 1)
  }

  /** A conditional edge checks its own condition; the unconditional edge checks all of them. */
  function EdgeCodes(ts: seq<Term>, e: nat): seq<CondCode> {
    if e < NConds(ts) then [Opposite(ts[e].cc)] else SortUnique(BranchCodes(ts, NConds(ts)))
  }

  /** The edge was not the one the flags ask for, as far as the pass looks. */
  predicate Violated(ts: seq<Term>, e: nat, fl: Flags) {
    if e < NConds(ts) then !Holds(ts[e].cc, fl)
    else exists i :: 0 <= i < NConds(ts) && Holds(ts[i].cc, fl)
  }

  // ----- the CMOVs -----

  /** EFLAGS is killed by the CMOVs whose code equals the last one. */
  function CMovs(codes: seq<CondCode>, kill: bool): (r: seq<Instr>)
    ensures |r| == |codes|
  {
    seq(|codes|, i requires 0 <= i < |codes| =>
      CMovPoison(codes[i], kill && codes[i] == codes[|codes| - 1]))
  }

  function After(codes: seq<CondCode>, fl: Flags, ps: Word): Word {
    if exists c :: c in codes && Holds(c, fl) then POISON else ps
  }

  /** A run of CMOVs touches nothing but the state, and poisons it iff one of the codes holds. */
  lemma {:induction false} ExecChecks(env: Env, codes: seq<CondCode>, body: seq<Instr>, s: State)
    requires |body| == |codes|
    requires forall i :: 0 <= i < |codes| ==> body[i].CMovPoison? && body[i].cc == codes[i]
    ensures Exec(env, body, s) == s.(ps := After(codes, s.flags, s.ps))
    decreases |codes|
  {
    if codes != [] {
      var s1 := Step(env, body[0], s);
      ExecChecks(env, codes[1..], body[1..], s1);
      assert codes == [codes[0]] + codes[1..];
      assert forall c :: c in codes <==> c == codes[0] || c in codes[1..];
    }
  }

  /** The conditions of a block's branches, in any order and multiplicity, say whether its
      unconditional exit is violated. */
  lemma AnyBranchCode(ts: seq<Term>, codes: seq<CondCode>, fl: Flags)
    requires forall c :: c in codes <==> c in BranchCodes(ts, NConds(ts))
    ensures (exists c :: c in codes && Holds(c, fl)) <==> Violated(ts, NConds(ts), fl)
  {
    var k := NConds(ts);
    var bc := BranchCodes(ts, k);
    if c :| c in codes && Holds(c, fl) {
      var j :| 0 <= j < |bc| && bc[j] == c;
      assert ts[k - 1 - j].cc == c;
    }
    if i :| 0 <= i < k && Holds(ts[i].cc, fl) {
      assert bc[k - 1 - i] == ts[i].cc;
      assert ts[i].cc in codes;
    }
  }

  /** Sorted and deduplicated or not, the checks of an edge poison the state iff the edge is violated. */
  lemma EdgeChecksExact(ts: seq<Term>, e: nat, fl: Flags, ps: Word)
    ensures After(EdgeCodes(ts, e), fl, ps) == if Violated(ts, e, fl) then POISON else ps
    ensures e >= NConds(ts) ==> After(EdgeCodes(ts, e), fl, ps) == After(BranchCodes(ts, NConds(ts)), fl, ps)
  {
    if e >= NConds(ts) {
      var bc := BranchCodes(ts, NConds(ts));
      SortUniqueSet(bc);
      AnyBranchCode(ts, bc, fl);
      AnyBranchCode(ts, SortUnique(bc), fl);
    } else {
      var o := Opposite(ts[e].cc);
      assert o in [o];
    }
  }

  /** Deduplication makes the last CMOV the only one that kills EFLAGS. */
  lemma OnlyLastKills(ts: seq<Term>, e: nat, i: nat)
    requires i < |EdgeCodes(ts, e)|
    ensures CMovs(EdgeCodes(ts, e), true)[i].killsFlags <==> i == |EdgeCodes(ts, e)| - 1
  {
    SortUniqueSet(BranchCodes(ts, NConds(ts)));
  }

  /** The architecturally taken exit violates nothing. */
  lemma ActualNotViolated(ts: seq<Term>, fl: Flags)
    ensures !Violated(ts, Actual(ts, fl), fl)
  {
  }
}
