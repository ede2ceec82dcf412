/**
 Alias sets: instructions grouped by the objects they may point to, pruned so that sets
 contained in others are mostly dropped, and the alias edges and allocation filter computed
 from what is left.  Both users share the pruning, and walk their containers in an order that
 depends on hashes and addresses; the model leaves every such order open.
 */
module AliasSets {
  type Inst = nat
  type Obj = nat

  // ----- grouping by object -----

  /** The instructions in `domain` that may point to `o`. */
  ghost function Holders(domain: set<Inst>, pts: Inst -> set<Obj>, o: Obj): set<Inst> {
    set i | i in domain && o in pts(i)
  }

  ghost predicate Grouped(domain: set<Inst>, pts: Inst -> set<Obj>, m: map<Obj, set<Inst>>) {
    forall o: Obj :: (o in m <==> Holders(domain, pts, o) != {}) && (o in m ==> m[o] == Holders(domain, pts, o))
  }

  function Lookup(m: map<Obj, set<Inst>>, o: Obj): set<Inst> { if o in m then m[o] else {} }

  /** `m` is `m0` with `i` entered under the objects in `done`. */
  ghost predicate Entered(m0: map<Obj, set<Inst>>, m: map<Obj, set<Inst>>, i: Inst, done: set<Obj>) {
    && m.Keys == m0.Keys + done
    && (forall o: Obj {:trigger Lookup(m, o)} :: Lookup(m, o) == Lookup(m0, o) + (if o in done then {i} else {}))
  }

  lemma EnterStep(m0: map<Obj, set<Inst>>, m: map<Obj, set<Inst>>, i: Inst, done: set<Obj>, o: Obj)
    requires Entered(m0, m, i, done) && o !in done
    ensures Entered(m0, m[o := Lookup(m, o) + {i}], i, done + {o})
  {
    var m' := m[o := Lookup(m, o) + {i}];
    forall p: Obj ensures Lookup(m', p) == Lookup(m0, p) + (if p in done + {o} then {i} else {}) {
      assert Lookup(m, p) == Lookup(m0, p) + (if p in done then {i} else {});
    }
  }

  /** Enters one instruction under each of its objects. */
  method Enter(i: Inst, objects: set<Obj>, m0: map<Obj, set<Inst>>) returns (m: map<Obj, set<Inst>>)
    ensures Entered(m0, m, i, objects)
  {
    m := m0;
    var rest := objects;
    while rest != {}
      invariant rest <= objects
      invariant Entered(m0, m, i, objects - rest)
      decreases |rest|
    {
      var o :| o in rest;
      EnterStep(m0, m, i, objects - rest, o);
      m := m[o := Lookup(m, o) + {i}];
      assert objects - (rest - {o}) == (objects - rest) + {o};
      rest := rest - {o};
    }
    assert objects - rest == objects;
  }

  lemma EnterHolders(done: set<Inst>, pts: Inst -> set<Obj>, i: Inst, o: Obj)
    ensures Holders(done + {i}, pts, o) == Holders(done, pts, o) + (if o in pts(i) then {i} else {})
  {
  }

  lemma GroupStep(done: set<Inst>, pts: Inst -> set<Obj>, i: Inst, m: map<Obj, set<Inst>>, m': map<Obj, set<Inst>>)
    requires Grouped(done, pts, m) && Entered(m, m', i, pts(i))
    ensures Grouped(done + {i}, pts, m')
  {
    forall o: Obj
      ensures (o in m' <==> Holders(done + {i}, pts, o) != {}) && (o in m' ==> m'[o] == Holders(done + {i}, pts, o))
    {
      EnterHolders(done, pts, i, o);
      assert Lookup(m', o) == Lookup(m, o) + (if o in pts(i) then {i} else {});
    }
  }

  /** The map from each object to the instructions that may point to it. */
  method Group(domain: set<Inst>, pts: Inst -> set<Obj>) returns (m: map<Obj, set<Inst>>)
    ensures Grouped(domain, pts, m)
  {
    m := map[];
    var rest := domain;
    while rest != {}
      invariant rest <= domain && Grouped(domain - rest, pts, m)
      decreases |rest|
    {
      var i :| i in rest;
      var before := m;
      m := Enter(i, pts(i), m);
      GroupStep(domain - rest, pts, i, before, m);
      assert domain - (rest - {i}) == (domain - rest) + {i};
      rest := rest - {i};
    }
    assert domain - rest == domain;
  }

  // ----- pruning -----

  /** The kept sets are among the given ones, and each given one lies inside a kept one. */
  ghost predicate Represents(given: set<set<Inst>>, kept: set<set<Inst>>) {
    && kept <= given
    && (forall s: set<Inst> | s in given :: Inside(kept, s))
  }

  ghost predicate Inside(kept: set<set<Inst>>, s: set<Inst>) {
    exists k: set<Inst> :: k in kept && s <= k
  }

  /**
   Looks for a kept set that contains `s`, dropping the first one contained in `s` instead if
   it meets that earlier.
   */
  method Absorb(s: set<Inst>, kept0: set<set<Inst>>) returns (kept: set<set<Inst>>)
    ensures kept <= kept0 + {s}
    ensures Inside(kept, s) && forall t: set<Inst> | t in kept0 :: Inside(kept, t)
  {
    kept := kept0;
    assert forall t: set<Inst> | t in kept0 :: Inside(kept0, t);
    if s in kept { return; }
    var rest := kept;
    while rest != {}
      invariant rest <= kept && kept == kept0
      decreases |rest|
    {
      var k :| k in rest;
      if s <= k { return; }
      if k <= s {
        kept := kept - {k};
        break;
      }
      rest := rest - {k};
    }
    kept := kept + {s};
    assert forall t: set<Inst> | t in kept0 :: t in kept || t <= s;
  }

  lemma InsideStep(kept: set<set<Inst>>, kept': set<set<Inst>>, t: set<Inst>)
    requires Inside(kept, t) && forall k: set<Inst> | k in kept :: Inside(kept', k)
    ensures Inside(kept', t)
  {
    var k: set<Inst> :| k in kept && t <= k;
    assert Inside(kept', k);
  }

  method Prune(m: map<Obj, set<Inst>>) returns (kept: set<set<Inst>>)
    ensures Represents(m.Values, kept)
  {
    kept := {};
    var rest := m.Keys;
    ghost var given: set<set<Inst>> := {};
    while rest != {}
      invariant rest <= m.Keys
      invariant given <= m.Values && forall o: Obj | o in m && o !in rest :: m[o] in given
      invariant Represents(given, kept)
      decreases |rest|
    {
      var o :| o in rest;
      var before := kept;
      kept := Absorb(m[o], kept);
      forall t: set<Inst> | t in given + {m[o]} ensures Inside(kept, t) {
        if t in given { InsideStep(before, kept, t); }
      }
      given := given + {m[o]};
      rest := rest - {o};
    }
    assert given == m.Values;
  }

  // ----- what pruning keeps -----

  /** The naive definition: two instructions share an object. */
  ghost predicate Share(domain: set<Inst>, pts: Inst -> set<Obj>, i: Inst, j: Inst) {
    i in domain && j in domain && exists o: Obj :: o in pts(i) && o in pts(j)
  }

  ghost predicate Together(kept: set<set<Inst>>, i: Inst, j: Inst) {
    exists k: set<Inst> :: k in kept && i in k && j in k
  }

  lemma TogetherShares(domain: set<Inst>, pts: Inst -> set<Obj>, m: map<Obj, set<Inst>>, k: set<Inst>, i: Inst, j: Inst)
    requires Grouped(domain, pts, m) && k in m.Values && i in k && j in k
    ensures Share(domain, pts, i, j)
  {
    var o :| o in m && m[o] == k;
    assert k == Holders(domain, pts, o);
  }

  lemma SharesTogether(domain: set<Inst>, pts: Inst -> set<Obj>, m: map<Obj, set<Inst>>, o: Obj, i: Inst, j: Inst)
    requires Grouped(domain, pts, m) && i in domain && j in domain && o in pts(i) && o in pts(j)
    ensures o in m && m[o] in m.Values && i in m[o] && j in m[o]
  {
    assert i in Holders(domain, pts, o) && j in Holders(domain, pts, o);
  }

  /** Two instructions are in one kept set iff they share an object. */
  lemma PrunedShare(domain: set<Inst>, pts: Inst -> set<Obj>, m: map<Obj, set<Inst>>, kept: set<set<Inst>>, i: Inst, j: Inst)
    requires Grouped(domain, pts, m) && Represents(m.Values, kept)
    ensures Together(kept, i, j) <==> Share(domain, pts, i, j)
  {
    if Together(kept, i, j) {
      var k: set<Inst> :| k in kept && i in k && j in k;
      TogetherShares(domain, pts, m, k, i, j);
    }
    if Share(domain, pts, i, j) {
      var o: Obj :| o in pts(i) && o in pts(j);
      SharesTogether(domain, pts, m, o, i, j);
      assert Inside(kept, m[o]);
    }
  }

  // ----- alias edges -----

  datatype Info = Info(hasNode: bool, bitCast: bool, typ: nat)

  predicate TypesAllow(a: Info, b: Info) {
    a.hasNode && b.hasNode && (a.bitCast || b.bitCast || a.typ == b.typ)
  }

  /** All pairs inside one set, both ways. */
  ghost predicate PairIn(info: Inst -> Info, s: set<Inst>, e: (Inst, Inst)) {
    e.0 in s && e.1 in s && e.0 != e.1 && TypesAllow(info(e.0), info(e.1))
  }

  method ConnectTo(i: Inst, others: set<Inst>, info: Inst -> Info, edges0: set<(Inst, Inst)>) returns (edges: set<(Inst, Inst)>)
    ensures forall e: (Inst, Inst) {:trigger e in edges} :: e in edges <==>
      e in edges0 || (TypesAllow(info(e.0), info(e.1)) && ((e.0 == i && e.1 in others) || (e.1 == i && e.0 in others)))
  {
    edges := edges0;
    var rest := others;
    while rest != {}
      invariant rest <= others
      invariant forall e: (Inst, Inst) {:trigger e in edges} :: e in edges <==>
        e in edges0 || (TypesAllow(info(e.0), info(e.1)) && ((e.0 == i && e.1 in others - rest) || (e.1 == i && e.0 in others - rest)))
      decreases |rest|
    {
      var j :| j in rest;
      if TypesAllow(info(i), info(j)) {
        edges := edges + {(i, j), (j, i)};
      }
      rest := rest - {j};
    }
  }

  method ConnectSet(s: set<Inst>, info: Inst -> Info, edges0: set<(Inst, Inst)>) returns (edges: set<(Inst, Inst)>)
    ensures forall e: (Inst, Inst) {:trigger e in edges} :: e in edges <==> e in edges0 || PairIn(info, s, e)
  {
    edges := edges0;
    var rest := s;
    while rest != {}
      invariant rest <= s
      invariant forall e: (Inst, Inst) {:trigger e in edges} :: e in edges <==>
        e in edges0 || (PairIn(info, s, e) && (e.0 !in rest || e.1 !in rest))
      decreases |rest|
    {
      var i :| i in rest;
      rest := rest - {i};
      edges := ConnectTo(i, rest, info, edges);
    }
  }

  /** The kept sets one after the other. */
  method Connect(kept: set<set<Inst>>, info: Inst -> Info) returns (edges: set<(Inst, Inst)>)
    ensures forall e: (Inst, Inst) {:trigger e in edges} :: e in edges <==> exists s: set<Inst> :: s in kept && PairIn(info, s, e)
  {
    edges := {};
    var rest := kept;
    while rest != {}
      invariant rest <= kept
      invariant forall e: (Inst, Inst) {:trigger e in edges} :: e in edges <==> exists s: set<Inst> :: s in kept - rest && PairIn(info, s, e)
      decreases |rest|
    {
      var s :| s in rest;
      ghost var before, left := edges, rest;
      edges := ConnectSet(s, info, edges);
      rest := rest - {s};
      forall e: (Inst, Inst) ensures e in edges <==> exists t: set<Inst> :: t in kept - rest && PairIn(info, t, e) {
        assert e in before <==> exists t: set<Inst> :: t in kept - left && PairIn(info, t, e);
        assert kept - rest == (kept - left) + {s};
      }
    }
    assert kept - rest == kept;
  }

  /** The alias edges are exactly the pairs that share an object and whose types allow it. */
  ghost predicate AliasPair(domain: set<Inst>, pts: Inst -> set<Obj>, info: Inst -> Info, e: (Inst, Inst)) {
    && e.0 != e.1 && Share(domain, pts, e.0, e.1)
    && info(e.0).hasNode && info(e.1).hasNode && (info(e.0).bitCast || info(e.1).bitCast || info(e.0).typ == info(e.1).typ)
  }

  method AliasEdges(domain: set<Inst>, pts: Inst -> set<Obj>, info: Inst -> Info) returns (edges: set<(Inst, Inst)>)
    ensures forall e: (Inst, Inst) {:trigger e in edges} :: e in edges <==> AliasPair(domain, pts, info, e)
    ensures forall e: (Inst, Inst) | e in edges :: (e.1, e.0) in edges
  {
    var m := Group(domain, pts);
    var kept := Prune(m);
    edges := Connect(kept, info);
    forall e: (Inst, Inst) ensures e in edges <==> AliasPair(domain, pts, info, e) {
      PrunedShare(domain, pts, m, kept, e.0, e.1);
    }
    forall e: (Inst, Inst) | e in edges ensures (e.1, e.0) in edges {
      assert AliasPair(domain, pts, info, (e.1, e.0));
    }
  }

  // ----- the allocation filter -----

  /** What a heap pointer is: the result of a call, of an invoke, or something else. */
  datatype Kind = CallResult | InvokeResult | OtherValue

  ghost predicate Queried(pointers: set<Inst>, aliases: (Inst, Inst) -> bool, c: Inst) {
    exists d: Inst :: d in pointers && d != c && aliases(c, d)
  }

  /** Compares one call with the other pointers until one may alias it. */
  method AliasedByQuery(pointers: set<Inst>, aliases: (Inst, Inst) -> bool, c: Inst) returns (found: bool)
    ensures found <==> Queried(pointers, aliases, c)
  {
    var rest := pointers;
    while rest != {}
      invariant rest <= pointers
      invariant forall d: Inst | d in pointers - rest && d != c :: !aliases(c, d)
      decreases |rest|
    {
      var d :| d in rest;
      if d != c && aliases(c, d) { return true; }
      rest := rest - {d};
    }
    return false;
  }

  /** Two different calls share an object. */
  ghost predicate SharedCall(calls: set<Inst>, pts: Inst -> set<Obj>, c: Inst) {
    exists d: Inst :: d != c && Share(calls, pts, c, d)
  }

  /** Some set has `c` and another member. */
  ghost predicate Crowded(sets: set<set<Inst>>, c: Inst) {
    exists s: set<Inst> :: s in sets && |s| > 1 && c in s
  }

  /** Drops every member of a set that has more than one. */
  method DropShared(kept: set<set<Inst>>, result0: set<Inst>) returns (result: set<Inst>)
    ensures forall c: Inst {:trigger c in result} :: c in result <==> c in result0 && !Crowded(kept, c)
  {
    result := result0;
    var rest := kept;
    while rest != {}
      invariant rest <= kept
      invariant forall c: Inst {:trigger c in result} :: c in result <==> c in result0 && !Crowded(kept - rest, c)
      decreases |rest|
    {
      var s :| s in rest;
      ghost var before, left := result, rest;
      if |s| > 1 { result := result - s; }
      rest := rest - {s};
      forall c: Inst ensures c in result <==> c in result0 && !Crowded(kept - rest, c) {
        assert c in before <==> c in result0 && !Crowded(kept - left, c);
        assert kept - rest == (kept - left) + {s};
      }
    }
    assert kept - rest == kept;
  }

  lemma MoreThanOne(s: set<Inst>, c: Inst)
    requires c in s
    ensures |s| > 1 <==> exists d: Inst :: d in s && d != c
  {
    if |s| > 1 {
      assert |s - {c}| == |s| - 1;
      var d :| d in s - {c};
    }
    if d: Inst :| d in s && d != c {
      assert |s - {c}| == |s| - 1 && d in s - {c};
    }
  }

  lemma CrowdedIff(kept: set<set<Inst>>, c: Inst)
    ensures Crowded(kept, c) <==> exists d: Inst :: d != c && Together(kept, c, d)
  {
    if Crowded(kept, c) {
      var s: set<Inst> :| s in kept && |s| > 1 && c in s;
      MoreThanOne(s, c);
      var d: Inst :| d in s && d != c;
      assert Together(kept, c, d);
    }
    if d: Inst :| d != c && Together(kept, c, d) {
      var s: set<Inst> :| s in kept && c in s && d in s;
      MoreThanOne(s, c);
    }
  }

  lemma DroppedIff(calls: set<Inst>, pts: Inst -> set<Obj>, m: map<Obj, set<Inst>>, kept: set<set<Inst>>, c: Inst)
    requires Grouped(calls, pts, m) && Represents(m.Values, kept)
    ensures Crowded(kept, c) <==> SharedCall(calls, pts, c)
  {
    CrowdedIff(kept, c);
    forall d: Inst ensures Together(kept, c, d) <==> Share(calls, pts, c, d) {
      PrunedShare(calls, pts, m, kept, c, d);
    }
  }

  /**
   The allocations that alias nothing: call and invoke results, without the call results that
   may alias another pointer by the query or share an object with another call result.
   */
  method NonAliased(pointers: set<Inst>, kind: Inst -> Kind, aliases: (Inst, Inst) -> bool, pts: Inst -> set<Obj>) returns (result: set<Inst>)
    ensures forall c: Inst {:trigger c in result} :: c in result <==>
      && c in pointers && kind(c) != OtherValue
      && !(kind(c) == CallResult && (Queried(pointers, aliases, c) || SharedCall((set d | d in pointers && kind(d) == CallResult), pts, c)))
  {
    result := set c | c in pointers && kind(c) != OtherValue;
    var calls := set d | d in pointers && kind(d) == CallResult;
    var rest := calls;
    while rest != {}
      invariant rest <= calls
      invariant forall c: Inst {:trigger c in result} :: c in result <==>
        c in pointers && kind(c) != OtherValue && !(c in calls - rest && Queried(pointers, aliases, c))
      decreases |rest|
    {
      var c :| c in rest;
      var found := AliasedByQuery(pointers, aliases, c);
      if found { result := result - {c}; }
      rest := rest - {c};
    }
    var m := Group(calls, pts);
    var kept := Prune(m);
    result := DropShared(kept, result);
    forall c: Inst ensures Crowded(kept, c) <==> SharedCall(calls, pts, c) {
      DroppedIff(calls, pts, m, kept, c);
    }
  }
}
