/** A value that may be missing. */
module Options {
  datatype Option<+T> = None | Some(value: T)
}

/** Facts about the sizes of finite sets, for arguments that a search ends. */
module FiniteSets {
  ghost function UpTo(n: nat): (r: set<nat>)
    ensures |r| == n && forall i: nat {:trigger i in r} :: i in r <==> i < n
  {
    if n == 0 then {} else UpTo(n - 1) + {n - 1}
  }

  lemma SubsetSize<T>(a: set<T>, b: set<T>)
    requires a <= b
    ensures |a| <= |b| && (a != b ==> |a| < |b|)
  {
    assert b == a + (b - a);
    if a != b { assert b - a != {}; }
  }

  /** Putting one more element of `all` behind us leaves fewer ahead. */
  lemma Shrinks<T>(all: set<T>, visited: set<T>, x: T)
    requires x in all && x !in visited
    ensures |all - (visited + {x})| < |all - visited|
  {
    SubsetSize(all - (visited + {x}), all - visited);
  }
}
