/** Finite sets of natural numbers and their ascending enumerations. */
module SortedKeys {
  /** The least element. */
  ghost function MinKey(s: set<nat>): (m: nat)
    requires s != {}
    ensures m in s && forall u :: u in s ==> m <= u
    decreases |s|
  {
    var x :| x in s;
    if s == {x} then x
    else
      assert s == (s - {x}) + {x};
      var m := MinKey(s - {x});
      if x < m then x else m
  }

  lemma MinKeyOfMore(s: set<nat>, u: nat)
    requires s != {}
    ensures MinKey(s + {u}) == if u < MinKey(s) then u else MinKey(s)
  {}

  ghost predicate Ascending(keys: seq<nat>) {
    forall i, j :: 0 <= i < j < |keys| ==> keys[i] < keys[j]
  }

  ghost predicate Enumerates(keys: seq<nat>, s: set<nat>) {
    Ascending(keys) && forall u :: u in s <==> u in keys
  }

  lemma EmptyEnumeration(xs: seq<nat>, s: set<nat>)
    requires Enumerates(xs, s)
    ensures xs == [] <==> s == {}
  {
    if xs != [] { assert xs[0] in s; }
  }

  /** A set has one ascending enumeration. */
  lemma {:induction false} EnumerationUnique(xs: seq<nat>, ys: seq<nat>, s: set<nat>)
    requires Enumerates(xs, s) && Enumerates(ys, s)
    ensures xs == ys
  {
    if xs == [] || ys == [] {
      EmptyEnumeration(xs, s);
      EmptyEnumeration(ys, s);
    } else {
      var m, n := |xs| - 1, |ys| - 1;
      assert xs[m] in s && ys[n] in s;
      assert xs[m] == ys[n];
      RestEnumerates(xs, s);
      RestEnumerates(ys, s);
      EnumerationUnique(xs[..m], ys[..n], s - {xs[m]});
    }
  }

  lemma RestEnumerates(xs: seq<nat>, s: set<nat>)
    requires Enumerates(xs, s) && xs != []
    ensures Enumerates(xs[..|xs| - 1], s - {xs[|xs| - 1]})
  {
    var m := |xs| - 1;
    forall u ensures u in s - {xs[m]} <==> u in xs[..m] {
      if u in s - {xs[m]} {
        var i :| 0 <= i < |xs| && xs[i] == u;
        assert xs[..m][i] == u;
      }
    }
  }
}
