/** The sublist of the elements with a property: in order, and with their multiplicity. */
module Sublists {

  ghost predicate Rises(a: seq<nat>) {
    forall k, l | 0 <= k < l < |a| :: a[k] < a[l]
  }

  /** The positions, in ascending order, are exactly those of the elements to keep. */
  ghost predicate ArePositions<T(!new)>(s: seq<T>, keep: T -> bool, at: seq<nat>) {
    && Rises(at)
    && (forall k | 0 <= k < |at| :: at[k] < |s| && keep(s[at[k]]))
    && forall j: nat | j < |s| && keep(s[j]) :: j in at
  }

  ghost predicate IsReadAt<T(!new)>(s: seq<T>, at: seq<nat>, r: seq<T>) {
    |r| == |at| && forall k | 0 <= k < |at| :: at[k] < |s| && r[k] == s[at[k]]
  }

  /** r consists of the elements of s that have the property, each as often as in s, and in the same order. */
  ghost predicate IsSublist<T(!new)>(s: seq<T>, keep: T -> bool, r: seq<T>) {
    exists at: seq<nat> :: ArePositions(s, keep, at) && IsReadAt(s, at, r)
  }

  lemma NoPositions<T(!new)>(keep: T -> bool)
    ensures IsSublist([], keep, [])
  {
    assert ArePositions<T>([], keep, []);
  }

  lemma MorePositions<T(!new)>(s: seq<T>, keep: T -> bool, at: seq<nat>, x: T)
    requires ArePositions(s, keep, at)
    ensures ArePositions(s + [x], keep, if keep(x) then at + [|s|] else at)
  {
    var s', at' := s + [x], if keep(x) then at + [|s|] else at;
    forall j: nat | j < |s'| && keep(s'[j]) ensures j in at' {
      if j < |s| {
        assert keep(s[j]);
        assert j in at;
      } else {
        assert at'[|at|] == j;
      }
    }
  }

  lemma OneMore<T(!new)>(s: seq<T>, keep: T -> bool, r: seq<T>, x: T)
    requires IsSublist(s, keep, r)
    ensures IsSublist(s + [x], keep, if keep(x) then r + [x] else r)
  {
    var at: seq<nat> :| ArePositions(s, keep, at) && IsReadAt(s, at, r);
    MorePositions(s, keep, at, x);
    MoreRead(s, at, r, x);
    hide ArePositions, IsReadAt;
    var at' := if keep(x) then at + [|s|] else at;
    assert ArePositions(s + [x], keep, at');
  }

  lemma MoreRead<T(!new)>(s: seq<T>, at: seq<nat>, r: seq<T>, x: T)
    requires IsReadAt(s, at, r)
    ensures IsReadAt(s + [x], at, r) && IsReadAt(s + [x], at + [|s|], r + [x])
  {
  }

  /** It depends only on which of the elements have the property. */
  lemma SameProperty<T(!new)>(s: seq<T>, keep: T -> bool, other: T -> bool, r: seq<T>)
    requires IsSublist(s, keep, r) && forall x | x in s :: keep(x) == other(x)
    ensures IsSublist(s, other, r)
  {
    var at: seq<nat> :| ArePositions(s, keep, at) && IsReadAt(s, at, r);
    assert forall j: nat | j < |s| :: s[j] in s;
    assert ArePositions(s, other, at);
  }

  /** Its elements are those of the list that have the property. */
  lemma Elements<T(!new)>(s: seq<T>, keep: T -> bool, r: seq<T>, x: T)
    requires IsSublist(s, keep, r)
    ensures x in r <==> x in s && keep(x)
  {
    var at: seq<nat> :| ArePositions(s, keep, at) && IsReadAt(s, at, r);
    PositionsAre(s, keep, at);
    hide ArePositions;
    if x in r {
      var k :| 0 <= k < |r| && r[k] == x;
      assert at[k] in at;
    }
    if x in s && keep(x) {
      var j: nat :| j < |s| && s[j] == x;
      var k :| 0 <= k < |at| && at[k] == j;
      assert r[k] == x;
    }
  }

  /** There is only one such sublist. */
  lemma IsUnique<T(!new)>(s: seq<T>, keep: T -> bool, a: seq<T>, b: seq<T>)
    requires IsSublist(s, keep, a) && IsSublist(s, keep, b)
    ensures a == b
  {
    var at: seq<nat> :| ArePositions(s, keep, at) && IsReadAt(s, at, a);
    var bt: seq<nat> :| ArePositions(s, keep, bt) && IsReadAt(s, bt, b);
    PositionsAre(s, keep, at);
    PositionsAre(s, keep, bt);
    hide ArePositions;
    SamePositions(at, bt);
    forall k | 0 <= k < |a| ensures a[k] == b[k] {
      assert at[k] == bt[k];
    }
  }

  lemma PositionsAre<T(!new)>(s: seq<T>, keep: T -> bool, at: seq<nat>)
    requires ArePositions(s, keep, at)
    ensures Rises(at) && forall j: nat :: j in at <==> j < |s| && keep(s[j])
  {
  }

  lemma RisesToLast(a: seq<nat>)
    requires Rises(a) && a != []
    ensures Rises(a[..|a| - 1]) && a[|a| - 1] in a
    ensures forall j: nat :: j in a[..|a| - 1] <==> j in a && j != a[|a| - 1]
    ensures forall j: nat | j in a :: j <= a[|a| - 1]
  {
    assert a == a[..|a| - 1] + [a[|a| - 1]];
  }

  lemma {:induction false} SamePositions(a: seq<nat>, b: seq<nat>)
    requires Rises(a) && Rises(b) && forall j: nat :: j in a <==> j in b
    ensures a == b
  {
    hide Rises;
    assert a != [] ==> a[0] in b;
    assert b != [] ==> b[0] in a;
    if a != [] && b != [] {
      RisesToLast(a);
      RisesToLast(b);
      assert a[|a| - 1] in b && b[|b| - 1] in a;
      assert a[|a| - 1] == b[|b| - 1];
      var a', b', last := a[..|a| - 1], b[..|b| - 1], a[|a| - 1];
      forall j: nat ensures j in a' <==> j in b' {
        assert j in a' <==> j in a && j != last;
        assert j in b' <==> j in b && j != last;
      }
      SamePositions(a', b');
      assert a == a[..|a| - 1] + [a[|a| - 1]] && b == b[..|b| - 1] + [b[|b| - 1]];
    }
  }
}
