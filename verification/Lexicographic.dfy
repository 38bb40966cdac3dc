/** The order of strings by code points, and sorted lists of sets of strings. */
module Lexicographic {

  predicate Less(a: string, b: string) {
    b != "" && (a == "" || a[0] < b[0] || (a[0] == b[0] && Less(a[1..], b[1..])))
  }

  ghost predicate FirstDifference(a: string, b: string, k: nat) {
    k <= |a| && k < |b| && a[..k] == b[..k] && (k < |a| ==> a[k] < b[k])
  }

  lemma SameFirst(a: string, b: string, k: nat)
    requires k <= |a| && k <= |b| && a[..k] == b[..k]
    ensures k > 0 ==> a[0] == b[0]
  {
    if k > 0 {
      assert a[..k][0] == b[..k][0];
    }
  }

  /** The first string ends, or has the smaller character, where the two first differ. */
  lemma {:induction false} LessIff(a: string, b: string)
    ensures Less(a, b) <==> exists k :: FirstDifference(a, b, k)
  {
    if a == "" || b == "" || a[0] != b[0] {
      assert Less(a, b) ==> FirstDifference(a, b, 0);
      forall k: nat | FirstDifference(a, b, k) ensures k == 0 {
        SameFirst(a, b, k);
      }
    } else {
      LessIff(a[1..], b[1..]);
      if k: nat :| FirstDifference(a[1..], b[1..], k) {
        assert a[..k + 1] == [a[0]] + a[1..][..k] && b[..k + 1] == [b[0]] + b[1..][..k];
        assert FirstDifference(a, b, k + 1);
      }
      if k: nat :| FirstDifference(a, b, k) {
        assert k > 0;
        assert a[1..][..k - 1] == a[..k][1..] && b[1..][..k - 1] == b[..k][1..];
        assert FirstDifference(a[1..], b[1..], k - 1);
      }
    }
  }

  lemma {:induction false} LessTotal(a: string, b: string)
    ensures a == b || Less(a, b) || Less(b, a)
  {
    if a != "" && b != "" && a[0] == b[0] {
      LessTotal(a[1..], b[1..]);
      assert a == [a[0]] + a[1..] && b == [b[0]] + b[1..];
    }
  }

  lemma {:induction false} LessTransitive(a: string, b: string, c: string)
    requires Less(a, b) && Less(b, c)
    ensures Less(a, c)
  {
    if a != "" && a[0] == b[0] && b[0] == c[0] {
      LessTransitive(a[1..], b[1..], c[1..]);
    }
  }

  lemma {:induction false} LessIrreflexive(a: string)
    ensures !Less(a, a)
  {
    if a != "" {
      LessIrreflexive(a[1..]);
    }
  }

  ghost predicate Ascending(s: seq<string>) {
    forall i, j | 0 <= i < j < |s| :: Less(s[i], s[j])
  }

  /** s lists the elements of the set in ascending order, so each of them once. */
  ghost predicate IsSorted(s: seq<string>, elements: set<string>) {
    Ascending(s) && forall x :: x in s <==> x in elements
  }

  lemma AscendingIsDistinct(s: seq<string>, i: nat, j: nat)
    requires Ascending(s) && i < |s| && j < |s| && s[i] == s[j]
    ensures i == j
  {
    LessIrreflexive(s[i]);
  }

  lemma AscendingIsNew(s: seq<string>, k: nat)
    requires Ascending(s) && k < |s|
    ensures s[k] !in s[..k]
  {
    if s[k] in s[..k] {
      var j :| 0 <= j < k && s[j] == s[k];
      AscendingIsDistinct(s, j, k);
    }
  }

  /** x is the first element of the set in order. */
  ghost predicate IsLeast(x: string, elements: set<string>) {
    x in elements && forall y | y in elements :: y == x || Less(x, y)
  }

  lemma LeastIsUnique(x: string, y: string, elements: set<string>)
    requires IsLeast(x, elements) && IsLeast(y, elements)
    ensures x == y
  {
    if x != y {
      LessTransitive(x, y, x);
      LessIrreflexive(x);
    }
  }

  lemma FirstIsLeast(s: seq<string>, elements: set<string>)
    requires IsSorted(s, elements)
    ensures |s| > 0 <==> elements != {}
    ensures |s| > 0 ==> IsLeast(s[0], elements)
  {
    if |s| > 0 {
      assert s[0] in elements;
      forall y | y in elements ensures y == s[0] || Less(s[0], y) {
        var k :| 0 <= k < |s| && s[k] == y;
      }
    }
    assert forall y | y in elements :: y in s;
  }

  lemma LeastExists(elements: set<string>) returns (x: string)
    requires elements != {}
    ensures IsLeast(x, elements)
  {
    x :| x in elements;
    if elements != {x} {
      var y := LeastExists(elements - {x});
      LessTotal(x, y);
      if Less(x, y) {
        forall z | z in elements && z != x ensures Less(x, z) {
          if z != y {
            LessTransitive(x, y, z);
          }
        }
      } else {
        x := y;
      }
    }
  }

  method Insert(s: seq<string>, x: string) returns (r: seq<string>)
    requires Ascending(s) && x !in s
    ensures Ascending(r) && forall y :: y in r <==> y == x || y in s
  {
    var k := 0;
    while k < |s| && Less(s[k], x)
      invariant 0 <= k <= |s|
      invariant forall i | 0 <= i < k :: Less(s[i], x)
    {
      k := k + 1;
    }
    forall i | k <= i < |s| ensures Less(x, s[i]) {
      LessTotal(x, s[k]);
      if i > k {
        LessTransitive(x, s[k], s[i]);
      }
    }
    r := s[..k] + [x] + s[k..];
  }

  /** sorted() of a set of strings */
  method Sorted(elements: set<string>) returns (s: seq<string>)
    ensures IsSorted(s, elements)
  {
    s := [];
    var rest := elements;
    while rest != {}
      invariant rest <= elements && IsSorted(s, elements - rest)
      decreases rest
    {
      var x :| x in rest;
      s := Insert(s, x);
      rest := rest - {x};
    }
  }
}
