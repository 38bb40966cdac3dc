/**
  Model of clang/utils/token-delta.py: delta debugging over the tokens of several files, with a
  cache of failing change sets. The test program is an unknown function of the files it is given.
 */
module TokenDelta {
  import opened Wrappers
  import Sublists

  /** A kept token: the index of its file and its index in that file. */
  type Change = (nat, nat)

  // ------------------------------------------------------------------- sublists of a change list

  ghost predicate Distinct<T>(s: seq<T>) {
    forall i, j | 0 <= i < j < |s| :: s[i] != s[j]
  }

  /** The elements of `all` that lie in `chosen`, in the order of `all`. */
  ghost function Pick(all: seq<Change>, chosen: set<Change>): seq<Change> {
    if all == [] then []
    else (if all[0] in chosen then [all[0]] else []) + Pick(all[1..], chosen)
  }

  lemma {:induction false} PickMembers(all: seq<Change>, chosen: set<Change>)
    ensures forall x :: x in Pick(all, chosen) <==> x in all && x in chosen
  {
    if all != [] {
      PickMembers(all[1..], chosen);
    }
  }

  function Elements(c: seq<Change>): set<Change> {
    set x | x in c
  }

  /** c is `all` with some of its elements removed. */
  ghost predicate InOrder(all: seq<Change>, c: seq<Change>) {
    c == Pick(all, Elements(c))
  }

  lemma {:induction false} PickConcat(a: seq<Change>, b: seq<Change>, chosen: set<Change>)
    ensures Pick(a + b, chosen) == Pick(a, chosen) + Pick(b, chosen)
  {
    if a == [] {
      assert a + b == b;
    } else {
      assert (a + b)[1..] == a[1..] + b && (a + b)[0] == a[0];
      PickConcat(a[1..], b, chosen);
      var head := if a[0] in chosen then [a[0]] else [];
      assert Pick(a, chosen) == head + Pick(a[1..], chosen) && Pick(a + b, chosen) == head + Pick(a[1..] + b, chosen);
      hide Pick;
      assert head + (Pick(a[1..], chosen) + Pick(b, chosen)) == head + Pick(a[1..], chosen) + Pick(b, chosen);
    }
  }

  lemma {:induction false} PickEverything(a: seq<Change>, chosen: set<Change>)
    requires forall x | x in a :: x in chosen
    ensures Pick(a, chosen) == a
  {
    if a != [] {
      PickEverything(a[1..], chosen);
    }
  }

  lemma WholeAndEmptyInOrder(all: seq<Change>)
    ensures InOrder(all, all) && InOrder(all, [])
  {
    PickEverything(all, Elements(all));
    PickNothing(all, Elements([]));
  }

  lemma {:induction false} PickTwice(a: seq<Change>, s: set<Change>, t: set<Change>)
    ensures Pick(Pick(a, s), t) == Pick(a, s * t)
  {
    if a != [] {
      PickTwice(a[1..], s, t);
      PickConcat(if a[0] in s then [a[0]] else [], Pick(a[1..], s), t);
    }
  }

  lemma {:induction false} PickDistinct(a: seq<Change>, s: set<Change>)
    requires Distinct(a)
    ensures Distinct(Pick(a, s))
  {
    if a != [] {
      PickDistinct(a[1..], s);
      PickMembers(a[1..], s);
    }
  }

  lemma DisjointBlocks(a: seq<Change>, b: seq<Change>)
    requires Distinct(a + b)
    ensures Distinct(a) && Distinct(b) && forall x | x in a :: x !in b
  {
    forall i | 0 <= i < |a| ensures (a + b)[i] == a[i] {}
    forall i | 0 <= i < |b| ensures (a + b)[|a| + i] == b[i] {}
  }

  lemma PickOuter(a: seq<Change>, b: seq<Change>, d: seq<Change>)
    requires forall x | x in b :: x !in a && x !in d
    ensures Pick(a, Elements(a + d)) + Pick(b, Elements(a + d)) + Pick(d, Elements(a + d)) == a + d
  {
    hide Pick;
    var outer := Elements(a + d);
    PickEverything(a, outer);
    PickNothing(b, outer);
    PickEverything(d, outer);
    assert a + [] + d == a + d;
  }

  lemma PickInner(a: seq<Change>, b: seq<Change>, d: seq<Change>)
    requires forall x | x in b :: x !in a && x !in d
    ensures Pick(a, Elements(b)) + Pick(b, Elements(b)) + Pick(d, Elements(b)) == b
  {
    hide Pick;
    var inner := Elements(b);
    PickNothing(a, inner);
    PickEverything(b, inner);
    PickNothing(d, inner);
    assert [] + b + [] == b;
  }

  /** Removing a block from an ordered sublist leaves an ordered sublist; so does keeping only it. */
  lemma RemoveBlock(all: seq<Change>, a: seq<Change>, b: seq<Change>, d: seq<Change>)
    requires Distinct(all) && InOrder(all, a + b + d)
    ensures InOrder(all, a + d) && InOrder(all, b)
  {
    PickDistinct(all, Elements(a + b + d));
    assert forall x | x in b :: x !in a && x !in d by {
      DisjointBlocks(a + b, d);
      DisjointBlocks(a, b);
    }
    PickOuter(a, b, d);
    PickInner(a, b, d);
    BlockOf(all, a, b, d, Elements(a + d));
    BlockOf(all, a, b, d, Elements(b));
  }

  lemma BlockOf(all: seq<Change>, a: seq<Change>, b: seq<Change>, d: seq<Change>, t: set<Change>)
    requires InOrder(all, a + b + d) && t <= Elements(a + b + d)
    ensures Pick(all, t) == Pick(a, t) + Pick(b, t) + Pick(d, t)
  {
    var s := Elements(a + b + d);
    PickTwice(all, s, t);
    assert s * t == t;
    PickConcat(a + b, d, t);
    PickConcat(a, b, t);
  }

  lemma {:induction false} PickNothing(a: seq<Change>, chosen: set<Change>)
    requires forall x | x in a :: x !in chosen
    ensures Pick(a, chosen) == []
  {
    if a != [] {
      PickNothing(a[1..], chosen);
    }
  }

  // -------------------------------------------------------------------------------- partitions

  function Flatten(sets: seq<seq<Change>>): seq<Change> {
    if sets == [] then [] else sets[0] + Flatten(sets[1..])
  }

  lemma {:induction false} FlattenConcat(s: seq<seq<Change>>, t: seq<seq<Change>>)
    ensures Flatten(s + t) == Flatten(s) + Flatten(t)
  {
    if s == [] {
      assert s + t == t;
    } else {
      assert (s + t)[1..] == s[1..] + t;
      FlattenConcat(s[1..], t);
    }
  }

  lemma FlattenAt(sets: seq<seq<Change>>, i: nat)
    requires i < |sets|
    ensures Flatten(sets) == Flatten(sets[..i]) + sets[i] + Flatten(sets[i + 1..])
  {
    assert sets == sets[..i] + sets[i..];
    FlattenConcat(sets[..i], sets[i..]);
    assert sets[i..][1..] == sets[i + 1..];
  }

  /** One or two halves. */
  function Split(l: seq<Change>): seq<seq<Change>> {
    var mid := |l| / 2;
    if mid == 0 then [l] else [l[..mid], l[mid..]]
  }

  /** The halves of two or more changes differ by at most one change, and the first is not the longer one. */
  lemma SplitInHalves(l: seq<Change>)
    requires |l| >= 2
    ensures var s := Split(l); |s| == 2 && s[0] + s[1] == l && |s[0]| <= |s[1]| <= |s[0]| + 1
  {
  }

  function Refine(sets: seq<seq<Change>>): seq<seq<Change>> {
    if sets == [] then [] else Split(sets[0]) + Refine(sets[1..])
  }

  ghost predicate Partition(c: seq<Change>, sets: seq<seq<Change>>) {
    Flatten(sets) == c && forall i | 0 <= i < |sets| :: sets[i] != []
  }

  lemma {:induction false} PartitionSize(c: seq<Change>, sets: seq<seq<Change>>)
    requires Partition(c, sets)
    decreases |sets|
    ensures |sets| <= |c|
    ensures |sets| == |c| <==> forall i | 0 <= i < |sets| :: |sets[i]| == 1
  {
    if sets != [] {
      PartitionSize(Flatten(sets[1..]), sets[1..]);
      assert forall i | 1 <= i < |sets| :: sets[i] == sets[1..][i - 1];
    }
  }

  lemma SplitIsPartition(c: seq<Change>)
    requires c != []
    ensures Partition(c, Split(c)) && (|Split(c)| == 1 <==> |c| == 1)
  {
    var mid := |c| / 2;
    if mid != 0 {
      var halves := [c[..mid], c[mid..]];
      FlattenAt(halves, 0);
      FlattenAt(halves[1..], 0);
      assert halves[0] + halves[1] == c;
    }
  }

  lemma {:induction false} RefineIsPartition(c: seq<Change>, sets: seq<seq<Change>>)
    requires Partition(c, sets)
    decreases |sets|
    ensures Partition(c, Refine(sets)) && |sets| <= |Refine(sets)|
    ensures |Refine(sets)| == |sets| <==> forall i | 0 <= i < |sets| :: |sets[i]| == 1
  {
    if sets != [] {
      RefineIsPartition(Flatten(sets[1..]), sets[1..]);
      SplitIsPartition(sets[0]);
      FlattenConcat(Split(sets[0]), Refine(sets[1..]));
      assert forall i | 1 <= i < |sets| :: sets[i] == sets[1..][i - 1];
    }
  }

  function Without(sets: seq<seq<Change>>, i: nat): seq<seq<Change>>
    requires i < |sets|
  {
    sets[..i] + sets[i + 1..]
  }

  lemma WithoutIsPartition(c: seq<Change>, sets: seq<seq<Change>>, i: nat)
    requires Partition(c, sets) && i < |sets|
    ensures Partition(Flatten(Without(sets, i)), Without(sets, i))
    ensures |Flatten(Without(sets, i))| + |sets[i]| == |c|
  {
    FlattenAt(sets, i);
    FlattenConcat(sets[..i], sets[i + 1..]);
  }

  lemma TwoPieces(sets: seq<seq<Change>>)
    requires |sets| == 2
    ensures Flatten(Without(sets, 0)) == sets[1] && Flatten(Without(sets, 1)) == sets[0]
  {
    assert Without(sets, 0) == [sets[1]] && Without(sets, 1) == [sets[0]];
    FlattenAt([sets[0]], 0);
    FlattenAt([sets[1]], 0);
  }

  lemma PiecesInOrder(all: seq<Change>, c: seq<Change>, sets: seq<seq<Change>>, i: nat)
    requires Distinct(all) && InOrder(all, c) && Partition(c, sets) && i < |sets|
    ensures InOrder(all, sets[i]) && InOrder(all, Flatten(Without(sets, i)))
  {
    FlattenAt(sets, i);
    FlattenConcat(sets[..i], sets[i + 1..]);
    RemoveBlock(all, Flatten(sets[..i]), sets[i], Flatten(sets[i + 1..]));
  }

  lemma {:induction false} SingletonPrefix(sets: seq<seq<Change>>, k: nat)
    requires k <= |sets| && forall i | 0 <= i < |sets| :: |sets[i]| == 1
    ensures |Flatten(sets)| == |sets| && Flatten(sets[..k]) == Flatten(sets)[..k]
  {
    if sets != [] {
      SingletonPrefix(sets[1..], if k == 0 then 0 else k - 1);
      if k > 0 {
        assert sets[..k][1..] == sets[1..][..k - 1];
      }
    }
  }

  /** In a partition into singletons, removing piece k is removing element k. */
  lemma SingletonWithout(c: seq<Change>, sets: seq<seq<Change>>, k: nat)
    requires Partition(c, sets) && k < |sets| && forall i | 0 <= i < |sets| :: |sets[i]| == 1
    ensures |c| == |sets| && Flatten(Without(sets, k)) == c[..k] + c[k + 1..]
  {
    SingletonPrefix(sets, k);
    SingletonPrefix(sets, k + 1);
    assert sets == sets[..k + 1] + sets[k + 1..];
    FlattenConcat(sets[..k + 1], sets[k + 1..]);
    FlattenConcat(sets[..k], sets[k + 1..]);
  }

  // ------------------------------------------------------------------------------------ files

  ghost function TokenText(tokens: seq<string>, js: seq<nat>): string
    requires forall k | 0 <= k < |js| :: js[k] < |tokens|
  {
    if js == [] then [] else TokenText(tokens, js[..|js| - 1]) + tokens[js[|js| - 1]]
  }

  /** The token indices kept of file i, in the order of the change list. */
  ghost function TokensOf(i: nat, changes: seq<Change>): seq<nat> {
    if changes == [] then []
    else
      var last := changes[|changes| - 1];
      TokensOf(i, changes[..|changes| - 1]) + if last.0 == i then [last.1] else []
  }

  ghost predicate Exists(tokenLists: seq<seq<string>>, x: Change) {
    x.0 < |tokenLists| && x.1 < |tokenLists[x.0]|
  }

  ghost predicate InRange(tokenLists: seq<seq<string>>, changes: seq<Change>) {
    changes == [] || (InRange(tokenLists, changes[..|changes| - 1]) && Exists(tokenLists, changes[|changes| - 1]))
  }

  lemma {:induction false} InRangeMeansAllExist(tokenLists: seq<seq<string>>, changes: seq<Change>)
    ensures InRange(tokenLists, changes) <==> forall x | x in changes :: Exists(tokenLists, x)
  {
    if changes != [] {
      InRangeMeansAllExist(tokenLists, changes[..|changes| - 1]);
      assert changes == changes[..|changes| - 1] + [changes[|changes| - 1]];
    }
  }

  /** The text of file i when only the given changes are kept. */
  ghost function FileText(tokenLists: seq<seq<string>>, changes: seq<Change>, i: nat): string
    requires InRange(tokenLists, changes)
  {
    if changes == [] then []
    else
      var last := changes[|changes| - 1];
      FileText(tokenLists, changes[..|changes| - 1], i) + if last.0 == i then tokenLists[i][last.1] else []
  }

  lemma {:induction false} GroupedText(tokenLists: seq<seq<string>>, changes: seq<Change>, i: nat)
    requires InRange(tokenLists, changes) && i < |tokenLists|
    ensures forall k | 0 <= k < |TokensOf(i, changes)| :: TokensOf(i, changes)[k] < |tokenLists[i]|
    ensures TokenText(tokenLists[i], TokensOf(i, changes)) == FileText(tokenLists, changes, i)
  {
    if changes != [] {
      var before, last := changes[..|changes| - 1], changes[|changes| - 1];
      GroupedText(tokenLists, before, i);
      if last.0 == i {
        assert TokensOf(i, changes)[..|TokensOf(i, before)|] == TokensOf(i, before);
      } else {
        assert TokensOf(i, changes) == TokensOf(i, before);
      }
    }
  }

  ghost function RenderFirst(tokenLists: seq<seq<string>>, changes: seq<Change>, n: nat): (files: seq<string>)
    requires InRange(tokenLists, changes) && n <= |tokenLists|
    ensures |files| == n
  {
    if n == 0 then [] else RenderFirst(tokenLists, changes, n - 1) + [FileText(tokenLists, changes, n - 1)]
  }

  /** The text of every file when only the given changes are kept. */
  ghost function Render(tokenLists: seq<seq<string>>, changes: seq<Change>): seq<string>
    requires InRange(tokenLists, changes)
  {
    RenderFirst(tokenLists, changes, |tokenLists|)
  }

  /** All tokens of all files, file by file. */
  function AllChanges(tokenLists: seq<seq<string>>): (all: seq<Change>) {
    if tokenLists == [] then []
    else
      var i := |tokenLists| - 1;
      AllChanges(tokenLists[..i]) + seq(|tokenLists[i]|, j => (i, j))
  }

  lemma AllChangesLast(tokenLists: seq<seq<string>>, x: Change)
    requires tokenLists != []
    ensures var i := |tokenLists| - 1;
            x in AllChanges(tokenLists) <==> x in AllChanges(tokenLists[..i]) || (x.0 == i && x.1 < |tokenLists[i]|)
  {
    var i := |tokenLists| - 1;
    var own: seq<Change> := seq(|tokenLists[i]|, j => (i, j));
    assert AllChanges(tokenLists) == AllChanges(tokenLists[..i]) + own;
    if x.0 == i && x.1 < |tokenLists[i]| {
      assert own[x.1] == x;
    }
  }

  /** The changes of a run are exactly the tokens of all files. */
  lemma {:induction false} AllChangesExist(tokenLists: seq<seq<string>>, x: Change)
    ensures x in AllChanges(tokenLists) <==> Exists(tokenLists, x)
  {
    if tokenLists != [] {
      var i := |tokenLists| - 1;
      AllChangesLast(tokenLists, x);
      AllChangesExist(tokenLists[..i], x);
    }
  }

  ghost predicate Precedes(x: Change, y: Change) {
    x.0 < y.0 || (x.0 == y.0 && x.1 < y.1)
  }

  /** In the order of the files, and of the tokens in each file. */
  ghost predicate Ascends(c: seq<Change>) {
    forall k, l | 0 <= k < l < |c| :: Precedes(c[k], c[l])
  }

  lemma {:induction false} AllChangesAscend(tokenLists: seq<seq<string>>)
    ensures Ascends(AllChanges(tokenLists))
  {
    if tokenLists != [] {
      var i := |tokenLists| - 1;
      AllChangesAscend(tokenLists[..i]);
      forall x | x in AllChanges(tokenLists[..i]) ensures x.0 < i {
        AllChangesExist(tokenLists[..i], x);
      }
    }
  }

  lemma AllChangesValid(tokenLists: seq<seq<string>>)
    ensures forall x :: x in AllChanges(tokenLists) <==> Exists(tokenLists, x)
    ensures Ascends(AllChanges(tokenLists)) && Distinct(AllChanges(tokenLists))
    ensures InRange(tokenLists, AllChanges(tokenLists))
  {
    forall x ensures x in AllChanges(tokenLists) <==> Exists(tokenLists, x) {
      AllChangesExist(tokenLists, x);
    }
    AllChangesAscend(tokenLists);
    InRangeMeansAllExist(tokenLists, AllChanges(tokenLists));
  }

  // ---------------------------------------------------------------------------- what is rendered

  /** The tokens one after the other, from the first to the last. */
  ghost function Concat(tokens: seq<string>): string {
    if tokens == [] then "" else tokens[0] + Concat(tokens[1..])
  }

  lemma {:induction false} ConcatSnoc(tokens: seq<string>, token: string)
    ensures Concat(tokens + [token]) == Concat(tokens) + token
  {
    if tokens == [] {
      assert [token][1..] == [] && token + "" == token;
      assert tokens + [token] == [token];
    } else {
      assert (tokens + [token])[1..] == tokens[1..] + [token];
      ConcatSnoc(tokens[1..], token);
    }
  }

  ghost function OfFile(i: nat): Change -> bool {
    (x: Change) => x.0 == i
  }

  ghost predicate AllExist(tokenLists: seq<seq<string>>, changes: seq<Change>) {
    forall k | 0 <= k < |changes| :: Exists(tokenLists, changes[k])
  }

  /** The tokens that the changes stand for, in their order. */
  ghost function Tokens(tokenLists: seq<seq<string>>, changes: seq<Change>): (tokens: seq<string>)
    requires AllExist(tokenLists, changes)
    ensures |tokens| == |changes|
    ensures forall k | 0 <= k < |changes| :: Exists(tokenLists, changes[k]) && tokens[k] == tokenLists[changes[k].0][changes[k].1]
  {
    seq(|changes|, k requires 0 <= k < |changes| && Exists(tokenLists, changes[k]) => tokenLists[changes[k].0][changes[k].1])
  }

  lemma OneMoreToken(tokenLists: seq<seq<string>>, own: seq<Change>, x: Change)
    requires AllExist(tokenLists, own) && Exists(tokenLists, x)
    ensures AllExist(tokenLists, own + [x])
    ensures Concat(Tokens(tokenLists, own + [x])) == Concat(Tokens(tokenLists, own)) + tokenLists[x.0][x.1]
  {
    assert Tokens(tokenLists, own + [x]) == Tokens(tokenLists, own) + [tokenLists[x.0][x.1]];
    ConcatSnoc(Tokens(tokenLists, own), tokenLists[x.0][x.1]);
  }

  lemma {:induction false} OwnText(tokenLists: seq<seq<string>>, changes: seq<Change>, i: nat) returns (own: seq<Change>)
    requires InRange(tokenLists, changes) && i < |tokenLists|
    ensures Sublists.IsSublist(changes, OfFile(i), own) && AllExist(tokenLists, own)
    ensures FileText(tokenLists, changes, i) == Concat(Tokens(tokenLists, own))
  {
    own := [];
    hide Sublists.IsSublist, Exists, AllExist;
    if changes == [] {
      Sublists.NoPositions(OfFile(i));
      NoTokens(tokenLists);
    } else {
      var n := |changes| - 1;
      own := OwnText(tokenLists, changes[..n], i);
      Sublists.OneMore(changes[..n], OfFile(i), own, changes[n]);
      assert changes == changes[..n] + [changes[n]];
      if changes[n].0 == i {
        OneMoreToken(tokenLists, own, changes[n]);
        own := own + [changes[n]];
      }
    }
  }

  lemma NoTokens(tokenLists: seq<seq<string>>)
    ensures AllExist(tokenLists, []) && Concat(Tokens(tokenLists, [])) == ""
  {
  }

  /** File i is the tokens of its own changes, in the order of the change list, one after the other. */
  lemma FileTextIs(tokenLists: seq<seq<string>>, changes: seq<Change>, i: nat, own: seq<Change>)
    requires InRange(tokenLists, changes) && i < |tokenLists| && Sublists.IsSublist(changes, OfFile(i), own)
    ensures AllExist(tokenLists, own) && FileText(tokenLists, changes, i) == Concat(Tokens(tokenLists, own))
  {
    var other := OwnText(tokenLists, changes, i);
    Sublists.IsUnique(changes, OfFile(i), own, other);
  }

  lemma {:induction false} FileTextConcat(tokenLists: seq<seq<string>>, a: seq<Change>, b: seq<Change>, i: nat)
    requires InRange(tokenLists, a) && InRange(tokenLists, b) && InRange(tokenLists, a + b)
    ensures FileText(tokenLists, a + b, i) == FileText(tokenLists, a, i) + FileText(tokenLists, b, i)
  {
    hide FileText, InRange, Exists;
    if b == [] {
      assert a + b == a;
      NoText(tokenLists, i);
    } else {
      var n := |b| - 1;
      assert (a + b)[..|a + b| - 1] == a + b[..n] && (a + b)[|a + b| - 1] == b[n];
      FileTextLast(tokenLists, a + b, i);
      FileTextLast(tokenLists, b, i);
      FileTextConcat(tokenLists, a, b[..n], i);
    }
  }

  lemma NoText(tokenLists: seq<seq<string>>, i: nat)
    ensures InRange(tokenLists, []) && FileText(tokenLists, [], i) == ""
  {
  }

  lemma FileTextLast(tokenLists: seq<seq<string>>, changes: seq<Change>, i: nat)
    requires InRange(tokenLists, changes) && changes != []
    ensures var (before, last) := (changes[..|changes| - 1], changes[|changes| - 1]);
            && InRange(tokenLists, before) && Exists(tokenLists, last)
            && FileText(tokenLists, changes, i) ==
                 FileText(tokenLists, before, i) + if last.0 == i then tokenLists[last.0][last.1] else []
  {
  }

  ghost function FirstOf(i: nat, n: nat): seq<Change> {
    seq(n, j => (i, j))
  }

  lemma {:induction false} OwnTokens(tokenLists: seq<seq<string>>, i: nat, n: nat, f: nat)
    requires i < |tokenLists| && n <= |tokenLists[i]|
    ensures InRange(tokenLists, FirstOf(i, n))
    ensures FileText(tokenLists, FirstOf(i, n), f) == if f == i then Concat(tokenLists[i][..n]) else ""
  {
    if n > 0 {
      OwnTokens(tokenLists, i, n - 1, f);
      assert FirstOf(i, n)[..n - 1] == FirstOf(i, n - 1);
      assert tokenLists[i][..n] == tokenLists[i][..n - 1] + [tokenLists[i][n - 1]];
      ConcatSnoc(tokenLists[i][..n - 1], tokenLists[i][n - 1]);
    }
  }

  lemma {:induction false} AllOfFile(tokenLists: seq<seq<string>>, m: nat, f: nat)
    requires m <= |tokenLists|
    ensures InRange(tokenLists, AllChanges(tokenLists[..m]))
    ensures FileText(tokenLists, AllChanges(tokenLists[..m]), f) == if f < m then Concat(tokenLists[f]) else ""
  {
    hide FileText, InRange, Exists, AllChanges;
    if m == 0 {
      NoText(tokenLists, f);
      NoChanges();
      assert tokenLists[..0] == [];
    } else {
      var i := m - 1;
      AllOfFile(tokenLists, i, f);
      var n := |tokenLists[i]|;
      OwnTokens(tokenLists, i, n, f);
      assert tokenLists[i][..n] == tokenLists[i];
      var a, b := AllChanges(tokenLists[..i]), FirstOf(i, n);
      assert tokenLists[..m] == tokenLists[..i] + [tokenLists[i]];
      NextFile(tokenLists[..i], tokenLists[i]);
      InRangeConcat(tokenLists, a, b);
      FileTextConcat(tokenLists, a, b, f);
    }
  }

  lemma NoChanges()
    ensures AllChanges([]) == []
  {
  }

  lemma NextFile(tokenLists: seq<seq<string>>, tokens: seq<string>)
    ensures AllChanges(tokenLists + [tokens]) == AllChanges(tokenLists) + FirstOf(|tokenLists|, |tokens|)
  {
    assert (tokenLists + [tokens])[..|tokenLists + [tokens]| - 1] == tokenLists;
  }

  lemma InRangeConcat(tokenLists: seq<seq<string>>, a: seq<Change>, b: seq<Change>)
    requires InRange(tokenLists, a) && InRange(tokenLists, b)
    ensures InRange(tokenLists, a + b)
  {
    InRangeMeansAllExist(tokenLists, a);
    InRangeMeansAllExist(tokenLists, b);
    InRangeMeansAllExist(tokenLists, a + b);
  }

  lemma {:induction false} RenderFirstAt(tokenLists: seq<seq<string>>, changes: seq<Change>, n: nat, i: nat)
    requires InRange(tokenLists, changes) && i < n <= |tokenLists|
    ensures RenderFirst(tokenLists, changes, n)[i] == FileText(tokenLists, changes, i)
  {
    if i < n - 1 {
      RenderFirstAt(tokenLists, changes, n - 1, i);
    }
  }

  /** With all changes, every file is the concatenation of all its tokens, from the first to the last. */
  lemma AllIsWhole(tokenLists: seq<seq<string>>)
    ensures InRange(tokenLists, AllChanges(tokenLists))
    ensures Render(tokenLists, AllChanges(tokenLists)) == seq(|tokenLists|, i requires 0 <= i < |tokenLists| => Concat(tokenLists[i]))
  {
    var m := |tokenLists|;
    assert tokenLists[..m] == tokenLists;
    AllOfFile(tokenLists, m, m);
    forall i | 0 <= i < m ensures Render(tokenLists, AllChanges(tokenLists))[i] == Concat(tokenLists[i]) {
      AllOfFile(tokenLists, m, i);
      RenderFirstAt(tokenLists, AllChanges(tokenLists), m, i);
    }
  }

  // ------------------------------------------------------------------------- the number of tests

  /** The tests allowed for the given number of rounds, each over at most n pieces. */
  ghost function Allowance(n: nat, rounds: int): nat
    decreases rounds
  {
    if rounds <= 0 then 0 else 2 * n + Allowance(n, rounds - 1)
  }

  lemma {:induction false} AllowanceMonotone(m: nat, n: nat, k: int, rounds: int)
    requires m <= n && k <= rounds
    ensures Allowance(m, k) <= Allowance(n, rounds)
    decreases rounds
  {
    if rounds > 0 {
      AllowanceMonotone(m, n, k - 1, rounds - 1);
    }
  }

  lemma AllowanceStep(n: nat, rounds: int)
    requires rounds > 0
    ensures Allowance(n, rounds) == 2 * n + Allowance(n, rounds - 1)
  {
  }

  lemma {:induction false} AllowanceIsProduct(n: nat, rounds: nat)
    ensures Allowance(n, rounds) == 2 * n * rounds
  {
    if rounds > 0 {
      AllowanceIsProduct(n, rounds - 1);
    }
  }

  lemma AllowanceIsQuadratic(n: nat, rounds: int)
    requires rounds <= 2 * n
    ensures Allowance(n, rounds) <= 4 * n * n
  {
    AllowanceMonotone(n, n, rounds, 2 * n);
    AllowanceIsProduct(n, 2 * n);
  }

  /** The tests allowed for delta, started on the change list c in the given pieces. */
  ghost function TestBound(c: seq<Change>, sets: seq<seq<Change>>): nat {
    Allowance(|c|, 2 * |c| - |sets|)
  }

  /** A whole run over n changes is allowed at most 4n^2 + 2 tests. */
  lemma TestsAreQuadratic(changes: seq<Change>)
    ensures RunBound(changes) <= 2 + 4 * |changes| * |changes|
  {
    AllowanceIsQuadratic(|changes|, 2 * |changes| - |Split(changes)|);
  }

  /** The tests allowed for a whole run: the two initial ones and those of delta. */
  ghost function RunBound(changes: seq<Change>): nat {
    2 + TestBound(changes, Split(changes))
  }

  lemma RoundAllowance(n: nat, k: nat, more: nat)
    requires 1 <= k <= n
    ensures 2 * k <= Allowance(n, 2 * n - k)
    ensures k < more ==> 2 * k + Allowance(n, 2 * n - more) <= Allowance(n, 2 * n - k)
  {
    AllowanceStep(n, 2 * n - k);
    hide Allowance;
    if k < more {
      AllowanceMonotone(n, n, 2 * n - more, 2 * n - k - 1);
    }
  }

  /** Refining the pieces leaves room for the tests of the current round. */
  lemma RefineBudget(c: seq<Change>, sets: seq<seq<Change>>)
    requires Partition(c, sets) && |sets| >= 1
    ensures 2 * |sets| <= TestBound(c, sets)
    ensures |sets| < |Refine(sets)| ==> 2 * |sets| + TestBound(c, Refine(sets)) <= TestBound(c, sets)
  {
    hide Partition, Refine, Allowance;
    PartitionSize(c, sets);
    RoundAllowance(|c|, |sets|, |Refine(sets)|);
  }

  /** Going on with one piece leaves room for the tests of the current round. */
  lemma SubsetBudget(c: seq<Change>, sets: seq<seq<Change>>, i: nat)
    requires Partition(c, sets) && i < |sets| && |sets| >= 2
    ensures |sets[i]| < |c|
    ensures 2 * |sets[i]| - |Split(sets[i])| < 2 * |c| - |sets|
    ensures 2 * |sets| + TestBound(sets[i], Split(sets[i])) <= TestBound(c, sets)
  {
    PartitionSize(c, sets);
    WithoutIsPartition(c, sets, i);
    PartitionSize(Flatten(Without(sets, i)), Without(sets, i));
    AllowanceStep(|c|, 2 * |c| - |sets|);
    hide Allowance, Partition;
    AllowanceMonotone(|sets[i]|, |c|, 2 * |sets[i]| - |Split(sets[i])|, 2 * |c| - |sets| - 1);
  }

  /** So does going on without one piece. */
  lemma ComplementBudget(c: seq<Change>, sets: seq<seq<Change>>, i: nat)
    requires Partition(c, sets) && i < |sets| && |sets| >= 2
    ensures var rest := Without(sets, i);
            var d := Flatten(rest);
            && |d| < |c|
            && 2 * |d| - |rest| < 2 * |c| - |sets|
            && 2 * |sets| + TestBound(d, rest) <= TestBound(c, sets)
  {
    PartitionSize(c, sets);
    WithoutIsPartition(c, sets, i);
    var d := Flatten(Without(sets, i));
    AllowanceStep(|c|, 2 * |c| - |sets|);
    hide Allowance, Partition;
    AllowanceMonotone(|d|, |c|, 2 * |d| - (|sets| - 1), 2 * |c| - |sets| - 1);
  }

  // ------------------------------------------------------------------------- the delta algorithm

  class TMBDDelta {
    /** The exit status of the test program on the contents of the files it is given. */
    const testProgram: seq<string> -> bool
    const tokenLists: seq<seq<string>>
    var cache: set<set<Change>>
    var numTests: nat
    ghost var numPassed: nat
    var tempFiles: seq<string>
    var targetFiles: seq<string>

    constructor (testProgram: seq<string> -> bool, tokenLists: seq<seq<string>>, files: seq<string>)
      ensures this.testProgram == testProgram && this.tokenLists == tokenLists
      ensures cache == {} && numTests == 0 && numPassed == 0 && targetFiles == files
    {
      this.testProgram := testProgram;
      this.tokenLists := tokenLists;
      cache, numTests, tempFiles, targetFiles := {}, 0, files, files;
      numPassed := 0;
    }

    ghost predicate Passes(changes: seq<Change>) {
      InRange(tokenLists, changes) && testProgram(Render(tokenLists, changes))
    }

    /** No single remaining change can be removed. */
    ghost predicate OneMinimal(changes: seq<Change>) {
      forall k | 0 <= k < |changes| :: !Passes(changes[..k] + changes[k + 1..])
    }

    /** Every cached set stands for a sublist that really fails, and no set has failed in two tests. */
    ghost predicate CacheSound(all: seq<Change>)
      reads this
    {
      (forall s | s in cache :: !Passes(Pick(all, s))) && numTests == |cache| + numPassed
    }

    method GroupByFile(changes: seq<Change>) returns (byFile: seq<seq<nat>>)
      requires InRange(tokenLists, changes)
      ensures |byFile| == |tokenLists| && forall i | 0 <= i < |byFile| :: byFile[i] == TokensOf(i, changes)
    {
      InRangeMeansAllExist(tokenLists, changes);
      byFile := seq(|tokenLists|, _ => []);
      for k := 0 to |changes|
        invariant |byFile| == |tokenLists|
        invariant forall i | 0 <= i < |byFile| :: byFile[i] == TokensOf(i, changes[..k])
      {
        var (i, j) := changes[k];
        assert Exists(tokenLists, changes[k]);
        assert changes[..k + 1][..k] == changes[..k];
        byFile := byFile[i := byFile[i] + [j]];
      }
      assert changes[..|changes|] == changes;
    }

    static method WriteTokens(tokens: seq<string>, js: seq<nat>) returns (text: string)
      requires forall k | 0 <= k < |js| :: js[k] < |tokens|
      ensures text == TokenText(tokens, js)
    {
      text := "";
      for k := 0 to |js|
        invariant text == TokenText(tokens, js[..k])
      {
        assert js[..k + 1][..k] == js[..k];
        text := text + tokens[js[k]];
      }
      assert js[..|js|] == js;
    }

    /** The texts that writeFiles puts into the files for the given changes. */
    method WriteFiles(changes: seq<Change>) returns (files: seq<string>)
      requires InRange(tokenLists, changes)
      ensures files == Render(tokenLists, changes)
    {
      var byFile := GroupByFile(changes);
      files := [];
      for i := 0 to |tokenLists|
        invariant files == RenderFirst(tokenLists, changes, i)
      {
        GroupedText(tokenLists, changes, i);
        var text := WriteTokens(tokenLists[i], byFile[i]);
        files := files + [text];
      }
    }

    /** Runs the test program on the temporary files; a passing set is kept in the target files. */
    method Test(changes: seq<Change>) returns (res: bool)
      requires InRange(tokenLists, changes)
      modifies this`numTests, this`numPassed, this`tempFiles, this`targetFiles
      ensures res == Passes(changes)
      ensures numPassed == if res then old(numPassed) + 1 else old(numPassed)
      ensures numTests == old(numTests) + 1 && tempFiles == Render(tokenLists, changes)
      ensures targetFiles == if res then Render(tokenLists, changes) else old(targetFiles)
    {
      numTests := numTests + 1;
      tempFiles := WriteFiles(changes);
      res := testProgram(tempFiles);
      if res {
        numPassed := numPassed + 1;
        targetFiles := WriteFiles(changes);
      }
    }

    method GetTestResult(changes: seq<Change>, ghost all: seq<Change>) returns (res: bool)
      requires InRange(tokenLists, all) && InOrder(all, changes)
      requires CacheSound(all)
      modifies this`cache, this`numTests, this`numPassed, this`tempFiles, this`targetFiles
      ensures InRange(tokenLists, changes) && res == Passes(changes) && CacheSound(all)
      ensures numTests == if Elements(changes) in old(cache) then old(numTests) else old(numTests) + 1
      ensures cache == if res then old(cache) else old(cache) + {Elements(changes)}
      ensures targetFiles == if res then Render(tokenLists, changes) else old(targetFiles)
    {
      PickMembers(all, Elements(changes));
      InRangeMeansAllExist(tokenLists, all);
      InRangeMeansAllExist(tokenLists, changes);
      var changeset := Elements(changes);
      if changeset in cache {
        return false;
      }
      res := Test(changes);
      if !res {
        cache := cache + {changeset};
      }
    }

    /** What delta and search keep while they work on the change list c. */
    ghost predicate Working(all: seq<Change>, c: seq<Change>, sets: seq<seq<Change>>)
      reads this
    {
      && InRange(tokenLists, all) && Distinct(all) && CacheSound(all) && !Passes([])
      && InOrder(all, c) && (Partition(c, sets) || (c == [] && |sets| == 1)) && (|sets| <= 1 ==> |c| <= 1)
    }

    /** What delta promises about its result r when started on c. */
    ghost predicate Reduced(all: seq<Change>, c: seq<Change>, r: seq<Change>)
      reads this
    {
      && CacheSound(all) && InOrder(all, r) && OneMinimal(r)
      && (r == c || (|r| < |c| && Passes(r) && targetFiles == Render(tokenLists, r)))
    }

    // -------------------------------------------------------------- the algorithm without its cache

    ghost predicate StepPasses(sets: seq<seq<Change>>, i: nat) {
      i < |sets| && (Passes(sets[i]) || (|sets| > 2 && !Needed(sets, i)))
    }

    /** Piece i is the first one that passes alone or, if there are more than two, can be left out. */
    ghost predicate IsFirstStep(sets: seq<seq<Change>>, i: nat) {
      StepPasses(sets, i) && forall j: nat | j < i :: !StepPasses(sets, j)
    }

    ghost predicate AnyStep(sets: seq<seq<Change>>) {
      exists i :: IsFirstStep(sets, i)
    }

    lemma PieceShrinks(c: seq<Change>, sets: seq<seq<Change>>, i: nat)
      requires Partition(c, sets) && i < |sets| && |sets| >= 2
      ensures 2 * |sets[i]| - |Split(sets[i])| < 2 * |c| - |sets|
      ensures Partition(sets[i], Split(sets[i]))
      ensures Partition(Flatten(Without(sets, i)), Without(sets, i))
      ensures 2 * |Flatten(Without(sets, i))| - |Without(sets, i)| < 2 * |c| - |sets|
    {
      SubsetBudget(c, sets, i);
      ComplementBudget(c, sets, i);
      WithoutIsPartition(c, sets, i);
      SplitIsPartition(sets[i]);
    }

    lemma RefinedShrinks(c: seq<Change>, sets: seq<seq<Change>>)
      requires Partition(c, sets)
      ensures Partition(c, Refine(sets)) && |Refine(sets)| >= |sets| && |Refine(sets)| <= |c|
    {
      RefineIsPartition(c, sets);
      PartitionSize(c, Refine(sets));
    }

    /** What delta goes on with after a step at piece i. */
    ghost function AfterStep(c: seq<Change>, sets: seq<seq<Change>>, i: nat): seq<Change>
      requires Partition(c, sets) && |sets| >= 2 && i < |sets|
      decreases 2 * |c| - |sets|, 0
    {
      PieceShrinks(c, sets, i);
      if Passes(sets[i]) then DeltaOf(sets[i], Split(sets[i])) else DeltaOf(Flatten(Without(sets, i)), Without(sets, i))
    }

    /** The result of delta: a function of the test only. */
    ghost function DeltaOf(c: seq<Change>, sets: seq<seq<Change>>): seq<Change>
      requires Partition(c, sets) || |sets| <= 1
      decreases 2 * |c| - |sets|, 1
    {
      if |sets| <= 1 then c
      else if AnyStep(sets) then
        var i: nat :| IsFirstStep(sets, i);
        AfterStep(c, sets, i)
      else
        RefinedShrinks(c, sets);
        if |Refine(sets)| == |sets| then c else DeltaOf(c, Refine(sets))
    }

    lemma FirstStepIs(c: seq<Change>, sets: seq<seq<Change>>, i: nat)
      requires Partition(c, sets) && |sets| >= 2 && IsFirstStep(sets, i)
      ensures AnyStep(sets) && DeltaOf(c, sets) == AfterStep(c, sets, i)
    {
      hide StepPasses, AfterStep;
      forall i': nat | IsFirstStep(sets, i') ensures i' == i {
      }
    }

    lemma StepIs(sets: seq<seq<Change>>, i: nat)
      requires i < |sets|
      ensures StepPasses(sets, i) <==> Passes(sets[i]) || (|sets| > 2 && !Needed(sets, i))
    {
    }

    lemma NoStep(sets: seq<seq<Change>>)
      requires |sets| >= 2 && forall j: nat | j < |sets| :: !StepPasses(sets, j)
      ensures !AnyStep(sets) && forall i | 0 <= i < |sets| :: Needed(sets, i)
    {
      if |sets| == 2 {
        TwoPieces(sets);
      }
      forall i | 0 <= i < |sets| ensures Needed(sets, i) {
        assert !StepPasses(sets, i) && !StepPasses(sets, if i == 0 then 1 else 0);
      }
    }

    /** The result of a whole run on these changes. */
    ghost function Minimised(changes: seq<Change>): seq<Change> {
      if Passes([]) then []
      else
        StartIsPartition(changes);
        DeltaOf(changes, Split(changes))
    }

    lemma StartIsPartition(changes: seq<Change>)
      ensures Partition(changes, Split(changes)) || |Split(changes)| <= 1
    {
      if changes != [] {
        SplitIsPartition(changes);
      }
    }

    method Delta(c: seq<Change>, sets: seq<seq<Change>>, ghost all: seq<Change>) returns (r: seq<Change>)
      requires Working(all, c, sets)
      modifies this`cache, this`numTests, this`numPassed, this`tempFiles, this`targetFiles
      ensures Reduced(all, c, r) && r == DeltaOf(c, sets)
      ensures r == c ==> targetFiles == old(targetFiles)
      ensures numTests <= old(numTests) + TestBound(c, sets)
      decreases 2 * |c| - |sets|, 2
    {
      if |sets| <= 1 {
        assert |c| == 1 ==> c[..0] + c[1..] == [];
        return c;
      }
      PartitionSize(c, sets);
      var res := Search(c, sets, all);
      if res.Some? {
        return res.value;
      }
      var refined := Refine(sets);
      RefineIsPartition(c, sets);
      PartitionSize(c, refined);
      RefineBudget(c, sets);
      if |refined| == |sets| {
        forall k | 0 <= k < |c| ensures !Passes(c[..k] + c[k + 1..]) {
          SingletonWithout(c, sets, k);
          assert Needed(sets, k);
        }
        return c;
      }
      r := Delta(c, refined, all);
    }

    /** The test fails without piece i. */
    ghost predicate Needed(sets: seq<seq<Change>>, i: nat)
      requires i < |sets|
    {
      !Passes(Flatten(Without(sets, i)))
    }

    method Search(c: seq<Change>, sets: seq<seq<Change>>, ghost all: seq<Change>) returns (r: Option<seq<Change>>)
      requires Working(all, c, sets) && |sets| >= 2
      modifies this`cache, this`numTests, this`numPassed, this`tempFiles, this`targetFiles
      ensures r.Some? <==> AnyStep(sets)
      ensures r.Some? ==> Reduced(all, c, r.value) && r.value != c && r.value == DeltaOf(c, sets)
      ensures r.Some? ==> numTests <= old(numTests) + TestBound(c, sets)
      ensures r.None? ==> CacheSound(all) && (forall i | 0 <= i < |sets| :: Needed(sets, i))
      ensures r.None? ==> targetFiles == old(targetFiles) && numTests <= old(numTests) + 2 * |sets|
      decreases 2 * |c| - |sets|, 1
    {
      hide Reduced, Passes, StepPasses, AnyStep, CacheSound, Partition, Distinct, InOrder, InRange;
      for i := 0 to |sets|
        invariant CacheSound(all) && targetFiles == old(targetFiles)
        invariant numTests <= old(numTests) + 2 * i
        invariant forall j: nat | j < i :: !StepPasses(sets, j)
      {
        StepIs(sets, i);
        r := TryPiece(c, sets, i, all);
        if r.Some? {
          FirstStepIs(c, sets, i);
          return;
        }
        if |sets| > 2 {
          r := TryComplement(c, sets, i, all);
          if r.Some? {
            FirstStepIs(c, sets, i);
            return;
          }
        }
      }
      NoStep(sets);
      return None;
    }

    /** The first half of a search step: if piece i passes alone, go on with it. */
    method TryPiece(c: seq<Change>, sets: seq<seq<Change>>, i: nat, ghost all: seq<Change>)
      returns (r: Option<seq<Change>>)
      requires Working(all, c, sets) && |sets| >= 2 && i < |sets|
      modifies this`cache, this`numTests, this`numPassed, this`tempFiles, this`targetFiles
      ensures r.Some? ==> Passes(sets[i]) && Reduced(all, c, r.value) && r.value != c && r.value == AfterStep(c, sets, i)
      ensures r.Some? ==> numTests + 2 * |sets| <= old(numTests) + 1 + TestBound(c, sets)
      ensures r.None? ==> CacheSound(all) && !Passes(sets[i])
      ensures r.None? ==> targetFiles == old(targetFiles) && numTests <= old(numTests) + 1
      decreases 2 * |c| - |sets|, 0
    {
      PiecesInOrder(all, c, sets, i);
      var res := GetTestResult(sets[i], all);
      if !res {
        return None;
      }
      SplitIsPartition(sets[i]);
      SubsetBudget(c, sets, i);
      var d := Delta(sets[i], Split(sets[i]), all);
      return Some(d);
    }

    /** The second half of a search step: if the other pieces pass together, go on with them. */
    method TryComplement(c: seq<Change>, sets: seq<seq<Change>>, i: nat, ghost all: seq<Change>)
      returns (r: Option<seq<Change>>)
      requires Working(all, c, sets) && |sets| > 2 && i < |sets| && !Passes(sets[i])
      modifies this`cache, this`numTests, this`numPassed, this`tempFiles, this`targetFiles
      ensures r.Some? ==> !Needed(sets, i) && Reduced(all, c, r.value) && r.value != c && r.value == AfterStep(c, sets, i)
      ensures r.Some? ==> numTests + 2 * |sets| <= old(numTests) + 1 + TestBound(c, sets)
      ensures r.None? ==> CacheSound(all) && Needed(sets, i)
      ensures r.None? ==> targetFiles == old(targetFiles) && numTests <= old(numTests) + 1
      decreases 2 * |c| - |sets|, 0
    {
      PiecesInOrder(all, c, sets, i);
      var complement := Flatten(Without(sets, i));
      var res := GetTestResult(complement, all);
      if !res {
        return None;
      }
      WithoutIsPartition(c, sets, i);
      ComplementBudget(c, sets, i);
      var d := Delta(complement, Without(sets, i), all);
      return Some(d);
    }

    lemma NothingIsMinimal(changes: seq<Change>)
      requires changes == []
      ensures OneMinimal(changes)
    {
    }

    /**
      Reduces the change list; without `force` it must pass to begin with. The result passes (with
      `force`, it may also be the unreduced list), no single change of it can be removed, the target
      files hold exactly the result, and at most quadratically many tests are run.
     */
    method RunDelta(changes: seq<Change>, force: bool) returns (r: Result<seq<Change>, string>)
      requires InRange(tokenLists, changes) && Distinct(changes) && CacheSound(changes)
      modifies this`cache, this`numTests, this`numPassed, this`tempFiles, this`targetFiles
      ensures r.Err? <==> !force && !Passes(changes)
      ensures r.Ok? ==> InOrder(changes, r.value) && OneMinimal(r.value)
      ensures r.Ok? ==> r.value == Minimised(changes)
      ensures r.Ok? && (!force || r.value != changes) ==> Passes(r.value) && targetFiles == Render(tokenLists, r.value)
      ensures numTests <= old(numTests) + RunBound(changes) && CacheSound(changes)
    {
      WholeAndEmptyInOrder(changes);
      if !force {
        var res := GetTestResult(changes, changes);
        if !res {
          return Err("Initial test passed to delta fails.");
        }
      }
      var nothing: seq<Change> := [];
      var empty := GetTestResult(nothing, changes);
      if empty {
        NothingIsMinimal(nothing);
        return Ok(nothing);
      }
      if changes != [] {
        SplitIsPartition(changes);
      }
      var d := Delta(changes, Split(changes), changes);
      return Ok(d);
    }

    /** The whole reduction, from all tokens of all files. */
    method Run() returns (r: Result<seq<Change>, string>)
      requires cache == {} && numTests == 0 && numPassed == 0
      modifies this`cache, this`numTests, this`numPassed, this`tempFiles, this`targetFiles
      ensures r.Err? <==> !testProgram(seq(|tokenLists|, i requires 0 <= i < |tokenLists| => Concat(tokenLists[i])))
      ensures r.Err? <==> !Passes(AllChanges(tokenLists))
      ensures r.Ok? ==> r.value == Minimised(AllChanges(tokenLists))
      ensures r.Ok? ==> InOrder(AllChanges(tokenLists), r.value)
      ensures r.Ok? ==> Passes(r.value) && OneMinimal(r.value) && targetFiles == Render(tokenLists, r.value)
      ensures numTests <= RunBound(AllChanges(tokenLists)) && numTests == |cache| + numPassed
    {
      AllChangesValid(tokenLists);
      AllIsWhole(tokenLists);
      r := RunDelta(AllChanges(tokenLists), false);
      if r.Ok? {
        targetFiles := WriteFiles(r.value);
      }
    }
  }

}
