/**
  Model of the pruning in llvm/utils/update_mca_test_checks.py: choosing the check prefixes for the
  texts found at one block number.
 */
module McaPrefixes {
  import opened Wrappers
  import opened Lexicographic

  type Prefix = string
  type Text = seq<string>      // the lines of a block

  /** A text with the prefix sets of the run lines that produced it. */
  datatype Entry = Entry(text: Text, sets: seq<set<Prefix>>)

  /** A text with the prefixes chosen for it. */
  datatype Assigned = Assigned(text: Text, prefixes: seq<Prefix>)

  // ---------------------------------------------------------------------------------- pruning

  function Union(sets: seq<set<Prefix>>): set<Prefix> {
    if sets == [] then {} else Union(sets[..|sets| - 1]) + sets[|sets| - 1]
  }

  lemma {:induction false} UnionMember(sets: seq<set<Prefix>>, p: Prefix)
    ensures p in Union(sets) <==> exists k :: 0 <= k < |sets| && p in sets[k]
  {
    if sets != [] {
      UnionMember(sets[..|sets| - 1], p);
    }
  }

  /** The prefixes of all texts among the first n but text i. */
  function OthersAmong(infos: seq<Entry>, i: nat, n: nat): set<Prefix>
    requires n <= |infos|
  {
    if n == 0 then {}
    else OthersAmong(infos, i, n - 1) + if n - 1 != i then Union(infos[n - 1].sets) else {}
  }

  function Others(infos: seq<Entry>, i: nat): set<Prefix> {
    OthersAmong(infos, i, |infos|)
  }

  lemma {:induction false} OthersMember(infos: seq<Entry>, i: nat, n: nat, p: Prefix)
    requires n <= |infos|
    ensures p in OthersAmong(infos, i, n) <==> exists j :: 0 <= j < n && j != i && p in Union(infos[j].sets)
  {
    if n > 0 {
      OthersMember(infos, i, n - 1, p);
    }
  }

  function Minus(sets: seq<set<Prefix>>, others: set<Prefix>): (r: seq<set<Prefix>>)
    ensures |r| == |sets| && forall k | 0 <= k < |sets| :: r[k] == sets[k] - others
  {
    seq(|sets|, k requires 0 <= k < |sets| => sets[k] - others)
  }

  function Intersection(sets: seq<set<Prefix>>): set<Prefix>
    requires sets != []
  {
    if |sets| == 1 then sets[0] else Intersection(sets[..|sets| - 1]) * sets[|sets| - 1]
  }

  lemma {:induction false} IntersectionMember(sets: seq<set<Prefix>>, p: Prefix)
    requires sets != []
    ensures p in Intersection(sets) <==> forall k | 0 <= k < |sets| :: p in sets[k]
  {
    if |sets| > 1 {
      IntersectionMember(sets[..|sets| - 1], p);
    }
  }

  /** Prefix p belongs to a run line of text i, and to no run line of any other text. */
  ghost predicate Owned(infos: seq<Entry>, i: nat, p: Prefix)
    requires i < |infos|
  {
    p in Union(infos[i].sets) && forall j | 0 <= j < |infos| && j != i :: p !in Union(infos[j].sets)
  }

  /** The run line with this prefix set has a prefix that no other text uses. */
  ghost predicate CanBeTold(infos: seq<Entry>, i: nat, s: set<Prefix>)
    requires i < |infos|
  {
    exists p :: p in s && p !in Others(infos, i)
  }

  ghost predicate Covered(prefixes: seq<Prefix>, s: set<Prefix>) {
    exists p :: p in prefixes && p in s
  }

  /** The prefix sets of text i, without the prefixes of other texts. */
  ghost function Pruned(infos: seq<Entry>, i: nat): seq<set<Prefix>>
    requires i < |infos|
  {
    Minus(infos[i].sets, Others(infos, i))
  }

  /** What they have in common replaces them, if there is anything. */
  ghost function Groups(infos: seq<Entry>, i: nat): seq<set<Prefix>>
    requires i < |infos| && infos[i].sets != []
  {
    if Intersection(Pruned(infos, i)) != {} then [Intersection(Pruned(infos, i))] else Pruned(infos, i)
  }

  /** The prefix is the first one in order of some group. */
  ghost predicate IsFirst(groups: seq<set<Prefix>>, p: Prefix) {
    exists k :: 0 <= k < |groups| && IsLeast(p, groups[k])
  }

  /** Exactly the prefixes that text i is written under, and what they are good for. */
  ghost predicate WellChosen(infos: seq<Entry>, i: nat, prefixes: seq<Prefix>)
    requires i < |infos| && infos[i].sets != []
  {
    && Ascending(prefixes)
    && (forall p :: p in prefixes <==> IsFirst(Groups(infos, i), p))
    && (forall p | p in prefixes :: Owned(infos, i, p))
    && (forall k | 0 <= k < |infos[i].sets| ::
          Covered(prefixes, infos[i].sets[k]) <==> CanBeTold(infos, i, infos[i].sets[k]))
  }

  /** One prefix for each of the sets, the first in order. */
  method PickFirst(sets: seq<set<Prefix>>) returns (current: set<Prefix>)
    ensures forall p :: p in current <==> IsFirst(sets, p)
  {
    current := {};
    for k := 0 to |sets|
      invariant forall p :: p in current <==> exists j :: 0 <= j < k && IsLeast(p, sets[j])
    {
      var s := Sorted(sets[k]);
      FirstIsLeast(s, sets[k]);
      ghost var before := current;
      if |s| > 0 {
        current := current + {s[0]};
      }
      forall p ensures p in current <==> exists j :: 0 <= j < k + 1 && IsLeast(p, sets[j]) {
        if IsLeast(p, sets[k]) {
          LeastIsUnique(p, s[0], sets[k]);
        }
      }
    }
  }

  /** The prefixes for one text, given those of the other texts; empty if no run line can be told. */
  method ChoosePrefixes(infos: seq<Entry>, i: nat) returns (prefixes: seq<Prefix>)
    requires i < |infos| && infos[i].sets != []
    ensures WellChosen(infos, i, prefixes)
  {
    var pruned := Minus(infos[i].sets, Others(infos, i));
    var sets := pruned;
    var common := Intersection(pruned);
    if common != {} {
      sets := [common];
    }
    var current := PickFirst(sets);
    prefixes := Sorted(current);
    assert forall p :: p in prefixes <==> p in current;
    ChoiceIsGood(infos, i, prefixes);
  }

  lemma ChoiceIsGood(infos: seq<Entry>, i: nat, prefixes: seq<Prefix>)
    requires i < |infos| && infos[i].sets != [] && Ascending(prefixes)
    requires forall p :: p in prefixes <==> IsFirst(Groups(infos, i), p)
    ensures WellChosen(infos, i, prefixes)
  {
    var groups, pruned := Groups(infos, i), Pruned(infos, i);
    forall p | p in prefixes ensures Owned(infos, i, p) {
      var k :| 0 <= k < |groups| && IsLeast(p, groups[k]);
      GroupIsPruned(infos, i, k, p);
    }
    forall k | 0 <= k < |infos[i].sets|
      ensures Covered(prefixes, infos[i].sets[k]) <==> CanBeTold(infos, i, infos[i].sets[k])
    {
      if p :| p in prefixes && p in infos[i].sets[k] {
        assert Owned(infos, i, p);
        OthersMember(infos, i, |infos|, p);
      }
      if told :| told in infos[i].sets[k] && told !in Others(infos, i) {
        var p := FirstOfGroup(infos, i, k, told);
        assert p in prefixes && p in infos[i].sets[k];
      }
    }
  }

  lemma GroupIsPruned(infos: seq<Entry>, i: nat, k: nat, p: Prefix)
    requires i < |infos| && infos[i].sets != [] && k < |Groups(infos, i)| && p in Groups(infos, i)[k]
    ensures Owned(infos, i, p)
  {
    IntersectionMember(Pruned(infos, i), p);
    assert p in Pruned(infos, i)[if Intersection(Pruned(infos, i)) != {} then 0 else k];
    PrunedIsOwned(infos, i, if Intersection(Pruned(infos, i)) != {} then 0 else k, p);
  }

  /** If a run line has a prefix of its own text only, then a chosen one is among its prefixes. */
  lemma FirstOfGroup(infos: seq<Entry>, i: nat, k: nat, told: Prefix) returns (p: Prefix)
    requires i < |infos| && infos[i].sets != [] && k < |infos[i].sets| && told in Pruned(infos, i)[k]
    ensures p in Pruned(infos, i)[k] && IsFirst(Groups(infos, i), p)
  {
    var common := Intersection(Pruned(infos, i));
    if common != {} {
      p := LeastExists(common);
      IntersectionMember(Pruned(infos, i), p);
      assert IsLeast(p, Groups(infos, i)[0]);
    } else {
      p := LeastExists(Pruned(infos, i)[k]);
      assert IsLeast(p, Groups(infos, i)[k]);
    }
  }

  lemma PrunedIsOwned(infos: seq<Entry>, i: nat, k: nat, p: Prefix)
    requires i < |infos| && k < |infos[i].sets| && p in infos[i].sets[k] - Others(infos, i)
    ensures Owned(infos, i, p)
  {
    UnionMember(infos[i].sets, p);
    OthersMember(infos, i, |infos|, p);
  }

  ghost predicate SomeCanBeTold(infos: seq<Entry>, i: nat)
    requires i < |infos|
  {
    exists k :: 0 <= k < |infos[i].sets| && CanBeTold(infos, i, infos[i].sets[k])
  }

  /** The pruning of one block number; an error if a text is not captured by any prefix. */
  method PruneBlock(infos: seq<Entry>) returns (r: Result<seq<Assigned>, string>)
    requires forall i | 0 <= i < |infos| :: infos[i].sets != []
    ensures r.Ok? <==> forall i | 0 <= i < |infos| && infos[i].text != [] :: SomeCanBeTold(infos, i)
    ensures r.Ok? ==> |r.value| == |infos|
    ensures r.Ok? ==> forall i | 0 <= i < |infos| ::
                        r.value[i].text == infos[i].text && WellChosen(infos, i, r.value[i].prefixes)
  {
    hide WellChosen, SomeCanBeTold;
    var result: seq<Assigned> := [];
    for i := 0 to |infos|
      invariant |result| == i
      invariant forall j | 0 <= j < i ::
                  result[j].text == infos[j].text && WellChosen(infos, j, result[j].prefixes)
      invariant forall j | 0 <= j < i && infos[j].text != [] :: SomeCanBeTold(infos, j)
    {
      var prefixes := ChoosePrefixes(infos, i);
      NonEmptyIffToldApart(infos, i, prefixes);
      if infos[i].text != [] && prefixes == [] {
        return Err("block not captured by existing prefixes");
      }
      result := result + [Assigned(infos[i].text, prefixes)];
    }
    return Ok(result);
  }

  lemma NonEmptyIffToldApart(infos: seq<Entry>, i: nat, prefixes: seq<Prefix>)
    requires i < |infos| && infos[i].sets != [] && WellChosen(infos, i, prefixes)
    ensures prefixes != [] <==> SomeCanBeTold(infos, i)
  {
    if prefixes != [] {
      assert Owned(infos, i, prefixes[0]);
      UnionMember(infos[i].sets, prefixes[0]);
      var k :| 0 <= k < |infos[i].sets| && prefixes[0] in infos[i].sets[k];
      assert Covered(prefixes, infos[i].sets[k]);
      assert CanBeTold(infos, i, infos[i].sets[k]);
    }
    if SomeCanBeTold(infos, i) {
      var k :| 0 <= k < |infos[i].sets| && CanBeTold(infos, i, infos[i].sets[k]);
      assert Covered(prefixes, infos[i].sets[k]);
    }
  }

  // -------------------------------------------------------------- run lines with exactly one prefix

  /** A prefix of all run lines of text i that no other text uses. */
  ghost predicate SharedByAll(infos: seq<Entry>, i: nat, p: Prefix)
    requires i < |infos|
  {
    p !in Others(infos, i) && forall k | 0 <= k < |infos[i].sets| :: p in infos[i].sets[k]
  }

  /** The run line has exactly one of the prefixes. */
  ghost predicate ExactlyOne(prefixes: seq<Prefix>, s: set<Prefix>) {
    exists p :: p in prefixes && p in s && forall q | q in prefixes && q in s :: q == p
  }

  /** Any first prefix in s is that of group k. */
  ghost predicate OnlyFirst(groups: seq<set<Prefix>>, s: set<Prefix>, k: nat)
    requires k < |groups|
  {
    forall j, p | 0 <= j < |groups| && IsLeast(p, groups[j]) && p in s :: IsLeast(p, groups[k])
  }

  /**
    The condition on the prefixes of the run lines under which run line k of text i has exactly one
    of the chosen prefixes: the run lines of the text share a prefix of their own, or else this one
    has one, and the first of them is the only first prefix of any run line among its prefixes.
   */
  ghost predicate HasOnePrefix(infos: seq<Entry>, i: nat, k: nat)
    requires i < |infos| && k < |infos[i].sets|
  {
    var pruned := Pruned(infos, i);
    Intersection(pruned) != {} ||
    (pruned[k] != {} && OnlyFirst(pruned, infos[i].sets[k], k))
  }

  lemma OneIfShared(infos: seq<Entry>, i: nat, k: nat, prefixes: seq<Prefix>)
    requires i < |infos| && k < |infos[i].sets| && WellChosen(infos, i, prefixes)
    requires Intersection(Pruned(infos, i)) != {}
    ensures ExactlyOne(prefixes, infos[i].sets[k])
  {
    var common := Intersection(Pruned(infos, i));
    assert Groups(infos, i) == [common];
    var p := LeastExists(common);
    IntersectionMember(Pruned(infos, i), p);
    assert p in Pruned(infos, i)[k];
    assert IsLeast(p, Groups(infos, i)[0]);
    forall q | q in prefixes ensures q == p {
      LeastIsUnique(p, q, common);
    }
  }

  lemma ExactlyThis(prefixes: seq<Prefix>, s: set<Prefix>, p: Prefix)
    requires p in prefixes && p in s
    ensures ExactlyOne(prefixes, s) <==> forall q | q in prefixes && q in s :: q == p
  {
  }

  lemma OneOfFirsts(groups: seq<set<Prefix>>, s: set<Prefix>, k: nat, prefixes: seq<Prefix>, p: Prefix)
    requires k < |groups| && IsLeast(p, groups[k]) && p in s
    requires forall q :: q in prefixes <==> IsFirst(groups, q)
    ensures ExactlyOne(prefixes, s) <==> OnlyFirst(groups, s, k)
  {
    hide IsLeast, ExactlyOne;
    assert IsFirst(groups, p);
    ExactlyThis(prefixes, s, p);
    if OnlyFirst(groups, s, k) {
      forall q | q in prefixes && q in s ensures q == p {
        assert IsFirst(groups, q);
        var j :| 0 <= j < |groups| && IsLeast(q, groups[j]);
        LeastIsUnique(p, q, groups[k]);
      }
    }
    if ExactlyOne(prefixes, s) {
      forall j, q | 0 <= j < |groups| && IsLeast(q, groups[j]) && q in s ensures IsLeast(q, groups[k]) {
        assert IsFirst(groups, q);
        assert q in prefixes;
      }
    }
  }

  lemma OnePrefixDecided(infos: seq<Entry>, i: nat, k: nat, prefixes: seq<Prefix>)
    requires i < |infos| && k < |infos[i].sets| && WellChosen(infos, i, prefixes)
    ensures ExactlyOne(prefixes, infos[i].sets[k]) <==> HasOnePrefix(infos, i, k)
  {
    var pruned, s := Pruned(infos, i), infos[i].sets[k];
    if Intersection(pruned) != {} {
      OneIfShared(infos, i, k, prefixes);
    } else if pruned[k] != {} {
      var p := LeastExists(pruned[k]);
      assert Groups(infos, i) == pruned;
      hide OnlyFirst, ExactlyOne, IsFirst;
      OneOfFirsts(pruned, s, k, prefixes, p);
    } else {
      assert forall p | p in s :: p in Others(infos, i) || p in pruned[k];
      assert !Covered(prefixes, s);
    }
  }

  /** If all run lines of a text share a prefix of their own, each of them has exactly one. */
  lemma SharedPrefixSuffices(infos: seq<Entry>, i: nat, k: nat, p: Prefix)
    requires i < |infos| && k < |infos[i].sets| && SharedByAll(infos, i, p)
    ensures HasOnePrefix(infos, i, k)
  {
    IntersectionMember(Pruned(infos, i), p);
  }
}
