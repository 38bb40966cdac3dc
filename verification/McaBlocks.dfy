/**
  Model of what llvm/utils/update_mca_test_checks.py finally writes for one block number, and of
  what each run line finds there: the texts in full, one per prefix, or their break-down.
 */
module McaBlocks {
  import opened Wrappers
  import opened Lexicographic
  import opened McaPrefixes
  import opened McaBreakDown

  // ---------------------------------------------------------------------- texts written in full

  function Tagged(p: Prefix, text: Text): (r: seq<Check>)
    ensures AllTagged(r, p)
  {
    if |text| == 0 then [] else Tagged(p, text[..|text| - 1]) + [Check(p, text[|text| - 1])]
  }

  lemma {:induction false} TaggedShows(p: Prefix, text: Text)
    ensures Shown(Tagged(p, text), {p}) == text
  {
    if |text| > 0 {
      TaggedShows(p, text[..|text| - 1]);
      AddedLine(Tagged(p, text[..|text| - 1]), p, text[|text| - 1]);
    }
  }

  /** The blocks for the prefixes of one text; none of them has been written before. */
  method AddBlocks(blocks: Batch, info: Assigned) returns (b: Batch)
    requires WellTagged(blocks) && Ascending(info.prefixes)
    requires forall p | p in info.prefixes :: p !in blocks
    ensures WellTagged(b) && b.Keys == blocks.Keys + set p | p in info.prefixes
    ensures forall p | p in blocks :: b[p] == blocks[p]
    ensures forall p | p in info.prefixes :: b[p] == Tagged(p, info.text)
  {
    b := blocks;
    for k := 0 to |info.prefixes|
      invariant WellTagged(b) && b.Keys == blocks.Keys + set p | p in info.prefixes[..k]
      invariant forall p | p in blocks :: b[p] == blocks[p]
      invariant forall p | p in info.prefixes[..k] :: b[p] == Tagged(p, info.text)
    {
      AscendingIsNew(info.prefixes, k);
      assert info.prefixes[..k + 1] == info.prefixes[..k] + [info.prefixes[k]];
      assert info.prefixes[k] !in b;
      b := b[info.prefixes[k] := Tagged(info.prefixes[k], info.text)];
    }
    assert info.prefixes[..|info.prefixes|] == info.prefixes;
  }

  ghost predicate WrittenFrom(infos: seq<Assigned>, m: nat, blocks: Batch) {
    && (forall p | p in blocks :: exists i :: i < m && IsOwn(infos, i, p))
    && (forall i, p | i < m && IsOwn(infos, i, p) :: Pending(blocks, p) == Tagged(p, infos[i].text))
  }

  lemma NotYetWritten(infos: seq<Assigned>, m: nat, blocks: Batch)
    requires Disjoint(infos) && m < |infos| && WrittenFrom(infos, m, blocks)
    ensures forall p | p in infos[m].prefixes :: p !in blocks
  {
    forall p | p in blocks ensures p !in infos[m].prefixes {
      var i :| i < m && IsOwn(infos, i, p);
    }
  }

  /** Every text once for each of its prefixes, in the order of the prefixes. */
  method WriteWhole(infos: seq<Assigned>) returns (checks: seq<Check>)
    requires Disjoint(infos) && EachOnce(infos)
    ensures Delivers(infos, checks, {}) && Repeats(infos, checks) && Climbs(checks)
  {
    var blocks: Batch := map[];
    for m := 0 to |infos|
      invariant WellTagged(blocks) && WrittenFrom(infos, m, blocks)
    {
      ghost var before := blocks;
      NotYetWritten(infos, m, before);
      if |infos[m].text| > 0 {
        blocks := AddBlocks(blocks, infos[m]);
      }
      OneMoreWritten(infos, m, before, blocks);
    }
    checks := Flush([], blocks);
    ghost var flushed :| checks == [] + flushed && IsFlushed(flushed, blocks) && IsEmptied(flushed, blocks);
    assert checks == flushed;
    IsEmptiedClimbs(checks, blocks);
    WholeDelivers(infos, checks, blocks);
    WholeRepeats(infos, checks, blocks);
  }

  lemma OneMoreWritten(infos: seq<Assigned>, m: nat, before: Batch, blocks: Batch)
    requires m < |infos| && Disjoint(infos) && WrittenFrom(infos, m, before)
    requires forall p | p in infos[m].prefixes :: p !in before
    requires forall p | p in before :: p in blocks && blocks[p] == before[p]
    requires infos[m].text == [] ==> blocks == before
    requires infos[m].text != [] ==>
               blocks.Keys == before.Keys + (set p | p in infos[m].prefixes) &&
               forall p | p in infos[m].prefixes :: blocks[p] == Tagged(p, infos[m].text)
    ensures WrittenFrom(infos, m + 1, blocks)
  {
    forall p | p in blocks ensures exists i :: i < m + 1 && IsOwn(infos, i, p) {
      if p in before {
        var i :| i < m && IsOwn(infos, i, p);
      } else {
        assert IsOwn(infos, m, p);
      }
    }
    forall i, p | i < m + 1 && IsOwn(infos, i, p) ensures Pending(blocks, p) == Tagged(p, infos[i].text) {
      if i < m {
        assert Pending(before, p) == Tagged(p, infos[i].text);
        assert p !in infos[m].prefixes;
      }
    }
  }

  lemma WholeDelivers(infos: seq<Assigned>, checks: seq<Check>, blocks: Batch)
    requires IsFlushed(checks, blocks) && WrittenFrom(infos, |infos|, blocks)
    ensures Delivers(infos, checks, {})
  {
    forall i, p | IsOwn(infos, i, p) ensures Shown(checks, {} + {p}) == infos[i].text {
      TaggedShows(p, infos[i].text);
      assert {} + {p} == {p};
    }
    forall p | p in blocks ensures p in AllPrefixes(infos) {
      var i :| IsOwn(infos, i, p);
    }
    NothingShown(checks);
  }

  ghost function Repeat(text: Text, n: nat): Text {
    if n == 0 then [] else Repeat(text, n - 1) + text
  }

  lemma {:induction false} RepeatNothing(n: nat)
    ensures Repeat([], n) == []
  {
    if n > 0 {
      RepeatNothing(n - 1);
    }
  }

  ghost function Both(prefixes: seq<Prefix>, s: set<Prefix>): set<Prefix> {
    set p | p in prefixes && p in s
  }

  /** What is seen through several prefixes of one text is that text, once for each of them. */
  ghost predicate Repeats(infos: seq<Assigned>, checks: seq<Check>) {
    forall i, s: set<Prefix> | 0 <= i < |infos| && OnlyOf(infos, i, s) ::
      Shown(checks, s) == Repeat(infos[i].text, |Both(infos[i].prefixes, s)|)
  }

  /** No prefix in s is one of another text. */
  ghost predicate OnlyOf(infos: seq<Assigned>, i: nat, s: set<Prefix>)
    requires i < |infos|
  {
    forall j, p | IsOwn(infos, j, p) && p in s :: p in infos[i].prefixes
  }

  lemma BatchRepeats(checks: seq<Check>, batch: seq<Check>, q: Prefix, tags: set<Prefix>, text: Text, n: nat)
    requires AllTagged(batch, q) && (q in tags ==> Shown(batch, {q}) == text) && Shown(checks, tags) == Repeat(text, n)
    ensures Shown(checks + batch, tags) == Repeat(text, if q in tags then n + 1 else n)
  {
    ShownAppend(checks, batch, tags);
    TaggedShown(batch, q, tags);
  }

  lemma BothLast(keys: seq<Prefix>, tags: set<Prefix>)
    requires |keys| > 0 && Ascending(keys)
    ensures var (front, last) := (keys[..|keys| - 1], keys[|keys| - 1]);
            |Both(keys, tags)| == if last in tags then |Both(front, tags)| + 1 else |Both(front, tags)|
  {
    var front, last := keys[..|keys| - 1], keys[|keys| - 1];
    FrontKeys(keys, last);
    assert keys == front + [last];
    assert Both(keys, tags) == Both(front, tags) + if last in tags then {last} else {};
  }

  lemma {:induction false} EmptiedRepeats(batch: Batch, keys: seq<Prefix>, tags: set<Prefix>, text: Text)
    requires forall k | 0 <= k < |keys| :: keys[k] in batch
    requires WellTagged(batch) && Ascending(keys)
    requires forall q | q in keys && q in tags :: Shown(batch[q], {q}) == text
    ensures Shown(Emptied(batch, keys), tags) == Repeat(text, |Both(keys, tags)|)
  {
    if |keys| == 0 {
      assert Both(keys, tags) == {};
    } else {
      var front, last := keys[..|keys| - 1], keys[|keys| - 1];
      FrontKeys(keys, last);
      BothLast(keys, tags);
      hide Ascending, Both, Shown, AllTagged, Repeat;
      EmptiedRepeats(batch, front, tags, text);
      BatchRepeats(Emptied(batch, front), batch[last], last, tags, text, |Both(front, tags)|);
    }
  }

  lemma WholeRepeats(infos: seq<Assigned>, checks: seq<Check>, blocks: Batch)
    requires IsEmptied(checks, blocks) && WellTagged(blocks) && WrittenFrom(infos, |infos|, blocks)
    ensures Repeats(infos, checks)
  {
    var keys :| IsSorted(keys, blocks.Keys) && checks == Emptied(blocks, keys);
    forall i, s: set<Prefix> | 0 <= i < |infos| && OnlyOf(infos, i, s)
      ensures Shown(checks, s) == Repeat(infos[i].text, |Both(infos[i].prefixes, s)|)
    {
      forall q | q in keys && q in s ensures q in infos[i].prefixes && Shown(blocks[q], {q}) == infos[i].text {
        OwnBlock(infos, blocks, i, q, s);
      }
      EmptiedRepeats(blocks, keys, s, infos[i].text);
      if |infos[i].text| == 0 {
        RepeatNothing(|Both(infos[i].prefixes, s)|);
        RepeatNothing(|Both(keys, s)|);
      } else {
        forall q | q in infos[i].prefixes ensures q in keys {
          assert Pending(blocks, q) == Tagged(q, infos[i].text);
          TaggedShows(q, infos[i].text);
        }
        assert Both(keys, s) == Both(infos[i].prefixes, s);
      }
    }
  }

  lemma OwnBlock(infos: seq<Assigned>, blocks: Batch, i: nat, q: Prefix, s: set<Prefix>)
    requires WrittenFrom(infos, |infos|, blocks) && i < |infos| && OnlyOf(infos, i, s) && q in blocks && q in s
    ensures q in infos[i].prefixes && Shown(blocks[q], {q}) == infos[i].text
  {
    var j :| IsOwn(infos, j, q);
    assert IsOwn(infos, i, q);
    TaggedShows(q, infos[i].text);
    assert Pending(blocks, q) == Tagged(q, infos[i].text);
  }

  lemma {:induction false} NothingShown(checks: seq<Check>)
    ensures Shown(checks, {}) == []
  {
    if |checks| > 0 {
      NothingShown(checks[..|checks| - 1]);
    }
  }

  // --------------------------------------------------------------------- what every run line sees

  /** Seen through the base tags and one prefix of a text, the checks are that text. */
  ghost predicate Delivers(infos: seq<Assigned>, checks: seq<Check>, base: set<Prefix>) {
    && base !! AllPrefixes(infos)
    && TagsAmong(checks, AllPrefixes(infos) + base)
    && (forall i, p | IsOwn(infos, i, p) :: Shown(checks, base + {p}) == infos[i].text)
    && (forall i | 0 <= i < |infos| && infos[i].text != [] :: |Shown(checks, base)| < |infos[i].text|)
  }

  /**
    A run line that has the base tags, and no prefix chosen for another text, sees its own text
    exactly if it has exactly one of the prefixes chosen for it.
   */
  lemma SeenOnce(infos: seq<Assigned>, checks: seq<Check>, base: set<Prefix>, i: nat, s: set<Prefix>)
    requires i < |infos| && infos[i].text != [] && Delivers(infos, checks, base)
    requires base <= s && OnlyOf(infos, i, s)
    ensures Shown(checks, s) == infos[i].text <==> ExactlyOne(infos[i].prefixes, s)
  {
    var own := set p | p in infos[i].prefixes && p in s;
    SeesOwnTags(infos, checks, base, i, s, own);
    if !Covered(infos[i].prefixes, s) {
      assert base + own == base;
    } else {
      var p :| p in infos[i].prefixes && p in s;
      assert IsOwn(infos, i, p);
      if q :| q in infos[i].prefixes && q in s && q != p {
        assert IsOwn(infos, i, q);
        SeenTwice(checks, base, infos[i].text, p, q, s);
      } else {
        assert own == {p};
      }
    }
  }

  lemma SeesOwnTags(infos: seq<Assigned>, checks: seq<Check>, base: set<Prefix>, i: nat, s: set<Prefix>,
                    own: set<Prefix>)
    requires i < |infos| && TagsAmong(checks, AllPrefixes(infos) + base)
    requires base <= s && OnlyOf(infos, i, s)
    requires own == set p | p in infos[i].prefixes && p in s
    ensures Shown(checks, s) == Shown(checks, base + own)
  {
    var all := AllPrefixes(infos) + base;
    forall p | p in s * all ensures p in base + own {
      if p !in base {
        var j :| 0 <= j < |infos| && p in infos[j].prefixes;
        assert IsOwn(infos, j, p);
      }
    }
    assert s * all == (base + own) * all;
    OnlyTagsMatter(checks, all, s, base + own);
  }

  lemma SeenTwice(checks: seq<Check>, base: set<Prefix>, text: Text, p: Prefix, q: Prefix, s: set<Prefix>)
    requires p != q && p !in base && q !in base && base <= s && p in s && q in s
    requires Shown(checks, base + {p}) == text && Shown(checks, base + {q}) == text
    requires |Shown(checks, base)| < |text|
    ensures |Shown(checks, s)| > |text|
  {
    ShownAddsUp(checks, base, {q});
    ShownAddsUp(checks, base + {p}, {q});
    var rest := s - (base + {p} + {q});
    ShownAddsUp(checks, base + {p} + {q}, rest);
    assert base + {p} + {q} + rest == s;
  }

  lemma BrokenDelivers(infos: seq<Assigned>, common: Prefix, checks: seq<Check>)
    requires |infos| > 1 && SameLength(infos) && common !in AllPrefixes(infos)
    requires ShowsAll(infos, common, checks) && infos[0].text != infos[1].text
    ensures Delivers(infos, checks, {common})
  {
    var n := |infos[0].text|;
    assert |infos[1].text| == n;
    if forall k | 0 <= k < n :: CommonLine(infos, k) {
      forall k | 0 <= k < n ensures infos[1].text[k] == infos[0].text[k] {
        assert CommonLine(infos, k);
      }
    } else {
      var k :| 0 <= k < n && !CommonLine(infos, k);
      FewerCommonLines(infos, n, k);
    }
    forall i, p | IsOwn(infos, i, p) ensures Shown(checks, {common} + {p}) == infos[i].text {
      assert {common} + {p} == {common, p};
    }
    forall i | 0 <= i < |infos| ensures |infos[i].text| == n {
    }
  }

  // ------------------------------------------------------------------------ one block number

  ghost predicate WellFormed(infos: seq<Entry>, common: Prefix) {
    && (forall i | 0 <= i < |infos| :: infos[i].sets != [])
    && (forall i, j | 0 <= i < j < |infos| :: infos[i].text != infos[j].text)
    && (common != "" ==> forall i, k | 0 <= i < |infos| && 0 <= k < |infos[i].sets| :: common in infos[i].sets[k])
  }

  ghost predicate Chosen(infos: seq<Entry>, chosen: seq<Assigned>)
    requires forall i | 0 <= i < |infos| :: infos[i].sets != []
  {
    && |chosen| == |infos|
    && forall i | 0 <= i < |infos| ::
         chosen[i].text == infos[i].text && WellChosen(infos, i, chosen[i].prefixes)
  }

  /** The pruning makes the prefix lists duplicate-free and disjoint. */
  lemma ChosenIsDisjoint(infos: seq<Entry>, common: Prefix, chosen: seq<Assigned>)
    requires WellFormed(infos, common) && Chosen(infos, chosen)
    ensures Disjoint(chosen) && EachOnce(chosen)
  {
    forall i, j, p | 0 <= i < |chosen| && 0 <= j < |chosen| && i != j && p in chosen[i].prefixes
      ensures p !in chosen[j].prefixes
    {
      assert Owned(infos, i, p);
    }
  }

  /** With several texts, the pruning never leaves the common prefix. */
  lemma CommonIsNotChosen(infos: seq<Entry>, chosen: seq<Assigned>, common: Prefix)
    requires WellFormed(infos, common) && Chosen(infos, chosen) && common != "" && |infos| > 1
    ensures common !in AllPrefixes(chosen)
  {
    forall i | 0 <= i < |chosen| ensures common !in chosen[i].prefixes {
      var j := if i == 0 then 1 else 0;
      assert common in infos[j].sets[0];
      UnionMember(infos[j].sets, common);
    }
  }

  /** A run line of one text has no prefix chosen for another. */
  lemma OthersAreForeign(infos: seq<Entry>, common: Prefix, chosen: seq<Assigned>, i: nat, k: nat)
    requires WellFormed(infos, common) && Chosen(infos, chosen) && i < |infos| && k < |infos[i].sets|
    ensures OnlyOf(chosen, i, infos[i].sets[k])
  {
    forall j, p | IsOwn(chosen, j, p) && p in infos[i].sets[k] ensures p in chosen[i].prefixes {
      assert Owned(infos, j, p);
      UnionMember(infos[i].sets, p);
    }
  }

  // ---------------------------------------------------------------------- what a block number shows

  /** The texts are broken down line by line: they have the same number of lines, and the same first one. */
  ghost predicate BrokenDown(infos: seq<Entry>, common: Prefix) {
    && common != "" && |infos| > 1
    && (forall i | 0 <= i < |infos| :: |infos[i].text| == |infos[0].text| > 0 && infos[i].text[0] == infos[0].text[0])
  }

  /** The prefixes in s that text i is written under. */
  ghost function WrittenUnder(infos: seq<Entry>, i: nat, s: set<Prefix>): set<Prefix>
    requires i < |infos| && infos[i].sets != []
  {
    set p | p in s && IsFirst(Groups(infos, i), p)
  }

  /** No other text is written under a prefix in s. */
  ghost predicate NoOther(infos: seq<Entry>, i: nat, s: set<Prefix>)
    requires i < |infos| && forall j | 0 <= j < |infos| :: infos[j].sets != []
  {
    forall j | 0 <= j < |infos| && j != i :: WrittenUnder(infos, j, s) == {}
  }

  /** Run line k of text i sees that text exactly if it has one of the chosen prefixes; an empty text is not seen. */
  ghost predicate SeesItsText(infos: seq<Entry>, checks: seq<Check>, i: nat, k: nat)
    requires i < |infos| && k < |infos[i].sets|
  {
    if |infos[i].text| == 0 then Shown(checks, infos[i].sets[k]) == []
    else Shown(checks, infos[i].sets[k]) == infos[i].text <==> HasOnePrefix(infos, i, k)
  }

  /** No text is written under a prefix in s. */
  ghost predicate Unseen(infos: seq<Entry>, common: Prefix, s: set<Prefix>)
    requires forall i | 0 <= i < |infos| :: infos[i].sets != []
  {
    && !BrokenDown(infos, common)
    && forall i | 0 <= i < |infos| && infos[i].text != [] :: WrittenUnder(infos, i, s) == {}
  }

  /**
    What the check lines show to the run lines; and to any other prefixes, such as those of a run
    line without a text here: nothing exactly if no text is written under one of them; and a text once
    for each of its prefixes, if there are prefixes of one text only, and the texts are not broken down.
   */
  ghost predicate ShowsTexts(infos: seq<Entry>, common: Prefix, checks: seq<Check>)
    requires forall i | 0 <= i < |infos| :: infos[i].sets != []
  {
    && (forall i, k | 0 <= i < |infos| && 0 <= k < |infos[i].sets| :: SeesItsText(infos, checks, i, k))
    && (!BrokenDown(infos, common) ==>
          forall i, s: set<Prefix> | 0 <= i < |infos| && NoOther(infos, i, s) ::
            Shown(checks, s) == Repeat(infos[i].text, |WrittenUnder(infos, i, s)|))
    && (forall s: set<Prefix> | common != "" ==> common in s :: Shown(checks, s) == [] <==> Unseen(infos, common, s))
  }

  lemma ToRunLine(infos: seq<Entry>, common: Prefix, chosen: seq<Assigned>, checks: seq<Check>, base: set<Prefix>,
                  i: nat, k: nat)
    requires WellFormed(infos, common) && Chosen(infos, chosen) && Delivers(chosen, checks, base)
    requires i < |infos| && k < |infos[i].sets| && infos[i].text != [] && base <= infos[i].sets[k]
    ensures SeesItsText(infos, checks, i, k)
  {
    hide Delivers, HasOnePrefix, WellChosen, OnlyOf, ExactlyOne;
    OthersAreForeign(infos, common, chosen, i, k);
    SeenOnce(chosen, checks, base, i, infos[i].sets[k]);
    OnePrefixDecided(infos, i, k, chosen[i].prefixes);
  }

  lemma BrokenShows(infos: seq<Entry>, common: Prefix, chosen: seq<Assigned>, checks: seq<Check>)
    requires WellFormed(infos, common) && Chosen(infos, chosen) && Delivers(chosen, checks, {common})
    requires BrokenDown(infos, common) && |Shown(checks, {common})| > 0
    ensures ShowsTexts(infos, common, checks)
  {
    hide Delivers, SeesItsText, Chosen, Shown;
    forall s: set<Prefix> | common in s ensures |Shown(checks, s)| > 0 {
      ShownToMore(checks, {common}, s);
    }
    forall i, k | 0 <= i < |infos| && 0 <= k < |infos[i].sets| ensures SeesItsText(infos, checks, i, k) {
      ToRunLine(infos, common, chosen, checks, {common}, i, k);
    }
  }

  lemma ShownToMore(checks: seq<Check>, s: set<Prefix>, t: set<Prefix>)
    requires s <= t
    ensures |Shown(checks, s)| <= |Shown(checks, t)|
  {
    ShownAddsUp(checks, s, t - s);
    assert s + (t - s) == t;
  }

  lemma {:induction false} FirstLineIsShown(infos: seq<Assigned>, n: nat)
    requires infos != [] && SameLength(infos) && 0 < n <= |infos[0].text| && CommonLine(infos, 0)
    ensures |CommonLines(infos, n)| > 0
  {
    if n > 1 {
      FirstLineIsShown(infos, n - 1);
    }
  }

  lemma WholeIsShown(infos: seq<Entry>, common: Prefix, chosen: seq<Assigned>, checks: seq<Check>, i: nat, s: set<Prefix>)
    requires WellFormed(infos, common) && Chosen(infos, chosen) && Delivers(chosen, checks, {})
    requires i < |infos| && infos[i].text != [] && WrittenUnder(infos, i, s) != {}
    ensures Shown(checks, s) != []
  {
    WrittenIsBoth(infos, common, chosen, i, s);
    var p :| p in Both(chosen[i].prefixes, s);
    assert IsOwn(chosen, i, p);
    hide WellChosen, WrittenUnder, Chosen;
    assert {} + {p} == {p};
    ShownToMore(checks, {p}, s);
  }

  lemma WholeIsNotShown(infos: seq<Entry>, common: Prefix, chosen: seq<Assigned>, checks: seq<Check>, s: set<Prefix>)
    requires WellFormed(infos, common) && Chosen(infos, chosen) && Delivers(chosen, checks, {}) && Repeats(chosen, checks)
    requires forall i | 0 <= i < |infos| && infos[i].text != [] :: WrittenUnder(infos, i, s) == {}
    ensures Shown(checks, s) == []
  {
    hide WellChosen, WrittenUnder;
    if |infos| == 0 {
      OnlyTagsMatter(checks, {}, s, {});
      NothingShown(checks);
    } else {
      var i := if e :| 0 <= e < |infos| && infos[e].text == [] then e else 0;
      hide Delivers, Repeats;
      forall j | 0 <= j < |infos| && j != i ensures infos[j].text != [] {
        assert infos[i].text != infos[j].text || infos[i].text != [];
      }
      WholeToAny(infos, common, chosen, checks, i, s);
      RepeatNothing(|WrittenUnder(infos, i, s)|);
    }
  }

  lemma WholeToRunLine(infos: seq<Entry>, common: Prefix, chosen: seq<Assigned>, checks: seq<Check>, i: nat, k: nat)
    requires WellFormed(infos, common) && Chosen(infos, chosen)
    requires Delivers(chosen, checks, {}) && Repeats(chosen, checks)
    requires i < |infos| && k < |infos[i].sets|
    ensures SeesItsText(infos, checks, i, k)
  {
    if |infos[i].text| > 0 {
      hide *;
      ToRunLine(infos, common, chosen, checks, {}, i, k);
    } else {
      hide Delivers, WellChosen, OnlyOf, HasOnePrefix;
      OthersAreForeign(infos, common, chosen, i, k);
      RepeatNothing(|Both(chosen[i].prefixes, infos[i].sets[k])|);
    }
  }

  lemma WholeToAny(infos: seq<Entry>, common: Prefix, chosen: seq<Assigned>, checks: seq<Check>, i: nat, s: set<Prefix>)
    requires WellFormed(infos, common) && Chosen(infos, chosen) && Repeats(chosen, checks)
    requires i < |infos| && NoOther(infos, i, s)
    ensures Shown(checks, s) == Repeat(infos[i].text, |WrittenUnder(infos, i, s)|)
  {
    hide WellChosen, WrittenUnder, Both, Chosen;
    WrittenIsBoth(infos, common, chosen, i, s);
    forall j, p | IsOwn(chosen, j, p) && p in s ensures p in chosen[i].prefixes {
      WrittenIsBoth(infos, common, chosen, j, s);
    }
  }

  lemma WrittenIsBoth(infos: seq<Entry>, common: Prefix, chosen: seq<Assigned>, j: nat, s: set<Prefix>)
    requires WellFormed(infos, common) && Chosen(infos, chosen) && j < |infos|
    ensures |chosen| == |infos| && chosen[j].text == infos[j].text
    ensures Both(chosen[j].prefixes, s) == WrittenUnder(infos, j, s)
    ensures forall p | p in chosen[j].prefixes && p in s :: p in WrittenUnder(infos, j, s)
  {
    assert WellChosen(infos, j, chosen[j].prefixes);
    hide IsFirst, Owned, Covered, Chosen;
  }

  lemma WholeShows(infos: seq<Entry>, common: Prefix, chosen: seq<Assigned>, checks: seq<Check>)
    requires WellFormed(infos, common) && Chosen(infos, chosen)
    requires Delivers(chosen, checks, {}) && Repeats(chosen, checks) && !BrokenDown(infos, common)
    ensures ShowsTexts(infos, common, checks)
  {
    hide Delivers, Repeats, Chosen, SeesItsText, NoOther, WrittenUnder;
    forall s: set<Prefix> ensures Shown(checks, s) == [] <==> Unseen(infos, "", s) {
      if Unseen(infos, "", s) {
        WholeIsNotShown(infos, common, chosen, checks, s);
      } else {
        var i :| 0 <= i < |infos| && infos[i].text != [] && WrittenUnder(infos, i, s) != {};
        WholeIsShown(infos, common, chosen, checks, i, s);
      }
    }
    forall i, k | 0 <= i < |infos| && 0 <= k < |infos[i].sets| ensures SeesItsText(infos, checks, i, k) {
      WholeToRunLine(infos, common, chosen, checks, i, k);
    }
    forall i, s: set<Prefix> | 0 <= i < |infos| && NoOther(infos, i, s)
      ensures Shown(checks, s) == Repeat(infos[i].text, |WrittenUnder(infos, i, s)|)
    {
      WholeToAny(infos, common, chosen, checks, i, s);
    }
  }

  method HaveSameLength(chosen: seq<Assigned>) returns (same: bool)
    ensures same <==> SameLength(chosen)
  {
    for i := 0 to |chosen|
      invariant forall j | 0 <= j < i :: |chosen[j].text| == |chosen[0].text|
    {
      if |chosen[i].text| != |chosen[0].text| {
        return false;
      }
    }
    return true;
  }

  /** The break-down is given up exactly if the texts do not begin alike. */
  lemma BrokenDownIff(infos: seq<Entry>, common: Prefix, chosen: seq<Assigned>)
    requires WellFormed(infos, common) && Chosen(infos, chosen) && common != "" && |infos| > 1
    requires forall i | 0 <= i < |infos| && infos[i].text != [] :: SomeCanBeTold(infos, i)
    ensures BrokenDown(infos, common) <==> SameLength(chosen) && |chosen[0].text| > 0 && CommonLine(chosen, 0)
    ensures SameLength(chosen) ==> |chosen[0].text| > 0 && chosen[0].prefixes != []
  {
    assert chosen[0].text == infos[0].text && chosen[1].text == infos[1].text;
    if SameLength(chosen) {
      assert |infos[0].text| == |infos[1].text|;
      NonEmptyIffToldApart(infos, 0, chosen[0].prefixes);
    }
    hide WellChosen, SomeCanBeTold;
    assert forall i | 0 <= i < |infos| :: chosen[i].text == infos[i].text;
    hide Chosen;
    if BrokenDown(infos, common) {
      assert SameLength(chosen);
    }
  }

  /** Every non-empty text has a run line that can be told from those of the other texts. */
  ghost predicate Captured(infos: seq<Entry>) {
    forall i | 0 <= i < |infos| && infos[i].text != [] :: SomeCanBeTold(infos, i)
  }

  /** The check lines of one block number; an error if a text is not captured by any prefix. */
  method CheckLines(infos: seq<Entry>, common: Prefix) returns (r: Result<seq<Check>, string>)
    requires WellFormed(infos, common)
    ensures r.Ok? <==> Captured(infos)
    ensures r.Ok? ==> ShowsTexts(infos, common, r.value) && Grouped(r.value, common)
  {
    hide SomeCanBeTold, Delivers, ShowsTexts, WellChosen, BrokenDown, Repeats, Grouped, Climbs;
    var pruned := PruneBlock(infos);
    if pruned.Err? {
      return Err(pruned.error);
    }
    var chosen := pruned.value;
    ChosenIsDisjoint(infos, common, chosen);
    if common != "" && |infos| > 1 {
      BrokenDownIff(infos, common, chosen);
      var same := HaveSameLength(chosen);
      if same {
        CommonIsNotChosen(infos, chosen, common);
        assert chosen[0].text != chosen[1].text;
        var broken := BreakDown(chosen, common);
        if |broken| > 0 {
          BrokenDelivers(chosen, common, broken);
          FirstLineIsShown(chosen, |chosen[0].text|);
          BrokenShows(infos, common, chosen, broken);
          return Ok(broken);
        }
      }
    } else {
      NotBrokenDown(infos, common);
    }
    var whole := WriteWhole(chosen);
    ClimbsIsGrouped(whole, common);
    WholeShows(infos, common, chosen, whole);
    return Ok(whole);
  }

  lemma ClimbsIsGrouped(checks: seq<Check>, common: Prefix)
    requires Climbs(checks)
    ensures Grouped(checks, common)
  {
  }

  lemma NotBrokenDown(infos: seq<Entry>, common: Prefix)
    requires common == "" || |infos| <= 1
    ensures !BrokenDown(infos, common)
  {
  }

  /** The prefixes of a lone text are not pruned. */
  lemma LoneIsNotPruned(entry: Entry)
    ensures Pruned([entry], 0) == entry.sets
  {
    forall p ensures p !in Others([entry], 0) {
      OthersMember([entry], 0, 1, p);
    }
    hide Others;
    assert Others([entry], 0) == {};
    forall k | 0 <= k < |entry.sets| ensures Pruned([entry], 0)[k] == entry.sets[k] {
    }
  }

  lemma NothingInCommon(sets: seq<set<Prefix>>)
    requires |sets| == 3 && sets[1] !! sets[2]
    ensures Intersection(sets) == {}
  {
    forall p ensures p !in Intersection(sets) {
      IntersectionMember(sets, p);
      assert p !in sets[1] || p !in sets[2];
    }
  }

  /** A lone text whose run lines have nothing in common is written under the first prefix of each. */
  lemma LoneIsWrittenUnder(entry: Entry, s: set<Prefix>)
    requires entry.sets != [] && Intersection(entry.sets) == {}
    ensures WrittenUnder([entry], 0, s) == set p | p in s && IsFirst(entry.sets, p)
    ensures NoOther([entry], 0, s)
  {
    LoneIsNotPruned(entry);
  }

  lemma FirstsOfTwo(sets: seq<set<Prefix>>)
    requires sets == [{"A", "B"}, {"A"}, {"B"}]
    ensures (set p | p in {"A", "B"} && IsFirst(sets, p)) == {"A", "B"}
  {
    assert IsLeast("A", sets[1]) && IsLeast("B", sets[2]);
  }

  lemma ShownRepeated(infos: seq<Entry>, common: Prefix, checks: seq<Check>, i: nat, s: set<Prefix>)
    requires forall j | 0 <= j < |infos| :: infos[j].sets != []
    requires ShowsTexts(infos, common, checks) && !BrokenDown(infos, common) && i < |infos| && NoOther(infos, i, s)
    ensures Shown(checks, s) == Repeat(infos[i].text, |WrittenUnder(infos, i, s)|)
  {
    hide SeesItsText, Unseen, WrittenUnder, NoOther, BrokenDown;
  }

  lemma RepeatTwice(text: Text)
    ensures Repeat(text, 2) == text + text
  {
    assert Repeat(text, 1) == text;
  }

  /** Without a shared prefix, a run line may be shown its text twice. */
  lemma TextShownTwice(common: Prefix, checks: seq<Check>)
    requires ShowsTexts([Entry(["x"], [{"A", "B"}, {"A"}, {"B"}])], common, checks)
    ensures Shown(checks, {"A", "B"}) == ["x", "x"]
  {
    hide ShowsTexts, WrittenUnder, NoOther, BrokenDown, Intersection, IsFirst;
    var entry := Entry(["x"], [{"A", "B"}, {"A"}, {"B"}]);
    var s := {"A", "B"};
    NotBrokenDown([entry], common);
    NothingInCommon(entry.sets);
    LoneIsWrittenUnder(entry, s);
    FirstsOfTwo(entry.sets);
    assert WrittenUnder([entry], 0, s) == s;
    ShownRepeated([entry], common, checks, 0, s);
    assert |s| == 2;
    RepeatTwice(entry.text);
  }
}
