/**
  Model of the block alignment of llvm/utils/update_mca_test_checks.py: inserting empty blocks into
  the block lists of the run lines until blocks that occur in several lists line up.
 */
module McaAlign {

  type Block = seq<string>      // its lines; the empty block has none
  type Blocks = seq<Block>

  // ----------------------------------------------------------------------------- measures of lists

  /** The non-empty blocks, in order. */
  ghost function NonEmpty(blocks: Blocks): Blocks {
    if blocks == [] then []
    else NonEmpty(blocks[..|blocks| - 1]) + if blocks[|blocks| - 1] != [] then [blocks[|blocks| - 1]] else []
  }

  /** The number of places where two non-empty blocks meet. */
  ghost function Pairs(blocks: Blocks): nat {
    if |blocks| <= 1 then 0
    else
      var n := |blocks| - 1;
      Pairs(blocks[..n]) + if blocks[n - 1] != [] && blocks[n] != [] then 1 else 0
  }

  lemma {:induction false} NonEmptyConcat(a: Blocks, b: Blocks)
    ensures NonEmpty(a + b) == NonEmpty(a) + NonEmpty(b)
  {
    if b == [] {
      assert a + b == a;
    } else {
      var n := |b| - 1;
      assert (a + b)[..|a| + n] == a + b[..n];
      NonEmptyConcat(a, b[..n]);
    }
  }

  lemma {:induction false} PairsConcat(a: Blocks, b: Blocks)
    ensures Pairs(a + b) ==
            Pairs(a) + Pairs(b) + if a != [] && b != [] && a[|a| - 1] != [] && b[0] != [] then 1 else 0
  {
    if b == [] {
      assert a + b == a;
    } else {
      var n := |b| - 1;
      var s := a + b;
      assert s[..|a| + n] == a + b[..n];
      PairsConcat(a, b[..n]);
      assert s[|s| - 1] == b[n];
      if n > 0 {
        assert s[|s| - 2] == b[n - 1] && b[..n][0] == b[0];
      } else {
        assert b[..n] == [] && Pairs(b) == 0;
        if a != [] {
          assert s[|s| - 2] == a[|a| - 1];
        }
      }
    }
  }

  function Empties(k: nat): Blocks {
    seq(k, _ => [])
  }

  lemma {:induction false} EmptiesMeasures(k: nat)
    ensures NonEmpty(Empties(k)) == [] && Pairs(Empties(k)) == 0
  {
    if k > 0 {
      assert Empties(k)[..k - 1] == Empties(k - 1);
      EmptiesMeasures(k - 1);
    }
  }

  ghost function Inserted(blocks: Blocks, index: nat, k: nat): Blocks
    requires index <= |blocks|
  {
    blocks[..index] + Empties(k) + blocks[index..]
  }

  /** Separating two adjacent non-empty blocks keeps the block sequence and removes one such place. */
  lemma InsertedMeasures(blocks: Blocks, index: nat, k: nat)
    requires 0 < index < |blocks| && k > 0
    requires blocks[index - 1] != [] && blocks[index] != []
    ensures NonEmpty(Inserted(blocks, index, k)) == NonEmpty(blocks)
    ensures Pairs(Inserted(blocks, index, k)) + 1 == Pairs(blocks)
  {
    hide NonEmpty, Pairs;
    var a, e, b := blocks[..index], Empties(k), blocks[index..];
    EmptiesMeasures(k);
    assert a + b == blocks;
    NonEmptyConcat(a, b);
    NonEmptyConcat(a + e, b);
    NonEmptyConcat(a, e);
    PairsConcat(a, b);
    PairsConcat(a + e, b);
    PairsConcat(a, e);
  }

  ghost function TotalPairs(lists: seq<Blocks>): nat {
    if lists == [] then 0 else TotalPairs(lists[..|lists| - 1]) + Pairs(lists[|lists| - 1])
  }

  lemma {:induction false} TotalPairsUpdate(lists: seq<Blocks>, l: nat, blocks: Blocks)
    requires l < |lists|
    ensures TotalPairs(lists[l := blocks]) == TotalPairs(lists) - Pairs(lists[l]) + Pairs(blocks)
  {
    var n := |lists| - 1;
    if l < n {
      assert lists[l := blocks][..n] == lists[..n][l := blocks];
      TotalPairsUpdate(lists[..n], l, blocks);
    } else {
      assert lists[l := blocks][..n] == lists[..n];
    }
  }

  // ------------------------------------------------------------------------------ farthest indexes

  type Farthest = map<Block, nat>

  /** farthest_indexes[block], a dictionary with default 0. */
  function Far(farthest: Farthest, block: Block): nat {
    if block in farthest then farthest[block] else 0
  }

  /** blocks.index(block) */
  function FirstIndex(blocks: Blocks, block: Block): (i: nat)
    requires block in blocks
    ensures i < |blocks| && blocks[i] == block
  {
    if blocks[0] == block then 0 else 1 + FirstIndex(blocks[1..], block)
  }

  lemma {:induction false} FirstIndexIsFirst(blocks: Blocks, block: Block, j: nat)
    requires j < |blocks| && blocks[j] == block
    ensures FirstIndex(blocks, block) <= j
  {
    if blocks[0] != block {
      FirstIndexIsFirst(blocks[1..], block, j - 1);
    }
  }

  lemma FirstIndexIs(blocks: Blocks, block: Block, i: nat)
    requires i < |blocks| && blocks[i] == block && block !in blocks[..i]
    ensures FirstIndex(blocks, block) == i
  {
    FirstIndexIsFirst(blocks, block, i);
  }

  ghost function Max(a: nat, b: nat): nat {
    if a < b then b else a
  }

  /** Where a block has its first index: 0 if it does not occur. */
  ghost function IndexIn(blocks: Blocks, block: Block): nat {
    if block != [] && block in blocks then FirstIndex(blocks, block) else 0
  }

  /** The farthest first index of a block in any of the lists. */
  ghost function FarthestIn(lists: seq<Blocks>, block: Block): nat {
    if |lists| == 0 then 0 else Max(FarthestIn(lists[..|lists| - 1], block), IndexIn(lists[|lists| - 1], block))
  }

  lemma {:induction false} FarthestBounds(lists: seq<Blocks>, block: Block, l: nat)
    requires l < |lists|
    ensures IndexIn(lists[l], block) <= FarthestIn(lists, block)
  {
    if l < |lists| - 1 {
      FarthestBounds(lists[..|lists| - 1], block, l);
    }
  }

  lemma {:induction false} FarthestBounded(lists: seq<Blocks>, block: Block, bound: nat)
    requires forall l | 0 <= l < |lists| :: IndexIn(lists[l], block) <= bound
    ensures FarthestIn(lists, block) <= bound
  {
    if |lists| > 0 {
      FarthestBounded(lists[..|lists| - 1], block, bound);
    }
  }

  /** The analysis of a list raises each farthest index to the first index in the list, if that is larger. */
  method AnalyseList(blocks: Blocks, farthest0: Farthest) returns (farthest: Farthest)
    ensures forall b :: Far(farthest, b) == Max(Far(farthest0, b), IndexIn(blocks, b))
  {
    farthest := farthest0;
    for i := 0 to |blocks|
      invariant forall b :: Far(farthest, b) == Max(Far(farthest0, b), if b in blocks[..i] then IndexIn(blocks, b) else 0)
    {
      var block := blocks[i];
      assert blocks[..i + 1] == blocks[..i] + [block];
      if block == [] {
        continue;
      }
      var index := FirstIndex(blocks, block);
      if index > Far(farthest, block) {
        farthest := farthest[block := index];
      }
    }
    assert blocks[..|blocks|] == blocks;
  }

  /** "Farthest block analysis" */
  method Analyse(lists: seq<Blocks>, farthest0: Farthest) returns (farthest: Farthest)
    ensures forall b :: Far(farthest, b) == Max(Far(farthest0, b), FarthestIn(lists, b))
  {
    hide IndexIn;
    farthest := farthest0;
    for l := 0 to |lists|
      invariant forall b :: Far(farthest, b) == Max(Far(farthest0, b), FarthestIn(lists[..l], b))
    {
      assert lists[..l + 1][..l] == lists[..l];
      farthest := AnalyseList(lists[l], farthest);
    }
    assert lists[..|lists|] == lists;
  }

  // ------------------------------------------------------------------------------------- alignment

  /** The block is not separated from its predecessor, and lies before its farthest index. */
  ghost predicate Misplaced(lists: seq<Blocks>, l: nat, i: nat) {
    && l < |lists| && 0 < i < |lists[l]| && lists[l][i] != [] && lists[l][i - 1] != []
    && i < FarthestIn(lists, lists[l][i])
  }

  /** The first misplaced block, list by list. */
  ghost predicate FirstMisplaced(lists: seq<Blocks>, l: nat, i: nat) {
    && Misplaced(lists, l, i)
    && (forall k: nat, j: nat | k < l :: !Misplaced(lists, k, j))
    && (forall j: nat | j < i :: !Misplaced(lists, l, j))
  }

  /** Empty blocks before a misplaced block move it to its farthest index. */
  ghost function Separated(lists: seq<Blocks>, l: nat, i: nat): seq<Blocks>
    requires Misplaced(lists, l, i)
  {
    lists[l := Inserted(lists[l], i, FarthestIn(lists, lists[l][i]) - i)]
  }

  ghost predicate AnyMisplaced(lists: seq<Blocks>) {
    exists l, i :: FirstMisplaced(lists, l, i)
  }

  /** One pass: the first misplaced block is separated. */
  ghost function Pass(lists: seq<Blocks>): seq<Blocks> {
    if AnyMisplaced(lists) then
      var l, i :| FirstMisplaced(lists, l, i);
      Separated(lists, l, i)
    else lists
  }

  lemma PassSeparatesFirst(lists: seq<Blocks>, l: nat, i: nat)
    requires FirstMisplaced(lists, l, i)
    ensures AnyMisplaced(lists) && Pass(lists) == Separated(lists, l, i)
  {
    hide Misplaced, Separated;
    forall l', i' | FirstMisplaced(lists, l', i') ensures l == l' && i == i' {
    }
  }

  /** The cached farthest indexes are no farther than those in the lists. */
  ghost predicate Cached(farthest: Farthest, lists: seq<Blocks>) {
    forall b :: Far(farthest, b) <= FarthestIn(lists, b)
  }

  /** One call of _align_matching_blocks; what is cached of earlier calls makes no difference. */
  method AlignMatchingBlocks(lists: seq<Blocks>, farthest0: Farthest)
    returns (result: seq<Blocks>, farthest: Farthest, changed: bool)
    requires Cached(farthest0, lists)
    ensures forall b :: Far(farthest, b) == FarthestIn(lists, b)
    ensures result == Pass(lists) && (changed <==> AnyMisplaced(lists))
  {
    farthest := Analyse(lists, farthest0);
    hide FarthestIn, Pass, AnyMisplaced;
    for l := 0 to |lists|
      invariant forall k: nat, j: nat | k < l :: !Misplaced(lists, k, j)
    {
      var blocks := lists[l];
      for i := 0 to |blocks|
        invariant forall j: nat | j < i :: !Misplaced(lists, l, j)
      {
        if blocks[i] == [] {
          continue;
        }
        var index := i;
        var shifted := blocks;
        if index > 0 && blocks[index - 1] != [] {
          while index < Far(farthest, blocks[i])
            invariant i <= index && (index <= Far(farthest, blocks[i]) || index == i)
            invariant shifted == Inserted(blocks, i, index - i)
          {
            InsertOneMore(blocks, i, index - i);
            shifted := shifted[..index] + [[]] + shifted[index..];
            index := index + 1;
          }
        }
        if index != i {
          PassSeparatesFirst(lists, l, i);
          return lists[l := shifted], farthest, true;
        }
      }
    }
    NoneMisplaced(lists);
    return lists, farthest, false;
  }

  lemma NoneMisplaced(lists: seq<Blocks>)
    requires forall k: nat, j: nat | k < |lists| :: !Misplaced(lists, k, j)
    ensures !AnyMisplaced(lists) && Pass(lists) == lists
  {
  }

  lemma InsertOneMore(blocks: Blocks, i: nat, k: nat)
    requires i <= |blocks|
    ensures Inserted(blocks, i, 0) == blocks
    ensures var s := Inserted(blocks, i, k);
            i + k <= |s| && s[..i + k] + [[]] + s[i + k..] == Inserted(blocks, i, k + 1)
  {
    var s := Inserted(blocks, i, k);
    assert s[..i + k] == blocks[..i] + Empties(k) && s[i + k..] == blocks[i..];
    assert Empties(k) + [[]] == Empties(k + 1);
  }

  /** The lists still hold the same blocks. */
  ghost predicate SameBlocks(a: seq<Blocks>, b: seq<Blocks>) {
    |a| == |b| && forall l | 0 <= l < |a| :: NonEmpty(a[l]) == NonEmpty(b[l])
  }

  lemma SeparationProgress(lists: seq<Blocks>, l: nat, i: nat)
    requires Misplaced(lists, l, i)
    ensures SameBlocks(lists, Separated(lists, l, i)) && TotalPairs(Separated(lists, l, i)) < TotalPairs(lists)
  {
    var k := FarthestIn(lists, lists[l][i]) - i;
    InsertedMeasures(lists[l], i, k);
    TotalPairsUpdate(lists, l, Inserted(lists[l], i, k));
  }

  lemma PassProgress(lists: seq<Blocks>)
    ensures SameBlocks(lists, Pass(lists))
    ensures AnyMisplaced(lists) ==> TotalPairs(Pass(lists)) < TotalPairs(lists)
  {
    if l, i :| FirstMisplaced(lists, l, i) {
      PassSeparatesFirst(lists, l, i);
      SeparationProgress(lists, l, i);
    }
  }

  /** Passes until nothing is misplaced. */
  ghost function Align(lists: seq<Blocks>): seq<Blocks>
    decreases TotalPairs(lists)
  {
    PassProgress(lists);
    if AnyMisplaced(lists) then Align(Pass(lists)) else lists
  }

  lemma AlignStep(lists: seq<Blocks>)
    ensures Align(lists) == Align(Pass(lists))
    ensures !AnyMisplaced(lists) ==> Pass(lists) == lists && Align(lists) == lists
  {
  }

  /**
    In every list, a non-empty block that directly follows a non-empty block is at or past the first
    index of that block in any list.
   */
  ghost predicate LinedUp(lists: seq<Blocks>) {
    forall l, i, m | 0 <= l < |lists| && 0 < i < |lists[l]| && 0 <= m < |lists| ::
      lists[l][i] != [] && lists[l][i - 1] != [] && lists[l][i] in lists[m]
      ==> FirstIndex(lists[m], lists[l][i]) <= i
  }

  lemma LinedUpUnlessMisplaced(lists: seq<Blocks>, l: nat, i: nat, m: nat)
    requires l < |lists| && 0 < i < |lists[l]| && m < |lists| && !Misplaced(lists, l, i)
    requires lists[l][i] != [] && lists[l][i - 1] != [] && lists[l][i] in lists[m]
    ensures FirstIndex(lists[m], lists[l][i]) <= i
  {
    FarthestBounds(lists, lists[l][i], m);
  }

  lemma NotMisplaced(lists: seq<Blocks>, l: nat, i: nat)
    requires LinedUp(lists)
    ensures !Misplaced(lists, l, i)
  {
    hide FarthestIn, FirstIndex;
    if l < |lists| && 0 < i < |lists[l]| && lists[l][i] != [] && lists[l][i - 1] != [] {
      FarthestBounded(lists, lists[l][i], i);
    }
  }

  lemma LinedUpIff(lists: seq<Blocks>)
    ensures LinedUp(lists) <==> !AnyMisplaced(lists)
  {
    hide Misplaced, FirstIndex;
    if !AnyMisplaced(lists) {
      forall l, i, m | 0 <= l < |lists| && 0 < i < |lists[l]| && 0 <= m < |lists|
                       && lists[l][i] != [] && lists[l][i - 1] != [] && lists[l][i] in lists[m]
        ensures FirstIndex(lists[m], lists[l][i]) <= i
      {
        if Misplaced(lists, l, i) {
          SomeIsFirst(lists, l, i);
        }
        LinedUpUnlessMisplaced(lists, l, i, m);
      }
    }
    hide LinedUp;
    if l: nat, i: nat :| FirstMisplaced(lists, l, i) {
      if LinedUp(lists) {
        NotMisplaced(lists, l, i);
      }
    }
  }

  /** Lists are left as they are exactly if they are lined up: exactly then nothing is misplaced. */
  lemma LinedUpIsLeft(lists: seq<Blocks>)
    ensures LinedUp(lists) <==> !AnyMisplaced(lists)
    ensures LinedUp(lists) <==> Align(lists) == lists
  {
    LinedUpIff(lists);
    hide LinedUp, AnyMisplaced, Pass;
    AlignProgress(lists);
  }

  lemma SomeIsFirst(lists: seq<Blocks>, l: nat, i: nat)
    requires Misplaced(lists, l, i)
    ensures AnyMisplaced(lists)
    decreases l, i
  {
    if k: nat, j: nat :| k < l && Misplaced(lists, k, j) {
      SomeIsFirst(lists, k, j);
    } else if j: nat :| j < i && Misplaced(lists, l, j) {
      SomeIsFirst(lists, l, j);
    } else {
      assert FirstMisplaced(lists, l, i);
    }
  }

  /** The alignment keeps the blocks of every list, and ends when they are lined up. */
  lemma {:induction false} AlignLinesUp(lists: seq<Blocks>)
    ensures SameBlocks(lists, Align(lists)) && LinedUp(Align(lists))
    decreases TotalPairs(lists)
  {
    LinedUpIsLeft(lists);
    PassProgress(lists);
    if AnyMisplaced(lists) {
      AlignLinesUp(Pass(lists));
    }
  }

  lemma {:induction false} AlignProgress(lists: seq<Blocks>)
    ensures TotalPairs(Align(lists)) <= TotalPairs(lists)
    ensures AnyMisplaced(lists) ==> TotalPairs(Align(lists)) < TotalPairs(lists)
    decreases TotalPairs(lists)
  {
    PassProgress(lists);
    if AnyMisplaced(lists) {
      AlignProgress(Pass(lists));
    }
  }

  // ------------------------------------------------------------------------------------- the cache

  lemma InsertedLater(blocks: Blocks, i: nat, k: nat, block: Block)
    requires i <= |blocks|
    ensures IndexIn(blocks, block) <= IndexIn(Inserted(blocks, i, k), block)
  {
    var r := Inserted(blocks, i, k);
    if block != [] && block in blocks {
      var j := FirstIndex(blocks, block);
      assert r[if j < i then j else j + k] == block;
      var f := FirstIndex(r, block);
      assert blocks[if f < i then f else f - k] == block;
      FirstIndexIsFirst(blocks, block, if f < i then f else f - k);
    }
  }

  lemma {:induction false} FarthestGrows(lists: seq<Blocks>, l: nat, blocks: Blocks, block: Block)
    requires l < |lists| && IndexIn(lists[l], block) <= IndexIn(blocks, block)
    ensures FarthestIn(lists, block) <= FarthestIn(lists[l := blocks], block)
  {
    var n := |lists| - 1;
    if l < n {
      FarthestGrows(lists[..n], l, blocks, block);
      assert lists[l := blocks][..n] == lists[..n][l := blocks];
    } else {
      assert lists[l := blocks][..n] == lists[..n];
    }
  }

  /** Blocks are only moved towards the end, so what is cached remains valid. */
  lemma StillCached(farthest: Farthest, lists: seq<Blocks>)
    requires Cached(farthest, lists)
    ensures Cached(farthest, Pass(lists))
  {
    hide FarthestIn;
    if l: nat, i: nat :| FirstMisplaced(lists, l, i) {
      PassSeparatesFirst(lists, l, i);
      var shifted := Inserted(lists[l], i, FarthestIn(lists, lists[l][i]) - i);
      forall b ensures FarthestIn(lists, b) <= FarthestIn(Pass(lists), b) {
        InsertedLater(lists[l], i, FarthestIn(lists, lists[l][i]) - i, b);
        FarthestGrows(lists, l, shifted, b);
      }
    }
  }

  lemma CachedWithMore(farthest: Farthest, lists: seq<Blocks>, blocks: Blocks)
    requires Cached(farthest, lists)
    ensures Cached(farthest, lists + [blocks])
  {
    assert (lists + [blocks])[..|lists|] == lists;
  }

  /** Repeated alignment ends, with a result that depends on the lists only. */
  method AlignAll(lists: seq<Blocks>, farthest0: Farthest) returns (result: seq<Blocks>, farthest: Farthest)
    requires Cached(farthest0, lists)
    ensures result == Align(lists) && Cached(farthest, result)
  {
    hide Cached, FarthestIn, Pass, AnyMisplaced;
    result, farthest := lists, farthest0;
    var madeChanges := true;
    while madeChanges
      invariant Cached(farthest, result) && Align(result) == Align(lists)
      invariant !madeChanges ==> result == Align(result)
      decreases madeChanges, TotalPairs(result)
    {
      PassProgress(result);
      AlignStep(result);
      ghost var before := result;
      result, farthest, madeChanges := AlignMatchingBlocks(result, farthest);
      NowCached(farthest, before);
      StillCached(farthest, before);
    }
  }

  lemma NowCached(farthest: Farthest, lists: seq<Blocks>)
    requires forall b :: Far(farthest, b) == FarthestIn(lists, b)
    ensures Cached(farthest, lists)
  {
  }

  /** After each new list, all lists so far are aligned. */
  ghost function AlignedRuns(outputs: seq<Blocks>): seq<Blocks> {
    if |outputs| == 0 then [] else Align(AlignedRuns(outputs[..|outputs| - 1]) + [outputs[|outputs| - 1]])
  }

  /** The loop over the run lines. */
  method AlignRuns(outputs: seq<Blocks>) returns (lists: seq<Blocks>)
    ensures lists == AlignedRuns(outputs)
  {
    lists := [];
    var farthest: Farthest := map[];
    for k := 0 to |outputs|
      invariant Cached(farthest, lists) && lists == AlignedRuns(outputs[..k])
    {
      assert outputs[..k + 1][..k] == outputs[..k];
      CachedWithMore(farthest, lists, outputs[k]);
      lists, farthest := AlignAll(lists + [outputs[k]], farthest);
    }
    assert outputs[..|outputs|] == outputs;
  }

  lemma FrontIsLinedUp(lists: seq<Blocks>, n: nat)
    requires n <= |lists| && LinedUp(lists)
    ensures LinedUp(lists[..n])
  {
    hide FirstIndex;
  }

  lemma NothingIsLinedUp()
    ensures LinedUp([])
  {
  }

  lemma RunsStep(outputs: seq<Blocks>)
    requires |outputs| > 0
    ensures AlignedRuns(outputs) == Align(AlignedRuns(outputs[..|outputs| - 1]) + [outputs[|outputs| - 1]])
  {
    hide Align;
  }

  /** The lists that come out keep their blocks and are lined up; they are the given ones exactly if those are. */
  lemma {:induction false} RunsAreLinedUp(outputs: seq<Blocks>)
    ensures SameBlocks(outputs, AlignedRuns(outputs)) && LinedUp(AlignedRuns(outputs))
    ensures LinedUp(outputs) <==> AlignedRuns(outputs) == outputs
  {
    hide Align, LinedUp, NonEmpty;
    if |outputs| == 0 {
      NothingIsLinedUp();
    } else {
      var front, last := outputs[..|outputs| - 1], outputs[|outputs| - 1];
      RunsAreLinedUp(front);
      AlignLinesUp(AlignedRuns(front) + [last]);
      RunsStep(outputs);
      assert outputs == front + [last];
      hide AlignedRuns;
      if LinedUp(outputs) {
        FrontIsLinedUp(outputs, |outputs| - 1);
        LinedUpIsLeft(outputs);
      }
    }
  }

  // -------------------------------------------------------------------------------------- an example

  ghost predicate FourBlocks(x: Block, y: Block, z: Block, w: Block) {
    |x| > 0 && |y| > 0 && |z| > 0 && |w| > 0 && x != y && x != z && x != w && y != z && y != w && z != w
  }

  lemma OneListIsLinedUp(x: Block, y: Block, w: Block)
    requires x != y && x != w && y != w
    ensures AlignedRuns([[x, y, w]]) == [[x, y, w]]
  {
    var lists := [[x, y, w]];
    FirstIndexIs(lists[0], y, 1);
    FirstIndexIs(lists[0], w, 2);
    assert LinedUp(lists);
    hide LinedUp, FirstIndex, Align, AlignedRuns;
    RunsAreLinedUp(lists);
  }

  lemma FirstPass(x: Block, y: Block, z: Block, w: Block)
    requires FourBlocks(x, y, z, w)
    ensures var lists := [[x, y, w], [x, z, y]];
            AnyMisplaced(lists) && Pass(lists) == [[x, [], y, w], [x, z, y]]
  {
    var lists := [[x, y, w], [x, z, y]];
    FirstIndexIs(lists[0], y, 1);
    FirstIndexIs(lists[1], y, 2);
    FarthestBounds(lists, y, 1);
    FarthestBounded(lists, y, 2);
    assert FirstMisplaced(lists, 0, 1);
    PassSeparatesFirst(lists, 0, 1);
    assert Inserted(lists[0], 1, 1) == [x, [], y, w];
  }

  lemma SecondIsLinedUp(x: Block, y: Block, z: Block, w: Block)
    requires FourBlocks(x, y, z, w)
    ensures LinedUp([[x, [], y, w], [x, z, y]])
  {
    var a, b := [x, [], y, w], [x, z, y];
    FirstIndexIs(a, y, 2);
    FirstIndexIs(a, w, 3);
    FirstIndexIs(b, z, 1);
    FirstIndexIs(b, y, 2);
  }

  /** Y is moved to where the second list has it, and W with it: then only the first list has a fourth block. */
  lemma ExampleAlignment(x: Block, y: Block, z: Block, w: Block)
    requires FourBlocks(x, y, z, w)
    ensures AlignedRuns([[x, y, w], [x, z, y]]) == [[x, [], y, w], [x, z, y]]
  {
    var lists, aligned := [[x, y, w], [x, z, y]], [[x, [], y, w], [x, z, y]];
    OneListIsLinedUp(x, y, w);
    FirstPass(x, y, z, w);
    SecondIsLinedUp(x, y, z, w);
    hide LinedUp, AnyMisplaced, Pass;
    LinedUpIsLeft(aligned);
    AlignStep(lists);
    RunsStep(lists);
    assert lists[..1] == [[x, y, w]];
    assert [[x, y, w]] + [lists[1]] == lists;
  }
}
